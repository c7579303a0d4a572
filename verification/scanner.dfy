/**
 * The collection operations of `VacancyScanner` (src/vacancy_scanner.py): each
 * replaces the scanner's list of vacancies by a sorted, truncated or filtered
 * copy of it. The menu and prompt loops around them are not modelled.
 */
module Scanner {
  import opened Wrappers
  import opened Vacancies
  import Dates

  /** The sort key of `sort_vacancies_by_salary`: `medium_salary`, on paid vacancies. */
  function SalaryRank(v: Vacancy): int {
    if v.salary.Pay? then Medium(v.salary.min, v.salary.max) else 0
  }

  /** The sort key of `sort_vacancies_by_date`: the publication date, as a number. */
  function DateRank(v: Vacancy): int {
    Dates.DateKey(Dates.Parse(v.pubDate).value)
  }

  predicate SortedDesc(s: seq<Vacancy>, rank: Vacancy -> int) {
    forall i, j :: 0 <= i < j < |s| ==> rank(s[i]) >= rank(s[j])
  }

  /** The entries of s whose key is k, in their order in s. */
  function WithRank(s: seq<Vacancy>, rank: Vacancy -> int, k: int): seq<Vacancy> {
    if s == [] then [] else (if rank(s[0]) == k then [s[0]] else []) + WithRank(s[1..], rank, k)
  }

  /** Puts x in front of the first entry whose key does not exceed x's. */
  function Insert(x: Vacancy, s: seq<Vacancy>, rank: Vacancy -> int): seq<Vacancy> {
    if s == [] || rank(s[0]) <= rank(x) then [x] + s else [s[0]] + Insert(x, s[1..], rank)
  }

  /** `sorted(s, key=rank, reverse=True)`: stable, so entries with equal keys keep their order. */
  function SortDesc(s: seq<Vacancy>, rank: Vacancy -> int): seq<Vacancy> {
    if s == [] then [] else Insert(s[0], SortDesc(s[1..], rank), rank)
  }

  lemma {:induction false} InsertPermutes(x: Vacancy, s: seq<Vacancy>, rank: Vacancy -> int)
    ensures multiset(Insert(x, s, rank)) == multiset(s) + multiset{x}
  {
    if !(s == [] || rank(s[0]) <= rank(x)) {
      InsertPermutes(x, s[1..], rank);
      assert s == [s[0]] + s[1..];
    }
  }

  lemma {:induction false} InsertStable(x: Vacancy, s: seq<Vacancy>, rank: Vacancy -> int, k: int)
    ensures WithRank(Insert(x, s, rank), rank, k) == (if rank(x) == k then [x] else []) + WithRank(s, rank, k)
  {
    var r := Insert(x, s, rank);
    if s == [] || rank(s[0]) <= rank(x) {
      assert r[1..] == s;
    } else {
      var t := Insert(x, s[1..], rank);
      InsertStable(x, s[1..], rank, k);
      assert r[1..] == t;
    }
  }

  lemma {:induction false} InsertSorted(x: Vacancy, s: seq<Vacancy>, rank: Vacancy -> int)
    requires SortedDesc(s, rank)
    ensures SortedDesc(Insert(x, s, rank), rank)
  {
    var r := Insert(x, s, rank);
    if s == [] || rank(s[0]) <= rank(x) {
      assert r[1..] == s;
    } else {
      var t := Insert(x, s[1..], rank);
      assert SortedDesc(s[1..], rank);
      InsertSorted(x, s[1..], rank);
      InsertPermutes(x, s[1..], rank);
      assert r == [s[0]] + t;
      forall j | 1 <= j < |r|
        ensures rank(r[0]) >= rank(r[j])
      {
        assert r[j] == t[j - 1];
        assert t[j - 1] in multiset(t);
        if r[j] != x {
          assert r[j] in multiset(s[1..]);
          var m :| 0 <= m < |s[1..]| && s[1..][m] == r[j];
          assert s[m + 1] == r[j];
        }
      }
    }
  }

  lemma {:induction false} SortDescSorted(s: seq<Vacancy>, rank: Vacancy -> int)
    ensures SortedDesc(SortDesc(s, rank), rank)
  {
    if s != [] {
      SortDescSorted(s[1..], rank);
      InsertSorted(s[0], SortDesc(s[1..], rank), rank);
    }
  }

  lemma {:induction false} SortDescPermutes(s: seq<Vacancy>, rank: Vacancy -> int)
    ensures multiset(SortDesc(s, rank)) == multiset(s)
    ensures |SortDesc(s, rank)| == |s|
  {
    if s != [] {
      SortDescPermutes(s[1..], rank);
      InsertPermutes(s[0], SortDesc(s[1..], rank), rank);
      assert s == [s[0]] + s[1..];
      calc {
        |SortDesc(s, rank)|;
        |multiset(SortDesc(s, rank))|;
        |multiset(s)|;
        |s|;
      }
    }
  }

  lemma {:induction false} SortDescStable(s: seq<Vacancy>, rank: Vacancy -> int, k: int)
    ensures WithRank(SortDesc(s, rank), rank, k) == WithRank(s, rank, k)
  {
    if s != [] {
      SortDescStable(s[1..], rank, k);
      InsertStable(s[0], SortDesc(s[1..], rank), rank, k);
    }
  }

  /** The sort orders by non-increasing key, is a permutation, and is stable. */
  lemma SortDescCorrect(s: seq<Vacancy>, rank: Vacancy -> int)
    ensures SortedDesc(SortDesc(s, rank), rank)
    ensures multiset(SortDesc(s, rank)) == multiset(s)
    ensures |SortDesc(s, rank)| == |s|
    ensures forall k :: WithRank(SortDesc(s, rank), rank, k) == WithRank(s, rank, k)
  {
    SortDescSorted(s, rank);
    SortDescPermutes(s, rank);
    forall k ensures WithRank(SortDesc(s, rank), rank, k) == WithRank(s, rank, k) {
      SortDescStable(s, rank, k);
    }
  }

  /**
   * After sorting paid vacancies by salary, no vacancy is `>` one placed
   * before it, and every vacancy still has a salary.
   */
  lemma SalarySortAgreesWithGt(s: seq<Vacancy>)
    requires AllPaid(s)
    ensures AllPaid(SortDesc(s, SalaryRank))
    ensures var r := SortDesc(s, SalaryRank);
      forall i, j :: 0 <= i < j < |r| ==> r[j].Gt(r[i]) == Ok(false)
  {
    var r := SortDesc(s, SalaryRank);
    SortDescSorted(s, SalaryRank);
    SortDescPermutes(s, SalaryRank);
    forall i | 0 <= i < |r|
      ensures r[i].salary.Pay?
    {
      assert r[i] in multiset(s);
      var k :| 0 <= k < |s| && s[k] == r[i];
    }
  }

  /** On stored publication dates, the date key orders exactly as Python compares the strings. */
  lemma DateRankIsStringOrder(v: Vacancy, w: Vacancy)
    ensures Dates.StrLess(v.pubDate, w.pubDate) <==> DateRank(v) < DateRank(w)
  {
    Dates.IsoOrderIsChronological(v.pubDate, w.pubDate);
    Dates.BeforeIsKeyOrder(Dates.Parse(v.pubDate).value, Dates.Parse(w.pubDate).value);
  }

  /** `s[:amount]`; `amount` is None until a search has set it. */
  function Truncate(s: seq<Vacancy>, amount: Option<nat>): seq<Vacancy> {
    match amount
    case None => s
    case Some(n) => if n < |s| then s[..n] else s
  }

  function Min(a: int, b: int): int {
    if a < b then a else b
  }

  /** A list ordered by non-increasing date key is newest first by Python string order. */
  lemma NewestFirst(s: seq<Vacancy>)
    requires SortedDesc(s, DateRank)
    ensures forall i, j :: 0 <= i < j < |s| ==> !Dates.StrLess(s[i].pubDate, s[j].pubDate)
  {
    forall i, j | 0 <= i < j < |s|
      ensures !Dates.StrLess(s[i].pubDate, s[j].pubDate)
    {
      DateRankIsStringOrder(s[i], s[j]);
    }
  }

  /**
   * Sorting by date then truncating keeps min(len, amount) entries, newest
   * first by Python string order; no dropped entry is newer than a kept one.
   */
  lemma SortByDateCorrect(s: seq<Vacancy>, n: nat)
    ensures |Truncate(SortDesc(s, DateRank), Some(n))| == Min(|s|, n)
    ensures var r := Truncate(SortDesc(s, DateRank), Some(n));
      forall i, j :: 0 <= i < j < |r| ==> !Dates.StrLess(r[i].pubDate, r[j].pubDate)
    ensures var sorted := SortDesc(s, DateRank);
      forall i, j :: 0 <= i < Min(|s|, n) <= j < |sorted| ==> !Dates.StrLess(sorted[i].pubDate, sorted[j].pubDate)
    ensures multiset(Truncate(SortDesc(s, DateRank), Some(n))) <= multiset(s)
  {
    var sorted := SortDesc(s, DateRank);
    SortDescSorted(s, DateRank);
    SortDescPermutes(s, DateRank);
    NewestFirst(sorted);
    TruncateTakes(sorted, n);
  }

  /** Truncating to n keeps the first n entries, or all of them when there are fewer. */
  lemma TruncateTakes(s: seq<Vacancy>, n: nat)
    ensures Truncate(s, Some(n)) == s[..Min(|s|, n)]
    ensures multiset(Truncate(s, Some(n))) <= multiset(s)
  {
    assert s == s[..Min(|s|, n)] + s[Min(|s|, n)..];
  }

  /** Python's `str.lower()` on ASCII letters and the Cyrillic capitals U+0400..U+042F. */
  function LowerChar(c: char): char {
    if 'A' <= c <= 'Z' then (c as int + 32) as char
    else if '\U{0410}' <= c <= '\U{042F}' then (c as int + 32) as char
    else if '\U{0400}' <= c <= '\U{040F}' then (c as int + 80) as char
    else c
  }

  /** `str.lower()`, character by character. */
  function Lower(s: string): string {
    seq(|s|, i requires 0 <= i < |s| => LowerChar(s[i]))
  }

  /** A lowered string has nothing left to lower. */
  lemma LowerIdempotent(s: string)
    ensures Lower(Lower(s)) == Lower(s)
  {
    assert forall i :: 0 <= i < |s| ==> LowerChar(LowerChar(s[i])) == LowerChar(s[i]);
  }

  /** `needle in haystack` on str: needle occurs as a contiguous run. */
  predicate Contains(haystack: string, needle: string) {
    needle <= haystack || (haystack != [] && Contains(haystack[1..], needle))
  }

  /** needle is the slice of haystack that starts at offset i. */
  predicate OccursAt(haystack: string, needle: string, i: int) {
    0 <= i && i + |needle| <= |haystack| && haystack[i..i + |needle|] == needle
  }

  /** `needle in haystack` holds exactly when needle is the slice of haystack at some offset. */
  lemma ContainsAt(haystack: string, needle: string)
    ensures Contains(haystack, needle) <==> exists i :: OccursAt(haystack, needle, i)
  {
    if Contains(haystack, needle) {
      ContainsHasOffset(haystack, needle);
    }
    if exists i :: OccursAt(haystack, needle, i) {
      var i :| OccursAt(haystack, needle, i);
      OffsetContains(haystack, needle, i);
    }
  }

  lemma {:induction false} ContainsHasOffset(haystack: string, needle: string)
    requires Contains(haystack, needle)
    ensures exists i :: OccursAt(haystack, needle, i)
  {
    if needle <= haystack {
      assert OccursAt(haystack, needle, 0);
    } else {
      var tail := haystack[1..];
      ContainsHasOffset(tail, needle);
      var i :| OccursAt(tail, needle, i);
      assert haystack[i + 1..i + 1 + |needle|] == tail[i..i + |needle|];
      assert OccursAt(haystack, needle, i + 1);
    }
  }

  lemma {:induction false} OffsetContains(haystack: string, needle: string, i: int)
    requires OccursAt(haystack, needle, i)
    ensures Contains(haystack, needle)
    decreases i
  {
    if i == 0 {
      assert needle <= haystack;
    } else {
      var tail := haystack[1..];
      assert tail[i - 1..i - 1 + |needle|] == haystack[i..i + |needle|];
      OffsetContains(tail, needle, i - 1);
    }
  }

  predicate Matches(v: Vacancy, keyword: string) {
    Contains(Lower(v.requirements), Lower(keyword))
  }

  /** `list(filter(lambda x: keyword.lower() in x.requirements.lower(), s))` */
  function FilterByKeyword(s: seq<Vacancy>, keyword: string): seq<Vacancy> {
    if s == [] then [] else (if Matches(s[0], keyword) then [s[0]] else []) + FilterByKeyword(s[1..], keyword)
  }

  /** a is what remains of b after deleting some of its entries. */
  predicate IsSubsequence(a: seq<Vacancy>, b: seq<Vacancy>) {
    if b == [] then a == []
    else (a != [] && a[0] == b[0] && IsSubsequence(a[1..], b[1..])) || IsSubsequence(a, b[1..])
  }

  /**
   * The filter keeps exactly the matching entries, each as often as it occurs,
   * in their original order.
   */
  lemma {:induction false} FilterExact(s: seq<Vacancy>, keyword: string)
    ensures IsSubsequence(FilterByKeyword(s, keyword), s)
    ensures forall v :: v in FilterByKeyword(s, keyword) ==> Matches(v, keyword)
    ensures forall v :: multiset(FilterByKeyword(s, keyword))[v] == if Matches(v, keyword) then multiset(s)[v] else 0
  {
    if s != [] {
      FilterExact(s[1..], keyword);
      var rest := FilterByKeyword(s[1..], keyword);
      assert s == [s[0]] + s[1..];
      if Matches(s[0], keyword) {
        var r := [s[0]] + rest;
        assert FilterByKeyword(s, keyword) == r;
        assert r != [] && r[0] == s[0] && r[1..] == rest;
        assert IsSubsequence(r, s);
      } else {
        assert FilterByKeyword(s, keyword) == rest;
        assert IsSubsequence(rest, s[1..]);
      }
    }
  }

  lemma {:induction false} FilterIdempotent(s: seq<Vacancy>, keyword: string)
    ensures FilterByKeyword(FilterByKeyword(s, keyword), keyword) == FilterByKeyword(s, keyword)
  {
    if s != [] {
      FilterIdempotent(s[1..], keyword);
      var rest := FilterByKeyword(s[1..], keyword);
      if Matches(s[0], keyword) {
        var r := [s[0]] + rest;
        assert FilterByKeyword(s, keyword) == r;
        assert r[0] == s[0] && r[1..] == rest;
        assert FilterByKeyword(r, keyword) == [s[0]] + FilterByKeyword(rest, keyword);
      } else {
        assert FilterByKeyword(s, keyword) == rest;
      }
    }
  }

  /**
   * Both sides are lowered before the test, so the keyword's case does not
   * matter: filtering by a keyword is filtering by its lowered form.
   */
  lemma {:induction false} FilterIgnoresCase(s: seq<Vacancy>, keyword: string)
    ensures FilterByKeyword(s, keyword) == FilterByKeyword(s, Lower(keyword))
  {
    LowerIdempotent(keyword);
    if s != [] {
      FilterIgnoresCase(s[1..], keyword);
    }
  }

  /** `'' in x` always holds, so an empty keyword keeps every entry. */
  lemma {:induction false} FilterEmptyKeyword(s: seq<Vacancy>)
    ensures FilterByKeyword(s, "") == s
  {
    if s != [] {
      FilterEmptyKeyword(s[1..]);
      assert Lower("") == "";
      assert s == [s[0]] + s[1..];
    }
  }

  predicate AllPaid(s: seq<Vacancy>) {
    forall i :: 0 <= i < |s| ==> s[i].salary.Pay?
  }

  /** The platforms `choose_platform` offers. */
  datatype Site = HeadHunter | SuperJob

  class VacancyScanner {
    var vacancies: seq<Vacancy>
    var keyword: Option<string>
    var amountVacancy: Option<nat>
    var siteToParse: Option<Site>
    const availableSites: map<string, Site>

    constructor ()
      ensures vacancies == [] && keyword == None && amountVacancy == None && siteToParse == None
      ensures availableSites == map["1" := HeadHunter, "2" := SuperJob]
    {
      vacancies := [];
      keyword := None;
      amountVacancy := None;
      siteToParse := None;
      availableSites := map["1" := HeadHunter, "2" := SuperJob];
    }

    /**
     * `sort_vacancies_by_salary`: `sorted` reads every key first, so one
     * vacancy with the empty salary raises KeyError and leaves the list as it was.
     */
    method SortBySalary() returns (r: Result<(), Error>)
      modifies this
      ensures !AllPaid(old(vacancies)) ==> r == Err(KeyError) && vacancies == old(vacancies)
      ensures AllPaid(old(vacancies)) ==> r == Ok(()) && vacancies == SortDesc(old(vacancies), SalaryRank)
      ensures keyword == old(keyword) && amountVacancy == old(amountVacancy) && siteToParse == old(siteToParse)
    {
      if !AllPaid(vacancies) {
        return Err(KeyError);
      }
      vacancies := SortDesc(vacancies, SalaryRank);
      return Ok(());
    }

    /** `sort_vacancies_by_date`: newest first, then the first `amount_vacancy` entries. */
    method SortByDate()
      modifies this
      ensures vacancies == Truncate(SortDesc(old(vacancies), DateRank), amountVacancy)
      ensures keyword == old(keyword) && amountVacancy == old(amountVacancy) && siteToParse == old(siteToParse)
    {
      vacancies := Truncate(SortDesc(vacancies, DateRank), amountVacancy);
    }

    /** `filter_vacancies_by_keyword_in_requirements(keyword)` */
    method FilterByRequirements(keyword: string)
      modifies this
      ensures vacancies == FilterByKeyword(old(vacancies), keyword)
      ensures this.keyword == old(this.keyword) && amountVacancy == old(amountVacancy) && siteToParse == old(siteToParse)
    {
      vacancies := FilterByKeyword(vacancies, keyword);
    }
  }
}
