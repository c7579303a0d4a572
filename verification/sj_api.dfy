/**
 * The SuperJob adapter (api/sj_api.py): the field extractors over one element
 * of the response's `objects`, the epoch-seconds to calendar-date conversion,
 * and the loop of `get_vacancies` over the parsed objects. The HTTP request
 * and the API key lookup are not modelled; the parsed `objects` value is an input.
 */
module SuperJobApi {
  import opened Wrappers
  import opened Vacancies
  import Dates
  import Adapter

  /** One element of `objects`, reduced to the keys the extractors read. */
  datatype Item = Item(profession: Nullable, link: Nullable, paymentFrom: Option<int>, paymentTo: Option<int>,
                       currency: string, datePublished: int, candidat: Nullable)

  /** `get_title`: `item['profession']`. */
  function GetTitle(item: Item): Nullable {
    item.profession
  }

  /** `get_url`: `item['link']`. */
  function GetUrl(item: Item): Nullable {
    item.link
  }

  /** `get_requirements`: `item['candidat']`. */
  function GetRequirements(item: Item): Nullable {
    item.candidat
  }

  /**
   * `get_salary`: min is `int(payment_from)`, so a null `payment_from` raises
   * TypeError before the `is None` repair can run. `(None or 0)` is 0, so max
   * is min exactly when `payment_to` is 0; a null `payment_to` is not 0 and
   * reaches `int(None)`. The bounds are left in the order they came.
   */
  function GetSalary(item: Item): (r: Result<Salary, Error>)
    ensures r.Ok? <==> item.paymentFrom.Some? && item.paymentTo.Some?
    ensures r.Err? ==> r.error == TypeError
    ensures r.Ok? ==> r.value.Pay? && r.value.min == item.paymentFrom.value && r.value.currency == item.currency
    ensures r.Ok? ==> r.value.max == if item.paymentTo.value == 0 then r.value.min else item.paymentTo.value
  {
    if item.paymentFrom.None? then Err(TypeError)
    else
      var min := item.paymentFrom.value;
      if item.paymentTo == Some(0) then Ok(Pay(min, min, item.currency))
      else if item.paymentTo.None? then Err(TypeError)
      else Ok(Pay(min, item.paymentTo.value, item.currency))
  }

  /** Bounds that arrive reversed stay reversed here and are put in order by check_salary. */
  lemma ReversedBoundsSwappedByCheck(item: Item)
    requires item.paymentFrom.Some? && item.paymentTo.Some?
    requires item.paymentFrom.value > item.paymentTo.value > 0 && item.currency != ""
    ensures GetSalary(item).value.min > GetSalary(item).value.max
    ensures CheckSalary(GetSalary(item).value) ==
      Ok(Pay(item.paymentTo.value, item.paymentFrom.value, item.currency))
  {
  }

  /**
   * `get_date_pub`: the UTC calendar date of `date_published`, rendered as
   * `YYYY-MM-DD`; a date outside years 1..9999 is out of range for `datetime`.
   */
  function GetDatePub(item: Item): (r: Result<string, Error>)
    ensures r.Ok? <==> 1 <= Dates.UtcDate(item.datePublished).year <= 9999
    ensures r.Ok? ==> Dates.IsIsoDate(r.value) && Dates.Parse(r.value) == Some(Dates.UtcDate(item.datePublished))
    ensures r.Err? ==> r.error == ValueError
  {
    var d := Dates.UtcDate(item.datePublished);
    if 1 <= d.year <= 9999 then (
      Dates.ParseFormat(d);
      Dates.IsIsoDateExactly(Dates.Format(d));
      Ok(Dates.Format(d)))
    else Err(ValueError)
  }

  /** Every timestamp of one 86400-second block gives the same date. */
  lemma SameDaySameDate(a: Item, b: Item, k: int)
    requires k * 86400 <= a.datePublished < (k + 1) * 86400
    requires k * 86400 <= b.datePublished < (k + 1) * 86400
    ensures GetDatePub(a) == GetDatePub(b)
  {
    Dates.UtcDateOfDay(k, a.datePublished);
    Dates.UtcDateOfDay(k, b.datePublished);
  }

  /** The first day after the epoch. */
  lemma EpochDay(item: Item)
    requires 0 <= item.datePublished < 86400
    ensures GetDatePub(item) == Ok("1970-01-01")
  {
    Dates.UtcDateOfFirstDay(item.datePublished);
    Dates.EpochRendering();
  }

  /**
   * A timestamp computed by the formula of section 4.16 of POSIX.1-2017 Base
   * Definitions from a date and a time of day converts back to that date.
   */
  lemma PosixRoundTrip(item: Item, d: Dates.Date, hour: int, minute: int, second: int)
    requires Dates.Valid(d)
    requires 0 <= hour < 24 && 0 <= minute < 60 && 0 <= second < 60
    requires item.datePublished == Dates.PosixSeconds(d, hour, minute, second)
    ensures GetDatePub(item) == Ok(Dates.Format(d))
  {
    Dates.UtcDateInvertsPosix(d, hour, minute, second);
  }

  /** Whatever `get_date_pub` returns, check_date_pub accepts unchanged. */
  lemma DatePassesCheck(item: Item)
    requires GetDatePub(item).Ok?
    ensures CheckDatePub(Some(GetDatePub(item).value)) == Ok(GetDatePub(item).value)
  {
  }

  /** One item through the extractors, in argument order, and then the checks. */
  function Build(item: Item, urlOk: string -> bool): (r: Result<Fields, Error>)
    ensures GetSalary(item).Err? ==> r == Err(TypeError)
    ensures GetSalary(item).Ok? && GetDatePub(item).Err? ==> r == Err(ValueError)
    ensures r.Err? ==> r.error != ParsingError && r.error != BadDate
    ensures r.Ok? <==>
      GetSalary(item).Ok? && GetDatePub(item).Ok? &&
      Truthy(item.profession) && UrlPasses(item.link, urlOk) && Truthy(item.candidat)
    ensures GetSalary(item).Ok? && GetDatePub(item).Ok? ==>
      r == Validate(item.profession, item.link, GetSalary(item).value, Some(GetDatePub(item).value), item.candidat, urlOk)
    ensures r.Ok? ==>
      r.value.title == item.profession.value && r.value.url == item.link.value &&
      r.value.requirements == item.candidat.value && r.value.pubDate == GetDatePub(item).value
    ensures r.Ok? && r.value.salary.Pay? ==>
      r.value.salary.min <= r.value.salary.max &&
      multiset{r.value.salary.min, r.value.salary.max} == multiset{GetSalary(item).value.min, GetSalary(item).value.max}
  {
    var salary :- GetSalary(item);
    var pubDate :- GetDatePub(item);
    Validate(GetTitle(item), GetUrl(item), salary, Some(pubDate), GetRequirements(item), urlOk)
  }

  /** The outcome of building each item, in item order. */
  function Outcomes(items: seq<Item>, urlOk: string -> bool): (os: seq<Result<Fields, Error>>)
    ensures |os| == |items|
  {
    if items == [] then [] else [Build(items[0], urlOk)] + Outcomes(items[1..], urlOk)
  }

  /** Item i's outcome is what building that item gives. */
  lemma {:induction false} OutcomesAt(items: seq<Item>, urlOk: string -> bool, i: nat)
    requires i < |items|
    ensures Outcomes(items, urlOk)[i] == Build(items[i], urlOk)
  {
    if i > 0 {
      OutcomesAt(items[1..], urlOk, i - 1);
    }
  }

  /** `response_json.get("objects", [])`; None stands for a response without the key. */
  function ItemsOf(items: Option<seq<Item>>): seq<Item> {
    if items.Some? then items.value else []
  }

  /** One pass of the loop body: the extractors, a fresh salary dict, the constructor. */
  method MakeVacancy(items: seq<Item>, i: nat, urlOk: string -> bool) returns (r: Result<Vacancy, Error>)
    requires i < |items|
    ensures DictOf(r) == Outcomes(items, urlOk)[i]
    ensures r.Err? ==> r.error != ParsingError
    ensures r.Ok? ==> fresh(r.value)
  {
    OutcomesAt(items, urlOk, i);
    var item := items[i];
    var salary :- GetSalary(item);
    var pubDate :- GetDatePub(item);
    var dict := new SalaryDict(salary);
    r := Vacancy.New(GetTitle(item), GetUrl(item), dict, Some(pubDate), GetRequirements(item), urlOk);
  }

  /** `get_vacancies` once the response is parsed. */
  method GetVacancies(items: Option<seq<Item>>, urlOk: string -> bool) returns (r: Result<seq<Vacancy>, Error>)
    ensures DictsOf(r) == Adapter.Collect(Outcomes(ItemsOf(items), urlOk))
    ensures r.Ok? ==> forall v :: v in r.value ==> fresh(v)
    ensures r.Ok? ==> NoDuplicates(r.value)
  {
    var list := ItemsOf(items);
    ghost var os := Outcomes(list, urlOk);
    var vacancies: seq<Vacancy> := [];
    ghost var made: set<Vacancy> := {};
    var i := 0;
    assert os[0..] == os && Dicts([]) == [];
    assert Adapter.Prepend([], Adapter.Collect(os)) == Adapter.Collect(os) by {
      if Adapter.Collect(os).Ok? {
        assert [] + Adapter.Collect(os).value == Adapter.Collect(os).value;
      }
    }
    while i < |list|
      invariant 0 <= i <= |list|
      invariant Adapter.Collect(os) == Adapter.Prepend(Dicts(vacancies), Adapter.Collect(os[i..]))
      invariant forall v :: v in vacancies ==> v in made
      invariant NoDuplicates(vacancies)
      invariant fresh(made)
    {
      var v := MakeVacancy(list, i, urlOk);
      Adapter.CollectAdvance(os, i, vacancies, v);
      if v.Err? {
        return Err(v.error);
      }
      assert v.value !in made;
      NoDuplicatesAppend(vacancies, v.value);
      vacancies := vacancies + [v.value];
      made := made + {v.value};
      i := i + 1;
    }
    Adapter.CollectEnd(os, vacancies);
    return Ok(vacancies);
  }

  /**
   * Since no item yields a ParsingError, a fetch returns one vacancy per item
   * in response order, or the first item's error; without `objects` it is empty.
   */
  lemma FetchAllOrError(items: Option<seq<Item>>, urlOk: string -> bool)
    ensures items.None? ==> Adapter.Collect(Outcomes(ItemsOf(items), urlOk)) == Ok([])
    ensures var list := ItemsOf(items); var c := Adapter.Collect(Outcomes(list, urlOk));
      c.Ok? ==> |c.value| == |list| && forall i :: 0 <= i < |list| ==> Build(list[i], urlOk) == Ok(c.value[i])
    ensures var list := ItemsOf(items); var c := Adapter.Collect(Outcomes(list, urlOk));
      c.Err? ==> exists k :: (0 <= k < |list| && Build(list[k], urlOk) == Err(c.error) &&
        forall j :: 0 <= j < k ==> Build(list[j], urlOk).Ok?)
  {
    var list := ItemsOf(items);
    var os := Outcomes(list, urlOk);
    Adapter.CollectCharacterized(os);
    forall i | 0 <= i < |list| ensures os[i] == Build(list[i], urlOk) {
      OutcomesAt(list, urlOk, i);
    }
  }
}
