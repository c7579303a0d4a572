/**
 * The HeadHunter adapter (api/hh_api.py): the field extractors that turn one
 * element of the response's `items` into constructor arguments, and the loop
 * of `get_vacancies` over the parsed items. The HTTP request is not modelled;
 * the parsed `items` value is an input.
 */
module HeadHunterApi {
  import opened Wrappers
  import opened Vacancies
  import Dates
  import Adapter

  /** `item['salary']` when it is an object; `from` and `to` may be null. */
  datatype HHSalary = HHSalary(from: Option<int>, to: Option<int>, currency: string)

  /** One element of `items`, reduced to the keys the extractors read. */
  datatype Item = Item(name: Nullable, url: Nullable, salary: Option<HHSalary>, publishedAt: Nullable,
                       requirement: Nullable)

  /** `get_title`: `item['name']`. */
  function GetTitle(item: Item): Nullable {
    item.name
  }

  /** `get_url`: `item['url']`. */
  function GetUrl(item: Item): Nullable {
    item.url
  }

  /** `get_requirements`: `item['snippet']['requirement']`. */
  function GetRequirements(item: Item): Nullable {
    item.requirement
  }

  /**
   * `get_salary`: min is `int(from)`; the branch on a null `to` sets max to
   * min, and the next line sets max to `int(from)` anyway, so max is min
   * whatever `to` holds. A null salary or a null `from` raises TypeError.
   */
  function GetSalary(item: Item): (r: Result<Salary, Error>)
    ensures r.Ok? <==> item.salary.Some? && item.salary.value.from.Some?
    ensures r.Err? ==> r.error == TypeError
    ensures r.Ok? ==>
      r.value.Pay? && r.value.min == item.salary.value.from.value && r.value.max == r.value.min &&
      r.value.currency == item.salary.value.currency
  {
    match item.salary
    case None => Err(TypeError)
    case Some(s) =>
      if s.from.None? then Err(TypeError)
      else
        var min := s.from.value;
        var max := if s.to.None? then min else s.from.value;
        Ok(Pay(min, max, s.currency))
  }

  /** `to` plays no part in the salary. */
  lemma GetSalaryIgnoresTo(item: Item, to: Option<int>)
    requires item.salary.Some?
    ensures GetSalary(item.(salary := Some(item.salary.value.(to := to)))) == GetSalary(item)
  {
  }

  /** `s[:10]` */
  function Head(s: string): (h: string)
    ensures |h| == if |s| < 10 then |s| else 10
    ensures h <= s
  {
    if |s| < 10 then s else s[..10]
  }

  /**
   * `get_date_pub`: parses the first ten characters of `published_at` as a
   * date and renders it back; the result is those ten characters whenever
   * they name a date, ValueError when they do not, and TypeError when
   * `published_at` is null (`None[:10]`).
   */
  function GetDatePub(item: Item): (r: Result<string, Error>)
    ensures item.publishedAt.None? ==> r == Err(TypeError)
    ensures item.publishedAt.Some? ==>
      (r.Ok? <==> Dates.FromIsoFormat(Head(item.publishedAt.value)).Some?)
    ensures item.publishedAt.Some? && r.Err? ==> r.error == ValueError
    ensures r.Ok? ==>
      item.publishedAt.Some? && r.value == Head(item.publishedAt.value) && Dates.IsIsoDate(r.value)
  {
    match item.publishedAt
    case None => Err(TypeError)
    case Some(s) =>
      var head := Head(s);
      Dates.IsIsoDateExactly(head);
      match Dates.FromIsoFormat(head)
      case None => Err(ValueError)
      case Some(d) => (Dates.FormatParse(head); Ok(Dates.Format(d)))
  }

  /**
   * `Vacancy(title=..., url=..., salary=..., pub_date=..., requirements=...)`
   * on one item: the extractors run in argument order, then the checks. The
   * date the extractor hands over always passes check_date_pub.
   */
  function Build(item: Item, urlOk: string -> bool): (r: Result<Fields, Error>)
    ensures GetSalary(item).Err? ==> r == Err(TypeError)
    ensures GetSalary(item).Ok? && GetDatePub(item).Err? ==> r == Err(GetDatePub(item).error)
    ensures r.Err? ==> r.error != ParsingError && r.error != BadDate
    ensures r.Ok? <==>
      GetSalary(item).Ok? && GetDatePub(item).Ok? &&
      Truthy(item.name) && UrlPasses(item.url, urlOk) && Truthy(item.requirement)
    ensures GetSalary(item).Ok? && GetDatePub(item).Ok? ==>
      r == Validate(item.name, item.url, GetSalary(item).value, Some(GetDatePub(item).value), item.requirement, urlOk)
    ensures r.Ok? ==>
      r.value.title == item.name.value && r.value.url == item.url.value &&
      r.value.requirements == item.requirement.value && item.publishedAt.Some? && r.value.pubDate == Head(item.publishedAt.value)
    ensures r.Ok? && r.value.salary.Pay? ==>
      r.value.salary.min == r.value.salary.max == item.salary.value.from.value
  {
    var salary :- GetSalary(item);
    var pubDate :- GetDatePub(item);
    Validate(GetTitle(item), GetUrl(item), salary, Some(pubDate), GetRequirements(item), urlOk)
  }

  /** The outcome of building each item, in item order. */
  function Outcomes(items: seq<Item>, urlOk: string -> bool): (os: seq<Result<Fields, Error>>)
    ensures |os| == |items|
  {
    if items == [] then [] else [Build(items[0], urlOk)] + Outcomes(items[1..], urlOk)
  }

  /** Item i's outcome is what building that item gives. */
  lemma {:induction false} OutcomesAt(items: seq<Item>, urlOk: string -> bool, i: nat)
    requires i < |items|
    ensures Outcomes(items, urlOk)[i] == Build(items[i], urlOk)
  {
    if i > 0 {
      OutcomesAt(items[1..], urlOk, i - 1);
    }
  }

  /** `response_json.get("items", [])`; None stands for a response without the key. */
  function ItemsOf(items: Option<seq<Item>>): seq<Item> {
    if items.Some? then items.value else []
  }

  /** One pass of the loop body: the extractors, a fresh salary dict, the constructor. */
  method MakeVacancy(items: seq<Item>, i: nat, urlOk: string -> bool) returns (r: Result<Vacancy, Error>)
    requires i < |items|
    ensures DictOf(r) == Outcomes(items, urlOk)[i]
    ensures r.Err? ==> r.error != ParsingError
    ensures r.Ok? ==> fresh(r.value)
  {
    OutcomesAt(items, urlOk, i);
    var item := items[i];
    var salary :- GetSalary(item);
    var pubDate :- GetDatePub(item);
    var dict := new SalaryDict(salary);
    r := Vacancy.New(GetTitle(item), GetUrl(item), dict, Some(pubDate), GetRequirements(item), urlOk);
  }

  /** `get_vacancies` once the response is parsed. */
  method GetVacancies(items: Option<seq<Item>>, urlOk: string -> bool) returns (r: Result<seq<Vacancy>, Error>)
    ensures DictsOf(r) == Adapter.Collect(Outcomes(ItemsOf(items), urlOk))
    ensures r.Ok? ==> forall v :: v in r.value ==> fresh(v)
    ensures r.Ok? ==> NoDuplicates(r.value)
  {
    var list := ItemsOf(items);
    ghost var os := Outcomes(list, urlOk);
    var vacancies: seq<Vacancy> := [];
    ghost var made: set<Vacancy> := {};
    var i := 0;
    assert os[0..] == os && Dicts([]) == [];
    assert Adapter.Prepend([], Adapter.Collect(os)) == Adapter.Collect(os) by {
      if Adapter.Collect(os).Ok? {
        assert [] + Adapter.Collect(os).value == Adapter.Collect(os).value;
      }
    }
    while i < |list|
      invariant 0 <= i <= |list|
      invariant Adapter.Collect(os) == Adapter.Prepend(Dicts(vacancies), Adapter.Collect(os[i..]))
      invariant forall v :: v in vacancies ==> v in made
      invariant NoDuplicates(vacancies)
      invariant fresh(made)
    {
      var v := MakeVacancy(list, i, urlOk);
      Adapter.CollectAdvance(os, i, vacancies, v);
      if v.Err? {
        return Err(v.error);
      }
      assert v.value !in made;
      NoDuplicatesAppend(vacancies, v.value);
      vacancies := vacancies + [v.value];
      made := made + {v.value};
      i := i + 1;
    }
    Adapter.CollectEnd(os, vacancies);
    return Ok(vacancies);
  }

  /**
   * Since no item yields a ParsingError, a fetch returns one vacancy per item
   * in response order, or the first item's error; without `items` it is empty.
   */
  lemma FetchAllOrError(items: Option<seq<Item>>, urlOk: string -> bool)
    ensures items.None? ==> Adapter.Collect(Outcomes(ItemsOf(items), urlOk)) == Ok([])
    ensures var list := ItemsOf(items); var c := Adapter.Collect(Outcomes(list, urlOk));
      c.Ok? ==> |c.value| == |list| && forall i :: 0 <= i < |list| ==> Build(list[i], urlOk) == Ok(c.value[i])
    ensures var list := ItemsOf(items); var c := Adapter.Collect(Outcomes(list, urlOk));
      c.Err? ==> exists k :: (0 <= k < |list| && Build(list[k], urlOk) == Err(c.error) &&
        forall j :: 0 <= j < k ==> Build(list[j], urlOk).Ok?)
  {
    var list := ItemsOf(items);
    var os := Outcomes(list, urlOk);
    Adapter.CollectCharacterized(os);
    forall i | 0 <= i < |list| ensures os[i] == Build(list[i], urlOk) {
      OutcomesAt(list, urlOk, i);
    }
  }
}
