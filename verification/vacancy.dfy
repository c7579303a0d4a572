/**
 * The vacancy record (src/vacancy.py): the five construction checks, the
 * salary dictionary that `check_salary` normalises in place, the derived
 * `medium_salary`, the `>` comparison and the `__dict__` mapping.
 *
 * `check_url` performs an HTTP GET and compares the status with 200; the model
 * takes its verdict as a parameter `urlOk` of every operation that builds a
 * vacancy.
 */
module Vacancies {
  import opened Wrappers
  import Dates

  /** The exceptions raised along the modelled paths. */
  datatype Error =
    | EmptyTitle      // check_title on a falsy title
    | BadUrl          // check_url: status code other than 200, or requests raised (no usable URL, no answer)
    | EmptySalary     // check_salary on an empty dict
    | BadDate         // check_date_pub on a date that parses but is not written `YYYY-MM-DD`
    | NoRequirements  // check_requirements on a falsy text
    | KeyError        // salary['min'] on the empty salary dict
    | TypeError       // int(None), None['from'], datetime.fromisoformat(None)
    | ValueError      // datetime.fromisoformat on text it cannot read, utcfromtimestamp out of range
    | FileNotFound    // open(filename, "r") on a missing file
    | ParsingError    // src.exception.ParsingError, the one kind the adapters catch

  /** A JSON string that may be null; None stands for null. */
  type Nullable = Option<string>

  /** Python truthiness of a string or None. */
  predicate Truthy(s: Nullable) {
    s.Some? && s.value != ""
  }

  /** Non-empty text, what check_title and check_requirements let through. */
  type Text = s: string | s != [] witness "?"

  /** A salary dict: `{}` or `{'min': int, 'max': int, 'currency': str}`. */
  datatype Salary = NoSalary | Pay(min: int, max: int, currency: string)

  /** What check_salary returns: `{}` or truthy bounds and currency with min <= max. */
  predicate Normalized(s: Salary) {
    s.NoSalary? || (s.min != 0 && s.max != 0 && s.currency != "" && s.min <= s.max)
  }

  type NormSalary = s: Salary | Normalized(s) witness NoSalary

  /** A publication date that passed check_date_pub. */
  type IsoDate = s: string | Dates.IsIsoDate(s) witness Dates.EpochText()

  /** The flat mapping `Vacancy.__dict__` returns and the JSON file stores. */
  datatype Fields = Fields(title: string, url: string, salary: Salary, pubDate: string, requirements: string)

  function CheckTitle(title: Nullable): (r: Result<Text, Error>)
    ensures r.Ok? <==> Truthy(title)
    ensures r.Ok? ==> r.value == title.value
    ensures r.Err? ==> r.error == EmptyTitle
  {
    if Truthy(title) then Ok(title.value) else Err(EmptyTitle)
  }

  predicate UrlPasses(url: Nullable, urlOk: string -> bool) {
    url.Some? && urlOk(url.value)
  }

  /** `check_url`, with the verdict on the status code as the parameter urlOk. */
  function CheckUrl(url: Nullable, urlOk: string -> bool): (r: Result<string, Error>)
    ensures r.Ok? <==> UrlPasses(url, urlOk)
    ensures r.Ok? ==> r.value == url.value
    ensures r.Err? ==> r.error == BadUrl
  {
    if url.Some? && urlOk(url.value) then Ok(url.value) else Err(BadUrl)
  }

  /**
   * `check_salary` on the value of the dict: raises on `{}`, collapses to `{}`
   * when a bound or the currency is falsy, and otherwise orders the bounds.
   */
  function CheckSalary(s: Salary): (r: Result<NormSalary, Error>)
    ensures r.Err? <==> s.NoSalary?
    ensures r.Err? ==> r.error == EmptySalary
    ensures r.Ok? && r.value.Pay? <==> s.Pay? && s.min != 0 && s.max != 0 && s.currency != ""
    ensures r.Ok? && r.value.Pay? ==>
      r.value.currency == s.currency && r.value.min <= r.value.max &&
      multiset{r.value.min, r.value.max} == multiset{s.min, s.max}
    ensures Normalized(s) && s.Pay? ==> r == Ok(s)
  {
    match s
    case NoSalary => Err(EmptySalary)
    case Pay(lo, hi, currency) =>
      if lo != 0 && hi != 0 && currency != "" then
        if lo <= hi then Ok(s) else Ok(Pay(hi, lo, currency))
      else Ok(NoSalary)
  }

  /** The contents of the caller's dict after check_salary has run on it. */
  function SalaryAfterCheck(s: Salary): Salary {
    var r := CheckSalary(s);
    if r.Ok? && r.value.Pay? then r.value else s
  }

  /**
   * `check_date_pub`: `datetime.fromisoformat` raises TypeError on None and
   * ValueError on text it cannot read; text it reads but that differs from
   * the rendering of its date raises the plain Exception.
   */
  function CheckDatePub(pubDate: Nullable): (r: Result<IsoDate, Error>)
    ensures r.Ok? <==> pubDate.Some? && Dates.IsIsoDate(pubDate.value)
    ensures r.Ok? <==> pubDate.Some? && exists d :: Dates.Valid(d) && Dates.Format(d) == pubDate.value
    ensures r.Ok? ==> r.value == pubDate.value
    ensures pubDate.None? ==> r == Err(TypeError)
    ensures pubDate.Some? && Dates.FromIsoFormat(pubDate.value).None? ==> r == Err(ValueError)
    ensures pubDate.Some? && Dates.FromIsoFormat(pubDate.value).Some? && !Dates.IsIsoDate(pubDate.value) ==>
      r == Err(BadDate)
  {
    match pubDate
    case None => Err(TypeError)
    case Some(s) =>
      Dates.IsIsoDateExactly(s);
      Dates.DateTestIsIsoDate(s);
      match Dates.FromIsoFormat(s)
      case None => Err(ValueError)
      case Some(d) => if s == Dates.Format(d) then Ok(s) else Err(BadDate)
  }

  /** The four outcomes of check_date_pub, one input each. */
  lemma CheckDatePubOutcomes()
    ensures CheckDatePub(Some("2023-01-05")) == Ok("2023-01-05")
    ensures CheckDatePub(Some("2023-01-05T10:00")) == Err(BadDate)
    ensures CheckDatePub(Some("2023-02-30")) == Err(ValueError)
    ensures CheckDatePub(None) == Err(TypeError)
  {
    var d := Dates.Date(2023, 1, 5);
    assert Dates.Format(d) == "2023-01-05";
    Dates.ParseFormat(d);
    Dates.ImpossibleDateFails();
    Dates.TimePartParses();
  }

  function CheckRequirements(requirements: Nullable): (r: Result<Text, Error>)
    ensures r.Ok? <==> Truthy(requirements)
    ensures r.Ok? ==> r.value == requirements.value
    ensures r.Err? ==> r.error == NoRequirements
  {
    if Truthy(requirements) then Ok(requirements.value) else Err(NoRequirements)
  }

  /**
   * `Vacancy.__init__` on values: the five checks in source order, the first
   * failure aborting, and the stored fields being the checked values.
   */
  function Validate(title: Nullable, url: Nullable, salary: Salary, pubDate: Nullable,
                    requirements: Nullable, urlOk: string -> bool): (r: Result<Fields, Error>)
    ensures !Truthy(title) ==> r == Err(EmptyTitle)
    ensures Truthy(title) && !UrlPasses(url, urlOk) ==> r == Err(BadUrl)
    ensures Truthy(title) && UrlPasses(url, urlOk) && salary.NoSalary? ==> r == Err(EmptySalary)
    ensures Truthy(title) && UrlPasses(url, urlOk) && salary.Pay? && pubDate.None? ==> r == Err(TypeError)
    ensures (Truthy(title) && UrlPasses(url, urlOk) && salary.Pay? && pubDate.Some? &&
             Dates.FromIsoFormat(pubDate.value).None?) ==> r == Err(ValueError)
    ensures (Truthy(title) && UrlPasses(url, urlOk) && salary.Pay? && pubDate.Some? &&
             Dates.FromIsoFormat(pubDate.value).Some? && !Dates.IsIsoDate(pubDate.value)) ==> r == Err(BadDate)
    ensures (Truthy(title) && UrlPasses(url, urlOk) && salary.Pay? && pubDate.Some? && Dates.IsIsoDate(pubDate.value) &&
             !Truthy(requirements)) ==> r == Err(NoRequirements)
    ensures (Truthy(title) && UrlPasses(url, urlOk) && salary.Pay? && pubDate.Some? && Dates.IsIsoDate(pubDate.value) &&
             Truthy(requirements)) ==> r.Ok?
    ensures r.Ok? ==>
      r.value.title == title.value && r.value.url == url.value && r.value.pubDate == pubDate.value &&
      r.value.requirements == requirements.value && r.value.salary == CheckSalary(salary).value &&
      Normalized(r.value.salary)
  {
    var t :- CheckTitle(title);
    var u :- CheckUrl(url, urlOk);
    var s :- CheckSalary(salary);
    var d :- CheckDatePub(pubDate);
    var q :- CheckRequirements(requirements);
    Ok(Fields(t, u, s, d, q))
  }

  /**
   * Python's `round((min + max) / 2)`: the integer nearest to the mean, ties
   * going to the even neighbour.
   */
  function Medium(min: int, max: int): (r: int)
    ensures -1 <= 2 * r - (min + max) <= 1
    ensures 2 * r != min + max ==> r % 2 == 0
    ensures min <= max ==> min <= r <= max
  {
    var sum := min + max;
    if sum % 2 == 0 then sum / 2
    else if (sum / 2) % 2 == 0 then sum / 2
    else sum / 2 + 1
  }

  /** A mutable salary dict, the object check_salary receives and may change. */
  class SalaryDict {
    var contents: Salary

    constructor (contents: Salary)
      ensures this.contents == contents
    {
      this.contents := contents;
    }

    /**
     * `Vacancy.check_salary(salary)`: when the bounds are out of order they are
     * swapped in this very dict, which is then returned; the `{}` of the
     * collapse case is a new dict and leaves this one as it was.
     */
    method Check() returns (r: Result<NormSalary, Error>)
      modifies this
      ensures r == CheckSalary(old(contents))
      ensures contents == SalaryAfterCheck(old(contents))
      ensures r.Ok? && r.value.Pay? ==> contents == r.value
    {
      if contents.NoSalary? {
        return Err(EmptySalary);
      }
      if contents.min != 0 && contents.max != 0 && contents.currency != "" {
        if contents.min <= contents.max {
          return Ok(contents);
        }
        var maxSalary := contents.min;
        contents := contents.(min := contents.max);
        contents := contents.(max := maxSalary);
        return Ok(contents);
      }
      return Ok(NoSalary);
    }
  }

  /** A constructed vacancy: five fields set once by the constructor. */
  class Vacancy {
    const title: Text
    const url: string
    const salary: NormSalary
    const pubDate: IsoDate
    const requirements: Text

    constructor (title: Text, url: string, salary: NormSalary, pubDate: IsoDate, requirements: Text)
      ensures this.title == title && this.url == url && this.salary == salary
      ensures this.pubDate == pubDate && this.requirements == requirements
    {
      this.title := title;
      this.url := url;
      this.salary := salary;
      this.pubDate := pubDate;
      this.requirements := requirements;
    }

    /**
     * `Vacancy(title, url, salary, pub_date, requirements)`: runs the checks
     * in order on the arguments, the salary check working on the caller's
     * dict, and builds the object only when all five pass.
     */
    static method New(title: Nullable, url: Nullable, salary: SalaryDict, pubDate: Nullable,
                      requirements: Nullable, urlOk: string -> bool) returns (r: Result<Vacancy, Error>)
      modifies salary
      ensures DictOf(r) == Validate(title, url, old(salary.contents), pubDate, requirements, urlOk)
      ensures r.Ok? ==> fresh(r.value)
      ensures salary.contents ==
        if Truthy(title) && UrlPasses(url, urlOk) then SalaryAfterCheck(old(salary.contents))
        else old(salary.contents)
    {
      var t :- CheckTitle(title);
      var u :- CheckUrl(url, urlOk);
      var s :- salary.Check();
      var d :- CheckDatePub(pubDate);
      var q :- CheckRequirements(requirements);
      var v := new Vacancy(t, u, s, d, q);
      return Ok(v);
    }

    /** `__dict__()`: the five stored fields under their keys. */
    function Dict(): Fields {
      Fields(title, url, salary, pubDate, requirements)
    }

    /** `medium_salary`; `self.salary['min']` raises KeyError on the empty dict. */
    function MediumSalary(): (r: Result<int, Error>)
      ensures r.Err? <==> salary.NoSalary?
      ensures r.Err? ==> r.error == KeyError
      ensures r.Ok? ==> r.value == Medium(salary.min, salary.max) && salary.min <= r.value <= salary.max
    {
      match salary
      case NoSalary => Err(KeyError)
      case Pay(lo, hi, _) => Ok(Medium(lo, hi))
    }

    /** `self > other`: compares the medium salaries, self's being read first. */
    function Gt(other: Vacancy): (r: Result<bool, Error>)
      ensures r.Ok? <==> salary.Pay? && other.salary.Pay?
      ensures r.Ok? ==> r.value == (MediumSalary().value > other.MediumSalary().value)
    {
      var mine :- MediumSalary();
      var theirs :- other.MediumSalary();
      Ok(mine > theirs)
    }
  }

  /** `>` never holds between a vacancy and itself. */
  lemma GtIrreflexive(v: Vacancy)
    ensures v.Gt(v) != Ok(true)
  {
  }

  /** `>` is transitive wherever it is defined. */
  lemma GtTransitive(a: Vacancy, b: Vacancy, c: Vacancy)
    requires a.Gt(b) == Ok(true) && b.Gt(c) == Ok(true)
    ensures a.Gt(c) == Ok(true)
  {
  }

  function DictOf(r: Result<Vacancy, Error>): Result<Fields, Error> {
    match r
    case Ok(v) => Ok(v.Dict())
    case Err(e) => Err(e)
  }

  /** `[v.__dict__() for v in vs]` */
  function Dicts(vs: seq<Vacancy>): seq<Fields> {
    seq(|vs|, i requires 0 <= i < |vs| => vs[i].Dict())
  }

  /**
   * The mappings of two lists written one after the other are the mappings of
   * the joined list: appending vacancies appends their mappings, in order.
   */
  lemma DictsAppend(a: seq<Vacancy>, b: seq<Vacancy>)
    ensures Dicts(a + b) == Dicts(a) + Dicts(b)
  {
  }

  /** No object occurs twice in the list; `in` on a list of vacancies compares identity. */
  predicate NoDuplicates(s: seq<Vacancy>) {
    forall i, j :: 0 <= i < j < |s| ==> s[i] != s[j]
  }

  /** Appending an object not yet in a duplicate-free list keeps it duplicate-free. */
  lemma NoDuplicatesAppend(s: seq<Vacancy>, v: Vacancy)
    requires NoDuplicates(s) && v !in s
    ensures NoDuplicates(s + [v])
  {
    forall i, j | 0 <= i < j < |s + [v]|
      ensures (s + [v])[i] != (s + [v])[j]
    {
      if j == |s| {
        assert (s + [v])[i] == s[i];
      }
    }
  }

  function DictsOf(r: Result<seq<Vacancy>, Error>): Result<seq<Fields>, Error> {
    match r
    case Ok(vs) => Ok(Dicts(vs))
    case Err(e) => Err(e)
  }
}
