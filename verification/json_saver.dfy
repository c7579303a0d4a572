/**
 * `JSONSaver` (src/json_saver.py): loading a file of vacancy mappings back
 * into vacancies, and saving by merging new vacancies into what the file
 * already holds. The file is a value: None when it does not exist, otherwise
 * the list of mappings it holds. Opening, encoding and writing are not
 * modelled; `SaveVacancies` returns the list it would write.
 */
module JsonSaver {
  import opened Wrappers
  import opened Vacancies

  type File = Option<seq<Fields>>

  /** `Vacancy(title=vacancy_data['title'], ...)` on one stored mapping. */
  function LoadRecord(m: Fields, urlOk: string -> bool): (r: Result<Fields, Error>)
    ensures r.Err? ==> r.error != FileNotFound
  {
    Validate(Some(m.title), Some(m.url), m.salary, Some(m.pubDate), Some(m.requirements), urlOk)
  }

  /** The outcome of constructing a vacancy from each stored mapping. */
  function Records(es: seq<Fields>, urlOk: string -> bool): seq<Result<Fields, Error>> {
    seq(|es|, i requires 0 <= i < |es| => LoadRecord(es[i], urlOk))
  }

  /** The load loop over those outcomes, in file order; the first failure ends it. */
  function Loaded(os: seq<Result<Fields, Error>>): Result<seq<Fields>, Error> {
    if os == [] then Ok([])
    else
      var init :- Loaded(os[..|os| - 1]);
      var last :- os[|os| - 1];
      Ok(init + [last])
  }

  function LoadAll(es: seq<Fields>, urlOk: string -> bool): Result<seq<Fields>, Error> {
    Loaded(Records(es, urlOk))
  }

  /** `get_vacancies(filename)`, as the fields of the vacancies it returns. */
  function Load(file: File, urlOk: string -> bool): Result<seq<Fields>, Error> {
    match file
    case None => Err(FileNotFound)
    case Some(es) => LoadAll(es, urlOk)
  }

  /** A failure in a prefix of the file is the failure of the whole load. */
  lemma {:induction false} LoadedPrefixErr(os: seq<Result<Fields, Error>>, n: nat)
    requires n <= |os| && Loaded(os[..n]).Err?
    ensures Loaded(os) == Loaded(os[..n])
    decreases |os|
  {
    if n < |os| {
      var init := os[..|os| - 1];
      assert init[..n] == os[..n];
      LoadedPrefixErr(init, n);
    } else {
      assert os[..n] == os;
    }
  }

  /**
   * One pass of the load loop: a record is appended and the invariant kept,
   * or the error is the result of the whole load.
   */
  lemma LoadedAdvance(os: seq<Result<Fields, Error>>, i: nat, built: seq<Vacancy>, r: Result<Vacancy, Error>)
    requires i < |os| && os[i] == DictOf(r) && Loaded(os[..i]) == Ok(Dicts(built))
    ensures r.Err? ==> Loaded(os) == Err(r.error)
    ensures r.Ok? ==> Loaded(os[..i + 1]) == Ok(Dicts(built + [r.value]))
  {
    assert os[..i + 1][..i] == os[..i];
    if r.Err? {
      LoadedPrefixErr(os, i + 1);
    } else {
      DictsAppend(built, [r.value]);
      assert Dicts([r.value]) == [r.value.Dict()];
    }
  }

  /**
   * The loop succeeds exactly when every outcome is a vacancy, and then yields
   * them all in order; otherwise it fails with the first error.
   */
  lemma {:induction false} LoadedCharacterized(os: seq<Result<Fields, Error>>)
    ensures Loaded(os).Ok? <==> forall i :: 0 <= i < |os| ==> os[i].Ok?
    ensures Loaded(os).Ok? ==>
      |Loaded(os).value| == |os| && forall i :: 0 <= i < |os| ==> os[i] == Ok(Loaded(os).value[i])
    ensures Loaded(os).Err? ==>
      exists k :: (0 <= k < |os| && os[k] == Err(Loaded(os).error) && forall j :: 0 <= j < k ==> os[j].Ok?)
  {
    if os != [] {
      var init := os[..|os| - 1];
      LoadedCharacterized(init);
      assert forall i :: 0 <= i < |init| ==> init[i] == os[i];
      var last := os[|os| - 1];
      if Loaded(init).Ok? && last.Err? {
        assert forall j :: 0 <= j < |os| - 1 ==> os[j].Ok?;
      }
    }
  }

  /**
   * Loading succeeds exactly when every stored mapping passes the checks, and
   * then yields one record per mapping in file order; otherwise it fails with
   * the error of the first mapping that does not pass, which is never a
   * missing file.
   */
  lemma LoadAllCharacterized(es: seq<Fields>, urlOk: string -> bool)
    ensures LoadAll(es, urlOk).Ok? <==> forall i :: 0 <= i < |es| ==> LoadRecord(es[i], urlOk).Ok?
    ensures LoadAll(es, urlOk).Ok? ==>
      |LoadAll(es, urlOk).value| == |es| &&
      forall i :: 0 <= i < |es| ==> LoadAll(es, urlOk).value[i] == LoadRecord(es[i], urlOk).value
    ensures LoadAll(es, urlOk).Err? ==>
      LoadAll(es, urlOk).error != FileNotFound &&
      exists k :: (0 <= k < |es| && LoadRecord(es[k], urlOk) == Err(LoadAll(es, urlOk).error) &&
        forall j :: 0 <= j < k ==> LoadRecord(es[j], urlOk).Ok?)
  {
    var os := Records(es, urlOk);
    assert |os| == |es| && forall i :: 0 <= i < |es| ==> os[i] == LoadRecord(es[i], urlOk);
    LoadedCharacterized(os);
  }

  /** A stored mapping reloads with its salary run through check_salary again and nothing else changed. */
  lemma LoadRecordNormalizes(m: Fields, urlOk: string -> bool)
    requires LoadRecord(m, urlOk).Ok?
    ensures LoadRecord(m, urlOk).value == m.(salary := CheckSalary(m.salary).value)
    ensures Normalized(m.salary) ==> LoadRecord(m, urlOk).value == m
  {
  }

  /** One pass of the loop body: a fresh salary dict from the stored mapping, then the constructor. */
  method LoadOne(m: Fields, urlOk: string -> bool) returns (v: Result<Vacancy, Error>)
    ensures DictOf(v) == LoadRecord(m, urlOk)
    ensures v.Ok? ==> fresh(v.value)
  {
    var salary := new SalaryDict(m.salary);
    v := Vacancy.New(Some(m.title), Some(m.url), salary, Some(m.pubDate), Some(m.requirements), urlOk);
  }

  /** The load loop: one fresh vacancy per stored mapping, the first failure aborting. */
  method GetVacancies(file: File, urlOk: string -> bool) returns (r: Result<seq<Vacancy>, Error>)
    ensures DictsOf(r) == Load(file, urlOk)
    ensures r.Ok? ==> forall v :: v in r.value ==> fresh(v)
    ensures r.Ok? ==> NoDuplicates(r.value)
  {
    if file.None? {
      return Err(FileNotFound);
    }
    var data := file.value;
    ghost var os := Records(data, urlOk);
    var vacancies: seq<Vacancy> := [];
    ghost var made: set<Vacancy> := {};
    var i := 0;
    assert os[..0] == [] && Dicts([]) == [];
    while i < |data|
      invariant 0 <= i <= |data|
      invariant Loaded(os[..i]) == Ok(Dicts(vacancies))
      invariant forall v :: v in vacancies ==> v in made
      invariant NoDuplicates(vacancies)
      invariant fresh(made)
    {
      var v := LoadOne(data[i], urlOk);
      LoadedAdvance(os, i, vacancies, v);
      if v.Err? {
        return Err(v.error);
      }
      assert v.value !in made;
      NoDuplicatesAppend(vacancies, v.value);
      vacancies := vacancies + [v.value];
      made := made + {v.value};
      i := i + 1;
    }
    assert os[..i] == os;
    return Ok(vacancies);
  }

  /** `if vacancy not in existing_vacancies: existing_vacancies.append(vacancy)`; `in` compares identity. */
  function Add(existing: seq<Vacancy>, v: Vacancy): seq<Vacancy> {
    if v in existing then existing else existing + [v]
  }

  /** The merge loop over the incoming vacancies, in their order. */
  function Merge(existing: seq<Vacancy>, incoming: seq<Vacancy>): seq<Vacancy> {
    if incoming == [] then existing
    else Add(Merge(existing, incoming[..|incoming| - 1]), incoming[|incoming| - 1])
  }

  /** One pass of the merge loop appends the next incoming object unless it is already in. */
  lemma MergeStep(existing: seq<Vacancy>, incoming: seq<Vacancy>, i: nat)
    requires i < |incoming|
    ensures Merge(existing, incoming[..i + 1]) == Add(Merge(existing, incoming[..i]), incoming[i])
  {
    assert incoming[..i + 1][..i] == incoming[..i];
  }

  /**
   * The merge keeps the existing list as its prefix, adds exactly the incoming
   * objects not yet present, and never adds one twice.
   */
  lemma {:induction false} MergeProperties(existing: seq<Vacancy>, incoming: seq<Vacancy>)
    ensures |existing| <= |Merge(existing, incoming)| <= |existing| + |incoming|
    ensures Merge(existing, incoming)[..|existing|] == existing
    ensures forall v :: v in Merge(existing, incoming) <==> v in existing || v in incoming
    ensures NoDuplicates(existing) ==> NoDuplicates(Merge(existing, incoming))
  {
    if incoming != [] {
      var init := incoming[..|incoming| - 1];
      var last := incoming[|incoming| - 1];
      MergeProperties(existing, init);
      assert incoming == init + [last];
      var m := Merge(existing, init);
      if last !in m {
        assert (m + [last])[..|existing|] == m[..|existing|];
      }
    }
  }

  /** With nothing in common between the two lists, merging appends the de-duplicated input. */
  lemma {:induction false} MergeDisjoint(existing: seq<Vacancy>, incoming: seq<Vacancy>)
    requires forall i :: 0 <= i < |incoming| ==> incoming[i] !in existing
    ensures Merge(existing, incoming) == existing + Merge([], incoming)
  {
    if incoming != [] {
      var init := incoming[..|incoming| - 1];
      var last := incoming[|incoming| - 1];
      MergeDisjoint(existing, init);
      var m := Merge([], init);
      assert last in existing + m <==> last in m;
      if last !in m {
        assert (existing + m) + [last] == existing + (m + [last]);
      }
    }
  }

  /** Distinct input objects are all appended, in input order. */
  lemma {:induction false} MergeDistinct(incoming: seq<Vacancy>)
    requires NoDuplicates(incoming)
    ensures Merge([], incoming) == incoming
  {
    if incoming != [] {
      var init := incoming[..|incoming| - 1];
      MergeDistinct(init);
      assert incoming[|incoming| - 1] !in init;
      assert init + [incoming[|incoming| - 1]] == incoming;
    }
  }

  /**
   * What `save_vacancies` writes: the loaded list followed by the new objects;
   * a missing file gets the input as it is; any other failure propagates.
   * Loaded objects are new, so no input object is ever `in` them.
   */
  function Saved(file: File, vacancies: seq<Vacancy>, urlOk: string -> bool): Result<seq<Fields>, Error> {
    match Load(file, urlOk)
    case Ok(stored) => Ok(stored + Dicts(Merge([], vacancies)))
    case Err(FileNotFound) => Ok(Dicts(vacancies))
    case Err(e) => Err(e)
  }

  /**
   * Objects allocated before the loaded ones were made are none of them, so
   * merging into the loaded list appends the de-duplicated input.
   */
  twostate lemma MergeIntoFresh(incoming: seq<Vacancy>, new loaded: seq<Vacancy>)
    requires forall v :: v in loaded ==> fresh(v)
    ensures Dicts(Merge(loaded, incoming)) == Dicts(loaded) + Dicts(Merge([], incoming))
  {
    assert forall i :: 0 <= i < |incoming| ==> incoming[i] !in loaded;
    MergeDisjoint(loaded, incoming);
    DictsAppend(loaded, Merge([], incoming));
  }

  /** The merge loop of `save_vacancies`, appending to a copy of the existing list. */
  method MergeInto(existing: seq<Vacancy>, incoming: seq<Vacancy>) returns (merged: seq<Vacancy>)
    ensures merged == Merge(existing, incoming)
  {
    merged := existing;
    var i := 0;
    while i < |incoming|
      invariant 0 <= i <= |incoming|
      invariant merged == Merge(existing, incoming[..i])
    {
      MergeStep(existing, incoming, i);
      if incoming[i] !in merged {
        merged := merged + [incoming[i]];
      }
      i := i + 1;
    }
    assert incoming[..i] == incoming;
  }

  /** `save_vacancies(filename, vacancies)`: the list it writes, or the exception it raises. */
  method SaveVacancies(file: File, vacancies: seq<Vacancy>, urlOk: string -> bool) returns (r: Result<seq<Fields>, Error>)
    ensures r == Saved(file, vacancies, urlOk)
  {
    var loaded := GetVacancies(file, urlOk);
    if loaded.Err? {
      if loaded.error == FileNotFound {
        return Ok(Dicts(vacancies));
      }
      return Err(loaded.error);
    }
    var existing := MergeInto(loaded.value, vacancies);
    MergeIntoFresh(vacancies, loaded.value);
    return Ok(Dicts(existing));
  }

  /**
   * Saving into an existing, loadable file keeps its records first, in file
   * order, and appends each distinct new object once.
   */
  lemma SaveKeepsFile(es: seq<Fields>, vacancies: seq<Vacancy>, urlOk: string -> bool)
    requires LoadAll(es, urlOk).Ok?
    ensures Saved(Some(es), vacancies, urlOk).Ok?
    ensures var w := Saved(Some(es), vacancies, urlOk).value;
      |w| >= |es| && w[..|es|] == LoadAll(es, urlOk).value && w[|es|..] == Dicts(Merge([], vacancies))
    ensures NoDuplicates(vacancies) ==>
      Saved(Some(es), vacancies, urlOk) == Ok(LoadAll(es, urlOk).value + Dicts(vacancies))
  {
    LoadAllCharacterized(es, urlOk);
    if NoDuplicates(vacancies) {
      MergeDistinct(vacancies);
    }
  }

  /** Without a file the input is written as it is, repeats included. */
  lemma MissingFileKeepsRepeats(v: Vacancy, urlOk: string -> bool)
    ensures Saved(None, [v, v], urlOk) == Ok([v.Dict(), v.Dict()])
    ensures Saved(Some([]), [v, v], urlOk) == Ok([v.Dict()])
  {
    assert Dicts([v, v]) == [v.Dict(), v.Dict()];
    assert [v, v][..1] == [v];
    assert [v][..0] == [];
    assert Merge([], [v]) == [v];
    assert Merge([], [v, v]) == [v];
    assert Records([], urlOk) == [];
    assert Load(Some([]), urlOk) == Ok([]);
    assert Dicts([v]) == [v.Dict()];
    assert [] + Dicts([v]) == [v.Dict()];
  }

  /** A vacancy with a salary and a reachable url reloads to the same five fields. */
  lemma RoundTrip(v: Vacancy, urlOk: string -> bool)
    requires v.salary.Pay? && urlOk(v.url)
    ensures LoadRecord(v.Dict(), urlOk) == Ok(v.Dict())
  {
    Dates.IsIsoDateExactly(v.pubDate);
  }

  /** A vacancy whose salary collapsed to `{}` is written but does not load back. */
  lemma CollapsedSalaryDoesNotReload(v: Vacancy, urlOk: string -> bool)
    requires v.salary.NoSalary?
    ensures LoadRecord(v.Dict(), urlOk) == if urlOk(v.url) then Err(EmptySalary) else Err(BadUrl)
  {
  }

  /** One record that does not load makes every later save of that file fail. */
  lemma PoisonedFile(es: seq<Fields>, k: nat, vacancies: seq<Vacancy>, urlOk: string -> bool)
    requires k < |es| && LoadRecord(es[k], urlOk).Err?
    ensures Saved(Some(es), vacancies, urlOk).Err?
    ensures Saved(Some(es), vacancies, urlOk).error != FileNotFound
  {
    LoadAllCharacterized(es, urlOk);
  }

  lemma LoadAllOfReloadable(es: seq<Fields>, urlOk: string -> bool)
    requires forall i :: 0 <= i < |es| ==> LoadRecord(es[i], urlOk) == Ok(es[i])
    ensures LoadAll(es, urlOk) == Ok(es)
  {
    LoadAllCharacterized(es, urlOk);
    assert LoadAll(es, urlOk).Ok?;
    assert LoadAll(es, urlOk).value == es;
  }

  /**
   * Saving the same reloadable vacancies twice writes them twice: the second
   * save loads new objects, which the inputs never equal.
   */
  lemma SavingTwiceDuplicates(es: seq<Fields>, vacancies: seq<Vacancy>, urlOk: string -> bool)
    requires LoadAll(es, urlOk) == Ok(es)
    requires forall i :: 0 <= i < |vacancies| ==> vacancies[i].salary.Pay? && urlOk(vacancies[i].url)
    ensures var added := Dicts(Merge([], vacancies));
      Saved(Some(es), vacancies, urlOk) == Ok(es + added) &&
      Saved(Some(es + added), vacancies, urlOk) == Ok(es + added + added)
  {
    var added := Dicts(Merge([], vacancies));
    MergedReload(vacancies, urlOk);
    LoadAllCharacterized(es, urlOk);
    var w := es + added;
    forall i | 0 <= i < |w|
      ensures LoadRecord(w[i], urlOk) == Ok(w[i])
    {
      if i < |es| {
        assert w[i] == es[i];
      } else {
        assert w[i] == added[i - |es|];
      }
    }
    LoadAllOfReloadable(w, urlOk);
  }

  /** Every merged object with a salary and an accepted URL reloads as itself. */
  lemma MergedReload(vacancies: seq<Vacancy>, urlOk: string -> bool)
    requires forall i :: 0 <= i < |vacancies| ==> vacancies[i].salary.Pay? && urlOk(vacancies[i].url)
    ensures forall k :: 0 <= k < |Merge([], vacancies)| ==>
      LoadRecord(Dicts(Merge([], vacancies))[k], urlOk) == Ok(Dicts(Merge([], vacancies))[k])
  {
    var merged := Merge([], vacancies);
    forall k | 0 <= k < |merged|
      ensures LoadRecord(Dicts(merged)[k], urlOk) == Ok(Dicts(merged)[k])
    {
      MergedFrom(vacancies, merged[k]);
      var j :| 0 <= j < |vacancies| && vacancies[j] == merged[k];
      RoundTrip(merged[k], urlOk);
    }
  }

  lemma MergedFrom(vacancies: seq<Vacancy>, v: Vacancy)
    requires v in Merge([], vacancies)
    ensures v in vacancies
  {
    MergeProperties([], vacancies);
  }
}
