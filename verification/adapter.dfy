/**
 * What the item loop of both provider adapters (api/hh_api.py, api/sj_api.py)
 * makes of the outcome of building each item in turn: the `try` wraps the
 * whole loop, so a ParsingError ends it and keeps the vacancies built so far,
 * while any other exception leaves `get_vacancies` altogether.
 */
module Adapter {
  import opened Wrappers
  import opened Vacancies

  /** The result of the loop over the outcomes os, item by item. */
  function Collect(os: seq<Result<Fields, Error>>): Result<seq<Fields>, Error> {
    if os == [] then Ok([])
    else match os[0]
      case Err(ParsingError) => Ok([])
      case Err(e) => Err(e)
      case Ok(f) => (var rest :- Collect(os[1..]); Ok([f] + rest))
  }

  /** Puts the vacancies already appended in front of what the rest of the loop yields. */
  function Prepend(built: seq<Fields>, rest: Result<seq<Fields>, Error>): Result<seq<Fields>, Error> {
    match rest
    case Ok(fs) => Ok(built + fs)
    case Err(e) => Err(e)
  }

  /**
   * The loop yields at most one vacancy per item, in item order; it stops
   * short only at a ParsingError, and fails only with the first other error.
   */
  lemma {:induction false} CollectCharacterized(os: seq<Result<Fields, Error>>)
    ensures Collect(os).Ok? ==>
      |Collect(os).value| <= |os| &&
      forall i :: 0 <= i < |Collect(os).value| ==> os[i] == Ok(Collect(os).value[i])
    ensures Collect(os).Ok? && |Collect(os).value| < |os| ==> os[|Collect(os).value|] == Err(ParsingError)
    ensures Collect(os).Err? ==>
      Collect(os).error != ParsingError &&
      exists k :: 0 <= k < |os| && os[k] == Err(Collect(os).error) && forall j :: 0 <= j < k ==> os[j].Ok?
    ensures (forall i :: 0 <= i < |os| ==> os[i].Ok?) ==> Collect(os).Ok? && |Collect(os).value| == |os|
  {
    if os != [] {
      CollectCharacterized(os[1..]);
      match os[0]
      case Err(ParsingError) =>
      case Err(e) =>
      case Ok(f) =>
        var rest := Collect(os[1..]);
        if rest.Err? {
          var k :| 0 <= k < |os[1..]| && os[1..][k] == Err(rest.error) && forall j :: 0 <= j < k ==> os[1..][j].Ok?;
          assert os[k + 1] == Err(Collect(os).error);
          assert forall j :: 0 <= j < k + 1 ==> os[j].Ok? by {
            forall j | 0 <= j < k + 1 ensures os[j].Ok? {
              if j > 0 {
                assert os[j] == os[1..][j - 1];
              }
            }
          }
        } else {
          assert Collect(os).value == [f] + rest.value;
        }
    }
  }

  /** A built item i moves from what the rest of the loop yields to what is already built. */
  lemma CollectUnfold(os: seq<Result<Fields, Error>>, i: nat, built: seq<Fields>)
    requires i < |os| && os[i].Ok?
    ensures Prepend(built, Collect(os[i..])) == Prepend(built + [os[i].value], Collect(os[i + 1..]))
  {
    assert os[i..][1..] == os[i + 1..];
    match Collect(os[i + 1..])
    case Ok(fs) => assert built + ([os[i].value] + fs) == (built + [os[i].value]) + fs;
    case Err(_) =>
  }

  /** The loop invariant is kept when item i is built and appended. */
  lemma CollectStep(os: seq<Result<Fields, Error>>, i: nat, built: seq<Vacancy>, v: Vacancy)
    requires i < |os| && os[i] == Ok(v.Dict())
    requires Collect(os) == Prepend(Dicts(built), Collect(os[i..]))
    ensures Collect(os) == Prepend(Dicts(built + [v]), Collect(os[i + 1..]))
  {
    CollectUnfold(os, i, Dicts(built));
    DictsAppend(built, [v]);
    assert Dicts([v]) == [v.Dict()];
  }

  /** Any error but a ParsingError at item i leaves the loop with that error. */
  lemma CollectStop(os: seq<Result<Fields, Error>>, i: nat, built: seq<Vacancy>, e: Error)
    requires i < |os| && os[i] == Err(e) && e != ParsingError
    requires Collect(os) == Prepend(Dicts(built), Collect(os[i..]))
    ensures Collect(os) == Err(e)
  {
    assert os[i..][0] == os[i];
  }

  /**
   * One pass of the loop body, whatever the item: a vacancy is appended and
   * the invariant kept, or the error leaves the loop.
   */
  lemma CollectAdvance(os: seq<Result<Fields, Error>>, i: nat, built: seq<Vacancy>, r: Result<Vacancy, Error>)
    requires i < |os| && os[i] == DictOf(r) && (r.Err? ==> r.error != ParsingError)
    requires Collect(os) == Prepend(Dicts(built), Collect(os[i..]))
    ensures r.Err? ==> Collect(os) == Err(r.error)
    ensures r.Ok? ==> Collect(os) == Prepend(Dicts(built + [r.value]), Collect(os[i + 1..]))
  {
    match r
    case Ok(v) => CollectStep(os, i, built, v);
    case Err(e) => CollectStop(os, i, built, e);
  }

  /** After the last item the loop has built the whole result. */
  lemma CollectEnd(os: seq<Result<Fields, Error>>, built: seq<Vacancy>)
    requires Collect(os) == Prepend(Dicts(built), Collect(os[|os|..]))
    ensures Collect(os) == Ok(Dicts(built))
  {
    assert os[|os|..] == [];
    assert Dicts(built) + [] == Dicts(built);
  }
}
