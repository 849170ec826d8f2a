/**
 What the two WER scripts share: an entry of `runs-config.json`, the word-level counts the
 alignment libraries report, and the filtering of the runs into the list of results, which
 keeps the runs that produce one, in configuration order.
 */
module Runs {
  import opened Wrappers

  /** An entry of `config['runs']`. `runId` and `outputDir` are read before any guard and are
      taken as present; the other keys may be missing (`None`); `completed` is
      `run.get('completed', False)`. */
  datatype RunConfig = RunConfig(
    runId: string,
    outputDir: string,
    completed: bool,
    runType: Option<string>,
    provider: Option<string>,
    model: Option<string>,
    engine: Option<string>)

  /** The word-level alignment counts a library reports. */
  datatype WordMeasures = WordMeasures(hits: nat, substitutions: nat, deletions: nat, insertions: nat)

  /** The results of the runs that produced one, in the order of the runs. */
  function Kept<T>(outcomes: seq<Option<T>>): seq<T>
  {
    if outcomes == [] then []
    else
      var last := outcomes[|outcomes| - 1];
      Kept(outcomes[..|outcomes| - 1]) + (if last.Some? then [last.value] else [])
  }

  /** The positions of the runs that produced a result. */
  function KeptPositions<T>(outcomes: seq<Option<T>>): seq<nat>
  {
    if outcomes == [] then []
    else KeptPositions(outcomes[..|outcomes| - 1]) + (if outcomes[|outcomes| - 1].Some? then [|outcomes| - 1] else [])
  }

  lemma KeptSnoc<T>(outcomes: seq<Option<T>>, o: Option<T>)
    ensures Kept(outcomes + [o]) == Kept(outcomes) + (if o.Some? then [o.value] else [])
  {
    assert (outcomes + [o])[..|outcomes|] == outcomes;
  }

  /** One more step of the loop keeps one more result, or none. */
  lemma KeptPrefix<T>(os: seq<Option<T>>, i: nat)
    requires i < |os|
    ensures Kept(os[..i + 1]) == Kept(os[..i]) + (if os[i].Some? then [os[i].value] else [])
  {
    assert os[..i + 1] == os[..i] + [os[i]];
    KeptSnoc(os[..i], os[i]);
  }

  /** Every run that produces a result contributes exactly it, at its place in the run order,
      and nothing else is kept: the k-th result comes from the run at the k-th of a strictly
      increasing list of positions, and a position is in that list exactly when its run
      produced a result. */
  lemma {:induction false} KeptOrder<T>(outcomes: seq<Option<T>>)
    ensures |KeptPositions(outcomes)| == |Kept(outcomes)| <= |outcomes|
    ensures forall a, b :: 0 <= a < b < |KeptPositions(outcomes)| ==> KeptPositions(outcomes)[a] < KeptPositions(outcomes)[b]
    ensures forall k :: 0 <= k < |KeptPositions(outcomes)| ==>
      KeptPositions(outcomes)[k] < |outcomes| && outcomes[KeptPositions(outcomes)[k]] == Some(Kept(outcomes)[k])
    ensures forall i :: 0 <= i < |outcomes| ==> (outcomes[i].Some? <==> i in KeptPositions(outcomes))
  {
    if outcomes != [] {
      var init := outcomes[..|outcomes| - 1];
      KeptOrder(init);
      var ps, ks := KeptPositions(init), Kept(init);
      forall k | 0 <= k < |KeptPositions(outcomes)|
        ensures KeptPositions(outcomes)[k] < |outcomes| && outcomes[KeptPositions(outcomes)[k]] == Some(Kept(outcomes)[k])
      {
        if k < |ps| {
          assert KeptPositions(outcomes)[k] == ps[k] && Kept(outcomes)[k] == ks[k];
          assert outcomes[ps[k]] == init[ps[k]];
        }
      }
      forall i | 0 <= i < |outcomes| ensures outcomes[i].Some? <==> i in KeptPositions(outcomes) {
        if i < |init| {
          assert outcomes[i] == init[i];
          assert i != |outcomes| - 1;
        } else {
          assert forall k :: 0 <= k < |ps| ==> ps[k] < |init|;
        }
      }
    }
  }

  /** When every run produces a result, all of them are kept. */
  lemma {:induction false} KeptAll<T>(outcomes: seq<Option<T>>)
    requires forall i :: 0 <= i < |outcomes| ==> outcomes[i].Some?
    ensures |Kept(outcomes)| == |outcomes|
  {
    if outcomes != [] {
      KeptAll(outcomes[..|outcomes| - 1]);
    }
  }
}
