/** Runs of the evaluation phase: the states after each of the written definitions. */
module DefinitionRuns {
  import opened Definitions
  import opened DefinitionState
  import opened DefinitionSteps
  import opened Scopes

  /** Every definition is written somewhere. */
  ghost predicate Written(order: seq<DefnId>, n: nat) {
    (forall k :: 0 <= k < |order| ==> order[k] < n) && forall d: DefnId :: d < n ==> d in order
  }

  ghost predicate AllMapped(n: nat, mapping: map<DefnId, TypeId>) {
    forall d: DefnId :: d < n ==> d in mapping
  }

  /** The evaluated program. */
  ghost predicate WhollyEvaluated(p: Program, s: State) {
    StateOk(p, s) && AllMapped(|p.defns|, s.mapping)
  }

  // ---------- runs of any machine ----------

  function Last<S>(trace: seq<S>): S
    requires trace != []
  {
    trace[|trace| - 1]
  }

  /** A state that may be the first, and then one state after each input. */
  ghost predicate RunOf<S(!new)>(start: S -> bool, step: (DefnId, S, S) -> bool, order: seq<DefnId>, trace: seq<S>) {
    && |trace| == |order| + 1 && start(trace[0])
    && forall k :: 0 <= k < |order| ==> step(order[k], trace[k], trace[k + 1])
  }

  lemma {:induction false} RunOfNext<S(!new)>(start: S -> bool, step: (DefnId, S, S) -> bool, order: seq<DefnId>,
                                              d: DefnId, trace: seq<S>, now: S)
    requires RunOf(start, step, order, trace) && step(d, Last(trace), now)
    ensures RunOf(start, step, order + [d], trace + [now])
  {
  }

  // ---------- runs of the evaluation ----------

  /** Nothing has been evaluated. */
  ghost function Fresh(p: Program): State -> bool {
    s => StateOk(p, s) && s.mapping == map[]
  }

  ghost function Stage(p: Program): (DefnId, State, State) -> bool {
    (d: DefnId, was: State, now: State) => StateOk(p, was) && StateOk(p, now) && Evaluated(p, d, was, now)
  }

  /** The states at the start and after each definition in the order written. */
  ghost predicate Run(p: Program, order: seq<DefnId>, trace: seq<State>) {
    RunOf(Fresh(p), Stage(p), order, trace)
  }

  lemma {:induction false} RunStage(p: Program, order: seq<DefnId>, trace: seq<State>, k: nat)
    requires Run(p, order, trace) && k < |order|
    ensures Evaluated(p, order[k], trace[k], trace[k + 1])
  {
    assert Stage(p)(order[k], trace[k], trace[k + 1]);
  }

  lemma {:induction false} RunState(p: Program, order: seq<DefnId>, trace: seq<State>, k: nat)
    requires Run(p, order, trace) && k <= |order|
    ensures StateOk(p, trace[k])
  {
    if k == 0 { assert Fresh(p)(trace[0]); } else { assert Stage(p)(order[k - 1], trace[k - 1], trace[k]); }
  }

  lemma {:induction false} RunStarts(p: Program, order: seq<DefnId>, trace: seq<State>)
    requires Run(p, order, trace)
    ensures StateOk(p, trace[0]) && trace[0].mapping == map[]
  {
    assert Fresh(p)(trace[0]);
  }

  lemma {:induction false} RunNext(p: Program, order: seq<DefnId>, k: nat, trace: seq<State>, now: State)
    requires k < |order| && Run(p, order[..k], trace) && Stage(p)(order[k], Last(trace), now)
    ensures Run(p, order[..k + 1], trace + [now])
  {
    assert order[..k] + [order[k]] == order[..k + 1];
    RunOfNext(Fresh(p), Stage(p), order[..k], order[k], trace, now);
  }

  /** A relation that can be put together holds along a run if it holds for each step. */
  lemma {:induction false} Along<S(!new)>(rel: (S, S) -> bool, trace: seq<S>, i: nat, j: nat)
    requires (forall a :: rel(a, a)) && forall a, b, c :: rel(a, b) && rel(b, c) ==> rel(a, c)
    requires i <= j < |trace| && forall k :: 0 <= k < |trace| - 1 ==> rel(trace[k], trace[k + 1])
    ensures rel(trace[i], trace[j])
    decreases j
  {
    if i < j { Along(rel, trace, i, j - 1); }
  }

  ghost function Grows(p: Program): (State, State) -> bool {
    (a: State, b: State) => Grew(p, a, b)
  }

  lemma {:induction false} GrowsAlong(p: Program)
    ensures (forall a :: Grows(p)(a, a)) && forall a, b, c :: Grows(p)(a, b) && Grows(p)(b, c) ==> Grows(p)(a, c)
  {
    forall a, b, c | Grows(p)(a, b) && Grows(p)(b, c) ensures Grows(p)(a, c) { GrewTrans(p, a, b, c); }
  }

  lemma {:induction false} RunGrew(p: Program, order: seq<DefnId>, trace: seq<State>, i: nat, j: nat)
    requires Run(p, order, trace) && i <= j <= |order|
    ensures Grows(p)(trace[i], trace[j])
  {
    GrowsAlong(p);
    forall k | 0 <= k < |order| ensures Grows(p)(trace[k], trace[k + 1]) { RunStage(p, order, trace, k); }
    Along(Grows(p), trace, i, j);
  }

  /** Every definition written so far has its type. */
  lemma {:induction false} RunMaps(p: Program, order: seq<DefnId>, trace: seq<State>, k: nat, j: nat)
    requires Run(p, order, trace) && k < j <= |order|
    ensures order[k] in trace[j].mapping
  {
    RunStage(p, order, trace, k);
    RunGrew(p, order, trace, k + 1, j);
  }

  lemma {:induction false} RunMapsAll(p: Program, order: seq<DefnId>, trace: seq<State>)
    requires Run(p, order, trace) && Written(order, |p.defns|)
    ensures WhollyEvaluated(p, Last(trace))
  {
    RunState(p, order, trace, |order|);
    forall d: DefnId | d < |p.defns| ensures d in Last(trace).mapping {
      assert d in order;
      var k :| 0 <= k < |order| && order[k] == d;
      RunMaps(p, order, trace, k, |order|);
    }
  }

  // ---------- arguments kept and lost ----------

  /** Each definition in the list comes after all it needs. */
  ghost predicate NeedsFirst(p: Program, order: seq<DefnId>) {
    forall j, t :: 0 <= j < |order| && t in NeedsOf(p, order[j]) ==> t in order[..j]
  }

  /** With no shadowing no arguments are lost if every definition is safe, or if each comes after all it needs. */
  lemma {:induction false} RunKeeps(p: Program, order: seq<DefnId>, trace: seq<State>, k: nat)
    requires Run(p, order, trace) && NoShadow(p) && (SafeProgram(p) || NeedsFirst(p, order)) && k <= |order|
    ensures AllFull(p, trace[k])
    decreases k
  {
    if k > 0 {
      RunKeeps(p, order, trace, k - 1);
      NeededReady(p, order, trace, k - 1);
      RunStage(p, order, trace, k - 1);
      StageKeeps(p, order[k - 1], trace[k - 1], trace[k]);
    } else {
      RunStarts(p, order, trace);
    }
  }

  lemma {:induction false} StageKeeps(p: Program, d: DefnId, was: State, now: State)
    requires Evaluated(p, d, was, now) && NoShadow(p) && Ready(p, NeedsOf(p, d), {}, was)
    ensures AllFull(p, now)
  {
  }

  lemma {:induction false} NeededReady(p: Program, order: seq<DefnId>, trace: seq<State>, k: nat)
    requires Run(p, order, trace) && k < |order| && AllFull(p, trace[k])
    requires SafeProgram(p) || NeedsFirst(p, order)
    ensures Ready(p, NeedsOf(p, order[k]), {}, trace[k])
  {
    if !SafeProgram(p) {
      forall t | t in NeedsOf(p, order[k]) ensures t in trace[k].mapping {
        assert t in order[..k];
        var j :| 0 <= j < k && order[j] == t;
        RunMaps(p, order, trace, j, k);
      }
    }
  }

  /** Some are lost if the first definition written is not safe. */
  lemma {:induction false} RunLoses(p: Program, order: seq<DefnId>, trace: seq<State>)
    requires Run(p, order, trace) && NoShadow(p) && order != [] && !Safe(p, order[0])
    ensures !AllFull(p, Last(trace))
  {
    RunStarts(p, order, trace);
    RunStage(p, order, trace, 0);
    StageLoses(p, order[0], trace[0], trace[1]);
    RunState(p, order, trace, 1);
    RunGrew(p, order, trace, 1, |order|);
    LossesStay(p, trace[1], Last(trace));
  }

  lemma {:induction false} StageLoses(p: Program, d: DefnId, was: State, now: State)
    requires Evaluated(p, d, was, now) && NoShadow(p) && was.mapping == map[] && !Safe(p, d)
    ensures !AllFull(p, now)
  {
  }

  /** Arguments lost stay lost. */
  lemma {:induction false} LossesStay(p: Program, was: State, now: State)
    requires StateOk(p, was) && Grows(p)(was, now) && !AllFull(p, was)
    ensures !AllFull(p, now)
  {
    AllDefined(p, was);
    var d :| d in was.mapping && !DefinedFull(p, d, was.pool, was.mapping[d]);
    DefinedStaysFull(p, d, was.pool, now.pool, was.mapping[d]);
    assert d in now.mapping;
  }
}
