/** A two-state solenoid valve (`YSV`). Its energize node is written by the
    controller; the simulator answers on the `opened` and `closed` feedback
    nodes. Whether energizing opens or closes the valve is read off the
    energize node's display name. One pass of the loop makes two checks, each
    on fresh reads: an activation that clears the resting feedback, waits the
    travel time and sets the commanded one; then a de-activation that does
    the reverse. The travel pauses are only the order between two writes. */
module Ysv {
  import opened Results
  import opened Text
  import opened Store

  datatype EnergizeType = EnergizeToOpen | EnergizeToClose

  datatype SolenoidValve = SolenoidValve(energizedNode: NodeRef, openedNode: NodeRef, closedNode: NodeRef)

  /** `et`: energize-to-open exactly when the energize node's name holds "open". */
  function EnergizeTypeOf(v: SolenoidValve): (et: EnergizeType)
    ensures et == EnergizeToOpen <==> Contains(v.energizedNode.name, "open")
  {
    if Contains(v.energizedNode.name, "open") then EnergizeToOpen else EnergizeToClose
  }

  /** `oc[et]`: the feedback node that becomes true while energized. */
  function Target(v: SolenoidValve): NodeRef
  {
    if EnergizeTypeOf(v) == EnergizeToOpen then v.openedNode else v.closedNode
  }

  /** `oc[1 - et]`: the feedback node that becomes true while de-energized. */
  function Other(v: SolenoidValve): NodeRef
  {
    if EnergizeTypeOf(v) == EnergizeToOpen then v.closedNode else v.openedNode
  }

  /** The target and the other node are the two feedback nodes, one each. */
  lemma TargetAndOther(v: SolenoidValve)
    ensures {Target(v), Other(v)} == {v.openedNode, v.closedNode}
    ensures Contains(v.energizedNode.name, "open") ==> Target(v) == v.openedNode && Other(v) == v.closedNode
    ensures !Contains(v.energizedNode.name, "open") ==> Target(v) == v.closedNode && Other(v) == v.openedNode
  {
  }

  predicate Bound(v: SolenoidValve, m: map<NodeRef, Value>)
  {
    v.energizedNode in m && v.openedNode in m && v.closedNode in m
  }

  /** The three nodes are different nodes (true of every discovered valve). */
  predicate Distinct(v: SolenoidValve)
  {
    v.openedNode != v.closedNode && v.energizedNode != v.openedNode && v.energizedNode != v.closedNode
  }

  /** The controller-side changes in `plc` leave this valve's nodes alone. */
  predicate Untouched(v: SolenoidValve, plc: map<NodeRef, Value>)
  {
    v.energizedNode !in plc && v.openedNode !in plc && v.closedNode !in plc
  }

  /** Writes of the first check: energized and the target not yet true. */
  function Activation(v: SolenoidValve, m: map<NodeRef, Value>): (ws: seq<Write>)
    requires Bound(v, m)
    ensures WritesTo(m, ws)
  {
    if Truthy(m[v.energizedNode]) && !Truthy(m[Target(v)])
    then [Write(Other(v), Bool(false)), Write(Target(v), Bool(true))]
    else []
  }

  /** Writes of the second check: de-energized and the other node not yet true. */
  function Deactivation(v: SolenoidValve, m: map<NodeRef, Value>): (ws: seq<Write>)
    requires Bound(v, m)
    ensures WritesTo(m, ws)
  {
    if !Truthy(m[v.energizedNode]) && !Truthy(m[Other(v)])
    then [Write(Target(v), Bool(false)), Write(Other(v), Bool(true))]
    else []
  }

  /** Node values seen by the second check: the first check's writes, then
      whatever the controller changed in the meantime. */
  function Midway(v: SolenoidValve, m: map<NodeRef, Value>, plc: map<NodeRef, Value>): (r: map<NodeRef, Value>)
    requires Bound(v, m) && plc.Keys <= m.Keys
    ensures r.Keys == m.Keys
  {
    Apply(m, Activation(v, m)) + plc
  }

  /** Every write of one pass, in order. */
  function TickWrites(v: SolenoidValve, m: map<NodeRef, Value>, plc: map<NodeRef, Value>): seq<Write>
    requires Bound(v, m) && plc.Keys <= m.Keys
  {
    Activation(v, m) + Deactivation(v, Midway(v, m, plc))
  }

  /** Node values at the end of one pass. */
  function AfterTick(v: SolenoidValve, m: map<NodeRef, Value>, plc: map<NodeRef, Value>): (r: map<NodeRef, Value>)
    requires Bound(v, m) && plc.Keys <= m.Keys
    ensures r.Keys == m.Keys
  {
    var mid := Midway(v, m, plc);
    Apply(mid, Deactivation(v, mid))
  }

  /** The first check of a pass: if energized and the target is not true,
      clear the other feedback, then (after the travel time) set the target. */
  method ActivationCheck(v: SolenoidValve, store: NodeStore)
    requires Bound(v, store.values)
    modifies store
    ensures store.writes == old(store.writes) + Activation(v, old(store.values))
    ensures store.values == Apply(old(store.values), Activation(v, old(store.values)))
  {
    ghost var m0 := store.values;
    var target, other := Target(v), Other(v);
    var e := store.GetValue(v.energizedNode);
    if Truthy(e) {
      var t := store.GetValue(target);
      if !Truthy(t) {
        store.SetValue(other, Bool(false));
        // travel time (move_time)
        store.SetValue(target, Bool(true));
        ApplyPair(m0, Write(other, Bool(false)), Write(target, Bool(true)));
        return;
      }
    }
    assert Activation(v, m0) == [];
  }

  /** The second check of a pass, on fresh reads: if de-energized and the
      other feedback is not true, clear the target, then (after the travel
      time) set the other feedback. */
  method DeactivationCheck(v: SolenoidValve, store: NodeStore)
    requires Bound(v, store.values)
    modifies store
    ensures store.writes == old(store.writes) + Deactivation(v, old(store.values))
    ensures store.values == Apply(old(store.values), Deactivation(v, old(store.values)))
  {
    ghost var m1 := store.values;
    var target, other := Target(v), Other(v);
    var e := store.GetValue(v.energizedNode);
    if !Truthy(e) {
      var o := store.GetValue(other);
      if !Truthy(o) {
        store.SetValue(target, Bool(false));
        // travel time (move_time)
        store.SetValue(other, Bool(true));
        ApplyPair(m1, Write(target, Bool(false)), Write(other, Bool(true)));
        return;
      }
    }
    assert Deactivation(v, m1) == [];
  }

  /** One pass of the `while True` loop of `run`; `plc` holds the controller's
      changes that land between the two checks. */
  method Tick(v: SolenoidValve, store: NodeStore, plc: map<NodeRef, Value>)
    requires Bound(v, store.values) && plc.Keys <= store.values.Keys
    modifies store
    ensures store.writes == old(store.writes) + TickWrites(v, old(store.values), plc)
    ensures store.values == AfterTick(v, old(store.values), plc)
  {
    ghost var m0 := store.values;
    ghost var w0 := store.writes;
    ActivationCheck(v, store);
    store.PlcUpdate(plc);
    assert store.values == Midway(v, m0, plc);
    DeactivationCheck(v, store);
    assert store.writes == w0 + Activation(v, m0) + Deactivation(v, Midway(v, m0, plc));
  }

  /** Activation clears the resting feedback strictly before it sets the
      commanded one. */
  lemma ActivationOrder(v: SolenoidValve, m: map<NodeRef, Value>, plc: map<NodeRef, Value>)
    requires Bound(v, m) && plc.Keys <= m.Keys
    requires Truthy(m[v.energizedNode]) && !Truthy(m[Target(v)])
    ensures |TickWrites(v, m, plc)| >= 2
    ensures TickWrites(v, m, plc)[0] == Write(Other(v), Bool(false))
    ensures TickWrites(v, m, plc)[1] == Write(Target(v), Bool(true))
  {
  }

  /** De-activation clears the commanded feedback strictly before it sets the
      resting one, and does nothing else in that pass. */
  lemma DeactivationOrder(v: SolenoidValve, m: map<NodeRef, Value>, plc: map<NodeRef, Value>)
    requires Bound(v, m) && plc.Keys <= m.Keys && Untouched(v, plc)
    requires !Truthy(m[v.energizedNode]) && !Truthy(m[Other(v)])
    ensures TickWrites(v, m, plc) == [Write(Target(v), Bool(false)), Write(Other(v), Bool(true))]
  {
  }

  /** A valve already at its commanded end position is left alone, even when
      the other feedback is also true. */
  lemma NoWriteAtCommandedPosition(v: SolenoidValve, m: map<NodeRef, Value>, plc: map<NodeRef, Value>)
    requires Bound(v, m) && plc.Keys <= m.Keys && Untouched(v, plc)
    requires Truthy(m[v.energizedNode]) ==> Truthy(m[Target(v)])
    requires !Truthy(m[v.energizedNode]) ==> Truthy(m[Other(v)])
    ensures TickWrites(v, m, plc) == []
    ensures AfterTick(v, m, plc) == m + plc
  {
    TargetAndOther(v);
    assert Activation(v, m) == [];
    assert Midway(v, m, plc) == Apply(m, []) + plc == m + plc;
    assert Deactivation(v, m + plc) == [];
  }

  /** With the command held and the commanded node false, one pass leaves
      exactly the node selected by the command true. */
  lemma SettlesToCommand(v: SolenoidValve, m: map<NodeRef, Value>, plc: map<NodeRef, Value>)
    requires Bound(v, m) && plc.Keys <= m.Keys && Distinct(v) && Untouched(v, plc)
    requires Truthy(m[v.energizedNode]) ==> !Truthy(m[Target(v)])
    requires !Truthy(m[v.energizedNode]) ==> !Truthy(m[Other(v)])
    ensures AfterTick(v, m, plc)[Target(v)] == Bool(Truthy(m[v.energizedNode]))
    ensures AfterTick(v, m, plc)[Other(v)] == Bool(!Truthy(m[v.energizedNode]))
  {
    var mid := Midway(v, m, plc);
    if Truthy(m[v.energizedNode]) {
      ApplyPair(m, Write(Other(v), Bool(false)), Write(Target(v), Bool(true)));
      assert mid[v.energizedNode] == m[v.energizedNode];
    } else {
      assert mid == m + plc;
      ApplyPair(mid, Write(Target(v), Bool(false)), Write(Other(v), Bool(true)));
    }
  }

  /** The two checks read afresh: a command reversal that lands after the
      first check's writes is acted on in the same pass, after the first
      travel has completed. */
  lemma ReversalInSamePass(v: SolenoidValve, m: map<NodeRef, Value>)
    requires Bound(v, m) && Distinct(v)
    requires Truthy(m[v.energizedNode]) && !Truthy(m[Target(v)])
    ensures TickWrites(v, m, map[v.energizedNode := Bool(false)]) ==
      [Write(Other(v), Bool(false)), Write(Target(v), Bool(true)),
       Write(Target(v), Bool(false)), Write(Other(v), Bool(true))]
    ensures AfterTick(v, m, map[v.energizedNode := Bool(false)])[Target(v)] == Bool(false)
    ensures AfterTick(v, m, map[v.energizedNode := Bool(false)])[Other(v)] == Bool(true)
  {
    var plc := map[v.energizedNode := Bool(false)];
    ApplyPair(m, Write(Other(v), Bool(false)), Write(Target(v), Bool(true)));
    var mid := Midway(v, m, plc);
    assert mid[v.energizedNode] == Bool(false) && mid[Other(v)] == Bool(false);
    ApplyPair(mid, Write(Target(v), Bool(false)), Write(Other(v), Bool(true)));
  }

  /** The energize node is only read: every write goes to a feedback node, and
      the energize node ends the pass as the controller left it. */
  lemma EnergizeOnlyRead(v: SolenoidValve, m: map<NodeRef, Value>, plc: map<NodeRef, Value>)
    requires Bound(v, m) && plc.Keys <= m.Keys && Distinct(v)
    ensures forall k :: 0 <= k < |TickWrites(v, m, plc)| ==>
      TickWrites(v, m, plc)[k].node in {v.openedNode, v.closedNode}
    ensures AfterTick(v, m, plc)[v.energizedNode] == (m + plc)[v.energizedNode]
  {
    var mid := Midway(v, m, plc);
    ApplyUntouched(m, Activation(v, m), v.energizedNode);
    ApplyUntouched(mid, Deactivation(v, mid), v.energizedNode);
  }

  /** Exactly one of `opened` and `closed` is true. */
  predicate Settled(v: SolenoidValve, m: map<NodeRef, Value>)
    requires Bound(v, m)
  {
    Truthy(m[v.openedNode]) != Truthy(m[v.closedNode])
  }

  /** A pass that starts settled ends settled, whatever the controller does
      to the command meanwhile; a pass that starts with both feedbacks false
      ends settled when the command is held. */
  lemma TickSettles(v: SolenoidValve, m: map<NodeRef, Value>, plc: map<NodeRef, Value>)
    requires Bound(v, m) && plc.Keys <= m.Keys && Distinct(v)
    requires v.openedNode !in plc && v.closedNode !in plc
    requires Settled(v, m) || (!Truthy(m[v.openedNode]) && !Truthy(m[v.closedNode]) && v.energizedNode !in plc)
    ensures Settled(v, AfterTick(v, m, plc))
  {
    TargetAndOther(v);
    var act := Activation(v, m);
    if act != [] {
      ApplyPair(m, act[0], act[1]);
    } else {
      assert Apply(m, act) == m;
    }
    var mid := Midway(v, m, plc);
    assert Truthy(mid[v.openedNode]) != Truthy(mid[v.closedNode]) || (act == [] && !Truthy(mid[v.energizedNode]));
    var deact := Deactivation(v, mid);
    if deact != [] {
      ApplyPair(mid, deact[0], deact[1]);
    } else {
      assert AfterTick(v, m, plc) == Apply(mid, []) == mid;
    }
  }

  /** Both feedbacks true is never repaired: the valve writes nothing. */
  lemma BothTrueIsKept(v: SolenoidValve, m: map<NodeRef, Value>, plc: map<NodeRef, Value>)
    requires Bound(v, m) && plc.Keys <= m.Keys
    requires v.openedNode !in plc && v.closedNode !in plc
    requires Truthy(m[v.openedNode]) && Truthy(m[v.closedNode])
    ensures TickWrites(v, m, plc) == []
  {
    TargetAndOther(v);
    assert Activation(v, m) == [];
    assert Midway(v, m, plc) == Apply(m, []) + plc == m + plc;
    assert Deactivation(v, m + plc) == [];
  }

  /** The controller's changes seen by one pass: `pause` lands in the poll
      pause before the pass (before the first check), `midway` between its
      two checks. */
  datatype PlcChanges = PlcChanges(pause: map<NodeRef, Value>, midway: map<NodeRef, Value>)

  /** The controller only changes nodes that exist. */
  predicate Fits(nodes: set<NodeRef>, plcs: seq<PlcChanges>)
  {
    plcs == [] || (plcs[0].pause.Keys <= nodes && plcs[0].midway.Keys <= nodes && Fits(nodes, plcs[1..]))
  }

  /** Node values after the passes that see the controller changes `plcs`. */
  function RunValues(v: SolenoidValve, m: map<NodeRef, Value>, plcs: seq<PlcChanges>): (r: map<NodeRef, Value>)
    requires Bound(v, m) && Fits(m.Keys, plcs)
    ensures r.Keys == m.Keys
  {
    if plcs == [] then m
    else
      assert (m + plcs[0].pause).Keys == m.Keys;
      var m' := AfterTick(v, m + plcs[0].pause, plcs[0].midway);
      RunValues(v, m', plcs[1..])
  }

  /** Every write of those passes, in order. */
  function RunWrites(v: SolenoidValve, m: map<NodeRef, Value>, plcs: seq<PlcChanges>): seq<Write>
    requires Bound(v, m) && Fits(m.Keys, plcs)
  {
    if plcs == [] then []
    else
      assert (m + plcs[0].pause).Keys == m.Keys;
      var m' := AfterTick(v, m + plcs[0].pause, plcs[0].midway);
      TickWrites(v, m + plcs[0].pause, plcs[0].midway) + RunWrites(v, m', plcs[1..])
  }

  /** Over any number of passes the valve writes only its two feedback
      nodes. */
  lemma {:induction false} RunWritesFeedbackOnly(v: SolenoidValve, m: map<NodeRef, Value>, plcs: seq<PlcChanges>)
    requires Bound(v, m) && Fits(m.Keys, plcs) && Distinct(v)
    ensures forall k :: 0 <= k < |RunWrites(v, m, plcs)| ==>
      RunWrites(v, m, plcs)[k].node in {v.openedNode, v.closedNode}
  {
    if plcs != [] {
      var m0 := m + plcs[0].pause;
      var m' := AfterTick(v, m0, plcs[0].midway);
      EnergizeOnlyRead(v, m0, plcs[0].midway);
      RunWritesFeedbackOnly(v, m', plcs[1..]);
    }
  }

  /** A valve that starts settled, or starts with both feedbacks false and
      the command held between the checks of the first pass, is settled
      after every pass as long as nothing but the command changes. */
  lemma {:induction false} RunStaysSettled(v: SolenoidValve, m: map<NodeRef, Value>, plcs: seq<PlcChanges>)
    requires Bound(v, m) && Distinct(v) && plcs != [] && Fits(m.Keys, plcs)
    requires forall k :: 0 <= k < |plcs| ==>
      v.openedNode !in plcs[k].pause && v.closedNode !in plcs[k].pause &&
      v.openedNode !in plcs[k].midway && v.closedNode !in plcs[k].midway
    requires Settled(v, m) || (!Truthy(m[v.openedNode]) && !Truthy(m[v.closedNode]) && v.energizedNode !in plcs[0].midway)
    ensures Settled(v, RunValues(v, m, plcs))
  {
    var m0 := m + plcs[0].pause;
    assert m0[v.openedNode] == m[v.openedNode] && m0[v.closedNode] == m[v.closedNode];
    var m' := AfterTick(v, m0, plcs[0].midway);
    TickSettles(v, m0, plcs[0].midway);
    if |plcs| > 1 {
      RunStaysSettled(v, m', plcs[1..]);
    }
  }

  /** Running the first pass, then the rest. */
  lemma RunUnfold(v: SolenoidValve, m: map<NodeRef, Value>, plcs: seq<PlcChanges>, logged: seq<Write>)
    requires Bound(v, m) && Fits(m.Keys, plcs) && plcs != []
    ensures var m' := AfterTick(v, m + plcs[0].pause, plcs[0].midway);
      && Bound(v, m') && Fits(m'.Keys, plcs[1..])
      && RunValues(v, m, plcs) == RunValues(v, m', plcs[1..])
      && RunWrites(v, m, plcs) == TickWrites(v, m + plcs[0].pause, plcs[0].midway) + RunWrites(v, m', plcs[1..])
      && (logged + TickWrites(v, m + plcs[0].pause, plcs[0].midway)) + RunWrites(v, m', plcs[1..])
         == logged + RunWrites(v, m, plcs)
  {
    var m0 := m + plcs[0].pause;
    assert m0.Keys == m.Keys;
    var m' := AfterTick(v, m0, plcs[0].midway);
    var t := TickWrites(v, m0, plcs[0].midway);
    var rest := RunWrites(v, m', plcs[1..]);
    assert RunWrites(v, m, plcs) == t + rest;
    ConcatAssoc(logged, t, rest);
  }

  lemma ConcatAssoc<T>(a: seq<T>, b: seq<T>, c: seq<T>)
    ensures (a + b) + c == a + (b + c)
  {
  }

  /** One pass as `Run` sees it: the changes of the poll pause, then the
      pass with the changes between its checks. */
  method Pass(v: SolenoidValve, store: NodeStore, plc: PlcChanges)
    requires Bound(v, store.values) && plc.pause.Keys <= store.values.Keys && plc.midway.Keys <= store.values.Keys
    modifies store
    ensures store.values == AfterTick(v, old(store.values) + plc.pause, plc.midway)
    ensures store.writes == old(store.writes) + TickWrites(v, old(store.values) + plc.pause, plc.midway)
  {
    store.PlcUpdate(plc.pause);
    // poll period
    Tick(v, store, plc.midway);
  }

  /** The first `|plcs|` passes of `run`, the controller's changes landing
      in the poll pause before each pass and between its two checks. The
      source derives the energize type once, before the loop; it depends
      only on the energize node's name, so `Tick` deriving it on every pass
      gives the same writes. */
  method Run(v: SolenoidValve, store: NodeStore, plcs: seq<PlcChanges>)
    requires Bound(v, store.values) && Fits(store.values.Keys, plcs)
    modifies store
    ensures store.values == RunValues(v, old(store.values), plcs)
    ensures store.writes == old(store.writes) + RunWrites(v, old(store.values), plcs)
  {
    var i := 0;
    while i < |plcs|
      invariant 0 <= i <= |plcs|
      invariant Bound(v, store.values) && Fits(store.values.Keys, plcs[i..])
      invariant RunValues(v, old(store.values), plcs) == RunValues(v, store.values, plcs[i..])
      invariant old(store.writes) + RunWrites(v, old(store.values), plcs)
        == store.writes + RunWrites(v, store.values, plcs[i..])
    {
      RunUnfold(v, store.values, plcs[i..], store.writes);
      assert plcs[i..][0] == plcs[i] && plcs[i..][1..] == plcs[i + 1..];
      Pass(v, store, plcs[i]);
      i := i + 1;
    }
  }

  /** `get_name`: the second `_`-separated piece of the energize node's
      display name, `None` where Python raises `IndexError`. */
  function Name(v: SolenoidValve): (r: Option<string>)
    ensures r.Some? <==> '_' in v.energizedNode.name
  {
    SecondPiece(v.energizedNode.name, '_')
  }
}
