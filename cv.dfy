/** A control valve (`CV`): each pass of its loop copies the value of the
    openness command node into the openness feedback node, with no pause,
    clamping or conversion. */
module Cv {
  import opened Results
  import opened Text
  import opened Store

  /** `cmd_openness` (written by the controller) and `fb_openness` (written
      by the simulator). */
  datatype ControlValve = ControlValve(cmd: NodeRef, fb: NodeRef)

  predicate Bound(c: ControlValve, m: map<NodeRef, Value>)
  {
    c.cmd in m && c.fb in m
  }

  /** The node values after one copy step. */
  function Follow(c: ControlValve, m: map<NodeRef, Value>): (r: map<NodeRef, Value>)
    requires Bound(c, m)
    ensures r.Keys == m.Keys
    ensures r[c.fb] == m[c.cmd]
    ensures forall n :: n in m && n != c.fb ==> r[n] == m[n]
  {
    m[c.fb := m[c.cmd]]
  }

  /** One pass of `run`: read the command, write it to the feedback node. */
  method Tick(c: ControlValve, store: NodeStore)
    requires Bound(c, store.values)
    modifies store
    ensures store.values == Follow(c, old(store.values))
    ensures store.writes == old(store.writes) + [Write(c.fb, old(store.values)[c.cmd])]
  {
    var v := store.GetValue(c.cmd);
    store.SetValue(c.fb, v);
  }

  /** Repeating the step with an unchanged command changes nothing more. */
  lemma FollowIdempotent(c: ControlValve, m: map<NodeRef, Value>)
    requires Bound(c, m)
    ensures Follow(c, Follow(c, m)) == Follow(c, m)
  {
  }

  /** The node values after passes that each first see the controller set the
      command to the next value of `cmds`, then copy it. */
  function FollowAll(c: ControlValve, m: map<NodeRef, Value>, cmds: seq<Value>): (r: map<NodeRef, Value>)
    requires Bound(c, m)
    ensures r.Keys == m.Keys
  {
    if cmds == [] then m else FollowAll(c, Follow(c, m[c.cmd := cmds[0]]), cmds[1..])
  }

  /** After any sequence of commands, the feedback holds the latest one, and
      no node but the command and the feedback has changed. */
  lemma {:induction false} FeedbackIsLatestCommand(c: ControlValve, m: map<NodeRef, Value>, cmds: seq<Value>)
    requires Bound(c, m) && cmds != []
    ensures FollowAll(c, m, cmds)[c.fb] == cmds[|cmds| - 1]
    ensures forall n :: n in m && n != c.fb && n != c.cmd ==> FollowAll(c, m, cmds)[n] == m[n]
  {
    var m' := Follow(c, m[c.cmd := cmds[0]]);
    if |cmds| > 1 {
      FeedbackIsLatestCommand(c, m', cmds[1..]);
    }
  }

  /** One pass as `Run` sees it: the controller sets the command to `cmd`,
      then the valve copies it. */
  method Pass(c: ControlValve, store: NodeStore, cmd: Value)
    requires Bound(c, store.values)
    modifies store
    ensures store.values == Follow(c, old(store.values)[c.cmd := cmd])
    ensures store.writes == old(store.writes) + [Write(c.fb, cmd)]
  {
    store.PlcUpdate(map[c.cmd := cmd]);
    assert store.values == old(store.values)[c.cmd := cmd];
    Tick(c, store);
  }

  /** The first `|cmds|` passes of the endless `run` loop, the controller
      setting the command to `cmds[k]` before pass `k`. */
  method Run(c: ControlValve, store: NodeStore, cmds: seq<Value>)
    requires Bound(c, store.values)
    modifies store
    ensures store.values == FollowAll(c, old(store.values), cmds)
    ensures |store.writes| == |old(store.writes)| + |cmds|
    ensures forall k :: |old(store.writes)| <= k < |store.writes| ==> store.writes[k].node == c.fb
    ensures forall k :: 0 <= k < |cmds| ==> store.writes[|old(store.writes)| + k] == Write(c.fb, cmds[k])
  {
    var i := 0;
    while i < |cmds|
      invariant 0 <= i <= |cmds|
      invariant Bound(c, store.values)
      invariant FollowAll(c, old(store.values), cmds) == FollowAll(c, store.values, cmds[i..])
      invariant |store.writes| == |old(store.writes)| + i
      invariant forall k :: |old(store.writes)| <= k < |store.writes| ==> store.writes[k].node == c.fb
      invariant forall k :: 0 <= k < i ==> store.writes[|old(store.writes)| + k] == Write(c.fb, cmds[k])
    {
      ghost var before := store.values;
      Pass(c, store, cmds[i]);
      assert cmds[i..][1..] == cmds[i + 1..];
      assert FollowAll(c, before, cmds[i..]) == FollowAll(c, store.values, cmds[i + 1..]);
      i := i + 1;
    }
  }

  /** `get_name`: the second `_`-separated piece of the feedback node's
      display name, `None` where Python raises `IndexError`. */
  function Name(c: ControlValve): (r: Option<string>)
    ensures r.Some? <==> '_' in c.fb.name
  {
    SecondPiece(c.fb.name, '_')
  }
}
