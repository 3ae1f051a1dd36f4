/** An analog transmitter (`Analog`): each pass of its loop draws an integer
    from the inclusive range `val` given at construction and writes it to its
    one node, then pauses 0.2 s. The random draw is a parameter; the pause is
    only the boundary between two passes. */
module Analog {
  import opened Results
  import opened Text
  import opened Store

  /** The node it writes and the pair `val == (low, high)` it draws from. */
  datatype Transmitter = Transmitter(node: NodeRef, low: int, high: int)

  /** What `random.randint(low, high)` may return for a given draw: the draw
      itself when the range is non-empty, `None` where Python raises
      `ValueError` for `low > high`. */
  function Sample(t: Transmitter, draw: int): (r: Option<int>)
    requires t.low <= t.high ==> t.low <= draw <= t.high
    ensures r.Some? <==> t.low <= t.high
    ensures r.Some? ==> t.low <= r.value <= t.high && r.value == draw
  {
    if t.low <= t.high then Some(draw) else None
  }

  /** One pass of `run`: write one drawn value to the bound node. When the
      range is empty `randint` raises before anything is written and the pass
      (and the thread) ends with `false`. */
  method Tick(t: Transmitter, store: NodeStore, draw: int) returns (ok: bool)
    requires t.node in store.values
    requires t.low <= t.high ==> t.low <= draw <= t.high
    modifies store
    ensures ok <==> t.low <= t.high
    ensures ok ==> store.values == old(store.values)[t.node := Int(draw)]
    ensures ok ==> store.writes == old(store.writes) + [Write(t.node, Int(draw))]
    ensures !ok ==> store.values == old(store.values) && store.writes == old(store.writes)
  {
    var value := Sample(t, draw);
    if value.None? {
      return false;
    }
    store.SetValue(t.node, Int(value.value));
    ok := true;
  }

  /** The writes of the first `|draws|` passes of `run`. */
  function RunWrites(t: Transmitter, draws: seq<int>): (ws: seq<Write>)
    ensures |ws| == |draws|
  {
    seq(|draws|, k requires 0 <= k < |draws| => Write(t.node, Int(draws[k])))
  }

  /** Every value a transmitter ever writes lies in its range, and it writes
      only its own node. */
  lemma RunWritesInRange(t: Transmitter, draws: seq<int>)
    requires forall k :: 0 <= k < |draws| ==> t.low <= draws[k] <= t.high
    ensures forall k :: 0 <= k < |RunWrites(t, draws)| ==>
      var w := RunWrites(t, draws)[k];
      w.node == t.node && w.value.Int? && t.low <= w.value.i <= t.high
  {
  }

  /** The first `|draws|` passes of the endless `run` loop. The transmitter
      (its node and its range) is a value that the loop never changes. */
  method Run(t: Transmitter, store: NodeStore, draws: seq<int>) returns (ok: bool)
    requires t.node in store.values
    requires forall k :: 0 <= k < |draws| ==> t.low <= t.high ==> t.low <= draws[k] <= t.high
    modifies store
    ensures ok <==> t.low <= t.high || draws == []
    ensures ok ==> store.writes == old(store.writes) + RunWrites(t, draws)
    ensures !ok ==> store.writes == old(store.writes)
    ensures store.values.Keys == old(store.values.Keys)
    ensures ok && draws != [] ==> store.values[t.node] == Int(draws[|draws| - 1])
  {
    var i := 0;
    while i < |draws|
      invariant 0 <= i <= |draws|
      invariant t.node in store.values && store.values.Keys == old(store.values.Keys)
      invariant i > 0 ==> t.low <= t.high
      invariant store.writes == old(store.writes) + RunWrites(t, draws[..i])
      invariant i > 0 ==> store.values[t.node] == Int(draws[i - 1])
    {
      ok := Tick(t, store, draws[i]);
      if !ok {
        return;
      }
      assert RunWrites(t, draws[..i + 1]) == RunWrites(t, draws[..i]) + [Write(t.node, Int(draws[i]))];
      i := i + 1;
    }
    assert draws[..i] == draws;
    ok := true;
  }

  /** `get_name`: the second `_`-separated piece of the node's display name,
      `None` where Python raises `IndexError`. */
  function Name(t: Transmitter): (r: Option<string>)
    ensures r.Some? <==> '_' in t.node.name
  {
    SecondPiece(t.node.name, '_')
  }
}
