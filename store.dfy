/** The remote node store: the controller's OPC UA namespace as the simulator
    sees it through its one client connection. A node is named by the folder
    it was found in (the controller's `Inputs` or `Outputs`) and its display
    name; the store maps each node to its current value and keeps, in order,
    every value written through the client (`OPCClient.setValue`). */
module Store {

  datatype Folder = Inputs | Outputs

  datatype NodeRef = NodeRef(folder: Folder, name: string)

  /** The values the simulated devices read and write: booleans for the
      solenoid valve signals, integers for transmitters, and whatever a control
      valve's command holds (including an empty value). */
  datatype Value = Bool(b: bool) | Int(i: int) | Null

  /** Python truthiness of a node value, as used by `if node.get_value()`. */
  predicate Truthy(v: Value)
  {
    match v
    case Bool(b) => b
    case Int(i) => i != 0
    case Null => false
  }

  /** One `client.setValue(node, value)` call. */
  datatype Write = Write(node: NodeRef, value: Value)

  /** All writes in `ws` go to nodes that exist in `m`. */
  predicate WritesTo(m: map<NodeRef, Value>, ws: seq<Write>)
  {
    forall k :: 0 <= k < |ws| ==> ws[k].node in m
  }

  /** The node values after the writes `ws` land on `m`, in order. */
  function Apply(m: map<NodeRef, Value>, ws: seq<Write>): (r: map<NodeRef, Value>)
    requires WritesTo(m, ws)
    ensures r.Keys == m.Keys
    decreases |ws|
  {
    if ws == [] then m else Apply(m[ws[0].node := ws[0].value], ws[1..])
  }

  /** A node that no write in `ws` targets keeps its value. */
  lemma {:induction false} ApplyUntouched(m: map<NodeRef, Value>, ws: seq<Write>, n: NodeRef)
    requires WritesTo(m, ws) && n in m
    requires forall k :: 0 <= k < |ws| ==> ws[k].node != n
    ensures Apply(m, ws)[n] == m[n]
    decreases |ws|
  {
    if ws != [] {
      ApplyUntouched(m[ws[0].node := ws[0].value], ws[1..], n);
    }
  }

  /** The last write to a node decides its value. */
  lemma {:induction false} ApplyLast(m: map<NodeRef, Value>, ws: seq<Write>, k: nat)
    requires WritesTo(m, ws) && k < |ws|
    requires forall j :: k < j < |ws| ==> ws[j].node != ws[k].node
    ensures Apply(m, ws)[ws[k].node] == ws[k].value
    decreases |ws|
  {
    var m' := m[ws[0].node := ws[0].value];
    if k == 0 {
      ApplyUntouched(m', ws[1..], ws[0].node);
    } else {
      ApplyLast(m', ws[1..], k - 1);
    }
  }

  /** Two writes land one after the other. */
  lemma ApplyPair(m: map<NodeRef, Value>, w1: Write, w2: Write)
    requires w1.node in m && w2.node in m
    ensures Apply(m, [w1, w2]) == m[w1.node := w1.value][w2.node := w2.value]
  {
    var m1 := m[w1.node := w1.value];
    assert [w1, w2][1..] == [w2];
    assert Apply(m, [w1, w2]) == Apply(m1, [w2]);
    assert [w2][1..] == [];
    assert Apply(m1, [w2]) == Apply(m1[w2.node := w2.value], []);
  }

  class NodeStore {
    /** Current value of every node in the namespace. */
    var values: map<NodeRef, Value>
    /** Every value written through the client, oldest first. */
    var writes: seq<Write>

    constructor (initial: map<NodeRef, Value>)
      ensures values == initial && writes == []
    {
      values := initial;
      writes := [];
    }

    /** `node.get_value()` on a node handle obtained from the namespace. */
    method GetValue(n: NodeRef) returns (v: Value)
      requires n in values
      ensures v == values[n]
    {
      v := values[n];
    }

    /** `client.setValue(node, value)`: the node takes the value and the write
        is logged after every earlier one. */
    method SetValue(n: NodeRef, v: Value)
      requires n in values
      modifies this
      ensures values == old(values)[n := v]
      ensures writes == old(writes) + [Write(n, v)]
    {
      values := values[n := v];
      writes := writes + [Write(n, v)];
    }

    /** Changes made on the controller's side (the PLC program, an operator),
        not through this client: values change, the client's log does not. */
    method PlcUpdate(changes: map<NodeRef, Value>)
      requires changes.Keys <= values.Keys
      modifies this
      ensures values == old(values) + changes
      ensures values.Keys == old(values.Keys)
      ensures writes == old(writes)
    {
      values := values + changes;
    }
  }
}
