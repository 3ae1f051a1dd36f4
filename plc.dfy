/** The PLC browser of the GUI: the list of PV names `getPVs` derives from the
    controller's device instances, the text `dumpData` writes for the
    browsed tree, and the ancestor path and expansion memo of `evolveTree`. */
module Plc {
  import opened Results
  import opened Text
  import opened Widgets

  // ---------------------------------------------------------------- getPVs

  /** A child of the `3:DataBlocksInstance` folder: its display name and the
      display names of the children of its `3:Inputs` and `3:Outputs`
      folders, None where `get_child` raises `BadNoMatch`. */
  datatype Instance = Instance(name: string, inputs: Option<seq<string>>, outputs: Option<seq<string>>)

  /** An instance data block of a device: "DEV_" and "_iDB" in its name. */
  predicate IsDeviceInstance(name: string)
  {
    Contains(name, "DEV_") && Contains(name, "_iDB")
  }

  /** `device.split("_")[1]`; a device instance always has a second piece. */
  function DeviceName(name: string): (r: string)
    requires IsDeviceInstance(name)
    ensures '_' !in r
  {
    ContainsChar(name, "DEV_", '_');
    SecondPiece(name, '_').value
  }

  /** The signal names an instance contributes, inputs before outputs: a
      failed `3:Inputs` lookup leaves both lists empty, a failed
      `3:Outputs` lookup keeps the inputs already read. */
  function Signals(inst: Instance): seq<string>
  {
    match inst.inputs
    case None => []
    case Some(ins) =>
      match inst.outputs
      case None => ins
      case Some(outs) => ins + outs
  }

  /** The PV name "<dev_name>:<signal>". */
  function Pv(dev: string, signal: string): string
  {
    dev + ":" + signal
  }

  /** One PV per signal, in signal order. */
  function PvsFor(dev: string, signals: seq<string>): (r: seq<string>)
    ensures |r| == |signals| && forall k :: 0 <= k < |r| ==> r[k] == Pv(dev, signals[k])
  {
    seq(|signals|, k requires 0 <= k < |signals| => Pv(dev, signals[k]))
  }

  lemma PvsForMembership(dev: string, signals: seq<string>, pv: string)
    ensures pv in PvsFor(dev, signals) <==> exists x :: x in signals && pv == Pv(dev, x)
  {
    if pv in PvsFor(dev, signals) {
      var k :| 0 <= k < |signals| && PvsFor(dev, signals)[k] == pv;
      assert signals[k] in signals;
    }
    if exists x :: x in signals && pv == Pv(dev, x) {
      var x :| x in signals && pv == Pv(dev, x);
      var k :| 0 <= k < |signals| && signals[k] == x;
      assert PvsFor(dev, signals)[k] == pv;
    }
  }

  /** The PVs of one instance. */
  function InstancePVs(inst: Instance): seq<string>
  {
    if IsDeviceInstance(inst.name) then PvsFor(DeviceName(inst.name), Signals(inst)) else []
  }

  /** The list `getPVs` returns for the instances, in order. */
  function PVsOf(instances: seq<Instance>): seq<string>
  {
    if instances == [] then []
    else PVsOf(instances[..|instances| - 1]) + InstancePVs(instances[|instances| - 1])
  }

  lemma PvsForAppend(dev: string, a: seq<string>, b: seq<string>)
    ensures PvsFor(dev, a + b) == PvsFor(dev, a) + PvsFor(dev, b)
  {
  }

  /** One of the two `for` loops of `getPVs`: a PV per signal, appended. */
  method AppendPvs(pvs0: seq<string>, dev: string, signals: seq<string>) returns (pvs: seq<string>)
    ensures pvs == pvs0 + PvsFor(dev, signals)
  {
    pvs := pvs0;
    for k := 0 to |signals|
      invariant pvs == pvs0 + PvsFor(dev, signals[..k])
    {
      assert PvsFor(dev, signals[..k + 1]) == PvsFor(dev, signals[..k]) + [Pv(dev, signals[k])];
      pvs := pvs + [Pv(dev, signals[k])];
    }
    assert signals[..|signals|] == signals;
  }

  /** The body of the loop of `getPVs` for one instance: nothing for an
      instance that is not a device, else its inputs' PVs and then its
      outputs'. */
  method AppendInstancePvs(pvs0: seq<string>, node: Instance) returns (pvs: seq<string>)
    ensures pvs == pvs0 + InstancePVs(node)
  {
    pvs := pvs0;
    if Contains(node.name, "DEV_") && Contains(node.name, "_iDB") {
      var devName := DeviceName(node.name);
      var inputs: seq<string> := [];
      var outputs: seq<string> := [];
      if node.inputs.Some? {
        inputs := node.inputs.value;
        if node.outputs.Some? {
          outputs := node.outputs.value;
        }
      }
      assert Signals(node) == inputs + outputs;
      PvsForAppend(devName, inputs, outputs);
      pvs := AppendPvs(pvs, devName, inputs);
      pvs := AppendPvs(pvs, devName, outputs);
    }
  }

  /** `getPVs`: for each device instance, one PV per input and then one per
      output, appended to `pvs`. */
  method GetPVs(instances: seq<Instance>) returns (pvs: seq<string>)
    ensures pvs == PVsOf(instances)
  {
    pvs := [];
    for n := 0 to |instances|
      invariant pvs == PVsOf(instances[..n])
    {
      assert instances[..n + 1][..n] == instances[..n];
      pvs := AppendInstancePvs(pvs, instances[n]);
    }
    assert instances[..|instances|] == instances;
  }

  /** Instance `inst` has a signal that gives `pv`. */
  ghost predicate FromInstance(inst: Instance, pv: string)
  {
    IsDeviceInstance(inst.name) && exists x :: x in Signals(inst) && pv == Pv(DeviceName(inst.name), x)
  }

  /** A name is among the PVs exactly when some device instance has a
      signal that gives it. */
  lemma {:induction false} PVsMembership(instances: seq<Instance>, pv: string)
    ensures pv in PVsOf(instances) <==> exists k :: 0 <= k < |instances| && FromInstance(instances[k], pv)
    decreases |instances|
  {
    if instances != [] {
      var init, last := instances[..|instances| - 1], instances[|instances| - 1];
      PVsMembership(init, pv);
      InstanceMembership(last, pv);
      assert pv in PVsOf(instances) <==> pv in PVsOf(init) || pv in InstancePVs(last);
      SomeInstanceSnoc(instances, init, pv);
    }
  }

  /** A name is among one instance's PVs exactly when the instance gives it. */
  lemma InstanceMembership(inst: Instance, pv: string)
    ensures pv in InstancePVs(inst) <==> FromInstance(inst, pv)
  {
    if IsDeviceInstance(inst.name) {
      PvsForMembership(DeviceName(inst.name), Signals(inst), pv);
    }
  }

  /** Some instance gives `pv` exactly when one of all but the last does, or
      the last does. */
  lemma SomeInstanceSnoc(instances: seq<Instance>, init: seq<Instance>, pv: string)
    requires instances != [] && init == instances[..|instances| - 1]
    ensures (exists k :: 0 <= k < |instances| && FromInstance(instances[k], pv)) <==>
      (exists k :: 0 <= k < |init| && FromInstance(init[k], pv)) || FromInstance(instances[|instances| - 1], pv)
  {
    assert forall k :: 0 <= k < |init| ==> init[k] == instances[k];
  }

  /** Each PV splits at its first ':' into the device name, the second
      '_'-separated piece of the instance name, and the signal name. */
  lemma PvSplits(name: string, signal: string)
    requires IsDeviceInstance(name) && ':' !in name
    ensures Split(Pv(DeviceName(name), signal), ':') == [DeviceName(name)] + Split(signal, ':')
  {
    var dev := DeviceName(name);
    assert ':' !in dev by {
      ContainsChar(name, "DEV_", '_');
      SecondPieceKeeps(name, '_', ':');
    }
    assert Pv(dev, signal) == dev + ([':'] + signal);
    SplitFreePrefix(dev, signal, ':');
  }

  /** The second piece of `s` holds only characters of `s`. */
  lemma SecondPieceKeeps(s: string, sep: char, c: char)
    requires sep in s && c !in s
    ensures c !in SecondPiece(s, sep).value
  {
    JoinSplit(s, sep);
    var parts := Split(s, sep);
    SplitHasSecond(s, sep);
    if c in parts[1] {
      JoinHolds(parts, sep, 1, c);
    }
  }

  /** A piece of a joined sequence holds only characters of the join. */
  lemma {:induction false} JoinHolds(parts: seq<string>, sep: char, k: nat, c: char)
    requires k < |parts| && c in parts[k]
    ensures c in Join(parts, sep)
    decreases |parts|
  {
    if |parts| > 1 {
      if k > 0 {
        JoinHolds(parts[1..], sep, k - 1, c);
      }
      assert Join(parts, sep) == parts[0] + [sep] + Join(parts[1..], sep);
    }
  }

  // -------------------------------------------------------------- dumpData

  /** An OPC UA node as `dumpData` sees it: `str(node.get_value())`, None
      where `get_value` raises, and its children. */
  datatype OpcNode = OpcNode(value: Option<string>, children: seq<OpcNode>)

  /** The longest value suffix `dumpData` writes. */
  const MaxValueWidth: nat := 30

  /** `val[0:27] + "..."` when the value text is longer than 30 characters. */
  function Truncate(val: string): (r: string)
    ensures |r| <= MaxValueWidth
    ensures |val| <= MaxValueWidth ==> r == val
    ensures |val| > MaxValueWidth ==> |r| == MaxValueWidth && r[..27] == val[..27] && r[27..] == "..."
  {
    if |val| > 30 then val[0..27] + "..." else val
  }

  /** What follows the item's text on its line: ", <value>" truncated for a
      node without children, nothing for a node with children or one whose
      value cannot be read. */
  function ValueSuffix(node: OpcNode): (r: string)
    ensures |r| <= MaxValueWidth
    ensures node.children != [] || node.value.None? ==> r == ""
    ensures node.children == [] && node.value.Some? ==> r == Truncate(", " + node.value.value)
    ensures node.children == [] && node.value.Some? && |node.value.value| <= MaxValueWidth - 2 ==>
      r == ", " + node.value.value
    ensures node.children == [] && node.value.Some? && |node.value.value| > MaxValueWidth - 2 ==>
      r == ", " + node.value.value[..25] + "..."
  {
    if node.children == [] && node.value.Some? then Truncate(", " + node.value.value) else ""
  }

  /** The lines of a dump, and false when it ended with an `IndexError`. */
  datatype Dump = Dump(lines: seq<string>, ok: bool)

  /** `dumpData` on widget item `item` paired with node `node` at `indent`:
      its own line, then its children two columns further in, each paired
      with the node's child of the same index. */
  function DumpItem(item: Item, node: OpcNode, indent: nat): (r: Dump)
    ensures |r.lines| >= 1 && r.lines[0] == Spaces(indent) + item.text + ValueSuffix(node)
    ensures r.lines[1..] == DumpChildren(item.children, node.children, indent + 2).lines
    ensures r.ok == DumpChildren(item.children, node.children, indent + 2).ok
    decreases item, 1
  {
    var rest := DumpChildren(item.children, node.children, indent + 2);
    Dump([Spaces(indent) + item.text + ValueSuffix(node)] + rest.lines, rest.ok)
  }

  /** The loop over the widget children; a widget child without a node
      child of the same index raises. */
  function DumpChildren(items: seq<Item>, nodes: seq<OpcNode>, indent: nat): Dump
    decreases items, 0
  {
    if items == [] then Dump([], true)
    else if nodes == [] then Dump([], false)
    else
      var first := DumpItem(items[0], nodes[0], indent);
      if !first.ok then first
      else
        var rest := DumpChildren(items[1..], nodes[1..], indent);
        Dump(first.lines + rest.lines, rest.ok)
  }

  /** Every widget item has a node to pair with: the node has at least as
      many children, and so on down. */
  ghost predicate Matches(item: Item, node: OpcNode)
    decreases item
  {
    && |item.children| <= |node.children|
    && forall i :: 0 <= i < |item.children| ==> Matches(item.children[i], node.children[i])
  }

  /** The widget items in the order they are written, each with its depth
      below the item the dump started from. */
  function Outline(item: Item, depth: nat): (r: seq<(nat, string)>)
    ensures |r| >= 1 && r[0] == (depth, item.text)
    decreases item, 1
  {
    [(depth, item.text)] + OutlineAll(item.children, depth + 1)
  }

  function OutlineAll(items: seq<Item>, depth: nat): seq<(nat, string)>
    decreases items, 0
  {
    if items == [] then [] else Outline(items[0], depth) + OutlineAll(items[1..], depth)
  }

  /** Line `s` starts with the indentation and text of entry `e`, two
      spaces per level below the first. */
  ghost predicate LineFor(s: string, e: (nat, string), indent: nat)
  {
    Spaces(indent + 2 * e.0) + e.1 <= s
  }

  /** The lines written are those of the outline, in order and each
      indented two spaces per level, and all of it exactly when every
      widget item has a node to pair with; on an `IndexError` the lines
      already written are a prefix. */
  lemma {:induction false} DumpFollowsOutline(item: Item, node: OpcNode, indent: nat)
    ensures var d := DumpItem(item, node, indent);
      var o := Outline(item, 0);
      && |d.lines| <= |o|
      && (d.ok <==> Matches(item, node))
      && (d.ok ==> |d.lines| == |o|)
      && forall k :: 0 <= k < |d.lines| ==> LineFor(d.lines[k], o[k], indent)
    decreases item, 1
  {
    var rest := DumpChildren(item.children, node.children, indent + 2);
    DumpAllFollowsOutline(item.children, node.children, indent + 2);
    LinesShift(rest.lines, item.children, indent);
    var head := Spaces(indent) + item.text + ValueSuffix(node);
    assert Spaces(indent) + item.text <= head;
    ConsLines(head, rest.lines, item, indent);
    assert Matches(item, node) <==> MatchesAll(item.children, node.children);
  }

  /** The item's own line followed by its children's lines. */
  lemma ConsLines(head: string, lines: seq<string>, item: Item, indent: nat)
    requires Spaces(indent) + item.text <= head
    requires |lines| <= |OutlineAll(item.children, 1)|
    requires forall k :: 0 <= k < |lines| ==> LineFor(lines[k], OutlineAll(item.children, 1)[k], indent)
    ensures forall k :: 0 <= k < |lines| + 1 ==> LineFor(([head] + lines)[k], Outline(item, 0)[k], indent)
  {
    assert Spaces(indent + 2 * 0) == Spaces(indent);
    LinesCons(head, lines, (0, item.text), OutlineAll(item.children, 1), indent);
  }

  /** A line for entry `e` followed by lines for the entries of `es`. */
  lemma LinesCons(head: string, lines: seq<string>, e: (nat, string), es: seq<(nat, string)>, indent: nat)
    requires LineFor(head, e, indent) && |lines| <= |es|
    requires forall k :: 0 <= k < |lines| ==> LineFor(lines[k], es[k], indent)
    ensures forall k :: 0 <= k < |lines| + 1 ==> LineFor(([head] + lines)[k], ([e] + es)[k], indent)
  {
    forall k | 1 <= k < |lines| + 1
      ensures LineFor(([head] + lines)[k], ([e] + es)[k], indent)
    {
      assert ([head] + lines)[k] == lines[k - 1] && ([e] + es)[k] == es[k - 1];
    }
  }

  /** Lines indented for the outline of `items` at `indent + 2` are
      indented for it one level down at `indent`. */
  lemma LinesShift(lines: seq<string>, items: seq<Item>, indent: nat)
    requires |lines| <= |OutlineAll(items, 0)|
    requires forall k :: 0 <= k < |lines| ==> LineFor(lines[k], OutlineAll(items, 0)[k], indent + 2)
    ensures |OutlineAll(items, 1)| == |OutlineAll(items, 0)|
    ensures forall k :: 0 <= k < |lines| ==> LineFor(lines[k], OutlineAll(items, 1)[k], indent)
  {
    OutlineShift(items, 0);
    forall k | 0 <= k < |lines|
      ensures LineFor(lines[k], OutlineAll(items, 1)[k], indent)
    {
      var e := OutlineAll(items, 0)[k];
      assert LineFor(lines[k], e, indent + 2);
      assert indent + 2 + 2 * e.0 == indent + 2 * (e.0 + 1);
    }
  }

  /** The children of a widget item pair with the node children. */
  ghost predicate MatchesAll(items: seq<Item>, nodes: seq<OpcNode>)
  {
    |items| <= |nodes| && forall i :: 0 <= i < |items| ==> Matches(items[i], nodes[i])
  }

  lemma MatchesAllCons(items: seq<Item>, nodes: seq<OpcNode>)
    requires items != [] && nodes != []
    ensures MatchesAll(items, nodes) <==> Matches(items[0], nodes[0]) && MatchesAll(items[1..], nodes[1..])
  {
    assert forall i :: 1 <= i < |items| ==> items[i] == items[1..][i - 1];
    assert forall i :: 1 <= i < |nodes| ==> nodes[i] == nodes[1..][i - 1];
  }

  /** Entries of the outline one level deeper are the same entries with
      depth one more. */
  lemma {:induction false} OutlineShift(items: seq<Item>, depth: nat)
    ensures |OutlineAll(items, depth + 1)| == |OutlineAll(items, depth)|
    ensures forall k :: 0 <= k < |OutlineAll(items, depth)| ==>
      OutlineAll(items, depth + 1)[k] == (OutlineAll(items, depth)[k].0 + 1, OutlineAll(items, depth)[k].1)
    decreases items, 0
  {
    if items != [] {
      OutlineShiftOne(items[0], depth);
      OutlineShift(items[1..], depth);
    }
  }

  lemma {:induction false} OutlineShiftOne(item: Item, depth: nat)
    ensures |Outline(item, depth + 1)| == |Outline(item, depth)|
    ensures forall k :: 0 <= k < |Outline(item, depth)| ==>
      Outline(item, depth + 1)[k] == (Outline(item, depth)[k].0 + 1, Outline(item, depth)[k].1)
    decreases item, 1
  {
    OutlineShift(item.children, depth + 1);
  }

  lemma {:induction false} DumpAllFollowsOutline(items: seq<Item>, nodes: seq<OpcNode>, indent: nat)
    ensures var d := DumpChildren(items, nodes, indent);
      var o := OutlineAll(items, 0);
      && |d.lines| <= |o|
      && (d.ok <==> MatchesAll(items, nodes))
      && (d.ok ==> |d.lines| == |o|)
      && forall k :: 0 <= k < |d.lines| ==> LineFor(d.lines[k], o[k], indent)
    decreases items, 0
  {
    if items != [] && nodes != [] {
      var first := DumpItem(items[0], nodes[0], indent);
      DumpFollowsOutline(items[0], nodes[0], indent);
      var o := OutlineAll(items, 0);
      var fo := Outline(items[0], 0);
      assert o == fo + OutlineAll(items[1..], 0);
      if first.ok {
        var rest := DumpChildren(items[1..], nodes[1..], indent);
        DumpAllFollowsOutline(items[1..], nodes[1..], indent);
        var d := DumpChildren(items, nodes, indent);
        assert d.lines == first.lines + rest.lines;
        forall k | 0 <= k < |d.lines|
          ensures LineFor(d.lines[k], o[k], indent)
        {
          if k >= |first.lines| {
            assert d.lines[k] == rest.lines[k - |first.lines|];
            assert o[k] == OutlineAll(items[1..], 0)[k - |first.lines|];
          }
        }
        MatchesAllCons(items, nodes);
      } else {
        assert !MatchesAll(items, nodes) by {
          assert !Matches(items[0], nodes[0]);
        }
      }
    }
  }

  // ------------------------------------------------------------ evolveTree

  /** The text of the root item of the PLC browser. */
  const RootText: string := "0:Root"

  /** `s` back to front. */
  function Reverse(s: seq<string>): (r: seq<string>)
    ensures |r| == |s| && forall k :: 0 <= k < |s| ==> r[k] == s[|s| - 1 - k]
  {
    if s == [] then [] else Reverse(s[1..]) + [s[0]]
  }

  /** The ancestor path `evolveTree` builds from the texts of the current
      item and its parents, nearest first: the items below "0:Root",
      root-first. Without "0:Root" the walk runs off the top and raises. */
  function AncestorPath(chain: seq<string>): (r: Option<seq<string>>)
    ensures r.Some? <==> RootText in chain
    ensures r.Some? ==> RootText !in r.value
  {
    if RootText !in chain then None
    else
      var n := FirstIndex(chain, RootText);
      Some(Reverse(chain[..n]))
  }

  /** The position of the first `x` in `s`. */
  function FirstIndex(s: seq<string>, x: string): (i: nat)
    requires x in s
    ensures i < |s| && s[i] == x && x !in s[..i]
  {
    if s[0] == x then 0 else 1 + FirstIndex(s[1..], x)
  }

  /** The `while` loop of `evolveTree`: each text is put in front of
      `parents` until "0:Root" is reached. */
  method WalkToRoot(chain: seq<string>) returns (parents: Option<seq<string>>)
    ensures parents == AncestorPath(chain)
  {
    var path: seq<string> := [];
    var i := 0;
    while i < |chain| && chain[i] != RootText
      invariant 0 <= i <= |chain|
      invariant RootText !in chain[..i]
      invariant path == Reverse(chain[..i])
    {
      assert chain[..i + 1][1..] == chain[1..i + 1];
      path := [chain[i]] + path;
      assert Reverse(chain[..i + 1]) == [chain[i]] + Reverse(chain[..i]) by {
        ReverseSnoc(chain[..i], chain[i]);
        assert chain[..i + 1] == chain[..i] + [chain[i]];
      }
      i := i + 1;
    }
    if i == |chain| {
      assert chain[..i] == chain;
      return None;
    }
    return Some(path);
  }

  lemma ReverseSnoc(s: seq<string>, x: string)
    ensures Reverse(s + [x]) == [x] + Reverse(s)
  {
  }

  /** The path of the selected item is its chain of texts read from the
      top: entry `k` is the text `k` steps below "0:Root". */
  lemma PathIsRootFirst(chain: seq<string>)
    requires RootText in chain
    ensures var n := FirstIndex(chain, RootText);
      forall k :: 0 <= k < n ==> AncestorPath(chain).value[k] == chain[n - 1 - k]
  {
  }

  /** What a selection does with `expand_list`. */
  datatype Outcome =
    | Crashed          // no "0:Root" above the item: the walk raises
    | AlreadyExpanded  // the path is in `expand_list`: nothing more happens
    | Recorded         // the empty path of "0:Root" itself: recorded, nothing to expand
    | Expanded(path: seq<string>)  // recorded, and the node's children are added

  /** One selection on memo `list`: the outcome and the new memo. */
  function Evolve(list: seq<seq<string>>, chain: seq<string>): (seq<seq<string>>, Outcome)
  {
    match AncestorPath(chain)
    case None => (list, Crashed)
    case Some(path) =>
      if path in list then (list, AlreadyExpanded)
      else (list + [path], if path == [] then Recorded else Expanded(path))
  }

  /** Outcomes of successive selections from memo `list`. */
  function Replay(list: seq<seq<string>>, chains: seq<seq<string>>): (r: seq<Outcome>)
    ensures |r| == |chains|
    decreases |chains|
  {
    if chains == [] then []
    else
      var (next, o) := Evolve(list, chains[0]);
      [o] + Replay(next, chains[1..])
  }

  /** A path already in the memo is never expanded again. */
  lemma {:induction false} KnownNeverExpanded(list: seq<seq<string>>, chains: seq<seq<string>>, p: seq<string>)
    requires p in list
    ensures forall j :: 0 <= j < |chains| ==> Replay(list, chains)[j] != Expanded(p)
    decreases |chains|
  {
    if chains != [] {
      var (next, o) := Evolve(list, chains[0]);
      KnownNeverExpanded(next, chains[1..], p);
      assert p in next;
    }
  }

  /** Each path is expanded at most once over any run of selections. */
  lemma {:induction false} ExpandedAtMostOnce(list: seq<seq<string>>, chains: seq<seq<string>>, i: nat, j: nat)
    requires i < j < |chains|
    ensures Replay(list, chains)[i].Expanded? ==> Replay(list, chains)[j] != Replay(list, chains)[i]
    decreases |chains|
  {
    var (next, o) := Evolve(list, chains[0]);
    if i == 0 {
      if o.Expanded? {
        KnownNeverExpanded(next, chains[1..], o.path);
      }
    } else {
      ExpandedAtMostOnce(next, chains[1..], i - 1, j - 1);
    }
  }

  /** The memo never holds a path twice. */
  ghost predicate NoDuplicates(list: seq<seq<string>>)
  {
    forall i, j :: 0 <= i < j < |list| ==> list[i] != list[j]
  }

  /** The connection object that carries `expand_list`. */
  class Client {
    var expandList: seq<seq<string>>

    constructor()
      ensures expandList == []
    {
      expandList := [];
    }

    /** `evolveTree` for an item whose texts, from the item up, are `chain`. */
    method EvolveTree(chain: seq<string>) returns (outcome: Outcome)
      modifies this
      ensures (expandList, outcome) == Evolve(old(expandList), chain)
      ensures NoDuplicates(old(expandList)) ==> NoDuplicates(expandList)
    {
      var parents := WalkToRoot(chain);
      if parents.None? {
        return Crashed;
      }
      if parents.value in expandList {
        return AlreadyExpanded;
      }
      expandList := expandList + [parents.value];
      if parents.value == [] {
        return Recorded;
      }
      return Expanded(parents.value);
    }
  }
}
