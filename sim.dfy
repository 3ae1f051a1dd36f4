/** Discovery, the body of the simulator's entry point: one pass over the
    controller's `Inputs` children that wraps analog signals as transmitters,
    then one pass over its `Outputs` children that builds at most one valve per
    P&ID tag, with its companion nodes found by naming convention. The
    namespace is given as the display names of the two folders' children, in
    the order the store returns them. */
module Sim {
  import opened Results
  import opened Text
  import opened Store
  import Analog
  import Cv
  import Ysv

  /** Markers of analog instruments in an input node's name. */
  const AnalogTags: seq<string> := ["_TT-", "_PT-", "_RT-", "_FT"]

  /** The range every discovered transmitter draws from. */
  const AnalogLow: int := 13000
  const AnalogHigh: int := 14000

  /** The transmitter the simulator builds for input node `name`. */
  function TransmitterOn(name: string): Analog.Transmitter
  {
    Analog.Transmitter(NodeRef(Inputs, name), AnalogLow, AnalogHigh)
  }

  /** Transmitters built for input node `name` by the first `k` markers: one
      per marker found, since the duplicate test (a string against a list of
      `Analog` objects) never excludes anything. */
  function TransmittersFor(name: string, k: nat): seq<Analog.Transmitter>
    requires k <= |AnalogTags|
  {
    if k == 0 then []
    else TransmittersFor(name, k - 1) + (if Contains(name, AnalogTags[k - 1]) then [TransmitterOn(name)] else [])
  }

  /** Transmitters built for all of `inputs`, in order. */
  function Transmitters(inputs: seq<string>): seq<Analog.Transmitter>
  {
    if inputs == [] then []
    else Transmitters(inputs[..|inputs| - 1]) + TransmittersFor(inputs[|inputs| - 1], |AnalogTags|)
  }

  /** Indices of the markers among the first `k` that occur in `name`. */
  ghost function MarkersIn(name: string, k: nat): set<nat>
  {
    set j: nat | j < k && j < |AnalogTags| && Contains(name, AnalogTags[j])
  }

  /** One transmitter per marker that occurs in the name, all alike. */
  lemma {:induction false} OnePerMarker(name: string, k: nat)
    requires k <= |AnalogTags|
    ensures |TransmittersFor(name, k)| == |MarkersIn(name, k)|
    ensures forall j :: 0 <= j < |TransmittersFor(name, k)| ==> TransmittersFor(name, k)[j] == TransmitterOn(name)
  {
    if k > 0 {
      OnePerMarker(name, k - 1);
      MarkersStep(name, k);
    }
  }

  /** The markers among the first `k` are those among the first `k - 1`,
      plus marker `k - 1` when it occurs. */
  lemma MarkersStep(name: string, k: nat)
    requires 0 < k <= |AnalogTags|
    ensures k - 1 !in MarkersIn(name, k - 1)
    ensures MarkersIn(name, k) == MarkersIn(name, k - 1) + (if Contains(name, AnalogTags[k - 1]) then {k - 1} else {})
  {
    var extra: set<nat> := if Contains(name, AnalogTags[k - 1]) then {k - 1} else {};
    forall j: nat
      ensures j in MarkersIn(name, k) <==> j in MarkersIn(name, k - 1) + extra
    {
    }
  }

  /** Inputs are handled one by one, with no memory of earlier nodes. */
  lemma {:induction false} TransmittersAppend(a: seq<string>, b: seq<string>)
    ensures Transmitters(a + b) == Transmitters(a) + Transmitters(b)
    decreases |b|
  {
    if b != [] {
      var b' := b[..|b| - 1];
      assert (a + b)[..|a + b| - 1] == a + b';
      TransmittersAppend(a, b');
    } else {
      assert a + b == a;
    }
  }

  /** Listing the same inputs twice doubles the transmitters: there is no
      de-duplication. */
  lemma NoDeduplication(inputs: seq<string>)
    ensures |Transmitters(inputs + inputs)| == 2 * |Transmitters(inputs)|
  {
    TransmittersAppend(inputs, inputs);
  }

  /** Every transmitter sits on an input node whose name holds a marker and
      draws from 13000..14000; every marked input node has one. */
  lemma {:induction false} TransmittersSound(inputs: seq<string>)
    ensures forall t :: t in Transmitters(inputs) ==>
      t.low == AnalogLow && t.high == AnalogHigh && t.node.folder == Inputs &&
      t.node.name in inputs && exists j :: 0 <= j < |AnalogTags| && Contains(t.node.name, AnalogTags[j])
    ensures forall i, j :: 0 <= i < |inputs| && 0 <= j < |AnalogTags| && Contains(inputs[i], AnalogTags[j]) ==>
      TransmitterOn(inputs[i]) in Transmitters(inputs)
  {
    if inputs != [] {
      var init, name := inputs[..|inputs| - 1], inputs[|inputs| - 1];
      TransmittersSound(init);
      forall j | 0 <= j <= |AnalogTags|
        ensures forall t :: t in TransmittersFor(name, j) ==>
          t == TransmitterOn(name) && exists i :: 0 <= i < j && Contains(name, AnalogTags[i])
        ensures forall i :: 0 <= i < j && Contains(name, AnalogTags[i]) ==> TransmitterOn(name) in TransmittersFor(name, j)
      {
        MarkerInduction(name, j);
      }
      forall i | 0 <= i < |inputs| - 1
        ensures inputs[i] == init[i]
      {
      }
    }
  }

  lemma {:induction false} MarkerInduction(name: string, k: nat)
    requires k <= |AnalogTags|
    ensures forall t :: t in TransmittersFor(name, k) ==>
      t == TransmitterOn(name) && exists i :: 0 <= i < k && Contains(name, AnalogTags[i])
    ensures forall i :: 0 <= i < k && Contains(name, AnalogTags[i]) ==> TransmitterOn(name) in TransmittersFor(name, k)
  {
    if k > 0 {
      MarkerInduction(name, k - 1);
    }
  }

  /** Every transmitter has a name: each marker holds an underscore. */
  lemma TransmittersNamed(inputs: seq<string>)
    ensures forall t :: t in Transmitters(inputs) ==> Analog.Name(t).Some?
  {
    TransmittersSound(inputs);
    forall t | t in Transmitters(inputs)
      ensures '_' in t.node.name
    {
      var j :| 0 <= j < |AnalogTags| && Contains(t.node.name, AnalogTags[j]);
      assert AnalogTags[j][0] == '_';
      ContainsChar(t.node.name, AnalogTags[j], '_');
    }
  }

  /** A valve built by discovery. */
  datatype Valve = Solenoid(ysv: Ysv.SolenoidValve) | Control(cv: Cv.ControlValve)

  /** `v.get_name()`. */
  function ValveName(v: Valve): Option<string>
  {
    match v
    case Solenoid(y) => Ysv.Name(y)
    case Control(c) => Cv.Name(c)
  }

  /** The exception `get_child` raises for a missing child. */
  datatype LookupError = BadNoMatch(folder: Folder, name: string)

  /** `folder.get_child(name)` on a folder whose children are named `children`. */
  function GetChild(children: seq<string>, folder: Folder, name: string): (r: Result<NodeRef, LookupError>)
    ensures r.Success? <==> name in children
    ensures r.Success? ==> r.value == NodeRef(folder, name)
    ensures r.Failure? ==> r.error == BadNoMatch(folder, name)
  {
    if name in children then Success(NodeRef(folder, name)) else Failure(BadNoMatch(folder, name))
  }

  function OpenedName(tag: string): string { "hwi_" + tag + "_opened" }
  function ClosedName(tag: string): string { "hwi_" + tag + "_closed" }
  function CommandName(tag: string): string { "hwo_" + tag }
  function FeedbackName(tag: string): string { "hwi_" + tag }

  /** The solenoid valve for output node `name` with tag `tag`: the node
      itself energizes it, `hwi_<tag>_opened` and `hwi_<tag>_closed` are its
      feedbacks; the first missing one aborts. */
  function SolenoidFor(inputs: seq<string>, outputs: seq<string>, name: string, tag: string): Result<Valve, LookupError>
  {
    var e := GetChild(outputs, Outputs, name);
    var o := GetChild(inputs, Inputs, OpenedName(tag));
    var c := GetChild(inputs, Inputs, ClosedName(tag));
    if e.Failure? then Failure(e.error)
    else if o.Failure? then Failure(o.error)
    else if c.Failure? then Failure(c.error)
    else Success(Solenoid(Ysv.SolenoidValve(e.value, o.value, c.value)))
  }

  /** The control valve with tag `tag`: command `hwo_<tag>` among the outputs,
      feedback `hwi_<tag>` among the inputs; the first missing one aborts. */
  function ControlFor(inputs: seq<string>, outputs: seq<string>, tag: string): Result<Valve, LookupError>
  {
    var o := GetChild(outputs, Outputs, CommandName(tag));
    var i := GetChild(inputs, Inputs, FeedbackName(tag));
    if o.Failure? then Failure(o.error)
    else if i.Failure? then Failure(i.error)
    else Success(Control(Cv.ControlValve(o.value, i.value)))
  }

  /** The lists `valves` and `valve_tags` as the output loop builds them. */
  datatype Scan = Scan(valves: seq<Valve>, tags: seq<string>)

  /** Record a valve and its tag. */
  function Record(st: Scan, r: Result<Valve, LookupError>, tag: string): Result<Scan, LookupError>
  {
    match r
    case Failure(e) => Failure(e)
    case Success(v) => Success(Scan(st.valves + [v], st.tags + [tag]))
  }

  /** One pass of the output loop, for output node `name`. */
  function ValveStep(inputs: seq<string>, outputs: seq<string>, st: Scan, name: string): Result<Scan, LookupError>
  {
    match SecondPiece(name, '_')
    case None => Success(st)
    case Some(tag) =>
      if tag in st.tags then Success(st)
      else if Contains(name, "YSV") then Record(st, SolenoidFor(inputs, outputs, name, tag), tag)
      else if Contains(name, "CV-") then Record(st, ControlFor(inputs, outputs, tag), tag)
      else Success(st)
  }

  /** The lists after the first `k` output nodes, or the error that ended
      discovery. */
  function ValveScan(inputs: seq<string>, outputs: seq<string>, k: nat): Result<Scan, LookupError>
    requires k <= |outputs|
  {
    if k == 0 then Success(Scan([], []))
    else
      match ValveScan(inputs, outputs, k - 1)
      case Failure(e) => Failure(e)
      case Success(st) => ValveStep(inputs, outputs, st, outputs[k - 1])
  }

  /** What discovery guarantees of a valve recorded under `tag`: a solenoid
      valve is energized by a "YSV" output node carrying that tag and reads
      back `hwi_<tag>_opened` and `hwi_<tag>_closed`; a control valve comes
      from a "CV-" output node without "YSV" carrying that tag and is wired
      to `hwo_<tag>` and `hwi_<tag>`; all of these nodes exist. */
  ghost predicate Companions(inputs: seq<string>, outputs: seq<string>, v: Valve, tag: string)
  {
    match v
    case Solenoid(y) =>
      && y.energizedNode.folder == Outputs && y.energizedNode.name in outputs
      && Contains(y.energizedNode.name, "YSV") && SecondPiece(y.energizedNode.name, '_') == Some(tag)
      && y.openedNode == NodeRef(Inputs, OpenedName(tag)) && OpenedName(tag) in inputs
      && y.closedNode == NodeRef(Inputs, ClosedName(tag)) && ClosedName(tag) in inputs
    case Control(c) =>
      && (exists n :: n in outputs && Contains(n, "CV-") && !Contains(n, "YSV") && SecondPiece(n, '_') == Some(tag))
      && c.cmd == NodeRef(Outputs, CommandName(tag)) && CommandName(tag) in outputs
      && c.fb == NodeRef(Inputs, FeedbackName(tag)) && FeedbackName(tag) in inputs
  }

  /** The output loop's lists agree: one tag per valve, no tag twice, every
      tag a `_`-free name piece, every valve wired to its tag's nodes. */
  ghost predicate ScanOk(inputs: seq<string>, outputs: seq<string>, st: Scan)
  {
    && |st.valves| == |st.tags|
    && (forall i, j :: 0 <= i < j < |st.tags| ==> st.tags[i] != st.tags[j])
    && (forall k :: 0 <= k < |st.tags| ==> '_' !in st.tags[k])
    && (forall k :: 0 <= k < |st.tags| ==> Companions(inputs, outputs, st.valves[k], st.tags[k]))
  }

  /** Each pass of the output loop keeps the lists in agreement. */
  lemma StepKeepsScanOk(inputs: seq<string>, outputs: seq<string>, st: Scan, name: string)
    requires ScanOk(inputs, outputs, st) && name in outputs
    requires ValveStep(inputs, outputs, st, name).Success?
    ensures ScanOk(inputs, outputs, ValveStep(inputs, outputs, st, name).value)
  {
    var r := ValveStep(inputs, outputs, st, name);
    var tag := SecondPiece(name, '_');
    if tag.Some? && tag.value !in st.tags && (Contains(name, "YSV") || Contains(name, "CV-")) {
      var st' := r.value;
      assert st'.tags == st.tags + [tag.value];
      forall k | 0 <= k < |st'.tags|
        ensures Companions(inputs, outputs, st'.valves[k], st'.tags[k])
      {
        if k < |st.tags| {
          assert st'.valves[k] == st.valves[k] && st'.tags[k] == st.tags[k];
        }
      }
    }
  }

  /** At every point of the output loop the lists agree (ScanOk). */
  lemma {:induction false} ScanIsOk(inputs: seq<string>, outputs: seq<string>, k: nat)
    requires k <= |outputs|
    requires ValveScan(inputs, outputs, k).Success?
    ensures ScanOk(inputs, outputs, ValveScan(inputs, outputs, k).value)
  {
    if k > 0 {
      ScanIsOk(inputs, outputs, k - 1);
      StepKeepsScanOk(inputs, outputs, ValveScan(inputs, outputs, k - 1).value, outputs[k - 1]);
    }
  }

  /** Discovery builds at most one valve per P&ID tag, each valve's
      `get_name()` is its tag, and every solenoid valve has three different
      nodes. */
  lemma DiscoveredValves(inputs: seq<string>, outputs: seq<string>)
    requires Discovered(inputs, outputs).Success?
    ensures var vs := Discovered(inputs, outputs).value.valves;
      forall i, j :: 0 <= i < j < |vs| ==> ValveName(vs[i]) != ValveName(vs[j])
    ensures var vs := Discovered(inputs, outputs).value.valves;
      forall k :: 0 <= k < |vs| ==> ValveName(vs[k]).Some? && (vs[k].Solenoid? ==> Ysv.Distinct(vs[k].ysv))
  {
    ScanIsOk(inputs, outputs, |outputs|);
    var st := ValveScan(inputs, outputs, |outputs|).value;
    forall k | 0 <= k < |st.valves|
      ensures ValveName(st.valves[k]) == Some(st.tags[k])
      ensures st.valves[k].Solenoid? ==> Ysv.Distinct(st.valves[k].ysv)
    {
      NamedByTag(inputs, outputs, st.valves[k], st.tags[k]);
    }
  }

  /** A valve wired to the nodes of `tag` is named `tag`, and a solenoid
      valve's three nodes are different nodes. */
  lemma NamedByTag(inputs: seq<string>, outputs: seq<string>, v: Valve, tag: string)
    requires Companions(inputs, outputs, v, tag) && '_' !in tag
    ensures ValveName(v) == Some(tag)
    ensures v.Solenoid? ==> Ysv.Distinct(v.ysv)
  {
    match v
    case Solenoid(y) =>
      var n := |"hwi_" + tag|;
      assert OpenedName(tag)[n + 1] == 'o' && ClosedName(tag)[n + 1] == 'c';
    case Control(c) =>
      SecondPieceOfJoin("hwi", tag, '_');
      assert FeedbackName(tag) == "hwi" + ['_'] + tag;
  }

  /** Every marked output node with a tag is covered: discovery has built a
      valve for its tag, from it or from an earlier node with the same tag. */
  lemma {:induction false} ScanCovers(inputs: seq<string>, outputs: seq<string>, k: nat)
    requires k <= |outputs|
    requires ValveScan(inputs, outputs, k).Success?
    ensures forall j ::
              0 <= j < k && SecondPiece(outputs[j], '_').Some?
              && (Contains(outputs[j], "YSV") || Contains(outputs[j], "CV-"))
              ==> SecondPiece(outputs[j], '_').value in ValveScan(inputs, outputs, k).value.tags
  {
    if k > 0 {
      ScanCovers(inputs, outputs, k - 1);
      var st := ValveScan(inputs, outputs, k - 1).value;
      assert forall t :: t in st.tags ==> t in ValveScan(inputs, outputs, k).value.tags;
    }
  }

  /** Output nodes that build nothing leave both lists alone, so a later node
      with the same tag can still build a valve: one without `_` (the only
      exception caught is this `IndexError`), one whose tag is already
      recorded, and one with neither marker. */
  lemma SkippedNodes(inputs: seq<string>, outputs: seq<string>, st: Scan, name: string)
    requires '_' !in name
      || SecondPiece(name, '_').value in st.tags
      || (!Contains(name, "YSV") && !Contains(name, "CV-"))
    ensures ValveStep(inputs, outputs, st, name) == Success(st)
  {
  }

  /** A node named with both "YSV" and "CV-" builds a solenoid valve: the
      solenoid test comes first. */
  lemma SolenoidTestFirst(inputs: seq<string>, outputs: seq<string>, st: Scan, name: string)
    requires SecondPiece(name, '_').Some? && SecondPiece(name, '_').value !in st.tags
    requires Contains(name, "YSV") && name in outputs
    requires OpenedName(SecondPiece(name, '_').value) in inputs && ClosedName(SecondPiece(name, '_').value) in inputs
    ensures ValveStep(inputs, outputs, st, name).Success?
    ensures var st' := ValveStep(inputs, outputs, st, name).value;
      |st'.valves| == |st.valves| + 1 && st'.valves[|st.valves|].Solenoid?
  {
  }

  /** A missing companion node is not caught: whichever lookup fails for a
      new valve (`_opened`, `_closed`, `hwo_<tag>` or `hwi_<tag>`), its error
      ends the whole discovery, whatever follows. */
  lemma MissingCompanionAborts(inputs: seq<string>, outputs: seq<string>, k: nat)
    requires k < |outputs| && ValveScan(inputs, outputs, k).Success?
    requires var tag := SecondPiece(outputs[k], '_');
      && tag.Some? && tag.value !in ValveScan(inputs, outputs, k).value.tags
      && ((Contains(outputs[k], "YSV") && SolenoidFor(inputs, outputs, outputs[k], tag.value).Failure?) ||
          (!Contains(outputs[k], "YSV") && Contains(outputs[k], "CV-") && ControlFor(inputs, outputs, tag.value).Failure?))
    ensures var tag := SecondPiece(outputs[k], '_').value;
      Discovered(inputs, outputs) == Failure(
        if Contains(outputs[k], "YSV") then SolenoidFor(inputs, outputs, outputs[k], tag).error
        else ControlFor(inputs, outputs, tag).error)
  {
    FailureIsFinal(inputs, outputs, k + 1, |outputs|);
  }

  /** Each of the four companion lookups can fail on its own: the missing
      node is named in the error. */
  lemma CompanionLookups(inputs: seq<string>, outputs: seq<string>, name: string, tag: string)
    requires name in outputs
    ensures SolenoidFor(inputs, outputs, name, tag).Failure?
      <==> OpenedName(tag) !in inputs || ClosedName(tag) !in inputs
    ensures OpenedName(tag) !in inputs ==>
      SolenoidFor(inputs, outputs, name, tag).error == BadNoMatch(Inputs, OpenedName(tag))
    ensures OpenedName(tag) in inputs && ClosedName(tag) !in inputs ==>
      SolenoidFor(inputs, outputs, name, tag).error == BadNoMatch(Inputs, ClosedName(tag))
    ensures ControlFor(inputs, outputs, tag).Failure?
      <==> CommandName(tag) !in outputs || FeedbackName(tag) !in inputs
    ensures CommandName(tag) !in outputs ==>
      ControlFor(inputs, outputs, tag).error == BadNoMatch(Outputs, CommandName(tag))
    ensures CommandName(tag) in outputs && FeedbackName(tag) !in inputs ==>
      ControlFor(inputs, outputs, tag).error == BadNoMatch(Inputs, FeedbackName(tag))
  {
  }

  /** A lookup failure ends discovery: no later output node can undo it. */
  lemma {:induction false} FailureIsFinal(inputs: seq<string>, outputs: seq<string>, j: nat, k: nat)
    requires j <= k <= |outputs|
    requires ValveScan(inputs, outputs, j).Failure?
    ensures ValveScan(inputs, outputs, k) == ValveScan(inputs, outputs, j)
    decreases k - j
  {
    if j < k {
      FailureIsFinal(inputs, outputs, j + 1, k);
    }
  }

  /** The devices discovery hands to the thread start-up. */
  datatype Simulation = Simulation(transmitters: seq<Analog.Transmitter>, valves: seq<Valve>)

  /** What discovery produces for a namespace: the transmitters and the
      valves, or the lookup error that aborted it. */
  function Discovered(inputs: seq<string>, outputs: seq<string>): Result<Simulation, LookupError>
  {
    match ValveScan(inputs, outputs, |outputs|)
    case Failure(e) => Failure(e)
    case Success(st) => Success(Simulation(Transmitters(inputs), st.valves))
  }

  /** The input loop of the discovery block: one transmitter per analog
      marker found in each input node's name. */
  method DiscoverTransmitters(inputs: seq<string>) returns (transmitters: seq<Analog.Transmitter>)
    ensures transmitters == Transmitters(inputs)
  {
    transmitters := [];
    for i := 0 to |inputs|
      invariant transmitters == Transmitters(inputs[..i])
    {
      var name := inputs[i];
      for j := 0 to |AnalogTags|
        invariant transmitters == Transmitters(inputs[..i]) + TransmittersFor(name, j)
      {
        if Contains(name, AnalogTags[j]) {
          transmitters := transmitters + [Analog.Transmitter(NodeRef(Inputs, name), AnalogLow, AnalogHigh)];
        }
      }
      assert inputs[..i + 1][..i] == inputs[..i];
    }
    assert inputs[..|inputs|] == inputs;
  }

  /** The output loop of the discovery block: the valves and their tags, or
      the lookup error that ends discovery. */
  method DiscoverValves(inputs: seq<string>, outputs: seq<string>) returns (r: Result<Scan, LookupError>)
    ensures r == ValveScan(inputs, outputs, |outputs|)
  {
    var valves: seq<Valve> := [];
    var valveTags: seq<string> := [];
    for i := 0 to |outputs|
      invariant ValveScan(inputs, outputs, i) == Success(Scan(valves, valveTags))
    {
      var name := outputs[i];
      var pidTag := SecondPiece(name, '_');
      if pidTag.Some? && pidTag.value !in valveTags {
        var tag := pidTag.value;
        if Contains(name, "YSV") {
          var e := GetChild(outputs, Outputs, name);
          // the node is itself one of the outputs, so this lookup succeeds
          assert e.Success?;
          var o := GetChild(inputs, Inputs, "hwi_" + tag + "_opened");
          if o.Failure? {
            FailureIsFinal(inputs, outputs, i + 1, |outputs|);
            return Failure(o.error);
          }
          var c := GetChild(inputs, Inputs, "hwi_" + tag + "_closed");
          if c.Failure? {
            FailureIsFinal(inputs, outputs, i + 1, |outputs|);
            return Failure(c.error);
          }
          valves := valves + [Solenoid(Ysv.SolenoidValve(e.value, o.value, c.value))];
          valveTags := valveTags + [tag];
        } else if Contains(name, "CV-") {
          var o := GetChild(outputs, Outputs, "hwo_" + tag);
          if o.Failure? {
            FailureIsFinal(inputs, outputs, i + 1, |outputs|);
            return Failure(o.error);
          }
          var n := GetChild(inputs, Inputs, "hwi_" + tag);
          if n.Failure? {
            FailureIsFinal(inputs, outputs, i + 1, |outputs|);
            return Failure(n.error);
          }
          valves := valves + [Control(Cv.ControlValve(o.value, n.value))];
          valveTags := valveTags + [tag];
        }
      }
    }
    r := Success(Scan(valves, valveTags));
  }

  /** The discovery block of the simulator's entry point. */
  method Discover(inputs: seq<string>, outputs: seq<string>) returns (r: Result<Simulation, LookupError>)
    ensures r == Discovered(inputs, outputs)
  {
    var transmitters := DiscoverTransmitters(inputs);
    var scan := DiscoverValves(inputs, outputs);
    if scan.Failure? {
      return Failure(scan.error);
    }
    r := Success(Simulation(transmitters, scan.value.valves));
  }

  /** A name without a 'T' holds no analog marker: each has a 'T' at index 2. */
  lemma {:induction false} NoMarkerWithoutT(name: string, k: nat)
    requires k <= |AnalogTags| && 'T' !in name
    ensures TransmittersFor(name, k) == []
  {
    if k > 0 {
      NoMarkerWithoutT(name, k - 1);
      var tag := AnalogTags[k - 1];
      assert |tag| >= 3 && tag[2] == 'T';
      if Contains(name, tag) {
        ContainsChar(name, tag, 'T');
      }
    }
  }

  /** Input names without a 'T' give no transmitter. */
  lemma {:induction false} NoTransmitters(inputs: seq<string>)
    requires forall i :: 0 <= i < |inputs| ==> 'T' !in inputs[i]
    ensures Transmitters(inputs) == []
  {
    if inputs != [] {
      NoTransmitters(inputs[..|inputs| - 1]);
      NoMarkerWithoutT(inputs[|inputs| - 1], |AnalogTags|);
    }
  }

  /** A first output node carrying a solenoid marker whose companions exist
      is recorded as that valve. */
  lemma FirstSolenoid(inputs: seq<string>, outputs: seq<string>, tag: string, v: Valve)
    requires |outputs| >= 1 && SecondPiece(outputs[0], '_') == Some(tag)
    requires Contains(outputs[0], "YSV")
    requires SolenoidFor(inputs, outputs, outputs[0], tag) == Success(v)
    ensures ValveScan(inputs, outputs, 1) == Success(Scan([v], [tag]))
  {
    var st := Scan([], []);
    assert ValveScan(inputs, outputs, 0) == Success(st);
    assert tag !in st.tags;
    assert st.valves + [v] == [v] && st.tags + [tag] == [tag];
    assert ValveStep(inputs, outputs, st, outputs[0]) == Success(Scan([v], [tag]));
  }

  /** A namespace holding one solenoid valve: its output node `name`, tagged
      `tag`, and its two feedback inputs. A tag with a 'T' in it could make
      a feedback name hold an analog marker such as "_TT-". */
  lemma {:induction false} SingleSolenoid(name: string, tag: string)
    requires SecondPiece(name, '_') == Some(tag) && Contains(name, "YSV") && 'T' !in tag
    ensures Discovered([OpenedName(tag), ClosedName(tag)], [name])
      == Success(Simulation([], [Solenoid(Ysv.SolenoidValve(
           NodeRef(Outputs, name), NodeRef(Inputs, OpenedName(tag)), NodeRef(Inputs, ClosedName(tag))))]))
  {
    var inputs := [OpenedName(tag), ClosedName(tag)];
    var v := Solenoid(Ysv.SolenoidValve(
      NodeRef(Outputs, name), NodeRef(Inputs, OpenedName(tag)), NodeRef(Inputs, ClosedName(tag))));
    assert 'T' !in "hwi_" && 'T' !in "_opened" && 'T' !in "_closed";
    assert 'T' !in inputs[0] && 'T' !in inputs[1];
    NoTransmitters(inputs);
    assert SolenoidFor(inputs, [name], name, tag) == Success(v);
    FirstSolenoid(inputs, [name], tag, v);
  }
}
