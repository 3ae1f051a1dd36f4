/** The IOC browser of the GUI. `IOCTree.setup` reads a list of PV names and
    builds a tree of three levels: a top-level item per first segment, device
    items, and field leaves. `IOC.getPV` walks from a leaf up to its
    top-level item and joins the texts with ':' into a PV name again. */
module Ioc {
  import opened Results
  import opened Text
  import opened Widgets

  /** Where a device item sits: child `child` of top-level item `top`. */
  datatype Pos = Pos(top: nat, child: nat)

  /** The state of the parse loop: the top-level items of the widget, the
      `topLevelItems` list of their texts, and the `devices` dictionary
      from a device name to the item created for it. */
  datatype Builder = Builder(forest: seq<Item>, tops: seq<string>, devices: map<string, Pos>)

  /** The outcome of one line: the new state, and false when the line raised. */
  datatype Step = Step(builder: Builder, ok: bool)

  /** The widget after `setup`: its top-level items, and whether `sortItems`
      ran (it is skipped when a line raised). */
  datatype View = View(items: seq<Item>, sorted: bool)

  /** `str(e)` of the `IndexError` a line without ':' raises. */
  const ErrorText: string := "list index out of range"

  /** The state before the first line. */
  const Empty: Builder := Builder([], [], map[])

  ghost predicate Distinct(tops: seq<string>)
  {
    forall i, j :: 0 <= i < j < |tops| ==> tops[i] != tops[j]
  }

  /** The item recorded for device `d` at `p` exists and shows `d`. */
  predicate DeviceAt(forest: seq<Item>, p: Pos, d: string)
  {
    p.top < |forest| && p.child < |forest[p.top].children| && forest[p.top].children[p.child].text == d
  }

  /** `topLevelItems` lists the texts of the top-level items, in order and
      without repetition, and every device entry points at its item. */
  ghost predicate Valid(b: Builder)
  {
    && |b.forest| == |b.tops|
    && (forall i :: 0 <= i < |b.tops| ==> b.forest[i].text == b.tops[i])
    && Distinct(b.tops)
    && (forall d :: d in b.devices ==> DeviceAt(b.forest, b.devices[d], d))
  }

  /** `b` is `a` with possibly more children appended, at any depth. */
  ghost predicate Extends(a: Item, b: Item)
    decreases a
  {
    && a.text == b.text
    && |a.children| <= |b.children|
    && forall i :: 0 <= i < |a.children| ==> Extends(a.children[i], b.children[i])
  }

  /** Every item of `f0` is still in `f1`, at the same place. */
  ghost predicate Grows(f0: seq<Item>, f1: seq<Item>)
  {
    |f0| <= |f1| && forall i :: 0 <= i < |f0| ==> Extends(f0[i], f1[i])
  }

  lemma {:induction false} ExtendsRefl(a: Item)
    ensures Extends(a, a)
    decreases a
  {
    forall i | 0 <= i < |a.children|
      ensures Extends(a.children[i], a.children[i])
    {
      ExtendsRefl(a.children[i]);
    }
  }

  lemma {:induction false} ExtendsTrans(a: Item, b: Item, c: Item)
    requires Extends(a, b) && Extends(b, c)
    ensures Extends(a, c)
    decreases a
  {
    forall i | 0 <= i < |a.children|
      ensures Extends(a.children[i], c.children[i])
    {
      ExtendsTrans(a.children[i], b.children[i], c.children[i]);
    }
  }

  lemma GrowsTrans(f0: seq<Item>, f1: seq<Item>, f2: seq<Item>)
    requires Grows(f0, f1) && Grows(f1, f2)
    ensures Grows(f0, f2)
  {
    forall i | 0 <= i < |f0|
      ensures Extends(f0[i], f2[i])
    {
      ExtendsTrans(f0[i], f1[i], f2[i]);
    }
  }

  /** The line without its line end: `line[:-1]` when it ends in "\n" or
      "\r", so at most one character goes. */
  function StripEol(line: string): (r: string)
    ensures |line| - 1 <= |r| <= |line| && r == line[..|r|]
    ensures |r| < |line| <==> |line| > 0 && line[|line| - 1] in "\n\r"
  {
    if |line| > 0 && (line[|line| - 1] == '\n' || line[|line| - 1] == '\r') then line[..|line| - 1] else line
  }

  /** `s[-3:] == "-as"`, the autosave test; the slice is all of `s` when `s`
      is shorter than three characters. */
  predicate IsAutosave(s: string)
  {
    (if |s| >= 3 then s[|s| - 3..] else s) == "-as"
  }

  /** `topLevelItems.index(name)`: the first position of `name`. */
  function IndexOf(tops: seq<string>, name: string): (i: nat)
    requires name in tops
    ensures i < |tops| && tops[i] == name && name !in tops[..i]
  {
    if tops[0] == name then 0 else 1 + IndexOf(tops[1..], name)
  }

  /** `addChild` on top-level item `t`. */
  function AppendChild(forest: seq<Item>, t: nat, item: Item): (r: seq<Item>)
    requires t < |forest|
    ensures |r| == |forest| && r[t].text == forest[t].text
    ensures r[t].children == forest[t].children + [item]
    ensures forall i :: 0 <= i < |r| && i != t ==> r[i] == forest[i]
  {
    forest[t := Item(forest[t].text, forest[t].children + [item])]
  }

  /** `addChild` on the device item at `p`. */
  function AppendGrandchild(forest: seq<Item>, p: Pos, leaf: Item): (r: seq<Item>)
    requires p.top < |forest| && p.child < |forest[p.top].children|
    ensures |r| == |forest| && r[p.top].text == forest[p.top].text
    ensures |r[p.top].children| == |forest[p.top].children|
    ensures r[p.top].children[p.child].text == forest[p.top].children[p.child].text
    ensures r[p.top].children[p.child].children == forest[p.top].children[p.child].children + [leaf]
    ensures forall j :: 0 <= j < |r[p.top].children| && j != p.child ==>
      r[p.top].children[j] == forest[p.top].children[j]
    ensures forall i :: 0 <= i < |r| && i != p.top ==> r[i] == forest[i]
  {
    var top := forest[p.top];
    var dev := top.children[p.child];
    forest[p.top := Item(top.text, top.children[p.child := Item(dev.text, dev.children + [leaf])])]
  }

  lemma GrowsByChild(forest: seq<Item>, t: nat, item: Item)
    requires t < |forest|
    ensures Grows(forest, AppendChild(forest, t, item))
  {
    var r := AppendChild(forest, t, item);
    forall i | 0 <= i < |forest|
      ensures Extends(forest[i], r[i])
    {
      ExtendsRefl(forest[i]);
      if i == t {
        forall j | 0 <= j < |forest[t].children|
          ensures Extends(forest[t].children[j], r[t].children[j])
        {
          ExtendsRefl(forest[t].children[j]);
        }
      }
    }
  }

  lemma GrowsByGrandchild(forest: seq<Item>, p: Pos, leaf: Item)
    requires p.top < |forest| && p.child < |forest[p.top].children|
    ensures Grows(forest, AppendGrandchild(forest, p, leaf))
  {
    var r := AppendGrandchild(forest, p, leaf);
    forall i | 0 <= i < |forest|
      ensures Extends(forest[i], r[i])
    {
      ExtendsRefl(forest[i]);
      if i == p.top {
        forall j | 0 <= j < |forest[i].children|
          ensures Extends(forest[i].children[j], r[i].children[j])
        {
          var c := forest[i].children[j];
          ExtendsRefl(c);
          if j == p.child {
            forall k | 0 <= k < |c.children|
              ensures Extends(c.children[k], r[i].children[j].children[k])
            {
              ExtendsRefl(c.children[k]);
            }
          }
        }
      }
    }
  }

  /** Add a top-level item for `name` unless one is already there. */
  function AddTop(b: Builder, name: string): (r: Builder)
    requires Valid(b)
    ensures Valid(r) && name in r.tops && r.devices == b.devices
    ensures r.tops == if name in b.tops then b.tops else b.tops + [name]
  {
    if name in b.tops then b else Builder(b.forest + [Item(name, [])], b.tops + [name], b.devices)
  }

  /** The autosave case: the field becomes a leaf of top-level item `t`. */
  function AddAutosave(b: Builder, t: nat, field: string): (r: Builder)
    requires Valid(b) && t < |b.forest|
    ensures Valid(r) && r.tops == b.tops && r.devices == b.devices
    ensures r.forest == AppendChild(b.forest, t, Item(field, []))
    ensures r.forest[t].children == b.forest[t].children + [Item(field, [])]
  {
    var r := b.(forest := AppendChild(b.forest, t, Item(field, [])));
    assert forall d :: d in r.devices ==> DeviceAt(r.forest, r.devices[d], d) by {
      forall d | d in r.devices
        ensures DeviceAt(r.forest, r.devices[d], d)
      {
        assert DeviceAt(b.forest, b.devices[d], d);
      }
    }
    r
  }

  /** `devices[dev]` is created under top-level item `t` unless the
      dictionary already has it, wherever that is. */
  function EnsureDevice(b: Builder, t: nat, dev: string): (r: Builder)
    requires Valid(b) && t < |b.forest|
    ensures Valid(r) && r.tops == b.tops && dev in r.devices
    ensures forall d :: d in b.devices ==> d in r.devices && r.devices[d] == b.devices[d]
    ensures dev !in b.devices ==> r.devices[dev] == Pos(t, |b.forest[t].children|)
  {
    if dev in b.devices then b
    else
      var r := Builder(AppendChild(b.forest, t, Item(dev, [])), b.tops,
                       b.devices[dev := Pos(t, |b.forest[t].children|)]);
      assert forall d :: d in r.devices ==> DeviceAt(r.forest, r.devices[d], d) by {
        forall d | d in r.devices
          ensures DeviceAt(r.forest, r.devices[d], d)
        {
          if d != dev {
            assert DeviceAt(b.forest, b.devices[d], d);
          }
        }
      }
      r
  }

  /** The field becomes a leaf of the item of device `dev`. */
  function AddField(b: Builder, dev: string, field: string): (r: Builder)
    requires Valid(b) && dev in b.devices
    ensures Valid(r) && r.tops == b.tops && r.devices == b.devices
    ensures r.forest == AppendGrandchild(b.forest, b.devices[dev], Item(field, []))
    ensures var p := b.devices[dev];
      r.forest[p.top].children[p.child].children == b.forest[p.top].children[p.child].children + [Item(field, [])]
  {
    var p := b.devices[dev];
    assert DeviceAt(b.forest, p, dev);
    var r := b.(forest := AppendGrandchild(b.forest, p, Item(field, [])));
    assert forall d :: d in r.devices ==> DeviceAt(r.forest, r.devices[d], d) by {
      forall d | d in r.devices
        ensures DeviceAt(r.forest, r.devices[d], d)
      {
        assert DeviceAt(b.forest, b.devices[d], d);
      }
    }
    r
  }

  /** One pass of the loop of `setup` on the raw line `raw`. The top-level
      item for the first segment is added before anything can raise; a
      missing second segment raises. */
  function ParseLine(b: Builder, raw: string): (s: Step)
    requires Valid(b)
    ensures Valid(s.builder)
    ensures Split(StripEol(raw), ':')[0] in s.builder.tops
    ensures forall d :: d in b.devices ==> d in s.builder.devices && s.builder.devices[d] == b.devices[d]
  {
    var parts := Split(StripEol(raw), ':');
    var b1 := AddTop(b, parts[0]);
    var t := IndexOf(b1.tops, parts[0]);
    if IsAutosave(parts[0]) then
      if |parts| < 2 then Step(b1, false)
      else Step(AddAutosave(b1, t, parts[1]), true)
    else if |parts| < 2 then Step(b1, false)
    else
      var dev := if |parts| > 2 then parts[1] else parts[0];
      var field := if |parts| > 2 then parts[2] else parts[1];
      Step(AddField(EnsureDevice(b1, t, dev), dev, field), true)
  }

  /** A line raises exactly when, once its line end is stripped, it holds no ':'. */
  lemma LineOkIff(b: Builder, raw: string)
    requires Valid(b)
    ensures ParseLine(b, raw).ok <==> ':' in StripEol(raw)
  {
    SplitHasSecond(StripEol(raw), ':');
  }

  /** A line only appends: every item there before is still there. */
  lemma LineGrows(b: Builder, raw: string)
    requires Valid(b)
    ensures Grows(b.forest, ParseLine(b, raw).builder.forest)
  {
    var parts := Split(StripEol(raw), ':');
    var b1 := AddTop(b, parts[0]);
    var t := IndexOf(b1.tops, parts[0]);
    TopGrows(b, parts[0]);
    if IsAutosave(parts[0]) {
      if |parts| >= 2 {
        assert ParseLine(b, raw).builder == AddAutosave(b1, t, parts[1]);
        GrowsByChild(b1.forest, t, Item(parts[1], []));
        GrowsTrans(b.forest, b1.forest, AddAutosave(b1, t, parts[1]).forest);
      }
    } else if |parts| >= 2 {
      var dev := if |parts| > 2 then parts[1] else parts[0];
      var field := if |parts| > 2 then parts[2] else parts[1];
      var f := AddField(EnsureDevice(b1, t, dev), dev, field).forest;
      assert ParseLine(b, raw).builder.forest == f;
      DeviceLineGrows(b1, t, dev, field);
      GrowsTrans(b.forest, b1.forest, f);
    }
  }

  /** Adding a top-level item keeps every item there before. */
  lemma TopGrows(b: Builder, name: string)
    requires Valid(b)
    ensures Grows(b.forest, AddTop(b, name).forest)
  {
    var f := AddTop(b, name).forest;
    forall i | 0 <= i < |b.forest|
      ensures Extends(b.forest[i], f[i])
    {
      assert f[i] == b.forest[i];
      ExtendsRefl(b.forest[i]);
    }
  }

  /** The device case of a line keeps every item there before. */
  lemma DeviceLineGrows(b1: Builder, t: nat, dev: string, field: string)
    requires Valid(b1) && t < |b1.forest|
    ensures Grows(b1.forest, AddField(EnsureDevice(b1, t, dev), dev, field).forest)
  {
    var b2 := EnsureDevice(b1, t, dev);
    if dev !in b1.devices {
      GrowsByChild(b1.forest, t, Item(dev, []));
    } else {
      forall i | 0 <= i < |b1.forest|
        ensures Extends(b1.forest[i], b2.forest[i])
      {
        ExtendsRefl(b1.forest[i]);
      }
    }
    assert DeviceAt(b2.forest, b2.devices[dev], dev);
    GrowsByGrandchild(b2.forest, b2.devices[dev], Item(field, []));
    GrowsTrans(b1.forest, b2.forest, AddField(b2, dev, field).forest);
  }

  /** The loop of `setup` from state `b` over `lines`: on the first line that
      raises, the error item is added after everything built so far and
      sorting is skipped. */
  function ParseFrom(b: Builder, lines: seq<string>): View
    requires Valid(b)
    decreases |lines|
  {
    if lines == [] then View(b.forest, true)
    else
      var s := ParseLine(b, lines[0]);
      if s.ok then ParseFrom(s.builder, lines[1..])
      else View(s.builder.forest + [Item(ErrorText, [])], false)
  }

  /** When a line raises, the error item comes after everything built so far. */
  lemma {:induction false} ErrorItemLast(b: Builder, lines: seq<string>)
    requires Valid(b)
    ensures var v := ParseFrom(b, lines);
      !v.sorted ==> |v.items| > 0 && v.items[|v.items| - 1] == Item(ErrorText, [])
    decreases |lines|
  {
    if lines != [] {
      var s := ParseLine(b, lines[0]);
      if s.ok {
        assert ParseFrom(b, lines) == ParseFrom(s.builder, lines[1..]);
        ErrorItemLast(s.builder, lines[1..]);
      } else {
        var f := s.builder.forest + [Item(ErrorText, [])];
        assert ParseFrom(b, lines) == View(f, false);
        assert f[|f| - 1] == Item(ErrorText, []);
      }
    }
  }

  /** `IOCTree.setup` on the lines of a PV list. */
  function Parse(lines: seq<string>): View
  {
    ParseFrom(Empty, lines)
  }

  /** Every line holds a ':' once its line end is stripped. */
  ghost predicate AllHaveColon(lines: seq<string>)
  {
    forall i :: 0 <= i < |lines| ==> ':' in StripEol(lines[i])
  }

  lemma AllHaveColonCons(lines: seq<string>)
    requires lines != []
    ensures AllHaveColon(lines) <==> ':' in StripEol(lines[0]) && AllHaveColon(lines[1..])
  {
    assert forall i :: 1 <= i < |lines| ==> lines[i] == lines[1..][i - 1];
  }

  /** The tree is sorted, that is no line raised, exactly when every line
      holds a ':' once its line end is stripped. */
  lemma {:induction false} SortedIff(b: Builder, lines: seq<string>)
    requires Valid(b)
    ensures ParseFrom(b, lines).sorted <==> AllHaveColon(lines)
    decreases |lines|
  {
    if lines != [] {
      var s := ParseLine(b, lines[0]);
      LineOkIff(b, lines[0]);
      AllHaveColonCons(lines);
      if s.ok {
        assert ParseFrom(b, lines) == ParseFrom(s.builder, lines[1..]);
        SortedIff(s.builder, lines[1..]);
      } else {
        assert ParseFrom(b, lines) == View(s.builder.forest + [Item(ErrorText, [])], false);
      }
    }
  }

  /** Items built from earlier lines remain, also when a later line raises. */
  lemma {:induction false} EarlierItemsRemain(b: Builder, lines: seq<string>)
    requires Valid(b)
    ensures Grows(b.forest, ParseFrom(b, lines).items)
    decreases |lines|
  {
    if lines == [] {
      forall i | 0 <= i < |b.forest|
        ensures Extends(b.forest[i], b.forest[i])
      {
        ExtendsRefl(b.forest[i]);
      }
    } else {
      var s := ParseLine(b, lines[0]);
      LineGrows(b, lines[0]);
      if s.ok {
        EarlierItemsRemain(s.builder, lines[1..]);
        GrowsTrans(b.forest, s.builder.forest, ParseFrom(s.builder, lines[1..]).items);
      } else {
        var f := s.builder.forest + [Item(ErrorText, [])];
        forall i | 0 <= i < |b.forest|
          ensures Extends(b.forest[i], f[i])
        {
          assert f[i] == s.builder.forest[i];
        }
      }
    }
  }

  /** The first `n` items have pairwise different texts. */
  ghost predicate UniqueTexts(items: seq<Item>, n: int)
    requires n <= |items|
  {
    forall i, j :: 0 <= i < j < n ==> items[i].text != items[j].text
  }

  /** Top-level items are unique by text: a repeated first segment reuses
      the existing item. Only the error item may repeat a text. */
  lemma {:induction false} TopsUnique(b: Builder, lines: seq<string>)
    requires Valid(b)
    ensures var v := ParseFrom(b, lines);
      UniqueTexts(v.items, if v.sorted then |v.items| else |v.items| - 1)
    decreases |lines|
  {
    if lines == [] {
      assert ParseFrom(b, lines) == View(b.forest, true);
    } else {
      var s := ParseLine(b, lines[0]);
      if s.ok {
        assert ParseFrom(b, lines) == ParseFrom(s.builder, lines[1..]);
        TopsUnique(s.builder, lines[1..]);
      } else {
        var v := View(s.builder.forest + [Item(ErrorText, [])], false);
        assert ParseFrom(b, lines) == v;
        forall i, j | 0 <= i < j < |v.items| - 1
          ensures v.items[i].text != v.items[j].text
        {
          assert v.items[i] == s.builder.forest[i] && v.items[j] == s.builder.forest[j];
        }
      }
    }
  }

  /** The first half of the body of the loop of `setup`: strip the line
      end, split on ':', add the top-level item unless it is there, and
      look it up. */
  method ReadTop(forest0: seq<Item>, tops0: seq<string>, devices: map<string, Pos>, raw: string)
    returns (forest: seq<Item>, tops: seq<string>, parts: seq<string>, t: nat)
    requires Valid(Builder(forest0, tops0, devices))
    ensures parts == Split(StripEol(raw), ':')
    ensures Builder(forest, tops, devices) == AddTop(Builder(forest0, tops0, devices), parts[0])
    ensures t == IndexOf(tops, parts[0]) && t < |forest|
  {
    forest, tops := forest0, tops0;
    var line := raw;
    if |line| > 0 && (line[|line| - 1] == '\n' || line[|line| - 1] == '\r') {
      line := line[..|line| - 1];
    }
    parts := Split(line, ':');
    if parts[0] !in tops {
      forest := forest + [Item(parts[0], [])];
      tops := tops + [parts[0]];
    }
    t := IndexOf(tops, parts[0]);
  }

  /** The body of the loop of `setup`: after the top-level item, the
      autosave leaf, or the device and its field. `ok` is false where the
      line raises, with the state as it was at that point. */
  method ReadLine(forest0: seq<Item>, tops0: seq<string>, devices0: map<string, Pos>, raw: string)
    returns (forest: seq<Item>, tops: seq<string>, devices: map<string, Pos>, ok: bool)
    requires Valid(Builder(forest0, tops0, devices0))
    ensures Step(Builder(forest, tops, devices), ok) == ParseLine(Builder(forest0, tops0, devices0), raw)
  {
    var parts, t;
    devices := devices0;
    forest, tops, parts, t := ReadTop(forest0, tops0, devices, raw);
    ghost var b1 := Builder(forest, tops, devices);
    if IsAutosave(parts[0]) {
      if |parts| < 2 {
        return forest, tops, devices, false;
      }
      forest := AppendChild(forest, t, Item(parts[1], []));
      return forest, tops, devices, true;
    }
    if |parts| < 2 {
      return forest, tops, devices, false;
    }
    var dev, field;
    if |parts| > 2 {
      dev, field := parts[1], parts[2];
    } else {
      dev, field := parts[0], parts[1];
    }
    if dev !in devices {
      devices := devices[dev := Pos(t, |forest[t].children|)];
      forest := AppendChild(forest, t, Item(dev, []));
    }
    ghost var b2 := EnsureDevice(b1, t, dev);
    assert Builder(forest, tops, devices) == b2;
    assert DeviceAt(forest, devices[dev], dev);
    forest := AppendGrandchild(forest, devices[dev], Item(field, []));
    ok := true;
  }

  /** The loop of `setup` over the lines: a line that raises ends it with
      the error item and no sorting. */
  method Setup(lines: seq<string>) returns (view: View)
    ensures view == Parse(lines)
  {
    var forest: seq<Item> := [];
    var tops: seq<string> := [];
    var devices: map<string, Pos> := map[];
    var i := 0;
    while i < |lines|
      invariant 0 <= i <= |lines|
      invariant Valid(Builder(forest, tops, devices))
      invariant ParseFrom(Builder(forest, tops, devices), lines[i..]) == Parse(lines)
    {
      assert lines[i..][1..] == lines[i + 1..];
      var ok;
      forest, tops, devices, ok := ReadLine(forest, tops, devices, lines[i]);
      if !ok {
        return View(forest + [Item(ErrorText, [])], false);
      }
      i := i + 1;
    }
    view := View(forest, true);
  }

  /** `path` leads down from `item` through child indices. */
  predicate PathIn(item: Item, path: seq<nat>)
    decreases |path|
  {
    path == [] || (path[0] < |item.children| && PathIn(item.children[path[0]], path[1..]))
  }

  /** The item `path` leads to from `item`. */
  function NodeIn(item: Item, path: seq<nat>): Item
    requires PathIn(item, path)
    decreases |path|
  {
    if path == [] then item else NodeIn(item.children[path[0]], path[1..])
  }

  /** The texts of the items along `path`, `item` first. */
  function TextsIn(item: Item, path: seq<nat>): (r: seq<string>)
    requires PathIn(item, path)
    ensures |r| == |path| + 1 && r[0] == item.text
    decreases |path|
  {
    [item.text] + if path == [] then [] else TextsIn(item.children[path[0]], path[1..])
  }

  /** A tree item, named by the child indices from its top-level item. */
  predicate IsPath(forest: seq<Item>, path: seq<nat>)
  {
    |path| > 0 && path[0] < |forest| && PathIn(forest[path[0]], path[1..])
  }

  function NodeAt(forest: seq<Item>, path: seq<nat>): Item
    requires IsPath(forest, path)
  {
    NodeIn(forest[path[0]], path[1..])
  }

  /** The texts from the top-level item down to the item at `path`. */
  function TextsAlong(forest: seq<Item>, path: seq<nat>): seq<string>
    requires IsPath(forest, path)
  {
    TextsIn(forest[path[0]], path[1..])
  }

  /** The PV name `getPV` gives for `item` (None is no current item): none
      for a missing item or one with children, otherwise the texts from the
      top-level item down to it joined with ':'. */
  function PvAt(forest: seq<Item>, item: Option<seq<nat>>): Option<string>
    requires item.Some? ==> IsPath(forest, item.value)
  {
    if item.None? || NodeAt(forest, item.value).children != [] then None
    else Some(Join(TextsAlong(forest, item.value), ':'))
  }

  /** The first `d` steps of a path lead to the item whose text is the
      `d`-th along it. */
  lemma {:induction false} PrefixIn(item: Item, path: seq<nat>, d: nat)
    requires PathIn(item, path) && d <= |path|
    ensures PathIn(item, path[..d]) && NodeIn(item, path[..d]).text == TextsIn(item, path)[d]
    decreases d
  {
    if d > 0 {
      assert path[..d][1..] == path[1..][..d - 1];
      PrefixIn(item.children[path[0]], path[1..], d - 1);
    }
  }

  /** `getPV`: `family` collects the texts from the item up through its
      parents, each put in front, then is joined with ':'. */
  method GetPV(forest: seq<Item>, item: Option<seq<nat>>) returns (pv: Option<string>)
    requires item.Some? ==> IsPath(forest, item.value)
    ensures pv == PvAt(forest, item)
  {
    if item.None? || NodeAt(forest, item.value).children != [] {
      return None;
    }
    var path := item.value;
    var family: seq<string> := [];
    var d := |path|;
    ghost var texts := TextsAlong(forest, path);
    while d > 0
      invariant 0 <= d <= |path|
      invariant family == texts[d..]
    {
      PrefixIn(forest[path[0]], path[1..], d - 1);
      assert path[..d][0] == path[0] && path[..d][1..] == path[1..][..d - 1];
      assert NodeAt(forest, path[..d]).text == texts[d - 1];
      assert texts[d - 1..] == [texts[d - 1]] + texts[d..];
      family := [NodeAt(forest, path[..d]).text] + family;
      d := d - 1;
    }
    return Some(Join(family, ':'));
  }

  /** The newest child of top-level item `t`. */
  function NewestChild(forest: seq<Item>, t: nat): (r: Option<seq<nat>>)
    ensures r.Some? ==> IsPath(forest, r.value)
  {
    if t < |forest| && |forest[t].children| > 0 then Some([t, |forest[t].children| - 1]) else None
  }

  /** The newest field of the device at `p`. */
  function NewestField(forest: seq<Item>, p: Pos): (r: Option<seq<nat>>)
    ensures r.Some? ==> IsPath(forest, r.value)
  {
    if p.top < |forest| && p.child < |forest[p.top].children|
      && |forest[p.top].children[p.child].children| > 0
    then
      var path := [p.top, p.child, |forest[p.top].children[p.child].children| - 1];
      assert path[1..][1..][1..] == [];
      Some(path)
    else None
  }

  /** A field added to device `dev` is a leaf whose PV name is the text of
      the device's top-level item, the device and the field. */
  lemma FieldLeaf(b: Builder, dev: string, field: string)
    requires Valid(b) && dev in b.devices
    ensures var r := AddField(b, dev, field);
      PvAt(r.forest, NewestField(r.forest, b.devices[dev]))
        == Some(Join([b.tops[b.devices[dev].top], dev, field], ':'))
  {
    var p := b.devices[dev];
    assert DeviceAt(b.forest, p, dev);
    var r := AddField(b, dev, field);
    var path := [p.top, p.child, |r.forest[p.top].children[p.child].children| - 1];
    assert NewestField(r.forest, p) == Some(path);
    assert r.forest == AppendGrandchild(b.forest, p, Item(field, []));
    var leaves := r.forest[p.top].children[p.child].children;
    assert leaves[|leaves| - 1] == Item(field, []);
    assert path[1..] == [p.child, |leaves| - 1] && path[1..][1..] == [|leaves| - 1];
    assert path[1..][1..][1..] == [];
    assert NodeIn(r.forest[p.top].children[p.child], path[1..][1..]) == Item(field, []);
    assert NodeAt(r.forest, path) == Item(field, []);
    assert TextsIn(r.forest[p.top].children[p.child], path[1..][1..]) == [dev, field];
    assert TextsAlong(r.forest, path) == [b.tops[p.top], dev, field];
  }

  /** A line `root:dev:field` whose device is new and whose root is not an
      autosave name comes back whole from `getPV` on the leaf it adds. */
  lemma DeviceLineRoundTrip(b: Builder, raw: string, root: string, dev: string, field: string)
    requires Valid(b)
    requires StripEol(raw) == Join([root, dev, field], ':')
    requires ':' !in root && ':' !in dev && ':' !in field
    requires !IsAutosave(root) && dev !in b.devices
    ensures ParseLine(b, raw).ok && dev in ParseLine(b, raw).builder.devices
    ensures var f := ParseLine(b, raw).builder;
      PvAt(f.forest, NewestField(f.forest, f.devices[dev])) == Some(StripEol(raw))
  {
    SplitJoin([root, dev, field], ':');
    var b1 := AddTop(b, root);
    var t := IndexOf(b1.tops, root);
    var b2 := EnsureDevice(b1, t, dev);
    assert ParseLine(b, raw).builder == AddField(b2, dev, field);
    FieldLeaf(b2, dev, field);
  }

  /** A two-segment line `dev:field` uses its first segment both as the
      top-level item and as the device, so a new device gives back
      `dev:dev:field` rather than the line. */
  lemma TwoSegmentLineDoubles(b: Builder, raw: string, dev: string, field: string)
    requires Valid(b)
    requires StripEol(raw) == Join([dev, field], ':')
    requires ':' !in dev && ':' !in field
    requires !IsAutosave(dev) && dev !in b.devices
    ensures ParseLine(b, raw).ok && dev in ParseLine(b, raw).builder.devices
    ensures var f := ParseLine(b, raw).builder;
      PvAt(f.forest, NewestField(f.forest, f.devices[dev])) == Some(Join([dev, dev, field], ':'))
  {
    SplitJoin([dev, field], ':');
    var b1 := AddTop(b, dev);
    var t := IndexOf(b1.tops, dev);
    var b2 := EnsureDevice(b1, t, dev);
    assert ParseLine(b, raw).builder == AddField(b2, dev, field);
    FieldLeaf(b2, dev, field);
  }

  /** Segments after the third play no part: a line with more than three
      segments builds what its first three segments alone build. */
  lemma ExtraSegmentsIgnored(b: Builder, raw: string, raw3: string)
    requires Valid(b)
    requires |Split(StripEol(raw), ':')| > 3
    requires Split(StripEol(raw3), ':') == Split(StripEol(raw), ':')[..3]
    ensures ParseLine(b, raw) == ParseLine(b, raw3)
  {
  }

  /** A field of a device already recorded goes under the device's first
      top-level item, whatever the line's own first segment is. */
  lemma SharedDevice(b: Builder, raw: string, root: string, dev: string, field: string)
    requires Valid(b)
    requires StripEol(raw) == Join([root, dev, field], ':')
    requires ':' !in root && ':' !in dev && ':' !in field
    requires !IsAutosave(root) && dev in b.devices
    ensures ParseLine(b, raw).ok && ParseLine(b, raw).builder.devices[dev] == b.devices[dev]
    ensures var f := ParseLine(b, raw).builder;
      PvAt(f.forest, NewestField(f.forest, b.devices[dev]))
        == Some(Join([b.tops[b.devices[dev].top], dev, field], ':'))
  {
    SplitJoin([root, dev, field], ':');
    var b1 := AddTop(b, root);
    var t := IndexOf(b1.tops, root);
    var b2 := EnsureDevice(b1, t, dev);
    assert ParseLine(b, raw).builder == AddField(b2, dev, field);
    assert b1.tops[b.devices[dev].top] == b.tops[b.devices[dev].top];
    FieldLeaf(b2, dev, field);
  }

  /** An autosave line `root:field` (root ending in "-as") puts the field
      straight under the top-level item and comes back whole from `getPV`. */
  lemma AutosaveRoundTrip(b: Builder, raw: string, root: string, field: string)
    requires Valid(b)
    requires StripEol(raw) == Join([root, field], ':')
    requires ':' !in root && ':' !in field && IsAutosave(root)
    ensures ParseLine(b, raw).ok && root in ParseLine(b, raw).builder.tops
    ensures var f := ParseLine(b, raw).builder;
      PvAt(f.forest, NewestChild(f.forest, IndexOf(f.tops, root))) == Some(StripEol(raw))
  {
    SplitJoin([root, field], ':');
    var b1 := AddTop(b, root);
    var t := IndexOf(b1.tops, root);
    var r := AddAutosave(b1, t, field);
    assert ParseLine(b, raw).builder == r;
    var path := [t, |r.forest[t].children| - 1];
    assert NewestChild(r.forest, t) == Some(path);
    assert r.forest == AppendChild(b1.forest, t, Item(field, []));
    assert path[1..] == [|r.forest[t].children| - 1] && path[1..][1..] == [];
    assert NodeIn(r.forest[t], path[1..]) == Item(field, []);
    assert NodeAt(r.forest, path) == Item(field, []);
    assert TextsAlong(r.forest, path) == [root, field];
  }
}
