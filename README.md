# pete — device simulator and GUI name parsers, in Dafny

This project models two parts of `pete`, a test environment for PLC-based control systems.

The first part is the device simulator. It connects to the controller's OPC UA server, discovers devices by the display names of the nodes in the controller's `Inputs` and `Outputs` folders, and runs one endless loop per device:

- an analog transmitter writes a random integer from its range;
- a control valve (`CV`) copies its openness command into its feedback;
- a solenoid valve (`YSV`) answers its energize signal on its `opened` and `closed` feedback nodes, in a fixed write order.

The second part is three name and path routines of the GUI:

- `IOCTree.setup` parses a list of PV names into a tree of top-level items, devices and fields, and `IOC.getPV` joins the texts from a leaf up to its top-level item back into a PV name;
- `PLC.getPVs` builds `dev:signal` names from the controller's device instances;
- `PLCTree.dumpData` writes the browsed tree as indented text, with long values truncated;
- `PLC.evolveTree` builds the ancestor path of the selected item and expands each path only once.

Modules:

- `Results`: `Option` and `Result`.
- `Text`: the Python string operations the code relies on: `in`, `split`, `join`, `split(...)[1]`, `" " * n`.
- `Store`: the remote node store. It is a class holding a map from node to value and the ordered log of values written through the client. It also models changes made on the controller's side.
- `Analog`, `Cv`, `Ysv`: each device loop body is one `Tick` method, and the first `n` passes of the endless loop are one `Run` method. Each is proved against a function of the old state.
- `Sim`: discovery, the body of the simulator's entry point. It has two loops, proved against `Transmitters` and `ValveScan`.
- `Widgets`: the tree widget item as a value (text and children).
- `Ioc`: `setup` is a loop over lines, proved against `Parse`. `getPV` is a loop, proved against `PvAt`.
- `Plc`: `getPVs` and the `while` loop of `evolveTree` are methods proved against `PVsOf` and `AncestorPath`. `dumpData` is a pair of recursive functions. The `expand_list` memo is a field of a `Client` class.

A valve whose companion node is missing is not skipped: `get_child` raises, nothing catches the exception, and discovery ends with that error (`Sim.MissingCompanionAborts`).

## Model

| member | source | states |
|---|---|---|
| Text.ContainsIffOccurs | pete/sim/sim.py:48-49 | The recursive `sub in s` holds exactly when `sub` starts at some index of `s` |
| Text.SplitHasSecond | pete/sim/sim.py:58-62 | `split(sep)` has a second piece, so `[1]` does not raise `IndexError`, exactly when `sep` occurs |
| Text.SecondPiece | pete/sim/sim.py:59 | `s.split(sep)[1]` exists exactly when `sep` is in `s`, and it holds no `sep` |
| Text.SplitPiecesFree | pete/gui/ioc.py:49 | No piece of a split holds the separator |
| Text.JoinSplit | pete/gui/ioc.py:49 | Joining the pieces of a split with the separator gives back the string |
| Text.SplitJoin | pete/gui/ioc.py:49 | Splitting a join of separator-free pieces gives back the pieces |
| Text.SecondPieceOfJoin | pete/sim/sim.py:75 | The second piece of `head_tail` is `tail` when neither holds `_`, so `hwi_<tag>` is named `<tag>` |
| Text.Spaces | pete/gui/plc.py:82 | `" " * n` has length `n` and only spaces |
| Store.ApplyLast | pete/opc_client.py:22-28 | After a series of writes, a node holds the value of the last write to it |
| Store.ApplyUntouched | pete/opc_client.py:22-28 | A node no write targets keeps its value |
| Store.NodeStore.GetValue | pete/opc_client.py:30-38 | Reading a node returns its current value and changes nothing |
| Store.NodeStore.SetValue | pete/opc_client.py:22-28 | Writing sets exactly that node and appends the write to the log |
| Analog.Sample | pete/sim/analog.py:25 | `randint(low, high)` gives a value iff `low <= high`, and that value is the draw, inside the inclusive range |
| Analog.Tick | pete/sim/analog.py:24-28 | One pass writes the drawn value to the bound node only, as one write; with an empty range it fails and writes nothing |
| Analog.RunWritesInRange | pete/sim/analog.py:24-28 | Every value the transmitter ever writes goes to its node and lies in `[low, high]` |
| Analog.Run | pete/sim/analog.py:22-28 | `n` passes append one write per draw, keep the set of nodes and leave the last draw in the node; with an empty range the first pass fails |
| Analog.Name | pete/sim/analog.py:30-32 | `get_name` is defined exactly when the node's display name holds `_` |
| Cv.Follow | pete/sim/cv.py:22 | After a step the feedback holds the command value, unconverted, and every other node, the command included, keeps its value |
| Cv.Tick | pete/sim/cv.py:21-22 | One pass makes exactly one write, to the feedback node, of the command's value |
| Cv.FollowIdempotent | pete/sim/cv.py:22 | Repeating the step with an unchanged command changes nothing |
| Cv.FeedbackIsLatestCommand | pete/sim/cv.py:19-22 | After any series of commands, the feedback holds the latest, and no node but command and feedback has changed |
| Cv.Pass | pete/sim/cv.py:21-22 | A controller command followed by one pass leaves the command in the feedback, logged as one write |
| Cv.Run | pete/sim/cv.py:19-22 | `n` passes give the values `FollowAll` predicts and exactly `n` new writes; write `k` copies `cmds[k]`, the command the controller set before pass `k`, to the feedback node |
| Cv.Name | pete/sim/cv.py:24-26 | `get_name` is defined exactly when the feedback's display name holds `_` |
| Ysv.EnergizeTypeOf | pete/sim/ysv.py:36-40 | Energize-to-open exactly when the energize node's name holds "open" |
| Ysv.TargetAndOther | pete/sim/ysv.py:36-40 | `oc[et]` is `opened` for energize-to-open and `closed` otherwise; `oc[1 - et]` is the other one |
| Ysv.ActivationCheck | pete/sim/ysv.py:46-49 | The first check writes what `Activation` gives for the values it reads, and the store changes accordingly |
| Ysv.DeactivationCheck | pete/sim/ysv.py:51-54 | The second check writes what `Deactivation` gives for its own fresh reads |
| Ysv.Tick | pete/sim/ysv.py:45-56 | One pass logs the activation writes, then the de-activation writes on the values after the controller's changes; the store ends as `AfterTick` |
| Ysv.ActivationOrder | pete/sim/ysv.py:46-49 | Energized with the target false: the other node is written False strictly before the target is written True |
| Ysv.DeactivationOrder | pete/sim/ysv.py:51-54 | De-energized with the other node false: the target is written False, then the other node True, and nothing else |
| Ysv.NoWriteAtCommandedPosition | pete/sim/ysv.py:46-54 | A valve at its commanded position makes no write, whatever the other node holds |
| Ysv.BothTrueIsKept | pete/sim/ysv.py:46-54 | With both feedbacks true the valve writes nothing, so the state is never repaired |
| Ysv.SettlesToCommand | pete/sim/ysv.py:46-54 | With the command held and the commanded node false, one pass leaves the commanded node true and the other false |
| Ysv.ReversalInSamePass | pete/sim/ysv.py:46-54 | A de-energize that lands between the two checks is acted on in the same pass: four writes, ending at the reverse position |
| Ysv.EnergizeOnlyRead | pete/sim/ysv.py:45-56 | Every write goes to `opened` or `closed`, and the energize node keeps the controller's value |
| Ysv.TickSettles | pete/sim/ysv.py:45-56 | A pass that starts with exactly one feedback true (or both false, with the command held) ends with exactly one true |
| Ysv.RunStaysSettled | pete/sim/ysv.py:45-56 | The same holds after any number of passes, whatever the controller does to the energize node in the poll pauses and between the checks |
| Ysv.RunWritesFeedbackOnly | pete/sim/ysv.py:45-56 | Over any number of passes every write goes to `opened` or `closed` |
| Ysv.Pass | pete/sim/ysv.py:45-56 | The controller's changes of the poll pause before a pass, then the pass: the store ends as `AfterTick` of the changed values and logs that pass's `TickWrites` |
| Ysv.Run | pete/sim/ysv.py:32-56 | `n` passes, with controller changes both in the 0.2 s poll pause before each pass and between its two checks, leave the values `RunValues` predicts and append exactly `RunWrites`, every pass's writes in order |
| Ysv.Name | pete/sim/ysv.py:58-60 | `get_name` is defined exactly when the energize node's display name holds `_` |
| Sim.OnePerMarker | pete/sim/sim.py:46-51 | An input node yields one transmitter per marker that occurs in its name, all alike |
| Sim.NoMarkerWithoutT | pete/sim/sim.py:44-51 | A name without a 'T' matches no analog marker |
| Sim.TransmittersAppend | pete/sim/sim.py:46-51 | Input nodes are handled independently: the transmitters of `a + b` are those of `a`, then those of `b` |
| Sim.NoDeduplication | pete/sim/sim.py:49 | Listing the inputs twice doubles the transmitters, because the `not in analog_instruments` test never excludes anything |
| Sim.TransmittersSound | pete/sim/sim.py:44-51 | Every transmitter sits on a marked input node with range (13000, 14000), and every marked input node has one |
| Sim.TransmittersNamed | pete/sim/sim.py:80-81 | `a.get_name()` never raises for a discovered transmitter |
| Sim.GetChild | pete/sim/sim.py:68-70 | `get_child` finds the node iff a child has that name, and otherwise raises `BadNoMatch` naming it |
| Sim.ScanIsOk | pete/sim/sim.py:53-77 | Throughout the output loop: one tag per valve, no tag twice, tags free of `_`, each valve wired to its tag's companion nodes |
| Sim.DiscoveredValves | pete/sim/sim.py:64-77 | Discovered valves have pairwise different names; every one has a name, and a solenoid valve's three nodes differ |
| Sim.NamedByTag | pete/sim/sim.py:67-77 | A valve wired to the nodes of `tag` is named `tag` |
| Sim.ScanCovers | pete/sim/sim.py:58-77 | Every marked output node with a tag has a valve for its tag once the loop has passed it |
| Sim.SkippedNodes | pete/sim/sim.py:58-77 | A name without `_`, a tag already recorded, or neither marker: the lists stay as they are, so the tag is not recorded |
| Sim.SolenoidTestFirst | pete/sim/sim.py:67-73 | A name holding both "YSV" and "CV-" builds a solenoid valve |
| Sim.MissingCompanionAborts | pete/sim/sim.py:67-77 | Any failed companion lookup for a new valve (`_opened`, `_closed`, `hwo_<tag>` or `hwi_<tag>`) ends the whole discovery with that lookup's error |
| Sim.CompanionLookups | pete/sim/sim.py:67-77 | A solenoid lookup fails iff `_opened` or `_closed` is missing, a control lookup iff `hwo_<tag>` or `hwi_<tag>` is missing; the error names the first missing node in lookup order |
| Sim.FailureIsFinal | pete/sim/sim.py:55-77 | Once a lookup has failed, no later output node changes the outcome |
| Sim.FirstSolenoid | pete/sim/sim.py:55-72 | A "YSV" node first among the outputs, whose companions exist, is recorded as that valve under its tag, whatever follows it |
| Sim.SingleSolenoid | pete/sim/sim.py:44-77 | A namespace with one "YSV" output and its two feedback inputs discovers exactly that valve and no transmitter |
| Sim.DiscoverTransmitters | pete/sim/sim.py:44-51 | The input loop builds exactly `Transmitters(inputs)` |
| Sim.DiscoverValves | pete/sim/sim.py:53-77 | The output loop builds exactly `ValveScan`, including the error that ends it |
| Sim.Discover | pete/sim/sim.py:44-77 | The discovery block yields `Discovered(inputs, outputs)` |
| Ioc.StripEol | pete/gui/ioc.py:46-47 | At most one character is removed, and only a trailing "\n" or "\r" |
| Ioc.IndexOf | pete/gui/ioc.py:57 | `topLevelItems.index(name)` is the first position holding `name` |
| Ioc.AppendChild | pete/gui/ioc.py:63 | `addChild` appends to the one item and leaves every other item alone |
| Ioc.AppendGrandchild | pete/gui/ioc.py:78 | `addChild` on a device item appends to it and leaves everything else alone |
| Ioc.AddTop | pete/gui/ioc.py:51-57 | A top-level item is added only for a first segment not seen before |
| Ioc.AddAutosave | pete/gui/ioc.py:60-64 | An autosave field becomes the last child, a leaf, of top-level item `t`; other items, `topLevelItems` and devices are untouched |
| Ioc.EnsureDevice | pete/gui/ioc.py:73-75 | A new device becomes the newest child of the current top-level item; a known device keeps its place |
| Ioc.AddField | pete/gui/ioc.py:77-78 | The field becomes the last child, a leaf, of the device item; nothing else in the tree changes, and it stays well formed |
| Ioc.ParseLine | pete/gui/ioc.py:46-78 | One line keeps the tree well formed: its first segment is a top-level item, and known devices keep their place |
| Ioc.LineOkIff | pete/gui/ioc.py:49-71 | A line raises exactly when it holds no ':' once its line end is stripped |
| Ioc.ExtraSegmentsIgnored | pete/gui/ioc.py:66-68 | Segments after the third play no part in what a line builds |
| Ioc.LineGrows | pete/gui/ioc.py:51-78 | A line only appends items; nothing there before is lost |
| Ioc.ErrorItemLast | pete/gui/ioc.py:82-84 | When a line raises, the item "list index out of range" is added last |
| Ioc.SortedIff | pete/gui/ioc.py:45-84 | The tree is sorted, that is no line raised, exactly when every line holds a ':' |
| Ioc.EarlierItemsRemain | pete/gui/ioc.py:45-84 | Items from earlier lines remain, also when a later line raises |
| Ioc.TopsUnique | pete/gui/ioc.py:51-57 | Top-level items are unique by text; only the error item may repeat one |
| Ioc.ReadTop | pete/gui/ioc.py:46-57 | Strip, split, then add or find the top-level item, as `AddTop` and `IndexOf` say |
| Ioc.ReadLine | pete/gui/ioc.py:45-78 | The loop body computes exactly `ParseLine` |
| Ioc.Setup | pete/gui/ioc.py:29-84 | `setup` builds exactly `Parse(lines)` |
| Ioc.GetPV | pete/gui/ioc.py:179-192 | None for no item or a non-leaf; otherwise the texts from the top-level item down, joined with ':' |
| Ioc.FieldLeaf | pete/gui/ioc.py:77-78 | A field added to a device is a leaf whose PV is `top:dev:field` |
| Ioc.DeviceLineRoundTrip | pete/gui/ioc.py:66-78 | A line `root:dev:field` with a new device and no "-as" comes back whole from `getPV` |
| Ioc.TwoSegmentLineDoubles | pete/gui/ioc.py:66-71 | A line `dev:field` with a new device comes back as `dev:dev:field` |
| Ioc.SharedDevice | pete/gui/ioc.py:73-78 | A field of a known device goes under the device's first top-level item, whatever the line's root |
| Ioc.AutosaveRoundTrip | pete/gui/ioc.py:60-64 | An autosave line `root:field` puts the field under the top-level item and comes back whole |
| Plc.DeviceName | pete/gui/plc.py:322 | The device name of a device instance exists and holds no `_` |
| Plc.PvsFor | pete/gui/plc.py:331-334 | One PV `dev:signal` per signal, in signal order |
| Plc.PvsForMembership | pete/gui/plc.py:331-334 | A name is among an instance's PVs exactly when some signal gives it |
| Plc.AppendPvs | pete/gui/plc.py:331-332 | A loop over signals appends exactly their PVs |
| Plc.AppendInstancePvs | pete/gui/plc.py:320-334 | Nothing for a non-device instance; otherwise the inputs' PVs, then the outputs'; a failed `3:Outputs` lookup keeps the inputs, a failed `3:Inputs` lookup gives nothing |
| Plc.GetPVs | pete/gui/plc.py:313-336 | `getPVs` returns exactly `PVsOf(instances)` |
| Plc.InstanceMembership | pete/gui/plc.py:320-334 | A name is among one instance's PVs exactly when it is a device instance with a signal giving that name |
| Plc.PVsMembership | pete/gui/plc.py:319-334 | A name is among the PVs exactly when some instance with "DEV_" and "_iDB" in its name has a signal giving it |
| Plc.PvSplits | pete/gui/plc.py:322-332 | A PV splits at its first ':' into the device name and the signal's pieces |
| Plc.Truncate | pete/gui/plc.py:77-78 | At most 30 characters; unchanged up to 30; otherwise the first 27 characters, then "..." |
| Plc.ValueSuffix | pete/gui/plc.py:71-80 | For a readable leaf, `Truncate(", " + value)`: the whole of it for a value of up to 28 characters, otherwise ", ", the first 25 characters and "..."; empty for a node with children or an unreadable value |
| Plc.DumpItem | pete/gui/plc.py:61-85 | The first line written for an item is its own: `indent` spaces, its text and `ValueSuffix` of its node. What the whole dump writes is stated by `Plc.DumpFollowsOutline` |
| Plc.DumpFollowsOutline | pete/gui/plc.py:61-85 | The lines follow the tree in order, each with its item's text, two more spaces per level; all are written iff every item has a node, otherwise a prefix |
| Plc.DumpAllFollowsOutline | pete/gui/plc.py:84-85 | The same for the loop over children |
| Plc.AncestorPath | pete/gui/plc.py:160-163 | A path exists iff "0:Root" is above the item, and it never holds "0:Root" |
| Plc.PathIsRootFirst | pete/gui/plc.py:160-163 | Entry `k` of the path is the text `k` steps below "0:Root" |
| Plc.WalkToRoot | pete/gui/plc.py:160-163 | The `while` loop builds exactly `AncestorPath` |
| Plc.KnownNeverExpanded | pete/gui/plc.py:183-189 | A path already in `expand_list` is never expanded again |
| Plc.ExpandedAtMostOnce | pete/gui/plc.py:183-195 | Over any series of selections, each path is expanded at most once |
| Plc.Client.EvolveTree | pete/gui/plc.py:157-195 | One selection does what `Evolve` says to `expand_list` and keeps it free of duplicates |

## Left out

- Threads (`SimThread`) and their start-up: each device loop is a sequential `Tick`, and `Run` covers the first `n` passes of the endless loop. Interleavings between device threads are not modelled.
- `time.sleep` (0.7 s travel, 0.2 s poll): a pause is only the order between two writes. A `YSV` run takes the controller's changes at two places in each pass: in the poll pause before it, and between its two checks (`Ysv.PlcChanges`). A change that lands during the 0.7 s travel, between the two writes of one check, is not modelled on its own. Such a change is read only by the next check, just as a change between the checks is. The exception is a controller write to `opened` or `closed` that the check's second write then overwrites.
- The distribution of `random.randint`: the drawn value is a parameter, required to lie in the range.
- `OPCClient`'s variant-type coercion in `setValue`: values are stored as given. So are `getName`'s browse-name slicing and the connection set-up. The store is the abstract `NodeStore`.
- Read and write failures of single nodes are not modelled; every node a device holds exists.
- Sim.GetChild: a bare name is matched against the display names of a folder's children. OPC UA browse names carry a namespace index, and the client library reads a name without a prefix as namespace 0. The folders themselves are looked up with the prefix "3:". If the companion nodes live in namespace 3, `get_child("hwi_<tag>_opened")` raises `BadNoMatch`, and discovery ends at the first valve (`Sim.MissingCompanionAborts`). Namespace indices are not modelled, so `Sim.FirstSolenoid`, `Sim.SingleSolenoid` and `Sim.ScanCovers` hold only where the server resolves bare names to those nodes.
- `objects[-1]` and the folder lookups `3:Inputs`, `3:Outputs` and `3:DataBlocksInstance`: the namespace is given as the lists of display names of their children.
- In `getPVs` the instances' signal names are given, and a failed folder lookup is `None`.
- The browsed node of `evolveTree` (`get_child(parents)`, `get_value`, the `command_str` text, the feedback label, adding the children as items): only the path and the `expand_list` memo are modelled. The browse name of a child is taken to be the text the tree shows.
- `dumpData`: the directory check and message box, the file, and the `root is None` start. The model starts from the root item paired with the root node.
- `IOC.dumpData`, `getVal`, `applyVal`, and `caget`/`caput`: EPICS network I/O.
- Reading the PV list from a file, and Qt widget state: the tree is a datatype. `sortItems(0, 0)` is only the `sorted` flag of the result, and item order before sorting is what the model keeps.
- Exceptions other than the `IndexError` of a line without ':' inside `setup`: Qt raises none for this input.
- argparse, `print`, theming: no logic to model.
- Analog.Run: states the write log, the node set and the last value. It does not state every other node's value.
