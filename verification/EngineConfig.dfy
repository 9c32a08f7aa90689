/**
 The overlay of configuration layers: internal/config/engine.go, and the collector that applies it to the documents
 it finds, internal/runtime/podman/engine.go.
 Attributed arrays carry an append flag that sticks until a later layer sets it again; the redacted form keeps the
 same books without the values.
 */
module EngineConfig {
  import opened Options
  import opened Seqs
  import opened Paths

  datatype ConfigString = ConfigString(invalid: bool, value: string, sourceID: string)

  datatype ConfigList = ConfigList(
    invalidIndices: seq<int>, unmodeledIndices: seq<int>, values: seq<string>, origins: seq<string>, sourceID: string,
    append: Option<bool>, inheritedDefault: bool)

  datatype ConfigRedactedList = ConfigRedactedList(count: int, sourceID: string, append: Option<bool>,
                                                   inheritedDefault: bool)

  datatype ListLayer = ListLayer(invalidIndices: seq<int>, unmodeledIndices: seq<int>, values: seq<string>,
                                 append: Option<bool>)

  datatype EngineLayer = EngineLayer(
    cgroupManagerInvalid: bool, runtime: Option<string>, cgroupManager: Option<string>,
    conmonPath: Option<ListLayer>, helperBinariesDir: Option<ListLayer>, runtimePath: Option<ListLayer>,
    environment: Option<ListLayer>, runtimes: map<string, ListLayer>, selectionOverrides: bool,
    unprojectedFieldCount: int)

  datatype EngineConfiguration = EngineConfiguration(
    runtime: Option<ConfigString>, cgroupManager: Option<ConfigString>, runtimes: map<string, ConfigList>,
    conmonPath: Option<ConfigList>, helperBinariesDir: Option<ConfigList>, runtimePath: Option<ConfigList>,
    environment: Option<ConfigRedactedList>, selectionOverrides: bool, unprojectedFieldCount: int)

  // --- One list ---

  function NewFlag(before: Option<bool>, layer: ListLayer): Option<bool> {
    if layer.append.Some? then layer.append else before
  }

  function Shifted(indices: seq<int>, offset: int): seq<int> {
    seq(|indices|, k requires 0 <= k < |indices| => offset + indices[k])
  }

  function Copies(source: string, n: nat): seq<string> {
    seq(n, _ => source)
  }

  /** The list that a layer starts from. */
  function Base(previous: Option<ConfigList>): ConfigList {
    if previous.Some? then previous.value else ConfigList([], [], [], [], "", None, true)
  }

  /** What one present layer makes of a list. */
  function Overlaid(base: ConfigList, layer: ListLayer, source: string): ConfigList {
    var flag := NewFlag(base.append, layer);
    Extended(if flag == Some(true) then base else Emptied(base), layer, source, flag)
  }

  function Emptied(list: ConfigList): ConfigList {
    list.(values := [], origins := [], inheritedDefault := false, invalidIndices := [], unmodeledIndices := [])
  }

  /** The layer's values behind the kept ones, with its marks moved along. */
  function Extended(kept: ConfigList, layer: ListLayer, source: string, flag: Option<bool>): ConfigList {
    ConfigList(kept.invalidIndices + Shifted(layer.invalidIndices, |kept.values|),
               kept.unmodeledIndices + Shifted(layer.unmodeledIndices, |kept.values|),
               kept.values + layer.values, kept.origins + Copies(source, |layer.values|), source, flag,
                 kept.inheritedDefault)
  }

  function Merged(previous: Option<ConfigList>, layer: Option<ListLayer>, source: string): Option<ConfigList> {
    if layer.None? then previous else Some(Overlaid(Base(previous), layer.value, source))
  }

  method MergeList(previous: Option<ConfigList>, layer: Option<ListLayer>, source: string)
    returns (r: Option<ConfigList>)
    ensures r == Merged(previous, layer, source)
  {
    if previous.None? && layer.None? { return None; }
    var out := ConfigList([], [], [], [], "", None, true);
    if previous.Some? {
      out := previous.value;
    }
    if layer.None? { return Some(out); }
    var l := layer.value;
    if l.append.Some? {
      out := out.(append := l.append);
    }
    if out.append.None? || !out.append.value {
      out := out.(values := [], origins := [], inheritedDefault := false, invalidIndices := [], unmodeledIndices := []);
    }
    var invalid := AppendShifted(out.invalidIndices, l.invalidIndices, |out.values|);
    var unmodeled := AppendShifted(out.unmodeledIndices, l.unmodeledIndices, |out.values|);
    var origins := out.origins;
    for k := 0 to |l.values|
      invariant origins == out.origins + Copies(source, k)
    {
      origins := origins + [source];
    }
    r := Some(out.(invalidIndices := invalid, unmodeledIndices := unmodeled, values := out.values + l.values,
                   origins := origins,
                   sourceID := source));
  }

  method AppendShifted(start: seq<int>, indices: seq<int>, offset: int) returns (r: seq<int>)
    ensures r == start + Shifted(indices, offset)
  {
    r := start;
    for k := 0 to |indices|
      invariant r == start + Shifted(indices[..k], offset)
    {
      assert Shifted(indices[..k + 1], offset) == Shifted(indices[..k], offset) + [offset + indices[k]];
      r := r + [offset + indices[k]];
    }
    assert indices[..|indices|] == indices;
  }

  // --- Many layers ---

  /** A layer of one list, which may be absent, and its source. */
  datatype Input = Input(layer: Option<ListLayer>, source: string)

  function FoldList(start: Option<ConfigList>, inputs: seq<Input>): Option<ConfigList> {
    if inputs == [] then start
    else
      var last := inputs[|inputs| - 1];
      Merged(FoldList(start, inputs[..|inputs| - 1]), last.layer, last.source)
  }

  function StartFlag(start: Option<ConfigList>): Option<bool> {
    if start.Some? then start.value.append else None
  }

  /** The append flag after some layers: the last one set. */
  function Sticky(flag: Option<bool>, inputs: seq<Input>): Option<bool> {
    if inputs == [] then flag
    else
      var last := inputs[|inputs| - 1];
      if last.layer.Some? && last.layer.value.append.Some? then last.layer.value.append
      else Sticky(flag, inputs[..|inputs| - 1])
  }

  /** The layer at `k` is present and replaces what came before it. */
  predicate Resets(flag: Option<bool>, inputs: seq<Input>, k: nat)
    requires k < |inputs|
  {
    inputs[k].layer.Some? && Sticky(flag, inputs[..k + 1]) != Some(true)
  }

  /** Where the current list begins: the last reset, or -1. */
  function LastReset(flag: Option<bool>, inputs: seq<Input>): (r: int)
    ensures -1 <= r < |inputs|
  {
    if inputs == [] then -1
    else if Resets(flag, inputs, |inputs| - 1) then |inputs| - 1
    else LastReset(flag, inputs[..|inputs| - 1])
  }

  /** It really is the last one. */
  lemma {:induction false} LastResetIsLast(flag: Option<bool>, inputs: seq<Input>)
    ensures var r := LastReset(flag, inputs);
      && (r >= 0 ==> Resets(flag, inputs, r))
      && (forall k :: r < k < |inputs| ==> !Resets(flag, inputs, k))
  {
    if inputs != [] {
      var front := inputs[..|inputs| - 1];
      LastResetIsLast(flag, front);
      forall k | 0 <= k < |front| ensures Resets(flag, front, k) <==> Resets(flag, inputs, k) {
        assert front[..k + 1] == inputs[..k + 1];
      }
    }
  }

  // --- Entries ---

  /** One value of a list with everything that is recorded about it. */
  datatype Entry = Entry(value: string, origin: string, invalid: bool, unmodeled: bool)

  predicate InRange(indices: seq<int>, n: nat) {
    forall k :: 0 <= k < |indices| ==> 0 <= indices[k] < n
  }

  /** One origin per value, and indices that name values. */
  predicate WellFormed(list: ConfigList) {
    |list.origins| == |list.values| && InRange(list.invalidIndices, |list.values|)
      && InRange(list.unmodeledIndices, |list.values|)
  }

  predicate LayerFits(layer: ListLayer) {
    InRange(layer.invalidIndices, |layer.values|) && InRange(layer.unmodeledIndices, |layer.values|)
  }

  predicate InputsFit(inputs: seq<Input>) {
    forall k :: 0 <= k < |inputs| && inputs[k].layer.Some? ==> LayerFits(inputs[k].layer.value)
  }

  /** A list read value by value. */
  function Entries(list: ConfigList): (es: seq<Entry>)
    requires WellFormed(list)
    ensures |es| == |list.values|
  {
    seq(|list.values|, k requires 0 <= k < |list.values| =>
      Entry(list.values[k], list.origins[k], k in list.invalidIndices, k in list.unmodeledIndices))
  }

  /** A layer read value by value, with its own marks. */
  function LayerEntries(input: Input): seq<Entry> {
    if input.layer.None? then []
    else
      var l := input.layer.value;
      seq(|l.values|, k requires 0 <= k < |l.values| => Entry(l.values[k], input.source, k in l.invalidIndices,
          k in l.unmodeledIndices))
  }

  function AllEntries(inputs: seq<Input>): seq<Entry> {
    if inputs == [] then [] else AllEntries(inputs[..|inputs| - 1]) + LayerEntries(inputs[|inputs| - 1])
  }

  /** Marks move with their values: one of the kept list's own, and one of the layer's. */
  lemma KeptMark(kept: seq<int>, n: nat, own: seq<int>, m: nat, k: nat)
    requires InRange(own, m) && k < n
    ensures k in kept + Shifted(own, n) <==> k in kept
  {
    forall i | 0 <= i < |own| ensures Shifted(own, n)[i] != k {}
  }

  lemma OwnMark(kept: seq<int>, n: nat, own: seq<int>, k: nat)
    requires InRange(kept, n)
    ensures n + k in kept + Shifted(own, n) <==> k in own
  {
    ShiftedMember(own, n, k);
    forall i | 0 <= i < |kept| ensures kept[i] != n + k {}
  }

  lemma ShiftInRange(kept: seq<int>, n: nat, own: seq<int>, m: nat)
    requires InRange(kept, n) && InRange(own, m)
    ensures InRange(kept + Shifted(own, n), n + m)
  {
  }

  lemma ShiftedMember(own: seq<int>, n: nat, k: nat)
    ensures k in own <==> n + k in Shifted(own, n)
  {
    if k in own {
      var i :| 0 <= i < |own| && own[i] == k;
      assert Shifted(own, n)[i] == n + k;
    }
    if n + k in Shifted(own, n) {
      var i :| 0 <= i < |own| && Shifted(own, n)[i] == n + k;
      assert own[i] == k;
    }
  }

  lemma ExtendedEntries(kept: ConfigList, layer: ListLayer, source: string, flag: Option<bool>)
    requires WellFormed(kept) && LayerFits(layer)
    ensures WellFormed(Extended(kept, layer, source, flag))
    ensures Entries(Extended(kept, layer, source, flag)) == Entries(kept) + LayerEntries(Input(Some(layer), source))
  {
    ExtendedIsWellFormed(kept, layer, source, flag);
    var n := |kept.values|;
    var all, before, own := Entries(Extended(kept, layer, source, flag)), Entries(kept),
      LayerEntries(Input(Some(layer), source));
    forall k | 0 <= k < n ensures all[k] == before[k] {
      KeptEntry(kept, layer, source, flag, k);
    }
    forall k | 0 <= k < |own| ensures all[n + k] == own[k] {
      OwnEntry(kept, layer, source, flag, k);
    }
    Concatenated(all, before, own);
  }

  lemma Concatenated<T>(all: seq<T>, a: seq<T>, b: seq<T>)
    requires |all| == |a| + |b|
    requires forall k :: 0 <= k < |a| ==> all[k] == a[k]
    requires forall k :: 0 <= k < |b| ==> all[|a| + k] == b[k]
    ensures all == a + b
  {
    assert forall k :: |a| <= k < |all| ==> all[k] == all[|a| + (k - |a|)];
  }

  lemma ExtendedIsWellFormed(kept: ConfigList, layer: ListLayer, source: string, flag: Option<bool>)
    requires WellFormed(kept) && LayerFits(layer)
    ensures WellFormed(Extended(kept, layer, source, flag))
  {
    ShiftInRange(kept.invalidIndices, |kept.values|, layer.invalidIndices, |layer.values|);
    ShiftInRange(kept.unmodeledIndices, |kept.values|, layer.unmodeledIndices, |layer.values|);
  }

  lemma KeptEntry(kept: ConfigList, layer: ListLayer, source: string, flag: Option<bool>, k: nat)
    requires WellFormed(kept) && LayerFits(layer) && k < |kept.values|
    ensures WellFormed(Extended(kept, layer, source, flag))
    ensures Entries(Extended(kept, layer, source, flag))[k] == Entries(kept)[k]
  {
    ExtendedIsWellFormed(kept, layer, source, flag);
    KeptMark(kept.invalidIndices, |kept.values|, layer.invalidIndices, |layer.values|, k);
    KeptMark(kept.unmodeledIndices, |kept.values|, layer.unmodeledIndices, |layer.values|, k);
  }

  lemma OwnEntry(kept: ConfigList, layer: ListLayer, source: string, flag: Option<bool>, k: nat)
    requires WellFormed(kept) && LayerFits(layer) && k < |layer.values|
    ensures WellFormed(Extended(kept, layer, source, flag))
    ensures Entries(Extended(kept, layer, source, flag))[|kept.values| + k]
      == LayerEntries(Input(Some(layer), source))[k]
  {
    ExtendedIsWellFormed(kept, layer, source, flag);
    OwnMark(kept.invalidIndices, |kept.values|, layer.invalidIndices, k);
    OwnMark(kept.unmodeledIndices, |kept.values|, layer.unmodeledIndices, k);
  }

  lemma OverlaidEntries(base: ConfigList, layer: ListLayer, source: string)
    requires WellFormed(base) && LayerFits(layer)
    ensures WellFormed(Overlaid(base, layer, source))
    ensures Entries(Overlaid(base, layer, source)) ==
      (if NewFlag(base.append, layer) == Some(true) then Entries(base) else [])
        + LayerEntries(Input(Some(layer), source))
  {
    var flag := NewFlag(base.append, layer);
    ExtendedEntries(if flag == Some(true) then base else Emptied(base), layer, source, flag);
  }

  /** The entries after some layers, layer by layer. */
  function Running(start: seq<Entry>, flag: Option<bool>, inputs: seq<Input>): seq<Entry> {
    if inputs == [] then start
    else
      var n := |inputs| - 1;
      (if Resets(flag, inputs, n) then [] else Running(start, flag, inputs[..n])) + LayerEntries(inputs[n])
  }

  lemma AllEntriesLast(front: seq<Input>, last: Input)
    ensures AllEntries(front + [last]) == AllEntries(front) + LayerEntries(last)
  {
    assert (front + [last])[..|front|] == front;
  }

  /** Without a reset everything is kept. */
  lemma {:induction false} RunningKeepsAll(start: seq<Entry>, flag: Option<bool>, inputs: seq<Input>)
    requires LastReset(flag, inputs) < 0
    ensures Running(start, flag, inputs) == start + AllEntries(inputs)
  {
    if inputs == [] {
      assert start + [] == start;
    } else {
      var n := |inputs| - 1;
      RunningKeepsAll(start, flag, inputs[..n]);
      Associative(start, AllEntries(inputs[..n]), LayerEntries(inputs[n]));
    }
  }

  /** After a reset only what came since is left. */
  lemma EntriesSince(inputs: seq<Input>, r: nat)
    requires r < |inputs|
    ensures AllEntries(inputs[r..]) == AllEntries(inputs[..|inputs| - 1][r..]) + LayerEntries(inputs[|inputs| - 1])
  {
    var tail, last := inputs[..|inputs| - 1][r..], inputs[|inputs| - 1];
    assert inputs[r..] == tail + [last];
    AllEntriesLast(tail, last);
  }

  lemma {:induction false} RunningSinceReset(start: seq<Entry>, flag: Option<bool>, inputs: seq<Input>, r: nat)
    requires LastReset(flag, inputs) == r
    ensures Running(start, flag, inputs) == AllEntries(inputs[r..])
  {
    var n := |inputs| - 1;
    if r == n {
      OnlyLayer(inputs);
    } else {
      assert LastReset(flag, inputs[..n]) == r;
      RunningSinceReset(start, flag, inputs[..n], r);
      EntriesSince(inputs, r);
    }
  }

  lemma OnlyLayer(inputs: seq<Input>)
    requires inputs != []
    ensures AllEntries(inputs[|inputs| - 1..]) == LayerEntries(inputs[|inputs| - 1])
    ensures [] + LayerEntries(inputs[|inputs| - 1]) == LayerEntries(inputs[|inputs| - 1])
  {
    var n := |inputs| - 1;
    assert inputs[n..] == [] + [inputs[n]];
    AllEntriesLast([], inputs[n]);
  }

  lemma {:induction false} FoldKeepsFlags(start: Option<ConfigList>, inputs: seq<Input>)
    ensures var list := Base(FoldList(start, inputs));
      && list.append == Sticky(StartFlag(start), inputs)
      && list.inheritedDefault == (LastReset(StartFlag(start), inputs) < 0 && Base(start).inheritedDefault)
  {
    if inputs != [] {
      FoldKeepsFlags(start, inputs[..|inputs| - 1]);
      assert inputs[..|inputs| - 1 + 1] == inputs;
    }
  }

  lemma {:induction false} FoldIsRunning(start: Option<ConfigList>, inputs: seq<Input>)
    requires WellFormed(Base(start)) && InputsFit(inputs)
    ensures WellFormed(Base(FoldList(start, inputs)))
    ensures Entries(Base(FoldList(start, inputs))) == Running(Entries(Base(start)), StartFlag(start), inputs)
  {
    if inputs != [] {
      var n := |inputs| - 1;
      var last := inputs[n];
      FoldIsRunning(start, inputs[..n]);
      FoldKeepsFlags(start, inputs[..n]);
      assert inputs[..n + 1] == inputs;
      var before := Base(FoldList(start, inputs[..n]));
      if last.layer.Some? {
        OverlaidEntries(before, last.layer.value, last.source);
        assert Resets(StartFlag(start), inputs, n) <==> NewFlag(before.append, last.layer.value) != Some(true);
      } else {
        assert LayerEntries(last) == [] && Entries(before) + [] == Entries(before);
      }
    }
  }

  /**
   Folding any layers gives the entries since the last reset, layer after layer: each value with the source it came
   from, marked exactly as it was in its own layer. Before the first reset the starting list is kept.
   */
  lemma FoldIsConcatenation(start: Option<ConfigList>, inputs: seq<Input>)
    requires WellFormed(Base(start)) && InputsFit(inputs)
    ensures var r := LastReset(StartFlag(start), inputs); var list := Base(FoldList(start, inputs));
      && WellFormed(list)
      && Entries(list) == (if r < 0 then Entries(Base(start)) + AllEntries(inputs) else AllEntries(inputs[r..]))
      && list.append == Sticky(StartFlag(start), inputs)
      && list.inheritedDefault == (r < 0 && Base(start).inheritedDefault)
  {
    FoldKeepsFlags(start, inputs);
    FoldIsRunning(start, inputs);
    var r := LastReset(StartFlag(start), inputs);
    if r < 0 {
      RunningKeepsAll(Entries(Base(start)), StartFlag(start), inputs);
    } else {
      RunningSinceReset(Entries(Base(start)), StartFlag(start), inputs, r);
    }
  }

  // --- The redacted form ---

  function RedactedBase(previous: Option<ConfigRedactedList>): ConfigRedactedList {
    if previous.Some? then previous.value else ConfigRedactedList(0, "", None, true)
  }

  method MergeRedacted(previous: Option<ConfigRedactedList>, layer: Option<ListLayer>, source: string)
    returns (r: Option<ConfigRedactedList>)
    ensures r == MergedRedacted(previous, layer, source)
  {
    if previous.None? && layer.None? { return None; }
    var out := ConfigRedactedList(0, "", None, true);
    if previous.Some? {
      out := previous.value;
    }
    if layer.Some? {
      var l := layer.value;
      if l.append.Some? {
        out := out.(append := l.append);
      }
      if out.append.None? || !out.append.value {
        out := out.(count := 0, inheritedDefault := false);
      }
      out := out.(count := out.count + |l.values|, sourceID := source);
    }
    return Some(out);
  }

  function MergedRedacted(previous: Option<ConfigRedactedList>, layer: Option<ListLayer>,
                          source: string): Option<ConfigRedactedList> {
    if layer.None? then previous
    else
      var base := RedactedBase(previous);
      var flag := NewFlag(base.append, layer.value);
      Some(ConfigRedactedList((if flag == Some(true) then base.count else 0) + |layer.value.values|, source, flag,
                              flag == Some(true) && base.inheritedDefault))
  }

  function FoldRedacted(start: Option<ConfigRedactedList>, inputs: seq<Input>): Option<ConfigRedactedList> {
    if inputs == [] then start
    else
      var last := inputs[|inputs| - 1];
      MergedRedacted(FoldRedacted(start, inputs[..|inputs| - 1]), last.layer, last.source)
  }

  /** What redaction keeps of a list. */
  function Redacted(list: Option<ConfigList>): Option<ConfigRedactedList> {
    if list.None? then None
    else Some(ConfigRedactedList(|list.value.values|, list.value.sourceID, list.value.append,
                                 list.value.inheritedDefault))
  }

  /** Redacting the folded list and folding redacted lists come to the same. */
  lemma {:induction false} RedactionCommutes(start: Option<ConfigList>, inputs: seq<Input>)
    ensures FoldRedacted(Redacted(start), inputs) == Redacted(FoldList(start, inputs))
  {
    if inputs != [] {
      RedactionCommutes(start, inputs[..|inputs| - 1]);
    }
  }

  // --- The whole engine ---

  function MergedString(previous: Option<ConfigString>, value: Option<string>, source: string): Option<ConfigString> {
    if value.Some? then Some(ConfigString(false, value.value, source)) else previous
  }

  method MergeString(previous: Option<ConfigString>, value: Option<string>, source: string)
    returns (r: Option<ConfigString>)
    ensures r == MergedString(previous, value, source)
  {
    if value.Some? { return Some(ConfigString(false, value.value, source)); }
    if previous.Some? { return Some(previous.value); }
    return None;
  }

  /** The setting of a configuration after a layer, field by field. */
  ghost predicate IsMerge(out: EngineConfiguration, previous: EngineConfiguration, layer: EngineLayer, source: string) {
    && out.runtime == MergedString(previous.runtime, layer.runtime, source)
    && out.cgroupManager == (if layer.cgroupManager.Some?
                             then Some(ConfigString(layer.cgroupManagerInvalid, layer.cgroupManager.value, source))
                             else previous.cgroupManager)
    && out.conmonPath == Merged(previous.conmonPath, layer.conmonPath, source)
    && out.helperBinariesDir == Merged(previous.helperBinariesDir, layer.helperBinariesDir, source)
    && out.runtimePath == Merged(previous.runtimePath, layer.runtimePath, source)
    && out.environment == MergedRedacted(previous.environment, layer.environment, source)
    && out.selectionOverrides == (previous.selectionOverrides || layer.selectionOverrides)
    && out.unprojectedFieldCount == previous.unprojectedFieldCount + layer.unprojectedFieldCount
    && RuntimesMerged(out.runtimes, previous.runtimes, layer.runtimes, source)
  }

  /** A runtime named by the layer is replaced as a whole; the others stay. */
  ghost predicate RuntimesMerged(out: map<string, ConfigList>, previous: map<string, ConfigList>,
                                 layer: map<string, ListLayer>, source: string) {
    && out.Keys == previous.Keys + layer.Keys
    && (forall name :: name in layer ==> Some(out[name]) == Merged(None, Some(layer[name]), source))
    && (forall name :: name in previous && name !in layer ==> out[name] == previous[name])
  }

  method MergeEngine(previous: EngineConfiguration, layer: EngineLayer, source: string)
    returns (out: EngineConfiguration)
    ensures IsMerge(out, previous, layer, source)
  {
    out := previous;
    var runtime := MergeString(previous.runtime, layer.runtime, source);
    var cgroupManager := MergeString(previous.cgroupManager, layer.cgroupManager, source);
    out := out.(runtime := runtime, cgroupManager := cgroupManager);
    if layer.cgroupManager.Some? {
      out := out.(cgroupManager := Some(out.cgroupManager.value.(invalid := layer.cgroupManagerInvalid)));
    }
    var conmonPath := MergeList(previous.conmonPath, layer.conmonPath, source);
    var helperBinariesDir := MergeList(previous.helperBinariesDir, layer.helperBinariesDir, source);
    var runtimePath := MergeList(previous.runtimePath, layer.runtimePath, source);
    var runtimes := MergeRuntimes(previous.runtimes, layer.runtimes, source);
    var environment := MergeRedacted(previous.environment, layer.environment, source);
    out := out.(conmonPath := conmonPath, helperBinariesDir := helperBinariesDir, runtimePath := runtimePath,
                runtimes := runtimes, environment := environment,
                selectionOverrides := previous.selectionOverrides || layer.selectionOverrides,
                unprojectedFieldCount := out.unprojectedFieldCount + layer.unprojectedFieldCount);
  }

  /** The first pass, in any order: the lists are kept as they are. */
  method CopyLists(previous: map<string, ConfigList>, source: string) returns (out: map<string, ConfigList>)
    ensures out == previous
  {
    out := map[];
    var rest := previous.Keys;
    while rest != {}
      invariant rest <= previous.Keys && out.Keys == previous.Keys - rest
      invariant forall name :: name in out ==> out[name] == previous[name]
    {
      var name :| name in rest;
      var copy := MergeList(Some(previous[name]), None, source);
      out := out[name := copy.value];
      rest := rest - {name};
    }
  }

  /** The second pass, in any order. */
  method MergeRuntimes(previous: map<string, ConfigList>, layer: map<string, ListLayer>, source: string)
    returns (out: map<string, ConfigList>)
    ensures RuntimesMerged(out, previous, layer, source)
  {
    out := CopyLists(previous, source);
    var rest := layer.Keys;
    while rest != {}
      invariant rest <= layer.Keys && out.Keys == previous.Keys + (layer.Keys - rest)
      invariant forall name :: name in layer && name !in rest ==>
        Some(out[name]) == Merged(None, Some(layer[name]), source)
      invariant forall name :: name in previous && (name !in layer || name in rest) ==> out[name] == previous[name]
    {
      var name :| name in rest;
      var list := MergeList(None, Some(layer[name]), source);
      out := out[name := list.value];
      rest := rest - {name};
    }
  }

  // --- Many engine layers ---

  datatype Document = Document(layer: EngineLayer, source: string)

  /** `out` is what merging the documents in order makes of `start`. */
  ghost predicate IsFold(out: EngineConfiguration, start: EngineConfiguration, docs: seq<Document>)
    decreases |docs|, 0
  {
    if docs == [] then out == start else exists middle :: FoldsThrough(out, middle, start, docs)
  }

  ghost predicate FoldsThrough(out: EngineConfiguration, middle: EngineConfiguration, start: EngineConfiguration,
                               docs: seq<Document>)
    requires docs != []
    decreases |docs| - 1, 1
  {
    var last := docs[|docs| - 1];
    IsFold(middle, start, docs[..|docs| - 1]) && IsMerge(out, middle, last.layer, last.source)
  }

  function ConmonInputs(docs: seq<Document>): (r: seq<Input>)
    ensures |r| == |docs|
  {
    seq(|docs|, k requires 0 <= k < |docs| => Input(docs[k].layer.conmonPath, docs[k].source))
  }

  function HelperInputs(docs: seq<Document>): (r: seq<Input>)
    ensures |r| == |docs|
  {
    seq(|docs|, k requires 0 <= k < |docs| => Input(docs[k].layer.helperBinariesDir, docs[k].source))
  }

  function RuntimePathInputs(docs: seq<Document>): (r: seq<Input>)
    ensures |r| == |docs|
  {
    seq(|docs|, k requires 0 <= k < |docs| => Input(docs[k].layer.runtimePath, docs[k].source))
  }

  function EnvironmentInputs(docs: seq<Document>): (r: seq<Input>)
    ensures |r| == |docs|
  {
    seq(|docs|, k requires 0 <= k < |docs| => Input(docs[k].layer.environment, docs[k].source))
  }

  /** The last runtime that a document sets. */
  function LastRuntime(start: Option<ConfigString>, docs: seq<Document>): Option<ConfigString> {
    if docs == [] then start
    else if docs[|docs| - 1].layer.runtime.Some? then
      Some(ConfigString(false, docs[|docs| - 1].layer.runtime.value, docs[|docs| - 1].source))
    else LastRuntime(start, docs[..|docs| - 1])
  }

  /** The last cgroup manager that a document sets, with the mark of that document. */
  function LastCgroupManager(start: Option<ConfigString>, docs: seq<Document>): Option<ConfigString> {
    if docs == [] then start
    else
      var last := docs[|docs| - 1];
      if last.layer.cgroupManager.Some? then
        Some(ConfigString(last.layer.cgroupManagerInvalid, last.layer.cgroupManager.value, last.source))
      else LastCgroupManager(start, docs[..|docs| - 1])
  }

  function UnprojectedCount(docs: seq<Document>): int {
    if docs == [] then 0 else UnprojectedCount(docs[..|docs| - 1]) + docs[|docs| - 1].layer.unprojectedFieldCount
  }

  /** The last document that names a runtime, or -1. */
  function LastNaming(docs: seq<Document>, name: string): (k: int)
    ensures -1 <= k < |docs| && (k >= 0 ==> name in docs[k].layer.runtimes)
  {
    if docs == [] then -1
    else if name in docs[|docs| - 1].layer.runtimes then |docs| - 1
    else LastNaming(docs[..|docs| - 1], name)
  }

  /** After any documents each list is the fold of its own layers, and the environment of its redacted ones. */
  lemma {:induction false} ListsFold(out: EngineConfiguration, start: EngineConfiguration, docs: seq<Document>)
    requires IsFold(out, start, docs)
    ensures out.conmonPath == FoldList(start.conmonPath, ConmonInputs(docs))
    ensures out.helperBinariesDir == FoldList(start.helperBinariesDir, HelperInputs(docs))
    ensures out.runtimePath == FoldList(start.runtimePath, RuntimePathInputs(docs))
    ensures out.environment == FoldRedacted(start.environment, EnvironmentInputs(docs))
    decreases |docs|
  {
    if docs != [] {
      var n := |docs| - 1;
      var middle :| FoldsThrough(out, middle, start, docs);
      ListsFold(middle, start, docs[..n]);
      assert ConmonInputs(docs)[..n] == ConmonInputs(docs[..n]);
      assert HelperInputs(docs)[..n] == HelperInputs(docs[..n]);
      assert RuntimePathInputs(docs)[..n] == RuntimePathInputs(docs[..n]);
      assert EnvironmentInputs(docs)[..n] == EnvironmentInputs(docs[..n]);
    }
  }

  ghost predicate AnyOverride(docs: seq<Document>) {
    docs != [] && (AnyOverride(docs[..|docs| - 1]) || docs[|docs| - 1].layer.selectionOverrides)
  }

  /** Runtime and cgroup manager are the last ones set, an override once seen is kept, and counts add up. */
  lemma {:induction false} ScalarsFold(out: EngineConfiguration, start: EngineConfiguration, docs: seq<Document>)
    requires IsFold(out, start, docs)
    ensures out.runtime == LastRuntime(start.runtime, docs)
    ensures out.cgroupManager == LastCgroupManager(start.cgroupManager, docs)
    ensures out.selectionOverrides <==> start.selectionOverrides || AnyOverride(docs)
    ensures out.unprojectedFieldCount == start.unprojectedFieldCount + UnprojectedCount(docs)
    decreases |docs|
  {
    if docs != [] {
      var middle :| FoldsThrough(out, middle, start, docs);
      ScalarsFold(middle, start, docs[..|docs| - 1]);
    }
  }

  /** A named runtime is the last document's own list, never a concatenation. */
  lemma {:induction false} RuntimesFold(out: EngineConfiguration, start: EngineConfiguration, docs: seq<Document>,
                                        name: string)
    requires IsFold(out, start, docs)
    ensures var k := LastNaming(docs, name);
      if k >= 0 then
        && name in out.runtimes
        && Some(out.runtimes[name]) == Merged(None, Some(docs[k].layer.runtimes[name]), docs[k].source)
      else
        && (name in out.runtimes <==> name in start.runtimes)
        && (name in out.runtimes ==> out.runtimes[name] == start.runtimes[name])
    decreases |docs|
  {
    if docs != [] {
      var front, last := docs[..|docs| - 1], docs[|docs| - 1];
      var middle :| FoldsThrough(out, middle, start, docs);
      RuntimesFold(middle, start, front, name);
    }
  }

  // --- The collector ---

  /** One configuration source as the collector meets it: there is nothing to apply, it fails, or it parses. */
  datatype SourceFile<D> = Absent | Failing | Parsed(doc: D)

  predicate AllUsable<D>(files: seq<SourceFile<D>>) {
    forall k :: 0 <= k < |files| ==> !files[k].Failing?
  }

  /** The documents before the first failing source, in order. */
  function Applied<D>(files: seq<SourceFile<D>>): seq<D> {
    if files == [] then []
    else
      var front, last := files[..|files| - 1], files[|files| - 1];
      if last.Parsed? && AllUsable(front) then Applied(front) + [last.doc] else Applied(front)
  }

  lemma OneMoreFile<D>(files: seq<SourceFile<D>>, f: SourceFile<D>)
    ensures AllUsable(files + [f]) <==> AllUsable(files) && !f.Failing?
    ensures Applied(files + [f]) == if f.Parsed? && AllUsable(files) then Applied(files) + [f.doc] else Applied(files)
  {
    var all := files + [f];
    assert all[..|all| - 1] == files && all[|files|] == f;
    assert forall k :: 0 <= k < |files| ==> all[k] == files[k];
  }

  lemma OneMoreDocument(out: EngineConfiguration, middle: EngineConfiguration, start: EngineConfiguration,
                        docs: seq<Document>, doc: Document)
    requires IsFold(middle, start, docs) && IsMerge(out, middle, doc.layer, doc.source)
    ensures IsFold(out, start, docs + [doc])
  {
    assert (docs + [doc])[..|docs|] == docs;
    assert FoldsThrough(out, middle, start, docs + [doc]);
  }

  /** The part of engineCollector that decides which documents count. */
  class EngineCollector {
    var engine: EngineConfiguration
    var applicable: bool
    ghost const start: EngineConfiguration
    ghost const selected: bool
    ghost var files: seq<SourceFile<Document>>

    /** The configuration is the fold of the documents that came before any failure. */
    ghost predicate Valid()
      reads this
    {
      applicable == (selected && AllUsable(files)) && IsFold(engine, start, if selected then Applied(files) else [])
    }

    /** `selected` says whether the sources are known to be the ones that apply. */
    constructor (start: EngineConfiguration, selected: bool)
      ensures Valid() && files == [] && this.start == start && this.selected == selected
    {
      engine, applicable, this.start, this.selected, files := start, selected, start, selected, [];
    }

    /** `applied` is what the source records of itself. */
    method File(f: SourceFile<Document>) returns (applied: bool)
      requires Valid()
      modifies this
      ensures Valid() && files == old(files) + [f]
      ensures applied <==> f.Parsed? && selected && AllUsable(old(files))
    {
      OneMoreFile(files, f);
      applied := false;
      if f.Failing? {
        applicable := false;
      } else if f.Parsed? && applicable {
        ghost var before := engine;
        engine := MergeEngine(engine, f.doc.layer, f.doc.source);
        applied := true;
        OneMoreDocument(engine, before, start, Applied(files), f.doc);
      }
      files := files + [f];
    }
  }
}
