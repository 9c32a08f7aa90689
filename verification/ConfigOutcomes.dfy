/**
 What a stack of configuration documents amounts to, field by field and document by document: the last document that
 sets a field decides it, lists are kept since the last document that starts them anew, and counts add up.
 */
module ConfigOutcomes {
  import opened Options
  import opened Seqs
  import opened Text
  import opened EngineConfig
  import opened NetworkConfig

  // --- The last of many ---

  /** `k` is the last position whose element has something, or -1 when none has. */
  ghost predicate IsLatest<D(!new)>(s: seq<D>, has: D -> bool, k: int) {
    && -1 <= k < |s| && (k >= 0 ==> has(s[k]))
    && forall j :: k < j < |s| ==> !has(s[j])
  }

  /** A value that is overwritten by every element that has something ends as what the last of them says. */
  ghost function Overwritten<D(!new), V>(start: V, s: seq<D>, has: D -> bool, says: D -> V): V {
    if s == [] then start
    else if has(s[|s| - 1]) then says(s[|s| - 1])
    else Overwritten(start, s[..|s| - 1], has, says)
  }

  lemma {:induction false} LastSays<D(!new), V>(start: V, s: seq<D>, has: D -> bool, says: D -> V, k: int)
    requires IsLatest(s, has, k)
    ensures Overwritten(start, s, has, says) == if k < 0 then start else says(s[k])
  {
    if s != [] && !has(s[|s| - 1]) {
      LastSays(start, s[..|s| - 1], has, says, k);
    }
  }

  // --- Lists ---

  predicate SetsAppend(input: Input) {
    input.layer.Some? && input.layer.value.append.Some?
  }

  /** After the first `n` layers appending is on: the last layer that says so, or else the start, switched it on. */
  ghost predicate AppendIsOn(flag: Option<bool>, inputs: seq<Input>, n: nat)
    requires n <= |inputs|
  {
    || (exists k :: 0 <= k < n && inputs[k].layer.Some? && inputs[k].layer.value.append == Some(true)
                    && forall j :: k < j < n ==> !SetsAppend(inputs[j]))
    || (flag == Some(true) && forall j :: 0 <= j < n ==> !SetsAppend(inputs[j]))
  }

  lemma {:induction false} StickyMeans(flag: Option<bool>, inputs: seq<Input>)
    ensures Sticky(flag, inputs) == Some(true) <==> AppendIsOn(flag, inputs, |inputs|)
    ensures Sticky(flag, inputs) == None <==> flag == None && forall j :: 0 <= j < |inputs| ==> !SetsAppend(inputs[j])
  {
    if inputs != [] {
      var n := |inputs| - 1;
      StickyMeans(flag, inputs[..n]);
      AppendStep(flag, inputs);
      assert forall j :: 0 <= j < n ==> inputs[..n][j] == inputs[j];
    }
  }

  lemma AppendStep(flag: Option<bool>, inputs: seq<Input>)
    requires inputs != []
    ensures var n := |inputs| - 1;
      AppendIsOn(flag, inputs, n + 1) <==>
      if SetsAppend(inputs[n]) then inputs[n].layer.value.append == Some(true) else AppendIsOn(flag, inputs[..n], n)
  {
    var n := |inputs| - 1;
    forall j | 0 <= j < n ensures inputs[..n][j] == inputs[j] {}
    if SetsAppend(inputs[n]) && inputs[n].layer.value.append == Some(true) {
      assert AppendIsOn(flag, inputs, n + 1);
    }
    if !SetsAppend(inputs[n]) {
      if k :| 0 <= k < n && inputs[..n][k].layer.Some? && inputs[..n][k].layer.value.append == Some(true)
              && forall j :: k < j < n ==> !SetsAppend(inputs[..n][j]) {
        forall j | k < j < n + 1 ensures !SetsAppend(inputs[j]) {
          if j < n {
            assert !SetsAppend(inputs[..n][j]);
          }
        }
        assert inputs[k].layer.Some? && inputs[k].layer.value.append == Some(true);
      }
    }
  }

  /** A present layer starts the list anew unless appending is on after it. */
  lemma RestartMeans(flag: Option<bool>, inputs: seq<Input>, k: nat)
    requires k < |inputs|
    ensures Resets(flag, inputs, k) <==> inputs[k].layer.Some? && !AppendIsOn(flag, inputs, k + 1)
  {
    var first := inputs[..k + 1];
    StickyMeans(flag, first);
    assert forall j :: 0 <= j <= k ==> first[j] == inputs[j];
  }

  ghost predicate StartsAnew(flag: Option<bool>, inputs: seq<Input>, k: int) {
    0 <= k < |inputs| && inputs[k].layer.Some? && !AppendIsOn(flag, inputs, k + 1)
  }

  /** What the list `from` holds before the layers that are kept. */
  function KeptStart(start: Option<ConfigList>, r: int): seq<Entry>
    requires WellFormed(Base(start))
  {
    if r < 0 then Entries(Base(start)) else []
  }

  /**
   A list after any layers: the entries of the layers since the last that starts it anew, behind the starting list when
   none does; each value with its source and its own marks.
   */
  lemma ListMeans(start: Option<ConfigList>, inputs: seq<Input>) returns (r: int)
    requires WellFormed(Base(start)) && InputsFit(inputs)
    ensures -1 <= r < |inputs| && (r >= 0 ==> StartsAnew(StartFlag(start), inputs, r))
    ensures forall k :: r < k < |inputs| ==> !StartsAnew(StartFlag(start), inputs, k)
    ensures WellFormed(Base(FoldList(start, inputs)))
    ensures var list := Base(FoldList(start, inputs));
      && Entries(list) == KeptStart(start, r) + AllEntries(inputs[if r < 0 then 0 else r..])
      && list.inheritedDefault == (r < 0 && Base(start).inheritedDefault)
      && (list.append == Some(true) <==> AppendIsOn(StartFlag(start), inputs, |inputs|))
    ensures start == None ==> KeptStart(start, r) == [] && (Base(FoldList(start, inputs)).inheritedDefault <==> r < 0)
  {
    var flag := StartFlag(start);
    r := LastReset(flag, inputs);
    FoldIsConcatenation(start, inputs);
    LastResetIsLast(flag, inputs);
    StickyMeans(flag, inputs);
    forall k | 0 <= k < |inputs| ensures Resets(flag, inputs, k) <==> StartsAnew(flag, inputs, k) {
      RestartMeans(flag, inputs, k);
    }
    assert inputs[0..] == inputs;
    assert r >= 0 ==> [] + AllEntries(inputs[r..]) == AllEntries(inputs[r..]);
  }

  /** A list is there when it was at the start or some layer is present; its source is that of the last such layer. */
  lemma {:induction false} ListSourceMeans(start: Option<ConfigList>, inputs: seq<Input>, k: int)
    requires IsLatest(inputs, (i: Input) => i.layer.Some?, k)
    ensures if k < 0 then FoldList(start, inputs) == start
            else FoldList(start, inputs).Some? && FoldList(start, inputs).value.sourceID == inputs[k].source
  {
    if inputs != [] && inputs[|inputs| - 1].layer.None? {
      ListSourceMeans(start, inputs[..|inputs| - 1], k);
    }
  }

  // --- Fields of the engine ---

  ghost function SetsRuntime(): Document -> bool { (d: Document) => d.layer.runtime.Some? }

  ghost function SetsCgroupManager(): Document -> bool { (d: Document) => d.layer.cgroupManager.Some? }

  ghost function NamesRuntime(name: string): Document -> bool { (d: Document) => name in d.layer.runtimes }

  ghost function RuntimeSaid(): Document -> Option<ConfigString> {
    (d: Document) => if d.layer.runtime.Some? then Some(ConfigString(false, d.layer.runtime.value, d.source)) else None
  }

  ghost function CgroupManagerSaid(): Document -> Option<ConfigString> {
    (d: Document) => if d.layer.cgroupManager.Some?
      then Some(ConfigString(d.layer.cgroupManagerInvalid, d.layer.cgroupManager.value, d.source)) else None
  }

  lemma {:induction false} ScalarsAreOverwritten(start: EngineConfiguration, docs: seq<Document>)
    ensures LastRuntime(start.runtime, docs) == Overwritten(start.runtime, docs, SetsRuntime(), RuntimeSaid())
    ensures LastCgroupManager(start.cgroupManager, docs) ==
      Overwritten(start.cgroupManager, docs, SetsCgroupManager(), CgroupManagerSaid())
  {
    if docs != [] {
      ScalarsAreOverwritten(start, docs[..|docs| - 1]);
    }
  }

  /** The runtime is that of the last document that sets one. */
  lemma RuntimeMeans(out: EngineConfiguration, start: EngineConfiguration, docs: seq<Document>, k: int)
    requires IsFold(out, start, docs) && IsLatest(docs, SetsRuntime(), k)
    ensures out.runtime == if k < 0 then start.runtime
                           else Some(ConfigString(false, docs[k].layer.runtime.value, docs[k].source))
  {
    ScalarsFold(out, start, docs);
    ScalarsAreOverwritten(start, docs);
    LastSays(start.runtime, docs, SetsRuntime(), RuntimeSaid(), k);
  }

  /** The cgroup manager is that of the last document that sets one, valid or not. */
  lemma CgroupManagerMeans(out: EngineConfiguration, start: EngineConfiguration, docs: seq<Document>, k: int)
    requires IsFold(out, start, docs) && IsLatest(docs, SetsCgroupManager(), k)
    ensures out.cgroupManager ==
      if k < 0 then start.cgroupManager
      else Some(ConfigString(docs[k].layer.cgroupManagerInvalid, docs[k].layer.cgroupManager.value, docs[k].source))
  {
    ScalarsFold(out, start, docs);
    ScalarsAreOverwritten(start, docs);
    LastSays(start.cgroupManager, docs, SetsCgroupManager(), CgroupManagerSaid(), k);
  }

  function UnprojectedOf(d: Document): int { d.layer.unprojectedFieldCount }

  /** An override in any document counts, and fields outside the model add up. */
  lemma {:induction false} CountsMean(out: EngineConfiguration, start: EngineConfiguration, docs: seq<Document>)
    requires IsFold(out, start, docs)
    ensures out.selectionOverrides <==>
      start.selectionOverrides || exists k :: 0 <= k < |docs| && docs[k].layer.selectionOverrides
    ensures out.unprojectedFieldCount == start.unprojectedFieldCount + SumBy(docs, UnprojectedOf)
    decreases |docs|
  {
    if docs != [] {
      var front, last := docs[..|docs| - 1], docs[|docs| - 1];
      var middle :| FoldsThrough(out, middle, start, docs);
      CountsMean(middle, start, front);
      assert docs == front + [last];
      SumByConcat(front, [last], UnprojectedOf);
      assert [last][1..] == [];
    }
  }

  /** A named runtime has exactly the values of the last document that names it, all from there. */
  lemma NamedRuntimeMeans(out: EngineConfiguration, start: EngineConfiguration, docs: seq<Document>, name: string,
                          k: nat)
    requires IsFold(out, start, docs) && IsLatest(docs, NamesRuntime(name), k)
    ensures name in out.runtimes
    ensures var list, layer := out.runtimes[name], docs[k].layer.runtimes[name];
      && list.values == layer.values && list.append == layer.append && list.sourceID == docs[k].source
      && list.invalidIndices == layer.invalidIndices && list.unmodeledIndices == layer.unmodeledIndices
      && |list.origins| == |list.values|
      && (forall i :: 0 <= i < |list.origins| ==> list.origins[i] == docs[k].source)
      && (list.inheritedDefault <==> layer.append == Some(true))
  {
    RuntimesFold(out, start, docs, name);
    LatestNaming(docs, name, k);
    var layer := docs[k].layer.runtimes[name];
    assert Shifted(layer.invalidIndices, 0) == layer.invalidIndices;
    assert Shifted(layer.unmodeledIndices, 0) == layer.unmodeledIndices;
  }

  lemma {:induction false} LatestNaming(docs: seq<Document>, name: string, k: int)
    requires IsLatest(docs, NamesRuntime(name), k)
    ensures LastNaming(docs, name) == k
  {
    if docs != [] && name !in docs[|docs| - 1].layer.runtimes {
      LatestNaming(docs[..|docs| - 1], name, k);
    }
  }

  /** A runtime that no document names is the one of the start. */
  lemma UnnamedRuntimeMeans(out: EngineConfiguration, start: EngineConfiguration, docs: seq<Document>, name: string)
    requires IsFold(out, start, docs) && IsLatest(docs, NamesRuntime(name), -1)
    ensures name in out.runtimes <==> name in start.runtimes
    ensures name in out.runtimes ==> out.runtimes[name] == start.runtimes[name]
  {
    RuntimesFold(out, start, docs, name);
    LatestNaming(docs, name, -1);
  }

  // --- Fields of the network ---

  ghost function SetsString(key: string): NetworkDocument -> bool { (d: NetworkDocument) => key in d.layer.strings }

  ghost function SetsPort(): NetworkDocument -> bool { (d: NetworkDocument) => d.layer.dnsBindPort.Some? }

  ghost function StringSaid(key: string): NetworkDocument -> Option<ConfigString> {
    (d: NetworkDocument) => if key in d.layer.strings
      then Some(ConfigString(d.layer.strings[key].invalid, d.layer.strings[key].value, d.source)) else None
  }

  ghost function PortSaid(): NetworkDocument -> Option<ConfigUint> {
    (d: NetworkDocument) =>
      if d.layer.dnsBindPort.Some? then Some(ConfigUint(d.layer.dnsBindPort.value, d.source)) else None
  }

  lemma {:induction false} NetworkIsOverwritten(start: NetworkConfiguration, docs: seq<NetworkDocument>, key: string)
    ensures LastString(start.strings, docs, key) ==
      Overwritten(if key in start.strings then Some(start.strings[key]) else None, docs, SetsString(key),
                  StringSaid(key))
    ensures LastPort(start.dnsBindPort, docs) == Overwritten(start.dnsBindPort, docs, SetsPort(), PortSaid())
  {
    if docs != [] {
      NetworkIsOverwritten(start, docs[..|docs| - 1], key);
    }
  }

  /** A network string is that of the last document that sets it, with its mark and that document as its source. */
  lemma StringMeans(out: NetworkConfiguration, start: NetworkConfiguration, docs: seq<NetworkDocument>, key: string,
                    k: int)
    requires IsNetworkFold(out, start, docs) && IsLatest(docs, SetsString(key), k)
    ensures if k < 0 then
              && (key in out.strings <==> key in start.strings)
              && (key in out.strings ==> out.strings[key] == start.strings[key])
            else
              && key in out.strings
              && var said := docs[k].layer.strings[key];
                out.strings[key] == ConfigString(said.invalid, said.value, docs[k].source)
  {
    NetworkScalarsFold(out, start, docs, key);
    NetworkIsOverwritten(start, docs, key);
    LastSays(if key in start.strings then Some(start.strings[key]) else None, docs, SetsString(key), StringSaid(key),
             k);
    assert key in out.strings <==> Lookup(out.strings, key).Some?;
  }

  /** The port is that of the last document that sets one. */
  lemma PortMeans(out: NetworkConfiguration, start: NetworkConfiguration, docs: seq<NetworkDocument>, k: int)
    requires IsNetworkFold(out, start, docs) && IsLatest(docs, SetsPort(), k)
    ensures out.dnsBindPort ==
      if k < 0 then start.dnsBindPort else Some(ConfigUint(docs[k].layer.dnsBindPort.value, docs[k].source))
  {
    NetworkScalarsFold(out, start, docs, "");
    NetworkIsOverwritten(start, docs, "");
    LastSays(start.dnsBindPort, docs, SetsPort(), PortSaid(), k);
  }

  function NetworkUnprojectedOf(d: NetworkDocument): int { d.layer.unprojectedFieldCount }

  /** Fields outside the model add up, and merging any document drops the plans made before. */
  lemma {:induction false} NetworkCountsMean(out: NetworkConfiguration, start: NetworkConfiguration,
                                             docs: seq<NetworkDocument>)
    requires IsNetworkFold(out, start, docs)
    ensures out.unprojectedFieldCount == start.unprojectedFieldCount + SumBy(docs, NetworkUnprojectedOf)
    ensures docs != [] ==> out.helperPaths == map[] && out.engineSourceID == ""
    decreases |docs|
  {
    if docs != [] {
      var front, last := docs[..|docs| - 1], docs[|docs| - 1];
      var middle :| NetworkFoldsThrough(out, middle, start, docs);
      NetworkCountsMean(middle, start, front);
      assert docs == front + [last];
      SumByConcat(front, [last], NetworkUnprojectedOf);
      assert [last][1..] == [];
    }
  }

  // --- Network strings as they are parsed ---

  /**
   A choice that is not recognized is marked invalid and loses its text; a path or name that is not acceptable is
   refused; the firewall driver is ignored by old versions.
   */
  lemma ParsedStringMeans(field: string, text: string, modern: bool)
    ensures var kept, redacted := Field(ConfigString(false, text, "")), Field(ConfigString(true, "", ""));
      var r := ParseNetworkString(field, text, modern);
      && (field == "network.network_backend" ==>
            r == if text == "" || text == "netavark" || text == "cni" then kept else redacted)
      && (field == "network.default_rootless_network_cmd" ==>
            r == if text == "" || text == "pasta" || text == "slirp4netns" then kept else redacted)
      && (field == "network.firewall_driver" ==>
            r == if !modern then Ignored else if text == "" || IsDriverName(text) then kept else UnsupportedField)
      && (field == "network.network_config_dir" || field == "engine.network_cmd_path" ==>
            r == if text == "" || IsPlainPath(text) then kept else UnsupportedField)
  {
    PlainPathMeans(text);
    assert text != "" ==> (IsDriverName(text) <==> IsRuntimeName(text));
  }

  /** Letters, digits, underscores, dots, pluses and dashes. */
  predicate IsDriverName(s: string) {
    forall k :: 0 <= k < |s| ==>
      'a' <= s[k] <= 'z' || 'A' <= s[k] <= 'Z' || '0' <= s[k] <= '9' || s[k] == '_' || s[k] == '.' || s[k] == '+'
        || s[k] == '-'
  }

  /** An absolute path without variables, home directories and control characters, in ASCII or as two bytes of UTF-8. */
  predicate IsPlainPath(s: string) {
    s != "" && s[0] == '/' && forall k :: 0 <= k < |s| ==>
      && s[k] != '$' && s[k] != '~' && 32 <= s[k] as int && s[k] as int != 127
      && (s[k] as int == 194 && k + 1 < |s| ==> s[k + 1] as int < 128 || s[k + 1] as int > 159)
  }

  lemma PlainPathMeans(s: string)
    ensures IsPlainPath(s) <==> ConfigPath(s)
  {
    if ConfigPath(s) {
      forall k | 0 <= k < |s|
        ensures 32 <= s[k] as int && s[k] as int != 127
          && (s[k] as int == 194 && k + 1 < |s| ==> s[k + 1] as int < 128 || s[k + 1] as int > 159)
      {
        assert !ControlAt(s, k);
      }
    }
  }

  // --- Which documents count ---

  /** Documents count as long as no source has failed, in order; sources with nothing to apply add nothing. */
  lemma {:induction false} AppliedMeans<D>(before: seq<SourceFile<D>>, f: SourceFile<D>, more: seq<SourceFile<D>>)
    ensures Applied<D>([]) == []
    ensures AllUsable(before) && f.Parsed? ==> Applied(before + [f]) == Applied(before) + [f.doc]
    ensures AllUsable(before) && f.Absent? ==> Applied(before + [f]) == Applied(before)
    ensures f.Failing? ==> Applied(before + [f] + more) == Applied(before)
    decreases |more|
  {
    OneMoreFile(before, f);
    var all := before + [f] + more;
    if more == [] {
      assert all == before + [f];
    } else {
      var front, last := more[..|more| - 1], more[|more| - 1];
      AppliedMeans(before, f, front);
      assert all == before + [f] + front + [last];
      OneMoreFile(before + [f] + front, last);
      if f.Failing? {
        assert (before + [f] + front)[|before|] == f;
      }
    }
  }
}
