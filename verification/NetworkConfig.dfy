/**
 The network part of the configuration: internal/config/network.go, and the collector that applies it, of
 internal/runtime/podman/network_configuration.go.
 */
module NetworkConfig {
  import opened Options
  import opened Text
  import opened Paths
  import opened EngineConfig

  /** The helper roles; `OtherRole` stands for any other name. */
  datatype Role = Conmon | OCIRuntime | Netavark | AardvarkDNS | Pasta | Slirp | OtherRole(name: string)

  datatype ConfigUint = ConfigUint(value: nat, sourceID: string)

  datatype NetworkLayer = NetworkLayer(
    strings: map<string, ConfigString>, lists: map<string, ListLayer>, dnsBindPort: Option<nat>,
    pastaOptions: Option<ListLayer>,
    unprojectedFieldCount: int)

  datatype NetworkConfiguration = NetworkConfiguration(
    strings: map<string, ConfigString>, lists: map<string, ConfigList>, dnsBindPort: Option<ConfigUint>,
    pastaOptions: Option<ConfigRedactedList>, helperPaths: map<Role, ConfigList>, engineSourceID: string,
    unprojectedFieldCount: int)

  const NO_NETWORK := NetworkConfiguration(map[], map[], None, None, map[], "", 0)

  // --- One field ---

  datatype FieldResult = Field(value: ConfigString) | Ignored | UnsupportedField

  predicate ConfigPath(value: string) {
    IsAbs(value) && !HasControl(value) && forall k :: 0 <= k < |value| ==> value[k] != '$' && value[k] != '~'
  }

  predicate IsRuntimeName(s: string) {
    s != "" && forall k :: 0 <= k < |s| ==>
      'a' <= s[k] <= 'z' || 'A' <= s[k] <= 'Z' || '0' <= s[k] <= '9' || s[k] == '_' || s[k] == '.' || s[k] == '+'
        || s[k] == '-'
  }

  const NETWORK_CMD_PATH := "engine.network_cmd_path"

  /** parseNetworkString: an unrecognized choice leaves an invalid mark and no text. */
  function ParseNetworkString(field: string, text: string, modern: bool): FieldResult {
    if field == "network.firewall_driver" && !modern then Ignored
    else if field == "network.network_backend" then
      if text != "" && text != "netavark" && text != "cni" then Field(ConfigString(true, "", ""))
        else Field(ConfigString(false, text, ""))
    else if field == "network.default_rootless_network_cmd" then
      if text != "" && text != "pasta" && text != "slirp4netns" then Field(ConfigString(true, "", ""))
        else Field(ConfigString(false, text, ""))
    else if field == "network.firewall_driver" then
      if text != "" && !IsRuntimeName(text) then UnsupportedField else Field(ConfigString(false, text, ""))
    else if text != "" && !ConfigPath(text) then UnsupportedField
    else Field(ConfigString(false, text, ""))
  }

  /** No string that is marked invalid carries text. */
  ghost predicate StringsRedacted(strings: map<string, ConfigString>) {
    forall key :: key in strings ==> (strings[key].invalid ==> strings[key].value == "")
  }

  /** The strings that a document may set. */
  ghost predicate ParsedStrings(strings: map<string, ConfigString>, modern: bool) {
    forall key :: key in strings ==> exists text :: ParseNetworkString(key, text, modern) == Field(strings[key])
  }

  // --- One merge ---

  function Lookup<V>(m: map<string, V>, key: string): Option<V> {
    if key in m then Some(m[key]) else None
  }

  /** A configuration after a layer, field by field; plans and their engine are derived afresh after all merges. */
  ghost predicate IsNetworkMerge(out: NetworkConfiguration, previous: NetworkConfiguration, layer: NetworkLayer,
                                 source: string) {
    && out.helperPaths == map[] && out.engineSourceID == ""
    && StringsMerged(out.strings, previous.strings, layer.strings, source)
    && ListsMerged(out.lists, previous.lists, layer.lists, source)
    && out.dnsBindPort == (if layer.dnsBindPort.Some? then Some(ConfigUint(layer.dnsBindPort.value, source))
                           else previous.dnsBindPort)
    && out.pastaOptions == MergedRedacted(previous.pastaOptions, layer.pastaOptions, source)
    && out.unprojectedFieldCount == previous.unprojectedFieldCount + layer.unprojectedFieldCount
  }

  /** A string that the layer names is replaced, with its mark; the others stay. */
  ghost predicate StringsMerged(out: map<string, ConfigString>, previous: map<string, ConfigString>,
                                layer: map<string, ConfigString>,
                                source: string) {
    && out.Keys == previous.Keys + layer.Keys
    && (forall key :: key in layer ==> out[key] == layer[key].(sourceID := source))
    && (forall key :: key in previous && key !in layer ==> out[key] == previous[key])
  }

  /** A list that the layer names is overlaid like those of the engine; the others stay. */
  ghost predicate ListsMerged(out: map<string, ConfigList>, previous: map<string, ConfigList>,
                              layer: map<string, ListLayer>, source: string) {
    && out.Keys == previous.Keys + layer.Keys
    && forall key :: Lookup(out, key) == Merged(Lookup(previous, key), Lookup(layer, key), source)
  }

  method MergeNetwork(previous: NetworkConfiguration, layer: NetworkLayer, source: string)
    returns (out: NetworkConfiguration)
    ensures IsNetworkMerge(out, previous, layer, source)
  {
    out := previous.(helperPaths := map[], engineSourceID := "");
    var strings := MergeStrings(previous.strings, layer.strings, source);
    var lists := MergeLists(previous.lists, layer.lists, source);
    out := out.(strings := strings, lists := lists);
    if layer.dnsBindPort.Some? {
      out := out.(dnsBindPort := Some(ConfigUint(layer.dnsBindPort.value, source)));
    }
    var pasta := MergeRedacted(previous.pastaOptions, layer.pastaOptions, source);
    out := out.(pastaOptions := pasta,
                unprojectedFieldCount := out.unprojectedFieldCount + layer.unprojectedFieldCount);
  }

  /** The map is visited in any order. */
  method MergeStrings(previous: map<string, ConfigString>, layer: map<string, ConfigString>, source: string)
    returns (out: map<string, ConfigString>)
    ensures StringsMerged(out, previous, layer, source)
  {
    out := previous;
    var rest := layer.Keys;
    while rest != {}
      invariant rest <= layer.Keys && out.Keys == previous.Keys + (layer.Keys - rest)
      invariant forall key :: key in layer && key !in rest ==> out[key] == layer[key].(sourceID := source)
      invariant forall key :: key in previous && (key !in layer || key in rest) ==> out[key] == previous[key]
    {
      var key :| key in rest;
      out := out[key := layer[key].(sourceID := source)];
      rest := rest - {key};
    }
  }

  method MergeLists(previous: map<string, ConfigList>, layer: map<string, ListLayer>, source: string)
    returns (out: map<string, ConfigList>)
    ensures ListsMerged(out, previous, layer, source)
  {
    out := CopyLists(previous, source);
    var rest := layer.Keys;
    while rest != {}
      invariant rest <= layer.Keys && out.Keys == previous.Keys + (layer.Keys - rest)
      invariant forall key :: key in layer && key !in rest ==>
        Some(out[key]) == Merged(Lookup(previous, key), Some(layer[key]), source)
      invariant forall key :: key in previous && (key !in layer || key in rest) ==> out[key] == previous[key]
    {
      var key :| key in rest;
      var list := MergeList(Lookup(out, key), Some(layer[key]), source);
      out := out[key := list.value];
      rest := rest - {key};
    }
  }

  // --- Many documents ---

  datatype NetworkDocument = NetworkDocument(layer: NetworkLayer, source: string)

  ghost predicate IsNetworkFold(out: NetworkConfiguration, start: NetworkConfiguration, docs: seq<NetworkDocument>)
    decreases |docs|, 0
  {
    if docs == [] then out == start else exists middle :: NetworkFoldsThrough(out, middle, start, docs)
  }

  ghost predicate NetworkFoldsThrough(out: NetworkConfiguration, middle: NetworkConfiguration,
                                      start: NetworkConfiguration,
                                      docs: seq<NetworkDocument>)
    requires docs != []
    decreases |docs| - 1, 1
  {
    var last := docs[|docs| - 1];
    IsNetworkFold(middle, start, docs[..|docs| - 1]) && IsNetworkMerge(out, middle, last.layer, last.source)
  }

  /** The layers of one list. */
  function KeyInputs(docs: seq<NetworkDocument>, key: string): (r: seq<Input>)
    ensures |r| == |docs|
  {
    seq(|docs|, k requires 0 <= k < |docs| => Input(Lookup(docs[k].layer.lists, key), docs[k].source))
  }

  function PastaInputs(docs: seq<NetworkDocument>): (r: seq<Input>)
    ensures |r| == |docs|
  {
    seq(|docs|, k requires 0 <= k < |docs| => Input(docs[k].layer.pastaOptions, docs[k].source))
  }

  /** The last string that a document sets under a key. */
  function LastString(start: map<string, ConfigString>, docs: seq<NetworkDocument>, key: string): Option<ConfigString> {
    if docs == [] then Lookup(start, key)
    else
      var last := docs[|docs| - 1];
      if key in last.layer.strings then Some(last.layer.strings[key].(sourceID := last.source))
      else LastString(start, docs[..|docs| - 1], key)
  }

  function LastPort(start: Option<ConfigUint>, docs: seq<NetworkDocument>): Option<ConfigUint> {
    if docs == [] then start
    else
      var last := docs[|docs| - 1];
      if last.layer.dnsBindPort.Some? then Some(ConfigUint(last.layer.dnsBindPort.value, last.source))
      else LastPort(start, docs[..|docs| - 1])
  }

  /** After any documents each list is the fold of its own layers. */
  lemma {:induction false} NetworkListsFold(out: NetworkConfiguration, start: NetworkConfiguration,
                                            docs: seq<NetworkDocument>, key: string)
    requires IsNetworkFold(out, start, docs)
    ensures Lookup(out.lists, key) == FoldList(Lookup(start.lists, key), KeyInputs(docs, key))
    ensures out.pastaOptions == FoldRedacted(start.pastaOptions, PastaInputs(docs))
    decreases |docs|
  {
    if docs != [] {
      var n := |docs| - 1;
      var middle :| NetworkFoldsThrough(out, middle, start, docs);
      NetworkListsFold(middle, start, docs[..n], key);
      assert KeyInputs(docs, key)[..n] == KeyInputs(docs[..n], key);
      assert PastaInputs(docs)[..n] == PastaInputs(docs[..n]);
    }
  }

  /** After any documents each string, and the port, is the last one set. */
  lemma {:induction false} NetworkScalarsFold(out: NetworkConfiguration, start: NetworkConfiguration,
                                              docs: seq<NetworkDocument>, key: string)
    requires IsNetworkFold(out, start, docs)
    ensures Lookup(out.strings, key) == LastString(start.strings, docs, key)
    ensures out.dnsBindPort == LastPort(start.dnsBindPort, docs)
    decreases |docs|
  {
    if docs != [] {
      var middle :| NetworkFoldsThrough(out, middle, start, docs);
      NetworkScalarsFold(middle, start, docs[..|docs| - 1], key);
    }
  }

  /** Merging documents as they are parsed never leaves text in a string that is marked invalid. */
  lemma {:induction false} FoldKeepsRedaction(out: NetworkConfiguration, start: NetworkConfiguration,
                                              docs: seq<NetworkDocument>, modern: bool)
    requires IsNetworkFold(out, start, docs) && StringsRedacted(start.strings)
    requires forall k :: 0 <= k < |docs| ==> ParsedStrings(docs[k].layer.strings, modern)
    ensures StringsRedacted(out.strings)
    decreases |docs|
  {
    if docs != [] {
      var last := docs[|docs| - 1];
      var middle :| NetworkFoldsThrough(out, middle, start, docs);
      FoldKeepsRedaction(middle, start, docs[..|docs| - 1], modern);
      MergeKeepsRedaction(out.strings, middle.strings, last.layer.strings, last.source, modern);
    }
  }

  lemma MergeKeepsRedaction(out: map<string, ConfigString>, previous: map<string, ConfigString>,
                            layer: map<string, ConfigString>,
                            source: string, modern: bool)
    requires StringsMerged(out, previous, layer, source) && StringsRedacted(previous) && ParsedStrings(layer, modern)
    ensures StringsRedacted(out)
  {
    forall key | key in out && out[key].invalid ensures out[key].value == "" {
      if key in layer {
        var text :| ParseNetworkString(key, text, modern) == Field(layer[key]);
      }
    }
  }

  // --- The collector ---

  lemma OneMoreNetworkDocument(out: NetworkConfiguration, middle: NetworkConfiguration, start: NetworkConfiguration,
                               docs: seq<NetworkDocument>, doc: NetworkDocument)
    requires IsNetworkFold(middle, start, docs) && IsNetworkMerge(out, middle, doc.layer, doc.source)
    ensures IsNetworkFold(out, start, docs + [doc])
  {
    assert (docs + [doc])[..|docs|] == docs;
    assert NetworkFoldsThrough(out, middle, start, docs + [doc]);
  }

  /** The part of networkCollector that decides which documents count. */
  class NetworkCollector {
    var network: NetworkConfiguration
    var applicable: bool
    ghost const start: NetworkConfiguration
    ghost const selected: bool
    ghost var files: seq<SourceFile<NetworkDocument>>

    ghost predicate Valid()
      reads this
    {
      applicable == (selected && AllUsable(files))
        && IsNetworkFold(network, start, if selected then Applied(files) else [])
    }

    /** `selected` says whether the sources are known to be the ones that apply. */
    constructor (start: NetworkConfiguration, selected: bool)
      ensures Valid() && files == [] && this.start == start && this.selected == selected
    {
      network, applicable, this.start, this.selected, files := start, selected, start, selected, [];
    }

    method File(f: SourceFile<NetworkDocument>) returns (applied: bool)
      requires Valid()
      modifies this
      ensures Valid() && files == old(files) + [f]
      ensures applied <==> f.Parsed? && selected && AllUsable(old(files))
    {
      OneMoreFile(files, f);
      applied := false;
      if f.Failing? {
        applicable := false;
      } else if f.Parsed? && applicable {
        ghost var before := network;
        network := MergeNetwork(network, f.doc.layer, f.doc.source);
        applied := true;
        OneMoreNetworkDocument(network, before, start, Applied(files), f.doc);
      }
      files := files + [f];
    }
  }
}
