/**
 The search plans for helper programs, from both sides: internal/runtime/podman/network_configuration.go builds the
 network plans, and internal/capability/network_helpers.go recomputes them from the engine to check that a plan
 belongs to it.
 */
module HelperPlans {
  import opened Options
  import opened Paths
  import opened EngineConfig
  import opened NetworkConfig

  datatype ConfigurationSource = ConfigurationSource(selected: bool, status: string)

  datatype ConfigurationObservation = ConfigurationObservation(
    family: string, runtimePath: string, profile: string, selectionComplete: bool, parseComplete: bool,
    sources: seq<ConfigurationSource>, engine: Option<EngineConfiguration>, network: Option<NetworkConfiguration>)

  predicate Contains(s: string, part: string) {
    exists i :: 0 <= i <= |s| - |part| && Occurs(s, part, i)
  }

  predicate Occurs(s: string, part: string, i: nat)
    requires i + |part| <= |s|
  {
    s[i..i + |part|] == part
  }

  predicate NamesBinDir(directory: string) {
    Contains(directory, "$BINDIR")
  }

  predicate EnvironmentBlocks(engine: EngineConfiguration) {
    engine.environment.Some? && (engine.environment.value.count != 0 || engine.environment.value.inheritedDefault)
  }

  /** The program that a role looks for. */
  function Binary(role: Role): string {
    match role
    case Conmon => "conmon"
    case OCIRuntime => "oci_runtime"
    case Netavark => "netavark"
    case AardvarkDNS => "aardvark-dns"
    case Pasta => "pasta"
    case Slirp => "slirp4netns"
    case OtherRole(name) => name
  }

  predicate FallsBackToPath(role: Role) {
    role == Pasta || role == Slirp
  }

  predicate NetworkRole(role: Role) {
    role == Netavark || role == AardvarkDNS || role == Pasta || role == Slirp
  }

  /** The configured slirp4netns program, if one is set. */
  predicate CommandPathSet(network: NetworkConfiguration) {
    NETWORK_CMD_PATH in network.strings && network.strings[NETWORK_CMD_PATH].value != ""
  }

  // --- The producer ---

  /** How many leading directories name no binary directory of the build. */
  function PlainCount(dirs: seq<string>): (n: nat)
    ensures n <= |dirs|
    ensures forall k :: 0 <= k < n ==> !NamesBinDir(dirs[k])
    ensures n < |dirs| ==> NamesBinDir(dirs[n])
  {
    if dirs == [] || NamesBinDir(dirs[0]) then 0 else 1 + PlainCount(dirs[1..])
  }

  function OriginAt(dirs: ConfigList, k: nat): string {
    if k < |dirs.origins| then dirs.origins[k] else dirs.sourceID
  }

  function PlanValues(dirs: seq<string>, role: Role, n: nat): seq<string>
    requires n <= |dirs|
  {
    seq(n, k requires 0 <= k < n => JoinPath(dirs[k], Binary(role)))
  }

  lemma OneMoreName(dirs: seq<string>, role: Role, k: nat)
    requires k < |dirs|
    ensures PlanValues(dirs, role, k + 1) == PlanValues(dirs, role, k) + [JoinPath(dirs[k], Binary(role))]
  {
  }

  lemma OneMoreValue(dirs: ConfigList, role: Role, k: nat)
    requires k < |dirs.values|
    ensures PlanValues(dirs.values, role, k + 1) == PlanValues(dirs.values, role, k)
      + [JoinPath(dirs.values[k], Binary(role))]
    ensures PlanOrigins(dirs, k + 1) == PlanOrigins(dirs, k) + [OriginAt(dirs, k)]
  {
  }

  function PlanOrigins(dirs: ConfigList, n: nat): seq<string> {
    seq(n, k requires 0 <= k < n => OriginAt(dirs, k))
  }

  function PathValues(role: Role): seq<string> {
    if FallsBackToPath(role) then [JoinPath("/usr/bin", Binary(role)), JoinPath("/bin", Binary(role))] else []
  }

  /** The plan that the directories give for a role. */
  function DirectoryPlan(dirs: ConfigList, role: Role, source: string): ConfigList {
    var n := PlainCount(dirs.values);
    ConfigList([], [], PlanValues(dirs.values, role, n) + PathValues(role),
               PlanOrigins(dirs, n) + Copies(source, |PathValues(role)|),
               dirs.sourceID, None, n < |dirs.values|)
  }

  /** The plan of one role, if it has one. */
  function PlanOf(role: Role, engine: EngineConfiguration, network: NetworkConfiguration,
                  source: string): Option<ConfigList> {
    if role == Slirp && CommandPathSet(network) then
      var selected := network.strings[NETWORK_CMD_PATH];
      Some(ConfigList([], [], [selected.value], [selected.sourceID], selected.sourceID, None, false))
    else if engine.helperBinariesDir.None? || engine.helperBinariesDir.value.inheritedDefault then None
    else Some(DirectoryPlan(engine.helperBinariesDir.value, role, source))
  }

  predicate PlansAllowed(c: ConfigurationObservation, observed: bool) {
    && c.engine.Some? && c.selectionComplete && c.parseComplete && observed
    && !(c.engine.value.cgroupManager.Some? && c.engine.value.cgroupManager.value.invalid)
    && !EnvironmentBlocks(c.engine.value)
  }

  const NETWORK_ROLES: seq<Role> := [Netavark, AardvarkDNS, Pasta, Slirp]

  /** Every network role that can have a plan has that plan, if plans are allowed at all. */
  ghost predicate ArePlans(plans: map<Role, ConfigList>, c: ConfigurationObservation, observed: bool,
                           network: NetworkConfiguration, source: string) {
    if !PlansAllowed(c, observed) then plans == map[]
    else forall role ::
      && (role in plans <==> NetworkRole(role) && PlanOf(role, c.engine.value, network, source).Some?)
      && (role in plans ==> Some(plans[role]) == PlanOf(role, c.engine.value, network, source))
  }

  /** `observed` says that the engine observation is complete. */
  method NetworkHelperPaths(c: ConfigurationObservation, observed: bool, network: NetworkConfiguration, source: string)
    returns (plans: map<Role, ConfigList>)
    ensures ArePlans(plans, c, observed, network, source)
  {
    plans := map[];
    if !PlansAllowed(c, observed) { return; }
    var engine := c.engine.value;
    var k := 0;
    while k < |NETWORK_ROLES|
      invariant 0 <= k <= |NETWORK_ROLES|
      invariant forall role :: role in plans <==>
        role in NETWORK_ROLES[..k] && PlanOf(role, engine, network, source).Some?
      invariant forall role :: role in plans ==> Some(plans[role]) == PlanOf(role, engine, network, source)
    {
      var role := NETWORK_ROLES[k];
      assert NETWORK_ROLES[..k + 1] == NETWORK_ROLES[..k] + [role];
      k := k + 1;
      if role == Slirp && NETWORK_CMD_PATH in network.strings && network.strings[NETWORK_CMD_PATH].value != "" {
        var selected := network.strings[NETWORK_CMD_PATH];
        plans := plans[role := ConfigList([], [], [selected.value], [selected.sourceID], selected.sourceID, None,
                                          false)];
        continue;
      }
      if engine.helperBinariesDir.None? || engine.helperBinariesDir.value.inheritedDefault { continue; }
      var plan := PlanDirectories(engine.helperBinariesDir.value, role, source);
      plans := plans[role := plan];
    }
    assert NETWORK_ROLES[..k] == [Netavark, AardvarkDNS, Pasta, Slirp];
    assert forall role :: role in NETWORK_ROLES[..k] <==> NetworkRole(role);
  }

  method PlanDirectories(dirs: ConfigList, role: Role, source: string) returns (plan: ConfigList)
    ensures plan == DirectoryPlan(dirs, role, source)
  {
    var values, origins, inherited := WalkDirectories(dirs, role);
    if role == Pasta || role == Slirp {
      values := values + [JoinPath("/usr/bin", Binary(role))] + [JoinPath("/bin", Binary(role))];
      origins := origins + [source] + [source];
    }
    assert Copies(source, 2) == [source] + [source];
    plan := ConfigList([], [], values, origins, dirs.sourceID, None, inherited);
  }

  method WalkDirectories(dirs: ConfigList, role: Role)
    returns (values: seq<string>, origins: seq<string>, inherited: bool)
    ensures var n := PlainCount(dirs.values);
      values == PlanValues(dirs.values, role, n) && origins == PlanOrigins(dirs, n) && inherited == (n < |dirs.values|)
  {
    values, origins, inherited := [], [], false;
    ghost var n := PlainCount(dirs.values);
    var k := 0;
    while k < |dirs.values|
      invariant 0 <= k <= n && values == PlanValues(dirs.values, role, k) && origins == PlanOrigins(dirs, k)
    {
      if NamesBinDir(dirs.values[k]) {
        return values, origins, true;
      }
      OneMoreValue(dirs, role, k);
      values := values + [JoinPath(dirs.values[k], Binary(role))];
      origins := origins + [if k < |dirs.origins| then dirs.origins[k] else dirs.sourceID];
      k := k + 1;
    }
  }

  // --- The validator ---

  /** The sequence that the validator expects from the directories. */
  function Expected(dirs: seq<string>, role: Role): seq<string> {
    var values := PlanValues(dirs, role, |dirs|);
    if FallsBackToPath(role) then values + ["/usr/bin/" + Binary(role), "/bin/" + Binary(role)] else values
  }

  predicate PlanBound(engine: EngineConfiguration, network: NetworkConfiguration, role: Role) {
    && role in network.helperPaths && !network.helperPaths[role].inheritedDefault
    && var plan := network.helperPaths[role];
      if role == Slirp && CommandPathSet(network) && !network.strings[NETWORK_CMD_PATH].invalid then
        plan.values == [network.strings[NETWORK_CMD_PATH].value]
      else
        && NetworkRole(role)
        && engine.helperBinariesDir.Some? && !engine.helperBinariesDir.value.inheritedDefault
        && (forall k :: 0 <= k < |engine.helperBinariesDir.value.values| ==>
            !NamesBinDir(engine.helperBinariesDir.value.values[k]))
        && plan.values == Expected(engine.helperBinariesDir.value.values, role)
  }

  method NetworkPlanBound(engine: EngineConfiguration, network: NetworkConfiguration, role: Role) returns (ok: bool)
    ensures ok <==> PlanBound(engine, network, role)
  {
    if role !in network.helperPaths || network.helperPaths[role].inheritedDefault { return false; }
    var plan := network.helperPaths[role];
    if role == Slirp && NETWORK_CMD_PATH in network.strings {
      var selected := network.strings[NETWORK_CMD_PATH];
      if selected.value != "" && !selected.invalid {
        return plan.values == [selected.value];
      }
    }
    if !NetworkRole(role) { return false; }
    if engine.helperBinariesDir.None? || engine.helperBinariesDir.value.inheritedDefault { return false; }
    var plain, expected := ExpectedValues(engine.helperBinariesDir.value.values, role);
    if !plain { return false; }
    return plan.values == expected;
  }

  method ExpectedValues(dirs: seq<string>, role: Role) returns (plain: bool, expected: seq<string>)
    ensures plain <==> forall k :: 0 <= k < |dirs| ==> !NamesBinDir(dirs[k])
    ensures plain ==> expected == Expected(dirs, role)
  {
    expected := [];
    var k := 0;
    while k < |dirs|
      invariant 0 <= k <= |dirs| && expected == PlanValues(dirs, role, k)
      invariant forall i :: 0 <= i < k ==> !NamesBinDir(dirs[i])
    {
      if NamesBinDir(dirs[k]) { return false, expected; }
      OneMoreName(dirs, role, k);
      expected := expected + [JoinPath(dirs[k], Binary(role))];
      k := k + 1;
    }
    if role == Pasta || role == Slirp {
      expected := expected + ["/usr/bin/" + Binary(role), "/bin/" + Binary(role)];
    }
    return true, expected;
  }

  // --- They agree ---

  /** Joining the search directories by path or by text comes to the same. */
  lemma JoinedIsLiteral(name: string)
    requires Normal(name)
    ensures JoinPath("/usr/bin", name) == "/usr/bin/" + name
    ensures JoinPath("/bin", name) == "/bin/" + name
  {
    var usr, bin := "usr", "bin";
    assert Normal(usr) && Normal(bin);
    RenderOne(bin);
    RenderTwo(usr, bin);
    assert Render([usr, bin]) == "/usr/bin" && Render([bin]) == "/bin";
    JoinRender([usr, bin], name);
    JoinRender([bin], name);
    JoinConcat([usr, bin], [name]);
    JoinConcat([bin], [name]);
    assert Render([usr, bin] + [name]) == Render([usr, bin]) + "/" + name;
    assert Render([bin] + [name]) == Render([bin]) + "/" + name;
  }

  lemma RenderOne(a: string)
    ensures Render([a]) == "/" + a
  {
  }

  lemma RenderTwo(a: string, b: string)
    ensures Render([a, b]) == "/" + a + "/" + b
  {
    JoinConcat([a], [b]);
    assert [a] + [b] == [a, b];
  }

  lemma PathValuesAreLiteral(role: Role)
    ensures FallsBackToPath(role) ==> PathValues(role) == ["/usr/bin/" + Binary(role), "/bin/" + Binary(role)]
  {
    if FallsBackToPath(role) {
      assert Normal(Binary(role));
      JoinedIsLiteral(Binary(role));
    }
  }

  /**
   Every plan that the producer makes without an inherited default is accepted by the validator against the same
   engine, except for a slirp4netns plan taken from a command path that is marked invalid and yet has text.
   */
  lemma ProducedPlansAreBound(role: Role, engine: EngineConfiguration, network: NetworkConfiguration, source: string,
                              plans: map<Role, ConfigList>)
    requires NetworkRole(role) && role in plans && Some(plans[role]) == PlanOf(role, engine, network, source)
    requires !plans[role].inheritedDefault
    ensures PlanBound(engine, network.(helperPaths := plans), role) <==>
      !(role == Slirp && CommandPathSet(network) && network.strings[NETWORK_CMD_PATH].invalid)
  {
    PathValuesAreLiteral(role);
    if engine.helperBinariesDir.Some? {
      assert |Expected(engine.helperBinariesDir.value.values, Slirp)| >= 2;
    }
  }

  /** Configurations that were parsed and merged never meet the exception. */
  lemma MergedPlansAreBound(role: Role, engine: EngineConfiguration, network: NetworkConfiguration, source: string,
                            plans: map<Role, ConfigList>)
    requires NetworkRole(role) && role in plans && Some(plans[role]) == PlanOf(role, engine, network, source)
    requires !plans[role].inheritedDefault && StringsRedacted(network.strings)
    ensures PlanBound(engine, network.(helperPaths := plans), role)
  {
    ProducedPlansAreBound(role, engine, network, source, plans);
  }

  /** So every plan over a network configuration that the collector put together is accepted. */
  lemma CollectedPlansAreBound(role: Role, engine: EngineConfiguration, network: NetworkConfiguration, source: string,
                               plans: map<Role, ConfigList>, start: NetworkConfiguration, docs: seq<NetworkDocument>,
                               modern: bool)
    requires NetworkRole(role) && role in plans && Some(plans[role]) == PlanOf(role, engine, network, source)
    requires !plans[role].inheritedDefault
    requires IsNetworkFold(network, start, docs) && StringsRedacted(start.strings)
    requires forall k :: 0 <= k < |docs| ==> ParsedStrings(docs[k].layer.strings, modern)
    ensures PlanBound(engine, network.(helperPaths := plans), role)
  {
    FoldKeepsRedaction(network, start, docs, modern);
    MergedPlansAreBound(role, engine, network, source, plans);
  }

  /** The exception exists: an invalid command path with text yields a plan that is not bound. */
  lemma InvalidCommandPathIsUnbound(engine: EngineConfiguration, source: string)
    ensures var network := NO_NETWORK.(strings := map[NETWORK_CMD_PATH := ConfigString(true, "/opt/slirp4netns",
        source)]);
      && PlanOf(Slirp, engine, network, source).Some?
      && !PlanOf(Slirp, engine, network, source).value.inheritedDefault
      && !PlanBound(engine, network.(helperPaths := map[Slirp := PlanOf(Slirp, engine, network, source).value]), Slirp)
  {
    var network := NO_NETWORK.(strings := map[NETWORK_CMD_PATH := ConfigString(true, "/opt/slirp4netns", source)]);
    var plans := map[Slirp := PlanOf(Slirp, engine, network, source).value];
    ProducedPlansAreBound(Slirp, engine, network, source, plans);
  }
}
