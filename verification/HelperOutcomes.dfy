/**
 What a helper search and its check come to: which names are tried for a role, which trouble leaves a search open, and
 when the recorded measurements make a helper supported.
 */
module HelperOutcomes {
  import opened Options
  import opened Text
  import opened Paths
  import opened PathOutcomes
  import opened EngineConfig
  import opened NetworkConfig
  import opened HelperPlans
  import opened HelperSearch

  // --- Names ---

  /** For conmon its configured paths, then the program in the two system directories. */
  lemma ConmonNames(engine: EngineConfiguration)
    ensures Names(engine, Conmon).Some? <==> engine.conmonPath.Some? && !engine.conmonPath.value.inheritedDefault
    ensures Names(engine, Conmon).Some? ==>
      && Names(engine, Conmon).value == engine.conmonPath.value.values + ["/usr/bin/conmon", "/bin/conmon"]
      && Configured(engine, Conmon) == |engine.conmonPath.value.values|
  {
    var name := "conmon";
    assert Normal(name) && !IsAbs(name);
    JoinedIsLiteral(name);
    assert "/usr/bin/" + name == "/usr/bin/conmon" && "/bin/" + name == "/bin/conmon";
  }

  /**
   For a runtime given by an absolute path that path, as configured and as fallback; for one given by name the paths of
   that name, and then the name in the two system directories.
   */
  lemma RuntimeNames(engine: EngineConfiguration)
    ensures Names(engine, OCIRuntime).Some? <==>
      && engine.runtime.Some? && engine.runtime.value.value != ""
      && var name := engine.runtime.value.value;
        name[0] == '/' || (name in engine.runtimes && !engine.runtimes[name].inheritedDefault)
    ensures Names(engine, OCIRuntime).Some? ==>
      var name, names := engine.runtime.value.value, Names(engine, OCIRuntime).value;
      if name[0] == '/' then names == [name, name] && Configured(engine, OCIRuntime) == 1
      else
        && Configured(engine, OCIRuntime) == |engine.runtimes[name].values|
        && (Normal(name) ==> names == engine.runtimes[name].values + ["/usr/bin/" + name, "/bin/" + name])
  {
    if Names(engine, OCIRuntime).Some? && Normal(engine.runtime.value.value) {
      JoinedIsLiteral(engine.runtime.value.value);
    }
  }

  lemma OtherNames(engine: EngineConfiguration, role: Role)
    requires role != Conmon && role != OCIRuntime
    ensures Names(engine, role) == None
  {
  }

  // --- Trouble ---

  /** A step gives no trouble: there is room for it, it may run, and the file system answers what is asked. */
  predicate GoesThrough(w: World, step: nat, name: string, fallback: bool) {
    && step != 16 && !w.canceled(step) && SafeInfoPath(name)
    && match w.stat(step, name)
       case NotExist => true
       case StatError => false
       case Info(RegularFile, _) => w.access(step, name).Some?
       case Info(SpecialFile, _) => !fallback
       case Info(DirectoryFile, _) => true
  }

  lemma FailsMeans(w: World, step: nat, name: string, fallback: bool)
    ensures Fails(w, step, name, fallback) <==> !GoesThrough(w, step, name, fallback)
  {
  }

  /** A search meets no trouble when every name it might try goes through as a fallback. */
  lemma QuietMeans(w: World, names: seq<string>)
    ensures QuietFrom(w, 0, names) <==> forall k :: 0 <= k < |names| ==> GoesThrough(w, k, names[k], true)
  {
    forall k | 0 <= k < |names| ensures Fails(w, 0 + k, names[k], true) <==> !GoesThrough(w, k, names[k], true) {
      FailsMeans(w, k, names[k], true);
    }
  }

  /** What is recorded of a name: whether it is there, what it is, and whether it can be run. */
  lemma MeasuredMeans(w: World, step: nat, name: string)
    ensures var c := Measured(w, step, name);
      && c.path == name && !c.masked
      && (c.present == Some(true) <==> w.stat(step, name).Info?)
      && (c.present == Some(false) <==> w.stat(step, name) == NotExist)
      && (c.present == None <==> w.stat(step, name) == StatError)
      && (c.file.Some? <==> w.stat(step, name).Info?)
      && (c.file.Some? ==>
            && (c.file.value.regular <==> w.stat(step, name).kind == RegularFile)
            && (c.file.value.executableBits <==> w.stat(step, name).executableBits))
      && (c.executable == Some(true) <==>
            w.stat(step, name).Info? && w.stat(step, name).kind == RegularFile && w.access(step, name) == Some(true))
      && (c.executable == None <==>
            !w.stat(step, name).Info? || (w.stat(step, name).kind == RegularFile && w.access(step, name) == None))
  {
  }

  // --- States ---

  /** Some selected source is malformed or invalid. */
  predicate HasBadSource(c: ConfigurationObservation) {
    exists k :: 0 <= k < |c.sources| && c.sources[k].selected
                && (c.sources[k].status == "malformed" || c.sources[k].status == "invalid")
  }

  predicate SourcesKnown(c: ConfigurationObservation) {
    c.selectionComplete && c.profile != "unqualified"
  }

  lemma EngineStateMeans(c: ConfigurationObservation)
    ensures EngineParsedState(c) == Supported <==>
      SourcesKnown(c) && !HasBadSource(c) && c.parseComplete && c.engine.Some?
      && !(c.engine.value.cgroupManager.Some? && c.engine.value.cgroupManager.value.invalid)
    ensures EngineParsedState(c) == Misconfigured <==>
      SourcesKnown(c)
      && (HasBadSource(c)
          || (c.parseComplete && c.engine.Some? && c.engine.value.cgroupManager.Some?
              && c.engine.value.cgroupManager.value.invalid))
    ensures EngineParsedState(c) != Unsupported
  {
  }

  lemma NetworkStateMeans(c: ConfigurationObservation)
    ensures NetworkSourceState(c) == Supported <==>
      SourcesKnown(c) && !HasBadSource(c) && c.parseComplete && c.network.Some?
    ensures NetworkSourceState(c) == Misconfigured <==> SourcesKnown(c) && HasBadSource(c)
    ensures NetworkSourceState(c) != Unsupported
  {
  }

  /** The record says of a candidate that it is a regular file that can be run. */
  predicate SaysRunnable(c: ExecutableCandidate) {
    && c.present == Some(true) && !c.masked && c.file == Some(ExecutableMetadata(true, true))
    && c.executable == Some(true)
  }

  /** The record says of a candidate that it is a regular file with an execute bit. */
  predicate SaysExecutable(c: ExecutableCandidate) {
    c.present == Some(true) && !c.masked && c.file == Some(ExecutableMetadata(true, true))
  }

  /** The record leaves open what the candidate is. */
  predicate SaysTooLittle(c: ExecutableCandidate) {
    || c.present == None
    || (c.present == Some(true) && !c.masked && c.file == None)
    || (c.present == Some(true) && !c.masked && c.file.Some? && c.file.value.regular && c.executable == None)
  }

  /** The verdict on any record: the last candidate decides when one is selected. */
  lemma DecidedMeans(x: ExecutableObservation)
    requires x.selectedPath != "" ==> x.candidates != []
    ensures Decided(x) == Supported <==> x.selectedPath != "" && SaysRunnable(x.candidates[|x.candidates| - 1])
    ensures Decided(x) == Unknown <==>
      if x.selectedPath != "" then SaysTooLittle(x.candidates[|x.candidates| - 1])
      else exists k :: 0 <= k < |x.candidates| && x.candidates[k].present == None
    ensures Decided(x) != Unsupported
  {
  }

  /** Without the access query an execute bit is enough; with it the query decides as well. */
  lemma NetworkDecidedMeans(x: ExecutableObservation, access: bool)
    requires x.selectedPath != "" ==> x.candidates != []
    ensures access ==> (NetworkDecided(x, access) == Supported <==>
              x.selectedPath != "" && SaysRunnable(x.candidates[|x.candidates| - 1]))
    ensures !access ==> (NetworkDecided(x, access) == Supported <==>
              x.selectedPath != "" && SaysExecutable(x.candidates[|x.candidates| - 1]))
    ensures access ==> NetworkDecided(x, access) == Decided(x)
    ensures NetworkDecided(x, access) != Unsupported
  {
  }

  // --- Matching ---

  /** The candidates are a prefix of the names: up to the selected one, or all of them when none was selected. */
  predicate Lists(x: ExecutableObservation, names: seq<string>) {
    && |x.candidates| <= |names|
    && (forall k :: 0 <= k < |x.candidates| ==> x.candidates[k].path == names[k])
    && (x.selectedPath == "" ==> |x.candidates| == |names|)
    && (x.selectedPath != "" ==> x.candidates != [] && names[|x.candidates| - 1] == x.selectedPath)
  }

  lemma FollowsMeans(names: seq<string>, x: ExecutableObservation)
    ensures Follows(names, x) <==> Lists(x, names)
  {
    if |x.candidates| <= |names| && forall k :: 0 <= k < |x.candidates| ==> x.candidates[k].path == names[k] {
      assert PathsOf(x.candidates) == names[..|x.candidates|];
    }
    if PathsOf(x.candidates) <= names {
      assert forall k :: 0 <= k < |x.candidates| ==> PathsOf(x.candidates)[k] == names[k];
    }
  }

  // --- Plans ---

  /** A directory that mentions `$BINDIR` anywhere. */
  lemma BinDirMeans(directory: string)
    ensures NamesBinDir(directory) <==> exists a, b :: directory == a + "$BINDIR" + b
  {
    if NamesBinDir(directory) {
      var i :| 0 <= i <= |directory| - |"$BINDIR"| && Occurs(directory, "$BINDIR", i);
      assert directory == directory[..i] + "$BINDIR" + directory[i + |"$BINDIR"|..];
    }
    if a, b :| directory == a + "$BINDIR" + b {
      assert directory[|a|..|a| + |"$BINDIR"|] == "$BINDIR";
      assert Occurs(directory, "$BINDIR", |a|);
    }
  }

  function ProgramOf(role: Role): string {
    match role
    case Netavark => "netavark"
    case AardvarkDNS => "aardvark-dns"
    case Pasta => "pasta"
    case Slirp => "slirp4netns"
    case _ => ""
  }

  predicate IsNetworkProgram(role: Role) {
    role == Netavark || role == AardvarkDNS || role == Pasta || role == Slirp
  }

  /** A command path for slirp4netns is configured. */
  predicate HasCommandPath(role: Role, network: NetworkConfiguration) {
    role == Slirp && "engine.network_cmd_path" in network.strings
      && network.strings["engine.network_cmd_path"].value != ""
  }

  predicate HasDirectories(engine: EngineConfiguration) {
    engine.helperBinariesDir.Some? && !engine.helperBinariesDir.value.inheritedDefault
  }

  /** The plan names the program in the first `n` directories, which are those before the first `$BINDIR`. */
  predicate PlansFirst(plan: ConfigList, dirs: ConfigList, n: nat, name: string, source: string, path: bool) {
    && n <= |dirs.values| && (forall k :: 0 <= k < n ==> !NamesBinDir(dirs.values[k]))
    && (n < |dirs.values| ==> NamesBinDir(dirs.values[n]))
    && (plan.inheritedDefault <==> n < |dirs.values|)
    && |plan.values| == |plan.origins| == n + (if path then 2 else 0)
    && (forall k :: 0 <= k < n ==> plan.values[k] == JoinPath(dirs.values[k], name))
    && (forall k :: 0 <= k < n ==>
          plan.origins[k] == if k < |dirs.origins| then dirs.origins[k] else dirs.sourceID)
    && (path ==> plan.values[n..] == ["/usr/bin/" + name, "/bin/" + name] && plan.origins[n..] == [source, source])
    && plan.sourceID == dirs.sourceID
  }

  lemma DirectoryPlanMeans(dirs: ConfigList, role: Role, source: string) returns (n: nat)
    requires IsNetworkProgram(role)
    ensures PlansFirst(DirectoryPlan(dirs, role, source), dirs, n, ProgramOf(role), source,
                       role == Pasta || role == Slirp)
  {
    n := PlainCount(dirs.values);
    PathValuesAreLiteral(role);
  }

  /** The configuration is complete, was observed, and no environment setting can override it. */
  predicate CanPlan(c: ConfigurationObservation, observed: bool) {
    && observed && c.selectionComplete && c.parseComplete && c.engine.Some?
    && (c.engine.value.cgroupManager.Some? ==> !c.engine.value.cgroupManager.value.invalid)
    && (c.engine.value.environment.Some? ==>
          c.engine.value.environment.value.count == 0 && !c.engine.value.environment.value.inheritedDefault)
  }

  /**
   The plans that are made: for the four network programs, from a configuration that can be planned for. The command
   path of slirp4netns is its whole plan; otherwise the directories must be known, and the plan names the program in
   each of them up to the first that depends on the build, and pasta and slirp4netns in the system directories as well.
   */
  lemma PlansMean(plans: map<Role, ConfigList>, c: ConfigurationObservation, observed: bool,
                  network: NetworkConfiguration, source: string, role: Role)
    returns (n: nat)
    requires ArePlans(plans, c, observed, network, source)
    ensures role in plans <==>
      CanPlan(c, observed) && IsNetworkProgram(role)
      && (HasCommandPath(role, network) || HasDirectories(c.engine.value))
    ensures role in plans && HasCommandPath(role, network) ==>
      var path := network.strings["engine.network_cmd_path"];
      plans[role] == ConfigList([], [], [path.value], [path.sourceID], path.sourceID, None, false)
    ensures role in plans && !HasCommandPath(role, network) ==>
      PlansFirst(plans[role], c.engine.value.helperBinariesDir.value, n, ProgramOf(role), source,
                 role == Pasta || role == Slirp)
  {
    n := 0;
    if role in plans && !HasCommandPath(role, network) {
      n := DirectoryPlanMeans(c.engine.value.helperBinariesDir.value, role, source);
    }
  }

  // --- Names that may be looked at ---

  /** No control character, in ASCII or as two bytes of UTF-8. */
  predicate IsPlainText(s: string) {
    forall k :: 0 <= k < |s| ==>
      && 32 <= s[k] as int && s[k] as int != 127
      && (s[k] as int == 194 && k + 1 < |s| ==> s[k + 1] as int < 128 || s[k + 1] as int > 159)
  }

  lemma PlainTextMeans(s: string)
    ensures IsPlainText(s) <==> !HasControl(s)
  {
    if !HasControl(s) {
      forall k | 0 <= k < |s|
        ensures 32 <= s[k] as int && s[k] as int != 127
          && (s[k] as int == 194 && k + 1 < |s| ==> s[k + 1] as int < 128 || s[k + 1] as int > 159)
      {
        assert !ControlAt(s, k);
      }
    }
  }

  /** A name is looked at when it is a clean absolute path of at most 4096 bytes without control characters. */
  lemma SafeInfoPathMeans(cs: seq<string>)
    requires AllNormal(cs)
    ensures SafeInfoPath(Render(cs)) <==> |Render(cs)| <= 4096 && IsPlainText(Render(cs))
  {
    var name := Render(cs);
    PlainTextMeans(name);
    CleanRender(cs);
    assert name[1..] == Join(cs, '/') && name[..1] == "/";
    if !HasControl(name) {
      forall k | 0 <= k < |name| ensures name[k] != 0 as char {
        assert !ControlAt(name, k);
      }
      BelowIsSafe(cs);
    }
  }

  lemma BelowIsSafe(cs: seq<string>)
    requires AllNormal(cs) && 0 as char !in Render(cs)
    ensures ValidSubpath(Clean(Join(cs, '/')))
  {
    assert Ups(0) + cs == cs;
    if cs == [] {
      DotAlone();
    } else {
      CleanRelative(0, cs);
      RelativeIsNotEmpty(0, cs);
      StaysBelow(cs);
      forall k | 0 <= k < |Join(cs, '/')| ensures Join(cs, '/')[k] != 0 as char {
        assert Render(cs)[k + 1] == Join(cs, '/')[k];
      }
    }
  }

  /** A joined list of names does not start with `..`. */
  lemma StaysBelow(cs: seq<string>)
    requires AllNormal(cs) && cs != []
    ensures Join(cs, '/') != ".." && !("../" <= Join(cs, '/'))
  {
    var path := Join(cs, '/');
    SplitJoin(cs, '/');
    assert Normal(cs[0]);
    if path == ".." {
      SplitPart("..", '/');
    }
    if "../" <= path {
      var rest := path[3..];
      assert path == ".." + ['/'] + rest;
      SplitFirst("..", rest, '/');
    }
  }

  /** Nothing else is looked at. */
  lemma SafeInfoPathIsClean(name: string) returns (cs: seq<string>)
    requires SafeInfoPath(name)
    ensures AllNormal(cs) && name == Render(cs)
  {
    cs := CleanIsRender(name);
  }

  // --- The validators ---

  /** A plan that takes the program's path in each directory, and in the system directories if the role looks there. */
  predicate IsFullPlan(plan: seq<string>, dirs: seq<string>, name: string, path: bool) {
    && |plan| == |dirs| + (if path then 2 else 0)
    && (forall k :: 0 <= k < |dirs| ==> plan[k] == JoinPath(dirs[k], name))
    && (path ==> plan[|dirs|] == "/usr/bin/" + name && plan[|dirs| + 1] == "/bin/" + name)
  }

  /**
   A network plan belongs to a configuration: it is that of the valid command path of slirp4netns, or else it is the
   full plan over directories that are known and do not depend on the build.
   */
  lemma PlanBoundMeans(engine: EngineConfiguration, network: NetworkConfiguration, role: Role)
    ensures PlanBound(engine, network, role) <==>
      role in network.helperPaths && !network.helperPaths[role].inheritedDefault &&
      var plan := network.helperPaths[role].values;
      if HasCommandPath(role, network) && !network.strings["engine.network_cmd_path"].invalid then
        plan == [network.strings["engine.network_cmd_path"].value]
      else
        && IsNetworkProgram(role) && HasDirectories(engine)
        && (forall k :: 0 <= k < |engine.helperBinariesDir.value.values| ==>
              !NamesBinDir(engine.helperBinariesDir.value.values[k]))
        && IsFullPlan(plan, engine.helperBinariesDir.value.values, ProgramOf(role), role == Pasta || role == Slirp)
  {
    if NetworkRole(role) && role in network.helperPaths && engine.helperBinariesDir.Some? {
      ExpectedMeans(network.helperPaths[role].values, engine.helperBinariesDir.value.values, role);
    }
  }

  lemma ExpectedMeans(plan: seq<string>, dirs: seq<string>, role: Role)
    requires NetworkRole(role)
    ensures plan == Expected(dirs, role) <==> IsFullPlan(plan, dirs, ProgramOf(role), role == Pasta || role == Slirp)
  {
    var n := |dirs|;
    var expected := Expected(dirs, role);
    assert Binary(role) == ProgramOf(role);
    assert IsFullPlan(expected, dirs, ProgramOf(role), role == Pasta || role == Slirp);
    if IsFullPlan(plan, dirs, ProgramOf(role), role == Pasta || role == Slirp) {
      forall k | 0 <= k < |plan| ensures plan[k] == expected[k] {
        if k >= n {
          assert k == n || k == n + 1;
        }
      }
    }
  }

  /**
   The state of a configured helper, from any configuration and record: supported when the engine's sources are in
   order, nothing overrides the selection, the record lists the names for the role, and its last candidate can be run.
   */
  lemma ConfiguredStateMeans(c: ConfigurationObservation, x: ExecutableObservation, state: CapabilityState)
    requires state == if EngineParsedState(c) == Supported && ConfiguredMatch(c.engine.value, x) then Decided(x)
      else Unknown
    ensures state == Supported <==>
      RecordFits(c, x) && x.selectedPath != "" && SaysRunnable(x.candidates[|x.candidates| - 1])
    ensures state == Unknown <==>
      !RecordFits(c, x)
      || (x.selectedPath != "" && SaysTooLittle(x.candidates[|x.candidates| - 1]))
      || (x.selectedPath == "" && exists k :: 0 <= k < |x.candidates| && x.candidates[k].present == None)
    ensures state == Supported || state == Unknown || state == Misconfigured
  {
    EngineStateMeans(c);
    if EngineParsedState(c) == Supported && Names(c.engine.value, x.role).Some? {
      FollowsMeans(Names(c.engine.value, x.role).value, x);
    }
    if x.selectedPath != "" ==> x.candidates != [] {
      DecidedMeans(x);
    }
  }

  /** The record lists the names that a sound configuration without overrides gives the role. */
  predicate RecordFits(c: ConfigurationObservation, x: ExecutableObservation) {
    && SourcesKnown(c) && !HasBadSource(c) && c.parseComplete && c.engine.Some?
    && var engine := c.engine.value;
      && (engine.cgroupManager.Some? ==> !engine.cgroupManager.value.invalid)
      && !engine.selectionOverrides
      && (engine.environment.Some? ==>
            engine.environment.value.count == 0 && !engine.environment.value.inheritedDefault)
      && Names(engine, x.role).Some? && x.candidates != [] && Lists(x, Names(engine, x.role).value)
  }

  /** The state of a network helper: as for a configured one, over the plan of its role. */
  lemma NetworkHelperStateMeans(c: ConfigurationObservation, x: ExecutableObservation, access: bool,
                                state: CapabilityState)
    requires state == if NetworkSourceState(c) == Supported && x.role in c.network.value.helperPaths
                         && NetworkMatch(c.network.value.helperPaths[x.role], x)
                      then NetworkDecided(x, access) else Unknown
    ensures state == Supported <==>
      && SourcesKnown(c) && !HasBadSource(c) && c.parseComplete && c.network.Some?
      && x.role in c.network.value.helperPaths && !c.network.value.helperPaths[x.role].inheritedDefault
      && Lists(x, c.network.value.helperPaths[x.role].values) && x.selectedPath != ""
      && var last := x.candidates[|x.candidates| - 1]; if access then SaysRunnable(last) else SaysExecutable(last)
    ensures state == Supported || state == Unknown || state == Misconfigured
  {
    NetworkStateMeans(c);
    if NetworkSourceState(c) == Supported && x.role in c.network.value.helperPaths {
      FollowsMeans(c.network.value.helperPaths[x.role].values, x);
    }
    if x.selectedPath != "" ==> x.candidates != [] {
      NetworkDecidedMeans(x, access);
    }
  }
}
