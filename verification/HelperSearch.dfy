/**
 The search for configured helpers and its independent check: internal/runtime/podman/configured_helpers.go and
 network_helpers.go against internal/capability/engine.go, network_helpers.go and executable.go. The file system and
 the cancellation of the context are oracles that may answer differently at every step.
 */
module HelperSearch {
  import opened Options
  import opened Text
  import opened Paths
  import opened EngineConfig
  import opened NetworkConfig
  import opened HelperPlans

  const MAX_EXECUTABLE_CANDIDATES := 16
  const MAX_INFO_PATH := 4096

  datatype FileKind = RegularFile | DirectoryFile | SpecialFile

  datatype Stat = NotExist | StatError | Info(kind: FileKind, executableBits: bool)

  /** Answers at each step of a search; `access` is None when the access query fails. */
  datatype World = World(stat: (nat, string) -> Stat, access: (nat, string) -> Option<bool>, canceled: nat -> bool)

  datatype ExecutableMetadata = ExecutableMetadata(regular: bool, executableBits: bool)

  datatype ExecutableCandidate = ExecutableCandidate(
    path: string, present: Option<bool>, file: Option<ExecutableMetadata>, executable: Option<bool>, masked: bool)

  datatype ExecutableObservation = ExecutableObservation(role: Role, candidates: seq<ExecutableCandidate>,
      selectedPath: string)

  datatype CapabilityState = Supported | Unsupported | Misconfigured | Unknown

  // --- The search ---

  predicate ValidSubpath(s: string) {
    && s != "" && 0 as char !in s && !IsAbs(s)
    && Clean(s) != ".." && !("../" <= Clean(s))
  }

  predicate SafeInfoPath(value: string) {
    && |value| <= MAX_INFO_PATH && IsAbs(value) && Clean(value) == value
    && !HasControl(value)
    && ValidSubpath(Clean(if "/" <= value then value[1..] else value))
  }

  /** executableFromInfo for a file that is not a generator. */
  function FromInfo(w: World, step: nat, name: string, kind: FileKind, bits: bool): ExecutableCandidate {
    ExecutableCandidate(name, Some(true), Some(ExecutableMetadata(kind == RegularFile, bits)),
                        if kind == RegularFile then w.access(step, name) else Some(false), false)
  }

  /** What measuring one name leaves in the record. */
  function Measured(w: World, step: nat, name: string): ExecutableCandidate {
    match w.stat(step, name)
    case NotExist => ExecutableCandidate(name, Some(false), None, None, false)
    case StatError => ExecutableCandidate(name, None, None, None, false)
    case Info(kind, bits) => FromInfo(w, step, name, kind, bits)
  }

  /** A candidate about which everything is known that a decision may need. */
  predicate Settled(c: ExecutableCandidate) {
    c.present == Some(true) && !c.masked && c.file.Some? && c.executable.Some?
  }

  function PathsOf(cs: seq<ExecutableCandidate>): (r: seq<string>)
    ensures |r| == |cs| && forall k :: 0 <= k < |cs| ==> r[k] == cs[k].path
  {
    seq(|cs|, k requires 0 <= k < |cs| => cs[k].path)
  }

  /** The name is not even looked at. */
  predicate Refused(w: World, step: nat, name: string) {
    step == MAX_EXECUTABLE_CANDIDATES || w.canceled(step) || !SafeInfoPath(name)
  }

  /** What the measurement of one name cannot get over. */
  predicate Fails(w: World, step: nat, name: string, fallback: bool) {
    || Refused(w, step, name)
    || w.stat(step, name) == StatError
    || (w.stat(step, name).Info? && w.stat(step, name).kind == RegularFile && w.access(step, name).None?)
    || (w.stat(step, name).Info? && w.stat(step, name).kind == SpecialFile && fallback)
  }

  /** The name is taken: a configured path by what kind of file it is, a fallback by whether it can be run. */
  predicate Takes(w: World, step: nat, name: string, fallback: bool, role: Role) {
    && w.stat(step, name).Info?
    && var kind := w.stat(step, name).kind;
      if fallback then kind == RegularFile && w.access(step, name) == Some(true)
      else kind == RegularFile || (kind == SpecialFile && role == Conmon)
  }

  /** None of the names, tried one after the other from a step on, gives trouble. */
  ghost predicate QuietFrom(w: World, start: nat, names: seq<string>) {
    forall k :: 0 <= k < |names| ==> !Fails(w, start + k, names[k], true)
  }

  /** Whether it is there and, if so, whether it can be run, is known of the candidate. */
  predicate Known(c: ExecutableCandidate) {
    c.present.Some? && (c.present.value ==> c.executable.Some?)
  }

  predicate RecordOf(w: World, candidates: seq<ExecutableCandidate>, names: seq<string>) {
    && |candidates| == |names|
    && forall k :: 0 <= k < |names| ==> candidates[k] == Measured(w, k, names[k]) && Known(candidates[k])
  }

  /** The last name is taken, or none is; in either case none before the last. */
  predicate TakenLast(w: World, role: Role, names: seq<string>, from: nat, taken: bool) {
    forall k :: 0 <= k < |names| ==> (Takes(w, k, names[k], k >= from, role) <==> taken && k == |names| - 1)
  }

  lemma OneMoreTried(w: World, role: Role, candidates: seq<ExecutableCandidate>, names: seq<string>, from: nat,
                     name: string)
    requires RecordOf(w, candidates, names) && TakenLast(w, role, names, from, false)
    requires !Fails(w, |names|, name, |names| >= from)
    ensures RecordOf(w, candidates + [Measured(w, |names|, name)], names + [name])
    ensures TakenLast(w, role, names + [name], from, Takes(w, |names|, name, |names| >= from, role))
  {
  }

  class Search {
    const role: Role
    const world: World
    var candidates: seq<ExecutableCandidate>
    var selectedPath: string
    var complete: bool

    constructor (role: Role, world: World)
      ensures this.role == role && this.world == world && candidates == [] && selectedPath == "" && complete
    {
      this.role, this.world, candidates, selectedPath, complete := role, world, [], "", true;
    }

    /**
     As long as the measurement is complete it has measured exactly the names tried so far, in order and without
     trouble, and the selected name is the first that may be taken; the names count as fallbacks from `from` on.
     */
    ghost predicate Tried(names: seq<string>, from: nat)
      reads this
    {
      complete ==>
        && RecordOf(world, candidates, names) && TakenLast(world, role, names, from, selectedPath != "")
        && (selectedPath != "" ==> names != [] && selectedPath == names[|names| - 1])
    }

    /** One name; `fallback` says that it comes from the search path and not from the configured list. */
    method Candidate(name: string, fallback: bool, ghost before: seq<string>, ghost from: nat) returns (stop: bool)
      requires Tried(before, from) && selectedPath == "" && (fallback <==> |before| >= from)
      modifies this
      ensures Tried(before + [name], from)
      ensures complete <==> old(complete) && !Fails(world, |old(candidates)|, name, fallback)
      ensures candidates == if Refused(world, |old(candidates)|, name) then old(candidates)
                            else old(candidates) + [Measured(world, |old(candidates)|, name)]
      ensures complete ==> (stop <==> Takes(world, |old(candidates)|, name, fallback, role))
      ensures complete ==> (stop <==> selectedPath != "")
      ensures !stop ==> |candidates| == |old(candidates)| + 1
      ensures !stop ==> selectedPath == ""
    {
      ghost var step := |candidates|;
      if complete && !Fails(world, step, name, fallback) {
        OneMoreTried(world, role, candidates, before, from, name);
      }
      if |candidates| == MAX_EXECUTABLE_CANDIDATES || world.canceled(|candidates|) || !SafeInfoPath(name) {
        complete := false;
        return true;
      }
      var stat := world.stat(|candidates|, name);
      if !stat.Info? {
        var candidate := ExecutableCandidate(name, None, None, None, false);
        if stat.NotExist? {
          candidate := candidate.(present := Some(false));
        } else {
          complete := false;
        }
        candidates := candidates + [candidate];
        return !fallback && role == OCIRuntime && !stat.NotExist?;
      }
      var candidate := FromInfo(world, |candidates|, name, stat.kind, stat.executableBits);
      candidates := candidates + [candidate];
      if candidate.executable.None? {
        complete := false;
      }
      if fallback && stat.kind == SpecialFile {
        complete := false;
        return true;
      }
      var selected := stat.kind != DirectoryFile && (role == Conmon || stat.kind == RegularFile);
      if fallback {
        selected := stat.kind == RegularFile && candidate.executable == Some(true);
      }
      if selected {
        selectedPath := name;
      }
      stop := selected;
    }
  }

  // --- Plans of the configured helpers ---

  /** The configured paths of a role and the name to fall back on, if the configuration determines them. */
  function ConfiguredPaths(engine: EngineConfiguration, role: Role): Option<(seq<string>, string)> {
    if role == Conmon then
      if engine.conmonPath.None? || engine.conmonPath.value.inheritedDefault then None
      else Some((engine.conmonPath.value.values, "conmon"))
    else if role != OCIRuntime || engine.runtime.None? || engine.runtime.value.value == "" then None
    else
      var name := engine.runtime.value.value;
      if IsAbs(name) then Some(([name], name))
      else if name !in engine.runtimes || engine.runtimes[name].inheritedDefault then None
      else Some((engine.runtimes[name].values, name))
  }

  function Fallbacks(name: string): seq<string> {
    if IsAbs(name) then [name] else [JoinPath("/usr/bin", name), JoinPath("/bin", name)]
  }

  /** All names a search may try, in order. */
  function Names(engine: EngineConfiguration, role: Role): Option<seq<string>> {
    match ConfiguredPaths(engine, role)
    case None => None
    case Some((paths, fallback)) => Some(paths + Fallbacks(fallback))
  }

  /** How many of the names are configured; the others are fallbacks. */
  function Configured(engine: EngineConfiguration, role: Role): nat {
    match ConfiguredPaths(engine, role)
    case None => 0
    case Some((paths, _)) => |paths|
  }

  /**
   The search stopped at the first name it may take, or there is none and it tried every name; `tried` are the names
   tried.
   */
  ghost predicate Searched(s: Search, names: seq<string>, from: nat, tried: seq<string>)
    reads s
  {
    && s.Tried(tried, from) && tried <= names
    && (s.complete && s.selectedPath == "" ==> tried == names)
  }

  // --- Which file is chosen ---

  /**
   The name stands for a file to select: a configured one by its kind alone, regular or, for conmon, anything but a
   directory; one from the search path when it is regular and access to run it is granted.
   */
  predicate Suitable(w: World, step: nat, name: string, configured: bool, role: Role) {
    match w.stat(step, name)
    case NotExist => false
    case StatError => false
    case Info(RegularFile, _) => configured || w.access(step, name) == Some(true)
    case Info(SpecialFile, _) => configured && role == Conmon
    case Info(DirectoryFile, _) => false
  }

  /** The first suitable of the names, of which those before `from` are configured. */
  predicate Chosen(w: World, names: seq<string>, from: nat, role: Role, k: nat) {
    && k < |names| && Suitable(w, k, names[k], k < from, role)
    && forall j :: 0 <= j < k ==> !Suitable(w, j, names[j], j < from, role)
  }

  /** A regular file with an execute bit that the process may run. */
  predicate CanRun(w: World, step: nat, name: string) {
    w.stat(step, name) == Info(RegularFile, true) && w.access(step, name) == Some(true)
  }

  /** There is a chosen file and it can be run. */
  predicate ChosenRuns(w: World, names: seq<string>, from: nat, role: Role) {
    exists k :: 0 <= k < |names| && Chosen(w, names, from, role, k) && CanRun(w, k, names[k])
  }

  /**
   The search has selected the chosen name and stopped there, or has tried every name because none is suitable; it has
   recorded what it measured.
   */
  ghost predicate SelectsChosen(s: Search, names: seq<string>, from: nat)
    reads s
  {
    && (forall k: nat :: Chosen(s.world, names, from, s.role, k) ==>
          s.selectedPath == names[k] && |s.candidates| == k + 1)
    && ((forall k: nat :: !Chosen(s.world, names, from, s.role, k)) ==>
          s.selectedPath == "" && |s.candidates| == |names|)
    && (forall k :: 0 <= k < |s.candidates| ==> k < |names| && s.candidates[k] == Measured(s.world, k, names[k]))
  }

  lemma SearchSelectsChosen(s: Search, names: seq<string>, from: nat, tried: seq<string>)
    requires s.complete && Searched(s, names, from, tried)
    ensures SelectsChosen(s, names, from)
  {
    var n := |tried|;
    forall k | 0 <= k < n ensures Takes(s.world, k, tried[k], k >= from, s.role) <==>
      Suitable(s.world, k, names[k], k < from, s.role)
    {
      assert tried[k] == names[k];
    }
    if s.selectedPath != "" {
      assert Chosen(s.world, names, from, s.role, n - 1);
    }
  }

  /** The configuration is complete, without overrides, and determines the names to try. */
  predicate Determined(c: ConfigurationObservation, role: Role) {
    && c.engine.Some? && c.selectionComplete && c.parseComplete
    && !c.engine.value.selectionOverrides && !EnvironmentBlocks(c.engine.value)
    && Names(c.engine.value, role).Some?
  }

  /**
   ConfiguredHelperProbe.Run. `observed` says that the source observation is complete, in scope and that there are
   files to look at. A complete measurement is one that went through the expected names; without trouble on the way
   the measurement is complete.
   */
  method RunConfigured(c: Option<ConfigurationObservation>, observed: bool, role: Role, world: World)
    returns (s: Search, ghost tried: seq<string>)
    ensures fresh(s) && s.role == role && s.world == world
    ensures s.complete ==>
      && c.Some? && Determined(c.value, role)
      && Searched(s, Names(c.value.engine.value, role).value, Configured(c.value.engine.value, role), tried)
      && SelectsChosen(s, Names(c.value.engine.value, role).value, Configured(c.value.engine.value, role))
    ensures (c.Some? && observed && Determined(c.value, role)
             && QuietFrom(world, 0, Names(c.value.engine.value, role).value)) ==> s.complete
  {
    s := new Search(role, world);
    tried := [];
    if c.None? || c.value.engine.None? || !c.value.selectionComplete || !c.value.parseComplete || !observed {
      s.complete := false;
      return;
    }
    var engine := c.value.engine.value;
    if engine.selectionOverrides || EnvironmentBlocks(engine) {
      s.complete := false;
      return;
    }
    var known := ConfiguredPaths(engine, role);
    if known.None? {
      s.complete := false;
      return;
    }
    tried := SearchNames(s, known.value.0, known.value.1);
    if s.complete {
      SearchSelectsChosen(s, Names(engine, role).value, Configured(engine, role), tried);
    }
  }

  /** The configured list, then the search path. */
  method SearchNames(s: Search, paths: seq<string>, fallback: string) returns (ghost tried: seq<string>)
    requires s.candidates == [] && s.selectedPath == "" && s.complete
    modifies s
    ensures Searched(s, paths + Fallbacks(fallback), |paths|, tried)
    ensures QuietFrom(s.world, 0, paths + Fallbacks(fallback)) ==> s.complete
  {
    ghost var quiet := QuietFrom(s.world, 0, paths + Fallbacks(fallback));
    if quiet {
      QuietParts(s.world, paths, Fallbacks(fallback));
    }
    var stop;
    stop, tried := SearchList(s, paths, false, [], |paths|, quiet);
    WholeList(paths, tried, Fallbacks(fallback));
    if stop { return; }
    stop, tried := SearchFallbacks(s, fallback, tried, |paths|, quiet);
  }

  lemma WholeList(names: seq<string>, tried: seq<string>, more: seq<string>)
    requires tried <= [] + names
    ensures [] + names == names && names[..|names|] == names && tried <= names + more
  {
  }

  lemma QuietParts(w: World, a: seq<string>, b: seq<string>)
    requires QuietFrom(w, 0, a + b)
    ensures QuietFrom(w, 0, a) && QuietFrom(w, |a|, b)
  {
    forall k | 0 <= k < |a| ensures !Fails(w, 0 + k, a[k], true) {
      assert !Fails(w, 0 + k, (a + b)[k], true);
    }
    forall k | 0 <= k < |b| ensures !Fails(w, |a| + k, b[k], true) {
      assert !Fails(w, 0 + (|a| + k), (a + b)[|a| + k], true);
    }
  }

  /** The first `k` names have been tried after `before` and none was taken. */
  ghost predicate Progress(s: Search, before: seq<string>, from: nat, names: seq<string>, k: nat, start: nat,
                           quiet: bool)
    requires k <= |names|
    reads s
  {
    s.Tried(before + names[..k], from) && s.selectedPath == "" && |s.candidates| == start + k && (quiet ==> s.complete)
  }

  /** The search has ended at a name of the list. */
  ghost predicate Ended(s: Search, quiet: bool)
    reads s
  {
    (s.complete ==> s.selectedPath != "") && (quiet ==> s.complete)
  }

  /** The names of a list are fallbacks exactly when they start at `from` or later. */
  predicate Placed(fallback: bool, before: nat, names: nat, from: nat) {
    if fallback then before >= from else before + names <= from
  }

  method TryOne(s: Search, name: string, fallback: bool, ghost before: seq<string>, ghost from: nat,
                ghost names: seq<string>, ghost k: nat,
                ghost start: nat, ghost quiet: bool)
    returns (stop: bool)
    requires k < |names| && name == names[k] && Progress(s, before, from, names, k, start, quiet)
    requires Placed(fallback, |before|, |names|, from)
    requires quiet ==> QuietFrom(s.world, start, names)
    modifies s
    ensures s.Tried(before + names[..k + 1], from)
    ensures stop ==> Ended(s, quiet)
    ensures !stop ==> Progress(s, before, from, names, k + 1, start, quiet)
  {
    QuietAt(s.world, start, names, k, fallback);
    PrefixStep(before, names, k);
    ghost var tried := before + names[..k];
    assert |tried| == |before| + k && (fallback <==> |tried| >= from);
    ghost var fails := Fails(s.world, |s.candidates|, name, fallback);
    assert quiet ==> s.complete && !fails;
    stop := s.Candidate(name, fallback, tried, from);
    assert quiet ==> s.complete;
  }

  /** Tries a list of names until one stops the search. */
  method SearchList(s: Search, names: seq<string>, fallback: bool, ghost before: seq<string>, ghost from: nat,
                    ghost quiet: bool)
    returns (stop: bool, ghost tried: seq<string>)
    requires Placed(fallback, |before|, |names|, from)
    requires s.Tried(before, from) && s.selectedPath == ""
      && (quiet ==> s.complete && QuietFrom(s.world, |s.candidates|, names))
    modifies s
    ensures s.Tried(tried, from) && tried <= before + names
    ensures stop ==> Ended(s, quiet)
    ensures !stop ==> tried == before + names && Progress(s, before, from, names, |names|, |old(s.candidates)|, quiet)
  {
    ghost var start := |s.candidates|;
    assert before + names[..0] == before;
    var k := 0;
    while k < |names|
      invariant 0 <= k <= |names| && Progress(s, before, from, names, k, start, quiet)
    {
      stop := TryOne(s, names[k], fallback, before, from, names, k, start, quiet);
      k := k + 1;
      if stop { return stop, before + names[..k]; }
    }
    assert names[..k] == names;
    return false, before + names;
  }

  lemma QuietAt(w: World, start: nat, names: seq<string>, k: nat, fallback: bool)
    requires k < |names|
    ensures QuietFrom(w, start, names) ==> !Fails(w, start + k, names[k], fallback)
  {
    if QuietFrom(w, start, names) {
      assert !Fails(w, start + k, names[k], true);
    }
  }

  lemma PrefixStep(before: seq<string>, names: seq<string>, k: nat)
    requires k < |names|
    ensures before + names[..k] + [names[k]] == before + names[..k + 1]
    ensures before + names[..k + 1] <= before + names
  {
  }

  /** The two search directories; an absolute name is tried once, as it is. */
  method SearchFallbacks(s: Search, fallback: string, ghost before: seq<string>, ghost from: nat, ghost quiet: bool)
    returns (stop: bool, ghost tried: seq<string>)
    requires |before| >= from && s.Tried(before, from) && s.selectedPath == ""
      && (quiet ==> s.complete && QuietFrom(s.world, |s.candidates|, Fallbacks(fallback)))
    modifies s
    ensures s.Tried(tried, from) && tried <= before + Fallbacks(fallback)
    ensures stop ==> Ended(s, quiet)
    ensures !stop ==> tried == before + Fallbacks(fallback) && s.selectedPath == "" && (quiet ==> s.complete)
  {
    var directories := ["/usr/bin", "/bin"];
    ghost var all, start := Fallbacks(fallback), |s.candidates|;
    assert before + all[..0] == before;
    var k := 0;
    while k < 2
      invariant 0 <= k <= 2 && k <= |all| && Progress(s, before, from, all, k, start, quiet)
      invariant IsAbs(fallback) ==> k == 0
    {
      var name := fallback;
      if !IsAbs(name) {
        name := JoinPath(directories[k], fallback);
      }
      stop := TryOne(s, name, true, before, from, all, k, start, quiet);
      k := k + 1;
      if stop { return stop, before + all[..k]; }
      if IsAbs(fallback) { break; }
    }
    assert all[..k] == all;
    return false, before + all;
  }

  predicate PlanGiven(c: ConfigurationObservation, role: Role) {
    && c.network.Some? && c.selectionComplete && c.parseComplete
    && role in c.network.value.helperPaths && !c.network.value.helperPaths[role].inheritedDefault
  }

  /** NetworkHelperProbe.Run, over the plan of its role. */
  method RunNetwork(c: Option<ConfigurationObservation>, observed: bool, role: Role, world: World)
    returns (s: Search, ghost tried: seq<string>)
    ensures fresh(s) && s.role == role && s.world == world
    ensures s.complete ==>
      && c.Some? && PlanGiven(c.value, role)
      && Searched(s, c.value.network.value.helperPaths[role].values, 0, tried)
      && SelectsChosen(s, c.value.network.value.helperPaths[role].values, 0)
    ensures (c.Some? && observed && !world.canceled(0) && PlanGiven(c.value, role)
             && QuietFrom(world, 0, c.value.network.value.helperPaths[role].values)) ==> s.complete
  {
    s := new Search(role, world);
    tried := [];
    if world.canceled(0) || c.None? || c.value.network.None? || !c.value.selectionComplete || !c.value.parseComplete
      || !observed {
      s.complete := false;
      return;
    }
    var plans := c.value.network.value.helperPaths;
    if role !in plans || plans[role].inheritedDefault {
      s.complete := false;
      return;
    }
    tried := SearchPlan(s, plans[role].values);
    if s.complete {
      SearchSelectsChosen(s, plans[role].values, 0, tried);
    }
  }

  method SearchPlan(s: Search, names: seq<string>) returns (ghost tried: seq<string>)
    requires s.candidates == [] && s.selectedPath == "" && s.complete
    modifies s
    ensures Searched(s, names, 0, tried)
    ensures QuietFrom(s.world, 0, names) ==> s.complete
  {
    var stop;
    stop, tried := SearchList(s, names, true, [], 0, QuietFrom(s.world, 0, names));
    WholeList(names, tried, []);
  }

  // --- The validators ---

  /** Whether the selected sources parsed and nothing about them is open. */
  function SourceState(c: ConfigurationObservation): CapabilityState {
    if !c.selectionComplete || c.profile == "unqualified" then Unknown
    else if exists k ::
        && 0 <= k < |c.sources| && c.sources[k].selected
        && (c.sources[k].status == "malformed" || c.sources[k].status == "invalid")
    then Misconfigured
    else Supported
  }

  function EngineParsedState(c: ConfigurationObservation): CapabilityState {
    if SourceState(c) != Supported then SourceState(c)
    else if !c.parseComplete || c.engine.None? then Unknown
    else if c.engine.value.cgroupManager.Some? && c.engine.value.cgroupManager.value.invalid then Misconfigured
    else Supported
  }

  function NetworkSourceState(c: ConfigurationObservation): CapabilityState {
    if SourceState(c) != Supported then SourceState(c)
    else if !c.parseComplete || c.network.None? then Unknown
    else Supported
  }

  function ExecutableState(c: ExecutableCandidate, access: bool): CapabilityState {
    if c.present.None? then Unknown
    else if !c.present.value then Unsupported
    else if c.masked then Misconfigured
    else if c.file.None? then Unknown
    else if !c.file.value.regular then Misconfigured
    else if !access then Supported
    else if c.executable.None? then Unknown
    else if !c.file.value.executableBits || !c.executable.value then Misconfigured
    else Supported
  }

  /** The recorded names are the expected ones: all of them, or those up to the selected one. */
  predicate Follows(names: seq<string>, x: ExecutableObservation) {
    && PathsOf(x.candidates) <= names
    && if x.selectedPath == "" then |x.candidates| == |names|
       else x.candidates != [] && x.candidates[|x.candidates| - 1].path == x.selectedPath
  }

  method FollowsNames(names: seq<string>, x: ExecutableObservation) returns (ok: bool)
    ensures ok <==> Follows(names, x)
  {
    if |x.candidates| > |names| { return false; }
    var k := 0;
    while k < |x.candidates|
      invariant 0 <= k <= |x.candidates| && forall i :: 0 <= i < k ==> x.candidates[i].path == names[i]
    {
      if x.candidates[k].path != names[k] {
        assert PathsOf(x.candidates)[k] != names[k];
        return false;
      }
      k := k + 1;
    }
    assert PathsOf(x.candidates) == names[..|x.candidates|];
    if x.selectedPath == "" { return |x.candidates| == |names|; }
    return |x.candidates| != 0 && x.candidates[|x.candidates| - 1].path == x.selectedPath;
  }

  method ConfiguredPathsMatch(engine: EngineConfiguration, x: ExecutableObservation) returns (ok: bool)
    ensures ok <==> ConfiguredMatch(engine, x)
  {
    if |x.candidates| == 0 || engine.selectionOverrides || EnvironmentBlocks(engine) { return false; }
    var names := [];
    var fallback := "conmon";
    if x.role == Conmon {
      if engine.conmonPath.None? || engine.conmonPath.value.inheritedDefault { return false; }
      names := names + engine.conmonPath.value.values;
    } else if x.role == OCIRuntime && engine.runtime.Some? && engine.runtime.value.value != "" {
      fallback := engine.runtime.value.value;
      if IsAbs(fallback) {
        names := names + [fallback];
      } else {
        if fallback !in engine.runtimes || engine.runtimes[fallback].inheritedDefault { return false; }
        names := names + engine.runtimes[fallback].values;
      }
    } else {
      return false;
    }
    if IsAbs(fallback) {
      names := names + [fallback];
    } else {
      names := names + [JoinPath("/usr/bin", fallback), JoinPath("/bin", fallback)];
    }
    ok := FollowsNames(names, x);
  }

  /** The verdict on a matching search before the last candidate is looked at. */
  method OpenCandidates(cs: seq<ExecutableCandidate>) returns (state: CapabilityState)
    ensures state == if forall k :: 0 <= k < |cs| ==> cs[k].present.Some? then Misconfigured else Unknown
  {
    state := Misconfigured;
    var k := 0;
    while k < |cs|
      invariant 0 <= k <= |cs|
      invariant state == if forall i :: 0 <= i < k ==> cs[i].present.Some? then Misconfigured else Unknown
    {
      if cs[k].present.None? {
        state := Unknown;
      }
      k := k + 1;
    }
  }

  /** The state that configuredExecutableEvidence gives a search over its source. */
  method ConfiguredState(c: ConfigurationObservation, x: ExecutableObservation) returns (state: CapabilityState)
    ensures state == if EngineParsedState(c) == Supported && ConfiguredMatch(c.engine.value, x) then Decided(x)
      else Unknown
  {
    state := Unknown;
    if EngineParsedState(c) != Supported { return; }
    var matches := ConfiguredPathsMatch(c.engine.value, x);
    if !matches { return; }
    state := OpenCandidates(x.candidates);
    if x.selectedPath != "" {
      state := ExecutableState(x.candidates[|x.candidates| - 1], true);
    }
    if state == Unsupported {
      state := Misconfigured;
    }
  }

  predicate ConfiguredMatch(engine: EngineConfiguration, x: ExecutableObservation) {
    && x.candidates != [] && !engine.selectionOverrides && !EnvironmentBlocks(engine)
    && Names(engine, x.role).Some? && Follows(Names(engine, x.role).value, x)
  }

  function Decided(x: ExecutableObservation): CapabilityState
    requires x.selectedPath != "" ==> x.candidates != []
  {
    if x.selectedPath != "" then NoUnsupported(ExecutableState(x.candidates[|x.candidates| - 1], true))
    else if forall k :: 0 <= k < |x.candidates| ==> x.candidates[k].present.Some? then Misconfigured
    else Unknown
  }

  function NoUnsupported(state: CapabilityState): CapabilityState {
    if state == Unsupported then Misconfigured else state
  }

  predicate NetworkMatch(plan: ConfigList, x: ExecutableObservation) {
    !plan.inheritedDefault && Follows(plan.values, x)
  }

  method NetworkPathsMatch(plan: ConfigList, x: ExecutableObservation) returns (ok: bool)
    ensures ok <==> NetworkMatch(plan, x)
  {
    if plan.inheritedDefault { return false; }
    ok := FollowsNames(plan.values, x);
  }

  /** networkHelperState; without access, a file that is not executable by its bits does not count. */
  method NetworkHelperState(c: ConfigurationObservation, x: ExecutableObservation, access: bool)
    returns (state: CapabilityState)
    ensures state == if NetworkSourceState(c) == Supported && x.role in c.network.value.helperPaths
                        && NetworkMatch(c.network.value.helperPaths[x.role], x)
                     then NetworkDecided(x, access) else Unknown
  {
    if NetworkSourceState(c) != Supported || x.role !in c.network.value.helperPaths { return Unknown; }
    var matches := NetworkPathsMatch(c.network.value.helperPaths[x.role], x);
    if !matches { return Unknown; }
    state := OpenCandidates(x.candidates);
    if x.selectedPath != "" {
      var candidate := x.candidates[|x.candidates| - 1];
      state := ExecutableState(candidate, access);
      if !access && state == Supported && !candidate.file.value.executableBits {
        state := Misconfigured;
      }
    }
    if state == Unsupported { return Misconfigured; }
  }

  function NetworkDecided(x: ExecutableObservation, access: bool): CapabilityState
    requires x.selectedPath != "" ==> x.candidates != []
  {
    if x.selectedPath != "" then
      var last := x.candidates[|x.candidates| - 1];
      if !access && ExecutableState(last, false) == Supported && !last.file.value.executableBits then Misconfigured
      else NoUnsupported(ExecutableState(last, access))
    else if forall k :: 0 <= k < |x.candidates| ==> x.candidates[k].present.Some? then Misconfigured
    else Unknown
  }

  // --- Complete searches are accepted and decided ---

  /** A file that can be run, as far as its metadata and the access query say. */
  predicate Runnable(c: ExecutableCandidate) {
    c.file.Some? && c.file.value.regular && c.file.value.executableBits && c.executable == Some(true)
  }

  /** What a search leaves behind. */
  ghost predicate CompleteSearch(x: ExecutableObservation, names: seq<string>, tried: seq<string>) {
    && PathsOf(x.candidates) == tried && tried <= names && (x.selectedPath == "" ==> tried == names)
    && (forall k :: 0 <= k < |x.candidates| ==> x.candidates[k].present.Some?)
    && (x.selectedPath != "" ==>
          x.candidates != [] && x.candidates[|x.candidates| - 1].path == x.selectedPath
            && Settled(x.candidates[|x.candidates| - 1]))
  }

  /**
   A complete configured search over a supported parse is accepted by the validator and decided: supported exactly
   when the selected file can be run, and misconfigured otherwise.
   */
  lemma ConfiguredSearchIsDecided(c: ConfigurationObservation, x: ExecutableObservation, tried: seq<string>)
    requires EngineParsedState(c) == Supported && !c.engine.value.selectionOverrides
      && !EnvironmentBlocks(c.engine.value)
    requires Names(c.engine.value, x.role).Some? && CompleteSearch(x, Names(c.engine.value, x.role).value, tried)
    ensures ConfiguredMatch(c.engine.value, x)
    ensures Decided(x) == if x.selectedPath != "" && Runnable(x.candidates[|x.candidates| - 1]) then Supported
      else Misconfigured
  {
    assert |Fallbacks(ConfiguredPaths(c.engine.value, x.role).value.1)| >= 1;
  }

  /** The same for a network search, with and without the access query. */
  lemma NetworkSearchIsDecided(c: ConfigurationObservation, x: ExecutableObservation, tried: seq<string>, access: bool)
    requires NetworkSourceState(c) == Supported && x.role in c.network.value.helperPaths
    requires !c.network.value.helperPaths[x.role].inheritedDefault
    requires CompleteSearch(x, c.network.value.helperPaths[x.role].values, tried)
    requires x.selectedPath != "" ==> x.candidates[|x.candidates| - 1].executable == Some(true)
    ensures NetworkMatch(c.network.value.helperPaths[x.role], x)
    ensures NetworkDecided(x, access) ==
      if x.selectedPath != "" && Runnable(x.candidates[|x.candidates| - 1]) then Supported else Misconfigured
  {
  }

  /** What a complete search records satisfies the premises of the validators. */
  lemma SearchedIsComplete(s: Search, names: seq<string>, from: nat, tried: seq<string>)
    requires s.complete && Searched(s, names, from, tried)
    ensures CompleteSearch(ExecutableObservation(s.role, s.candidates, s.selectedPath), names, tried)
    ensures from == 0 && s.selectedPath != "" ==> s.candidates[|s.candidates| - 1].executable == Some(true)
  {
  }

  /** The selected candidate is runnable exactly when the chosen file is. */
  lemma SearchRunsChosen(s: Search, names: seq<string>, from: nat, tried: seq<string>)
    requires s.complete && Searched(s, names, from, tried)
    ensures s.selectedPath != "" ==> s.candidates != []
    ensures s.selectedPath != "" && Runnable(s.candidates[|s.candidates| - 1]) <==>
      ChosenRuns(s.world, names, from, s.role)
  {
    SearchSelectsChosen(s, names, from, tried);
    if s.selectedPath != "" {
      var k := |s.candidates| - 1;
      assert tried[k] == names[k] && Takes(s.world, k, tried[k], k >= from, s.role);
      assert Chosen(s.world, names, from, s.role, k);
      assert Runnable(Measured(s.world, k, names[k])) <==> CanRun(s.world, k, names[k]);
    }
  }

  /** The search and the check, one after the other: a complete measurement is never left open. */
  method MeasureConfigured(c: ConfigurationObservation, observed: bool, role: Role, world: World)
    returns (s: Search, state: CapabilityState)
    ensures s.complete && EngineParsedState(c) == Supported ==>
      Determined(c, role)
        && state == if ChosenRuns(world, Names(c.engine.value, role).value, Configured(c.engine.value, role), role)
                    then Supported else Misconfigured
    ensures state != Unsupported
  {
    ghost var tried;
    s, tried := RunConfigured(Some(c), observed, role, world);
    var x := ExecutableObservation(role, s.candidates, s.selectedPath);
    state := ConfiguredState(c, x);
    if s.complete && EngineParsedState(c) == Supported {
      SearchedIsComplete(s, Names(c.engine.value, role).value, Configured(c.engine.value, role), tried);
      ConfiguredSearchIsDecided(c, x, tried);
      SearchRunsChosen(s, Names(c.engine.value, role).value, Configured(c.engine.value, role), tried);
    }
  }

  method MeasureNetwork(c: ConfigurationObservation, observed: bool, role: Role, world: World, access: bool)
    returns (s: Search, state: CapabilityState)
    ensures s.complete && NetworkSourceState(c) == Supported ==>
      PlanGiven(c, role)
        && state == if ChosenRuns(world, c.network.value.helperPaths[role].values, 0, role)
                    then Supported else Misconfigured
  {
    ghost var tried;
    s, tried := RunNetwork(Some(c), observed, role, world);
    var x := ExecutableObservation(role, s.candidates, s.selectedPath);
    state := NetworkHelperState(c, x, access);
    if s.complete && NetworkSourceState(c) == Supported {
      SearchedIsComplete(s, c.network.value.helperPaths[role].values, 0, tried);
      NetworkSearchIsDecided(c, x, tried, access);
      SearchRunsChosen(s, c.network.value.helperPaths[role].values, 0, tried);
    }
  }
}
