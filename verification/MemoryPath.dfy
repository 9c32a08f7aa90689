/**
 Pathname traversal with symbolic links in the in-memory tree: internal/platform/memory_path.go. A walk keeps a
 list of components still to visit, and following a link puts the components of its target in front of it.
 */
module MemoryPath {
  import opened Options
  import opened Seqs
  import opened Text
  import opened Paths

  datatype Kind = Regular | Directory | Symlink | Special

  /** A node; one with a forced error answers every lookup with it. */
  datatype VirtualFile = VirtualFile(kind: Kind, target: string, forced: ForcedError)

  datatype ForcedError = NoError | ForcedError(text: string)

  datatype WalkError = SubpathEscape | NotExist | TooManyLinks | NotDirectory | Forced(text: string)

  datatype Config = Config(files: map<string, VirtualFile>, root: string, limit: int, followFinal: bool)

  datatype Lookup = Found(file: VirtualFile) | Absent(err: WalkError)

  /** Where the components of a walk lead; `hops` counts the links followed and `looked` lists the entries looked up. */
  datatype Outcome = At(path: string, hops: int, looked: seq<string>)
    | Failed(err: WalkError, hops: int, looked: seq<string>)

  datatype Resolution = Resolved(file: VirtualFile, path: string) | Refused(err: WalkError)

  // --- Single steps ---

  predicate HasPrefix(s: string, prefix: string) {
    |prefix| <= |s| && s[..|prefix|] == prefix
  }

  predicate WithinMemoryRoot(path: string, root: string) {
    root == "" || root == "/" || path == root || HasPrefix(path, root + "/")
  }

  function Find(c: Config, path: string): Lookup {
    if path !in c.files then Absent(NotExist)
    else if c.files[path].forced.ForcedError? then Absent(Forced(c.files[path].forced.text))
    else Found(c.files[path])
  }

  predicate OnlyDotsAndSlashes(s: string) {
    forall k :: 0 <= k < |s| ==> s[k] == '.' || s[k] == '/'
  }

  function TrimRightSlashes(s: string): string {
    if s != "" && s[|s| - 1] == '/' then TrimRightSlashes(s[..|s| - 1]) else s
  }

  function TrimPrefix(s: string, prefix: string): string {
    if HasPrefix(s, prefix) then s[|prefix|..] else s
  }

  /** The directory that `..` leads to, before the check that it does not escape. */
  function Above(c: Config, current: string): string {
    if c.root == "" && !IsAbs(current) && OnlyDotsAndSlashes(current) then JoinPath(current, "..") else Dir(current)
  }

  predicate Escapes(c: Config, current: string) {
    (current == c.root && c.root != "/") || !WithinMemoryRoot(Above(c, current), c.root)
  }

  /** The directory from which a link's target is walked, and the components to walk. */
  function LinkBase(c: Config, current: string, target: string): string {
    if !IsAbs(target) then current else if c.root == "" then "/" else c.root
  }

  function LinkParts(c: Config, target: string): (parts: seq<string>)
    ensures parts != [] && forall k :: 0 <= k < |parts| ==> '/' !in parts[k]
  {
    Split(if IsAbs(target) && c.root != "" then TrimPrefix(target, TrimRightSlashes(c.root)) else target, '/')
  }

  /** Why a link, if it is so, cannot be followed after `hops` links. */
  function LinkError(c: Config, target: string, hops: int): Option<WalkError> {
    if hops + 1 > c.limit then Some(TooManyLinks)
    else if target == "" then Some(NotExist)
    else if IsAbs(target) && !WithinMemoryRoot(target, c.root) then Some(SubpathEscape)
    else None
  }

  function Budget(c: Config, hops: int): nat {
    if c.limit > hops then c.limit - hops else 0
  }

  // --- The walk ---

  /** What a named component does: the walk fails, goes down to an entry, or follows a link. */
  datatype Visit = Stop(err: WalkError, hops: int) | Down(path: string) | Follow(base: string, parts: seq<string>)

  /** The entry at `next`, reached from `current`; `onward` says that more components will follow it. */
  function VisitEntry(c: Config, current: string, next: string, hops: int, onward: bool): (v: Visit)
    ensures v.Follow? ==> hops < c.limit && v.parts != [] && forall k :: 0 <= k < |v.parts| ==> '/' !in v.parts[k]
  {
    match Find(c, next)
    case Absent(err) => Stop(err, hops)
    case Found(node) =>
      if node.kind == Symlink && (c.followFinal || onward) then
        match LinkError(c, node.target, hops)
        case Some(err) => Stop(err, hops + 1)
        case None => Follow(LinkBase(c, current, node.target), LinkParts(c, node.target))
      else if onward && node.kind != Directory then Stop(NotDirectory, hops)
      else Down(next)
  }

  /** Walks `pending` from `current`; `more` says that further components will follow. */
  function Walk(c: Config, current: string, pending: seq<string>, hops: int, looked: seq<string>, more: bool): Outcome
    decreases Budget(c, hops), |pending|
  {
    if pending == [] then At(current, hops, looked)
    else
      var part, rest := pending[0], pending[1..];
      if part == "" || part == "." then Walk(c, current, rest, hops, looked, more)
      else if part == ".." then
        if Escapes(c, current) then Failed(SubpathEscape, hops, looked)
        else Walk(c, Above(c, current), rest, hops, looked, more)
      else
        var next := JoinPath(current, part);
        var seen := looked + [next];
        match VisitEntry(c, current, next, hops, rest != [] || more)
        case Stop(err, used) => Failed(err, used, seen)
        case Down(path) => Walk(c, path, rest, hops, seen, more)
        case Follow(base, parts) => Walk(c, base, parts + rest, hops + 1, seen, more)
  }

  function Finish(c: Config, o: Outcome): Resolution {
    match o
    case Failed(err, _, _) => Refused(err)
    case At(path, _, _) =>
      match Find(c, path)
      case Absent(err) => Refused(err)
      case Found(file) => Resolved(file, path)
  }

  class MemoryWalk {
    const config: Config
    var current: string
    var pending: seq<string>
    var hops: int
    ghost var lookups: seq<string>

    constructor (config: Config, current: string, pending: seq<string>)
      ensures this.config == config && this.current == current && this.pending == pending && hops == 0 && lookups == []
    {
      this.config, this.current, this.pending, hops, lookups := config, current, pending, 0, [];
    }

    method LookUp(path: string) returns (r: Lookup)
      modifies this`lookups
      ensures r == Find(config, path) && lookups == old(lookups) + [path]
    {
      lookups := lookups + [path];
      if path !in config.files { return Absent(NotExist); }
      var node := config.files[path];
      if node.forced.ForcedError? { return Absent(Forced(node.forced.text)); }
      return Found(node);
    }

    method Expand(target: string) returns (err: Option<WalkError>)
      modifies this`current, this`pending, this`hops
      ensures hops == old(hops) + 1
      ensures err == LinkError(config, target, old(hops))
      ensures err.None? ==>
        && current == LinkBase(config, old(current), target)
        && pending == LinkParts(config, target) + old(pending)
    {
      hops := hops + 1;
      if hops > config.limit { return Some(TooManyLinks); }
      if target == "" { return Some(NotExist); }
      var left := target;
      if IsAbs(target) {
        if !WithinMemoryRoot(target, config.root) { return Some(SubpathEscape); }
        if config.root == "" {
          current := "/";
        } else {
          current := config.root;
          left := TrimPrefix(target, TrimRightSlashes(config.root));
        }
      }
      pending := Split(left, '/') + pending;
      return None;
    }

    /** The component `..`. */
    method GoUp() returns (escaped: bool)
      modifies this`current
      ensures escaped <==> Escapes(config, old(current))
      ensures !escaped ==> current == Above(config, old(current))
    {
      var parent := Dir(current);
      if config.root == "" && !IsAbs(current) && OnlyDotsAndSlashes(current) {
        parent := JoinPath(current, "..");
      }
      if (current == config.root && config.root != "/") || !WithinMemoryRoot(parent, config.root) {
        return true;
      }
      current := parent;
      return false;
    }

    /** A component that names an entry. */
    method Enter(part: string) returns (v: Visit)
      modifies this`current, this`pending, this`hops, this`lookups
      ensures v == VisitEntry(config, old(current), JoinPath(old(current), part), old(hops), old(pending) != [])
      ensures lookups == old(lookups) + [JoinPath(old(current), part)]
      ensures match v
        case Stop(_, used) => hops == used
        case Down(path) => current == path && pending == old(pending) && hops == old(hops)
        case Follow(base, parts) => current == base && pending == parts + old(pending) && hops == old(hops) + 1
    {
      var next := JoinPath(current, part);
      var node := LookUp(next);
      if node.Absent? { return Stop(node.err, hops); }
      if node.file.kind == Symlink && (config.followFinal || |pending| > 0) {
        var expanded := Expand(node.file.target);
        if expanded.Some? { return Stop(expanded.value, hops); }
        return Follow(current, LinkParts(config, node.file.target));
      }
      if |pending| > 0 && node.file.kind != Directory { return Stop(NotDirectory, hops); }
      current := next;
      return Down(next);
    }

    /**
     The walk of the pending components and the final lookup. The lookups recorded are those of the walk, and of
     the place it ends at.
     */
    method Resolve() returns (r: Resolution)
      modifies this
      ensures var o := Walk(config, old(current), old(pending), old(hops), old(lookups), false);
        && r == Finish(config, o) && hops == o.hops
        && lookups == if o.At? then o.looked + [o.path] else o.looked
    {
      ghost var o := Walk(config, current, pending, hops, lookups, false);
      while |pending| > 0
        invariant o == Walk(config, current, pending, hops, lookups, false)
        decreases Budget(config, hops), |pending|
      {
        var part := pending[0];
        pending := pending[1..];
        if part == "" || part == "." { continue; }
        if part == ".." {
          var escaped := GoUp();
          if escaped { return Refused(SubpathEscape); }
          continue;
        }
        var v := Enter(part);
        if v.Stop? { return Refused(v.err); }
      }
      var final := LookUp(current);
      match final
      case Absent(err) => return Refused(err);
      case Found(file) => return Resolved(file, current);
    }
  }

  function Start(path: string, root: string): string {
    if root != "" then root else if IsAbs(path) then "/" else "."
  }

  method ResolvePath(files: map<string, VirtualFile>, path: string, root: string, followFinal: bool, limit: int)
    returns (r: Resolution)
    ensures var c := Config(files, root, limit, followFinal);
      r == Finish(c, Walk(c, Start(path, root), Split(path, '/'), 0, [], false))
  {
    var current := root;
    if root == "" {
      current := ".";
      if IsAbs(path) {
        current := "/";
      }
    }
    var w := new MemoryWalk(Config(files, root, limit, followFinal), current, Split(path, '/'));
    r := w.Resolve();
  }

  // --- Links resolve in place ---

  /** Continue a walk with more components, unless it failed. */
  function Then(c: Config, o: Outcome, pending: seq<string>, more: bool): Outcome {
    match o
    case Failed(_, _, _) => o
    case At(path, hops, looked) => Walk(c, path, pending, hops, looked, more)
  }

  /** A walk can be cut anywhere: the first part as a directory, then the rest from there. */
  lemma {:induction false} WalkConcat(c: Config, current: string, a: seq<string>, b: seq<string>, hops: int,
                                      looked: seq<string>, more: bool)
    ensures Walk(c, current, a + b, hops, looked, more) ==
      Then(c, Walk(c, current, a, hops, looked, more || b != []), b, more)
    decreases Budget(c, hops), |a|
  {
    if a == [] {
      assert a + b == b;
    } else {
      var part, rest := a[0], a[1..];
      assert (a + b)[0] == part && (a + b)[1..] == rest + b;
      if part == "" || part == "." {
        WalkConcat(c, current, rest, b, hops, looked, more);
      } else if part == ".." {
        WalkConcat(c, Above(c, current), rest, b, hops, looked, more);
      } else {
        var next := JoinPath(current, part);
        var v := VisitEntry(c, current, next, hops, rest != [] || b != [] || more);
        assert rest + b != [] <==> rest != [] || b != [];
        if v.Down? {
          WalkConcat(c, v.path, rest, b, hops, looked + [next], more);
        } else if v.Follow? {
          Associative(v.parts, rest, b);
          WalkConcat(c, v.base, v.parts + rest, b, hops + 1, looked + [next], more);
        }
      }
    }
  }

  /**
   Following a link means resolving its target from the link's directory, as a directory when components
   remain, and going on from there.
   */
  lemma LinkResolvesInPlace(c: Config, current: string, part: string, rest: seq<string>, hops: int, looked: seq<string>,
                            more: bool)
    requires part != "" && part != "." && part != ".."
    requires VisitEntry(c, current, JoinPath(current, part), hops, rest != [] || more).Follow?
    ensures var next := JoinPath(current, part); var target := Find(c, next).file.target;
      Walk(c, current, [part] + rest, hops, looked, more) ==
        Then(c, Walk(c, LinkBase(c, current, target), LinkParts(c, target), hops + 1, looked + [next], more
                     || rest != []), rest, more)
  {
    var next := JoinPath(current, part);
    var v := VisitEntry(c, current, next, hops, rest != [] || more);
    assert ([part] + rest)[1..] == rest;
    WalkConcat(c, v.base, v.parts, rest, hops + 1, looked + [next], more);
  }

  // --- The budget ---

  /** At most `limit` links were followed, and exactly one more when that is why the walk failed. */
  predicate WithinBudget(c: Config, hops: int, o: Outcome) {
    hops <= o.hops && if o.Failed? && o.err == TooManyLinks then o.hops == c.limit + 1 else o.hops <= c.limit
  }

  lemma VisitIsWithinBudget(c: Config, current: string, next: string, hops: int, onward: bool, seen: seq<string>)
    requires hops <= c.limit
    ensures var v := VisitEntry(c, current, next, hops, onward); v.Stop? ==>
      WithinBudget(c, hops, Failed(v.err, v.hops, seen))
  {
  }

  /** A walk follows at most `limit` links, and gives up exactly at one more. */
  lemma {:induction false} HopsAreBounded(c: Config, current: string, pending: seq<string>, hops: int,
                                          looked: seq<string>, more: bool)
    requires hops <= c.limit
    ensures WithinBudget(c, hops, Walk(c, current, pending, hops, looked, more))
    decreases Budget(c, hops), |pending|
  {
    if pending != [] {
      var part, rest := pending[0], pending[1..];
      if part == "" || part == "." {
        HopsAreBounded(c, current, rest, hops, looked, more);
      } else if part == ".." {
        if !Escapes(c, current) {
          HopsAreBounded(c, Above(c, current), rest, hops, looked, more);
        }
      } else {
        var next := JoinPath(current, part);
        var v := VisitEntry(c, current, next, hops, rest != [] || more);
        VisitIsWithinBudget(c, current, next, hops, rest != [] || more, looked + [next]);
        if v.Down? {
          HopsAreBounded(c, v.path, rest, hops, looked + [next], more);
        } else if v.Follow? {
          HopsAreBounded(c, v.base, v.parts + rest, hops + 1, looked + [next], more);
        }
      }
    }
  }

  /** `d` is `c` with a limit at least as high. */
  predicate Raises(c: Config, d: Config) {
    d.files == c.files && d.root == c.root && d.followFinal == c.followFinal && d.limit >= c.limit
  }

  lemma RaisedUp(c: Config, d: Config, current: string)
    requires Raises(c, d)
    ensures Above(d, current) == Above(c, current) && (Escapes(d, current) <==> Escapes(c, current))
  {
  }

  lemma RaisedVisit(c: Config, d: Config, current: string, next: string, hops: int, onward: bool)
    requires Raises(c, d)
    ensures var v := VisitEntry(c, current, next, hops, onward);
      (v.Stop? && v.err == TooManyLinks) || VisitEntry(d, current, next, hops, onward) == v
  {
  }

  predicate CutOff(o: Outcome) {
    o.Failed? && o.err == TooManyLinks
  }

  /** Raising the limit changes no walk that did not run into it. */
  lemma {:induction false} LimitOnlyCutsOff(c: Config, d: Config, current: string, pending: seq<string>, hops: int,
                                            looked: seq<string>, more: bool)
    requires Raises(c, d) && !CutOff(Walk(c, current, pending, hops, looked, more))
    ensures Walk(d, current, pending, hops, looked, more) == Walk(c, current, pending, hops, looked, more)
    decreases Budget(c, hops), |pending|, 1
  {
    if pending != [] {
      var part, rest := pending[0], pending[1..];
      if part == "" || part == "." {
        LimitOnlyCutsOff(c, d, current, rest, hops, looked, more);
      } else if part == ".." {
        RaisedUp(c, d, current);
        if !Escapes(c, current) {
          LimitOnlyCutsOff(c, d, Above(c, current), rest, hops, looked, more);
        }
      } else {
        EntryOnlyCutsOff(c, d, current, pending, hops, looked, more);
      }
    }
  }

  lemma {:induction false} EntryOnlyCutsOff(c: Config, d: Config, current: string, pending: seq<string>, hops: int,
                                            looked: seq<string>, more: bool)
    requires pending != [] && pending[0] != "" && pending[0] != "." && pending[0] != ".."
    requires Raises(c, d) && !CutOff(Walk(c, current, pending, hops, looked, more))
    ensures Walk(d, current, pending, hops, looked, more) == Walk(c, current, pending, hops, looked, more)
    decreases Budget(c, hops), |pending|, 0
  {
    var rest, next := pending[1..], JoinPath(current, pending[0]);
    var v := VisitEntry(c, current, next, hops, rest != [] || more);
    RaisedVisit(c, d, current, next, hops, rest != [] || more);
    match v
    case Stop(_, _) =>
    case Down(path) => LimitOnlyCutsOff(c, d, path, rest, hops, looked + [next], more);
    case Follow(base, parts) => LimitOnlyCutsOff(c, d, base, parts + rest, hops + 1, looked + [next], more);
  }

  // --- Containment ---

  /** The walk is anchored at the clean absolute directory `base`: its root, or the whole tree. */
  predicate Anchored(c: Config, base: seq<string>) {
    AllNormal(base) && (c.root == Render(base) || (c.root == "" && base == []))
  }

  /** `path` is `base` or a clean path below it. */
  ghost predicate Under(path: string, base: seq<string>) {
    exists below :: AllNormal(below) && path == Render(base + below)
  }

  ghost predicate AllUnder(paths: seq<string>, base: seq<string>) {
    forall k :: 0 <= k < |paths| ==> Under(paths[k], base)
  }

  /** Every step down from `base` along `below` enters a directory. */
  predicate DirectoriesDown(c: Config, base: seq<string>, below: seq<string>) {
    below == [] || (DirectoriesDown(c, base, Parent(below)) && IsDirectory(c, Render(base + below)))
  }

  predicate IsDirectory(c: Config, path: string) {
    Find(c, path).Found? && Find(c, path).file.kind == Directory
  }

  /** A step that is not followed as a link: it exists, and is a link only if links may be returned. */
  predicate IsEntry(c: Config, path: string) {
    Find(c, path).Found? && (c.followFinal ==> Find(c, path).file.kind != Symlink)
  }

  predicate NoSlashes(parts: seq<string>) {
    forall k :: 0 <= k < |parts| ==> '/' !in parts[k]
  }

  lemma WithinRender(base: seq<string>, below: seq<string>)
    requires AllNormal(base) && AllNormal(below)
    ensures WithinMemoryRoot(Render(base + below), Render(base))
  {
    if base == [] {
      assert Render(base) == "/";
    } else if below == [] {
      assert base + below == base;
    } else {
      JoinConcat(base, below);
      assert Render(base + below) == Render(base) + "/" + Join(below, '/');
    }
  }

  /** At the anchor `..` stays put or is refused; below it, it leads one level up. */
  lemma UpStaysUnder(c: Config, base: seq<string>, below: seq<string>)
    requires Anchored(c, base) && AllNormal(below)
    ensures !Escapes(c, Render(base + below)) ==> Above(c, Render(base + below)) == Render(base + Parent(below))
    ensures below != [] ==> !Escapes(c, Render(base + below))
  {
    DirRender(base + below);
    assert Above(c, Render(base + below)) == Render(Parent(base + below));
    if below != [] {
      assert Parent(base + below) == base + Parent(below);
      UpDoesNotEscape(c, base, below);
    } else {
      assert base + below == base && base + Parent(below) == base;
      UpFromAnchor(c, base);
    }
  }

  lemma UpDoesNotEscape(c: Config, base: seq<string>, below: seq<string>)
    requires Anchored(c, base) && AllNormal(below) && below != []
    requires Above(c, Render(base + below)) == Render(base + Parent(below))
    ensures !Escapes(c, Render(base + below))
  {
    WithinRender(base, Parent(below));
    if c.root == Render(base + below) {
      RenderInjective(base + below, base);
    }
  }

  lemma UpFromAnchor(c: Config, base: seq<string>)
    requires Anchored(c, base)
    ensures !Escapes(c, Render(base)) ==> base == []
  {
    if base != [] && c.root == Render(base) && c.root == "/" {
      assert Render([]) == "/";
      RenderInjective(base, []);
    }
  }

  /**
   From a directory under a clean absolute anchor a walk looks up only entries under the anchor, whatever the
   links say; it ends under the anchor with directories all the way down, at an entry that is not a link when
   links are followed, and at a directory when more is to come.
   */
  lemma {:induction false} WalkStaysUnder(c: Config, base: seq<string>, below: seq<string>, pending: seq<string>,
                                          hops: int,
                                          looked: seq<string>, more: bool) returns (end: seq<string>)
    requires Anchored(c, base) && AllNormal(below) && DirectoriesDown(c, base, below) && NoSlashes(pending)
      && AllUnder(looked, base)
    ensures var o := Walk(c, Render(base + below), pending, hops, looked, more);
      && AllUnder(o.looked, base)
      && (o.At? ==> AllNormal(end) && o.path == Render(base + end) && DirectoriesDown(c, base, Parent(end)))
      && (o.At? && end != [] ==> IsEntry(c, o.path))
      && (o.At? && more ==> DirectoriesDown(c, base, end))
    decreases Budget(c, hops), |pending|
  {
    end := below;
    if pending != [] {
      var part, rest := pending[0], pending[1..];
      if part == "" || part == "." {
        end := WalkStaysUnder(c, base, below, rest, hops, looked, more);
      } else if part == ".." {
        UpStaysUnder(c, base, below);
        if !Escapes(c, Render(base + below)) {
          end := WalkStaysUnder(c, base, Parent(below), rest, hops, looked, more);
        }
      } else {
        end := StepStaysUnder(c, base, below, pending, hops, looked, more);
      }
    }
  }

  lemma {:induction false} StepStaysUnder(c: Config, base: seq<string>, below: seq<string>, pending: seq<string>,
                                          hops: int,
                                          looked: seq<string>, more: bool) returns (end: seq<string>)
    requires Anchored(c, base) && AllNormal(below) && DirectoriesDown(c, base, below) && NoSlashes(pending)
      && AllUnder(looked, base)
    requires pending != [] && Normal(pending[0])
    ensures var o := Walk(c, Render(base + below), pending, hops, looked, more);
      && AllUnder(o.looked, base)
      && (o.At? ==> AllNormal(end) && o.path == Render(base + end) && DirectoriesDown(c, base, Parent(end)))
      && (o.At? && end != [] ==> IsEntry(c, o.path))
      && (o.At? && more ==> DirectoriesDown(c, base, end))
    decreases Budget(c, hops), |pending|, 0
  {
    end := below;
    var part, rest := pending[0], pending[1..];
    var deeper := below + [part];
    StepPath(base, below, part);
    var next := Render(base + deeper);
    assert Under(next, base);
    var v := VisitEntry(c, Render(base + below), next, hops, rest != [] || more);
    if v.Follow? {
      var from := LinkStaysUnder(c, base, below, Find(c, next).file.target);
      end := WalkStaysUnder(c, base, from, v.parts + rest, hops + 1, looked + [next], more);
    } else if v.Down? {
      if rest == [] && !more {
        end := deeper;
      } else {
        end := WalkStaysUnder(c, base, deeper, rest, hops, looked + [next], more);
      }
    }
  }

  lemma StepPath(base: seq<string>, below: seq<string>, part: string)
    requires AllNormal(base) && AllNormal(below) && Normal(part)
    ensures JoinPath(Render(base + below), part) == Render(base + (below + [part]))
    ensures AllNormal(below + [part]) && Parent(below + [part]) == below
  {
    JoinRender(base + below, part);
    assert base + below + [part] == base + (below + [part]);
  }

  lemma LinkStaysUnder(c: Config, base: seq<string>, below: seq<string>, target: string) returns (from: seq<string>)
    requires Anchored(c, base) && AllNormal(below) && DirectoriesDown(c, base, below)
    ensures AllNormal(from) && DirectoriesDown(c, base, from)
      && LinkBase(c, Render(base + below), target) == Render(base + from)
  {
    from := if IsAbs(target) then [] else below;
    assert base + [] == base;
    if base == [] {
      assert Render(base) == "/";
    }
  }

  /**
   Resolution against a clean absolute root, for any tree and any path: every lookup is of the root or of a path
   below it, and with links followed, a link is returned only when the root entry is itself a link.
   */
  lemma ResolutionIsContained(c: Config, path: string)
    requires (IsAbs(c.root) && Clean(c.root) == c.root) || (c.root == "" && IsAbs(path))
    ensures var base := if c.root == "" then "/" else c.root; var o := Walk(c, base, Split(path, '/'), 0, [], false);
      && (forall k :: 0 <= k < |o.looked| ==>
          WithinMemoryRoot(o.looked[k], c.root) && IsAbs(o.looked[k]) && Clean(o.looked[k]) == o.looked[k])
      && (o.At? ==> WithinMemoryRoot(o.path, c.root) && Clean(o.path) == o.path)
      && (c.followFinal && Finish(c, o).Resolved? && Finish(c, o).file.kind == Symlink ==> o.path == base)
  {
    var base := [];
    if c.root != "" {
      base := CleanIsRender(c.root);
    }
    assert base + [] == base && Render([]) == "/";
    var end := WalkStaysUnder(c, base, [], Split(path, '/'), 0, [], false);
    var o := Walk(c, Render(base), Split(path, '/'), 0, [], false);
    forall k | 0 <= k < |o.looked|
      ensures WithinMemoryRoot(o.looked[k], c.root) && IsAbs(o.looked[k]) && Clean(o.looked[k]) == o.looked[k]
    {
      assert Under(o.looked[k], base);
      var below :| AllNormal(below) && o.looked[k] == Render(base + below);
      WithinRender(base, below);
      CleanRender(base + below);
    }
    if o.At? {
      WithinRender(base, end);
      CleanRender(base + end);
    }
  }

  /** Resolving `path` ends at a link and returns it. */
  predicate ReturnsLink(c: Config, path: string) {
    var r := Finish(c, Walk(c, Start(path, c.root), Split(path, '/'), 0, [], false));
    r.Resolved? && r.file.kind == Symlink
  }

  predicate IsLink(c: Config, path: string) {
    Find(c, path).Found? && Find(c, path).file.kind == Symlink
  }

  /** A path that never leaves the start returns the root entry as it is, even if that is a link to follow. */
  lemma RootLinkIsReturned(c: Config)
    requires IsLink(c, Start("/", c.root))
    ensures ReturnsLink(c, "/")
  {
    var base := Start("/", c.root);
    assert Split("/", '/') == ["", ""] && ["", ""][1..] == [""] && [""][1..] == [];
    assert Walk(c, base, [""], 0, [], false) == Walk(c, base, [], 0, [], false) == At(base, 0, []);
  }

  /** With links followed, some path returns a link exactly when the entry of the root is one. */
  lemma LinkIsReturnedIffRootIsLink(c: Config)
    requires c.followFinal && ((IsAbs(c.root) && Clean(c.root) == c.root) || c.root == "")
    ensures (exists path :: IsAbs(path) && ReturnsLink(c, path)) <==> IsLink(c, Start("/", c.root))
    ensures c.root != "" ==> ((exists path :: ReturnsLink(c, path)) <==> IsLink(c, c.root))
  {
    if IsLink(c, Start("/", c.root)) {
      RootLinkIsReturned(c);
      assert IsAbs("/");
    }
    forall path | (c.root != "" || IsAbs(path)) && ReturnsLink(c, path) ensures IsLink(c, Start("/", c.root)) {
      ResolutionIsContained(c, path);
    }
  }

  // --- Plain paths ---

  /** Existing entries below existing directories are found, in one lookup each. */
  lemma {:induction false} PlainPathIsFound(c: Config, here: seq<string>, parts: seq<string>, hops: int,
                                            looked: seq<string>)
    requires AllNormal(here) && AllNormal(parts) && parts != []
    requires DirectoriesDown(c, here, Parent(parts)) && IsEntry(c, Render(here + parts))
    ensures var o := Walk(c, Render(here), parts, hops, looked, false);
      o.At? && o.path == Render(here + parts) && o.hops == hops && |o.looked| == |looked| + |parts|
    decreases |parts|
  {
    var part, rest := parts[0], parts[1..];
    var next := here + [part];
    JoinRender(here, part);
    if rest == [] {
      assert parts == [part];
      assert VisitEntry(c, Render(here), Render(next), hops, false) == Down(Render(next));
      assert Walk(c, Render(next), rest, hops, looked + [Render(next)], false)
        == At(Render(next), hops, looked + [Render(next)]);
    } else {
      FirstIsDirectory(c, here, Parent(parts));
      assert Parent(parts)[0] == part && Parent(parts)[1..] == Parent(rest);
      assert here + parts == next + rest;
      assert VisitEntry(c, Render(here), Render(next), hops, true) == Down(Render(next));
      PlainPathIsFound(c, next, rest, hops, looked + [Render(next)]);
    }
  }

  lemma {:induction false} FirstIsDirectory(c: Config, base: seq<string>, below: seq<string>)
    requires below != [] && DirectoriesDown(c, base, below)
    ensures IsDirectory(c, Render(base + [below[0]])) && DirectoriesDown(c, base + [below[0]], below[1..])
  {
    if |below| == 1 {
      assert below == [below[0]];
    } else {
      FirstIsDirectory(c, base, Parent(below));
      assert Parent(below)[1..] == Parent(below[1..]);
      assert base + [below[0]] + below[1..] == base + below;
    }
  }
}
