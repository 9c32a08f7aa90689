/**
 A second account of pathname traversal, on lists of components below a root instead of on strings: where a walk
 leads, read off the stored entries alone. The walk of internal/platform/memory_path.go computes it, and links mean
 what they mean in a file system.
 */
module MemoryReference {
  import opened Options
  import opened Text
  import opened Paths
  import opened MemoryPath

  /** Where components lead below the root, after how many links; or why nowhere. */
  datatype Place = Reached(below: seq<string>, links: int) | Lost(err: WalkError, links: int)

  /** The stored entry, unless it is missing or answers with an error. */
  function Entry(c: Config, path: string): Option<VirtualFile> {
    if path in c.files && c.files[path].forced == NoError then Some(c.files[path]) else None
  }

  function MissingEntry(c: Config, path: string): WalkError {
    if path in c.files && c.files[path].forced.ForcedError? then Forced(c.files[path].forced.text) else NotExist
  }

  /** The components of an absolute target that are below the root, if it is there. */
  function BelowRoot(base: seq<string>, parts: seq<string>): Option<seq<string>> {
    if |parts| > |base| && parts[..|base| + 1] == [""] + base then Some(parts[|base| + 1..]) else None
  }

  /** The walk of `pending` from the directory `base + below`; `more` says that components will follow. */
  function Locate(c: Config, base: seq<string>, below: seq<string>, pending: seq<string>, links: int, more: bool): Place
    decreases if c.limit > links then c.limit - links else 0, |pending|
  {
    if pending == [] then Reached(below, links)
    else
      var part, rest := pending[0], pending[1..];
      if part == "" || part == "." then Locate(c, base, below, rest, links, more)
      else if part == ".." then
        if below != [] then Locate(c, base, below[..|below| - 1], rest, links, more)
        else if base == [] then Locate(c, base, [], rest, links, more)
        else Lost(SubpathEscape, links)
      else
        var next := below + [part];
        match Entry(c, Render(base + next))
        case None => Lost(MissingEntry(c, Render(base + next)), links)
        case Some(file) =>
          if file.kind != Symlink then
            if file.kind != Directory && (rest != [] || more) then Lost(NotDirectory, links)
            else Locate(c, base, next, rest, links, more)
          else if !c.followFinal && rest == [] && !more then Reached(next, links)
          else if links >= c.limit then Lost(TooManyLinks, links + 1)
          else if file.target == "" then Lost(NotExist, links + 1)
          else if file.target[0] != '/' then Locate(c, base, below, Split(file.target, '/') + rest, links + 1, more)
          else
            match BelowRoot(base, Split(file.target, '/'))
            case None => Lost(SubpathEscape, links + 1)
            case Some(parts) => Locate(c, base, [], parts + rest, links + 1, more)
  }

  /** A walk on strings ends where the one on components does, or fails as it does. */
  predicate Matches(o: Outcome, base: seq<string>, place: Place) {
    match place
    case Reached(below, links) => o.At? && o.path == Render(base + below) && o.hops == links && AllNormal(below)
    case Lost(err, links) => o.Failed? && o.err == err && o.hops == links
  }

  // --- Absolute targets ---

  lemma SplitStarts(parts: seq<string>, s: string)
    requires parts != [] && forall k :: 0 <= k < |parts| ==> '/' !in parts[k]
    ensures s == Join(parts, '/') || HasPrefix(s, Join(parts, '/') + "/") <==>
      |Split(s, '/')| >= |parts| && Split(s, '/')[..|parts|] == parts
    ensures HasPrefix(s, Join(parts, '/') + "/") ==>
      Split(s, '/') == parts + Split(s[|Join(parts, '/')| + 1..], '/')
  {
    var joined := Join(parts, '/');
    if HasPrefix(s, joined + "/") {
      var left := s[|joined| + 1..];
      assert s == joined + "/" + left;
      assert forall k :: 0 <= k < |Split(left, '/')| ==> '/' !in Split(left, '/')[k];
      JoinConcat(parts, Split(left, '/'));
      SplitJoin(parts + Split(left, '/'), '/');
    } else if s == joined {
      SplitJoin(parts, '/');
    }
    if |Split(s, '/')| >= |parts| && Split(s, '/')[..|parts|] == parts {
      var tail := Split(s, '/')[|parts|..];
      assert Split(s, '/') == parts + tail;
      if tail == [] {
        assert Split(s, '/') == parts;
      } else {
        JoinConcat(parts, tail);
        assert s == joined + "/" + Join(tail, '/');
      }
    }
  }

  lemma {:induction false} NoSlashToTrim(s: string)
    requires s != "" && s[|s| - 1] != '/'
    ensures TrimRightSlashes(s) == s
  {
  }

  lemma SplitAfterSlash(s: string)
    requires s != "" && s[0] == '/'
    ensures Split(s, '/') == [""] + Split(s[1..], '/')
  {
  }

  lemma {:induction false} LastOfJoin(parts: seq<string>)
    requires AllNormal(parts) && parts != []
    ensures Join(parts, '/') != "" && Join(parts, '/')[|Join(parts, '/')| - 1] != '/'
  {
    assert Normal(parts[0]);
    if |parts| > 1 {
      LastOfJoin(parts[1..]);
    }
  }

  /** An absolute target is walked from the root, with the components below it. */
  lemma AbsoluteTarget(c: Config, base: seq<string>, current: string, target: string)
    requires Anchored(c, base) && target != "" && target[0] == '/'
    ensures BelowRoot(base, Split(target, '/')).Some? <==> WithinMemoryRoot(target, c.root)
    ensures WithinMemoryRoot(target, c.root) ==>
      && LinkParts(c, target) == [""] + BelowRoot(base, Split(target, '/')).value
      && LinkBase(c, current, target) == Render(base)
  {
    SplitAfterSlash(target);
    if base == [] {
      assert Render(base) == "/" && [""] + base == [""];
      assert TrimRightSlashes("/") == TrimRightSlashes("") == "";
      assert target[0..] == target;
    } else {
      RootedTarget(c, base, target);
    }
  }

  lemma BelowRootOf(base: seq<string>, tail: seq<string>)
    ensures BelowRoot(base, [""] + base + tail) == Some(tail)
  {
    var parts := [""] + base + tail;
    assert parts[..|base| + 1] == [""] + base && parts[|base| + 1..] == tail;
  }

  /** A rooted path as a joined list, and that it does not end in a slash. */
  lemma RootIsJoined(base: seq<string>)
    requires AllNormal(base) && base != []
    ensures Render(base) == Join([""] + base, '/') && |Render(base)| > 1
    ensures TrimRightSlashes(Render(base)) == Render(base)
  {
    JoinConcat([""], base);
    LastOfJoin(base);
    NoSlashToTrim(Render(base));
  }

  lemma RootedTarget(c: Config, base: seq<string>, target: string)
    requires Anchored(c, base) && base != [] && target != "" && target[0] == '/'
    ensures BelowRoot(base, Split(target, '/')).Some? <==> WithinMemoryRoot(target, c.root)
    ensures WithinMemoryRoot(target, c.root) ==>
      LinkParts(c, target) == [""] + BelowRoot(base, Split(target, '/')).value
  {
    RootIsJoined(base);
    RootedIsWithin(base, target, c.root);
    if WithinMemoryRoot(target, c.root) {
      RootedParts(base, target, c.root);
      assert LinkParts(c, target) == Split(TrimPrefix(target, c.root), '/');
    }
  }

  lemma RootedIsWithin(base: seq<string>, target: string, root: string)
    requires AllNormal(base) && root == Join([""] + base, '/') && |root| > 1
    ensures BelowRoot(base, Split(target, '/')).Some? <==> WithinMemoryRoot(target, root)
  {
    assert |[""] + base| == |base| + 1;
    SplitStarts([""] + base, target);
  }

  lemma RootedParts(base: seq<string>, target: string, root: string)
    requires AllNormal(base) && base != [] && root == Join([""] + base, '/') == Render(base) && |root| > 1
    requires WithinMemoryRoot(target, root)
    ensures BelowRoot(base, Split(target, '/')).Some?
    ensures Split(TrimPrefix(target, root), '/') == [""] + BelowRoot(base, Split(target, '/')).value
  {
    if target == root {
      TargetIsRoot(base);
      assert TrimPrefix(target, root) == "";
    } else {
      SplitStarts([""] + base, target);
      BelowRootOf(base, Split(target[|root| + 1..], '/'));
      TrimRooted(target, root);
    }
  }

  lemma TargetIsRoot(base: seq<string>)
    requires AllNormal(base) && base != []
    ensures BelowRoot(base, Split(Render(base), '/')) == Some([]) && Split("", '/') == [""] + []
  {
    RootIsJoined(base);
    SplitJoin([""] + base, '/');
    assert [""] + base + [] == [""] + base;
    BelowRootOf(base, []);
  }

  lemma TrimRooted(target: string, root: string)
    requires HasPrefix(target, root + "/")
    ensures Split(TrimPrefix(target, root), '/') == [""] + Split(target[|root| + 1..], '/')
  {
    var left := target[|root|..];
    assert target[..|root| + 1] == root + "/";
    assert target[..|root|] == target[..|root| + 1][..|root|] == root;
    assert left[0] == target[..|root| + 1][|root|] == '/' && left[1..] == target[|root| + 1..];
    SplitAfterSlash(left);
  }

  // --- The walk computes the place ---

  lemma EntryIsFound(c: Config, path: string)
    ensures Find(c, path) == match Entry(c, path)
            case Some(file) => Found(file)
            case None => Absent(MissingEntry(c, path))
  {
  }

  /** Under a clean absolute root, or from the top of the tree, the walk on strings is the walk on components. */
  lemma {:induction false} WalkIsLocate(c: Config, base: seq<string>, below: seq<string>, pending: seq<string>,
                                        hops: int, looked: seq<string>, more: bool)
    requires Anchored(c, base) && AllNormal(below) && NoSlashes(pending)
    ensures Matches(Walk(c, Render(base + below), pending, hops, looked, more), base,
                    Locate(c, base, below, pending, hops, more))
    decreases Budget(c, hops), |pending|, 1
  {
    if pending != [] {
      var part, rest := pending[0], pending[1..];
      if part == "" || part == "." {
        WalkIsLocate(c, base, below, rest, hops, looked, more);
      } else if part == ".." {
        UpIsLocated(c, base, below);
        if !Escapes(c, Render(base + below)) {
          WalkIsLocate(c, base, Parent(below), rest, hops, looked, more);
        }
      } else {
        WalkVisits(c, base, below, pending, hops, looked, more);
        var to := VisitIsLocated(c, base, below, pending, hops, more);
        var next := Render(base + (below + [part]));
        AfterIsLocated(c, base, VisitEntry(c, Render(base + below), next, hops, rest != [] || more),
                       Locate(c, base, below, pending, hops, more), rest, hops, looked + [next], more, to);
      }
    }
  }

  lemma UpIsLocated(c: Config, base: seq<string>, below: seq<string>)
    requires Anchored(c, base) && AllNormal(below)
    ensures Escapes(c, Render(base + below)) <==> below == [] && base != []
    ensures !Escapes(c, Render(base + below)) ==> Above(c, Render(base + below)) == Render(base + Parent(below))
  {
    UpStaysUnder(c, base, below);
    if below == [] && base == [] {
      assert base + below == [];
      DirRender([]);
      assert Render([]) == "/";
    } else if below == [] {
      assert base + below == base;
    }
  }

  /** What a walk does after visiting an entry. */
  ghost function After(c: Config, v: Visit, rest: seq<string>, hops: int, seen: seq<string>, more: bool): Outcome
    requires v.Follow? ==> hops < c.limit
  {
    match v
    case Stop(err, used) => Failed(err, used, seen)
    case Down(path) => Walk(c, path, rest, hops, seen, more)
    case Follow(from, parts) => Walk(c, from, parts + rest, hops + 1, seen, more)
  }

  /** A visit and a place that go on alike. */
  ghost predicate GoOnAlike(c: Config, base: seq<string>, v: Visit, place: Place, rest: seq<string>, hops: int,
                            more: bool, to: seq<string>) {
    AllNormal(to) && match v
      case Stop(err, used) => place == Lost(err, used)
      case Down(path) => path == Render(base + to) && place == Locate(c, base, to, rest, hops, more)
      case Follow(from, parts) =>
        && hops < c.limit && NoSlashes(parts)
        && from == Render(base + to) && place == Locate(c, base, to, parts + rest, hops + 1, more)
  }

  lemma {:induction false} AfterIsLocated(c: Config, base: seq<string>, v: Visit, place: Place, rest: seq<string>,
                                          hops: int, seen: seq<string>, more: bool, to: seq<string>)
    requires Anchored(c, base) && NoSlashes(rest) && GoOnAlike(c, base, v, place, rest, hops, more, to)
    ensures Matches(After(c, v, rest, hops, seen, more), base, place)
    decreases Budget(c, hops), |rest| + 1, 0
  {
    match v
    case Stop(_, _) =>
    case Down(_) => WalkIsLocate(c, base, to, rest, hops, seen, more);
    case Follow(_, parts) => WalkIsLocate(c, base, to, parts + rest, hops + 1, seen, more);
  }

  lemma WalkVisits(c: Config, base: seq<string>, below: seq<string>, pending: seq<string>, hops: int,
                   looked: seq<string>, more: bool)
    requires AllNormal(base) && AllNormal(below) && pending != [] && Normal(pending[0])
    ensures AllNormal(below + [pending[0]])
    ensures var next, rest := Render(base + (below + [pending[0]])), pending[1..];
      Walk(c, Render(base + below), pending, hops, looked, more) ==
      After(c, VisitEntry(c, Render(base + below), next, hops, rest != [] || more), rest, hops, looked + [next], more)
  {
    StepPath(base, below, pending[0]);
  }

  lemma VisitIsLocated(c: Config, base: seq<string>, below: seq<string>, pending: seq<string>, hops: int, more: bool)
    returns (to: seq<string>)
    requires Anchored(c, base) && AllNormal(below) && pending != [] && Normal(pending[0])
    ensures var next, rest := Render(base + (below + [pending[0]])), pending[1..];
      GoOnAlike(c, base, VisitEntry(c, Render(base + below), next, hops, rest != [] || more),
                Locate(c, base, below, pending, hops, more), rest, hops, more, to)
  {
    var next, rest := Render(base + (below + [pending[0]])), pending[1..];
    var v := VisitEntry(c, Render(base + below), next, hops, rest != [] || more);
    to := below;
    if v.Stop? {
      StopIsLocated(c, base, below, pending, hops, more);
    } else if v.Down? {
      DownIsLocated(c, base, below, pending, hops, more);
      to := below + [pending[0]];
    } else {
      to := FollowIsLocated(c, base, below, pending, hops, more);
    }
  }

  lemma StopIsLocated(c: Config, base: seq<string>, below: seq<string>, pending: seq<string>, hops: int, more: bool)
    requires Anchored(c, base) && pending != [] && Normal(pending[0])
    requires VisitEntry(c, Render(base + below), Render(base + (below + [pending[0]])), hops,
                        pending[1..] != [] || more).Stop?
    ensures var next, rest := Render(base + (below + [pending[0]])), pending[1..];
      var v := VisitEntry(c, Render(base + below), next, hops, rest != [] || more);
      Locate(c, base, below, pending, hops, more) == Lost(v.err, v.hops)
  {
    var next := Render(base + (below + [pending[0]]));
    EntryIsFound(c, next);
    LinkIsLocated(c, base, below, next);
  }

  lemma DownIsLocated(c: Config, base: seq<string>, below: seq<string>, pending: seq<string>, hops: int, more: bool)
    requires pending != [] && Normal(pending[0])
    requires VisitEntry(c, Render(base + below), Render(base + (below + [pending[0]])), hops,
                        pending[1..] != [] || more).Down?
    ensures VisitEntry(c, Render(base + below), Render(base + (below + [pending[0]])), hops, pending[1..] != [] || more)
      == Down(Render(base + (below + [pending[0]])))
    ensures Locate(c, base, below, pending, hops, more) ==
      Locate(c, base, below + [pending[0]], pending[1..], hops, more)
  {
    EntryIsFound(c, Render(base + (below + [pending[0]])));
  }

  lemma FollowIsLocated(c: Config, base: seq<string>, below: seq<string>, pending: seq<string>, hops: int, more: bool)
    returns (to: seq<string>)
    requires Anchored(c, base) && AllNormal(below) && pending != [] && Normal(pending[0])
    requires VisitEntry(c, Render(base + below), Render(base + (below + [pending[0]])), hops,
                        pending[1..] != [] || more).Follow?
    ensures var next, rest := Render(base + (below + [pending[0]])), pending[1..];
      GoOnAlike(c, base, VisitEntry(c, Render(base + below), next, hops, rest != [] || more),
                Locate(c, base, below, pending, hops, more), rest, hops, more, to)
  {
    var next, rest := Render(base + (below + [pending[0]])), pending[1..];
    FollowMeans(c, Render(base + below), next, hops, rest != [] || more);
    var target := Entry(c, next).value.target;
    if IsAbs(target) {
      to := [];
      assert base + [] == base;
      AbsoluteTarget(c, base, Render(base + below), target);
      LocateFromRoot(c, base, below, pending, hops, more);
      SkipEmpty(c, base, BelowRoot(base, Split(target, '/')).value, rest, hops + 1, more);
    } else {
      to := below;
      LocateFromHere(c, base, below, pending, hops, more);
    }
  }

  lemma FollowMeans(c: Config, current: string, next: string, hops: int, onward: bool)
    requires VisitEntry(c, current, next, hops, onward).Follow?
    ensures Entry(c, next).Some? && hops < c.limit && (c.followFinal || onward)
    ensures var file := Entry(c, next).value;
      && file.kind == Symlink && file.target != "" && (IsAbs(file.target) ==> WithinMemoryRoot(file.target, c.root))
      && VisitEntry(c, current, next, hops, onward)
         == Follow(LinkBase(c, current, file.target), LinkParts(c, file.target))
  {
  }

  lemma LocateFromRoot(c: Config, base: seq<string>, below: seq<string>, pending: seq<string>, links: int, more: bool)
    requires pending != [] && Normal(pending[0]) && links < c.limit && (c.followFinal || pending[1..] != [] || more)
    requires var file := Entry(c, Render(base + (below + [pending[0]])));
      file.Some? && file.value.kind == Symlink && IsAbs(file.value.target)
      && BelowRoot(base, Split(file.value.target, '/')).Some?
    ensures var target := Entry(c, Render(base + (below + [pending[0]]))).value.target;
      Locate(c, base, below, pending, links, more) ==
      Locate(c, base, [], BelowRoot(base, Split(target, '/')).value + pending[1..], links + 1, more)
  {
  }

  lemma LocateFromHere(c: Config, base: seq<string>, below: seq<string>, pending: seq<string>, links: int, more: bool)
    requires pending != [] && Normal(pending[0]) && links < c.limit && (c.followFinal || pending[1..] != [] || more)
    requires var file := Entry(c, Render(base + (below + [pending[0]])));
      file.Some? && file.value.kind == Symlink && file.value.target != "" && !IsAbs(file.value.target)
    ensures var target := Entry(c, Render(base + (below + [pending[0]]))).value.target;
      Locate(c, base, below, pending, links, more) ==
      Locate(c, base, below, Split(target, '/') + pending[1..], links + 1, more)
  {
  }

  lemma SkipEmpty(c: Config, base: seq<string>, parts: seq<string>, rest: seq<string>, links: int, more: bool)
    ensures Locate(c, base, [], [""] + parts + rest, links, more) == Locate(c, base, [], parts + rest, links, more)
  {
    var all := [""] + parts + rest;
    assert all[0] == "" && all[1..] == parts + rest;
  }

  lemma LinkIsLocated(c: Config, base: seq<string>, below: seq<string>, next: string)
    requires Anchored(c, base)
    ensures Entry(c, next).Some? && Entry(c, next).value.target != "" ==>
      var target := Entry(c, next).value.target;
      if target[0] != '/' then
        LinkParts(c, target) == Split(target, '/') && LinkBase(c, Render(base + below), target) == Render(base + below)
      else
        && (BelowRoot(base, Split(target, '/')).Some? <==> WithinMemoryRoot(target, c.root))
        && (WithinMemoryRoot(target, c.root) ==>
              && LinkParts(c, target) == [""] + BelowRoot(base, Split(target, '/')).value
              && LinkBase(c, Render(base + below), target) == Render(base))
  {
    if Entry(c, next).Some? && Entry(c, next).value.target != "" && Entry(c, next).value.target[0] == '/' {
      AbsoluteTarget(c, base, Render(base + below), Entry(c, next).value.target);
    }
  }

  /** `r` answers for the place that a path leads to. */
  predicate IsAnswer(c: Config, base: seq<string>, place: Place, r: Resolution) {
    if place.Lost? then r == Refused(place.err)
    else
      var path := Render(base + place.below);
      && (place.links == 0 || place.links <= c.limit)
      && r == if Entry(c, path).Some? then Resolved(Entry(c, path).value, path) else Refused(MissingEntry(c, path))
  }

  /** Resolution as a whole: the entry at the place that the path's components lead to, or what went wrong. */
  lemma ResolutionIsLocated(c: Config, base: seq<string>, path: string)
    requires AllNormal(base) && (c.root == Render(base) || (c.root == "" && base == [] && path != "" && path[0] == '/'))
    ensures IsAnswer(c, base, Locate(c, base, [], Split(path, '/'), 0, false),
                     Finish(c, Walk(c, Start(path, c.root), Split(path, '/'), 0, [], false)))
  {
    assert base + [] == base;
    assert Start(path, c.root) == Render(base);
    WalkIsLocate(c, base, [], Split(path, '/'), 0, [], false);
    LinksAreCounted(c, base, [], Split(path, '/'), 0, false);
    var place := Locate(c, base, [], Split(path, '/'), 0, false);
    if place.Reached? {
      EntryIsFound(c, Render(base + place.below));
    }
  }

  lemma {:induction false} LinksAreCounted(c: Config, base: seq<string>, below: seq<string>, pending: seq<string>,
                                           links: nat, more: bool)
    ensures var place := Locate(c, base, below, pending, links, more);
      place.Reached? ==> place.links == links || links < place.links <= c.limit
    decreases if c.limit > links then c.limit - links else 0, |pending|
  {
    if pending != [] {
      var part, rest := pending[0], pending[1..];
      var next := below + [part];
      if part == "" || part == "." {
        LinksAreCounted(c, base, below, rest, links, more);
      } else if part == ".." {
        LinksAreCounted(c, base, if below == [] then [] else below[..|below| - 1], rest, links, more);
      } else if Entry(c, Render(base + next)).Some? {
        var file := Entry(c, Render(base + next)).value;
        if file.kind != Symlink {
          LinksAreCounted(c, base, next, rest, links, more);
        } else if links < c.limit && file.target != "" {
          var parts := Split(file.target, '/');
          if file.target[0] != '/' {
            LinksAreCounted(c, base, below, parts + rest, links + 1, more);
          } else if BelowRoot(base, parts).Some? {
            LinksAreCounted(c, base, [], BelowRoot(base, parts).value + rest, links + 1, more);
          }
        }
      }
    }
  }

  // --- Where links lead ---

  predicate IsPlain(c: Config, path: string, kind: Kind) {
    path in c.files && c.files[path].forced == NoError && c.files[path].kind == kind
  }

  predicate IsLinkTo(c: Config, path: string, target: string) {
    IsPlain(c, path, Symlink) && c.files[path].target == target
  }

  /** The components lead from `here` through directories to an entry that is no link. */
  predicate LeadsDown(c: Config, here: seq<string>, parts: seq<string>) {
    && (forall k :: 0 < k < |parts| ==> IsPlain(c, Render(here + parts[..k]), Directory))
    && (parts != [] ==> exists kind :: IsPlain(c, Render(here + parts), kind) && kind != Symlink)
  }

  lemma {:induction false} LocateDown(c: Config, base: seq<string>, below: seq<string>, parts: seq<string>, links: int)
    requires AllNormal(parts) && LeadsDown(c, base + below, parts)
    ensures Locate(c, base, below, parts, links, false) == Reached(below + parts, links)
    decreases |parts|
  {
    if parts == [] {
      assert below + parts == below;
    } else {
      var part, rest := parts[0], parts[1..];
      var next := below + [part];
      assert base + below + parts[..1] == base + next;
      assert base + below + parts == base + next + rest && next + rest == below + parts;
      forall k | 0 < k < |rest| ensures IsPlain(c, Render(base + next + rest[..k]), Directory) {
        assert base + below + parts[..k + 1] == base + next + rest[..k];
      }
      if rest == [] {
        assert base + below + parts == base + next;
        assert Locate(c, base, next, rest, links, false) == Reached(next, links);
      } else {
        assert IsPlain(c, Render(base + below + parts[..1]), Directory);
        LocateDown(c, base, next, rest, links);
      }
    }
  }

  /** A relative target leads down from the directory that holds the link. */
  lemma RelativeLinkLeads(c: Config, base: seq<string>, below: seq<string>, part: string, parts: seq<string>, hops: int,
                          looked: seq<string>)
    requires Anchored(c, base) && AllNormal(below) && Normal(part) && AllNormal(parts) && parts != []
    requires c.followFinal && hops < c.limit
    requires IsLinkTo(c, Render(base + below + [part]), Join(parts, '/')) && LeadsDown(c, base + below, parts)
    ensures var o := Walk(c, Render(base + below), [part], hops, looked, false);
      o.At? && o.path == Render(base + below + parts) && o.hops == hops + 1
  {
    RelativeLinkLocates(c, base, below, part, parts, hops);
    WalkIsLocate(c, base, below, [part], hops, looked, false);
    WalkReaches(base, below, parts, Walk(c, Render(base + below), [part], hops, looked, false), hops + 1);
  }

  lemma WalkReaches(base: seq<string>, below: seq<string>, parts: seq<string>, o: Outcome, links: int)
    requires Matches(o, base, Reached(below + parts, links))
    ensures o.At? && o.path == Render(base + below + parts) && o.hops == links
  {
    assert base + (below + parts) == base + below + parts;
  }

  lemma RelativeLinkLocates(c: Config, base: seq<string>, below: seq<string>, part: string, parts: seq<string>,
                            links: int)
    requires Normal(part) && AllNormal(parts) && parts != [] && c.followFinal && links < c.limit
    requires IsLinkTo(c, Render(base + below + [part]), Join(parts, '/')) && LeadsDown(c, base + below, parts)
    ensures Locate(c, base, below, [part], links, false) == Reached(below + parts, links + 1)
  {
    NormalTarget(parts);
    LinkLeadsTo(c, base, below, part, parts, links);
    LocateDown(c, base, below, parts, links + 1);
  }

  lemma NormalTarget(parts: seq<string>)
    requires AllNormal(parts) && parts != []
    ensures Join(parts, '/') != "" && Join(parts, '/')[0] != '/' && Split(Join(parts, '/'), '/') == parts
  {
    SplitJoin(parts, '/');
    assert Normal(parts[0]);
    assert Join(parts, '/')[0] == parts[0][0];
  }

  lemma LinkLeadsTo(c: Config, base: seq<string>, below: seq<string>, part: string, parts: seq<string>, links: int)
    requires Normal(part) && c.followFinal && links < c.limit && IsPlain(c, Render(base + below + [part]), Symlink)
    requires var target := c.files[Render(base + below + [part])].target;
      target != "" && target[0] != '/' && Split(target, '/') == parts
    ensures Locate(c, base, below, [part], links, false) == Locate(c, base, below, parts, links + 1, false)
  {
    assert base + (below + [part]) == base + below + [part];
    LocateRelative(c, base, below, part, parts, links);
  }

  lemma LocateRelative(c: Config, base: seq<string>, below: seq<string>, part: string, parts: seq<string>, links: int)
    requires Normal(part) && c.followFinal && links < c.limit
    requires IsPlain(c, Render(base + (below + [part])), Symlink)
    requires var target := c.files[Render(base + (below + [part]))].target;
      target != "" && target[0] != '/' && Split(target, '/') == parts
    ensures Locate(c, base, below, [part], links, false) == Locate(c, base, below, parts, links + 1, false)
  {
    assert [part][1..] == [] && parts + [] == parts;
  }

  /** A target that starts with `..` leads down from the directory above the one that holds the link. */
  lemma UpwardLinkLeads(c: Config, base: seq<string>, below: seq<string>, part: string, parts: seq<string>, hops: int,
                        looked: seq<string>)
    requires Anchored(c, base) && AllNormal(below) && Normal(part) && AllNormal(parts) && below != []
    requires c.followFinal && hops < c.limit
    requires IsLinkTo(c, Render(base + below + [part]), Join([".."] + parts, '/'))
    requires LeadsDown(c, base + below[..|below| - 1], parts)
    ensures var o := Walk(c, Render(base + below), [part], hops, looked, false);
      o.At? && o.path == Render(base + below[..|below| - 1] + parts) && o.hops == hops + 1
  {
    var up, above := [".."] + parts, below[..|below| - 1];
    UpwardTarget(parts);
    LinkLeadsTo(c, base, below, part, up, hops);
    LocateDown(c, base, above, parts, hops + 1);
    LocateUp(c, base, below, parts, hops + 1);
    WalkIsLocate(c, base, below, [part], hops, looked, false);
    assert base + (above + parts) == base + above + parts;
  }

  lemma UpwardTarget(parts: seq<string>)
    requires AllNormal(parts)
    ensures var target := Join([".."] + parts, '/');
      target != "" && target[0] != '/' && Split(target, '/') == [".."] + parts
  {
    SplitJoin([".."] + parts, '/');
    assert ([".."] + parts)[0] == "..";
    assert Join([".."] + parts, '/')[0] == '.';
  }

  lemma LocateUp(c: Config, base: seq<string>, below: seq<string>, parts: seq<string>, links: int)
    requires below != []
    ensures Locate(c, base, below, [".."] + parts, links, false) ==
      Locate(c, base, below[..|below| - 1], parts, links, false)
  {
    assert ([".."] + parts)[0] == ".." && ([".."] + parts)[1..] == parts;
  }

  /** An absolute target below the root leads to itself. */
  lemma AbsoluteLinkLeads(c: Config, base: seq<string>, below: seq<string>, part: string, parts: seq<string>, hops: int,
                          looked: seq<string>)
    requires Anchored(c, base) && AllNormal(below) && Normal(part) && AllNormal(parts) && parts != []
    requires c.followFinal && hops < c.limit
    requires IsLinkTo(c, Render(base + below + [part]), Render(base + parts)) && LeadsDown(c, base, parts)
    ensures var o := Walk(c, Render(base + below), [part], hops, looked, false);
      o.At? && o.path == Render(base + parts) && o.hops == hops + 1
  {
    var target := Render(base + parts);
    assert base + (below + [part]) == base + below + [part];
    SplitAbsolute(base + parts);
    assert [""] + (base + parts) == [""] + base + parts;
    BelowRootOf(base, parts);
    assert base + [] == base && [] + parts == parts;
    LocateDown(c, base, [], parts, hops + 1);
    LocateAbsolute(c, base, below, part, parts, hops);
    WalkIsLocate(c, base, below, [part], hops, looked, false);
  }

  lemma LocateAbsolute(c: Config, base: seq<string>, below: seq<string>, part: string, parts: seq<string>, links: int)
    requires Normal(part) && c.followFinal && links < c.limit
    requires IsPlain(c, Render(base + (below + [part])), Symlink)
    requires var target := c.files[Render(base + (below + [part]))].target;
      target != "" && target[0] == '/' && BelowRoot(base, Split(target, '/')) == Some(parts)
    ensures Locate(c, base, below, [part], links, false) == Locate(c, base, [], parts, links + 1, false)
  {
    assert [part][1..] == [] && parts + [] == parts;
  }
}
