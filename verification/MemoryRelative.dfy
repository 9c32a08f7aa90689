/**
 Relative paths without a root in the in-memory tree: a walk from the working directory, which `..` may leave upwards
 without end and an absolute link leaves for the top of the tree.
 */
module MemoryRelative {
  import opened Options
  import opened Text
  import opened Paths
  import opened PathOutcomes
  import opened MemoryPath
  import opened MemoryReference

  /** Where a relative walk ends: below the working directory or a directory above it, or below the top of the tree. */
  datatype Spot =
    | Near(ups: nat, below: seq<string>, links: int)
    | Top(place: Place)
    | Nowhere(err: WalkError, links: int)

  /** The walk of `pending` from the directory `ups` levels above the working directory and down `below`. */
  function LocateNear(c: Config, ups: nat, below: seq<string>, pending: seq<string>, links: int, more: bool): Spot
    decreases if c.limit > links then c.limit - links else 0, |pending|
  {
    if pending == [] then Near(ups, below, links)
    else
      var part, rest := pending[0], pending[1..];
      if part == "" || part == "." then LocateNear(c, ups, below, rest, links, more)
      else if part == ".." then
        if below != [] then LocateNear(c, ups, below[..|below| - 1], rest, links, more)
        else LocateNear(c, ups + 1, [], rest, links, more)
      else
        var next := below + [part];
        match Entry(c, RenderRelative(ups, next))
        case None => Nowhere(MissingEntry(c, RenderRelative(ups, next)), links)
        case Some(file) =>
          if file.kind != Symlink then
            if file.kind != Directory && (rest != [] || more) then Nowhere(NotDirectory, links)
            else LocateNear(c, ups, next, rest, links, more)
          else if !c.followFinal && rest == [] && !more then Near(ups, next, links)
          else if links >= c.limit then Nowhere(TooManyLinks, links + 1)
          else if file.target == "" then Nowhere(NotExist, links + 1)
          else if file.target[0] != '/' then LocateNear(c, ups, below, Split(file.target, '/') + rest, links + 1, more)
          else Top(Locate(c, [], [], Split(file.target, '/') + rest, links + 1, more))
  }

  predicate Meets(o: Outcome, spot: Spot) {
    match spot
    case Near(ups, below, links) =>
      o.At? && o.path == RenderRelative(ups, below) && o.hops == links && AllNormal(below)
    case Top(place) => Matches(o, [], place)
    case Nowhere(err, links) => o.Failed? && o.err == err && o.hops == links
  }

  lemma {:induction false} UpsAreDots(n: nat)
    ensures OnlyDotsAndSlashes(RenderRelative(n, []))
  {
    assert Ups(n) + [] == Ups(n);
    if n > 1 {
      assert Ups(n)[1..] == Ups(n - 1) && Ups(n - 1) + [] == Ups(n - 1);
      UpsAreDots(n - 1);
      assert RenderRelative(n, []) == ".." + "/" + RenderRelative(n - 1, []);
    }
  }

  lemma UpIsNear(c: Config, ups: nat, below: seq<string>)
    requires c.root == "" && AllNormal(below)
    ensures var current := RenderRelative(ups, below);
      && !Escapes(c, current)
      && Above(c, current) == if below == [] then RenderRelative(ups + 1, []) else RenderRelative(ups, Parent(below))
  {
    RelativeIsNotEmpty(ups, below);
    JoinUpRelative(ups, below);
    if below == [] {
      UpsAreDots(ups);
    } else {
      DirRelative(ups, below);
    }
  }

  /** What a walk and its account go on with after an entry. */
  ghost predicate NearAlike(c: Config, v: Visit, spot: Spot, ups: nat, rest: seq<string>, hops: int, more: bool,
                            to: seq<string>) {
    AllNormal(to) && match v
      case Stop(err, used) => spot == Nowhere(err, used)
      case Down(path) => path == RenderRelative(ups, to) && spot == LocateNear(c, ups, to, rest, hops, more)
      case Follow(from, parts) =>
        && hops < c.limit && NoSlashes(parts)
        && (|| (from == RenderRelative(ups, to) && spot == LocateNear(c, ups, to, parts + rest, hops + 1, more))
            || (from == Render([]) && spot == Top(Locate(c, [], [], parts + rest, hops + 1, more))))
  }

  /** Without a root, from the working directory, the walk on strings is the walk on components. */
  lemma {:induction false} WalkIsNear(c: Config, ups: nat, below: seq<string>, pending: seq<string>, hops: int,
                                      looked: seq<string>, more: bool)
    requires c.root == "" && AllNormal(below) && NoSlashes(pending)
    ensures Meets(Walk(c, RenderRelative(ups, below), pending, hops, looked, more),
                  LocateNear(c, ups, below, pending, hops, more))
    decreases Budget(c, hops), |pending|, 1
  {
    if pending != [] {
      var part, rest := pending[0], pending[1..];
      if part == "" || part == "." {
        WalkIsNear(c, ups, below, rest, hops, looked, more);
      } else if part == ".." {
        UpIsNear(c, ups, below);
        if below == [] {
          WalkIsNear(c, ups + 1, [], rest, hops, looked, more);
        } else {
          WalkIsNear(c, ups, Parent(below), rest, hops, looked, more);
        }
      } else {
        var next := RenderRelative(ups, below + [part]);
        NearVisits(c, ups, below, pending, hops, looked, more);
        var to := VisitIsNear(c, ups, below, pending, hops, more);
        AfterIsNear(c, VisitEntry(c, RenderRelative(ups, below), next, hops, rest != [] || more),
                    LocateNear(c, ups, below, pending, hops, more), ups, rest, hops, looked + [next], more, to);
      }
    }
  }

  lemma NearVisits(c: Config, ups: nat, below: seq<string>, pending: seq<string>, hops: int, looked: seq<string>,
                   more: bool)
    requires AllNormal(below) && pending != [] && Normal(pending[0])
    ensures var next, rest := RenderRelative(ups, below + [pending[0]]), pending[1..];
      Walk(c, RenderRelative(ups, below), pending, hops, looked, more) ==
      After(c, VisitEntry(c, RenderRelative(ups, below), next, hops, rest != [] || more), rest, hops, looked + [next],
            more)
  {
    JoinRelative(ups, below, pending[0]);
  }

  lemma {:induction false} AfterIsNear(c: Config, v: Visit, spot: Spot, ups: nat, rest: seq<string>, hops: int,
                                       seen: seq<string>, more: bool, to: seq<string>)
    requires c.root == "" && NoSlashes(rest) && NearAlike(c, v, spot, ups, rest, hops, more, to)
    ensures Meets(After(c, v, rest, hops, seen, more), spot)
    decreases Budget(c, hops), |rest| + 1, 0
  {
    match v
    case Stop(_, _) =>
    case Down(_) => WalkIsNear(c, ups, to, rest, hops, seen, more);
    case Follow(from, parts) =>
      if from == RenderRelative(ups, to) && spot == LocateNear(c, ups, to, parts + rest, hops + 1, more) {
        WalkIsNear(c, ups, to, parts + rest, hops + 1, seen, more);
      } else {
        var top: seq<string> := [];
        assert top + [] == top;
        WalkIsLocate(c, top, [], parts + rest, hops + 1, seen, more);
      }
  }

  lemma VisitIsNear(c: Config, ups: nat, below: seq<string>, pending: seq<string>, hops: int, more: bool)
    returns (to: seq<string>)
    requires c.root == "" && AllNormal(below) && pending != [] && Normal(pending[0])
    ensures var next, rest := RenderRelative(ups, below + [pending[0]]), pending[1..];
      NearAlike(c, VisitEntry(c, RenderRelative(ups, below), next, hops, rest != [] || more),
                LocateNear(c, ups, below, pending, hops, more), ups, rest, hops, more, to)
  {
    var next, rest := RenderRelative(ups, below + [pending[0]]), pending[1..];
    var v := VisitEntry(c, RenderRelative(ups, below), next, hops, rest != [] || more);
    EntryIsFound(c, next);
    to := below;
    if v.Down? {
      to := below + [pending[0]];
    } else if v.Follow? {
      FollowMeans(c, RenderRelative(ups, below), next, hops, rest != [] || more);
      assert Render([]) == "/";
    }
  }

  /** Resolution of a relative path without a root. */
  lemma RelativeIsLocated(c: Config, path: string)
    requires c.root == "" && (path == "" || path[0] != '/')
    ensures Meets(Walk(c, Start(path, c.root), Split(path, '/'), 0, [], false),
                  LocateNear(c, 0, [], Split(path, '/'), 0, false))
  {
    WalkIsNear(c, 0, [], Split(path, '/'), 0, [], false);
  }
}
