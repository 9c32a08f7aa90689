/**
 What cleaning and joining paths comes to: empty components and dots go, `..` takes away the component before it, and
 relative paths keep their leading `..`.
 */
module PathOutcomes {
  import opened Text
  import opened Paths

  // --- Components ---

  /** Empty components and dots count for nothing. */
  lemma {:induction false} SkipsNothing(a: seq<string>, s: string, b: seq<string>, rooted: bool, stack: seq<string>)
    requires s == "" || s == "."
    ensures CleanParts(a + [s] + b, rooted, stack) == CleanParts(a + b, rooted, stack)
  {
    if a == [] {
      assert a + [s] + b == [s] + b && a + b == b && ([s] + b)[1..] == b;
    } else {
      assert (a + [s] + b)[1..] == a[1..] + [s] + b && (a + b)[1..] == a[1..] + b;
      SkipsNothing(a[1..], s, b, rooted, NextStack(a[0], rooted, stack));
    }
  }

  /** What one component does to those before it. */
  function NextStack(part: string, rooted: bool, stack: seq<string>): seq<string> {
    if part == "" || part == "." then stack
    else if part != ".." then stack + [part]
    else if stack != [] && stack[|stack| - 1] != ".." then stack[..|stack| - 1]
    else if rooted then stack
    else stack + [".."]
  }

  /** `..` takes away the name before it. */
  lemma {:induction false} UpCancels(a: seq<string>, x: string, b: seq<string>, rooted: bool, stack: seq<string>)
    requires Normal(x)
    ensures CleanParts(a + [x, ".."] + b, rooted, stack) == CleanParts(a + b, rooted, stack)
  {
    var all := a + [x, ".."] + b;
    if a == [] {
      assert all[1..] == [".."] + b && ([".."] + b)[1..] == b && a + b == b;
      assert (stack + [x])[..|stack|] == stack;
    } else {
      assert all[1..] == a[1..] + [x, ".."] + b && (a + b)[1..] == a[1..] + b;
      UpCancels(a[1..], x, b, rooted, NextStack(a[0], rooted, stack));
    }
  }

  /** Above the root there is nothing. */
  lemma UpStopsAtRoot(b: seq<string>)
    ensures CleanParts([".."] + b, true, []) == CleanParts(b, true, [])
  {
    assert ([".."] + b)[1..] == b;
  }

  /**
   What cleaning leaves of a path's components: empty ones and dots count for nothing, `..` takes away the name before
   it, and at the root it does nothing.
   */
  lemma CleaningMeans(a: seq<string>, s: string, x: string, b: seq<string>, rooted: bool)
    requires (s == "" || s == ".") && Normal(x)
    ensures CleanParts(a + [s] + b, rooted, []) == CleanParts(a + b, rooted, [])
    ensures CleanParts(a + [x, ".."] + b, rooted, []) == CleanParts(a + b, rooted, [])
    ensures CleanParts([".."] + b, true, []) == CleanParts(b, true, [])
  {
    SkipsNothing(a, s, b, rooted, []);
    UpCancels(a, x, b, rooted, []);
    UpStopsAtRoot(b);
  }

  // --- Relative paths ---

  function Ups(n: nat): (r: seq<string>)
    ensures |r| == n && forall k :: 0 <= k < n ==> r[k] == ".."
  {
    seq(n, _ => "..")
  }

  /** The clean relative path that goes up `n` levels and down `cs`. */
  function RenderRelative(n: nat, cs: seq<string>): string {
    if n == 0 && cs == [] then "." else Join(Ups(n) + cs, '/')
  }

  lemma {:induction false} UpsStay(n: nat, m: nat)
    ensures CleanParts(Ups(n), false, Ups(m)) == Ups(m + n)
    decreases n
  {
    if n > 0 {
      assert Ups(n)[1..] == Ups(n - 1) && Ups(m) + [".."] == Ups(m + 1);
      UpsStay(n - 1, m + 1);
    }
  }

  lemma {:induction false} RelativeConcat(a: seq<string>, b: seq<string>, stack: seq<string>)
    ensures CleanParts(a + b, false, stack) == CleanParts(b, false, CleanParts(a, false, stack))
  {
    if a == [] {
      assert a + b == b;
    } else {
      assert (a + b)[1..] == a[1..] + b;
      RelativeConcat(a[1..], b, NextStack(a[0], false, stack));
    }
  }

  lemma RelativeStays(n: nat, cs: seq<string>)
    requires AllNormal(cs)
    ensures CleanParts(Ups(n) + cs, false, []) == Ups(n) + cs
  {
    RelativeConcat(Ups(n), cs, []);
    assert Ups(0) == [];
    UpsStay(n, 0);
    CleanPartsKeep(cs, false, Ups(n));
  }

  lemma NoSlashInRelative(n: nat, cs: seq<string>)
    requires AllNormal(cs)
    ensures forall k :: 0 <= k < |Ups(n) + cs| ==> '/' !in (Ups(n) + cs)[k] && (Ups(n) + cs)[k] != ""
  {
    forall k | 0 <= k < |Ups(n) + cs| ensures '/' !in (Ups(n) + cs)[k] && (Ups(n) + cs)[k] != "" {
      if k >= n {
        assert Normal(cs[k - n]);
      }
    }
  }

  /** A joined list of names starts with a name. */
  lemma JoinedIsRelative(parts: seq<string>)
    requires parts != [] && '/' !in parts[0] && parts[0] != ""
    ensures Join(parts, '/') != "" && !IsAbs(Join(parts, '/')) && Join(parts, '/')[0] == parts[0][0]
  {
    assert Join(parts, '/')[0] == parts[0][0];
  }

  /** Cleaning a joined list that starts with a name. */
  lemma CleanJoinedRelative(parts: seq<string>, n: nat, cs: seq<string>)
    requires parts != [] && parts[0] != "" && forall k :: 0 <= k < |parts| ==> '/' !in parts[k]
    requires CleanParts(parts, false, []) == Ups(n) + cs && AllNormal(cs)
    ensures Clean(Join(parts, '/')) == RenderRelative(n, cs)
  {
    JoinedIsRelative(parts);
    SplitJoin(parts, '/');
    if n == 0 && cs == [] {
      assert Ups(0) + [] == [];
    } else {
      NoSlashInRelative(n, cs);
      JoinedIsRelative(Ups(n) + cs);
    }
  }

  lemma CleanRelative(n: nat, cs: seq<string>)
    requires AllNormal(cs)
    ensures Clean(RenderRelative(n, cs)) == RenderRelative(n, cs)
  {
    if n == 0 && cs == [] {
      DotAlone();
    } else {
      NoSlashInRelative(n, cs);
      RelativeStays(n, cs);
      CleanJoinedRelative(Ups(n) + cs, n, cs);
    }
  }

  lemma DotAlone()
    ensures Clean(".") == "." && Clean("") == "."
  {
    SplitPart(".", '/');
    assert Split(".", '/') == ["."] && ["."][1..] == [];
    assert CleanParts(["."], false, []) == CleanParts([], false, []) == [];
  }

  /** The parts of a relative path with one more component. */
  lemma RelativeParts(n: nat, cs: seq<string>, part: string) returns (parts: seq<string>)
    requires AllNormal(cs) && (Normal(part) || part == "..")
    ensures RenderRelative(n, cs) + "/" + part == Join(parts, '/')
    ensures parts != [] && parts[0] != "" && forall k :: 0 <= k < |parts| ==> '/' !in parts[k]
    ensures CleanParts(parts, false, []) == CleanParts([part], false, Ups(n) + cs)
  {
    var front := if n == 0 && cs == [] then ["."] else Ups(n) + cs;
    parts := front + [part];
    JoinConcat(front, [part]);
    RelativeConcat(front, [part], []);
    if n == 0 && cs == [] {
      assert ["."][1..] == [] && CleanParts(["."], false, []) == CleanParts([], false, []) == [];
      assert Ups(n) + cs == [];
    } else {
      NoSlashInRelative(n, cs);
      RelativeStays(n, cs);
    }
  }

  /** Joining a name goes one level down. */
  lemma JoinRelative(n: nat, cs: seq<string>, part: string)
    requires AllNormal(cs) && Normal(part)
    ensures JoinPath(RenderRelative(n, cs), part) == RenderRelative(n, cs + [part])
  {
    var parts := RelativeParts(n, cs, part);
    assert [part][1..] == [];
    assert Ups(n) + cs + [part] == Ups(n) + (cs + [part]);
    assert CleanParts([part], false, Ups(n) + cs) == CleanParts([], false, Ups(n) + cs + [part]);
    CleanJoinedRelative(parts, n, cs + [part]);
    RelativeIsNotEmpty(n, cs);
  }

  lemma RelativeIsNotEmpty(n: nat, cs: seq<string>)
    requires AllNormal(cs)
    ensures RenderRelative(n, cs) != "" && !IsAbs(RenderRelative(n, cs))
  {
    if n > 0 || cs != [] {
      NoSlashInRelative(n, cs);
      JoinedIsRelative(Ups(n) + cs);
    }
  }

  /** Joining `..` goes one level up: out of the last name, or above the start. */
  lemma JoinUpRelative(n: nat, cs: seq<string>)
    requires AllNormal(cs)
    ensures JoinPath(RenderRelative(n, cs), "..") ==
      if cs == [] then RenderRelative(n + 1, []) else RenderRelative(n, Parent(cs))
  {
    var parts := RelativeParts(n, cs, "..");
    RelativeIsNotEmpty(n, cs);
    var stack := Ups(n) + cs;
    assert [".."][1..] == [];
    if cs == [] {
      assert stack == Ups(n) && Ups(n) + [".."] == Ups(n + 1) + [];
      assert CleanParts([".."], false, stack) == CleanParts([], false, stack + [".."]);
      CleanJoinedRelative(parts, n + 1, []);
    } else {
      assert Normal(cs[|cs| - 1]) && stack[|stack| - 1] == cs[|cs| - 1];
      assert stack[..|stack| - 1] == Ups(n) + Parent(cs);
      assert CleanParts([".."], false, stack) == CleanParts([], false, stack[..|stack| - 1]);
      CleanJoinedRelative(parts, n, Parent(cs));
    }
  }

  /** The directory of a relative path with a name at its end is the path without it. */
  lemma DirRelative(n: nat, cs: seq<string>)
    requires AllNormal(cs) && cs != []
    ensures Dir(RenderRelative(n, cs)) == RenderRelative(n, Parent(cs))
  {
    var front, last := Ups(n) + Parent(cs), cs[|cs| - 1];
    assert Ups(n) + cs == front + [last];
    assert Normal(last);
    if front == [] {
      assert RenderRelative(n, cs) == last;
      NoSlashAtAll(last);
      DotAlone();
    } else {
      JoinConcat(front, [last]);
      LastSlash(Join(front, '/'), last);
      JoinConcat(front, [""]);
      assert Join(front + [""], '/') == Join(front, '/') + "/";
      NoSlashInRelative(n, Parent(cs));
      RelativeStays(n, Parent(cs));
      RelativeConcat(front, [""], []);
      assert [""][1..] == [] && CleanParts([""], false, front) == CleanParts([], false, front);
      CleanJoinedRelative(front + [""], n, Parent(cs));
    }
  }

  lemma {:induction false} NoSlashAtAll(s: string)
    requires '/' !in s
    ensures ThroughLastSlash(s) == ""
  {
    if s != "" {
      assert s[|s| - 1] in s;
      NoSlashAtAll(s[..|s| - 1]);
    }
  }
}
