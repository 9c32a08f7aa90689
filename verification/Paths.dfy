/** The lexical path functions of the library that the program builds on: Clean, Join, Dir and IsAbs on Unix. */
module Paths {
  import opened Text

  predicate IsAbs(path: string) {
    path != "" && path[0] == '/'
  }

  /** The components that are left of `parts` on top of `stack`, when `.` and empty ones go and `..` pops. */
  function CleanParts(parts: seq<string>, rooted: bool, stack: seq<string>): seq<string> {
    if parts == [] then stack
    else if parts[0] == "" || parts[0] == "." then CleanParts(parts[1..], rooted, stack)
    else if parts[0] == ".." then
      if stack != [] && stack[|stack| - 1] != ".." then CleanParts(parts[1..], rooted, stack[..|stack| - 1])
      else if rooted then CleanParts(parts[1..], rooted, stack)
      else CleanParts(parts[1..], rooted, stack + [".."])
    else CleanParts(parts[1..], rooted, stack + [parts[0]])
  }

  function Clean(path: string): string {
    if path == "" then "."
    else
      var body := Join(CleanParts(Split(path, '/'), IsAbs(path), []), '/');
      if IsAbs(path) then "/" + body else if body == "" then "." else body
  }

  function JoinPath(a: string, b: string): string {
    if a != "" then Clean(a + "/" + b) else if b != "" then Clean(b) else ""
  }

  function ThroughLastSlash(path: string): string {
    if path == "" || path[|path| - 1] == '/' then path else ThroughLastSlash(path[..|path| - 1])
  }

  function Dir(path: string): string {
    Clean(ThroughLastSlash(path))
  }

  // --- Clean absolute paths ---

  /** A component that names an entry. */
  predicate Normal(part: string) {
    part != "" && part != "." && part != ".." && '/' !in part
  }

  predicate AllNormal(cs: seq<string>) {
    forall k :: 0 <= k < |cs| ==> Normal(cs[k])
  }

  /** The absolute path with the given components. */
  function Render(cs: seq<string>): string {
    "/" + Join(cs, '/')
  }

  lemma {:induction false} CleanPartsKeep(cs: seq<string>, rooted: bool, stack: seq<string>)
    requires AllNormal(cs)
    ensures CleanParts(cs, rooted, stack) == stack + cs
  {
    if cs != [] {
      CleanPartsKeep(cs[1..], rooted, stack + [cs[0]]);
      assert stack + [cs[0]] + cs[1..] == stack + cs;
    }
  }

  lemma {:induction false} CleanPartsNormal(parts: seq<string>, stack: seq<string>)
    requires AllNormal(stack) && forall k :: 0 <= k < |parts| ==> '/' !in parts[k]
    ensures AllNormal(CleanParts(parts, true, stack))
  {
    if parts != [] {
      if parts[0] == "" || parts[0] == "." {
        CleanPartsNormal(parts[1..], stack);
      } else if parts[0] == ".." {
        CleanPartsNormal(parts[1..], if stack != [] && stack[|stack| - 1] != ".." then stack[..|stack| - 1] else stack);
      } else {
        CleanPartsNormal(parts[1..], stack + [parts[0]]);
      }
    }
  }

  /** A cleaned absolute path is the rendering of normal components. */
  lemma CleanIsRender(path: string) returns (cs: seq<string>)
    requires IsAbs(path)
    ensures AllNormal(cs) && Clean(path) == Render(cs)
  {
    cs := CleanParts(Split(path, '/'), true, []);
    CleanPartsNormal(Split(path, '/'), []);
  }

  lemma {:induction false} JoinConcat(a: seq<string>, b: seq<string>)
    requires a != [] && b != []
    ensures Join(a + b, '/') == Join(a, '/') + "/" + Join(b, '/')
  {
    if |a| == 1 {
      assert (a + b)[1..] == b;
    } else {
      assert (a + b)[1..] == a[1..] + b;
      JoinConcat(a[1..], b);
    }
  }

  /** Cleaning a slash-joined list behind the root. */
  lemma CleanJoined(parts: seq<string>, cs: seq<string>)
    requires parts != [] && (forall k :: 0 <= k < |parts| ==> '/' !in parts[k]) && CleanParts(parts, true, []) == cs
    ensures Clean("/" + Join(parts, '/')) == Render(cs)
  {
    var path := "/" + Join(parts, '/');
    SplitAbsolute(parts);
    CleanPartsConcat([""], parts, []);
    assert CleanParts([""], true, []) == [];
    assert IsAbs(path);
  }

  lemma SplitAbsolute(parts: seq<string>)
    requires parts != [] && (forall k :: 0 <= k < |parts| ==> '/' !in parts[k])
    ensures Split("/" + Join(parts, '/'), '/') == [""] + parts
  {
    var all := [""] + parts;
    JoinConcat([""], parts);
    assert forall k :: 0 <= k < |all| ==> '/' !in all[k];
    SplitJoin(all, '/');
  }

  lemma CleanRender(cs: seq<string>)
    requires AllNormal(cs)
    ensures Clean(Render(cs)) == Render(cs)
  {
    CleanPartsKeep(cs, true, []);
    assert [] + cs == cs;
    if cs == [] {
      CleanJoined([""], []);
      assert Join([""], '/') == "" == Join(cs, '/');
    } else {
      CleanJoined(cs, cs);
    }
  }

  lemma JoinRender(cs: seq<string>, part: string)
    requires AllNormal(cs) && Normal(part)
    ensures JoinPath(Render(cs), part) == Render(cs + [part])
  {
    var prefix := if cs == [] then [""] else cs;
    var parts := prefix + [part];
    JoinConcat(prefix, [part]);
    assert Render(cs) + "/" + part == "/" + Join(parts, '/');
    CleanPartsKeep(cs + [part], true, []);
    assert [] + (cs + [part]) == cs + [part];
    if cs == [] {
      assert parts[1..] == cs + [part];
    }
    CleanJoined(parts, cs + [part]);
  }

  lemma {:induction false} LastSlash(front: string, part: string)
    requires '/' !in part
    ensures ThroughLastSlash(front + "/" + part) == front + "/"
  {
    var s := front + "/" + part;
    if part == "" {
      assert s == front + "/";
    } else {
      var shorter := part[..|part| - 1];
      assert s[..|s| - 1] == front + "/" + shorter;
      assert s[|s| - 1] == part[|part| - 1];
      assert part[|part| - 1] in part;
      LastSlash(front, shorter);
    }
  }

  function Parent(cs: seq<string>): seq<string> {
    if cs == [] then [] else cs[..|cs| - 1]
  }

  lemma DirRender(cs: seq<string>)
    requires AllNormal(cs)
    ensures Dir(Render(cs)) == Render(Parent(cs))
  {
    if cs == [] {
      assert Render(cs) == "/" == ThroughLastSlash("/");
      CleanRender([]);
    } else {
      var front, last := cs[..|cs| - 1], cs[|cs| - 1];
      assert cs == front + [last];
      if front == [] {
        assert cs == [last];
        DirOfOne(last);
      } else {
        DirOfMany(front, last);
      }
    }
  }

  lemma DirOfOne(last: string)
    requires Normal(last)
    ensures Dir(Render([last])) == Render([])
  {
    LastSlash("", last);
    assert Render([last]) == "" + "/" + last;
    assert Render([]) == "/";
    CleanRender([]);
  }

  lemma DirOfMany(front: seq<string>, last: string)
    requires AllNormal(front) && Normal(last) && front != []
    ensures Dir(Render(front + [last])) == Render(front)
  {
    JoinConcat(front, [last]);
    LastSlash(Render(front), last);
    assert Render(front + [last]) == Render(front) + "/" + last;
    JoinConcat(front, [""]);
    assert "/" + Join(front + [""], '/') == Render(front) + "/";
    TrailingEmpty(front);
    CleanJoined(front + [""], front);
  }

  lemma TrailingEmpty(cs: seq<string>)
    requires AllNormal(cs)
    ensures CleanParts(cs + [""], true, []) == cs
  {
    CleanPartsConcat(cs, [""], []);
    CleanPartsKeep(cs, true, []);
    assert [] + cs == cs;
  }

  lemma {:induction false} CleanPartsConcat(a: seq<string>, b: seq<string>, stack: seq<string>)
    ensures CleanParts(a + b, true, stack) == CleanParts(b, true, CleanParts(a, true, stack))
  {
    if a == [] {
      assert a + b == b;
    } else {
      assert (a + b)[1..] == a[1..] + b;
      if a[0] == "" || a[0] == "." {
        CleanPartsConcat(a[1..], b, stack);
      } else if a[0] == ".." {
        CleanPartsConcat(a[1..], b, if stack != [] && stack[|stack| - 1] != ".." then stack[..|stack| - 1] else stack);
      } else {
        CleanPartsConcat(a[1..], b, stack + [a[0]]);
      }
    }
  }

  lemma RenderInjective(a: seq<string>, b: seq<string>)
    requires AllNormal(a) && AllNormal(b) && Render(a) == Render(b)
    ensures a == b
  {
    assert Join(a, '/') == Render(a)[1..] == Render(b)[1..] == Join(b, '/');
    if a != [] && b != [] {
      SplitJoin(a, '/');
      SplitJoin(b, '/');
    } else if a != [] {
      JoinNonempty(a);
    } else if b != [] {
      JoinNonempty(b);
    }
  }

  lemma JoinNonempty(cs: seq<string>)
    requires AllNormal(cs) && cs != []
    ensures Join(cs, '/') != ""
  {
    assert Normal(cs[0]);
  }
}
