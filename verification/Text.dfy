/** Strings in byte order, and the library sort. */
module Text {
  import opened Seqs

  /** Byte-wise lexicographic comparison. */
  predicate AtMost(a: string, b: string) {
    if a == [] then true
    else if b == [] then false
    else a[0] < b[0] || (a[0] == b[0] && AtMost(a[1..], b[1..]))
  }

  predicate Less(a: string, b: string) {
    a != b && AtMost(a, b)
  }

  lemma {:induction false} AtMostTotal(a: string, b: string)
    ensures AtMost(a, b) || AtMost(b, a)
    ensures AtMost(a, a)
  {
    if a != [] && b != [] {
      AtMostTotal(a[1..], b[1..]);
    } else if a != [] {
      AtMostTotal(a[1..], []);
    }
  }

  lemma {:induction false} AtMostAntisymmetric(a: string, b: string)
    requires AtMost(a, b) && AtMost(b, a)
    ensures a == b
  {
    if a != [] {
      AtMostAntisymmetric(a[1..], b[1..]);
      assert a == [a[0]] + a[1..] && b == [b[0]] + b[1..];
    }
  }

  lemma {:induction false} AtMostTransitive(a: string, b: string, c: string)
    requires AtMost(a, b) && AtMost(b, c)
    ensures AtMost(a, c)
  {
    if a != [] && a[0] == b[0] == c[0] {
      AtMostTransitive(a[1..], b[1..], c[1..]);
    }
  }

  /** Of two different strings one is less, and not both. */
  lemma LessIsStrictTotal(a: string, b: string)
    requires a != b
    ensures Less(a, b) <==> !Less(b, a)
  {
    AtMostTotal(a, b);
    if AtMost(a, b) && AtMost(b, a) {
      AtMostAntisymmetric(a, b);
    }
  }

  lemma LessTransitive(a: string, b: string, c: string)
    requires Less(a, b) && AtMost(b, c)
    ensures Less(a, c)
  {
    AtMostTransitive(a, b, c);
    if a == c {
      AtMostAntisymmetric(a, b);
    }
  }

  // --- Sorting ---

  predicate SortedNames(s: seq<string>) {
    forall i, j :: 0 <= i < j < |s| ==> AtMost(s[i], s[j])
  }

  /** The library's string sort: a sorted permutation. */
  method SortNames(s: seq<string>) returns (r: seq<string>)
    ensures SortedNames(r) && multiset(r) == multiset(s)
  {
    r := [];
    var k := 0;
    while k < |s|
      invariant 0 <= k <= |s|
      invariant SortedNames(r) && multiset(r) == multiset(s[..k])
    {
      assert s[..k + 1] == s[..k] + [s[k]];
      r := InsertName(r, s[k]);
      k := k + 1;
    }
    assert s[..k] == s;
  }

  method InsertName(s: seq<string>, x: string) returns (r: seq<string>)
    requires SortedNames(s)
    ensures SortedNames(r) && multiset(r) == multiset(s) + multiset{x}
  {
    var i := 0;
    while i < |s| && AtMost(s[i], x)
      invariant 0 <= i <= |s|
      invariant forall k :: 0 <= k < i ==> AtMost(s[k], x)
    {
      i := i + 1;
    }
    r := s[..i] + [x] + s[i..];
    InsertAddsOne(s, i, x);
    InsertKeepsOrder(s, i, x);
  }

  lemma InsertKeepsOrder(s: seq<string>, i: nat, x: string)
    requires i <= |s| && SortedNames(s)
    requires forall k :: 0 <= k < i ==> AtMost(s[k], x)
    requires i < |s| ==> !AtMost(s[i], x)
    ensures SortedNames(s[..i] + [x] + s[i..])
  {
    forall k | i <= k < |s| ensures AtMost(x, s[k]) {
      AtMostTotal(s[i], x);
      if k > i {
        AtMostTransitive(x, s[i], s[k]);
      }
    }
    var front, back := s[..i] + [x], s[i..];
    forall k | 0 <= k < |back| ensures AtMost(x, back[k]) {
      assert back[k] == s[i + k];
    }
    AtMostTotal(x, x);
    ConcatOrdered(front, back, x);
  }

  lemma ConcatOrdered(a: seq<string>, b: seq<string>, middle: string)
    requires SortedNames(a) && SortedNames(b)
    requires forall k :: 0 <= k < |a| ==> AtMost(a[k], middle)
    requires forall k :: 0 <= k < |b| ==> AtMost(middle, b[k])
    ensures SortedNames(a + b)
  {
    forall i, j | 0 <= i < |a| && 0 <= j < |b| ensures AtMost(a[i], b[j]) {
      AtMostTransitive(a[i], middle, b[j]);
    }
  }

  // --- Splitting and joining ---

  /** The parts between separators; there is always one more part than there are separators. */
  function Split(s: string, sep: char): (parts: seq<string>)
    ensures |parts| >= 1
    ensures forall k :: 0 <= k < |parts| ==> sep !in parts[k]
    ensures Join(parts, sep) == s
  {
    if s == [] then [[]]
    else if s[0] == sep then
      var rest := Split(s[1..], sep);
      assert ([[]] + rest)[1..] == rest;
      assert s == [sep] + s[1..];
      [[]] + rest
    else
      var rest := Split(s[1..], sep);
      assert ([[s[0]] + rest[0]] + rest[1..])[1..] == rest[1..];
      assert s == [s[0]] + s[1..];
      [[s[0]] + rest[0]] + rest[1..]
  }

  function Join(parts: seq<string>, sep: char): string {
    if parts == [] then []
    else if |parts| == 1 then parts[0]
    else parts[0] + [sep] + Join(parts[1..], sep)
  }

  /** Splitting undoes joining when no part contains the separator. */
  lemma {:induction false} SplitJoin(parts: seq<string>, sep: char)
    requires |parts| >= 1 && forall k :: 0 <= k < |parts| ==> sep !in parts[k]
    ensures Split(Join(parts, sep), sep) == parts
  {
    if |parts| == 1 {
      SplitPart(parts[0], sep);
      assert parts == [parts[0]];
    } else {
      SplitJoin(parts[1..], sep);
      SplitFirst(parts[0], Join(parts[1..], sep), sep);
      assert Join(parts, sep) == parts[0] + [sep] + Join(parts[1..], sep);
      assert parts == [parts[0]] + parts[1..];
    }
  }

  lemma {:induction false} SplitPart(part: string, sep: char)
    requires sep !in part
    ensures Split(part, sep) == [part]
  {
    if part != [] {
      SplitPart(part[1..], sep);
      assert part[0] in part;
      assert part == [part[0]] + part[1..];
    }
  }

  lemma {:induction false} SplitFirst(part: string, rest: string, sep: char)
    requires sep !in part
    ensures Split(part + [sep] + rest, sep) == [part] + Split(rest, sep)
  {
    var s := part + [sep] + rest;
    if part == [] {
      assert s[0] == sep && s[1..] == rest;
    } else {
      var shorter := part[1..] + [sep] + rest;
      assert s[0] == part[0] && part[0] in part && s[1..] == shorter;
      var parts := Split(shorter, sep);
      assert Split(s, sep) == [[s[0]] + parts[0]] + parts[1..];
      SplitFirst(part[1..], rest, sep);
      assert [s[0]] + parts[0] == part && parts[1..] == Split(rest, sep);
    }
  }

  // --- Decimal numbers ---

  predicate AllDigits(s: string) {
    forall k :: 0 <= k < |s| ==> '0' <= s[k] <= '9'
  }

  /** The number that decimal digits denote; leading zeros are allowed. */
  function Decimal(s: string): nat
    requires AllDigits(s)
  {
    if s == "" then 0 else 10 * Decimal(s[..|s| - 1]) + (s[|s| - 1] as int - '0' as int)
  }

  function Digit(d: nat): char
    requires d < 10
  {
    (d + '0' as int) as char
  }

  /** The decimal digits of a number, without leading zeros. */
  function Itoa(n: nat): (s: string)
    ensures s != "" && AllDigits(s)
  {
    if n < 10 then [Digit(n)] else Itoa(n / 10) + [Digit(n % 10)]
  }

  lemma {:induction false} DecimalItoa(n: nat)
    ensures Decimal(Itoa(n)) == n
  {
    if n < 10 {
      assert [Digit(n)][..0] == "";
    } else {
      DecimalItoa(n / 10);
      assert Itoa(n)[..|Itoa(n)| - 1] == Itoa(n / 10);
    }
  }

  // --- Control characters ---

  /**
   Whether text holds a control character once its bytes are decoded as UTF-8: one below the space, the delete
   character, or one of U+0080 to U+009F, which is the byte 0xC2 and another. That byte never continues a sequence,
   and bytes that do not decode are no control characters.
   */
  predicate HasControl(s: string) {
    exists k :: 0 <= k < |s| && ControlAt(s, k)
  }

  predicate ControlAt(s: string, k: nat)
    requires k < |s|
  {
    || s[k] as int < 0x20 || s[k] as int == 0x7F
    || (s[k] as int == 0xC2 && k + 1 < |s| && 0x80 <= s[k + 1] as int <= 0x9F)
  }
}
