/**
 What the lines of a subordinate ID file say, and what the parser makes of a whole file in these terms: which ranges it
 lists, which records it reports and with what problem, and when it calls the file valid.
 */
module SubIDLines {
  import opened Options
  import opened Text
  import opened SubIDs

  // --- One line ---

  /** Decimal digits that denote a number below the reserved ID. */
  predicate IsNumber(raw: string, n: nat) {
    raw != "" && AllDigits(raw) && Decimal(raw) == n && n < 4294967295
  }

  /** One to 256 letters, digits, underscores, dots and dashes. */
  predicate IsName(s: string) {
    1 <= |s| <= 256 && forall k :: 0 <= k < |s| ==>
      'a' <= s[k] <= 'z' || 'A' <= s[k] <= 'Z' || '0' <= s[k] <= '9' || s[k] == '_' || s[k] == '.' || s[k] == '-'
  }

  /** The line is about the user: its first field is the user's name or number. */
  predicate Belongs(text: string, target: UserIdentity) {
    var owner := Split(text, ':')[0];
    (owner == target.username && target.username != "") || IsNumber(owner, target.uid)
  }

  /** The line has three fields: a name, the start of the range, and its length. */
  predicate Holds(text: string, range: SubIDRange) {
    var fields := Split(text, ':');
    |fields| == 3 && IsName(fields[0]) && IsNumber(fields[1], range.start) && IsNumber(fields[2], range.length)
  }

  lemma {:induction false} SplitByCut(s: string, sep: char)
    ensures var (before, after) := Cut(s, sep);
      Split(s, sep) == if after.None? then [s] else [before] + Split(after.value, sep)
  {
    if s != "" && s[0] != sep {
      SplitByCut(s[1..], sep);
      assert s == [s[0]] + s[1..];
    }
  }

  lemma {:induction false} SplitNIsSplit(s: string, sep: char, n: nat)
    requires n >= 1
    ensures |Split(s, sep)| <= n ==> SplitN(s, sep, n) == Split(s, sep)
    ensures |Split(s, sep)| > n ==> |SplitN(s, sep, n)| == n
    ensures n >= 2 ==> SplitN(s, sep, n)[0] == Split(s, sep)[0]
    decreases n
  {
    SplitByCut(s, sep);
    var (before, after) := Cut(s, sep);
    if after.Some? && n > 1 {
      SplitNIsSplit(after.value, sep, n - 1);
    }
  }

  /** The parser reads a line for what it says. */
  lemma LineMeans(text: string, target: UserIdentity)
    ensures var p := ParseEntry(text, target);
      && (p.selected <==> Belongs(text, target))
      && p.owner == (if Belongs(text, target) then Split(text, ':')[0] else "")
      && (forall range :: p.range == Some(range) <==> Holds(text, range))
  {
    SplitNIsSplit(text, ':', 4);
    var fields, parts := Split(text, ':'), SplitN(text, ':', 4);
    NumberMeans(fields[0], target.uid);
    NameMeans(fields[0]);
    if |fields| == 3 {
      assert parts == fields;
      NumbersMean(fields[1], fields[2]);
    } else {
      assert |parts| != 3;
    }
  }

  lemma NameMeans(s: string)
    ensures IsName(s) <==> IsAccountName(s)
  {
  }

  lemma NumberMeans(raw: string, n: nat)
    ensures IsNumber(raw, n) <==> AccountID(raw) == Some(n)
  {
  }

  lemma NumbersMean(start: string, length: string)
    ensures forall range: SubIDRange ::
      AccountID(start) == Some(range.start) && AccountID(length) == Some(range.length) <==>
      IsNumber(start, range.start) && IsNumber(length, range.length)
  {
    forall range: SubIDRange
      ensures AccountID(start) == Some(range.start) <==> IsNumber(start, range.start)
      ensures AccountID(length) == Some(range.length) <==> IsNumber(length, range.length)
    {
      NumberMeans(start, range.start);
      NumberMeans(length, range.length);
    }
  }

  /** A well-formed line says what it was made of. */
  lemma WrittenLineMeans(name: string, start: nat, length: nat, target: UserIdentity)
    requires IsName(name) && start < 4294967295 && length < 4294967295
    ensures var p := ParseEntry(name + ":" + Itoa(start) + ":" + Itoa(length), target);
      && p.range == Some(SubIDRange(start, length))
      && (p.selected <==> (name == target.username && name != "") || IsNumber(name, target.uid))
  {
    var line := name + ":" + Itoa(start) + ":" + Itoa(length);
    WrittenFields(name, Itoa(start), Itoa(length));
    DecimalItoa(start);
    DecimalItoa(length);
    LineMeans(line, target);
    assert Holds(line, SubIDRange(start, length));
  }

  lemma WrittenFields(name: string, start: string, length: string)
    requires IsName(name) && AllDigits(start) && AllDigits(length)
    ensures Split(name + ":" + start + ":" + length, ':') == [name, start, length]
  {
    var fields := [name, start, length];
    assert forall k :: 0 <= k < |fields| ==> ':' !in fields[k];
    SplitJoin(fields, ':');
    var rest := [start, length];
    assert rest[1..] == [length] && Join([length], ':') == length;
    assert Join(rest, ':') == start + [':'] + length;
    assert fields[1..] == rest;
    assert Join(fields, ':') == name + [':'] + Join(rest, ':');
    assert name + ":" + start + ":" + length == name + [':'] + (start + [':'] + length);
  }

  // --- Lists made of at most one element per position ---

  /** What positions 0 to n contribute, in order. */
  function Flat<T>(n: nat, part: nat -> seq<T>): seq<T> {
    if n == 0 then [] else Flat(n - 1, part) + part(n - 1)
  }

  /** The contribution of a position stands behind those of the positions before it. */
  lemma {:induction false} FlatAt<T>(n: nat, part: nat -> seq<T>, k: nat)
    requires k < n && |part(k)| == 1
    ensures |Flat(k, part)| < |Flat(n, part)| && Flat(n, part)[|Flat(k, part)|] == part(k)[0]
  {
    if k < n - 1 {
      FlatAt(n - 1, part, k);
    }
  }

  /** Every element is the contribution of some position. */
  lemma {:induction false} FlatFrom<T>(n: nat, part: nat -> seq<T>, i: nat) returns (k: nat)
    requires i < |Flat(n, part)| && forall k :: 0 <= k < n ==> |part(k)| <= 1
    ensures k < n && |part(k)| == 1 && i == |Flat(k, part)| && Flat(n, part)[i] == part(k)[0]
  {
    if i < |Flat(n - 1, part)| {
      k := FlatFrom(n - 1, part, i);
    } else {
      k := n - 1;
    }
  }

  lemma {:induction false} FlatGrows<T>(n: nat, part: nat -> seq<T>, j: nat, k: nat)
    requires j < k <= n && |part(j)| == 1
    ensures |Flat(j, part)| < |Flat(k, part)| <= |Flat(n, part)|
    decreases n
  {
    if k < n {
      FlatGrows(n - 1, part, j, k);
    } else if j < k - 1 {
      FlatGrows(k - 1, part, j, k - 1);
    }
  }

  lemma {:induction false} FlatSame<T>(n: nat, a: nat -> seq<T>, b: nat -> seq<T>)
    requires forall k :: 0 <= k < n ==> a(k) == b(k)
    ensures Flat(n, a) == Flat(n, b)
  {
    if n > 0 {
      FlatSame(n - 1, a, b);
    }
  }

  // --- A whole file ---

  /** The lines that are neither empty nor comments, with their numbers from one on. */
  ghost function EntryOf(lines: seq<string>): nat -> seq<Entry> {
    (k: nat) => if k < |lines| && lines[k] != "" && lines[k][0] != '#' then [Entry(k + 1, lines[k])] else []
  }

  lemma {:induction false} EntriesAreFlat(lines: seq<string>)
    ensures Entries(lines) == Flat(|lines|, EntryOf(lines))
  {
    if lines != [] {
      var front := lines[..|lines| - 1];
      EntriesAreFlat(front);
      FlatSame(|front|, EntryOf(lines), EntryOf(front));
    }
  }

  function Reading(es: seq<Entry>, target: UserIdentity, k: nat): Parsed
    requires k < |es|
  {
    ParseEntry(es[k].text, target)
  }

  ghost function RangePart(es: seq<Entry>, target: UserIdentity): nat -> seq<SubIDRange> {
    (k: nat) => if k < |es| then RangeOf(ParseEntry(es[k].text, target)) else []
  }

  ghost function RecordPart(es: seq<Entry>, target: UserIdentity): nat -> seq<SubIDRecord> {
    (k: nat) => if k < |es| && ParseEntry(es[k].text, target).selected
      then [RecordOf(es[k].line, ParseEntry(es[k].text, target))] else []
  }

  ghost function IntervalPart(es: seq<Entry>, target: UserIdentity): nat -> seq<Interval> {
    (k: nat) => if k < |es| then IntervalOf(ParseEntry(es[k].text, target), |Flat(k, RecordPart(es, target))|) else []
  }

  lemma LastRangePart(es: seq<Entry>, target: UserIdentity)
    requires es != []
    ensures Ranges(es, target) == Ranges(es[..|es| - 1], target) + RangePart(es, target)(|es| - 1)
  {
  }

  lemma {:induction false} RangesAreFlat(es: seq<Entry>, target: UserIdentity)
    ensures Ranges(es, target) == Flat(|es|, RangePart(es, target))
  {
    if es != [] {
      var front := es[..|es| - 1];
      RangesAreFlat(front, target);
      FlatSame(|front|, RangePart(es, target), RangePart(front, target));
      LastRangePart(es, target);
    }
  }

  lemma LastRecordPart(es: seq<Entry>, target: UserIdentity)
    requires es != []
    ensures Records(es, target) == Records(es[..|es| - 1], target) + RecordPart(es, target)(|es| - 1)
  {
  }

  lemma {:induction false} RecordsAreFlat(es: seq<Entry>, target: UserIdentity)
    ensures Records(es, target) == Flat(|es|, RecordPart(es, target))
  {
    if es != [] {
      var front := es[..|es| - 1];
      RecordsAreFlat(front, target);
      FlatSame(|front|, RecordPart(es, target), RecordPart(front, target));
      LastRecordPart(es, target);
    }
  }

  lemma FrontParts(es: seq<Entry>, target: UserIdentity)
    requires es != []
    ensures forall k :: 0 <= k < |es| - 1 ==>
      IntervalPart(es, target)(k) == IntervalPart(es[..|es| - 1], target)(k)
  {
    var front := es[..|es| - 1];
    forall k | 0 <= k < |front| ensures IntervalPart(es, target)(k) == IntervalPart(front, target)(k) {
      FlatSame(k, RecordPart(es, target), RecordPart(front, target));
    }
  }

  lemma RecordsBefore(es: seq<Entry>, target: UserIdentity)
    requires es != []
    ensures |Records(es[..|es| - 1], target)| == |Flat(|es| - 1, RecordPart(es, target))|
  {
    var front := es[..|es| - 1];
    RecordsAreFlat(front, target);
    FlatSame(|front|, RecordPart(es, target), RecordPart(front, target));
  }

  lemma LastInterval(es: seq<Entry>, target: UserIdentity)
    requires es != []
    requires |Records(es[..|es| - 1], target)| == |Flat(|es| - 1, RecordPart(es, target))|
    ensures Intervals(es, target) == Intervals(es[..|es| - 1], target) + IntervalPart(es, target)(|es| - 1)
  {
  }

  lemma {:induction false} IntervalsAreFlat(es: seq<Entry>, target: UserIdentity)
    ensures Intervals(es, target) == Flat(|es|, IntervalPart(es, target))
  {
    if es != [] {
      var front := es[..|es| - 1];
      IntervalsAreFlat(front, target);
      FrontParts(es, target);
      FlatSame(|front|, IntervalPart(es, target), IntervalPart(front, target));
      RecordsBefore(es, target);
      LastInterval(es, target);
    }
  }

  /** The range that a line gives, when it is one: not empty, and ending below the reserved ID. */
  ghost predicate HasRange(e: Entry, range: SubIDRange) {
    Holds(e.text, range) && range.length > 0 && range.start + range.length <= 4294967295
  }

  ghost predicate HasSomeRange(e: Entry) {
    exists range :: HasRange(e, range)
  }

  /** Two lines give ranges that have an ID in common. */
  ghost predicate Collide(a: Entry, b: Entry) {
    exists r, q :: HasRange(a, r) && HasRange(b, q) && r.start < q.start + q.length && q.start < r.start + r.length
  }

  ghost predicate CollidesWithAnother(es: seq<Entry>, k: nat)
    requires k < |es|
  {
    exists j :: 0 <= j < |es| && j != k && Collide(es[k], es[j])
  }

  lemma RangeIsRead(e: Entry, target: UserIdentity)
    ensures var p := ParseEntry(e.text, target);
      && (p.Valid() <==> HasSomeRange(e))
      && (p.Valid() ==> HasRange(e, p.range.value))
      && (forall range :: HasRange(e, range) ==> p.Valid() && p.range.value == range)
  {
    LineMeans(e.text, target);
    var p := ParseEntry(e.text, target);
    forall range | HasRange(e, range) ensures p.Valid() && p.range.value == range {
      assert p.range == Some(range);
    }
    if p.Valid() {
      assert HasRange(e, p.range.value);
    }
  }

  /** The place of a line's record among the records: how many lines before it belong to the user. */
  ghost function Place(es: seq<Entry>, target: UserIdentity, k: nat): nat {
    |Flat(k, RecordPart(es, target))|
  }

  lemma PlacesDiffer(es: seq<Entry>, target: UserIdentity, j: nat, k: nat)
    requires j < |es| && k < |es| && j != k
    requires ParseEntry(es[j].text, target).selected && ParseEntry(es[k].text, target).selected
    ensures Place(es, target, j) != Place(es, target, k)
  {
    if j < k {
      FlatGrows(|es|, RecordPart(es, target), j, k);
    } else {
      FlatGrows(|es|, RecordPart(es, target), k, j);
    }
  }

  /** A user's record is marked exactly when its line's range and that of another line have an ID in common. */
  lemma OverlapMeans(es: seq<Entry>, target: UserIdentity, k: nat)
    requires k < |es| && ParseEntry(es[k].text, target).selected
    ensures Overlapped(Intervals(es, target), Place(es, target, k)) <==> CollidesWithAnother(es, k)
  {
    IntervalsAreFlat(es, target);
    var ivs := Intervals(es, target);
    if i :| 0 <= i < |ivs| && ivs[i].record == Place(es, target, k) && Clashes(ivs, i) {
      var j :| 0 <= j < |ivs| && j != i && Meet(ivs[i], ivs[j]);
      ClashIsCollision(es, target, k, i, j);
    }
    if j :| 0 <= j < |es| && j != k && Collide(es[k], es[j]) {
      CollisionIsMeeting(es, target, k, j);
      CollisionIsClash(es, target, k, j);
    }
  }

  lemma ClashIsCollision(es: seq<Entry>, target: UserIdentity, k: nat, i: nat, j: nat)
    requires k < |es| && ParseEntry(es[k].text, target).selected
    requires var ivs := Flat(|es|, IntervalPart(es, target));
      i < |ivs| && j < |ivs| && i != j && ivs[i].record == Place(es, target, k) && Meet(ivs[i], ivs[j])
    ensures CollidesWithAnother(es, k)
  {
    var part := IntervalPart(es, target);
    var line := FlatFrom(|es|, part, i);
    var other := FlatFrom(|es|, part, j);
    assert ParseEntry(es[line].text, target).selected;
    if line != k {
      PlacesDiffer(es, target, line, k);
    }
    CollisionIsMeeting(es, target, k, other);
  }

  lemma CollisionIsClash(es: seq<Entry>, target: UserIdentity, k: nat, j: nat)
    requires k < |es| && j < |es| && j != k
    requires var part := IntervalPart(es, target);
      |part(k)| == 1 && |part(j)| == 1 && Meet(part(k)[0], part(j)[0]) && part(k)[0].record == Place(es, target, k)
    ensures Overlapped(Flat(|es|, IntervalPart(es, target)), Place(es, target, k))
  {
    var part := IntervalPart(es, target);
    var a, b := TwoPlaces(|es|, part, k, j);
    MeetingIsClash(Flat(|es|, part), a, b, Place(es, target, k));
  }

  /** Two positions that contribute stand at two places. */
  lemma TwoPlaces<T>(n: nat, part: nat -> seq<T>, j: nat, k: nat) returns (a: nat, b: nat)
    requires j < n && k < n && j != k && |part(j)| == 1 && |part(k)| == 1
    ensures a < |Flat(n, part)| && b < |Flat(n, part)| && a != b
    ensures Flat(n, part)[a] == part(j)[0] && Flat(n, part)[b] == part(k)[0]
  {
    FlatAt(n, part, j);
    FlatAt(n, part, k);
    a, b := |Flat(j, part)|, |Flat(k, part)|;
    if j < k {
      FlatGrows(n, part, j, k);
    } else {
      FlatGrows(n, part, k, j);
    }
  }

  lemma MeetingIsClash(ivs: seq<Interval>, a: nat, b: nat, record: int)
    requires a < |ivs| && b < |ivs| && a != b && Meet(ivs[a], ivs[b]) && ivs[a].record == record
    ensures Overlapped(ivs, record)
  {
    assert Clashes(ivs, a);
  }

  lemma CollisionIsMeeting(es: seq<Entry>, target: UserIdentity, j: nat, k: nat)
    requires j < |es| && k < |es|
    ensures var part := IntervalPart(es, target);
      Collide(es[j], es[k]) <==> |part(j)| == 1 && |part(k)| == 1 && Meet(part(j)[0], part(k)[0])
  {
    RangeIsRead(es[j], target);
    RangeIsRead(es[k], target);
  }

  /** The problem of a line's record. */
  ghost function ProblemOf(es: seq<Entry>, k: nat): string
    requires k < |es|
  {
    if CollidesWithAnother(es, k) then "allocation_overlap" else if HasSomeRange(es[k]) then "" else "invalid_record"
  }

  /** What a line contributes to the ranges: that of a well-formed line about the user, whatever its bounds. */
  ghost predicate Contributes(e: Entry, target: UserIdentity, part: seq<SubIDRange>) {
    if Belongs(e.text, target) && exists range :: Holds(e.text, range) then |part| == 1 && Holds(e.text, part[0])
    else part == []
  }

  /** The first 2048 lines that are neither empty nor comments. */
  ghost function Looked(data: string): (es: seq<Entry>)
    ensures |es| <= 2048
  {
    var all := Flat(|Split(data, '\n')|, EntryOf(Split(data, '\n')));
    if |all| <= 2048 then all else all[..2048]
  }

  lemma LookedIsScanned(data: string)
    ensures Looked(data) == Scanned(data)
    ensures |Entries(Split(data, '\n'))| <= 2048 <==> |Flat(|Split(data, '\n')|, EntryOf(Split(data, '\n')))| <= 2048
  {
    EntriesAreFlat(Split(data, '\n'));
  }

  /** The ranges of a file are those of the user's lines, in order. */
  lemma RangesMean(out: SubIDAllocation, problems: Problems, data: string, target: UserIdentity)
    requires target.IsValid() && ValidAccountInput(data) && IsAllocation(out, problems, data, target)
    ensures var es := Looked(data);
      && out.ranges == Flat(|es|, RangePart(es, target))
      && (forall k :: 0 <= k < |es| ==> Contributes(es[k], target, RangePart(es, target)(k)))
  {
    var es := Looked(data);
    LookedIsScanned(data);
    RangesAreFlat(es, target);
    forall k | 0 <= k < |es| ensures Contributes(es[k], target, RangePart(es, target)(k)) {
      RangePartMeans(es[k], target);
    }
  }

  lemma RangePartMeans(e: Entry, target: UserIdentity)
    ensures Contributes(e, target, RangeOf(ParseEntry(e.text, target)))
  {
    LineMeans(e.text, target);
    var p := ParseEntry(e.text, target);
    if p.range.Some? {
      assert Holds(e.text, p.range.value);
    }
  }

  /** The records of a file are those of the user's lines, in order, each with its range and its problem. */
  lemma RecordsMean(out: SubIDAllocation, problems: Problems, data: string, target: UserIdentity, k: nat)
    requires target.IsValid() && ValidAccountInput(data) && IsAllocation(out, problems, data, target)
    requires k < |Looked(data)|
    ensures var es := Looked(data);
      Belongs(es[k].text, target) ==>
        && Place(es, target, k) < |out.records|
        && Reports(out.records[Place(es, target, k)], es, k)
  {
    var es := Looked(data);
    LookedIsScanned(data);
    LineMeans(es[k].text, target);
    if Belongs(es[k].text, target) {
      RecordAt(es, target, k);
      OverlapMeans(es, target, k);
      MarkedReports(es, target, k);
      assert Marked(Records(es, target), out.records, Intervals(es, target));
    }
  }

  lemma RecordAt(es: seq<Entry>, target: UserIdentity, k: nat)
    requires k < |es| && ParseEntry(es[k].text, target).selected
    ensures Place(es, target, k) < |Records(es, target)|
    ensures Records(es, target)[Place(es, target, k)] == RecordOf(es[k].line, ParseEntry(es[k].text, target))
  {
    RecordsAreFlat(es, target);
    FlatAt(|es|, RecordPart(es, target), k);
  }

  /** A record reports a line: its number, its first field, its range if it has three proper fields, its problem. */
  ghost predicate Reports(r: SubIDRecord, es: seq<Entry>, k: nat)
    requires k < |es|
  {
    && r.line == es[k].line && r.owner == Split(es[k].text, ':')[0] && r.problem == ProblemOf(es, k)
    && (forall range :: r.range == Some(range) <==> Holds(es[k].text, range))
  }

  lemma MarkedReports(es: seq<Entry>, target: UserIdentity, k: nat)
    requires k < |es| && Belongs(es[k].text, target)
    ensures var r := RecordOf(es[k].line, ParseEntry(es[k].text, target));
      Reports(if CollidesWithAnother(es, k) then Mark(r) else r, es, k)
  {
    LineMeans(es[k].text, target);
    RangeIsRead(es[k], target);
  }

  /** Every record is that of a line about the user. */
  lemma EveryRecordIsALine(out: SubIDAllocation, problems: Problems, data: string, target: UserIdentity, r: nat)
    returns (k: nat)
    requires target.IsValid() && ValidAccountInput(data) && IsAllocation(out, problems, data, target)
    requires r < |out.records|
    ensures k < |Looked(data)| && Belongs(Looked(data)[k].text, target) && r == Place(Looked(data), target, k)
  {
    var es := Looked(data);
    LookedIsScanned(data);
    RecordsAreFlat(es, target);
    k := FlatFrom(|es|, RecordPart(es, target), r);
    LineMeans(es[k].text, target);
  }

  /**
   A file is valid exactly when it has at most 2048 lines that count, each of them gives a range, and no line about the
   user gives a range that has an ID in common with another line's.
   */
  lemma ValidityMeans(out: SubIDAllocation, problems: Problems, data: string, target: UserIdentity)
    requires target.IsValid() && ValidAccountInput(data) && IsAllocation(out, problems, data, target)
    ensures var lines, es := Split(data, '\n'), Looked(data);
      out.valid <==>
        && |Flat(|lines|, EntryOf(lines))| <= 2048
        && (forall k :: 0 <= k < |es| ==> HasSomeRange(es[k]))
        && (forall k :: 0 <= k < |es| && Belongs(es[k].text, target) ==> !CollidesWithAnother(es, k))
    ensures out.valid <==> problems == NoProblem
  {
    var es := Looked(data);
    LookedIsScanned(data);
    forall k | 0 <= k < |es| ensures ParseEntry(es[k].text, target).Valid() <==> HasSomeRange(es[k]) {
      RangeIsRead(es[k], target);
    }
    NoneOverlappedMeans(es, target);
  }

  lemma NoneOverlappedMeans(es: seq<Entry>, target: UserIdentity)
    ensures NoneOverlapped(es, target) <==>
      forall k :: 0 <= k < |es| && Belongs(es[k].text, target) ==> !CollidesWithAnother(es, k)
  {
    RecordsAreFlat(es, target);
    forall k | 0 <= k < |es| && Belongs(es[k].text, target)
      ensures Place(es, target, k) < |Records(es, target)|
      ensures Overlapped(Intervals(es, target), Place(es, target, k)) <==> CollidesWithAnother(es, k)
    {
      LineMeans(es[k].text, target);
      FlatAt(|es|, RecordPart(es, target), k);
      OverlapMeans(es, target, k);
    }
    if r: nat :| r < |Records(es, target)| && Overlapped(Intervals(es, target), r) {
      var k := FlatFrom(|es|, RecordPart(es, target), r);
      LineMeans(es[k].text, target);
      assert Place(es, target, k) == r;
    }
  }

  // --- What is read at all ---

  predicate IsIdentity(user: UserIdentity) {
    && user.uid != 4294967295 && user.gid != 4294967295 && |user.groups| <= 65536
    && (forall k :: 0 <= k < |user.groups| ==> user.groups[k] != 4294967295)
    && (forall i, j :: 0 <= i < j < |user.groups| ==> user.groups[i] != user.groups[j])
    && (user.groupsKnown || user.groups == [])
  }

  predicate IsReadable(lines: seq<string>) {
    && |Join(lines, '\n')| <= 8388608 && |lines| <= 65536
    && forall k :: 0 <= k < |lines| ==> |lines[k]| <= 65536 && 0 as char !in lines[k]
  }

  lemma InputMeans(lines: seq<string>)
    requires lines != [] && forall k :: 0 <= k < |lines| ==> '\n' !in lines[k]
    ensures ValidAccountInput(Join(lines, '\n')) <==> IsReadable(lines)
  {
    SplitJoin(lines, '\n');
  }

  lemma IdentityMeans(user: UserIdentity)
    ensures user.IsValid() <==> IsIdentity(user)
  {
  }

  /**
   A file of lines is refused as a whole, with nothing listed, when it is too large, has too many lines, or a line that
   is too long or holds a NUL, or when the user's numbers or groups are not acceptable; only then is it not read.
   */
  lemma RefusedMeans(out: SubIDAllocation, problems: Problems, lines: seq<string>, target: UserIdentity)
    requires lines != [] && forall k :: 0 <= k < |lines| ==> '\n' !in lines[k]
    requires IsAllocation(out, problems, Join(lines, '\n'), target)
    ensures !IsIdentity(target) || !IsReadable(lines) ==>
      out == SubIDAllocation([], [], None, false) && problems == Malformed
    ensures IsIdentity(target) && IsReadable(lines) <==> target.IsValid() && ValidAccountInput(Join(lines, '\n'))
  {
    InputMeans(lines);
    IdentityMeans(target);
  }

  // --- A file of one line ---

  lemma {:induction false} ItoaIsShort(n: nat, digits: nat, bound: nat)
    requires digits >= 1 && n < bound && bound == PowerOfTen(digits)
    ensures |Itoa(n)| <= digits
  {
    if n >= 10 {
      assert digits > 1;
      ItoaIsShort(n / 10, digits - 1, PowerOfTen(digits - 1));
    }
  }

  function PowerOfTen(n: nat): nat {
    if n == 0 then 1 else 10 * PowerOfTen(n - 1)
  }

  /** One written line is the whole of its file, and acceptable as such. */
  lemma OneLineIsRead(name: string, start: nat, length: nat) returns (data: string)
    requires IsName(name) && start < 4294967295 && length < 4294967295
    ensures data == name + ":" + Itoa(start) + ":" + Itoa(length)
    ensures ValidAccountInput(data) && Looked(data) == [Entry(1, data)]
  {
    data := name + ":" + Itoa(start) + ":" + Itoa(length);
    assert PowerOfTen(10) == 10000000000;
    ItoaIsShort(start, 10, 10000000000);
    ItoaIsShort(length, 10, 10000000000);
    forall k | 0 <= k < |data| ensures data[k] != '\n' && data[k] != 0 as char {}
    SplitPart(data, '\n');
    assert data[0] == name[0] && data[0] != '#';
    assert Flat(0, EntryOf([data])) == [];
    assert Flat(1, EntryOf([data])) == Flat(0, EntryOf([data])) + EntryOf([data])(0);
  }

  /** A file of one line about the user gives its range, its length as the total, and no problem. */
  lemma OneLineFile(name: string, start: nat, length: nat, data: string, target: UserIdentity, out: SubIDAllocation,
                    problems: Problems)
    requires IsName(name) && start < 4294967295 && 0 < length < 4294967295 && start + length <= 4294967295
    requires data == name + ":" + Itoa(start) + ":" + Itoa(length)
    requires target.IsValid() && IsAllocation(out, problems, data, target)
    ensures out.valid && problems == NoProblem
    ensures (name == target.username && name != "") || IsNumber(name, target.uid) ==>
      && out.ranges == [SubIDRange(start, length)] && out.total == Some(length)
      && out.records == [SubIDRecord(1, name, Some(SubIDRange(start, length)), "")]
    ensures !((name == target.username && name != "") || IsNumber(name, target.uid)) ==>
      out.ranges == [] && out.records == [] && out.total == Some(0)
  {
    var written := OneLineIsRead(name, start, length);
    LookedIsScanned(data);
    WrittenLineMeans(name, start, length, target);
    LineMeans(data, target);
    WrittenFields(name, Itoa(start), Itoa(length));
    OneEntryFile(Entry(1, data), data, target, out, problems);
  }

  lemma OneEntryFile(e: Entry, data: string, target: UserIdentity, out: SubIDAllocation, problems: Problems)
    requires Scanned(data) == [e] && |Entries(Split(data, '\n'))| <= 2048 && ParseEntry(e.text, target).Valid()
    requires target.IsValid() && ValidAccountInput(data) && IsAllocation(out, problems, data, target)
    ensures out.valid && problems == NoProblem
    ensures var p := ParseEntry(e.text, target);
      if p.selected then
        && out.ranges == [p.range.value] && out.total == Some(p.range.value.length)
        && out.records == [SubIDRecord(e.line, p.owner, p.range, "")]
      else out.ranges == [] && out.records == [] && out.total == Some(0)
  {
    OneEntry(e, target);
    NothingIsMarked(Records([e], target), out.records, Intervals([e], target));
  }

  lemma NothingIsMarked(before: seq<SubIDRecord>, after: seq<SubIDRecord>, ivs: seq<Interval>)
    requires Marked(before, after, ivs) && forall r :: !Overlapped(ivs, r)
    ensures after == before
  {
  }

  /** The lists of a single well-formed entry. */
  lemma OneEntry(e: Entry, target: UserIdentity)
    requires ParseEntry(e.text, target).Valid()
    ensures var p := ParseEntry(e.text, target);
      && Ranges([e], target) == (if p.selected then [p.range.value] else [])
      && Records([e], target) == (if p.selected then [SubIDRecord(e.line, p.owner, p.range, "")] else [])
      && (forall r :: !Overlapped(Intervals([e], target), r))
      && AllParse([e], target) && NoneOverlapped([e], target)
      && TotalLength(Ranges([e], target)) == if p.selected then p.range.value.length else 0
  {
    var p := ParseEntry(e.text, target);
    assert [] + [e] == [e];
    OneMoreEntry([], e, target);
    assert |Intervals([e], target)| == 1;
    assert [p.range.value][..0] == [];
  }
}
