/** Subordinate ID files and range pools: internal/host/subids.go and internal/model/target.go. */
module SubIDs {
  import opened Options
  import opened Seqs
  import opened Text

  const MAX_UINT32 := 4294967295
  const MAX_SUBID_RECORDS := 2048
  const SUBID_FIELDS := 3
  const MAX_IDENTITY_GROUPS := 65536

  datatype SubIDRange = SubIDRange(start: nat, length: nat) {
    predicate IsValid() { length != 0 && start + length <= MAX_UINT32 }
    function End(): nat { start + length }
  }

  datatype SubIDRecord = SubIDRecord(line: nat, owner: string, range: Option<SubIDRange>, problem: string)

  datatype SubIDAllocation = SubIDAllocation(ranges: seq<SubIDRange>, records: seq<SubIDRecord>, total: Option<nat>,
                                             valid: bool)

  datatype Problems = NoProblem | Malformed | LimitExceeded | MalformedAndLimit

  datatype UserIdentity = UserIdentity(uid: nat, gid: nat, username: string, groupsKnown: bool, groups: seq<nat>) {
    predicate IsValid() {
      && uid != MAX_UINT32 && gid != MAX_UINT32 && |groups| <= MAX_IDENTITY_GROUPS
      && (!groupsKnown ==> groups == [])
      && MAX_UINT32 !in groups && Distinct(groups)
    }
  }

  /** One valid range of the file; `record` is its place among the selected records, or -1. */
  datatype Interval = Interval(start: nat, end: nat, record: int)

  predicate Meet(a: Interval, b: Interval) {
    a.start < b.end && b.start < a.end
  }

  predicate Apart(a: SubIDRange, b: SubIDRange) {
    a.End() <= b.start || b.End() <= a.start
  }

  // --- Pools ---

  ghost predicate PairwiseApart(ranges: seq<SubIDRange>) {
    forall i, j :: 0 <= i < |ranges| && 0 <= j < |ranges| && i != j ==> Apart(ranges[i], ranges[j])
  }

  ghost predicate ValidPool(ranges: seq<SubIDRange>) {
    (forall k :: 0 <= k < |ranges| ==> ranges[k].IsValid()) && PairwiseApart(ranges)
  }

  lemma PoolIgnoresOrder(a: seq<SubIDRange>, b: seq<SubIDRange>)
    requires multiset(a) == multiset(b) && ValidPool(a)
    ensures ValidPool(b)
  {
    forall k | 0 <= k < |b| ensures b[k].IsValid() {
      assert b[k] in multiset(b);
      assert b[k] in a;
    }
    forall i, j | 0 <= i < |b| && 0 <= j < |b| && i != j ensures Apart(b[i], b[j]) {
      var clash := (x: SubIDRange, y: SubIDRange) => !Apart(x, y);
      assert b[i] in multiset(b);
      var k :| 0 <= k < |a| && a[k] == b[i];
      MeetingIgnoresOrder(a, k, clash);
      MeetingIgnoresOrder(b, i, clash);
    }
  }

  /** SubIDRanges.IsValid accepts exactly the pools of valid ranges that do not overlap. */
  method RangesAreValid(ranges: seq<SubIDRange>) returns (ok: bool)
    ensures ok <==> ValidPool(ranges)
  {
    var ordered := SortByKey(ranges, (r: SubIDRange) => r.start);
    if ValidPool(ranges) {
      PoolIgnoresOrder(ranges, ordered);
    }
    var end := 0;
    var k := 0;
    while k < |ordered|
      invariant 0 <= k <= |ordered|
      invariant forall i :: 0 <= i < k ==> ordered[i].IsValid() && ordered[i].End() <= end
      invariant forall i, j :: 0 <= i < j < k ==> ordered[i].End() <= ordered[j].start
      invariant if k == 0 then end == 0 else end == ordered[k - 1].End()
    {
      var r := ordered[k];
      if !r.IsValid() { return false; }
      if r.start < end {
        assert !Apart(ordered[k - 1], ordered[k]);
        return false;
      }
      end := r.start + r.length;
      k := k + 1;
    }
    PoolIgnoresOrder(ordered, ranges);
    return true;
  }

  function TotalLength(ranges: seq<SubIDRange>): nat {
    if ranges == [] then 0 else TotalLength(ranges[..|ranges| - 1]) + ranges[|ranges| - 1].length
  }

  lemma {:induction false} TotalWithout(ranges: seq<SubIDRange>, k: nat)
    requires k < |ranges|
    ensures TotalLength(ranges) == TotalLength(ranges[..k] + ranges[k + 1..]) + ranges[k].length
  {
    var n := |ranges| - 1;
    var rest := ranges[..k] + ranges[k + 1..];
    if k == n {
      assert rest == ranges[..n];
    } else {
      TotalWithout(ranges[..n], k);
      assert rest[..|rest| - 1] == ranges[..n][..k] + ranges[..n][k + 1..];
    }
  }

  lemma {:induction false} LastRange(ranges: seq<SubIDRange>) returns (k: nat)
    requires ranges != []
    ensures k < |ranges| && forall i :: 0 <= i < |ranges| ==> ranges[i].End() <= ranges[k].End()
  {
    if |ranges| == 1 {
      k := 0;
    } else {
      k := LastRange(ranges[1..]);
      assert forall i :: 0 < i < |ranges| ==> ranges[i] == ranges[1..][i - 1];
      k := if ranges[k + 1].End() < ranges[0].End() then 0 else k + 1;
    }
  }

  /** Disjoint ranges that end by `limit` have at most `limit` IDs between them. */
  lemma {:induction false} DisjointTotal(ranges: seq<SubIDRange>, limit: nat)
    requires ValidPool(ranges) && forall k :: 0 <= k < |ranges| ==> ranges[k].End() <= limit
    ensures TotalLength(ranges) <= limit
    decreases |ranges|
  {
    if ranges != [] {
      var k := LastRange(ranges);
      var rest := ranges[..k] + ranges[k + 1..];
      TotalWithout(ranges, k);
      forall i | 0 <= i < |rest| ensures rest[i].IsValid() && rest[i].End() <= ranges[k].start {
        var j := if i < k then i else i + 1;
        assert rest[i] == ranges[j] && Apart(ranges[j], ranges[k]);
      }
      forall i, j | 0 <= i < |rest| && 0 <= j < |rest| && i != j ensures Apart(rest[i], rest[j]) {
        assert Apart(ranges[if i < k then i else i + 1], ranges[if j < k then j else j + 1]);
      }
      DisjointTotal(rest, ranges[k].start);
    }
  }

  // --- Lines and fields ---

  function AccountID(raw: string): Option<nat> {
    if raw == "" || !AllDigits(raw) || Decimal(raw) >= MAX_UINT32 then None else Some(Decimal(raw))
  }

  predicate NameChar(c: char) {
    'a' <= c <= 'z' || 'A' <= c <= 'Z' || '0' <= c <= '9' || c == '_' || c == '.' || c == '-'
  }

  predicate IsAccountName(s: string) {
    1 <= |s| <= 256 && forall k :: 0 <= k < |s| ==> NameChar(s[k])
  }

  function Cut(s: string, sep: char): (r: (string, Option<string>))
    ensures r.1.Some? ==> |r.1.value| < |s|
  {
    if s == "" then (s, None)
    else if s[0] == sep then ("", Some(s[1..]))
    else var (before, after) := Cut(s[1..], sep); ([s[0]] + before, after)
  }

  /** At most `n` parts; the last one keeps its separators. */
  function SplitN(s: string, sep: char, n: nat): (parts: seq<string>)
    requires n >= 1
    ensures 1 <= |parts| <= n
    decreases n
  {
    var (before, after) := Cut(s, sep);
    if n == 1 || after.None? then [s] else [before] + SplitN(after.value, sep, n - 1)
  }

  predicate ValidAccountInput(data: string) {
    && |data| <= 8388608
    && var lines := Split(data, '\n');
      |lines| <= 65536 && forall k :: 0 <= k < |lines| ==> |lines[k]| <= 65536 && 0 as char !in lines[k]
  }

  /** A line that is neither empty nor a comment, with its number. */
  datatype Entry = Entry(line: nat, text: string)

  predicate Skipped(line: string) {
    line == "" || line[0] == '#'
  }

  function Entries(lines: seq<string>): seq<Entry> {
    if lines == [] then []
    else
      var last := lines[|lines| - 1];
      Entries(lines[..|lines| - 1]) + (if Skipped(last) then [] else [Entry(|lines|, last)])
  }

  lemma {:induction false} EntriesPrefix(lines: seq<string>, k: nat)
    requires k <= |lines|
    ensures Entries(lines[..k]) <= Entries(lines)
    decreases |lines|
  {
    if k == |lines| {
      assert lines[..k] == lines;
    } else {
      assert lines[..|lines| - 1][..k] == lines[..k];
      EntriesPrefix(lines[..|lines| - 1], k);
    }
  }

  function FirstEntries(all: seq<Entry>): seq<Entry> {
    if |all| <= MAX_SUBID_RECORDS then all else all[..MAX_SUBID_RECORDS]
  }

  /** What one entry says. */
  datatype Parsed = Parsed(selected: bool, owner: string, range: Option<SubIDRange>) {
    predicate Valid() { range.Some? && range.value.IsValid() }
  }

  function ParseEntry(text: string, target: UserIdentity): Parsed {
    var fields := SplitN(text, ':', SUBID_FIELDS + 1);
    var selected := (fields[0] == target.username && target.username != "") || AccountID(fields[0]) == Some(target.uid);
    Parsed(selected, if selected then fields[0] else "",
           if |fields| != SUBID_FIELDS || !IsAccountName(fields[0]) || AccountID(fields[1]).None?
             || AccountID(fields[2]).None? then None
           else Some(SubIDRange(AccountID(fields[1]).value, AccountID(fields[2]).value)))
  }

  // --- The contents of a file, before the sweep ---

  function RangeOf(p: Parsed): seq<SubIDRange> {
    if p.selected && p.range.Some? then [p.range.value] else []
  }

  function Ranges(es: seq<Entry>, target: UserIdentity): seq<SubIDRange> {
    if es == [] then []
    else
      Ranges(es[..|es| - 1], target) + RangeOf(ParseEntry(es[|es| - 1].text, target))
  }

  /** The record of a selected entry, before the sweep. */
  function RecordOf(line: nat, p: Parsed): SubIDRecord {
    SubIDRecord(line, p.owner, p.range, if p.Valid() then "" else "invalid_record")
  }

  function Records(es: seq<Entry>, target: UserIdentity): seq<SubIDRecord> {
    if es == [] then []
    else
      var last := es[|es| - 1];
      var p := ParseEntry(last.text, target);
      var before := Records(es[..|es| - 1], target);
      if p.selected then before + [RecordOf(last.line, p)] else before
  }

  /** The interval that an entry adds when `records` selected ones came before it. */
  function IntervalOf(p: Parsed, records: nat): (ivs: seq<Interval>)
    ensures forall k :: 0 <= k < |ivs| ==>
      && ivs[k].start < ivs[k].end <= MAX_UINT32
      && ivs[k].record == if p.selected then records else -1
    ensures |ivs| <= 1
  {
    if p.Valid() then [Interval(p.range.value.start, p.range.value.End(), if p.selected then records else -1)] else []
  }

  function Intervals(es: seq<Entry>, target: UserIdentity): seq<Interval> {
    if es == [] then []
    else
      var front := es[..|es| - 1];
      Intervals(front, target) + IntervalOf(ParseEntry(es[|es| - 1].text, target), |Records(front, target)|)
  }

  predicate AllParse(es: seq<Entry>, target: UserIdentity) {
    forall k :: 0 <= k < |es| ==> ParseEntry(es[k].text, target).Valid()
  }

  /** No interval is empty or too long, and each selected one has a record of its own among the first `records`. */
  ghost predicate Fitting(ivs: seq<Interval>, records: nat) {
    && (forall k :: 0 <= k < |ivs| ==> ivs[k].start < ivs[k].end <= MAX_UINT32 && -1 <= ivs[k].record < records)
    && (forall i, j :: 0 <= i < j < |ivs| && ivs[i].record >= 0 && ivs[j].record >= 0 ==> ivs[i].record < ivs[j].record)
  }

  lemma FittingStep(before: seq<Interval>, p: Parsed, records: nat)
    requires Fitting(before, records)
    ensures Fitting(before + IntervalOf(p, records), records + if p.selected then 1 else 0)
  {
    var added := IntervalOf(p, records);
    var ivs := before + added;
    forall k | |before| <= k < |ivs| ensures ivs[k] == added[k - |before|] {}
  }

  lemma {:induction false} IntervalsFit(es: seq<Entry>, target: UserIdentity)
    ensures Fitting(Intervals(es, target), |Records(es, target)|)
  {
    if es != [] {
      IntervalsFit(es[..|es| - 1], target);
      FittingStep(Intervals(es[..|es| - 1], target), ParseEntry(es[|es| - 1].text, target),
                  |Records(es[..|es| - 1], target)|);
    }
  }

  // --- Reading the lines ---

  function Joined(p: Problems): Problems {
    if p == NoProblem || p == LimitExceeded then LimitExceeded else MalformedAndLimit
  }

  /** What reading the entries should give. */
  ghost predicate ReadFrom(es: seq<Entry>, target: UserIdentity, ranges: seq<SubIDRange>, records: seq<SubIDRecord>,
                           intervals: seq<Interval>) {
    ranges == Ranges(es, target) && records == Records(es, target) && intervals == Intervals(es, target)
  }

  lemma OneMoreLine(lines: seq<string>, k: nat)
    requires k < |lines|
    ensures Entries(lines[..k + 1]) == Entries(lines[..k]) + if Skipped(lines[k]) then [] else [Entry(k + 1, lines[k])]
  {
    assert lines[..k + 1][..k] == lines[..k];
  }

  lemma OneTooMany(lines: seq<string>, k: nat)
    requires k < |lines| && !Skipped(lines[k]) && |Entries(lines[..k])| == MAX_SUBID_RECORDS
    ensures FirstEntries(Entries(lines)) == Entries(lines[..k]) && |Entries(lines)| > MAX_SUBID_RECORDS
  {
    OneMoreLine(lines, k);
    EntriesPrefix(lines, k + 1);
    EntriesPrefix(lines, k);
  }

  method ReadLines(lines: seq<string>, target: UserIdentity)
    returns (ranges: seq<SubIDRange>, records: seq<SubIDRecord>, intervals: seq<Interval>, problems: Problems,
             ghost scanned: seq<Entry>)
    ensures scanned == FirstEntries(Entries(lines))
    ensures ReadFrom(scanned, target, ranges, records, intervals)
    ensures problems == NoProblem || problems == Malformed <==> |Entries(lines)| <= MAX_SUBID_RECORDS
    ensures problems == NoProblem || problems == LimitExceeded <==> AllParse(scanned, target)
  {
    ranges, records, intervals, problems := [], [], [], NoProblem;
    scanned := [];
    var lineNumber, count := 0, 0;
    while lineNumber < |lines|
      invariant 0 <= lineNumber <= |lines| && count == |scanned| <= MAX_SUBID_RECORDS
        && scanned == Entries(lines[..lineNumber])
      invariant ReadFrom(scanned, target, ranges, records, intervals)
      invariant problems == if AllParse(scanned, target) then NoProblem else Malformed
    {
      var line := lines[lineNumber];
      OneMoreLine(lines, lineNumber);
      lineNumber := lineNumber + 1;
      if line == "" || line[0] == '#' { continue; }
      count := count + 1;
      if count > MAX_SUBID_RECORDS {
        OneTooMany(lines, lineNumber - 1);
        problems := Joined(problems);
        return;
      }
      AllParseStep(scanned, Entry(lineNumber, line), target);
      ranges, records, intervals,
        problems := ReadLine(line, lineNumber, target, ranges, records, intervals, problems, scanned);
      scanned := scanned + [Entry(lineNumber, line)];
    }
    assert lines[..lineNumber] == lines;
  }

  lemma AllParseStep(es: seq<Entry>, e: Entry, target: UserIdentity)
    ensures AllParse(es + [e], target) <==> AllParse(es, target) && ParseEntry(e.text, target).Valid()
  {
    var longer := es + [e];
    assert longer[|es|] == e;
    assert forall k :: 0 <= k < |es| ==> longer[k] == es[k];
  }

  method ParseLine(line: string, target: UserIdentity) returns (p: Parsed)
    ensures p == ParseEntry(line, target)
  {
    var fields := SplitN(line, ':', SUBID_FIELDS + 1);
    var selected := fields[0] == target.username && target.username != "";
    var id := AccountID(fields[0]);
    if id.Some? && id.value == target.uid {
      selected := true;
    }
    p := Parsed(selected, if selected then fields[0] else "", None);
    if |fields| != SUBID_FIELDS || !IsAccountName(fields[0]) { return; }
    var start := AccountID(fields[1]);
    if start.None? { return; }
    var length := AccountID(fields[2]);
    if length.None? { return; }
    p := p.(range := Some(SubIDRange(start.value, length.value)));
  }

  lemma OneMoreEntry(before: seq<Entry>, e: Entry, target: UserIdentity)
    ensures var p := ParseEntry(e.text, target); var es := before + [e];
      && Ranges(es, target) == Ranges(before, target) + RangeOf(p)
      && Records(es, target)
        == (if p.selected then Records(before, target) + [RecordOf(e.line, p)] else Records(before, target))
      && Intervals(es, target) == Intervals(before, target) + IntervalOf(p, |Records(before, target)|)
  {
    var es := before + [e];
    assert es[..|before|] == before && es[|es| - 1] == e;
  }

  method ReadLine(line: string, lineNumber: nat, target: UserIdentity, ranges0: seq<SubIDRange>,
                  records0: seq<SubIDRecord>,
                  intervals0: seq<Interval>, problems0: Problems, ghost before: seq<Entry>)
    returns (ranges: seq<SubIDRange>, records: seq<SubIDRecord>, intervals: seq<Interval>, problems: Problems)
    requires ReadFrom(before, target, ranges0, records0, intervals0)
    ensures ReadFrom(before + [Entry(lineNumber, line)], target, ranges, records, intervals)
    ensures problems == if ParseEntry(line, target).Valid() then problems0 else Malformed
  {
    OneMoreEntry(before, Entry(lineNumber, line), target);
    var p := ParseLine(line, target);
    ranges, records, intervals, problems := Store(p, lineNumber, ranges0, records0, intervals0, problems0);
  }

  /**
   Files what a line says: its range as it stands, its interval when it is valid, and its record when it is selected.
   */
  method Store(p: Parsed, lineNumber: nat, ranges0: seq<SubIDRange>, records0: seq<SubIDRecord>,
               intervals0: seq<Interval>, problems0: Problems)
    returns (ranges: seq<SubIDRange>, records: seq<SubIDRecord>, intervals: seq<Interval>, problems: Problems)
    ensures ranges == ranges0 + RangeOf(p)
    ensures records == if p.selected then records0 + [RecordOf(lineNumber, p)] else records0
    ensures intervals == intervals0 + IntervalOf(p, |records0|)
    ensures problems == if p.Valid() then problems0 else Malformed
  {
    ranges, records, intervals, problems := ranges0, records0, intervals0, problems0;
    var record := SubIDRecord(lineNumber, p.owner, p.range, "");
    var index := -1;
    if p.selected {
      index := |records|;
    }
    if p.range.Some? && p.selected {
      ranges := ranges + [p.range.value];
    }
    if p.range.None? || !p.range.value.IsValid() {
      problems := Malformed;
      record := record.(problem := "invalid_record");
    } else {
      var r := p.range.value;
      intervals := intervals + [Interval(r.start, r.start + r.length, index)];
    }
    if p.selected {
      records := records + [record];
    }
  }

  // --- The sweep ---

  /** The interval at `i` meets another one. */
  ghost predicate Clashes(ivs: seq<Interval>, i: int)
    requires 0 <= i < |ivs|
  {
    exists j :: 0 <= j < |ivs| && j != i && Meet(ivs[i], ivs[j])
  }

  /** The record's interval meets another valid interval of the file. */
  ghost predicate Overlapped(ivs: seq<Interval>, record: int) {
    exists i :: 0 <= i < |ivs| && ivs[i].record == record && Clashes(ivs, i)
  }

  function MaxEnd(ivs: seq<Interval>): (m: nat)
    ensures forall k :: 0 <= k < |ivs| ==> ivs[k].end <= m
    ensures m > 0 ==> exists k :: 0 <= k < |ivs| && ivs[k].end == m
  {
    if ivs == [] then 0
    else
      var before, last := MaxEnd(ivs[..|ivs| - 1]), ivs[|ivs| - 1];
      assert forall k :: 0 <= k < |ivs| - 1 ==> ivs[..|ivs| - 1][k] == ivs[k];
      assert ivs[|ivs| - 1].end == last.end;
      if before > last.end then before else last.end
  }

  /**
   In start order it is enough to look back at the furthest end and ahead at the next start, however ties are
   ordered.
   */
  lemma SweepFindsClashes(ivs: seq<Interval>, i: nat)
    requires SortedBy(ivs, (v: Interval) => v.start) && i < |ivs|
    requires forall k :: 0 <= k < |ivs| ==> ivs[k].start < ivs[k].end
    ensures Clashes(ivs, i) <==>
      ivs[i].start < MaxEnd(ivs[..i]) || (i + 1 < |ivs| && ivs[i + 1].start < ivs[i].end)
  {
    var key := (v: Interval) => v.start;
    assert forall j, k :: 0 <= j < k < |ivs| ==> key(ivs[j]) <= key(ivs[k]);
    if j :| 0 <= j < |ivs| && j != i && Meet(ivs[i], ivs[j]) {
      if j < i {
        assert ivs[..i][j] == ivs[j];
      } else {
        assert i + 1 == j || key(ivs[i + 1]) <= key(ivs[j]);
      }
    }
    if ivs[i].start < MaxEnd(ivs[..i]) {
      var j :| 0 <= j < i && ivs[..i][j].end == MaxEnd(ivs[..i]);
      assert key(ivs[j]) <= key(ivs[i]);
      assert Meet(ivs[i], ivs[j]);
    }
    if i + 1 < |ivs| && ivs[i + 1].start < ivs[i].end {
      assert key(ivs[i]) <= key(ivs[i + 1]);
      assert Meet(ivs[i], ivs[i + 1]);
    }
  }

  lemma OverlapIgnoresOrder(a: seq<Interval>, b: seq<Interval>, record: int)
    requires multiset(a) == multiset(b) && Overlapped(a, record)
    ensures Overlapped(b, record)
  {
    var meet := (x: Interval, y: Interval) => Meet(x, y);
    var i :| 0 <= i < |a| && a[i].record == record && Clashes(a, i);
    var m :| 0 <= m < |a| && m != i && Meet(a[i], a[m]);
    assert meet(a[i], a[m]);
    MeetingIgnoresOrder(a, i, meet);
    assert a[i] in multiset(a);
    assert a[i] in multiset(b);
    var j :| 0 <= j < |b| && b[j] == a[i];
    MeetingIgnoresOrder(b, j, meet);
    var y :| 0 <= y < |b| && y != j && meet(b[j], b[y]);
    assert Meet(b[j], b[y]);
    assert Clashes(b, j);
  }

  function Mark(r: SubIDRecord): SubIDRecord {
    r.(problem := "allocation_overlap")
  }

  /** The records of the first `i` intervals that clash are marked, the others untouched. */
  ghost predicate MarkedTo(ivs: seq<Interval>, i: int, before: seq<SubIDRecord>, after: seq<SubIDRecord>)
    requires 0 <= i <= |ivs|
  {
    && |after| == |before|
    && forall r :: 0 <= r < |before| ==> after[r] == if HitTo(ivs, i, r) then Mark(before[r]) else before[r]
  }

  ghost predicate HitTo(ivs: seq<Interval>, i: int, r: int)
    requires 0 <= i <= |ivs|
  {
    exists k :: 0 <= k < i && ivs[k].record == r && Clashes(ivs, k)
  }

  ghost predicate AnyHit(ivs: seq<Interval>, i: int)
    requires 0 <= i <= |ivs|
  {
    exists k :: 0 <= k < i && ivs[k].record >= 0 && Clashes(ivs, k)
  }

  lemma HitStep(ivs: seq<Interval>, i: nat)
    requires i < |ivs|
    ensures forall r :: HitTo(ivs, i + 1, r) <==> HitTo(ivs, i, r) || (ivs[i].record == r && Clashes(ivs, i))
    ensures AnyHit(ivs, i + 1) <==> AnyHit(ivs, i) || (ivs[i].record >= 0 && Clashes(ivs, i))
  {
    forall r ensures HitTo(ivs, i + 1, r) <==> HitTo(ivs, i, r) || (ivs[i].record == r && Clashes(ivs, i)) {
      if k :| 0 <= k < i && ivs[k].record == r && Clashes(ivs, k) {
        assert HitTo(ivs, i + 1, r);
      }
    }
  }

  method Sweep(intervals: seq<Interval>, records0: seq<SubIDRecord>, problems0: Problems)
    returns (records: seq<SubIDRecord>, problems: Problems)
    requires forall k :: 0 <= k < |intervals| ==>
      intervals[k].start < intervals[k].end && -1 <= intervals[k].record < |records0|
    ensures |records| == |records0|
    ensures forall r :: 0 <= r < |records| ==>
      records[r] == if Overlapped(intervals, r) then Mark(records0[r]) else records0[r]
    ensures problems == if exists r :: 0 <= r < |records0| && Overlapped(intervals, r) then Malformed else problems0
  {
    var key := (v: Interval) => v.start;
    var ivs := SortByKey(intervals, key);
    forall k | 0 <= k < |ivs| ensures ivs[k].start < ivs[k].end && -1 <= ivs[k].record < |records0| {
      assert ivs[k] in multiset(ivs);
      assert ivs[k] in intervals;
    }
    records, problems := records0, problems0;
    var previousEnd := 0;
    var i := 0;
    while i < |ivs|
      invariant 0 <= i <= |ivs| && previousEnd == MaxEnd(ivs[..i])
      invariant MarkedTo(ivs, i, records0, records)
      invariant problems == if AnyHit(ivs, i) then Malformed else problems0
    {
      var row := ivs[i];
      SweepFindsClashes(ivs, i);
      HitStep(ivs, i);
      var conflict := row.start < previousEnd || (i + 1 < |ivs| && ivs[i + 1].start < row.end);
      if conflict && row.record >= 0 {
        records := records[row.record := Mark(records[row.record])];
        problems := Malformed;
      }
      assert ivs[..i + 1][..i] == ivs[..i];
      previousEnd := if previousEnd > row.end then previousEnd else row.end;
      i := i + 1;
    }
    SweptAll(intervals, ivs, |records0|);
  }

  /** What the whole sweep hits is what overlaps in the file. */
  lemma SweptAll(intervals: seq<Interval>, ivs: seq<Interval>, records: nat)
    requires multiset(intervals) == multiset(ivs)
    requires forall k :: 0 <= k < |ivs| ==> ivs[k].record < records
    ensures forall r :: HitTo(ivs, |ivs|, r) <==> Overlapped(intervals, r)
    ensures AnyHit(ivs, |ivs|) <==> exists r :: 0 <= r < records && Overlapped(intervals, r)
  {
    forall r ensures HitTo(ivs, |ivs|, r) <==> Overlapped(intervals, r) {
      assert HitTo(ivs, |ivs|, r) <==> Overlapped(ivs, r);
      if Overlapped(ivs, r) { OverlapIgnoresOrder(ivs, intervals, r); }
      if Overlapped(intervals, r) { OverlapIgnoresOrder(intervals, ivs, r); }
    }
    if k :| 0 <= k < |ivs| && ivs[k].record >= 0 && Clashes(ivs, k) {
      assert HitTo(ivs, |ivs|, ivs[k].record);
    }
    if r :| 0 <= r < records && Overlapped(intervals, r) {
      assert HitTo(ivs, |ivs|, r);
    }
  }

  // --- The parser ---

  /** The entries that the parser looks at. */
  function Scanned(data: string): seq<Entry> {
    FirstEntries(Entries(Split(data, '\n')))
  }

  ghost predicate NoneOverlapped(es: seq<Entry>, target: UserIdentity) {
    forall r :: 0 <= r < |Records(es, target)| ==> !Overlapped(Intervals(es, target), r)
  }

  /** The records that overlap are marked, and only they are changed. */
  ghost predicate Marked(before: seq<SubIDRecord>, after: seq<SubIDRecord>, ivs: seq<Interval>) {
    |after| == |before| && forall r :: 0 <= r < |before| ==>
      after[r] == if Overlapped(ivs, r) then Mark(before[r]) else before[r]
  }

  lemma SweptIsMarked(before: seq<SubIDRecord>, after: seq<SubIDRecord>, ivs: seq<Interval>)
    requires |after| == |before|
    requires forall r :: 0 <= r < |after| ==> after[r] == if Overlapped(ivs, r) then Mark(before[r]) else before[r]
    ensures Marked(before, after, ivs)
  {
  }

  /** What parsing a file for a user should give. */
  ghost predicate IsAllocation(out: SubIDAllocation, problems: Problems, data: string, target: UserIdentity) {
    if !target.IsValid() || !ValidAccountInput(data) then
      out == SubIDAllocation([], [], None, false) && problems == Malformed
    else
      && out.ranges == Ranges(Scanned(data), target)
      && Marked(Records(Scanned(data), target), out.records, Intervals(Scanned(data), target))
      && (out.valid <==> problems == NoProblem)
      && (out.valid <==> FileIsValid(data, target))
      && out.total == if out.valid then Some(TotalLength(out.ranges)) else None
  }

  ghost predicate FileIsValid(data: string, target: UserIdentity) {
    && |Entries(Split(data, '\n'))| <= MAX_SUBID_RECORDS
    && AllParse(Scanned(data), target) && NoneOverlapped(Scanned(data), target)
  }

  method ParseSubIDs(data: string, target: UserIdentity) returns (out: SubIDAllocation, problems: Problems)
    ensures IsAllocation(out, problems, data, target)
    ensures out.valid ==> ValidPool(out.ranges) && out.total.Some? && out.total.value <= MAX_UINT32
  {
    if !target.IsValid() || !ValidAccountInput(data) {
      return SubIDAllocation([], [], None, false), Malformed;
    }
    var ranges, records, intervals, found;
    ghost var es;
    ranges, records, intervals, found, es := ReadLines(Split(data, '\n'), target);
    IntervalsFit(es, target);
    ghost var before := records;
    records, problems := Sweep(intervals, records, found);
    SweptIsMarked(before, records, intervals);
    var valid := problems == NoProblem;
    var total := None;
    if valid {
      ValidFileGivesPool(es, target);
      var sum := SumLengths(ranges);
      total := Some(sum);
    }
    out := SubIDAllocation(ranges, records, total, valid);
  }

  method SumLengths(ranges: seq<SubIDRange>) returns (total: nat)
    ensures total == TotalLength(ranges)
  {
    total := 0;
    for k := 0 to |ranges|
      invariant total == TotalLength(ranges[..k])
    {
      assert ranges[..k + 1][..k] == ranges[..k];
      total := total + ranges[k].length;
    }
    assert ranges[..|ranges|] == ranges;
  }

  // --- What a valid pool means ---

  /** Every range is valid and is the interval of the record with its number. */
  ghost predicate Paired(ranges: seq<SubIDRange>, ivs: seq<Interval>) {
    forall k :: 0 <= k < |ranges| ==> PairedAt(ranges[k], k, ivs)
  }

  ghost predicate PairedAt(r: SubIDRange, k: int, ivs: seq<Interval>) {
    r.IsValid() && exists i :: 0 <= i < |ivs| && ivs[i] == Interval(r.start, r.End(), k)
  }

  lemma PairedStep(ranges: seq<SubIDRange>, ivs: seq<Interval>, p: Parsed)
    requires Paired(ranges, ivs) && p.Valid()
    ensures Paired(ranges + RangeOf(p), ivs + IntervalOf(p, |ranges|))
  {
    var more, after := ranges + RangeOf(p), ivs + IntervalOf(p, |ranges|);
    forall k | 0 <= k < |more| ensures PairedAt(more[k], k, after) {
      if k < |ranges| {
        assert PairedAt(ranges[k], k, ivs);
        var i :| 0 <= i < |ivs| && ivs[i] == Interval(ranges[k].start, ranges[k].End(), k);
        assert after[i] == ivs[i];
      } else {
        assert after[|ivs|] == Interval(more[k].start, more[k].End(), k);
      }
    }
  }

  /** As many records as ranges, each range valid and the interval of its record. */
  ghost predicate Filed(es: seq<Entry>, target: UserIdentity) {
    |Ranges(es, target)| == |Records(es, target)| && Paired(Ranges(es, target), Intervals(es, target))
  }

  lemma FiledStep(front: seq<Entry>, last: Entry, p: Parsed, target: UserIdentity)
    requires Filed(front, target) && p == ParseEntry(last.text, target) && p.Valid()
    ensures Filed(front + [last], target)
  {
    OneMoreEntry(front, last, target);
    PairedStep(Ranges(front, target), Intervals(front, target), p);
  }

  /** When all entries parse, the selected ranges are the intervals with a record, in order. */
  lemma {:induction false} RangesAreIntervals(es: seq<Entry>, target: UserIdentity)
    requires AllParse(es, target)
    ensures Filed(es, target)
  {
    if es != [] {
      var front, last := es[..|es| - 1], es[|es| - 1];
      assert es == front + [last];
      AllParseStep(front, last, target);
      RangesAreIntervals(front, target);
      FiledStep(front, last, ParseEntry(last.text, target), target);
    }
  }

  /**
   A file that is reported valid gives a pool that the range check accepts: valid ranges, pairwise apart, with an
   exact total that fits the ID space.
   */
  lemma ValidFileGivesPool(es: seq<Entry>, target: UserIdentity)
    requires AllParse(es, target) && NoneOverlapped(es, target)
    ensures ValidPool(Ranges(es, target))
    ensures TotalLength(Ranges(es, target)) <= MAX_UINT32
  {
    var ranges, ivs := Ranges(es, target), Intervals(es, target);
    RangesAreIntervals(es, target);
    forall k | 0 <= k < |ranges| ensures ranges[k].IsValid() {
      assert PairedAt(ranges[k], k, ivs);
    }
    forall j, k | 0 <= j < |ranges| && 0 <= k < |ranges| && j != k ensures Apart(ranges[j], ranges[k]) {
      assert PairedAt(ranges[j], j, ivs) && PairedAt(ranges[k], k, ivs);
      var a :| 0 <= a < |ivs| && ivs[a] == Interval(ranges[j].start, ranges[j].End(), j);
      var b :| 0 <= b < |ivs| && ivs[b] == Interval(ranges[k].start, ranges[k].End(), k);
      assert !Overlapped(ivs, j);
      assert !Clashes(ivs, a);
      assert !Meet(ivs[a], ivs[b]);
    }
    DisjointTotal(ranges, MAX_UINT32);
  }
}
