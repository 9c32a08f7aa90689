/**
 Output and input under a byte limit: boundedBuffer of internal/platform/runner.go and readBounded of
 internal/platform/bounded_io.go.
 */
module BoundedIO {

  const INITIAL_OUTPUT_BYTES := 4096
  const OUTPUT_GROWTH_FACTOR := 2
  const IO_CHUNK_BYTES := 4096
  const INTERRUPTED_RETRIES := 8

  type Byte = bv8

  function Min(a: int, b: int): (r: int)
    ensures r <= a && r <= b && (r == a || r == b)
  {
    if a < b then a else b
  }

  function Max(a: int, b: int): (r: int)
    ensures r >= a && r >= b && (r == a || r == b)
  {
    if a > b then a else b
  }

  // --- Output ---

  /** A buffer that keeps the first `capacity` bytes; `written` and `copied` are what it has seen and moved. */
  class BoundedBuffer {
    const capacity: nat
    var backing: array<Byte>
    var length: nat
    var truncated: bool
    ghost var written: seq<Byte>
    ghost var copied: nat

    /** The first `capacity` bytes are kept, and no more memory than that is used. */
    ghost predicate Valid()
      reads this, backing
    {
      && length == Min(capacity, |written|) && length <= backing.Length <= capacity
      && backing[..length] == written[..length]
      && truncated == (|written| > capacity)
      && (if backing.Length < capacity then copied <= backing.Length
          else copied <= 2 * capacity - (if capacity > 0 then 1 else 0))
    }

    constructor (capacity: nat)
      ensures Valid() && fresh(backing) && this.capacity == capacity && written == [] && copied == 0
    {
      this.capacity := capacity;
      backing := new Byte[Min(INITIAL_OUTPUT_BYTES, capacity)];
      length, truncated, written, copied := 0, false, [], 0;
    }

    /** Makes room for `needed` bytes in a new array, within the capacity. */
    method Grow(needed: nat)
      requires Valid() && backing.Length < needed <= capacity
      modifies this`backing, this`copied
      ensures Valid() && fresh(backing) && backing.Length >= needed
      ensures copied == old(copied) + length
    {
      var data := new Byte[Min(capacity, Max(needed, backing.Length * OUTPUT_GROWTH_FACTOR))];
      var k := 0;
      while k < length
        invariant 0 <= k <= length && data[..k] == backing[..k]
        modifies data
      {
        data[k] := backing[k];
        k := k + 1;
      }
      backing := data;
      copied := copied + length;
    }

    /** Accepts all of `p` and keeps what fits. */
    method Write(p: seq<Byte>) returns (n: nat)
      requires Valid()
      modifies this, backing
      ensures Valid() && n == |p| && written == old(written) + p
      ensures backing == old(backing) || fresh(backing)
      ensures copied >= old(copied)
    {
      n := |p|;
      if truncated || |p| == 0 {
        written := written + p;
        return;
      }
      var retained := Min(|p|, capacity - length);
      var needed := length + retained;
      if needed > backing.Length {
        Grow(needed);
      }
      Append(p[..retained]);
      Drop(p[retained..]);
      assert p[..retained] + p[retained..] == p;
      assert old(written) + p[..retained] + p[retained..] == old(written) + p;
    }

    /** Notes the bytes that did not fit. */
    method Drop(rest: seq<Byte>)
      requires Valid() && !truncated && (rest != [] ==> length == capacity)
      modifies this`truncated, this`written
      ensures Valid() && written == old(written) + rest
    {
      truncated := |rest| > 0;
      written := written + rest;
    }

    /** Appends bytes for which there is room. */
    method Append(p: seq<Byte>)
      requires Valid() && length + |p| <= backing.Length && length == |written|
      modifies this`length, this`written, backing
      ensures Valid() && written == old(written) + p && length == old(length) + |p|
    {
      ghost var before := backing[..length];
      var k := 0;
      while k < |p|
        invariant 0 <= k <= |p| && backing[..length + k] == before + p[..k]
        modifies backing
      {
        backing[length + k] := p[k];
        k := k + 1;
      }
      length := length + |p|;
      written := written + p;
    }

    /** A copy of the retained bytes: the first `capacity` bytes of everything written. */
    method Bytes() returns (bytes: seq<Byte>)
      requires Valid()
      ensures bytes == written[..Min(capacity, |written|)]
    {
      bytes := backing[..length];
    }

    method Truncated() returns (r: bool)
      requires Valid()
      ensures r <==> |written| > capacity
    {
      r := truncated;
    }
  }

  /** Any series of writes keeps exactly the first bytes, and copies less than twice the capacity in regrowths. */
  method WriteAll(capacity: nat, chunks: seq<seq<Byte>>) returns (b: BoundedBuffer)
    ensures fresh(b) && b.Valid() && b.capacity == capacity && b.written == Joined(chunks)
    ensures b.backing[..b.length] == Joined(chunks)[..Min(capacity, |Joined(chunks)|)]
    ensures b.truncated <==> |Joined(chunks)| > capacity
    ensures b.backing.Length <= capacity
    ensures capacity > 0 ==> b.copied < 2 * capacity
    ensures capacity == 0 ==> b.copied == 0
  {
    b := new BoundedBuffer(capacity);
    var k := 0;
    while k < |chunks|
      invariant 0 <= k <= |chunks| && fresh(b) && fresh(b.backing) && b.Valid() && b.capacity == capacity
      invariant b.written == Joined(chunks[..k])
    {
      var n := b.Write(chunks[k]);
      assert chunks[..k + 1][..k] == chunks[..k];
      k := k + 1;
    }
    assert chunks[..k] == chunks;
  }

  function Joined(chunks: seq<seq<Byte>>): seq<Byte> {
    if chunks == [] then [] else Joined(chunks[..|chunks| - 1]) + chunks[|chunks| - 1]
  }

  // --- Input ---

  datatype ReadError = NoError | EndOfFile | Interrupted | OtherFailure

  /** One answer of the reader; a failed call delivers nothing. */
  datatype ReadResult = ReadResult(bytes: seq<Byte>, failed: bool, err: ReadError)

  /** What the reader answers to its calls, in order, and when the context is found canceled. */
  datatype Source = Source(read: (nat, nat) -> ReadResult, canceled: nat -> bool)

  /** The contract of a read call: at most the space given, and a failed call has an error. */
  ghost predicate Readable(src: Source) {
    forall call, space: nat :: GoodAnswer(src.read(call, space), space)
  }

  predicate GoodAnswer(r: ReadResult, space: nat) {
    |r.bytes| <= space && (r.failed ==> r.bytes == [] && r.err != NoError)
  }

  datatype Outcome = Whole | OverLimit | Incomplete

  /** All bytes that some answers delivered. */
  function Delivered(answers: seq<ReadResult>): seq<Byte> {
    if answers == [] then [] else Delivered(answers[..|answers| - 1]) + answers[|answers| - 1].bytes
  }

  /** The interruptions since an answer last brought bytes; that answer itself may be one. */
  function Interruptions(answers: seq<ReadResult>): nat {
    if answers == [] then 0
    else
      var last := answers[|answers| - 1];
      (if last.bytes != [] then 0 else Interruptions(answers[..|answers| - 1]))
        + (if last.err == Interrupted then 1 else 0)
  }

  /** The space offered to the call after some answers: never more than one byte over the limit. */
  function Space(limit: nat, answers: seq<ReadResult>): int {
    Min(Min(IO_CHUNK_BYTES, limit + 1), limit - |Delivered(answers)| + 1)
  }

  predicate EndAnswer(r: ReadResult) {
    r.err == EndOfFile || (r.err == NoError && r.bytes == [])
  }

  /** A failure, or one interruption more than is retried. */
  predicate GivesUp(answers: seq<ReadResult>) {
    && answers != []
    && var last := answers[|answers| - 1];
      last.err == OtherFailure || (last.err == Interrupted && Interruptions(answers) > INTERRUPTED_RETRIES)
  }

  /** After these answers there is another call, unless the context is canceled. */
  predicate GoesOn(limit: nat, answers: seq<ReadResult>) {
    answers == [] || (|Delivered(answers)| <= limit && !EndAnswer(answers[|answers| - 1]) && !GivesUp(answers))
  }

  /** The reader gave these answers, call by call, each with the space asked for, and every one but the last goes on. */
  ghost predicate Answered(src: Source, limit: nat, answers: seq<ReadResult>) {
    forall k :: 0 <= k < |answers| ==> AnsweredAt(src, limit, answers, k)
  }

  ghost predicate AnsweredAt(src: Source, limit: nat, answers: seq<ReadResult>, k: nat)
    requires k < |answers|
  {
    && GoesOn(limit, answers[..k]) && !src.canceled(k)
    && Space(limit, answers[..k]) >= 0 && answers[k] == src.read(k, Space(limit, answers[..k]))
  }

  /** There is no further call. */
  ghost predicate Ended(src: Source, limit: nat, answers: seq<ReadResult>) {
    src.canceled(|answers|) || !GoesOn(limit, answers)
  }

  /** All answers of a whole read that has had some of them. */
  ghost function Reading(src: Source, limit: nat, answers: seq<ReadResult>): (all: seq<ReadResult>)
    requires Readable(src) && GoesOn(limit, answers)
    decreases limit - |Delivered(answers)|, INTERRUPTED_RETRIES - Interruptions(answers)
  {
    if src.canceled(|answers|) then answers
    else
      var r := src.read(|answers|, Space(limit, answers));
      var next := answers + [r];
      assert next[..|answers|] == answers;
      if GoesOn(limit, next) then Reading(src, limit, next) else next
  }

  /** What is returned after all answers. */
  ghost predicate Concludes(src: Source, limit: nat, answers: seq<ReadResult>, data: seq<Byte>, outcome: Outcome) {
    && data == Delivered(answers)[..Min(limit, |Delivered(answers)|)]
    && (outcome == OverLimit <==> |Delivered(answers)| > limit)
    && (outcome == Whole <==>
          answers != [] && |Delivered(answers)| <= limit && EndAnswer(answers[|answers| - 1])
            && !src.canceled(|answers|))
    && (outcome == Incomplete <==> |Delivered(answers)| <= limit && (GivesUp(answers) || src.canceled(|answers|)))
  }

  /**
   Reads to the end or to the limit. It ends for every reader, after a bounded number of calls, keeps the start of
   what all answers delivered, and succeeds exactly when the last one said that there is no more.
   */
  method ReadBounded(src: Source, limit: nat) returns (data: seq<Byte>, outcome: Outcome)
    requires Readable(src)
    ensures Concludes(src, limit, Reading(src, limit, []), data, outcome)
    ensures |Reading(src, limit, [])| <= (INTERRUPTED_RETRIES + 1) * (limit + 1)
  {
    ghost var answers;
    data, outcome, answers := ReadAll(src, limit);
    ReadingIsAnswered(src, limit, []);
    AnswersAreDetermined(src, limit, answers, Reading(src, limit, []), 0);
  }

  /** What holds before each call. */
  ghost predicate SoFar(src: Source, limit: nat, answers: seq<ReadResult>, data: seq<Byte>, retries: int) {
    && Answered(src, limit, answers) && GoesOn(limit, answers)
    && data == Delivered(answers) && |data| <= limit && retries == Interruptions(answers) <= INTERRUPTED_RETRIES
    && |answers| <= (INTERRUPTED_RETRIES + 1) * |data| + retries
  }

  ghost predicate Done(src: Source, limit: nat, answers: seq<ReadResult>, data: seq<Byte>, outcome: Outcome) {
    && Answered(src, limit, answers) && Ended(src, limit, answers) && Concludes(src, limit, answers, data, outcome)
    && |answers| <= (INTERRUPTED_RETRIES + 1) * (limit + 1)
  }

  /** An answer over the limit, at the end, or given up on ends the reading; any other goes on. */
  lemma AfterAnswer(src: Source, limit: nat, answers: seq<ReadResult>, data: seq<Byte>, retries: int, r: ReadResult)
    requires SoFar(src, limit, answers, data, retries) && !src.canceled(|answers|)
    requires r == src.read(|answers|, Space(limit, answers)) && GoodAnswer(r, Space(limit, answers))
    ensures var all, room := answers + [r], limit - |data|; var now := if r.bytes != [] then 0 else retries;
      if |r.bytes| > room then Done(src, limit, all, data + r.bytes[..room], OverLimit)
      else if EndAnswer(r) then Done(src, limit, all, data + r.bytes, if src.canceled(|all|) then Incomplete else Whole)
      else if r.err == NoError then SoFar(src, limit, all, data + r.bytes, now)
      else if r.err == Interrupted && now < INTERRUPTED_RETRIES then SoFar(src, limit, all, data + r.bytes, now + 1)
      else Done(src, limit, all, data + r.bytes, Incomplete)
  {
    OneMoreAnswer(src, limit, answers, r);
    var room, delivered := limit - |data|, data + r.bytes;
    assert Delivered(answers + [r]) == delivered;
    if |r.bytes| > room {
      assert data + r.bytes[..room] == delivered[..limit];
    } else {
      assert delivered[..|delivered|] == delivered;
    }
  }

  /** The loop, with the answers it has had. */
  method ReadAll(src: Source, limit: nat) returns (data: seq<Byte>, outcome: Outcome, ghost answers: seq<ReadResult>)
    requires Readable(src)
    ensures Done(src, limit, answers, data, outcome)
  {
    data, answers := [], [];
    var scratch := Min(IO_CHUNK_BYTES, limit + 1);
    var retries, steps := 0, 0;
    while true
      invariant SoFar(src, limit, answers, data, retries) && steps == |answers|
      decreases limit - |data|, INTERRUPTED_RETRIES - retries
    {
      if src.canceled(steps) { return data, Incomplete, answers; }
      var space := Min(scratch, limit - |data| + 1);
      var r := src.read(steps, space);
      assert GoodAnswer(r, space);
      AfterAnswer(src, limit, answers, data, retries, r);
      answers, steps := answers + [r], steps + 1;
      var remaining := limit - |data|;
      if |r.bytes| > 0 {
        data := data + r.bytes[..Min(|r.bytes|, remaining)];
        retries := 0;
      }
      if |r.bytes| > remaining { return data, OverLimit, answers; }
      if r.err == EndOfFile {
        return data, if src.canceled(steps) then Incomplete else Whole, answers;
      }
      if r.err != NoError {
        if r.err == Interrupted && retries < INTERRUPTED_RETRIES {
          retries := retries + 1;
          continue;
        }
        return data, Incomplete, answers;
      }
      if |r.bytes| == 0 {
        return data, if src.canceled(steps) then Incomplete else Whole, answers;
      }
    }
  }

  /** The reading is answered call by call, and ends. */
  lemma {:induction false} ReadingIsAnswered(src: Source, limit: nat, answers: seq<ReadResult>)
    requires Readable(src) && Answered(src, limit, answers) && GoesOn(limit, answers)
    ensures Answered(src, limit, Reading(src, limit, answers)) && Ended(src, limit, Reading(src, limit, answers))
    decreases limit - |Delivered(answers)|, INTERRUPTED_RETRIES - Interruptions(answers)
  {
    if !src.canceled(|answers|) {
      var r := src.read(|answers|, Space(limit, answers));
      OneMoreAnswer(src, limit, answers, r);
      if GoesOn(limit, answers + [r]) {
        ReadingIsAnswered(src, limit, answers + [r]);
      }
    }
  }

  lemma OneMoreAnswer(src: Source, limit: nat, answers: seq<ReadResult>, r: ReadResult)
    requires Answered(src, limit, answers) && GoesOn(limit, answers) && !src.canceled(|answers|)
    requires Space(limit, answers) >= 0 && r == src.read(|answers|, Space(limit, answers))
    ensures Answered(src, limit, answers + [r])
    ensures Delivered(answers + [r]) == Delivered(answers) + r.bytes
    ensures var retries := (if r.bytes != [] then 0 else Interruptions(answers))
      + (if r.err == Interrupted then 1 else 0);
      && Interruptions(answers + [r]) == retries && (answers + [r])[|answers|] == r
      && (GivesUp(answers + [r]) <==> r.err == OtherFailure || (r.err == Interrupted && retries > INTERRUPTED_RETRIES))
      && (GoesOn(limit, answers + [r]) <==>
            |Delivered(answers + [r])| <= limit && !EndAnswer(r) && !GivesUp(answers + [r]))
  {
    var all := answers + [r];
    assert all[..|answers|] == answers;
    forall k | 0 <= k < |all| ensures AnsweredAt(src, limit, all, k) {
      if k < |answers| {
        assert AnsweredAt(src, limit, answers, k) && all[..k] == answers[..k];
      }
    }
  }

  /** A reader has only one ended series of answers: any that is answered call by call is the one of ReadBounded. */
  lemma {:induction false} AnswersAreDetermined(src: Source, limit: nat, a: seq<ReadResult>, b: seq<ReadResult>, k: nat)
    requires Answered(src, limit, a) && Ended(src, limit, a) && Answered(src, limit, b) && Ended(src, limit, b)
    requires k <= |a| && k <= |b| && a[..k] == b[..k]
    ensures a == b
    decreases |a| - k
  {
    assert a[..|a|] == a && b[..|b|] == b;
    assert k < |a| ==> AnsweredAt(src, limit, a, k);
    assert k < |b| ==> AnsweredAt(src, limit, b, k);
    if k < |a| && k < |b| {
      assert a[..k + 1] == a[..k] + [a[k]] && b[..k + 1] == b[..k] + [b[k]];
      AnswersAreDetermined(src, limit, a, b, k + 1);
    }
  }
}
