/**
 What a bounded read comes to, in terms of the reader's answers alone: the space each call is given, when the reading
 stops, and what it returns; and what a command key looks like.
 */
module InputOutcomes {
  import opened Seqs
  import opened Text
  import opened BoundedIO
  import opened CommandKey

  // --- Reading ---

  function Length(r: ReadResult): int { |r.bytes| }

  lemma {:induction false} DeliveredLength(answers: seq<ReadResult>)
    ensures |Delivered(answers)| == SumBy(answers, Length)
  {
    if answers != [] {
      var front, last := answers[..|answers| - 1], answers[|answers| - 1];
      DeliveredLength(front);
      assert answers == front + [last];
      SumByConcat(front, [last], Length);
      assert [last][1..] == [];
    }
  }

  /** The reader says that there is no more. */
  predicate SaysEnd(r: ReadResult) {
    r.err == EndOfFile || (r.err == NoError && |r.bytes| == 0)
  }

  /** The last `n` answers were interrupted, and only the first of them may have brought bytes. */
  predicate Interrupts(answers: seq<ReadResult>, n: nat) {
    && n <= |answers|
    && (forall k :: |answers| - n <= k < |answers| ==> answers[k].err == Interrupted)
    && (forall k :: |answers| - n < k < |answers| ==> answers[k].bytes == [])
  }

  /** Every answer but the last brought bytes or was interrupted. */
  predicate OnTheWay(answers: seq<ReadResult>) {
    forall k :: 0 <= k < |answers| - 1 ==>
      answers[k].err == Interrupted || (answers[k].err == NoError && answers[k].bytes != [])
  }

  lemma {:induction false} InterruptionsMean(answers: seq<ReadResult>, n: nat)
    requires OnTheWay(answers) && n >= 1
    requires answers != [] && answers[|answers| - 1].err == Interrupted
    ensures Interruptions(answers) >= n <==> Interrupts(answers, n)
    decreases n
  {
    var front, last := answers[..|answers| - 1], answers[|answers| - 1];
    forall k | 0 <= k < |front| ensures front[k] == answers[k] {}
    if n > 1 {
      if last.bytes == [] && front != [] {
        if front[|front| - 1].err == Interrupted {
          InterruptionsMean(front, n - 1);
          InterruptsStep(answers, n);
        } else {
          assert Interruptions(front) == 0;
        }
      }
    }
  }

  lemma InterruptsStep(answers: seq<ReadResult>, n: nat)
    requires answers != [] && n > 1
    requires answers[|answers| - 1].err == Interrupted && answers[|answers| - 1].bytes == []
    ensures Interrupts(answers, n) <==> Interrupts(answers[..|answers| - 1], n - 1)
  {
    var front := answers[..|answers| - 1];
    forall k | 0 <= k < |front| ensures front[k] == answers[k] {}
  }

  /** A read gives up on a failure, and on the ninth interruption in a row without bytes after the first. */
  lemma GivesUpMeans(answers: seq<ReadResult>)
    requires OnTheWay(answers) && answers != []
    ensures GivesUp(answers) <==> answers[|answers| - 1].err == OtherFailure || Interrupts(answers, 9)
  {
    if answers[|answers| - 1].err == Interrupted {
      InterruptionsMean(answers, 9);
    }
  }

  /** The smallest of three numbers. */
  function Least(a: int, b: int, c: int): int {
    if a <= b && a <= c then a else if b <= c then b else c
  }

  /** The answers of a whole read: each to a call with the right space, and none but the last a reason to stop. */
  ghost predicate IsReading(src: Source, limit: nat, answers: seq<ReadResult>) {
    && OnTheWay(answers)
    && (forall k :: 0 <= k < |answers| ==> !src.canceled(k) && IsAnswer(src, limit, answers, k))
    && (forall k :: 0 <= k < |answers| ==> SumBy(answers[..k], Length) <= limit && !Interrupts(answers[..k], 9))
  }

  ghost predicate IsAnswer(src: Source, limit: nat, answers: seq<ReadResult>, k: nat)
    requires k < |answers|
  {
    var space := Least(4096, limit + 1, limit + 1 - SumBy(answers[..k], Length));
    space >= 0 && answers[k] == src.read(k, space)
  }

  lemma {:induction false} AnsweredOnTheWay(src: Source, limit: nat, answers: seq<ReadResult>)
    requires Readable(src) && Answered(src, limit, answers)
    ensures OnTheWay(answers)
  {
    forall k | 0 <= k < |answers| - 1
      ensures answers[k].err == Interrupted || (answers[k].err == NoError && answers[k].bytes != [])
    {
      assert AnsweredAt(src, limit, answers, k + 1);
      assert answers[..k + 1][k] == answers[k];
    }
  }

  lemma AnsweredIsReading(src: Source, limit: nat, answers: seq<ReadResult>)
    requires Readable(src) && Answered(src, limit, answers)
    ensures IsReading(src, limit, answers)
  {
    AnsweredOnTheWay(src, limit, answers);
    forall k | 0 <= k < |answers|
      ensures !src.canceled(k) && IsAnswer(src, limit, answers, k)
        && SumBy(answers[..k], Length) <= limit && !Interrupts(answers[..k], 9)
    {
      assert AnsweredAt(src, limit, answers, k);
      DeliveredLength(answers[..k]);
      if k > 0 {
        forall j | 0 <= j < k ensures answers[..k][j] == answers[j] {}
        GivesUpMeans(answers[..k]);
      } else {
        assert answers[..k] == [];
      }
    }
  }

  /**
   The result of a bounded read: the first bytes delivered, up to the limit; over the limit when there were more, whole
   when the reader said that there are no more, and incomplete after a failure, too many interruptions or a canceled
   context.
   */
  lemma ReadMeans(src: Source, limit: nat, data: seq<Byte>, outcome: Outcome)
    requires Readable(src) && Concludes(src, limit, Reading(src, limit, []), data, outcome)
    ensures var answers := Reading(src, limit, []); var total := SumBy(answers, Length);
      && IsReading(src, limit, answers)
      && total == |Delivered(answers)| && data == Delivered(answers)[..if total < limit then total else limit]
      && (outcome == OverLimit <==> total > limit)
      && (outcome == Whole <==>
            total <= limit && answers != [] && SaysEnd(answers[|answers| - 1]) && !src.canceled(|answers|))
      && (outcome == Incomplete <==>
            total <= limit
            && (src.canceled(|answers|)
                || (answers != [] && (answers[|answers| - 1].err == OtherFailure || Interrupts(answers, 9)))))
  {
    var answers := Reading(src, limit, []);
    ReadingIsAnswered(src, limit, []);
    AnsweredIsReading(src, limit, answers);
    DeliveredLength(answers);
    if answers != [] {
      GivesUpMeans(answers);
    }
  }

  // --- Keys ---

  /** A command without an environment of its own has the key of one with the two default variables. */
  lemma DefaultEnvironment(spec: CommandSpec)
    requires spec.env == DefaultEnv
    ensures Key(spec) == Key(spec.(env := Variables(["LC_ALL=C", "PATH=/usr/bin:/bin"])))
  {
  }

  /** The parts of a key: path, directory, timeout, arguments and variables, each text behind its length. */
  lemma KeyParts(spec: CommandSpec, variables: seq<string>) returns (args: string, vars: string)
    requires spec.env == Variables(variables)
    ensures AreFields(spec.args, args) && AreFields(variables, vars)
    ensures Key(spec) ==
      Sized(spec.path) + Sized(spec.dir) + Sized(SignedDecimal(spec.timeout))
      + (Sized(Itoa(|spec.args|)) + args) + (Sized(Itoa(|variables|)) + vars)
  {
    FieldsAre(spec.args);
    FieldsAre(variables);
    args, vars := Fields(spec.args), Fields(variables);
    SignedIsFormatted(spec.timeout);
  }

  lemma SignedIsFormatted(n: int)
    ensures FormatInt(n) == SignedDecimal(n)
  {
    if n >= 0 {
      assert "" + Itoa(n) == Itoa(n);
    }
  }

  function SignedDecimal(n: int): string { (if n < 0 then "-" else "") + Itoa(Magnitude(n)) }

  function Magnitude(n: int): nat { if n < 0 then -n else n }

  function Sized(s: string): string { Itoa(|s|) + ":" + s }

  /** `text` is the sized elements of a list, one after the other. */
  predicate AreFields(list: seq<string>, text: string) {
    if list == [] then text == ""
    else
      var first := Sized(list[0]);
      |first| <= |text| && text[..|first|] == first && AreFields(list[1..], text[|first|..])
  }

  lemma {:induction false} FieldsAre(list: seq<string>)
    ensures AreFields(list, Fields(list))
  {
    if list != [] {
      FieldsAre(list[1..]);
      assert Fields(list)[|Sized(list[0])|..] == Fields(list[1..]);
    }
  }
}
