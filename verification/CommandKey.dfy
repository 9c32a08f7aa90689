/** The key that the fake command runner files results under: fakeKey of internal/platform/runner.go. */
module CommandKey {
  import opened Options
  import opened Seqs
  import opened Text

  /** An environment policy; one without variables of its own supplies the defaults. */
  datatype EnvPolicy = DefaultEnv | Variables(variables: seq<string>)

  /** `timeout` counts nanoseconds and may be negative. */
  datatype CommandSpec = CommandSpec(path: string, args: seq<string>, env: EnvPolicy, dir: string, timeout: int)

  function EffectiveVariables(env: EnvPolicy): seq<string> {
    match env
    case DefaultEnv => ["LC_ALL=C", "PATH=/usr/bin:/bin"]
    case Variables(variables) => variables
  }

  /** strconv.FormatInt in base ten. */
  function FormatInt(n: int): string {
    if n < 0 then "-" + Itoa(-n) else Itoa(n)
  }

  function ParseInt(s: string): Option<int> {
    if s == "" then None
    else if s[0] == '-' then (if |s| > 1 && AllDigits(s[1..]) then Some(0 - Decimal(s[1..])) else None)
    else if AllDigits(s) then Some(Decimal(s)) else None
  }

  lemma ParseFormat(n: int)
    ensures ParseInt(FormatInt(n)) == Some(n)
  {
    DecimalItoa(if n < 0 then -n else n);
    if n < 0 {
      assert FormatInt(n)[1..] == Itoa(-n);
    } else {
      assert '0' <= Itoa(n)[0] <= '9';
    }
  }

  // --- Writing ---

  /** A field is its length in decimal, a colon and its text. */
  function Field(s: string): string {
    Itoa(|s|) + ":" + s
  }

  function Fields(list: seq<string>): string {
    if list == [] then "" else Field(list[0]) + Fields(list[1..])
  }

  /** A list is the number of its elements, as a field, and a field for each. */
  function CountedList(list: seq<string>): string {
    Field(Itoa(|list|)) + Fields(list)
  }

  function Key(spec: CommandSpec): string {
    Field(spec.path) + Field(spec.dir) + Field(FormatInt(spec.timeout)) + CountedList(spec.args)
      + CountedList(EffectiveVariables(spec.env))
  }

  class KeyBuilder {
    var text: string

    constructor ()
      ensures text == ""
    {
      text := "";
    }

    method WriteField(s: string)
      modifies this
      ensures text == old(text) + Field(s)
    {
      text := text + Itoa(|s|);
      text := text + ":";
      text := text + s;
    }

    method WriteList(list: seq<string>)
      modifies this
      ensures text == old(text) + CountedList(list)
    {
      WriteField(Itoa(|list|));
      ghost var start := text;
      var k := 0;
      while k < |list|
        invariant 0 <= k <= |list| && text + Fields(list[k..]) == start + Fields(list)
      {
        assert list[k..][1..] == list[k + 1..];
        Associative(text, Field(list[k]), Fields(list[k + 1..]));
        WriteField(list[k]);
        k := k + 1;
      }
      assert text + Fields([]) == text;
    }
  }

  method FakeKey(spec: CommandSpec) returns (key: string)
    ensures key == Key(spec)
  {
    var variables := EffectiveVariables(spec.env);
    key := WriteKey(spec.path, spec.dir, FormatInt(spec.timeout), spec.args, variables);
  }

  method WriteKey(path: string, dir: string, timeout: string, args: seq<string>, variables: seq<string>)
    returns (key: string)
    ensures key == Field(path) + Field(dir) + Field(timeout) + CountedList(args) + CountedList(variables)
  {
    var b := new KeyBuilder();
    b.WriteField(path);
    assert b.text == Field(path);
    b.WriteField(dir);
    b.WriteField(timeout);
    b.WriteList(args);
    b.WriteList(variables);
    key := b.text;
  }

  // --- Reading back ---

  /** What is read, and what is left of the text. */
  datatype Read<T> = Read(value: T, rest: string)

  /** The digits before the first colon, and the text after it. */
  function TakeLength(s: string): Option<Read<nat>> {
    if s == "" || !(':' in s) then None
    else
      var (digits, rest) := CutAt(s, ':');
      if digits != "" && AllDigits(digits) then Some(Read(Decimal(digits), rest)) else None
  }

  function CutAt(s: string, sep: char): (string, string)
    requires sep in s
  {
    if s[0] == sep then ("", s[1..])
    else var (before, after) := CutAt(s[1..], sep); ([s[0]] + before, after)
  }

  function TakeField(s: string): Option<Read<string>> {
    match TakeLength(s)
    case None => None
    case Some(Read(n, rest)) => if n <= |rest| then Some(Read(rest[..n], rest[n..])) else None
  }

  function TakeFields(s: string, n: nat): Option<Read<seq<string>>>
    decreases n
  {
    if n == 0 then Some(Read([], s))
    else
      match TakeField(s)
      case None => None
      case Some(Read(first, rest)) =>
        match TakeFields(rest, n - 1)
        case None => None
        case Some(Read(others, left)) => Some(Read([first] + others, left))
  }

  function TakeList(s: string): Option<Read<seq<string>>> {
    match TakeField(s)
    case None => None
    case Some(Read(count, rest)) =>
      match ParseInt(count)
      case None => None
      case Some(n) => if n < 0 then None else TakeFields(rest, n)
  }

  /** A specification as a key can tell it: its environment is the list of effective variables. */
  function Decode(key: string): Option<CommandSpec> {
    match TakeField(key)
    case None => None
    case Some(Read(path, k1)) =>
      match TakeField(k1)
      case None => None
      case Some(Read(dir, k2)) =>
        match TakeField(k2)
        case None => None
        case Some(Read(text, k3)) =>
          match ParseInt(text)
          case None => None
          case Some(timeout) =>
            match TakeList(k3)
            case None => None
            case Some(Read(args, k4)) =>
              match TakeList(k4)
              case None => None
              case Some(Read(env, left)) =>
                if left == "" then Some(CommandSpec(path, args, Variables(env), dir, timeout)) else None
  }

  // --- The round trip ---

  lemma {:induction false} CutDigits(digits: string, rest: string)
    requires AllDigits(digits)
    ensures ':' in digits + ":" + rest
    ensures CutAt(digits + ":" + rest, ':') == (digits, rest)
  {
    var s := digits + ":" + rest;
    assert s[|digits|] == ':';
    if digits == "" {
      assert s[1..] == rest;
    } else {
      CutDigits(digits[1..], rest);
      assert s[1..] == digits[1..] + ":" + rest;
      assert digits == [digits[0]] + digits[1..];
    }
  }

  lemma TakeWritten(s: string, rest: string)
    ensures TakeField(Field(s) + rest) == Some(Read(s, rest))
  {
    var tail := s + rest;
    assert Field(s) + rest == Itoa(|s|) + ":" + tail;
    CutDigits(Itoa(|s|), tail);
    DecimalItoa(|s|);
    assert tail[..|s|] == s && tail[|s|..] == rest;
  }

  lemma {:induction false} TakeWrittenFields(list: seq<string>, rest: string)
    ensures TakeFields(Fields(list) + rest, |list|) == Some(Read(list, rest))
    decreases |list|
  {
    if list == [] {
      assert Fields(list) + rest == rest;
    } else {
      var tail := Fields(list[1..]) + rest;
      Associative(Field(list[0]), Fields(list[1..]), rest);
      TakeWritten(list[0], tail);
      TakeWrittenFields(list[1..], rest);
      assert list == [list[0]] + list[1..];
    }
  }

  lemma TakeWrittenList(list: seq<string>, rest: string)
    ensures TakeList(CountedList(list) + rest) == Some(Read(list, rest))
  {
    var tail := Fields(list) + rest;
    assert CountedList(list) + rest == Field(Itoa(|list|)) + tail;
    TakeWritten(Itoa(|list|), tail);
    ParseFormat(|list|);
    TakeWrittenFields(list, rest);
  }

  /** Decoding a key gives the specification back, with its effective variables. */
  lemma DecodeUndoesKey(spec: CommandSpec)
    ensures Decode(Key(spec)) == Some(spec.(env := Variables(EffectiveVariables(spec.env))))
  {
    var k5 := CountedList(EffectiveVariables(spec.env));
    var k4 := CountedList(spec.args) + k5;
    var k3 := Field(FormatInt(spec.timeout)) + k4;
    var k2 := Field(spec.dir) + k3;
    KeyNests(spec);
    TakeWritten(spec.path, k2);
    TakeWritten(spec.dir, k3);
    TakeWritten(FormatInt(spec.timeout), k4);
    ParseFormat(spec.timeout);
    TakeWrittenList(spec.args, k5);
    TakeWrittenList(EffectiveVariables(spec.env), "");
    assert k5 + "" == k5;
  }

  lemma KeyNests(spec: CommandSpec)
    ensures Key(spec) == Field(spec.path) + (Field(spec.dir) + (Field(FormatInt(spec.timeout)) + (CountedList(spec.args)
                         + CountedList(EffectiveVariables(spec.env)))))
  {
    Nest(Field(spec.path), Field(spec.dir), Field(FormatInt(spec.timeout)), CountedList(spec.args),
         CountedList(EffectiveVariables(spec.env)));
  }

  lemma Nest(a: string, b: string, c: string, d: string, e: string)
    ensures a + b + c + d + e == a + (b + (c + (d + e)))
  {
  }

  /** Equal keys mean equal calls: path, directory, timeout, arguments and environment, element by element. */
  lemma KeyIsInjective(a: CommandSpec, b: CommandSpec)
    ensures Key(a) == Key(b) <==>
      && a.path == b.path && a.dir == b.dir && a.timeout == b.timeout && a.args == b.args
      && EffectiveVariables(a.env) == EffectiveVariables(b.env)
  {
    DecodeUndoesKey(a);
    DecodeUndoesKey(b);
  }
}
