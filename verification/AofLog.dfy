/** The append only file (aof.c): commands written one after the other, and the loader that reads them back. */
module AofLog {
  import opened Basics
  import opened Bytes
  import opened Decimal

  type Argument = seq<Byte>
  type Command = seq<Argument>

  const STAR: Byte := 42
  const DOLLAR: Byte := 36
  /** The size of the loader's line buffer. */
  const BUF: nat := 128

  // ---------------------------------------------------------------- writing

  function Header(mark: Byte, n: nat): seq<Byte> { [mark] + Digits(n) + CRLF }

  function Bulk(a: Argument): seq<Byte> { Header(DOLLAR, |a|) + a + CRLF }

  function Bulks(argv: Command): seq<Byte> { if argv == [] then [] else Bulk(argv[0]) + Bulks(argv[1..]) }

  function Encoded(argv: Command): seq<Byte> { Header(STAR, |argv|) + Bulks(argv) }

  function Log(commands: seq<Command>): seq<Byte> {
    if commands == [] then [] else Encoded(commands[0]) + Log(commands[1..])
  }

  /** The format, by the command PING: "*1\r\n$4\r\nPING\r\n" in ASCII. */
  lemma EncodedPing()
    ensures Encoded([[80, 73, 78, 71]]) == [42, 49, 13, 10, 36, 52, 13, 10, 80, 73, 78, 71, 13, 10]
  {
    var c: Command := [[80, 73, 78, 71]];
    assert Digits(1) == [49] && Digits(4) == [52];
    assert Header(STAR, 1) == [42, 49, 13, 10] && Header(DOLLAR, 4) == [36, 52, 13, 10];
    assert c[1..] == [] && Bulks(c) == Bulk(c[0]) + [];
  }

  lemma {:induction false} BulksSnoc(argv: Command, a: Argument)
    ensures Bulks(argv + [a]) == Bulks(argv) + Bulk(a)
  {
    if argv == [] {
      assert argv + [a] == [a];
    } else {
      assert (argv + [a])[1..] == argv[1..] + [a];
      BulksSnoc(argv[1..], a);
    }
  }

  lemma NoBulks(argv: Command)
    requires argv == []
    ensures Bulks(argv) == []
  {
  }

  /** `catAppendOnlyGenericCommand` */
  method CatGenericCommand(dst: seq<Byte>, argv: Command) returns (r: seq<Byte>)
    ensures r == dst + Encoded(argv)
  {
    hide Digits, Bulks, Header;
    r := dst + Header(STAR, |argv|);
    ghost var start := r;
    NoBulks(argv[..0]);
    var j := 0;
    while j < |argv|
      invariant j <= |argv|
      invariant r == start + Bulks(argv[..j])
    {
      BulksSnoc(argv[..j], argv[j]);
      assert argv[..j + 1] == argv[..j] + [argv[j]];
      ghost var before := r;
      r := r + Header(DOLLAR, |argv[j]|);
      r := r + argv[j];
      r := r + CRLF;
      assert r == before + Bulk(argv[j]);
      Associate(start, Bulks(argv[..j]), Bulk(argv[j]));
      j := j + 1;
    }
    assert argv[..|argv|] == argv;
    Associate(dst, Header(STAR, |argv|), Bulks(argv));
  }

  // ---------------------------------------------------------------- reading

  /** What a read gives: a value and how many bytes it took, or the label of the loader it jumps to. `Eof` is
      `readerr` at the end of the file, `Fatal` is `readerr` before it or a failed allocation, `Bad` is `fmterr`. */
  datatype Read<T> = Got(value: T, used: nat) | Eof | Fatal | Bad

  /** The bytes `fgets` takes: up to a newline, the end, or one less than the buffer holds. */
  function LineLength(s: seq<Byte>, room: nat): (n: nat)
    ensures n <= |s| && n <= room
  {
    if s == [] || room == 0 then 0 else if s[0] == LF then 1 else 1 + LineLength(s[1..], room - 1)
  }

  /** `fgets` stopped because there was no more. */
  predicate HitsEnd(s: seq<Byte>) {
    var n := LineLength(s, BUF - 1);
    n == |s| && n < BUF - 1 && (n == 0 || s[n - 1] != LF)
  }

  /** One argument: a line with its length, its bytes, and two more. */
  function ReadArgument(s: seq<Byte>): (r: Read<Argument>)
    ensures r.Got? ==> 0 < r.used <= |s|
  {
    var n := LineLength(s, BUF - 1);
    if n == 0 then Eof
    else if s[0] != DOLLAR then Bad
    else
      var len := ParseInt(s[1..n]);
      if len < 0 then Fatal
      else if n + len + 2 > |s| then Eof
      else Got(s[n..n + len], n + len + 2)
  }

  function ReadArguments(s: seq<Byte>, argc: nat): (r: Read<Command>)
    ensures r.Got? ==> r.used <= |s| && |r.value| == argc
  {
    if argc == 0 then Got([], 0)
    else
      var first := ReadArgument(s);
      if !first.Got? then (match first case Eof => Eof case Fatal => Fatal case _ => Bad)
      else
        var rest := ReadArguments(s[first.used..], argc - 1);
        if rest.Got? then Got([first.value] + rest.value, first.used + rest.used) else rest
  }

  /** One command, of a file that has more to read. */
  function ReadCommand(s: seq<Byte>): (r: Read<Command>)
    ensures r.Got? ==> 0 < r.used <= |s| && r.value != []
  {
    var n := LineLength(s, BUF - 1);
    if n == 0 then Eof
    else if s[0] != STAR then Bad
    else if n == 1 || s[1] == 0 then (if HitsEnd(s) then Eof else Fatal)
    else
      var argc := ParseInt(s[1..n]);
      if argc < 1 then Bad
      else
        var rest := ReadArguments(s[n..], argc);
        if rest.Got? then Got(rest.value, n + rest.used) else rest
  }

  /** How loading ends: `Empty` is an empty file, `Truncated` one cut off at `valid_up_to`; the others exit. */
  datatype Outcome = Empty | Complete | Truncated | Refused | Failed | Malformed | Unknown(name: Argument)

  /** The commands run, how it ended and, for a truncated file, where it is cut. */
  datatype Loaded = Loaded(commands: seq<Command>, outcome: Outcome, validUpTo: nat)

  /** `known` are the commands of the server; `truncatedOk` is `aof-load-truncated`. */
  function LoadRest(s: seq<Byte>, known: set<Argument>, truncatedOk: bool, at: nat): Loaded
    decreases |s|
  {
    if s == [] then Loaded([], Complete, at)
    else
      match ReadCommand(s)
      case Eof => Loaded([], if truncatedOk then Truncated else Refused, at)
      case Fatal => Loaded([], Failed, at)
      case Bad => Loaded([], Malformed, at)
      case Got(c, used) =>
        if c[0] !in known then Loaded([], Unknown(c[0]), at)
        else
          var rest := LoadRest(s[used..], known, truncatedOk, if truncatedOk then at + used else at);
          rest.(commands := [c] + rest.commands)
  }

  function Load(file: seq<Byte>, known: set<Argument>, truncatedOk: bool): Loaded {
    if file == [] then Loaded([], Empty, 0) else LoadRest(file, known, truncatedOk, 0)
  }

  // ---------------------------------------------------------------- the loops of the loader

  /** What is read after the arguments so far. */
  function Onto(argv: Command, used: nat, rest: Read<Command>): Read<Command> {
    if rest.Got? then Got(argv + rest.value, used + rest.used) else rest
  }

  lemma OntoNothing(rest: Read<Command>)
    ensures Onto([], 0, rest) == rest
  {
    assert rest.Got? ==> [] + rest.value == rest.value;
  }

  lemma OntoOneMore(file: seq<Byte>, pos0: nat, pos: nat, argv: Command, argc: nat)
    requires pos0 <= pos <= |file| && argc > 0
    ensures var a := ReadArgument(file[pos..]);
      Onto(argv, pos - pos0, ReadArguments(file[pos..], argc)) ==
        if a.Got? then Onto(argv + [a.value], pos + a.used - pos0, ReadArguments(file[pos + a.used..], argc - 1))
        else match a case Eof => Eof case Fatal => Fatal case _ => Bad
  {
    var a := ReadArgument(file[pos..]);
    if a.Got? {
      assert file[pos..][a.used..] == file[pos + a.used..];
      var rest := ReadArguments(file[pos + a.used..], argc - 1);
      if rest.Got? {
        assert argv + ([a.value] + rest.value) == argv + [a.value] + rest.value;
      }
    }
  }

  method ReadArgumentsLoop(file: seq<Byte>, pos0: nat, argc: nat) returns (r: Read<Command>)
    requires pos0 <= |file|
    ensures r == ReadArguments(file[pos0..], argc)
  {
    hide ReadArgument;
    var argv: Command, pos, j := [], pos0, 0;
    OntoNothing(ReadArguments(file[pos0..], argc));
    while j < argc
      invariant j <= argc && pos0 <= pos <= |file| && |argv| == j
      invariant ReadArguments(file[pos0..], argc) == Onto(argv, pos - pos0, ReadArguments(file[pos..], argc - j))
    {
      OntoOneMore(file, pos0, pos, argv, argc - j);
      match ReadArgument(file[pos..]) {
        case Eof => return Eof;
        case Fatal => return Fatal;
        case Bad => return Bad;
        case Got(value, used) => argv, pos := argv + [value], pos + used;
      }
      j := j + 1;
    }
    r := Got(argv, pos - pos0);
    assert argv + [] == argv;
  }

  /** One turn of the loader, up to the lookup of the command. */
  method ReadCommandAt(file: seq<Byte>, pos: nat) returns (r: Read<Command>)
    requires pos < |file|
    ensures r == ReadCommand(file[pos..])
  {
    hide ReadArguments;
    ghost var s := file[pos..];
    var n := LineLength(file[pos..], BUF - 1);
    var line := file[pos..pos + n];
    assert line[0] == s[0] && line[1..] == s[1..n];
    if line[0] != STAR {
      return Bad;
    }
    if n == 1 || line[1] == 0 {
      return if HitsEnd(file[pos..]) then Eof else Fatal;
    }
    var argc := ParseInt(line[1..]);
    if argc < 1 {
      return Bad;
    }
    r := ReadArgumentsLoop(file, pos + n, argc);
    assert s[n..] == file[pos + n..];
    if r.Got? {
      r := r.(used := n + r.used);
    }
  }

  /** What is loaded after the commands run so far. */
  function LoadedOnto(run: seq<Command>, rest: Loaded): Loaded { rest.(commands := run + rest.commands) }

  lemma LoadedOntoNothing(rest: Loaded)
    ensures LoadedOnto([], rest) == rest
  {
    assert [] + rest.commands == rest.commands;
  }

  lemma LoadedOneMore(file: seq<Byte>, pos: nat, known: set<Argument>, truncatedOk: bool, at: nat, run: seq<Command>)
    requires pos < |file|
    ensures var r := ReadCommand(file[pos..]);
      r.Got? && r.value[0] in known ==>
        LoadedOnto(run, LoadRest(file[pos..], known, truncatedOk, at)) ==
          LoadedOnto(run + [r.value],
              LoadRest(file[pos + r.used..], known, truncatedOk, if truncatedOk then at + r.used else at))
  {
    hide ReadCommand;
    var r := ReadCommand(file[pos..]);
    if r.Got? {
      assert file[pos..][r.used..] == file[pos + r.used..];
      var rest := LoadRest(file[pos + r.used..], known, truncatedOk, if truncatedOk then at + r.used else at);
      assert run + ([r.value] + rest.commands) == run + [r.value] + rest.commands;
    }
  }

  /** `loadAppendOnlyFile` */
  method LoadAppendOnlyFile(file: seq<Byte>, known: set<Argument>, truncatedOk: bool)
    returns (run: seq<Command>, outcome: Outcome, validUpTo: nat)
    ensures Loaded(run, outcome, validUpTo) == Load(file, known, truncatedOk)
  {
    hide ReadCommand;
    if file == [] {
      return [], Empty, 0;
    }
    run, validUpTo := [], 0;
    var pos := 0;
    assert file[0..] == file;
    LoadedOntoNothing(LoadRest(file, known, truncatedOk, 0));
    while pos < |file|
      invariant pos <= |file|
      invariant LoadRest(file, known, truncatedOk, 0) ==
        LoadedOnto(run, LoadRest(file[pos..], known, truncatedOk, validUpTo))
    {
      LoadedOneMore(file, pos, known, truncatedOk, validUpTo, run);
      assert run + [] == run;
      var r := ReadCommandAt(file, pos);
      match r {
        case Eof => return run, if truncatedOk then Truncated else Refused, validUpTo;
        case Fatal => return run, Failed, validUpTo;
        case Bad => return run, Malformed, validUpTo;
        case Got(argv, used) =>
          if argv[0] !in known {
            return run, Unknown(argv[0]), validUpTo;
          }
          run, pos := run + [argv], pos + used;
          if truncatedOk {
            validUpTo := validUpTo + used;
          }
      }
    }
    outcome := Complete;
    assert run + [] == run;
  }
}
