/** What the loader makes of a log that goes on with bytes that are no command, and when it takes a file for one that
    was cut off. */
module AofDamage {
  import opened Bytes
  import opened Decimal
  import opened AofLog
  import opened AofRecovery

  // ---------------------------------------------------------------- a good log and more

  lemma OneRead(s: seq<Byte>, c: Command, used: nat, known: set<Argument>, truncatedOk: bool, at: nat)
    requires s != [] && ReadCommand(s) == Got(c, used) && c != [] && c[0] in known && used <= |s|
    ensures LoadRest(s, known, truncatedOk, at) ==
      LoadedOnto([c], LoadRest(s[used..], known, truncatedOk, if truncatedOk then at + used else at))
  {
    hide ReadCommand;
  }

  /** One command more in front. */
  lemma CommandThen(c: Command, known: set<Argument>, s: seq<Byte>, truncatedOk: bool, at: nat)
    requires Fits(c) && c != [] && c[0] in known
    ensures LoadRest(Encoded(c) + s, known, truncatedOk, at) ==
      LoadedOnto([c], LoadRest(s, known, truncatedOk, if truncatedOk then at + |Encoded(c)| else at))
  {
    hide *;
    EncodedNotEmpty(c);
    ReadEncoded(c, s);
    FrontOff(Encoded(c), s);
    OneRead(Encoded(c) + s, c, |Encoded(c)|, known, truncatedOk, at);
  }

  lemma FrontOff<T>(a: seq<T>, b: seq<T>)
    requires a != []
    ensures (a + b)[|a|..] == b && a + b != []
  {
  }

  lemma {:induction false} LogThen(commands: seq<Command>, known: set<Argument>, t: seq<Byte>, truncatedOk: bool,
                                   at: nat)
    requires Loadable(commands, known)
    ensures var r := LoadRest(t, known, truncatedOk, if truncatedOk then at + |Log(commands)| else at);
      LoadRest(Log(commands) + t, known, truncatedOk, at) == Loaded(commands + r.commands, r.outcome, r.validUpTo)
    decreases |commands|
  {
    hide LoadRest, Encoded;
    if commands == [] {
      assert Log(commands) + t == t;
      LoadedOntoNothing(LoadRest(t, known, truncatedOk, at));
    } else {
      var e, rest := Encoded(commands[0]), Log(commands[1..]) + t;
      assert Log(commands) + t == e + rest;
      CommandThen(commands[0], known, rest, truncatedOk, at);
      LogThen(commands[1..], known, t, truncatedOk, if truncatedOk then at + |e| else at);
      var r := LoadRest(t, known, truncatedOk, if truncatedOk then at + |Log(commands)| else at);
      assert [commands[0]] + (commands[1..] + r.commands) == commands + r.commands;
    }
  }

  /** The commands of the log are run, and then the loader stops with this outcome. */
  ghost predicate StopsAfter(commands: seq<Command>, known: set<Argument>, t: seq<Byte>, outcome: Outcome) {
    forall truncatedOk: bool ::
      var l := Load(Log(commands) + t, known, truncatedOk); l.commands == commands && l.outcome == outcome
  }

  /** What is read after the log decides. */
  lemma Stops(commands: seq<Command>, known: set<Argument>, t: seq<Byte>, outcome: Outcome)
    requires Loadable(commands, known) && t != []
    requires || (ReadCommand(t) == Bad && outcome == Malformed) || (ReadCommand(t) == Fatal && outcome == Failed)
             || (ReadCommand(t).Got? && ReadCommand(t).value[0] !in known &&
                 outcome == Unknown(ReadCommand(t).value[0]))
    ensures StopsAfter(commands, known, t, outcome)
  {
    hide ReadCommand, Log;
    forall truncatedOk: bool
      ensures var l := Load(Log(commands) + t, known, truncatedOk); l.commands == commands && l.outcome == outcome
    {
      LogThen(commands, known, t, truncatedOk, 0);
      assert commands + [] == commands;
      assert Log(commands) + t != [];
    }
  }

  /** A line that does not start with '*' is a format error, whatever follows. */
  lemma BadStart(commands: seq<Command>, known: set<Argument>, t: seq<Byte>)
    requires Loadable(commands, known) && t != [] && t[0] != 42
    ensures StopsAfter(commands, known, t, Malformed)
  {
    assert ReadCommand(t) == Bad;
    hide ReadCommand, StopsAfter;
    Stops(commands, known, t, Malformed);
  }

  /** The text is no number, a negative one, or zero. */
  predicate NoCount(body: seq<Byte>) {
    && body != [] && body[0] != 0
    && (body[0] == 45 || !(48 <= body[0] < 58 || body[0] == 32 || 9 <= body[0] <= 13 || body[0] == 43)
        || (body[0] == 48 && (|body| == 1 || !(48 <= body[1] < 58))))
  }

  lemma NoCountParses(body: seq<Byte>)
    requires NoCount(body)
    ensures ParseInt(body + [LF]) < 1
  {
    var s := body + [LF];
    assert s[0] == body[0];
    if body[0] == 48 {
      assert s[1..] != [] && !IsDigit(s[1]);
      assert ParseDigits(s, 0) == ParseDigits(s[1..], 0);
    }
  }

  /** A number of arguments below 1 is a format error. */
  lemma BadCount(commands: seq<Command>, known: set<Argument>, body: seq<Byte>, more: seq<Byte>)
    requires Loadable(commands, known) && NoCount(body) && LF !in body && |body| <= 125
    ensures StopsAfter(commands, known, [42] + body + [10] + more, Malformed)
  {
    var t := [42] + body + [10] + more;
    var line := [STAR] + body;
    assert t == line + [LF] + more;
    LineOf(line, more, BUF - 1);
    assert t[1..|body| + 2] == body + [LF];
    NoCountParses(body);
    assert t[1] == body[0];
    hide LineLength, ParseInt, StopsAfter;
    assert ReadCommand(t) == Bad;
    Stops(commands, known, t, Malformed);
  }

  lemma {:induction false} ArgumentsThen(args: Command, u: seq<Byte>, argc: nat)
    requires |args| < argc && forall i :: 0 <= i < |args| ==> |args[i]| <= LONG_MAX
    requires !ReadArguments(u, argc - |args|).Got?
    ensures ReadArguments(Bulks(args) + u, argc) == ReadArguments(u, argc - |args|)
    decreases |args|
  {
    hide ReadArgument, Bulk;
    if args == [] {
      assert Bulks(args) + u == u;
    } else {
      var s := Bulks(args) + u;
      assert s == Bulk(args[0]) + (Bulks(args[1..]) + u);
      ReadBulk(args[0], Bulks(args[1..]) + u);
      assert s[|Bulk(args[0])|..] == Bulks(args[1..]) + u;
      ArgumentsThen(args[1..], u, argc - 1);
    }
  }

  /** A command whose first arguments are good. */
  function Begun(argc: nat, args: Command, u: seq<Byte>): seq<Byte> { Header(STAR, argc) + Bulks(args) + u }

  lemma BegunReads(argc: nat, args: Command, u: seq<Byte>)
    requires |args| < argc <= INT_MAX && forall i :: 0 <= i < |args| ==> |args[i]| <= LONG_MAX
    requires !ReadArguments(u, argc - |args|).Got?
    ensures Begun(argc, args, u) != [] && ReadCommand(Begun(argc, args, u)) == ReadArguments(u, argc - |args|)
  {
    var h, t := Header(STAR, argc), Begun(argc, args, u);
    assert t == h + (Bulks(args) + u);
    HeaderLine(STAR, argc, Bulks(args) + u);
    assert t[|h|..] == Bulks(args) + u;
    hide Header, Bulks, LineLength, ParseInt, ReadArguments, Begun;
    ArgumentsThen(args, u, argc);
  }

  /** An argument that does not start with '$' is a format error, after any arguments that are good. */
  lemma BadArgument(commands: seq<Command>, known: set<Argument>, argc: nat, args: Command, u: seq<Byte>)
    requires Loadable(commands, known)
    requires |args| < argc <= INT_MAX && forall i :: 0 <= i < |args| ==> |args[i]| <= LONG_MAX
    requires u != [] && u[0] != 36
    ensures StopsAfter(commands, known, Begun(argc, args, u), Malformed)
  {
    assert ReadArgument(u) == Bad;
    hide ReadArgument, ReadCommand, Begun, StopsAfter;
    assert ReadArguments(u, argc - |args|) == Bad;
    BegunReads(argc, args, u);
    Stops(commands, known, Begun(argc, args, u), Malformed);
  }

  /** A negative length cannot be allocated. */
  lemma BadLength(commands: seq<Command>, known: set<Argument>, argc: nat, args: Command, n: nat, more: seq<Byte>)
    requires Loadable(commands, known)
    requires |args| < argc <= INT_MAX && forall i :: 0 <= i < |args| ==> |args[i]| <= LONG_MAX
    requires 0 < n <= LONG_MAX
    ensures StopsAfter(commands, known, Begun(argc, args, [36, 45] + Digits(n) + [13, 10] + more), Failed)
  {
    var u := [36, 45] + Digits(n) + [13, 10] + more;
    NegativeLength(n, more);
    hide ReadArgument, ReadCommand, Begun, StopsAfter;
    assert ReadArguments(u, argc - |args|) == Fatal;
    BegunReads(argc, args, u);
    Stops(commands, known, Begun(argc, args, u), Failed);
  }

  lemma NegativeLength(n: nat, more: seq<Byte>)
    requires 0 < n <= LONG_MAX
    ensures ReadArgument([36, 45] + Digits(n) + [13, 10] + more) == Fatal
  {
    HeaderFits(n);
    var line := [DOLLAR, MINUS] + Digits(n) + [CR];
    var s := [36, 45] + Digits(n) + [13, 10] + more;
    assert s == line + [LF] + more;
    LineOf(line, more, BUF - 1);
    assert s[1..|line| + 1] == [MINUS] + (Digits(n) + CRLF);
    assert ([MINUS] + (Digits(n) + CRLF))[1..] == Digits(n) + CRLF;
    ParseAfter(n, CRLF);
    hide LineLength, Digits;
    assert ParseInt([MINUS] + (Digits(n) + CRLF)) == 0 - n;
  }

  /** A command the server does not know. */
  lemma UnknownName(commands: seq<Command>, known: set<Argument>, c: Command, more: seq<Byte>)
    requires Loadable(commands, known) && Fits(c) && c[0] !in known
    ensures StopsAfter(commands, known, Encoded(c) + more, Unknown(c[0]))
  {
    ReadEncoded(c, more);
    EncodedNotEmpty(c);
    hide ReadCommand, Encoded, StopsAfter;
    Stops(commands, known, Encoded(c) + more, Unknown(c[0]));
  }

  // ---------------------------------------------------------------- what can be completed

  /** A line that ended stays as it is, whatever follows. */
  lemma {:induction false} LineStays(s: seq<Byte>, more: seq<Byte>, room: nat)
    requires var n := LineLength(s, room); n < |s| || n == room || (n > 0 && s[n - 1] == LF)
    ensures LineLength(s + more, room) == LineLength(s, room)
  {
    if s != [] && room > 0 && s[0] != LF {
      assert (s + more)[0] == s[0] && (s + more)[1..] == s[1..] + more;
      var n := LineLength(s[1..], room - 1);
      assert n > 0 ==> s[1..][n - 1] == s[n];
      LineStays(s[1..], more, room - 1);
    }
  }

  /** A line that was cut off has no newline, and ends with one that follows. */
  lemma {:induction false} LineEnds(s: seq<Byte>, more: seq<Byte>, room: nat)
    requires LineLength(s, room) == |s| < room && (s != [] ==> s[|s| - 1] != LF)
    ensures LF !in s && LineLength(s + [LF] + more, room) == |s| + 1
  {
    if s != [] {
      assert s[0] != LF;
      assert |s| > 1 ==> s[1..][|s| - 2] == s[|s| - 1];
      assert (s + [LF] + more)[0] == s[0] && (s + [LF] + more)[1..] == s[1..] + [LF] + more;
      LineEnds(s[1..], more, room - 1);
    }
  }

  lemma {:induction false} DigitsThenLine(s: seq<Byte>, value: nat)
    ensures ParseDigits(s + [LF], value) == ParseDigits(s, value)
  {
    var t := s + [LF];
    if s != [] {
      assert t[0] == s[0] && t[1..] == s[1..] + [LF];
      if IsDigit(s[0]) {
        DigitsThenLine(s[1..], 10 * value + (s[0] - ZERO));
      }
    }
  }

  /** The newline adds nothing to a number. */
  lemma {:induction false} ParseThenLine(s: seq<Byte>)
    ensures ParseInt(s + [LF]) == ParseInt(s)
  {
    var t := s + [LF];
    if s == [] {
      assert t == [LF] && t[1..] == [];
      assert ParseInt([]) == 0;
    } else {
      assert t[0] == s[0] && t[1..] == s[1..] + [LF];
      ParseThenLine(s[1..]);
      DigitsThenLine(s[1..], 0);
      DigitsThenLine(s, 0);
    }
  }

  function Zeroes(n: nat): (z: seq<Byte>)
    ensures |z| == n
  {
    seq(n, _ => 0)
  }

  /** An argument that is read to its end is read so whatever follows. */
  lemma ArgumentStays(s: seq<Byte>, more: seq<Byte>)
    requires ReadArgument(s).Got?
    ensures ReadArgument(s + more) == ReadArgument(s)
  {
    var n := LineLength(s, BUF - 1);
    LineStays(s, more, BUF - 1);
    assert (s + more)[..n] == s[..n] && (s + more)[1..n] == s[1..n];
    var len := ParseInt(s[1..n]);
    assert (s + more)[n..n + len] == s[n..n + len];
  }

  /** What an argument is, once its line is known. */
  lemma ArgumentIs(s: seq<Byte>, n: nat, len: nat)
    requires n == LineLength(s, BUF - 1) > 0 && s[0] == DOLLAR && ParseInt(s[1..n]) == len && |s| == n + len + 2
    ensures ReadArgument(s).Got? && ReadArgument(s).used == |s|
  {
    hide LineLength, ParseInt;
  }

  /** The line with the length is whole, and the bytes are not. */
  lemma BytesComplete(s: seq<Byte>, n: nat, len: nat) returns (more: seq<Byte>)
    requires n == LineLength(s, BUF - 1) > 0 && (n < |s| || n == BUF - 1 || s[n - 1] == LF)
    requires s[0] == DOLLAR && ParseInt(s[1..n]) == len && |s| < n + len + 2
    ensures more != [] && ReadArgument(s + more).Got? && ReadArgument(s + more).used == |s + more|
  {
    hide ParseInt, ReadArgument;
    more := Zeroes(n + len + 2 - |s|);
    LineStays(s, more, BUF - 1);
    hide LineLength;
    assert (s + more)[1..n] == s[1..n];
    assert (s + more)[0] == s[0];
    ArgumentIs(s + more, n, len);
  }

  /** The line with the length is cut off. */
  lemma LengthCompletes(s: seq<Byte>, len: nat) returns (more: seq<Byte>)
    requires |s| > 0 && LineLength(s, BUF - 1) == |s| < BUF - 1 && s[|s| - 1] != LF
    requires s[0] == DOLLAR && ParseInt(s[1..]) == len
    ensures more != [] && ReadArgument(s + more).Got? && ReadArgument(s + more).used == |s + more|
  {
    hide ParseInt, ReadArgument;
    more := [LF] + Zeroes(len + 2);
    LineEnds(s, Zeroes(len + 2), BUF - 1);
    hide LineLength;
    assert s + more == s + [LF] + Zeroes(len + 2);
    assert (s + more)[1..|s| + 1] == s[1..] + [LF];
    ParseThenLine(s[1..]);
    assert (s + more)[0] == s[0];
    ArgumentIs(s + more, |s| + 1, len);
  }

  lemma EofArgument(s: seq<Byte>)
    requires ReadArgument(s) == Eof && s != []
    ensures var n := LineLength(s, BUF - 1);
      0 < n <= |s| && s[0] == DOLLAR && ParseInt(s[1..n]) >= 0 && |s| < n + ParseInt(s[1..n]) + 2
  {
    hide ParseInt;
  }

  /** An argument that is cut off can be completed. */
  lemma ArgumentCompletes(s: seq<Byte>) returns (more: seq<Byte>)
    requires ReadArgument(s) == Eof
    ensures more != [] && ReadArgument(s + more).Got? && ReadArgument(s + more).used == |s + more|
  {
    if s == [] {
      more := Bulk([]);
      assert s + more == Bulk([]) + [];
      ReadBulk([], []);
    } else {
      EofArgument(s);
      hide ReadArgument, ParseInt, LineLength;
      var n := LineLength(s, BUF - 1);
      if n < |s| || n == BUF - 1 || s[n - 1] == LF {
        more := BytesComplete(s, n, ParseInt(s[1..n]));
      } else {
        assert s[1..n] == s[1..];
        more := LengthCompletes(s, ParseInt(s[1..]));
      }
    }
  }

  lemma {:induction false} ArgumentsFill(argc: nat) returns (more: seq<Byte>)
    ensures ReadArguments(more, argc).Got? && ReadArguments(more, argc).used == |more| && (argc > 0 ==> more != [])
  {
    if argc == 0 {
      more := [];
    } else {
      var rest := ArgumentsFill(argc - 1);
      more := Bulk([]) + rest;
      ReadBulk([], rest);
      hide ReadArgument, Bulk;
      assert more[|Bulk([])|..] == rest;
    }
  }

  lemma {:induction false} ArgumentsComplete(s: seq<Byte>, argc: nat) returns (more: seq<Byte>)
    requires ReadArguments(s, argc) == Eof
    ensures more != [] && ReadArguments(s + more, argc).Got? && ReadArguments(s + more, argc).used == |s + more|
    decreases argc
  {
    hide ReadArgument;
    var first := ReadArgument(s);
    if first.Got? {
      var rest := ArgumentsComplete(s[first.used..], argc - 1);
      more := rest;
      ArgumentStays(s, more);
      assert (s + more)[first.used..] == s[first.used..] + more;
    } else {
      var a := ArgumentCompletes(s);
      var b := ArgumentsFill(argc - 1);
      more := a + b;
      ArgumentStays(s + a, b);
      assert s + more == s + a + b;
      assert (s + a + b)[|s + a|..] == b;
    }
  }

  /** The rest of a file that ends inside a command: it starts one, and some bytes after it make it whole. */
  ghost predicate Unfinished(rest: seq<Byte>) {
    && rest != [] && rest[0] == 42
    && exists more: seq<Byte> ::
         more != [] && ReadCommand(rest + more).Got? && ReadCommand(rest + more).used == |rest + more|
  }

  /** The one thing that is taken for a cut although nothing can make it whole: a last line "*" and a zero byte. */
  predicate ZeroTail(rest: seq<Byte>) { 2 <= |rest| < 127 && rest[0] == 42 && rest[1] == 0 && LF !in rest }

  /** A command whose header is whole. */
  lemma HeaderReads(s: seq<Byte>, line: seq<Byte>, args: seq<Byte>, argc: nat)
    requires |line| > 1 && LF !in line && |line| < BUF - 1 && line[0] == STAR && line[1] != 0
    requires ParseInt(line[1..]) == argc >= 1 && s == line + [LF] + args
    requires ReadArguments(args, argc).Got? && ReadArguments(args, argc).used == |args|
    ensures ReadCommand(s).Got? && ReadCommand(s).used == |s|
  {
    LineOf(line, args, BUF - 1);
    assert s[1..|line| + 1] == line[1..] + [LF];
    ParseThenLine(line[1..]);
    assert s[|line| + 1..] == args;
    assert s[0] == STAR && s[1] == line[1];
    hide LineLength, ParseInt, ReadArguments;
  }

  /** The line with the count is cut off. */
  lemma HeaderCompletes(s: seq<Byte>)
    requires s != [] && LF !in s && |s| < BUF - 1 && s[0] == STAR
    requires |s| > 1 ==> s[1] != 0 && ParseInt(s[1..]) >= 1
    ensures Unfinished(s)
  {
    OneParses();
    hide ParseInt, LineLength, ReadCommand, ReadArguments, Unfinished;
    var digit: seq<Byte> := if |s| == 1 then [49] else [];
    var line := s + digit;
    assert line[1..] == if |s| == 1 then [49] else s[1..];
    var argc := ParseInt(line[1..]);
    var args := ArgumentsFill(argc);
    var more := digit + [LF] + args;
    assert s + more == line + [LF] + args;
    HeaderReads(s + more, line, args, argc);
    Completed(s, more);
  }

  lemma Completed(s: seq<Byte>, more: seq<Byte>)
    requires s != [] && s[0] == 42 && more != []
    requires ReadCommand(s + more).Got? && ReadCommand(s + more).used == |s + more|
    ensures Unfinished(s)
  {
    hide ReadCommand;
  }

  /** The line with the count is whole, and the arguments are not. */
  lemma BodyCompletes(s: seq<Byte>, n: nat, argc: nat)
    requires n == LineLength(s, BUF - 1) && 1 < n <= |s| && (n < |s| || n == BUF - 1 || s[n - 1] == LF)
    requires s[0] == STAR && s[1] != 0 && ParseInt(s[1..n]) == argc >= 1 && ReadArguments(s[n..], argc) == Eof
    ensures Unfinished(s)
  {
    hide ParseInt, ReadArguments, Unfinished;
    var more := ArgumentsComplete(s[n..], argc);
    LineStays(s, more, BUF - 1);
    hide LineLength;
    assert (s + more)[1..n] == s[1..n] && (s + more)[n..] == s[n..] + more;
    assert (s + more)[0] == s[0] && (s + more)[1] == s[1];
    Completed(s, more);
  }

  lemma CommandCompletes(s: seq<Byte>)
    requires s != [] && ReadCommand(s) == Eof
    ensures Unfinished(s) || ZeroTail(s)
  {
    var n := LineLength(s, BUF - 1);
    var cut := n == |s| && n < BUF - 1 && s[n - 1] != LF;
    if cut {
      LineEnds(s, [], BUF - 1);
      assert s[1..n] == s[1..];
    }
    hide LineLength, ParseInt, ReadArguments, Unfinished;
    if n > 1 && s[1] == 0 {
      return;
    }
    if cut {
      HeaderCompletes(s);
    } else {
      BodyCompletes(s, n, ParseInt(s[1..n]));
    }
  }

  lemma OneParses()
    ensures ParseInt([49]) == 1
  {
    assert Digits(1) + [] == [49];
    ParseIntOf(1, []);
  }

  /** From the file the loader reads these commands, and this is what is left. */
  ghost predicate Reads(file: seq<Byte>, commands: seq<Command>, rest: seq<Byte>)
    decreases |commands|
  {
    if commands == [] then rest == file
    else
      var r := ReadCommand(file);
      r.Got? && r.value == commands[0] && Reads(file[r.used..], commands[1..], rest)
  }

  lemma {:induction false} CutRest(s: seq<Byte>, known: set<Argument>, truncatedOk: bool, at: nat)
    returns (rest: seq<Byte>)
    requires var o := LoadRest(s, known, truncatedOk, at).outcome; o == Truncated || o == Refused
    ensures Reads(s, LoadRest(s, known, truncatedOk, at).commands, rest) && rest != [] && ReadCommand(rest) == Eof
    decreases |s|
  {
    hide ReadCommand;
    var r := ReadCommand(s);
    if r == Eof {
      rest := s;
    } else {
      rest := CutRest(s[r.used..], known, truncatedOk, if truncatedOk then at + r.used else at);
    }
  }

  /** Whatever the file: it is taken for one that was cut off only if it ends inside a command, or with a zero byte
      after a last '*'. */
  lemma CutMeansUnfinished(file: seq<Byte>, known: set<Argument>, truncatedOk: bool)
    requires var o := Load(file, known, truncatedOk).outcome; o == Truncated || o == Refused
    ensures exists rest ::
      Reads(file, Load(file, known, truncatedOk).commands, rest) && (Unfinished(rest) || ZeroTail(rest))
  {
    var rest := CutRest(file, known, truncatedOk, 0);
    CommandCompletes(rest);
    hide Unfinished, Reads, LoadRest;
  }

  lemma ZeroReads(rest: seq<Byte>)
    requires ZeroTail(rest)
    ensures ReadCommand(rest) == Eof && rest != []
  {
    LineOfFront(rest, BUF - 1);
  }

  lemma CutAfter(commands: seq<Command>, known: set<Argument>, rest: seq<Byte>)
    requires Loadable(commands, known) && ReadCommand(rest) == Eof && rest != []
    ensures var l := Load(Log(commands) + rest, known, true); l.commands == commands && l.outcome == Truncated
    ensures Load(Log(commands) + rest, known, false).outcome == Refused
  {
    hide ReadCommand, Log;
    LogThen(commands, known, rest, true, 0);
    LogThen(commands, known, rest, false, 0);
    assert commands + [] == commands && Log(commands) + rest != [];
  }

  /** The second case does occur. */
  lemma ZeroTailCut(commands: seq<Command>, known: set<Argument>, rest: seq<Byte>)
    requires Loadable(commands, known) && ZeroTail(rest)
    ensures var l := Load(Log(commands) + rest, known, true); l.commands == commands && l.outcome == Truncated
    ensures Load(Log(commands) + rest, known, false).outcome == Refused
    ensures !Unfinished(rest)
  {
    ZeroReads(rest);
    hide Load, LoadRest, Log, ReadCommand;
    CutAfter(commands, known, rest);
    forall more: seq<Byte> ensures !ReadCommand(rest + more).Got? {
      ZeroNever(rest, more);
    }
  }

  lemma ZeroNever(rest: seq<Byte>, more: seq<Byte>)
    requires |rest| >= 2 && rest[1] == 0
    ensures !ReadCommand(rest + more).Got?
  {
    assert (rest + more)[1] == 0;
  }
}
