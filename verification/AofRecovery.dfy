/** What the loader makes of a log, and of a log that was cut off. */
module AofRecovery {
  import opened Bytes
  import opened Decimal
  import opened AofLog

  const INT_MAX: nat := 0x7fff_ffff
  const LONG_MAX: nat := 0x7fff_ffff_ffff_ffff

  /** A command as the server holds it: the counts are an `int` and lengths that fit in a `long`. */
  predicate Fits(c: Command) {
    c != [] && |c| <= INT_MAX && forall i :: 0 <= i < |c| ==> |c[i]| <= LONG_MAX
  }

  // ---------------------------------------------------------------- lines

  lemma {:induction false} LineOf(body: seq<Byte>, rest: seq<Byte>, room: nat)
    requires LF !in body && |body| < room
    ensures LineLength(body + [LF] + rest, room) == |body| + 1
  {
    var s := body + [LF] + rest;
    if body != [] {
      assert s[0] == body[0];
      assert s[1..] == body[1..] + [LF] + rest;
      LineOf(body[1..], rest, room - 1);
    }
  }

  lemma {:induction false} LineOfFront(s: seq<Byte>, room: nat)
    requires LF !in s && |s| <= room
    ensures LineLength(s, room) == |s|
  {
    if s != [] {
      LineOfFront(s[1..], room - 1);
    }
  }

  lemma Pow10Of19()
    ensures Pow10(19) == 10_000_000_000_000_000_000
  {
    assert Pow10(4) == 10_000;
    assert Pow10(8) == 100_000_000;
    assert Pow10(12) == 1_000_000_000_000;
    assert Pow10(16) == 10_000_000_000_000_000;
  }

  lemma HeaderFits(n: nat)
    requires n <= LONG_MAX
    ensures |Digits(n)| <= 19
  {
    Pow10Of19();
    DigitsLength(n, 19);
  }

  /** A header is one line, and says its number. */
  lemma HeaderLine(mark: Byte, n: nat, rest: seq<Byte>)
    requires n <= LONG_MAX && mark != LF
    ensures var s, h := Header(mark, n) + rest, |Header(mark, n)|;
      LineLength(s, BUF - 1) == h && s[0] == mark && ParseInt(s[1..h]) == n && h > 2 && s[1] != 0
  {
    HeaderFits(n);
    var body := [mark] + Digits(n) + [CR];
    var s := Header(mark, n) + rest;
    assert Header(mark, n) == body + [LF];
    LineOf(body, rest, BUF - 1);
    assert s == body + [LF] + rest;
    assert s[1..|Header(mark, n)|] == Digits(n) + CRLF;
    ParseIntOf(n, CRLF);
    assert s[1] == Digits(n)[0];
  }

  /** The front of a header is a line cut off by the end, and says a smaller number of the same sign. */
  lemma HeaderFront(mark: Byte, n: nat, k: nat)
    requires n <= LONG_MAX && mark != LF && 0 < k < |Header(mark, n)|
    ensures var s := Header(mark, n)[..k];
      && LineLength(s, BUF - 1) == k && HitsEnd(s) && s[0] == mark
      && ParseInt(s[1..k]) >= 0 && (k > 1 ==> s[1] != 0 && (n > 0 ==> ParseInt(s[1..k]) >= 1))
  {
    HeaderFits(n);
    var s, t := Header(mark, n)[..k], Digits(n) + CRLF;
    HeaderParts(mark, n, k);
    hide Header, Digits, ParseInt, LineLength;
    LineOfFront(s, BUF - 1);
    ParseIntOfFront(n, CRLF, k - 1);
  }

  lemma HeaderParts(mark: Byte, n: nat, k: nat)
    requires mark != LF && 0 < k < |Header(mark, n)|
    ensures |Header(mark, n)| == |Digits(n)| + 3
    ensures var s, t := Header(mark, n)[..k], Digits(n) + CRLF;
      && k - 1 < |t| && s[0] == mark && s[1..k] == t[..k - 1] && (k > 1 ==> s[1] != 0) && LF !in s
  {
    var h, s, t := Header(mark, n), Header(mark, n)[..k], Digits(n) + CRLF;
    assert h == [mark] + t;
    assert s == [mark] + t[..k - 1];
    assert forall i :: 0 <= i < k - 1 ==> t[..k - 1][i] == t[i] && t[i] != LF && t[i] != 0;
  }

  // ---------------------------------------------------------------- arguments

  lemma ReadBulk(a: Argument, rest: seq<Byte>)
    requires |a| <= LONG_MAX
    ensures ReadArgument(Bulk(a) + rest) == Got(a, |Bulk(a)|)
  {
    var h := Header(DOLLAR, |a|);
    assert Bulk(a) + rest == h + (a + CRLF + rest);
    HeaderLine(DOLLAR, |a|, a + CRLF + rest);
    assert (Bulk(a) + rest)[|h|..|h| + |a|] == a;
  }

  lemma ReadBulkFront(a: Argument, k: nat)
    requires |a| <= LONG_MAX && k < |Bulk(a)|
    ensures ReadArgument(Bulk(a)[..k]) == Eof
  {
    var h := Header(DOLLAR, |a|);
    var s := Bulk(a)[..k];
    if k == 0 {
      assert s == [];
    } else if k < |h| {
      assert s == h[..k];
      HeaderFront(DOLLAR, |a|, k);
    } else {
      var tail := (a + CRLF)[..k - |h|];
      assert s == h + tail;
      HeaderLine(DOLLAR, |a|, tail);
    }
  }

  lemma {:induction false} ReadBulks(argv: Command, rest: seq<Byte>)
    requires forall i :: 0 <= i < |argv| ==> |argv[i]| <= LONG_MAX
    ensures ReadArguments(Bulks(argv) + rest, |argv|) == Got(argv, |Bulks(argv)|)
  {
    hide ReadArgument, Bulk;
    if argv != [] {
      var s := Bulks(argv) + rest;
      assert s == Bulk(argv[0]) + (Bulks(argv[1..]) + rest);
      ReadBulk(argv[0], Bulks(argv[1..]) + rest);
      assert s[|Bulk(argv[0])|..] == Bulks(argv[1..]) + rest;
      ReadBulks(argv[1..], rest);
      assert [argv[0]] + argv[1..] == argv;
    }
  }

  lemma {:induction false} ReadBulksFront(argv: Command, k: nat)
    requires forall i :: 0 <= i < |argv| ==> |argv[i]| <= LONG_MAX
    requires k < |Bulks(argv)|
    ensures ReadArguments(Bulks(argv)[..k], |argv|) == Eof
  {
    hide ReadArgument, Bulk;
    var b, s := Bulk(argv[0]), Bulks(argv)[..k];
    if k < |b| {
      assert s == b[..k];
      ReadBulkFront(argv[0], k);
    } else {
      assert s == b + Bulks(argv[1..])[..k - |b|];
      ReadBulk(argv[0], Bulks(argv[1..])[..k - |b|]);
      assert s[|b|..] == Bulks(argv[1..])[..k - |b|];
      ReadBulksFront(argv[1..], k - |b|);
    }
  }

  /** No argument is read from nothing. */
  lemma ReadNothing(argc: nat)
    requires argc > 0
    ensures ReadArguments([], argc) == Eof
  {
  }

  // ---------------------------------------------------------------- commands

  lemma ReadEncoded(c: Command, rest: seq<Byte>)
    requires Fits(c)
    ensures ReadCommand(Encoded(c) + rest) == Got(c, |Encoded(c)|)
  {
    hide ReadArguments, Header, Bulks;
    var h := Header(STAR, |c|);
    assert Encoded(c) + rest == h + (Bulks(c) + rest);
    HeaderLine(STAR, |c|, Bulks(c) + rest);
    assert (Encoded(c) + rest)[|h|..] == Bulks(c) + rest;
    ReadBulks(c, rest);
  }

  lemma ReadEncodedFront(c: Command, k: nat)
    requires Fits(c) && 0 < k < |Encoded(c)|
    ensures ReadCommand(Encoded(c)[..k]) == Eof
  {
    hide ReadArguments, Header, Bulks, ParseInt;
    var h := Header(STAR, |c|);
    var s := Encoded(c)[..k];
    if k < |h| {
      assert s == h[..k];
      HeaderFront(STAR, |c|, k);
      if k > 1 {
        ReadNothing(ParseInt(s[1..k]));
        assert s[k..] == [];
      }
    } else {
      var tail := Bulks(c)[..k - |h|];
      assert s == h + tail;
      HeaderLine(STAR, |c|, tail);
      assert s[|h|..] == tail;
      ReadBulksFront(c, k - |h|);
    }
  }

  lemma EncodedNotEmpty(c: Command)
    ensures |Encoded(c)| > 0
  {
  }

  // ---------------------------------------------------------------- logs

  ghost predicate Loadable(commands: seq<Command>, known: set<Argument>) {
    forall i :: 0 <= i < |commands| ==> Fits(commands[i]) && commands[i][0] in known
  }

  /** How many commands the first n bytes of a log hold in full. */
  function Whole(commands: seq<Command>, n: nat): (k: nat)
    ensures k <= |commands|
  {
    if commands == [] || n < |Encoded(commands[0])| then 0 else 1 + Whole(commands[1..], n - |Encoded(commands[0])|)
  }

  /** It is the greatest number of commands whose log is no longer than n. */
  lemma {:induction false} WholeIsGreatest(commands: seq<Command>, n: nat, m: nat)
    requires m <= |commands|
    ensures m <= Whole(commands, n) <==> |Log(commands[..m])| <= n
  {
    hide Encoded;
    if m > 0 {
      assert commands[..m][0] == commands[0] && commands[..m][1..] == commands[1..][..m - 1];
      if n >= |Encoded(commands[0])| {
        WholeIsGreatest(commands[1..], n - |Encoded(commands[0])|, m - 1);
      }
    }
  }

  lemma {:induction false} LoadFront(commands: seq<Command>, known: set<Argument>, n: nat, at: nat)
    requires Loadable(commands, known) && n <= |Log(commands)|
    ensures var k := Whole(commands, n);
      var end := |Log(commands[..k])|;
      LoadRest(Log(commands)[..n], known, true, at) ==
        Loaded(commands[..k], if n == end then Complete else Truncated, at + end)
  {
    hide ReadCommand, Encoded;
    var s := Log(commands)[..n];
    if n == 0 {
      if commands != [] {
        EncodedNotEmpty(commands[0]);
      }
      assert s == [] && commands[..0] == [];
    } else {
      var c, e := commands[0], Encoded(commands[0]);
      EncodedNotEmpty(c);
      if n < |e| {
        assert s == e[..n] && commands[..0] == [];
        ReadEncodedFront(c, n);
      } else {
        var tail := Log(commands[1..])[..n - |e|];
        assert s == e + tail;
        ReadEncoded(c, tail);
        assert s[|e|..] == tail;
        LoadFront(commands[1..], known, n - |e|, at + |e|);
        var k := Whole(commands, n);
        assert commands[..k][0] == c && commands[..k][1..] == commands[1..][..k - 1];
        assert [c] + commands[1..][..k - 1] == commands[..k];
      }
    }
  }

  /** Recovery: of a log cut off anywhere the loader runs exactly the commands that are there in full, in order, and
      cuts the file at the end of the last one. */
  lemma TruncatedLogLoads(commands: seq<Command>, known: set<Argument>, n: nat)
    requires Loadable(commands, known) && 0 < n <= |Log(commands)|
    ensures var l := Load(Log(commands)[..n], known, true);
      var k := |l.commands|;
      && k <= |commands| && l.commands == commands[..k] && l.validUpTo == |Log(commands[..k])| <= n
      && (k < |commands| ==> n < |Log(commands[..k + 1])|)
      && l.outcome == if l.validUpTo == n then Complete else Truncated
  {
    hide LoadRest, Log;
    LoadFront(commands, known, n, 0);
    var k := Whole(commands, n);
    WholeIsGreatest(commands, n, k);
    if k < |commands| {
      WholeIsGreatest(commands, n, k + 1);
    }
  }

  lemma {:induction false} LoadAll(commands: seq<Command>, known: set<Argument>, truncatedOk: bool, at: nat)
    requires Loadable(commands, known)
    ensures LoadRest(Log(commands), known, truncatedOk, at) ==
      Loaded(commands, Complete, if truncatedOk then at + |Log(commands)| else at)
  {
    hide ReadCommand, Encoded;
    if commands != [] {
      var e, rest := Encoded(commands[0]), Log(commands[1..]);
      EncodedNotEmpty(commands[0]);
      ReadEncoded(commands[0], rest);
      assert Log(commands)[|e|..] == rest;
      LoadAll(commands[1..], known, truncatedOk, if truncatedOk then at + |e| else at);
      assert [commands[0]] + commands[1..] == commands;
    }
  }

  /** Round trip: the loader runs the commands that were written, whatever bytes they hold. */
  lemma LogLoads(commands: seq<Command>, known: set<Argument>, truncatedOk: bool)
    requires Loadable(commands, known) && commands != []
    ensures var l := Load(Log(commands), known, truncatedOk);
      l.commands == commands && l.outcome == Complete
  {
    EncodedNotEmpty(commands[0]);
    LoadAll(commands, known, truncatedOk, 0);
  }

  /** Without `aof-load-truncated` a log cut off inside a command is refused. */
  lemma TruncatedLogRefused(commands: seq<Command>, known: set<Argument>, c: Command, k: nat)
    requires Loadable(commands + [c], known) && 0 < k < |Encoded(c)|
    ensures Load(Log(commands) + Encoded(c)[..k], known, false).outcome == Refused
  {
    RefusedRest(commands, known, c, k);
    assert Log(commands) + Encoded(c)[..k] != [];
  }

  lemma {:induction false} RefusedRest(commands: seq<Command>, known: set<Argument>, c: Command, k: nat)
    requires Loadable(commands + [c], known) && 0 < k < |Encoded(c)|
    ensures LoadRest(Log(commands) + Encoded(c)[..k], known, false, 0).outcome == Refused
  {
    hide ReadCommand, Encoded;
    var cut := Encoded(c)[..k];
    assert (commands + [c])[|commands|] == c;
    if commands == [] {
      assert Log(commands) + cut == cut;
      ReadEncodedFront(c, k);
    } else {
      var e, rest := Encoded(commands[0]), Log(commands[1..]) + cut;
      assert (commands + [c])[0] == commands[0] && (commands + [c])[1..] == commands[1..] + [c];
      assert Log(commands) + cut == e + rest;
      EncodedNotEmpty(commands[0]);
      ReadEncoded(commands[0], rest);
      assert (e + rest)[|e|..] == rest;
      RefusedRest(commands[1..], known, c, k);
    }
  }
}
