/** The background rewrite of the append only file: the parent and the child, the pipe between them, the handshake
    that ends the transfer, and the switch to the new file. */
module AofRewrite {
  import opened Basics
  import opened Options
  import opened Bytes
  import opened Decimal
  import opened AofLog
  import opened AofReplay
  import opened AofDump
  import opened AofRecovery

  /** `Dead` is a child that exited with an error or was killed. */
  datatype Phase = Writing | Asked | Finished | Dead

  /** The child: the bytes of the dataset it forked with, and the diff it read. `file` is what it leaves. `askSent`
      and `ackSent` say that a '!' is on its way to the parent, and to the child. */
  datatype Child = Child(base: seq<Byte>, diff: seq<Byte>, phase: Phase, askSent: bool, ackSent: bool, file: seq<Byte>)

  /** The parent. `on` is REDIS_AOF_ON, and otherwise it is REDIS_AOF_WAIT_REWRITE; `blocks` are the contents of the
      rewrite buffer, `pipe` what was sent and not read. */
  datatype Server = Server(
    data: seq<Db>,
    on: bool,
    file: seq<Byte>,
    buf: seq<Byte>,
    selectedDb: Option<nat>,
    child: Option<Child>,
    blocks: seq<Byte>,
    pipe: seq<Byte>,
    stop: bool)

  datatype Event =
    | Execute(c: Command, d: nat)
    | Flush(n: nat)
    | Fork(dump: seq<seq<Stored>>)
    | PipeWrite(n: nat)
    | ChildRead(n: nat)
    | ChildAsk
    | ParentAck(sent: bool)
    | ChildFinish
    | ChildFail
    | Done(written: bool)

  /** `feedAppendOnlyFile` selects the database first when it is not the last one selected. */
  function Feed(c: Command, d: nat, selected: Option<nat>): seq<Command> {
    (if selected == Some(d) then [] else [SelectCommand(d)]) + [c]
  }

  // "*2\r\n$6\r\nSELECT\r\n$", in ASCII.
  const SELECT_TEXT: seq<Byte> := [42, 50, 13, 10, 36, 54, 13, 10, 83, 69, 76, 69, 67, 84, 13, 10, 36]

  lemma HeaderText(mark: Byte, n: nat)
    requires n < 10
    ensures Header(mark, n) == [mark, 48 + n, 13, 10]
  {
  }

  lemma Joined(h: seq<Byte>, b: seq<Byte>)
    requires h == [42, 50, 13, 10] && b == [36, 54, 13, 10] + SELECT + [13, 10]
    ensures h + b + [36] == SELECT_TEXT
  {
    assert b == [36, 54, 13, 10, 83, 69, 76, 69, 67, 84, 13, 10];
  }

  lemma SelectHeaders()
    ensures Header(STAR, 2) + Bulk(SELECT) + [DOLLAR] == SELECT_TEXT
  {
    HeaderText(STAR, 2);
    HeaderText(DOLLAR, 6);
    hide Header, Digits;
    assert |SELECT| == 6;
    assert Bulk(SELECT) == [36, 54, 13, 10] + SELECT + [13, 10];
    Joined(Header(STAR, 2), Bulk(SELECT));
  }

  lemma SixParts(a: seq<Byte>, b: seq<Byte>, m: seq<Byte>, l: seq<Byte>, e: seq<Byte>, n: seq<Byte>)
    ensures a + (b + ((m + l + e) + n + e)) == (a + b + m) + l + e + n + e
  {
  }

  lemma SelectText(d: nat)
    ensures Encoded(SelectCommand(d)) == SELECT_TEXT + Digits(|Digits(d)|) + CRLF + Digits(d) + CRLF
  {
    hide Digits, Bulks;
    var n := Digits(d);
    BulksTwo(SELECT, n);
    SelectHeaders();
    SixParts(Header(STAR, 2), Bulk(SELECT), [DOLLAR], Digits(|n|), CRLF, n);
  }

  /** `feedAppendOnlyFile`, up to where the bytes go, for a command that needs no translation. */
  method FeedAppendOnlyFile(c: Command, d: nat, selected: Option<nat>) returns (buf: seq<Byte>, now: Option<nat>)
    ensures buf == Log(Feed(c, d, selected)) && now == Some(d)
    ensures buf == (if selected == Some(d) then [] else Encoded([[83, 69, 76, 69, 67, 84], Digits(d)])) + Encoded(c)
  {
    buf, now := [], selected;
    if selected != Some(d) {
      var seldb := Digits(d);
      buf := SELECT_TEXT + Digits(|seldb|) + CRLF + seldb + CRLF;
      SelectText(d);
      now := Some(d);
    }
    buf := CatGenericCommand(buf, c);
    hide *;
    FedLog(c, d, selected);
  }

  lemma FedLog(c: Command, d: nat, selected: Option<nat>)
    ensures Log(Feed(c, d, selected)) == (if selected == Some(d) then [] else Encoded(SelectCommand(d))) + Encoded(c)
  {
    hide Encoded, Log, SelectCommand;
    LogOne(c);
    if selected == Some(d) {
      assert [] + Encoded(c) == Encoded(c);
      assert Feed(c, d, selected) == [c];
    } else {
      LogConcat([SelectCommand(d)], [c]);
      LogOne(SelectCommand(d));
      assert [SelectCommand(d)] + [c] == [SelectCommand(d), c];
    }
  }

  /** What the code and the system let happen. */
  ghost predicate Allowed(s: Server, e: Event) {
    match e
    case Execute(c, d) => d < |s.data| && c != [] && c[0] != SELECT
    case Flush(n) => s.on && n <= |s.buf|
    case Fork(dump) => s.child.None? && IsDumpOf(dump, s.data)
    case PipeWrite(n) => s.child.Some? && !s.stop && 0 < n <= |s.blocks|
    case ChildRead(n) => s.child.Some? && (s.child.value.phase.Writing? || s.child.value.phase.Asked?) && n <= |s.pipe|
    case ChildAsk => s.child.Some? && s.child.value.phase.Writing?
    case ParentAck(_) => s.child.Some? && s.child.value.askSent
    case ChildFinish => s.child.Some? && s.child.value.phase.Asked? && s.child.value.ackSent
    case ChildFail => s.child.Some? && !s.child.value.phase.Finished?
    case Done(_) => s.child.Some? && (s.child.value.phase.Finished? || s.child.value.phase.Dead?)
  }

  /** The end of the child, `backgroundRewriteDoneHandler`: when it finished and the rest of the rewrite buffer is
      written and the file renamed, the new file takes over and the AOF buffer is thrown away. */
  function AfterDone(s: Server, written: bool): Server
    requires s.child.Some?
  {
    var gone := s.(child := None, blocks := [], pipe := [], stop := false);
    if s.child.value.phase.Finished? && written then
      gone.(file := s.child.value.file + s.blocks, buf := [], selectedDb := None, on := true)
    else gone
  }

  ghost function After(s: Server, e: Event, effects: Effects): Server
    requires Allowed(s, e)
  {
    match e
    case Execute(c, d) =>
      var bytes := Log(Feed(c, d, s.selectedDb));
      s.(data := Run(c, d, s.data, effects), selectedDb := Some(d),
         buf := if s.on then s.buf + bytes else s.buf,
         blocks := if s.child.Some? then s.blocks + bytes else s.blocks)
    case Flush(n) => s.(file := s.file + s.buf[..n], buf := s.buf[n..])
    case Fork(dump) =>
      s.(child := Some(Child(Log(DumpFrom(dump, 0)), [], Writing, false, false, [])), blocks := [], pipe := [],
         stop := false, selectedDb := None)
    case PipeWrite(n) => s.(blocks := s.blocks[n..], pipe := s.pipe + s.blocks[..n])
    case ChildRead(n) =>
      s.(child := Some(s.child.value.(diff := s.child.value.diff + s.pipe[..n])), pipe := s.pipe[n..])
    case ChildAsk => s.(child := Some(s.child.value.(phase := Asked, askSent := true)))
    case ParentAck(sent) => s.(stop := true, child := Some(s.child.value.(askSent := false, ackSent := sent)))
    case ChildFinish =>
      var diff := s.child.value.diff + s.pipe;
      s.(pipe := [], child := Some(s.child.value.(phase := Finished, diff := diff, file := s.child.value.base + diff)))
    case ChildFail => s.(child := Some(s.child.value.(phase := Dead)))
    case Done(written) => AfterDone(s, written)
  }

  // ---------------------------------------------------------------- what every run keeps

  /** What was written so far: the commands of the file and its buffer, of the fork, and fed since the fork. */
  datatype Past = Past(log: seq<Command>, base: seq<Command>, fed: seq<Command>)

  ghost function Recorded(h: Past, s: Server, e: Event): Past
    requires Allowed(s, e)
  {
    match e
    case Execute(c, d) =>
      var cs := Feed(c, d, s.selectedDb);
      h.(log := if s.on then h.log + cs else h.log, fed := if s.child.Some? then h.fed + cs else h.fed)
    case Fork(dump) => h.(base := DumpFrom(dump, 0), fed := [])
    case Done(written) =>
      if s.child.value.phase.Finished? && written then Past(h.base + h.fed, [], []) else h.(base := [], fed := [])
    case _ => h
  }

  /** A log that makes the dataset of the server, and leaves selected the database it thinks is. */
  predicate Makes(log: seq<Command>, s: Server, effects: Effects) {
    var p := Replay(Point(0, NoData(|s.data|)), log, effects);
    p.data == s.data && (s.selectedDb.Some? ==> s.selectedDb.value < |s.data| && p.cur == s.selectedDb.value)
  }

  /** The bytes of the diff, wherever they are: read by the child, in the pipe, in the blocks. */
  function Diff(s: Server): seq<Byte>
    requires s.child.Some?
  {
    s.child.value.diff + s.pipe + s.blocks
  }

  /** Nothing is lost or doubled on the way, and nothing is sent once the parent agreed to stop. */
  predicate ChildOk(s: Server, h: Past, effects: Effects)
    requires s.child.Some?
  {
    var c := s.child.value;
    && c.base == Log(h.base)
    && Diff(s) == Log(h.fed)
    && (c.ackSent ==> s.stop)
    && (c.phase.Finished? ==> s.stop && s.pipe == [] && c.file == c.base + c.diff)
    && Makes(h.base + h.fed, s, effects)
  }

  predicate Good(s: Server, h: Past, effects: Effects) {
    && (s.on ==> s.file + s.buf == Log(h.log) && Makes(h.log, s, effects))
    && (s.child.Some? ==> ChildOk(s, h, effects))
  }

  /** A command fed after what makes the dataset makes the dataset after it. */
  lemma FeedMakes(log: seq<Command>, s: Server, c: Command, d: nat, effects: Effects)
    requires Makes(log, s, effects) && d < |s.data| && c != [] && c[0] != SELECT
    ensures Makes(log + Feed(c, d, s.selectedDb),
                  s.(data := Run(c, d, s.data, effects), selectedDb := Some(d)), effects)
  {
    var p := Replay(Point(0, NoData(|s.data|)), log, effects);
    var cs := Feed(c, d, s.selectedDb);
    ReplayConcat(Point(0, NoData(|s.data|)), log, cs, effects);
    StepSelect(p, d, effects);
    hide Run, NoData, SelectCommand;
    if s.selectedDb == Some(d) {
      assert cs == [c];
      assert cs[1..] == [];
    } else {
      assert cs[0] == SelectCommand(d) && cs[1..] == [c] && [c][1..] == [];
      assert Replay(p, cs, effects) == Replay(Point(d, p.data), [c], effects);
      assert Replay(Point(d, p.data), [c], effects) == Step(Point(d, p.data), c, effects);
    }
  }

  lemma ExecuteKeeps(s: Server, h: Past, c: Command, d: nat, effects: Effects)
    requires Good(s, h, effects) && Allowed(s, Execute(c, d))
    ensures Good(After(s, Execute(c, d), effects), Recorded(h, s, Execute(c, d)), effects)
  {
    hide Log, Replay, Run, Feed;
    var cs := Feed(c, d, s.selectedDb);
    if s.on {
      FeedMakes(h.log, s, c, d, effects);
      LogConcat(h.log, cs);
      Associate(s.file, s.buf, Log(cs));
    }
    if s.child.Some? {
      FeedMakes(h.base + h.fed, s, c, d, effects);
      LogConcat(h.fed, cs);
      Associate(s.child.value.diff + s.pipe, s.blocks, Log(cs));
      assert h.base + h.fed + cs == h.base + (h.fed + cs);
    }
  }

  lemma ForkMakes(s: Server, t: Server, dump: seq<seq<Stored>>, effects: Effects)
    requires IsDumpOf(dump, s.data) && t.data == s.data && t.selectedDb == None
    ensures Makes(DumpFrom(dump, 0) + [], t, effects)
  {
    DumpReplays(dump, s.data, effects);
    hide Replay, DumpFrom, IsDumpOf;
    assert DumpFrom(dump, 0) + [] == DumpFrom(dump, 0);
  }

  /** A server that forgets which database it selected. */
  lemma ForgetMakes(log: seq<Command>, s: Server, t: Server, effects: Effects)
    requires Makes(log, s, effects) && t.data == s.data && t.selectedDb == None
    ensures Makes(log, t, effects)
  {
  }

  lemma ForkKeeps(s: Server, h: Past, dump: seq<seq<Stored>>, effects: Effects)
    requires Good(s, h, effects) && Allowed(s, Fork(dump))
    ensures Good(After(s, Fork(dump), effects), Recorded(h, s, Fork(dump)), effects)
  {
    NoLog();
    hide Makes, DumpFrom, IsDumpOf, Log;
    ForkMakes(s, After(s, Fork(dump), effects), dump, effects);
    if s.on {
      ForgetMakes(h.log, s, After(s, Fork(dump), effects), effects);
    }
  }

  /** The new file holds the dataset of the fork and everything fed since, once and in order; so the AOF buffer that
      is thrown away is in it. */
  lemma SwitchKeeps(s: Server, h: Past, effects: Effects)
    requires Good(s, h, effects) && s.child.Some? && s.child.value.phase.Finished?
    ensures s.child.value.file + s.blocks == Log(h.base + h.fed)
    ensures Good(AfterDone(s, true), Past(h.base + h.fed, [], []), effects)
    // the new file is in use, and the next command is written with its SELECT
    ensures var t := AfterDone(s, true);
      && t.on && t.file == Log(h.base + h.fed) && t.buf == [] && t.selectedDb == None && t.data == s.data
      && t.child.None? && t.blocks == [] && t.pipe == [] && !t.stop
  {
    hide Log, Replay;
    var c := s.child.value;
    LogConcat(h.base, h.fed);
    assert c.diff + s.pipe == c.diff;
    Associate(c.base, c.diff, s.blocks);
    assert s.child.value.file + s.blocks + [] == s.child.value.file + s.blocks;
  }

  /** A rewrite that failed, in the child or at the end, leaves the file, its buffer and the selection as they are. */
  lemma FailureLeavesFile(s: Server, written: bool)
    requires s.child.Some? && !(s.child.value.phase.Finished? && written)
    ensures var t := AfterDone(s, written);
      && t.file == s.file && t.buf == s.buf && t.on == s.on && t.selectedDb == s.selectedDb && t.data == s.data
      && t.child.None? && t.blocks == [] && t.pipe == [] && !t.stop
  {
  }

  /** Bytes that move between the blocks, the pipe and the child stay the diff. */
  lemma MovedDiff(a: seq<Byte>, b: seq<Byte>, c: seq<Byte>, n: nat)
    ensures n <= |c| ==> a + (b + c[..n]) + c[n..] == a + b + c
    ensures n <= |b| ==> (a + b[..n]) + b[n..] + c == a + b + c
    ensures a + b + [] + c == a + b + c
  {
  }

  lemma PipeKeeps(s: Server, h: Past, e: Event, effects: Effects)
    requires Good(s, h, effects) && Allowed(s, e) && (e.PipeWrite? || e.ChildRead? || e.ChildFinish?)
    ensures Good(After(s, e, effects), h, effects)
  {
    hide Log, Makes;
    var c := s.child.value;
    SameMakes(h.base + h.fed, s, After(s, e, effects), effects);
    SameMakes(h.log, s, After(s, e, effects), effects);
    match e
    case PipeWrite(n) => MovedDiff(c.diff, s.pipe, s.blocks, n);
    case ChildRead(n) => MovedDiff(c.diff, s.pipe, s.blocks, n);
    case ChildFinish => MovedDiff(c.diff, s.pipe, s.blocks, 0);
  }

  lemma SameMakes(log: seq<Command>, s: Server, t: Server, effects: Effects)
    requires t.data == s.data && t.selectedDb == s.selectedDb
    ensures Makes(log, t, effects) == Makes(log, s, effects)
  {
  }

  lemma TransferKeeps(s: Server, h: Past, e: Event, effects: Effects)
    requires Good(s, h, effects) && Allowed(s, e) && !e.Execute? && !e.Fork? && !e.Done?
    ensures Good(After(s, e, effects), Recorded(h, s, e), effects)
  {
    hide Log, Makes;
    SameMakes(h.base + h.fed, s, After(s, e, effects), effects);
    SameMakes(h.log, s, After(s, e, effects), effects);
    match e
    case Flush(n) => assert s.file + s.buf == s.file + s.buf[..n] + s.buf[n..];
    case PipeWrite(_) => PipeKeeps(s, h, e, effects);
    case ChildRead(_) => PipeKeeps(s, h, e, effects);
    case ChildFinish => PipeKeeps(s, h, e, effects);
    case _ =>
  }

  lemma StepKeeps(s: Server, h: Past, e: Event, effects: Effects)
    requires Good(s, h, effects) && Allowed(s, e)
    ensures Good(After(s, e, effects), Recorded(h, s, e), effects)
  {
    match e
    case Execute(c, d) => ExecuteKeeps(s, h, c, d, effects);
    case Fork(dump) => ForkKeeps(s, h, dump, effects);
    case Done(written) =>
      hide Log, Replay;
      if s.child.value.phase.Finished? {
        SwitchKeeps(s, h, effects);
      }
    case _ => TransferKeeps(s, h, e, effects);
  }

  ghost predicate IsRun(s: Server, es: seq<Event>, effects: Effects)
    decreases |es|
  {
    es == [] || (Allowed(s, es[0]) && IsRun(After(s, es[0], effects), es[1..], effects))
  }

  ghost function End(s: Server, es: seq<Event>, effects: Effects): Server
    requires IsRun(s, es, effects)
    decreases |es|
  {
    if es == [] then s else End(After(s, es[0], effects), es[1..], effects)
  }

  ghost function PastOf(h: Past, s: Server, es: seq<Event>, effects: Effects): Past
    requires IsRun(s, es, effects)
    decreases |es|
  {
    if es == [] then h else PastOf(Recorded(h, s, es[0]), After(s, es[0], effects), es[1..], effects)
  }

  lemma {:induction false} RunKeeps(s: Server, h: Past, es: seq<Event>, effects: Effects)
    requires Good(s, h, effects) && IsRun(s, es, effects)
    ensures Good(End(s, es, effects), PastOf(h, s, es, effects), effects)
    decreases |es|
  {
    hide Good, After, Recorded, Allowed;
    if es != [] {
      StepKeeps(s, h, es[0], effects);
      RunKeeps(After(s, es[0], effects), Recorded(h, s, es[0]), es[1..], effects);
    }
  }

  /** An empty server, with an empty file or waiting for its first rewrite. */
  function EmptyServer(dbs: nat, on: bool): Server { Server(NoData(dbs), on, [], [], None, None, [], [], false) }

  /** Over every interleaving of commands, flushes, pipe writes, reads, handshakes, rewrites that succeed and
      rewrites that fail, what is on disk and in the AOF buffer is a log of commands that makes the dataset of the
      server; and whenever a child finished, so do its file and the rest of the rewrite buffer. */
  lemma RewriteLosesNothing(dbs: nat, on: bool, es: seq<Event>, effects: Effects)
    requires IsRun(EmptyServer(dbs, on), es, effects)
    ensures var s, h := End(EmptyServer(dbs, on), es, effects),
                        PastOf(Past([], [], []), EmptyServer(dbs, on), es, effects);
      && (s.on ==> s.file + s.buf == Log(h.log) && Makes(h.log, s, effects))
      && (s.child.Some? && s.child.value.phase.Finished? ==>
            s.child.value.file + s.blocks == Log(h.base + h.fed) && Makes(h.base + h.fed, s, effects))
  {
    var s0, h0 := EmptyServer(dbs, on), Past([], [], []);
    assert s0.file + s0.buf == [] && Log([]) == [];
    assert Good(s0, h0, effects);
    RunKeeps(s0, h0, es, effects);
    var s, h := End(s0, es, effects), PastOf(h0, s0, es, effects);
    hide Log, Replay, IsRun, EmptyServer;
    if s.child.Some? && s.child.value.phase.Finished? {
      SwitchKeeps(s, h, effects);
    }
  }

  lemma EventFirst(s: Server, e: Event, es: seq<Event>, effects: Effects)
    requires Allowed(s, e) && IsRun(After(s, e, effects), es, effects)
    ensures IsRun(s, [e] + es, effects) && End(s, [e] + es, effects) == End(After(s, e, effects), es, effects)
  {
    hide Allowed, After;
    assert ([e] + es)[1..] == es;
  }

  /** A rewrite under way can always be brought to its end: the events are allowed one after the other, and then the
      AOF is on and its file is the dump followed by all that was fed since. */
  lemma RewriteCompletes(s: Server, h: Past, effects: Effects) returns (es: seq<Event>)
    requires Good(s, h, effects) && s.child.Some? && s.child.value.phase.Writing?
    ensures IsRun(s, es, effects)
    ensures var t := End(s, es, effects);
      && t.on && t.child.None? && t.data == s.data && t.buf == []
      && t.file == Log(h.base + h.fed) && Makes(h.base + h.fed, t, effects)
  {
    var s1 := After(s, ChildAsk, effects);
    var s2 := After(s1, ParentAck(true), effects);
    var s3 := After(s2, ChildFinish, effects);
    StepKeeps(s, h, ChildAsk, effects);
    StepKeeps(s1, h, ParentAck(true), effects);
    StepKeeps(s2, h, ChildFinish, effects);
    SwitchKeeps(s3, h, effects);
    var t := After(s3, Done(true), effects);
    assert IsRun(t, [], effects) && End(t, [], effects) == t;
    EventFirst(s3, Done(true), [], effects);
    EventFirst(s2, ChildFinish, [Done(true)] + [], effects);
    EventFirst(s1, ParentAck(true), [ChildFinish] + ([Done(true)] + []), effects);
    es := [ParentAck(true)] + ([ChildFinish] + ([Done(true)] + []));
    EventFirst(s, ChildAsk, es, effects);
    es := [ChildAsk] + es;
  }

  /** After a clean stop, loading the file and the buffer and running what was loaded makes the dataset again. */
  lemma LoadedLogMakes(dbs: nat, on: bool, es: seq<Event>, effects: Effects, known: set<Argument>)
    requires IsRun(EmptyServer(dbs, on), es, effects) && End(EmptyServer(dbs, on), es, effects).on
    requires var log := PastOf(Past([], [], []), EmptyServer(dbs, on), es, effects).log;
      log != [] && Loadable(log, known)
    ensures var s := End(EmptyServer(dbs, on), es, effects);
      Replay(Point(0, NoData(|s.data|)), Load(s.file + s.buf, known, true).commands, effects).data == s.data
  {
    RewriteLosesNothing(dbs, on, es, effects);
    var log := PastOf(Past([], [], []), EmptyServer(dbs, on), es, effects).log;
    hide Log, Replay, IsRun, EmptyServer, Load, Loadable;
    LogLoads(log, known, true);
  }
}
