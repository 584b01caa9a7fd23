/** The rewrite of the dataset: the loops of aof.c that write the commands of a value, of a database and of all of
    them, and what those commands rebuild. */
module AofDump {
  import opened Basics
  import opened Options
  import opened Bytes
  import opened Decimal
  import opened AofLog
  import opened AofReplay

  // ---------------------------------------------------------------- bytes

  lemma {:induction false} BulksConcat(a: Command, b: Command)
    ensures Bulks(a + b) == Bulks(a) + Bulks(b)
  {
    hide Bulk;
    if a == [] {
      assert a + b == b;
    } else {
      assert (a + b)[1..] == a[1..] + b;
      BulksConcat(a[1..], b);
      Associate(Bulk(a[0]), Bulks(a[1..]), Bulks(b));
    }
  }

  lemma {:induction false} LogConcat(a: seq<Command>, b: seq<Command>)
    ensures Log(a + b) == Log(a) + Log(b)
  {
    hide Encoded;
    if a == [] {
      assert a + b == b;
    } else {
      assert (a + b)[1..] == a[1..] + b;
      LogConcat(a[1..], b);
      Associate(Encoded(a[0]), Log(a[1..]), Log(b));
    }
  }

  lemma LogOne(c: Command)
    ensures Log([c]) == Encoded(c)
  {
    assert [c][1..] == [];
  }

  // ---------------------------------------------------------------- one value

  /** What opens a command of n elements, before the elements. */
  function Opening(k: Kind, key: Argument, n: nat): seq<Byte> {
    Header(STAR, 2 + n * Width(k)) + Bulk(Name(k)) + Bulk(key)
  }

  lemma OpenedCommand(k: Kind, key: Argument, es: seq<Element>)
    requires AreElements(k, es)
    ensures Encoded(ElementsCommand(k, key, es)) == Opening(k, key, |es|) + Bulks(Flat(es))
  {
    hide *;
    CommandSize(k, key, es);
    var h := Header(STAR, 2 + |es| * Width(k));
    CommandBulks(k, key, es);
    Associate(h, Bulk(Name(k)) + Bulk(key), Bulks(Flat(es)));
    Associate(h, Bulk(Name(k)), Bulk(key));
    OpeningIs(k, key, |es|);
  }

  lemma OpeningIs(k: Kind, key: Argument, n: nat)
    ensures Opening(k, key, n) == Header(STAR, 2 + n * Width(k)) + Bulk(Name(k)) + Bulk(key)
  {
  }

  lemma CommandSize(k: Kind, key: Argument, es: seq<Element>)
    requires AreElements(k, es)
    ensures Encoded(ElementsCommand(k, key, es)) ==
        Header(STAR, 2 + |es| * Width(k)) + Bulks(ElementsCommand(k, key, es))
  {
    hide Header, Bulk, Bulks, Elements, Flat;
    ElementsOfFlat(es, Width(k));
    assert Width(k) * |es| == |es| * Width(k);
  }

  lemma CommandBulks(k: Kind, key: Argument, es: seq<Element>)
    ensures Bulks(ElementsCommand(k, key, es)) == Bulk(Name(k)) + Bulk(key) + Bulks(Flat(es))
  {
    hide Bulk, Bulks, Flat, Name;
    BulksConcat([Name(k), key], Flat(es));
    BulksTwo(Name(k), key);
  }

  lemma BulksTwo(a: Argument, b: Argument)
    ensures Bulks([a, b]) == Bulk(a) + Bulk(b)
  {
    assert [a, b][1..] == [b] && [b][1..] == [];
    assert Bulks([b]) == Bulk(b) + [];
  }

  /** r holds, after `before`, the opening of a command and its elements from `start` up to i. */
  predicate Open(r: seq<Byte>, before: seq<Byte>, k: Kind, key: Argument, es: seq<Element>, start: nat, i: nat)
    requires start <= i <= |es|
  {
    r == before + Opening(k, key, CmdItems(|es| - start)) + Bulks(Flat(es[start..i]))
  }

  lemma OpenMore(r: seq<Byte>, before: seq<Byte>, k: Kind, key: Argument, es: seq<Element>, start: nat, i: nat)
    requires start <= i < |es| && Open(r, before, k, key, es, start, i)
    ensures Open(r + Bulks(es[i]), before, k, key, es, start, i + 1)
  {
    hide Opening, Bulks, Flat;
    assert es[start..i + 1] == es[start..i] + [es[i]];
    FlatSnoc(es[start..i], es[i]);
    BulksConcat(Flat(es[start..i]), es[i]);
    Associate(before + Opening(k, key, CmdItems(|es| - start)), Bulks(Flat(es[start..i])), Bulks(es[i]));
  }

  lemma OpenFirst(before: seq<Byte>, k: Kind, key: Argument, es: seq<Element>, start: nat)
    requires start < |es|
    ensures Open(before + Opening(k, key, CmdItems(|es| - start)), before, k, key, es, start, start)
  {
    hide Opening;
    assert es[start..start] == [] && Flat([]) == [] && Bulks([]) == [];
  }

  lemma OpenClosed(r: seq<Byte>, before: seq<Byte>, k: Kind, key: Argument, es: seq<Element>, start: nat, i: nat)
    requires start < |es| && i == start + CmdItems(|es| - start) && AreElements(k, es)
    requires Open(r, before, k, key, es, start, i)
    ensures before + Log(ChunkCommands(k, key, es[start..])) == r + Log(ChunkCommands(k, key, es[i..]))
  {
    hide Opening, Encoded, Bulks;
    var rest := es[start..];
    var n := CmdItems(|rest|);
    var c := ElementsCommand(k, key, rest[..n]);
    assert rest[..n] == es[start..i] && rest[n..] == es[i..];
    OpenedCommand(k, key, rest[..n]);
    var cs := ChunkCommands(k, key, rest);
    assert cs[0] == c && cs[1..] == ChunkCommands(k, key, es[i..]);
    Associate(before, Opening(k, key, n), Bulks(Flat(rest[..n])));
    Associate(before, Encoded(c), Log(cs[1..]));
  }

  /** `rewriteListObject`, `rewriteSetObject`, `rewriteHashObject` and `rewriteSortedSetObject`: a command for each 64
      elements, whose count is written before its elements. */
  method RewriteElements(out: seq<Byte>, k: Kind, key: Argument, es: seq<Element>) returns (r: seq<Byte>)
    requires AreElements(k, es)
    ensures r == out + Log(ChunkCommands(k, key, es))
  {
    hide Header, Bulk, Bulks, Log, ChunkCommands, Open;
    r := out;
    var count, items, i := 0, |es|, 0;
    ghost var before := out;
    assert es[0..] == es;
    while i < |es|
      invariant i <= |es| && items == |es| - i && count < AOF_REWRITE_ITEMS_PER_CMD && count <= i
      invariant before + Log(ChunkCommands(k, key, es[i - count..])) == out + Log(ChunkCommands(k, key, es))
      invariant if count == 0 then r == before
        else count <= CmdItems(|es| - (i - count)) && Open(r, before, k, key, es, i - count, i)
    {
      if count == 0 {
        OpenFirst(before, k, key, es, i);
        r := r + Header(STAR, 2 + CmdItems(items) * Width(k));
        r := r + Bulk(Name(k));
        r := r + Bulk(key);
        Associate(before, Header(STAR, 2 + CmdItems(items) * Width(k)), Bulk(Name(k)));
        Associate(before, Header(STAR, 2 + CmdItems(items) * Width(k)) + Bulk(Name(k)), Bulk(key));
      }
      OpenMore(r, before, k, key, es, i - count, i);
      r := r + Bulks(es[i]);
      count, items, i := count + 1, items - 1, i + 1;
      if count == AOF_REWRITE_ITEMS_PER_CMD {
        OpenClosed(r, before, k, key, es, i - count, i);
        before, count := r, 0;
      }
    }
    if count > 0 {
      OpenClosed(r, before, k, key, es, i - count, i);
    }
    assert es[|es|..] == [];
    NoChunks(k, key);
    assert r + [] == r;
  }

  lemma NoChunks(k: Kind, key: Argument)
    ensures Log(ChunkCommands(k, key, [])) == []
  {
  }

  // ---------------------------------------------------------------- one database

  /** A key, its value and the elements an iterator of the value gives. */
  datatype Stored = Stored(key: Argument, value: Value, elements: seq<Element>)

  ghost predicate StoredOk(e: Stored) { !e.value.Str? ==> AreElementsOf(e.value, e.elements) }

  function EntryCommands(e: Stored): seq<Command> {
    if e.value.Str? then [[SET, e.key, e.value.bytes]] else ChunkCommands(KindOfValue(e.value), e.key, e.elements)
  }

  function DbCommands(es: seq<Stored>): seq<Command> {
    if es == [] then [] else EntryCommands(es[0]) + DbCommands(es[1..])
  }

  /** The entries are those of the database, in any order, each once. */
  ghost predicate AreEntriesOf(es: seq<Stored>, db: Db) {
    && (forall i :: 0 <= i < |es| ==> StoredOk(es[i]) && es[i].key in db && db[es[i].key] == es[i].value)
    && (forall i, j :: 0 <= i < j < |es| ==> es[i].key != es[j].key)
    && (forall key :: key in db ==> HasKey(es, key))
  }

  ghost predicate HasKey(es: seq<Stored>, key: Argument) { exists i :: 0 <= i < |es| && es[i].key == key }

  lemma {:induction false} RunAllConcat(db: Db, a: seq<Command>, b: seq<Command>)
    ensures RunAll(db, a + b) == RunAll(RunAll(db, a), b)
    decreases |a|
  {
    hide RunOn;
    if a == [] {
      assert a + b == b;
    } else {
      assert (a + b)[1..] == a[1..] + b;
      RunAllConcat(RunOn(db, a[0]), a[1..], b);
    }
  }

  lemma RunEntry(db: Db, e: Stored)
    requires StoredOk(e) && e.key !in db
    ensures RunAll(db, EntryCommands(e)) == db[e.key := e.value]
  {
    if e.value.Str? {
      assert EntryCommands(e)[1..] == [];
    } else {
      hide RunOn;
      RunChunks(db, KindOfValue(e.value), e.key, e.elements);
      ElementsBuild(e.value, e.elements);
    }
  }

  /** The map of the entries. */
  function MapOf(es: seq<Stored>): Db
  {
    if es == [] then map[] else MapOf(es[..|es| - 1])[es[|es| - 1].key := es[|es| - 1].value]
  }

  lemma {:induction false} MapOfKeys(es: seq<Stored>, key: Argument)
    ensures key in MapOf(es) ==> exists i :: 0 <= i < |es| && es[i].key == key && MapOf(es)[key] == es[i].value
    ensures (exists i :: 0 <= i < |es| && es[i].key == key) ==> key in MapOf(es)
  {
    if es != [] {
      var front := es[..|es| - 1];
      MapOfKeys(front, key);
      if key in MapOf(front) {
        var i :| 0 <= i < |front| && front[i].key == key && MapOf(front)[key] == front[i].value;
        assert es[i] == front[i];
      }
      if es[|es| - 1].key == key {
        assert MapOf(es)[key] == es[|es| - 1].value;
      } else if i :| 0 <= i < |es| && es[i].key == key {
        assert front[i] == es[i];
      }
    }
  }

  lemma {:induction false} DbCommandsSnoc(es: seq<Stored>, e: Stored)
    ensures DbCommands(es + [e]) == DbCommands(es) + EntryCommands(e)
  {
    hide EntryCommands;
    if es == [] {
      assert es + [e] == [e];
      assert DbCommands([e]) == EntryCommands(e) + DbCommands([e][1..]);
    } else {
      assert (es + [e])[1..] == es[1..] + [e];
      DbCommandsSnoc(es[1..], e);
    }
  }

  lemma {:induction false} RunDb(es: seq<Stored>)
    requires forall i :: 0 <= i < |es| ==> StoredOk(es[i])
    requires forall i, j :: 0 <= i < j < |es| ==> es[i].key != es[j].key
    ensures RunAll(map[], DbCommands(es)) == MapOf(es)
  {
    hide EntryCommands, StoredOk, RunOn;
    if es != [] {
      var front, e := es[..|es| - 1], es[|es| - 1];
      assert es == front + [e];
      RunDb(front);
      DbCommandsSnoc(front, e);
      RunAllConcat(map[], DbCommands(front), EntryCommands(e));
      MapOfKeys(front, e.key);
      RunEntry(MapOf(front), e);
    }
  }

  lemma EntriesMake(es: seq<Stored>, db: Db)
    requires AreEntriesOf(es, db)
    ensures RunAll(map[], DbCommands(es)) == db
  {
    RunDb(es);
    forall key ensures key in MapOf(es) <==> key in db
      ensures key in db ==> key in MapOf(es) && MapOf(es)[key] == db[key]
    {
      MapOfKeys(es, key);
      if key in db {
        assert HasKey(es, key);
      }
    }
    assert MapOf(es) == db;
  }

  method RewriteEntry(out: seq<Byte>, e: Stored) returns (r: seq<Byte>)
    requires !e.value.Str? ==> AreElements(KindOfValue(e.value), e.elements)
    ensures r == out + Log(EntryCommands(e))
  {
    if e.value.Str? {
      r := out + Header(STAR, 3);
      r := r + Bulk(SET);
      r := r + Bulk(e.key);
      r := r + Bulk(e.value.bytes);
      LogOne([SET, e.key, e.value.bytes]);
      BulksThree(SET, e.key, e.value.bytes);
      hide Header, Bulk, Bulks;
      assert out + (Header(STAR, 3) + (Bulk(SET) + Bulk(e.key) + Bulk(e.value.bytes))) == r;
    } else {
      r := RewriteElements(out, KindOfValue(e.value), e.key, e.elements);
    }
  }

  lemma BulksThree(a: Argument, b: Argument, c: Argument)
    ensures Bulks([a, b, c]) == Bulk(a) + Bulk(b) + Bulk(c)
  {
    assert [a, b, c] == [a, b] + [c];
    BulksConcat([a, b], [c]);
    BulksTwo(a, b);
    assert Bulks([c]) == Bulk(c) + Bulks([c][1..]);
  }

  // ---------------------------------------------------------------- all databases

  function SelectCommand(d: nat): Command { [SELECT, Digits(d)] }

  /** The databases from j on, each after its SELECT; an empty one is left out. */
  function DumpFrom(dump: seq<seq<Stored>>, j: nat): seq<Command>
    requires j <= |dump|
    decreases |dump| - j
  {
    if j == |dump| then []
    else (if dump[j] == [] then [] else [SelectCommand(j)] + DbCommands(dump[j])) + DumpFrom(dump, j + 1)
  }

  /** Databases without keys leave no trace. */
  lemma {:induction false} EmptyLeftOut(dump: seq<seq<Stored>>, j: nat)
    requires j <= |dump| && forall i :: j <= i < |dump| ==> dump[i] == []
    ensures DumpFrom(dump, j) == []
    decreases |dump| - j
  {
    if j < |dump| {
      EmptyLeftOut(dump, j + 1);
    }
  }

  ghost predicate IsDumpOf(dump: seq<seq<Stored>>, data: seq<Db>) {
    |dump| == |data| && forall j :: 0 <= j < |dump| ==> AreEntriesOf(dump[j], data[j])
  }

  predicate Writable(dump: seq<seq<Stored>>) {
    forall j, i :: 0 <= j < |dump| && 0 <= i < |dump[j]| && !dump[j][i].value.Str? ==>
      AreElements(KindOfValue(dump[j][i].value), dump[j][i].elements)
  }

  method RewriteDb(out: seq<Byte>, es: seq<Stored>) returns (r: seq<Byte>)
    requires forall i :: 0 <= i < |es| && !es[i].value.Str? ==> AreElements(KindOfValue(es[i].value), es[i].elements)
    ensures r == out + Log(DbCommands(es))
  {
    hide Log, EntryCommands;
    r := out;
    var i := 0;
    assert es[0..] == es;
    while i < |es|
      invariant i <= |es|
      invariant r + Log(DbCommands(es[i..])) == out + Log(DbCommands(es))
    {
      assert es[i..][0] == es[i] && es[i..][1..] == es[i + 1..];
      LogConcat(EntryCommands(es[i]), DbCommands(es[i + 1..]));
      Associate(r, Log(EntryCommands(es[i])), Log(DbCommands(es[i + 1..])));
      r := RewriteEntry(r, es[i]);
      i := i + 1;
    }
    NoLog();
    assert es[|es|..] == [] && r + [] == r;
  }

  lemma NoLog()
    ensures Log([]) == []
  {
  }

  /** The part of `rewriteAppendOnlyFile` that writes the dataset of the fork. */
  method RewriteDataset(dump: seq<seq<Stored>>) returns (r: seq<Byte>)
    requires Writable(dump)
    ensures r == Log(DumpFrom(dump, 0))
  {
    hide Log, DbCommands, Writable;
    r := [];
    var j := 0;
    assert [] + Log(DumpFrom(dump, 0)) == Log(DumpFrom(dump, 0));
    while j < |dump|
      invariant j <= |dump|
      invariant r + Log(DumpFrom(dump, j)) == Log(DumpFrom(dump, 0))
    {
      if dump[j] != [] {
        WritableAt(dump, j);
        var select, rest := SelectCommand(j), DumpFrom(dump, j + 1);
        LogConcat([select] + DbCommands(dump[j]), rest);
        LogConcat([select], DbCommands(dump[j]));
        LogOne(select);
        Associate(r, Log([select]) + Log(DbCommands(dump[j])), Log(rest));
        Associate(r, Log([select]), Log(DbCommands(dump[j])));
        r := r + Encoded(select);
        r := RewriteDb(r, dump[j]);
      } else {
        assert [] + DumpFrom(dump, j + 1) == DumpFrom(dump, j + 1);
      }
      j := j + 1;
    }
    NoLog();
    assert r + [] == r;
  }

  lemma WritableAt(dump: seq<seq<Stored>>, j: nat)
    requires Writable(dump) && j < |dump|
    ensures forall i :: 0 <= i < |dump[j]| && !dump[j][i].value.Str? ==>
      AreElements(KindOfValue(dump[j][i].value), dump[j][i].elements)
  {
  }

  // ---------------------------------------------------------------- replay

  /** A client that runs commands: the database it selected, and the dataset. */
  datatype Point = Point(cur: nat, data: seq<Db>)

  /** What the commands not used to rebuild do, to any database. */
  type Effects = (Command, nat, seq<Db>) -> seq<Db>

  predicate Rebuilds(c: Command) { c != [] && (c[0] == SET || KindOf(c[0]).Some?) }

  /** A command run by a client that selected database `cur`. */
  function Run(c: Command, cur: nat, data: seq<Db>, effects: Effects): (r: seq<Db>)
    ensures |r| == |data|
  {
    if cur < |data| && Rebuilds(c) then data[cur := RunOn(data[cur], c)]
    else
      var r := effects(c, cur, data);
      if |r| == |data| then r else data
  }

  predicate IsSelect(c: Command) { |c| == 2 && c[0] == SELECT }

  function Step(p: Point, c: Command, effects: Effects): (r: Point)
    ensures |r.data| == |p.data|
  {
    if IsSelect(c) then
      var d := ParseInt(c[1]);
      if 0 <= d < |p.data| then Point(d, p.data) else p
    else Point(p.cur, Run(c, p.cur, p.data, effects))
  }

  function Replay(p: Point, cs: seq<Command>, effects: Effects): (r: Point)
    ensures |r.data| == |p.data|
    decreases |cs|
  {
    if cs == [] then p else Replay(Step(p, cs[0], effects), cs[1..], effects)
  }

  lemma {:induction false} ReplayConcat(p: Point, a: seq<Command>, b: seq<Command>, effects: Effects)
    ensures Replay(p, a + b, effects) == Replay(Replay(p, a, effects), b, effects)
    decreases |a|
  {
    hide Step;
    if a == [] {
      assert a + b == b;
    } else {
      assert (a + b)[1..] == a[1..] + b;
      ReplayConcat(Step(p, a[0], effects), a[1..], b, effects);
    }
  }

  lemma StepSelect(p: Point, d: nat, effects: Effects)
    requires d < |p.data|
    ensures Step(p, SelectCommand(d), effects) == Point(d, p.data)
  {
    ParseIntOf(d, []);
    assert Digits(d) + [] == Digits(d);
  }

  predicate AllRebuild(cs: seq<Command>) { forall i :: 0 <= i < |cs| ==> Rebuilds(cs[i]) }

  lemma RebuildIsNoSelect(c: Command)
    requires Rebuilds(c)
    ensures !IsSelect(c)
  {
    assert |SELECT| == 6 && |SET| == 3 && |RPUSH| == 5 && |SADD| == 4 && |HMSET| == 5 && |ZADD| == 4;
  }

  lemma {:induction false} ReplayRebuild(p: Point, cs: seq<Command>, effects: Effects)
    requires AllRebuild(cs) && p.cur < |p.data|
    ensures Replay(p, cs, effects) == Point(p.cur, p.data[p.cur := RunAll(p.data[p.cur], cs)])
    decreases |cs|
  {
    hide RunOn, Rebuilds, IsSelect;
    if cs == [] {
      assert p.data[p.cur := p.data[p.cur]] == p.data;
    } else {
      RebuildIsNoSelect(cs[0]);
      var q := Step(p, cs[0], effects);
      ReplayRebuild(q, cs[1..], effects);
    }
  }

  lemma {:induction false} ChunksRebuild(k: Kind, key: Argument, es: seq<Element>)
    ensures AllRebuild(ChunkCommands(k, key, es))
    decreases |es|
  {
    hide Rebuilds;
    if es != [] {
      var n := CmdItems(|es|);
      ElementsRebuild(k, key, es[..n]);
      ChunksRebuild(k, key, es[n..]);
    }
  }

  lemma ElementsRebuild(k: Kind, key: Argument, es: seq<Element>)
    ensures Rebuilds(ElementsCommand(k, key, es))
  {
    KindOfName(k);
  }

  lemma {:induction false} DbRebuilds(es: seq<Stored>)
    ensures AllRebuild(DbCommands(es))
  {
    if es != [] {
      DbRebuilds(es[1..]);
      if !es[0].value.Str? {
        ChunksRebuild(KindOfValue(es[0].value), es[0].key, es[0].elements);
      }
    }
  }

  /** The dataset whose first j databases are those of `data` and whose others are empty. */
  function Partly(data: seq<Db>, j: nat): (r: seq<Db>)
    ensures |r| == |data|
  {
    seq(|data|, i requires 0 <= i < |data| => if i < j then data[i] else map[])
  }

  lemma {:induction false} DumpRebuilds(dump: seq<seq<Stored>>, data: seq<Db>, j: nat, cur: nat, effects: Effects)
    requires IsDumpOf(dump, data) && j <= |dump|
    ensures Replay(Point(cur, Partly(data, j)), DumpFrom(dump, j), effects).data == data
    decreases |dump| - j
  {
    hide Step, AreEntriesOf, DbCommands;
    if j == |dump| {
      assert Partly(data, j) == data;
    } else if dump[j] == [] {
      NothingStored(data[j]);
      assert Partly(data, j + 1) == Partly(data, j);
      assert DumpFrom(dump, j) == DumpFrom(dump, j + 1);
      DumpRebuilds(dump, data, j + 1, cur, effects);
    } else {
      var p := Point(cur, Partly(data, j));
      var here, rest := [SelectCommand(j)] + DbCommands(dump[j]), DumpFrom(dump, j + 1);
      ReplayConcat(p, here, rest, effects);
      assert here[0] == SelectCommand(j) && here[1..] == DbCommands(dump[j]);
      StepSelect(p, j, effects);
      DbRebuilds(dump[j]);
      ReplayRebuild(Point(j, p.data), DbCommands(dump[j]), effects);
      EntriesMake(dump[j], data[j]);
      assert p.data[j := data[j]] == Partly(data, j + 1);
      DumpRebuilds(dump, data, j + 1, j, effects);
    }
  }

  lemma NothingStored(db: Db)
    requires AreEntriesOf([], db)
    ensures db == map[]
  {
    assert forall key :: key in db ==> HasKey([], key);
  }

  function NoData(n: nat): (r: seq<Db>)
    ensures |r| == n
  {
    seq(n, _ => map[])
  }

  /** Replaying the rewrite of a dataset from an empty server makes the dataset. */
  lemma DumpReplays(dump: seq<seq<Stored>>, data: seq<Db>, effects: Effects)
    requires IsDumpOf(dump, data)
    ensures Replay(Point(0, NoData(|data|)), DumpFrom(dump, 0), effects).data == data
  {
    assert Partly(data, 0) == NoData(|data|);
    DumpRebuilds(dump, data, 0, 0, effects);
  }
}
