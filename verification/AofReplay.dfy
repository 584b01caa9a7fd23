/** What commands do to the dataset, and the commands that rebuild one. */
module AofReplay {
  import opened Options
  import opened AofLog

  // ---------------------------------------------------------------- the dataset

  /** A value under a key. The score of a member of a sorted set is kept as it is written. */
  datatype Value =
    | Str(bytes: Argument)
    | List(items: seq<Argument>)
    | Set(members: set<Argument>)
    | Hash(fields: map<Argument, Argument>)
    | Zset(scores: map<Argument, Argument>)

  type Db = map<Argument, Value>

  // The letters of the names below, in ASCII.
  const SELECT: Argument := [83, 69, 76, 69, 67, 84]
  const SET: Argument := [83, 69, 84]
  const RPUSH: Argument := [82, 80, 85, 83, 72]
  const SADD: Argument := [83, 65, 68, 68]
  const HMSET: Argument := [72, 77, 83, 69, 84]
  const ZADD: Argument := [90, 65, 68, 68]

  datatype Kind = Push | Add | Fields | Scores

  function Name(k: Kind): Argument {
    match k case Push => RPUSH case Add => SADD case Fields => HMSET case Scores => ZADD
  }

  /** How many arguments one element takes. */
  function Width(k: Kind): nat { if k == Fields || k == Scores then 2 else 1 }

  type Element = seq<Argument>

  predicate AreElements(k: Kind, es: seq<Element>) { forall i :: 0 <= i < |es| ==> |es[i]| == Width(k) }

  /** One element more; a value of another type stays as it is. */
  function AddOne(k: Kind, v: Option<Value>, e: Element): Option<Value>
    requires |e| == Width(k)
  {
    match k
    case Push => if v.None? then Some(List([e[0]])) else if v.value.List? then Some(List(v.value.items + [e[0]])) else v
    case Add => if v.None? then Some(Set({e[0]})) else if v.value.Set? then Some(Set(v.value.members + {e[0]})) else v
    case Fields =>
      if v.None? then Some(Hash(map[e[0] := e[1]]))
      else if v.value.Hash? then Some(Hash(v.value.fields[e[0] := e[1]])) else v
    case Scores =>
      if v.None? then Some(Zset(map[e[1] := e[0]]))
      else if v.value.Zset? then Some(Zset(v.value.scores[e[1] := e[0]])) else v
  }

  function AddAll(k: Kind, v: Option<Value>, es: seq<Element>): Option<Value>
    requires AreElements(k, es)
    decreases |es|
  {
    if es == [] then v else AddAll(k, AddOne(k, v, es[0]), es[1..])
  }

  lemma {:induction false} AddAllConcat(k: Kind, v: Option<Value>, a: seq<Element>, b: seq<Element>)
    requires AreElements(k, a) && AreElements(k, b)
    ensures AddAll(k, v, a + b) == AddAll(k, AddAll(k, v, a), b)
    decreases |a|
  {
    if a == [] {
      assert a + b == b;
    } else {
      assert (a + b)[1..] == a[1..] + b;
      AddAllConcat(k, AddOne(k, v, a[0]), a[1..], b);
    }
  }

  function Flat(es: seq<Element>): seq<Argument> { if es == [] then [] else es[0] + Flat(es[1..]) }

  /** The elements of a list of arguments; a last one that is not whole is dropped. */
  function Elements(args: seq<Argument>, w: nat): (es: seq<Element>)
    requires w > 0
    ensures forall i :: 0 <= i < |es| ==> |es[i]| == w
  {
    if |args| < w then [] else [args[..w]] + Elements(args[w..], w)
  }

  lemma {:induction false} ElementsOfFlat(es: seq<Element>, w: nat)
    requires w > 0 && forall i :: 0 <= i < |es| ==> |es[i]| == w
    ensures Elements(Flat(es), w) == es && |Flat(es)| == w * |es|
  {
    if es != [] {
      ElementsOfFlat(es[1..], w);
      assert Flat(es)[..w] == es[0] && Flat(es)[w..] == Flat(es[1..]);
      assert w * |es| == w + w * |es[1..]|;
    }
  }

  lemma {:induction false} FlatSnoc(es: seq<Element>, e: Element)
    ensures Flat(es + [e]) == Flat(es) + e
  {
    if es == [] {
      assert es + [e] == [e];
      assert Flat([e]) == e + Flat([e][1..]);
    } else {
      assert (es + [e])[1..] == es[1..] + [e];
      FlatSnoc(es[1..], e);
    }
  }

  function Get(db: Db, key: Argument): Option<Value> { if key in db then Some(db[key]) else None }

  function Put(db: Db, key: Argument, v: Option<Value>): Db { if v.Some? then db[key := v.value] else db }

  /** SET, or the first variadic command of this name; the source's other commands are not needed to rebuild. */
  function KindOf(name: Argument): Option<Kind> {
    if name == RPUSH then Some(Push) else if name == SADD then Some(Add)
    else if name == HMSET then Some(Fields) else if name == ZADD then Some(Scores) else None
  }

  lemma KindOfName(k: Kind)
    ensures KindOf(Name(k)) == Some(k) && Name(k) != SET && Name(k) != SELECT
  {
    assert RPUSH[0] != SADD[0] && RPUSH[0] != HMSET[0] && SADD[0] != HMSET[0] && ZADD[0] != RPUSH[0];
    assert |SET| == 3 && |SELECT| == 6;
  }

  /** A command that rebuilds a dataset, run on one database. */
  function RunOn(db: Db, c: Command): Db {
    if c == [] then db
    else if c[0] == SET then (if |c| == 3 then db[c[1] := Str(c[2])] else db)
    else
      var k := KindOf(c[0]);
      if k.None? || |c| < 2 then db
      else Put(db, c[1], AddAll(k.value, Get(db, c[1]), Elements(c[2..], Width(k.value))))
  }

  // ---------------------------------------------------------------- the commands of one value

  const AOF_REWRITE_ITEMS_PER_CMD: nat := 64

  function CmdItems(n: nat): (r: nat)
    ensures r <= n && (n > 0 ==> r > 0)
  {
    if n > AOF_REWRITE_ITEMS_PER_CMD then AOF_REWRITE_ITEMS_PER_CMD else n
  }

  function ElementsCommand(k: Kind, key: Argument, es: seq<Element>): Command { [Name(k), key] + Flat(es) }

  /** The elements in commands of at most 64. */
  function ChunkCommands(k: Kind, key: Argument, es: seq<Element>): seq<Command>
    decreases |es|
  {
    if es == [] then []
    else [ElementsCommand(k, key, es[..CmdItems(|es|)])] + ChunkCommands(k, key, es[CmdItems(|es|)..])
  }

  /** The elements in commands of 64, but for those of the last: the command i is the name, the key and the elements
      from 64 i on. */
  lemma {:induction false} ChunkAt(k: Kind, key: Argument, es: seq<Element>, i: nat)
    ensures |ChunkCommands(k, key, es)| == (|es| + 63) / 64
    ensures 64 * i < |es| ==>
      var end := if 64 * i + 64 < |es| then 64 * i + 64 else |es|;
      i < |ChunkCommands(k, key, es)| && ChunkCommands(k, key, es)[i] == [Name(k), key] + Flat(es[64 * i..end])
    decreases |es|
  {
    hide Flat;
    if es != [] {
      var n := CmdItems(|es|);
      if i == 0 || 64 * i >= |es| {
        ChunkAt(k, key, es[n..], 0);
      } else {
        ChunkAt(k, key, es[n..], i - 1);
        var end := if 64 * i + 64 < |es| then 64 * i + 64 else |es|;
        assert es[n..][64 * (i - 1)..end - 64] == es[64 * i..end];
      }
    }
  }

  function RunAll(db: Db, cs: seq<Command>): Db
    decreases |cs|
  {
    if cs == [] then db else RunAll(RunOn(db, cs[0]), cs[1..])
  }

  lemma RunElements(db: Db, k: Kind, key: Argument, es: seq<Element>)
    requires AreElements(k, es)
    ensures RunOn(db, ElementsCommand(k, key, es)) == Put(db, key, AddAll(k, Get(db, key), es))
  {
    KindOfName(k);
    ElementsOfFlat(es, Width(k));
    assert ElementsCommand(k, key, es)[2..] == Flat(es);
  }

  lemma AddAllNotNone(k: Kind, v: Option<Value>, es: seq<Element>)
    requires AreElements(k, es) && (v.Some? || es != [])
    ensures AddAll(k, v, es).Some?
    decreases |es|
  {
    if es != [] {
      AddAllNotNone(k, AddOne(k, v, es[0]), es[1..]);
    }
  }

  lemma PutTwice(db: Db, key: Argument, v: Option<Value>, w: Option<Value>)
    requires v.Some? && w.Some?
    ensures Get(Put(db, key, v), key) == v && Put(Put(db, key, v), key, w) == Put(db, key, w)
  {
  }

  lemma PutSame(db: Db, key: Argument)
    ensures Put(db, key, Get(db, key)) == db
  {
  }

  /** However the elements are cut into commands, the value is the one of all of them. */
  lemma {:induction false} RunChunks(db: Db, k: Kind, key: Argument, es: seq<Element>)
    requires AreElements(k, es)
    ensures RunAll(db, ChunkCommands(k, key, es)) == Put(db, key, AddAll(k, Get(db, key), es))
    decreases |es|
  {
    hide AddOne, RunOn, ElementsCommand, Put, Get;
    PutSame(db, key);
    if es != [] {
      var n := CmdItems(|es|);
      var first, rest := es[..n], es[n..];
      var v := AddAll(k, Get(db, key), first);
      RunElements(db, k, key, first);
      AddAllNotNone(k, Get(db, key), first);
      assert first + rest == es;
      AddAllConcat(k, Get(db, key), first, rest);
      var db' := Put(db, key, v);
      RunChunks(db', k, key, rest);
      AddAllNotNone(k, v, rest);
      PutTwice(db, key, v, AddAll(k, v, rest));
      assert ChunkCommands(k, key, es)[1..] == ChunkCommands(k, key, rest);
    }
  }

  // ---------------------------------------------------------------- the elements of a value

  function KindOfValue(v: Value): Kind
    requires !v.Str?
  {
    match v case List(_) => Push case Set(_) => Add case Hash(_) => Fields case Zset(_) => Scores
  }

  function First(es: seq<Element>, i: nat): set<Argument>
    requires forall j :: 0 <= j < |es| ==> i < |es[j]|
  {
    set e | e in es :: e[i]
  }

  /** The elements are those of the value: of a list in order, of the others in any. */
  ghost predicate AreElementsOf(v: Value, es: seq<Element>)
    requires !v.Str?
  {
    && es != [] && AreElements(KindOfValue(v), es)
    && match v
       case List(items) => |es| == |items| && forall i :: 0 <= i < |es| ==> es[i][0] == items[i]
       case Set(members) => members == First(es, 0)
       case Hash(fields) =>
         && fields.Keys == First(es, 0)
         && forall e :: e in es ==> e[0] in fields && fields[e[0]] == e[1]
       case Zset(scores) =>
         && scores.Keys == First(es, 1)
         && forall e :: e in es ==> e[1] in scores && scores[e[1]] == e[0]
  }

  /** The value that the first n elements make. */
  ghost function Front(v: Value, es: seq<Element>, n: nat): Value
    requires !v.Str? && AreElementsOf(v, es) && n <= |es|
  {
    match v
    case List(items) => List(items[..n])
    case Set(members) => Set(First(es[..n], 0))
    case Hash(fields) => Hash(map f | f in First(es[..n], 0) && f in fields :: fields[f])
    case Zset(scores) => Zset(map f | f in First(es[..n], 1) && f in scores :: scores[f])
  }

  lemma FirstSnoc(es: seq<Element>, n: nat, i: nat)
    requires n < |es| && forall j :: 0 <= j < |es| ==> i < |es[j]|
    ensures First(es[..n + 1], i) == First(es[..n], i) + {es[n][i]}
  {
    assert es[..n + 1] == es[..n] + [es[n]];
    assert es[n] in es[..n + 1];
  }

  lemma ListGrows(v: Value, es: seq<Element>, n: nat)
    requires v.List? && AreElementsOf(v, es) && n < |es|
    ensures AddOne(Push, if n == 0 then None else Some(Front(v, es, n)), es[n]) == Some(Front(v, es, n + 1))
  {
    assert v.items[..n + 1] == v.items[..n] + [v.items[n]];
    assert es[n][0] == v.items[n];
    assert n == 0 ==> v.items[..n + 1] == [v.items[n]];
  }

  lemma SetGrows(v: Value, es: seq<Element>, n: nat)
    requires v.Set? && AreElementsOf(v, es) && n < |es|
    ensures AddOne(Add, if n == 0 then None else Some(Front(v, es, n)), es[n]) == Some(Front(v, es, n + 1))
  {
    FirstSnoc(es, n, 0);
    assert First(es[..0], 0) == {};
    assert n == 0 ==> First(es[..n + 1], 0) == {es[n][0]};
  }

  lemma HashGrows(v: Value, es: seq<Element>, n: nat)
    requires v.Hash? && AreElementsOf(v, es) && n < |es|
    ensures AddOne(Fields, if n == 0 then None else Some(Front(v, es, n)), es[n]) == Some(Front(v, es, n + 1))
  {
    FirstSnoc(es, n, 0);
    assert First(es[..0], 0) == {};
    assert es[n] in es;
    assert Front(v, es, n + 1).fields == Front(v, es, n).fields[es[n][0] := es[n][1]];
    assert n == 0 ==> Front(v, es, n).fields == map[];
  }

  lemma ZsetGrows(v: Value, es: seq<Element>, n: nat)
    requires v.Zset? && AreElementsOf(v, es) && n < |es|
    ensures AddOne(Scores, if n == 0 then None else Some(Front(v, es, n)), es[n]) == Some(Front(v, es, n + 1))
  {
    FirstSnoc(es, n, 1);
    assert First(es[..0], 1) == {};
    assert es[n] in es;
    assert Front(v, es, n + 1).scores == Front(v, es, n).scores[es[n][1] := es[n][0]];
    assert n == 0 ==> Front(v, es, n).scores == map[];
  }

  lemma FrontGrows(v: Value, es: seq<Element>, n: nat)
    requires !v.Str? && AreElementsOf(v, es) && n < |es|
    ensures AddOne(KindOfValue(v), if n == 0 then None else Some(Front(v, es, n)), es[n]) == Some(Front(v, es, n + 1))
  {
    hide AreElementsOf, Front, AddOne;
    match v
    case List(_) => ListGrows(v, es, n);
    case Set(_) => SetGrows(v, es, n);
    case Hash(_) => HashGrows(v, es, n);
    case Zset(_) => ZsetGrows(v, es, n);
  }

  lemma {:induction false} FrontBuilds(v: Value, es: seq<Element>, n: nat)
    requires !v.Str? && AreElementsOf(v, es) && n <= |es|
    ensures AddAll(KindOfValue(v), None, es[..n]) == if n == 0 then None else Some(Front(v, es, n))
  {
    if n > 0 {
      var k := KindOfValue(v);
      FrontBuilds(v, es, n - 1);
      FrontGrows(v, es, n - 1);
      hide AddOne;
      assert es[..n] == es[..n - 1] + [es[n - 1]];
      AddAllConcat(k, None, es[..n - 1], [es[n - 1]]);
    }
  }

  /** Adding its elements to nothing makes the value. */
  lemma ElementsBuild(v: Value, es: seq<Element>)
    requires !v.Str? && AreElementsOf(v, es)
    ensures AddAll(KindOfValue(v), None, es) == Some(v)
  {
    FrontBuilds(v, es, |es|);
    assert es[..|es|] == es;
    match v
    case List(items) => assert items[..|es|] == items;
    case Set(_) =>
    case Hash(fields) => assert Front(v, es, |es|).fields == fields;
    case Zset(scores) => assert Front(v, es, |es|).scores == scores;
  }
}
