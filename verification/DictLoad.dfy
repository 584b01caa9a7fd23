/** The load of a dictionary: while resizing is allowed, keys that are added one by one never outnumber the buckets of
    the newest table, as each addition during a rehash also moves the rehash on. */
module DictLoad {
  import opened Basics
  import opened Words
  import opened DictState

  /** The number of buckets that new keys are spread over. */
  function Buckets<V>(s: State<V>): nat { if s.Rehashing() then |s.t1| else |s.t0| }

  /** No more keys than buckets; during a rehash there is room for one more key for each step that is left of it. */
  ghost predicate LoadOk<V>(s: State<V>) {
    && StateOk(s)
    && if s.Rehashing() then s.rehashidx < |s.t0| && |s.Contents()| + |s.t0| - s.rehashidx <= |s.t1| + 1
       else |s.Contents()| <= |s.t0|
  }

  /** An operation on one key, or a step of the rehash, with resizing allowed and no safe iterator at work. */
  ghost predicate Operation<V(!new)>(s: State<V>, s': State<V>) {
    || (exists e :: AddEffect(s, s', e, true, true))
    || (exists k :: DeleteEffect(s, s', k, true))
    || Stepped(s, s', true)
  }

  lemma FirstUnmoved<V>(s: State<V>)
    requires StateOk(s) && s.Rehashing() && s.m0 != map[]
    ensures s.rehashidx < |s.t0|
  {
    var k :| k in s.m0;
    assert |s.m0| > 0 by {
      assert s.m0.Keys >= {k};
      SubsetSize({k}, s.m0.Keys);
    }
    var i := NonEmptyBucket(s.t0, s.bits0, s.m0);
  }

  /** There is room for one more key. */
  ghost predicate Roomy<V>(h: State<V>) {
    if h.Rehashing() then 0 <= h.rehashidx < |h.t0| && |h.Contents()| + |h.t0| - h.rehashidx <= |h.t1|
    else |h.Contents()| < |h.t0|
  }

  lemma StepLoad<V>(s: State<V>, g: State<V>)
    requires LoadOk(s) && StateOk(g) && Stepped(s, g, true)
    ensures LoadOk(g)
    ensures g.Rehashing() ==> Roomy(g)
  {
    if s.Rehashing() {
      if g.Rehashing() {
        StepProgress(s, g);
        FirstUnmoved(g);
      } else {
        assert g.Contents() == s.Contents();
      }
    }
  }

  /** What growth leaves: room for one more key. */
  lemma GrowLoad<V>(g: State<V>)
    requires LoadOk(g) && (g.Rehashing() ==> Roomy(g))
    ensures Roomy(Grown(g, true))
  {
    if !g.Rehashing() {
      assert g.Contents() == g.m0;
      assert Pow2(2) == 2 * Pow2(1) && Pow2(1) == 2 * Pow2(0);
    }
  }

  lemma OneMore<V>(h: State<V>, s': State<V>, k: Key)
    requires s'.Contents().Keys <= h.Contents().Keys + {k}
    ensures |s'.Contents()| <= |h.Contents()| + 1
  {
    SubsetSize(s'.Contents().Keys, h.Contents().Keys + {k});
    assert |h.Contents().Keys + {k}| <= |h.Contents().Keys| + 1;
  }

  /** The tables and the progress of the rehash are the same, and the keys are, but perhaps for k. */
  ghost predicate SameTables<V>(h: State<V>, s': State<V>, k: Key) {
    && s'.rehashidx == h.rehashidx && |s'.t0| == |h.t0| && |s'.t1| == |h.t1|
    && s'.Contents().Keys <= h.Contents().Keys + {k} && h.Contents().Keys <= s'.Contents().Keys + {k}
  }

  lemma AddedSame<V>(h: State<V>, s': State<V>, e: Entry<V>)
    requires AddedTo(h, s', e)
    ensures SameTables(h, s', e.key)
  {
    hide Index;
  }

  lemma UnlinkedSame<V>(g: State<V>, inNew: bool, i: nat, j: nat, k: Key)
    requires At(g, inNew, i, j, k)
    ensures SameTables(g, Unlinked(g, inNew, i, j), k)
  {
    var s' := Unlinked(g, inNew, i, j);
    assert s'.Contents().Keys <= g.Contents().Keys;
  }

  lemma DeletedSame<V>(g: State<V>, s': State<V>, k: Key)
    requires DeletedFrom(g, s', k)
    ensures SameTables(g, s', k) && (k in g.Contents() || s' == g)
    ensures s'.Contents().Keys <= g.Contents().Keys
  {
    if k in g.Contents() {
      var inNew, i, j :| At(g, inNew, i, j, k) && s' == Unlinked(g, inNew, i, j);
      UnlinkedSame(g, inNew, i, j, k);
      hide At, Unlinked;
    }
  }

  lemma AddedLoad<V>(h: State<V>, s': State<V>, k: Key)
    requires Roomy(h) && StateOk(s') && SameTables(h, s', k)
    ensures LoadOk(s')
  {
    OneMore(h, s', k);
    hide StateOk;
  }

  lemma AddLoad<V(!new)>(s: State<V>, s': State<V>, e: Entry<V>)
    requires LoadOk(s) && StateOk(s') && AddEffect(s, s', e, true, true)
    ensures LoadOk(s')
  {
    hide LoadOk, Stepped, Grown, StateOk, AddedTo, Roomy, SameTables;
    var g :| StateOk(g) && Stepped(s, g, true) && AddedTo(Grown(g, true), s', e);
    StepLoad(s, g);
    GrowLoad(g);
    AddedSame(Grown(g, true), s', e);
    AddedLoad(Grown(g, true), s', e.key);
  }

  lemma DeleteLoad<V(!new)>(s: State<V>, s': State<V>, k: Key)
    requires LoadOk(s) && StateOk(s') && DeleteEffect(s, s', k, true)
    ensures LoadOk(s')
  {
    var g :| StateOk(g) && Stepped(s, g, true) && DeletedFrom(g, s', k);
    StepLoad(s, g);
    DeletedSame(g, s', k);
    hide Stepped, StateOk, DeletedFrom, DeleteEffect;
    SubsetSize(s'.Contents().Keys, g.Contents().Keys);
  }

  lemma OperationLoad<V(!new)>(s: State<V>, s': State<V>)
    requires LoadOk(s) && StateOk(s') && Operation(s, s')
    ensures LoadOk(s')
  {
    hide LoadOk, StateOk, AddEffect, DeleteEffect, Stepped;
    if e :| AddEffect(s, s', e, true, true) {
      AddLoad(s, s', e);
    } else if k :| DeleteEffect(s, s', k, true) {
      DeleteLoad(s, s', k);
    } else {
      StepLoad(s, s');
    }
  }

  ghost predicate OperationAt<V(!new)>(states: seq<State<V>>, i: nat)
    requires i + 1 < |states|
  {
    StateOk(states[i + 1]) && Operation(states[i], states[i + 1])
  }

  /** Over any run of additions, lookups, deletions and rehash steps from an empty dictionary, with resizing allowed
      and no safe iterator, there are never more keys than buckets in the newest table. */
  lemma {:induction false} LoadBounded<V(!new)>(states: seq<State<V>>, n: nat)
    requires n < |states| && StateOk(states[0]) && states[0].t0 == []
    requires forall i: nat :: i + 1 < |states| ==> OperationAt(states, i)
    ensures LoadOk(states[n]) && |states[n].Contents()| <= Buckets(states[n])
  {
    hide *;
    if n == 0 {
      NothingLoaded(states[0]);
    } else {
      LoadBounded(states, n - 1);
      OperationKeeps(states, n - 1);
    }
    LoadMeans(states[n]);
  }

  lemma OperationKeeps<V(!new)>(states: seq<State<V>>, i: nat)
    requires i + 1 < |states| && OperationAt(states, i) && LoadOk(states[i])
    ensures LoadOk(states[i + 1])
  {
    hide Operation, LoadOk, StateOk;
    OperationLoad(states[i], states[i + 1]);
  }

  lemma NothingLoaded<V>(s: State<V>)
    requires StateOk(s) && s.t0 == []
    ensures LoadOk(s)
  {
    assert s.Contents() == map[];
  }

  lemma LoadMeans<V>(s: State<V>)
    requires LoadOk(s)
    ensures |s.Contents()| <= Buckets(s)
  {
  }
}
