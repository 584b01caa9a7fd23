/** The AOF rewrite buffer: a list of fixed blocks, filled at the tail and sent from the head. */
module AofBlocks {
  import opened Bytes

  const AOF_RW_BUF_BLOCK_SIZE: nat := 10 * 1024 * 1024

  /** `free` counts what can still be appended; what was sent is moved away without being given back to it. */
  datatype Block = Block(buf: seq<Byte>, used: nat, free: nat)

  predicate BlockOk(b: Block) { |b.buf| == AOF_RW_BUF_BLOCK_SIZE && b.used + b.free <= AOF_RW_BUF_BLOCK_SIZE }

  type Buffer = bs: seq<Block> | forall i :: 0 <= i < |bs| ==> BlockOk(bs[i]) witness []

  function Used(b: Block): seq<Byte>
    requires BlockOk(b)
  {
    b.buf[..b.used]
  }

  /** The bytes that wait in the buffer. */
  function Contents(bs: Buffer): seq<Byte> {
    if bs == [] then [] else Used(bs[0]) + Contents(bs[1..])
  }

  lemma {:induction false} ContentsSnoc(bs: Buffer, b: Block)
    requires BlockOk(b)
    ensures Contents(bs + [b]) == Contents(bs) + Used(b)
  {
    if bs == [] {
      assert bs + [b] == [b];
      assert Contents([b]) == Used(b) + Contents([b][1..]);
    } else {
      assert (bs + [b])[1..] == bs[1..] + [b];
      ContentsSnoc(bs[1..], b);
    }
  }

  function FreshBlock(): (b: Block)
    ensures BlockOk(b) && Used(b) == []
  {
    Block(seq(AOF_RW_BUF_BLOCK_SIZE, _ => 0), 0, AOF_RW_BUF_BLOCK_SIZE)
  }

  /** The two copies and the two counts of an append to one block. */
  function Filled(b: Block, s: seq<Byte>): (r: Block)
    requires BlockOk(b) && |s| <= b.free
    ensures BlockOk(r) && Used(r) == Used(b) + s && r.free == b.free - |s|
  {
    Block(b.buf[..b.used] + s + b.buf[b.used + |s|..], b.used + |s|, b.free - |s|)
  }

  /** `memmove` of what was not sent to the front of the block. */
  function Sent(b: Block, n: nat): (r: Block)
    requires BlockOk(b) && n <= b.used
    ensures BlockOk(r) && Used(b) == Used(b)[..n] + Used(r) && r.used == b.used - n
  {
    Block(b.buf[n..b.used] + b.buf[b.used - n..], b.used - n, b.free)
  }

  lemma Regroup(a: seq<Byte>, u: seq<Byte>, p: seq<Byte>, q: seq<Byte>)
    ensures a + (u + p) + q == a + u + (p + q)
  {
  }

  lemma FillLast(front: Buffer, last: Block, p: seq<Byte>, q: seq<Byte>)
    requires BlockOk(last) && |p| <= last.free
    ensures Contents(front + [Filled(last, p)]) + q == Contents(front + [last]) + (p + q)
  {
    hide Filled, Used, Contents;
    ContentsSnoc(front, last);
    ContentsSnoc(front, Filled(last, p));
    Regroup(Contents(front), Used(last), p, q);
  }

  /** `aofRewriteBufferAppend` */
  method Append(bs0: Buffer, s0: seq<Byte>) returns (bs: Buffer)
    ensures Contents(bs) == Contents(bs0) + s0
  {
    hide Contents, Filled, Used;
    bs := bs0;
    var s := s0;
    while s != []
      invariant Contents(bs) + s == Contents(bs0) + s0
      decreases |s|, if bs != [] && bs[|bs| - 1].free > 0 then 0 else 1
    {
      if bs != [] {
        var last := bs[|bs| - 1];
        var n := if last.free < |s| then last.free else |s|;
        var front: Buffer := bs[..|bs| - 1];
        FillLast(front, last, s[..n], s[n..]);
        assert bs == front + [last] && s == s[..n] + s[n..];
        bs, s := front + [Filled(last, s[..n])], s[n..];
      }
      if s != [] {
        ContentsSnoc(bs, FreshBlock());
        assert Contents(bs) + Used(FreshBlock()) == Contents(bs);
        bs := bs + [FreshBlock()];
      }
    }
    assert Contents(bs) + s == Contents(bs);
  }

  lemma SendFirst(bs: Buffer, n: nat)
    requires bs != [] && n <= bs[0].used
    ensures Contents(bs) == bs[0].buf[..n] + Contents([Sent(bs[0], n)] + bs[1..])
  {
    var b := Sent(bs[0], n);
    assert ([b] + bs[1..])[1..] == bs[1..];
    assert Used(bs[0])[..n] == bs[0].buf[..n];
    assert Used(bs[0]) + Contents(bs[1..]) == bs[0].buf[..n] + (Used(b) + Contents(bs[1..]));
  }

  lemma DropFirst(bs: Buffer)
    requires bs != [] && bs[0].used == 0
    ensures Contents(bs) == Contents(bs[1..])
  {
    assert Used(bs[0]) == [];
  }

  /** What the first `n` calls of `write` accept at most. */
  function Total(writes: seq<int>, n: nat): int
    requires n <= |writes|
  {
    if n == 0 then 0 else Total(writes, n - 1) + writes[n - 1]
  }

  /** `aofChildWriteDiffData`: `writes` are the results of its calls of `write`, in order, and `calls` says how many
      sent something; it gives up only when a call is refused, and sends nothing once the child asked to stop. */
  method WriteDiffData(bs0: Buffer, stop: bool, writes: seq<int>) returns (bs: Buffer, sent: seq<Byte>, calls: nat)
    ensures sent + Contents(bs) == Contents(bs0)
    ensures stop ==> bs == bs0 && sent == []
    ensures calls <= |writes| && calls <= |sent| <= Total(writes, calls)
    ensures stop || bs == [] || calls == |writes| || writes[calls] <= 0
  {
    hide Contents, Sent, Used;
    bs, sent, calls := bs0, [], 0;
    while calls < |writes| && !stop && bs != []
      invariant calls <= |writes| && sent + Contents(bs) == Contents(bs0)
      invariant calls <= |sent| <= Total(writes, calls)
      invariant stop ==> bs == bs0 && sent == []
      decreases |writes| - calls, |bs|
    {
      if bs[0].used > 0 {
        var n := writes[calls];
        if n <= 0 {
          return;
        }
        n := if n > bs[0].used then bs[0].used else n;
        calls := calls + 1;
        SendFirst(bs, n);
        sent, bs := sent + bs[0].buf[..n], [Sent(bs[0], n)] + bs[1..];
      }
      if bs[0].used == 0 {
        DropFirst(bs);
        bs := bs[1..];
      }
    }
  }

  /** `aofRewriteBufferWrite`: the bytes written to the file; ok when each block was written in full. */
  method WriteAll(bs: Buffer, writes: seq<int>) returns (written: seq<Byte>, ok: bool)
    requires |writes| == |bs| && forall k :: 0 <= k < |bs| ==> -1 <= writes[k] <= bs[k].used
    ensures written <= Contents(bs)
    ensures ok ==> written == Contents(bs)
    ensures ok <==> forall k :: 0 <= k < |bs| && bs[k].used > 0 ==> writes[k] == bs[k].used
  {
    hide Contents, Used;
    written, ok := [], true;
    var i := 0;
    assert bs[0..] == bs && [] + Contents(bs) == Contents(bs);
    while i < |bs|
      invariant i <= |bs|
      invariant written + Contents(bs[i..]) == Contents(bs)
      invariant forall k :: 0 <= k < i && bs[k].used > 0 ==> writes[k] == bs[k].used
    {
      var b := bs[i];
      NextBlock(bs, i, written);
      if b.used > 0 {
        var n := writes[i];
        if n >= 0 {
          WrittenPart(written, b, n, Contents(bs[i + 1..]));
        }
        ghost var before := written;
        if n > 0 {
          written := written + b.buf[..n];
        }
        if n != b.used {
          assert n <= 0 ==> written == before;
          return written, false;
        }
      }
      i := i + 1;
    }
    NoBlocks(bs[|bs|..]);
  }

  lemma NextBlock(bs: Buffer, i: nat, written: seq<Byte>)
    requires i < |bs|
    ensures written + Contents(bs[i..]) == written + (Used(bs[i]) + Contents(bs[i + 1..]))
    ensures bs[i].used == 0 ==> Contents(bs[i..]) == Contents(bs[i + 1..])
  {
    assert bs[i..][0] == bs[i] && bs[i..][1..] == bs[i + 1..];
  }

  /** Writing n bytes of a block: a prefix of what is left, and all of the block when n is its size. */
  lemma WrittenPart(written: seq<Byte>, b: Block, n: nat, rest: seq<Byte>)
    requires BlockOk(b) && n <= b.used
    ensures written + b.buf[..n] <= written + (Used(b) + rest)
    ensures n == b.used ==> written + b.buf[..n] + rest == written + (Used(b) + rest)
  {
    assert Used(b) == b.buf[..n] + b.buf[n..b.used];
  }

  lemma NoBlocks(bs: Buffer)
    requires bs == []
    ensures Contents(bs) == []
  {
  }
}
