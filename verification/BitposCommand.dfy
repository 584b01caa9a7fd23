/** BITPOS (bitops.c): the range of bytes and what lies to the right of it. */
module BitposCommand {
  import opened Bytes
  import opened Options
  import opened Bitpos

  /** The optional arguments. */
  datatype Range = Whole | From(start: int) | Between(start: int, end: int)

  function Max(a: int, b: int): int { if a > b then a else b }

  /** The bit is nowhere among the bits from `from` up to `to`. */
  predicate Nowhere(s: seq<Byte>, bit: bool, from: nat, to: nat) {
    forall k: nat :: from <= k < to ==> BitAt(s, k) != bit
  }

  /** The least position of the bit in the bytes from lo to hi. Looking for a 0 with no end given, what follows the
      string is zeros; with an end given nothing follows the range. */
  ghost predicate IsAnswer(s: seq<Byte>, bit: bool, lo: nat, hi: nat, endGiven: bool, pos: int) {
    if pos == -1 then Nowhere(s, bit, 8 * lo, 8 * (hi + 1)) && (bit || endGiven)
    else
      && 8 * lo <= pos && (pos < 8 * (hi + 1) || (pos == 8 * (hi + 1) && !endGiven && hi + 1 == |s|))
      && BitAt(s, pos) == bit && Nowhere(s, bit, 8 * lo, pos)
  }

  lemma BitOfPart(s: seq<Byte>, lo: nat, hi: nat, k: nat)
    requires lo <= hi < |s| && k < 8 * (hi + 1 - lo)
    ensures BitAt(s[lo..hi + 1], k) == BitAt(s, 8 * lo + k)
  {
    assert (8 * lo + k) / 8 == lo + k / 8 && (8 * lo + k) % 8 == k % 8;
  }

  /** What `redisBitpos` finds in the part, seen in the whole string. */
  lemma PartAnswer(s: seq<Byte>, bit: bool, lo: nat, hi: nat, pos: nat)
    requires lo <= hi < |s| && pos <= 8 * (hi + 1 - lo) && NoneBefore(s[lo..hi + 1], pos, bit)
    ensures Nowhere(s, bit, 8 * lo, 8 * lo + pos)
  {
    forall k: nat | 8 * lo <= k < 8 * lo + pos
      ensures BitAt(s, k) != bit
    {
      BitOfPart(s, lo, hi, k - 8 * lo);
    }
  }

  /** The search of a range that is not empty. */
  method SearchRange(s: seq<Byte>, bit: bool, start: nat, end: nat, endGiven: bool, align: nat) returns (pos: int)
    requires start <= end < |s| && (endGiven || end == |s| - 1)
    ensures IsAnswer(s, bit, start, end, endGiven, pos)
  {
    var bytes := end - start + 1;
    pos := Bitpos.Bitpos(s[start..end + 1], bit, align);
    PartAnswer(s, bit, start, end, if pos == -1 then 8 * bytes else pos);
    if endGiven && !bit && pos == bytes * 8 {
      return -1;
    }
    if pos != -1 {
      if pos < 8 * bytes {
        BitOfPart(s, start, end, pos);
      }
      pos := pos + start * 8;
    }
  }

  /** `bitposCommand`, after the arguments are parsed: an error unless the bit is 0 or 1; a missing key is an endless
      string of zeros; an empty range holds neither bit. */
  method BitposCommand(value: Option<seq<Byte>>, bit: int, range: Range, align: nat) returns (r: Option<int>)
    ensures r.None? <==> bit != 0 && bit != 1
    ensures r.Some? && value.None? ==> r.value == if bit == 1 then -1 else 0
    ensures r.Some? && value.Some? ==>
      var s := value.value;
      // an index below 0 counts from the end
      var lo := if range.Whole? then 0 else if range.start >= 0 then range.start else Max(0, |s| + range.start);
      var end := if !range.Between? then |s| - 1 else if range.end >= 0 then range.end else Max(0, |s| + range.end);
      var hi := if end < |s| then end else |s| - 1;
      if lo > hi then r.value == -1 else IsAnswer(s, bit == 1, lo, hi, range.Between?, r.value)
  {
    if bit != 0 && bit != 1 {
      return None;
    }
    if value.None? {
      return Some(if bit == 1 then -1 else 0);
    }
    var s := value.value;
    var strlen := |s|;
    var start, end, endGiven := 0, strlen - 1, range.Between?;
    if !range.Whole? {
      start := range.start;
      if endGiven {
        end := range.end;
      }
      if start < 0 {
        start := strlen + start;
      }
      if end < 0 {
        end := strlen + end;
      }
      if start < 0 {
        start := 0;
      }
      if end < 0 {
        end := 0;
      }
      if end >= strlen {
        end := strlen - 1;
      }
    }
    hide IsAnswer;
    if start > end {
      return Some(-1);
    }
    var pos := SearchRange(s, bit == 1, start, end, endGiven, align);
    r := Some(pos);
  }
}
