/** The range encoder with carry propagation (LzmaEnc.c, `CRangeEnc`), and the
  * proof that the range decoder of the LZMA specification recovers every bit the
  * encoder was given. */
module RangeCoder {
  import opened Arith
  import opened Words
  import opened LzmaSpec

  const TOP := 0x100_0000
  const INIT_RANGE := 0xFFFF_FFFF
  const BIT_MODEL_TOTAL := 2048
  const PROB_MIN := 31
  const PROB_MAX := 2017
  const RC_BUF_SIZE := 0x1_0000

  // ---------------------------------------------------------------- numbers

  /** The number a byte string denotes, most significant byte first. */
  ghost function Val(s: seq<Byte>): (v: nat) {
    if s == [] then 0 else Val(s[..|s| - 1]) * 256 + s[|s| - 1]
  }

  lemma ValSnoc(s: seq<Byte>, b: Byte)
    ensures Val(s + [b]) == Val(s) * 256 + b
  {
    assert (s + [b])[..|s|] == s;
  }

  function Repeat(b: Byte, n: nat): (s: seq<Byte>)
    ensures |s| == n && forall i :: 0 <= i < n ==> s[i] == b
  {
    seq(n, _ => b)
  }

  lemma RepeatSnoc(b: Byte, n: nat)
    ensures Repeat(b, n + 1) == Repeat(b, n) + [b]
  {
  }

  /** A carry out of a run of pending 0xFF bytes turns them into zeroes and
    * increments the byte cached in front of the run. */
  lemma {:induction false} CarryPropagates(p: seq<Byte>, c: Byte, n: nat)
    requires c < 255
    ensures Val(p + [c] + Repeat(255, n)) + 1 == Val(p + [c + 1] + Repeat(0, n))
    decreases n
  {
    if n == 0 {
      assert p + [c] + Repeat(255, 0) == p + [c];
      assert p + [c + 1] + Repeat(0, 0) == p + [c + 1];
      ValSnoc(p, c);
      ValSnoc(p, c + 1);
    } else {
      CarryPropagates(p, c, n - 1);
      RepeatSnoc(255, n - 1);
      RepeatSnoc(0, n - 1);
      assert p + [c] + Repeat(255, n) == (p + [c] + Repeat(255, n - 1)) + [255];
      assert p + [c + 1] + Repeat(0, n) == (p + [c + 1] + Repeat(0, n - 1)) + [0];
      ValSnoc(p + [c] + Repeat(255, n - 1), 255);
      ValSnoc(p + [c + 1] + Repeat(0, n - 1), 0);
    }
  }

  // ------------------------------------------------- the arithmetic encoder

  /** What the encoder denotes: the exact offset accumulated so far, the width
    * of the current interval, and how many bytes the offset was shifted by. */
  datatype Interval = Interval(low: nat, range: nat, shifts: nat)

  const START := Interval(0, INIT_RANGE, 0)

  predicate InRange(iv: Interval) {
    TOP <= iv.range < WORD
  }

  function Norm(iv: Interval): Interval {
    if iv.range < TOP then Interval(iv.low * 256, iv.range * 256, iv.shifts + 1) else iv
  }

  predicate ValidProb(p: nat) { PROB_MIN <= p <= PROB_MAX }

  function Bound(range: nat, prob: nat): nat { (range / BIT_MODEL_TOTAL) * prob }

  function NextProb(prob: nat, bit: Bit): nat
    requires prob <= BIT_MODEL_TOTAL
  {
    if bit == 0 then prob + (BIT_MODEL_TOTAL - prob) / 32 else prob - prob / 32
  }

  function Split(iv: Interval, prob: nat, bit: Bit): Interval
    requires prob <= BIT_MODEL_TOTAL
  {
    var bound := Bound(iv.range, prob);
    assert bound <= iv.range by { BoundFits(iv.range, prob); }
    if bit == 0 then iv.(range := bound)
    else iv.(low := iv.low + bound, range := iv.range - bound)
  }

  lemma BoundFits(range: nat, prob: nat)
    requires prob <= BIT_MODEL_TOTAL
    ensures Bound(range, prob) <= range
  {
    assert (range / 2048) * prob <= (range / 2048) * 2048;
  }

  function StepBit(iv: Interval, prob: nat, bit: Bit): Interval
    requires prob <= BIT_MODEL_TOTAL
  {
    Norm(Split(iv, prob, bit))
  }

  function Halve(iv: Interval, bit: Bit): Interval {
    iv.(low := iv.low + bit * (iv.range / 2), range := iv.range / 2)
  }

  function StepDirect(iv: Interval, bit: Bit): Interval {
    Norm(Halve(iv, bit))
  }

  /** One normalisation step is always enough, and the two halves of a split
    * never vanish. */
  lemma StepBitInRange(iv: Interval, prob: nat, bit: Bit)
    requires InRange(iv) && ValidProb(prob)
    ensures InRange(StepBit(iv, prob, bit))
    ensures Split(iv, prob, bit).range >= 0x1_0000
  {
    var q := iv.range / 2048;
    assert 8192 <= q;
    assert q * prob >= 8192 * 31;
    assert q * prob <= q * 2017;
    assert iv.range - q * prob >= q * 31;
  }

  lemma StepDirectInRange(iv: Interval, bit: Bit)
    requires InRange(iv)
    ensures InRange(StepDirect(iv, bit))
  {
  }

  lemma NextProbValid(prob: nat, bit: Bit)
    requires ValidProb(prob)
    ensures ValidProb(NextProb(prob, bit))
  {
  }

  /** Bitwise conjunction with a mask that is all ones or all zeroes. */
  function Masked(x: nat, mask: nat): nat
    requires mask == 0 || mask == WORD - 1
  {
    if mask == 0 then 0 else x
  }

  /** The masks `0 - bit` and `bit - 1` on 32-bit words. */
  function MaskOnOne(bit: Bit): (m: nat)
    ensures m == 0 || m == WORD - 1
  {
    (0 - bit) % WORD
  }

  function MaskOnZero(bit: Bit): (m: nat)
    ensures m == 0 || m == WORD - 1
  {
    (bit - 1) % WORD
  }

  /** The branch-free update compiled by default computes, on 32-bit words, the
    * range, the offset increment and the probability of the branching form. */
  lemma BranchFreeUpdate(iv: Interval, prob: nat, bit: Bit)
    requires InRange(iv) && ValidProb(prob)
    ensures var newBound := Bound(iv.range, prob);
            var addend := Masked(newBound, MaskOnOne(bit));
            var range1 := (Masked(iv.range, MaskOnOne(bit)) - addend) % WORD;
            var mask := Masked(BIT_MODEL_TOTAL - 31, MaskOnZero(bit)) + 31;
            && Split(iv, prob, bit).low == iv.low + addend
            && Split(iv, prob, bit).range == (range1 + Masked(newBound, MaskOnZero(bit))) % WORD
            && NextProb(prob, bit) == prob + (mask - prob) / 32
  {
    BoundFits(iv.range, prob);
  }

  // ------------------------------------------------------- encoder / decoder

  /** The prefix of the final bytes the decoder has consumed denotes a number
    * inside the current interval. */
  ghost predicate Inside(iv: Interval, bytes: seq<Byte>) {
    && 5 + iv.shifts <= |bytes|
    && iv.low <= Val(bytes[..5 + iv.shifts]) < iv.low + iv.range
  }

  /** The decoder registers that belong to an encoder interval. */
  ghost predicate Tracks(iv: Interval, d: Dec, bytes: seq<Byte>) {
    && d.range == iv.range
    && d.pos == 5 + iv.shifts <= |bytes|
    && d.code == Val(bytes[..5 + iv.shifts]) - iv.low
  }

  lemma PrefixVal(bytes: seq<Byte>, n: nat)
    requires n < |bytes|
    ensures Val(bytes[..n + 1]) == Val(bytes[..n]) * 256 + bytes[n]
  {
    assert bytes[..n + 1] == bytes[..n] + [bytes[n]];
    ValSnoc(bytes[..n], bytes[n]);
  }

  /** Shifting is invisible: if the bytes lie inside the normalised interval
    * they lie inside the interval before normalisation. */
  lemma InsideNorm(iv: Interval, bytes: seq<Byte>)
    requires Inside(Norm(iv), bytes)
    ensures Inside(iv, bytes)
  {
    if iv.range < TOP {
      PrefixVal(bytes, 5 + iv.shifts);
    }
  }

  lemma InsideBit(iv: Interval, prob: nat, bit: Bit, bytes: seq<Byte>)
    requires prob <= BIT_MODEL_TOTAL
    requires Inside(StepBit(iv, prob, bit), bytes)
    ensures Inside(Split(iv, prob, bit), bytes) && Inside(iv, bytes)
  {
    InsideNorm(Split(iv, prob, bit), bytes);
    BoundFits(iv.range, prob);
  }

  lemma InsideDirect(iv: Interval, bit: Bit, bytes: seq<Byte>)
    requires Inside(StepDirect(iv, bit), bytes)
    ensures Inside(Halve(iv, bit), bytes) && Inside(iv, bytes)
  {
    hide Val, Norm;
    InsideNorm(Halve(iv, bit), bytes);
    assert bit == 0 || bit == 1;
  }

  lemma TracksNorm(iv: Interval, d: Dec, bytes: seq<Byte>)
    requires Tracks(iv, d, bytes) && Inside(Norm(iv), bytes) && iv.range < WORD
    ensures Tracks(Norm(iv), DecNorm(d, bytes), bytes)
  {
    if iv.range < TOP {
      InsideNorm(iv, bytes);
      PrefixVal(bytes, 5 + iv.shifts);
      assert d.code * 256 + bytes[d.pos] < WORD;
    }
  }

  /** One modelled bit: the decoder reads back the bit that was encoded and
    * ends in the registers of the encoder's next interval. */
  lemma DecodeBitRecovers(iv: Interval, prob: nat, bit: Bit, d: Dec, bytes: seq<Byte>)
    requires prob <= BIT_MODEL_TOTAL && iv.range < WORD
    requires Inside(StepBit(iv, prob, bit), bytes) && Tracks(iv, d, bytes)
    ensures DecodeBit(d, prob, bytes).0 == bit
    ensures Tracks(StepBit(iv, prob, bit), DecodeBit(d, prob, bytes).1, bytes)
  {
    InsideBit(iv, prob, bit, bytes);
    var bound := Bound(iv.range, prob);
    BoundFits(iv.range, prob);
    if bit == 0 {
      TracksNorm(Split(iv, prob, bit), d.(range := bound), bytes);
    } else {
      TracksNorm(Split(iv, prob, bit), d.(code := d.code - bound, range := d.range - bound), bytes);
    }
  }

  lemma DecodeDirectRecovers(iv: Interval, bit: Bit, d: Dec, bytes: seq<Byte>)
    requires iv.range < WORD
    requires Inside(StepDirect(iv, bit), bytes) && Tracks(iv, d, bytes)
    ensures DecodeDirect(d, bytes).0 == bit
    ensures Tracks(StepDirect(iv, bit), DecodeDirect(d, bytes).1, bytes)
  {
    InsideDirect(iv, bit, bytes);
    var half := iv.range / 2;
    if bit == 0 {
      Wrap(d.code, half);
      TracksNorm(Halve(iv, bit), d.(range := half), bytes);
    } else {
      NoWrap(d.code, half);
      TracksNorm(Halve(iv, bit), d.(range := half, code := d.code - half), bytes);
    }
  }

  lemma Wrap(code: nat, half: nat)
    requires code < half < 0x8000_0000
    ensures (code - half) % WORD >= 0x8000_0000
    ensures ((code - half) % WORD + half) % WORD == code
  {
    DivModUnique(code - half, WORD, -1, code - half + WORD);
    DivModUnique(code + WORD, WORD, 1, code);
  }

  lemma NoWrap(code: nat, half: nat)
    requires half <= code < half + 0x8000_0000
    ensures (code - half) % WORD == code - half
  {
  }

  /** A stream inside the initial interval passes the checks of the decoder's
    * initialisation: its first byte is zero and its code is below its range. */
  lemma StartTracks(bytes: seq<Byte>)
    requires Inside(START, bytes)
    ensures !InitCorrupted(bytes)
    ensures Tracks(START, DecInit(bytes), bytes)
  {
    assert bytes[..0] == [];
    PrefixVal(bytes, 0);
    PrefixVal(bytes, 1);
    PrefixVal(bytes, 2);
    PrefixVal(bytes, 3);
    PrefixVal(bytes, 4);
  }

  /** Shifting a 32-bit word left by eight drops its top byte. */
  lemma DropTop(top: nat, rest: nat)
    requires rest < TOP
    ensures ((top * TOP + rest) * 256) % WORD == rest * 256
  {
    assert (top * TOP + rest) * 256 == top * WORD + rest * 256;
  }

  lemma SplitTop(x: nat)
    ensures x == (x / TOP) * TOP + x % TOP && x % TOP < TOP
  {
  }

  function ShiftWord(low: nat): nat { ((low % WORD) * 256) % WORD }

  lemma ShiftWordDropsTop(low: nat)
    ensures ShiftWord(low) == ((low % WORD) % TOP) * 256
  {
    SplitTop(low % WORD);
    DropTop((low % WORD) / TOP, (low % WORD) % TOP);
  }

  /** The numbers behind one shift: the offset is multiplied by 256, and the
    * room left above `low` stays below the next carry. */
  lemma ShiftArithmetic(v: nat, low: nat, width: nat)
    requires low + width <= 2 * WORD && 0 < width < TOP
    ensures low / WORD <= 1 && (low % WORD) / TOP < 256
    ensures ((v + low / WORD) * 256 + (low % WORD) / TOP) * WORD + ShiftWord(low) == (v * WORD + low) * 256
    ensures ShiftWord(low) + width * 256 <= 2 * WORD
    ensures low + width <= WORD ==> low < WORD
    ensures (low % WORD) / TOP == 255 && (low / WORD == 1 || low + width <= WORD) ==> ShiftWord(low) + width * 256 <= WORD
  {
    ShiftWordDropsTop(low);
    var c, r := (low % WORD) / TOP, (low % WORD) % TOP;
    SplitTop(low % WORD);
    assert low == (low / WORD) * WORD + c * TOP + r;
  }

  /** Four shifts push all of `low` out. */
  lemma FourShiftsEmpty(low: nat)
    ensures ShiftWord(ShiftWord(ShiftWord(ShiftWord(low)))) == 0
  {
    ShiftWordDropsTop(low);
    var r := (low % WORD) % TOP;
    var a := ShiftWord(low);
    assert a == 256 * r;
    ShiftWordDropsTop(a);
    ModScale(256, r, 0x1_0000);
    var b := ShiftWord(a);
    assert b == 0x1_0000 * (r % 0x1_0000);
    ShiftWordDropsTop(b);
    ModScale(0x1_0000, r % 0x1_0000, 0x100);
    var c := ShiftWord(b);
    assert c == TOP * ((r % 0x1_0000) % 0x100);
    ShiftWordDropsTop(c);
    ModScale(TOP, (r % 0x1_0000) % 0x100, 1);
  }

  // ------------------------------------------------------------ the machine

  /** `CRangeEnc`: `low` is a 33-bit accumulator, `cache` the byte held back for
    * a carry, `cacheSize` the number of 0xFF bytes pending behind it. `written`
    * is what the output stream has received; `buf` indexes the staging buffer. */
  class RangeEnc {
    var range: nat
    var cache: nat
    var low: nat
    var cacheSize: nat
    var bufBase: array<Byte>
    var buf: nat
    var written: seq<Byte>

    ghost predicate Staged()
      reads this, bufBase
    {
      bufBase.Length == RC_BUF_SIZE && buf < RC_BUF_SIZE
    }

    /** Every byte produced so far. */
    ghost function Emitted(): seq<Byte>
      reads this, bufBase
      requires Staged()
    {
      written + bufBase[..buf]
    }

    /** Emitted bytes, cached byte and pending 0xFF run. */
    ghost function Digits(): seq<Byte>
      reads this, bufBase
      requires Staged() && cache < 256
    {
      Emitted() + [cache] + Repeat(255, cacheSize)
    }

    /** The exact offset all of the state denotes together. */
    ghost function View(): Interval
      reads this, bufBase
      requires Staged() && cache < 256
    {
      Interval(Val(Digits()) * WORD + low, range, |Emitted()| + cacheSize)
    }

    /** Carry safety: whatever is still added to `low`, at most one carry can
      * leave it, and none can when the cached byte is 0xFF. */
    ghost predicate Carryable(width: nat)
      reads this
    {
      && cache < 256 && 0 < width
      && low + width <= 2 * WORD
      && (cache == 255 ==> low + width <= WORD)
    }

    ghost predicate Valid()
      reads this, bufBase
    {
      Staged() && Carryable(range) && TOP <= range < WORD
    }

    constructor Init()
      ensures Valid() && fresh(bufBase) && View() == START && Emitted() == []
    {
      range := INIT_RANGE;
      cache := 0;
      low := 0;
      cacheSize := 0;
      bufBase := new Byte[RC_BUF_SIZE](_ => 0);
      buf := 0;
      written := [];
      new;
      assert Emitted() == [];
      assert Digits() == [] + [0];
      ValSnoc([], 0);
    }

    method FlushStream()
      requires bufBase.Length == RC_BUF_SIZE && buf <= RC_BUF_SIZE
      modifies this`buf, this`written
      ensures Staged() && buf == 0
      ensures Emitted() == old(written + bufBase[..buf])
    {
      written := written + bufBase[..buf];
      buf := 0;
      assert bufBase[..0] == [];
    }

    method WriteByte(b: Byte)
      requires Staged()
      modifies this`buf, this`written, bufBase
      ensures Staged()
      ensures Emitted() == old(Emitted()) + [b]
    {
      bufBase[buf] := b;
      buf := buf + 1;
      assert bufBase[..buf] == old(bufBase[..buf]) + [b];
      assert written + bufBase[..buf] == old(Emitted()) + [b];
      if buf == RC_BUF_SIZE {
        FlushStream();
      }
    }

    method WritePending(fill: Byte)
      requires Staged()
      modifies this`cacheSize, this`buf, this`written, bufBase
      ensures Staged() && cacheSize == 0
      ensures Emitted() == old(Emitted()) + Repeat(fill, old(cacheSize))
    {
      ghost var pending := cacheSize;
      while cacheSize != 0
        invariant Staged() && cacheSize <= pending
        invariant Emitted() == old(Emitted()) + Repeat(fill, pending - cacheSize)
        decreases cacheSize
      {
        WriteByte(fill);
        cacheSize := cacheSize - 1;
        RepeatSnoc(fill, pending - cacheSize - 1);
      }
    }

    /** Writes the cached byte plus the carry, then the pending run, each byte
      * of which the carry turns from 0xFF to 0; `next` becomes the cached byte. */
    method WriteCarried(high: Bit, next: Byte)
      requires Staged() && cache < 256 && (cache == 255 ==> high == 0)
      modifies this`cache, this`cacheSize, this`buf, this`written, bufBase
      ensures Staged() && cacheSize == 0 && cache == next
      ensures Val(Digits()) == (Val(old(Digits())) + high) * 256 + next
      ensures Digits() == Emitted() + [next]
      ensures |Emitted()| == |old(Emitted())| + 1 + old(cacheSize)
    {
      ghost var emitted, c, pending := Emitted(), cache, cacheSize;
      var first: Byte := if high == 1 then cache + 1 else cache;
      var fill: Byte := if high == 1 then 0 else 0xFF;
      assert first == (cache + high) % 256 && fill == (0xFF + high) % 256;
      WriteByte(first);
      cache := next;
      WritePending(fill);
      assert Emitted() == emitted + [first] + Repeat(fill, pending);
      if high == 1 {
        CarryPropagates(emitted, c, pending);
      }
      assert Repeat(255, 0) == [];
      assert Digits() == Emitted() + [next];
      ValSnoc(Emitted(), next);
    }

    /** Adds one more 0xFF byte to the pending run. */
    method HoldBack()
      requires Staged() && cache < 256
      modifies this`cacheSize
      ensures Val(Digits()) == Val(old(Digits())) * 256 + 255 && cacheSize == old(cacheSize) + 1
    {
      ghost var digits := Digits();
      RepeatSnoc(255, cacheSize);
      cacheSize := cacheSize + 1;
      assert Digits() == digits + [255];
      ValSnoc(digits, 255);
    }

    /** Moves the top byte of `low` towards the output: the denoted offset is
      * multiplied by exactly 256, and no carry overflows the cached byte. The
      * ghost width is the part of the interval still open above `low`. */
    method ShiftLow(ghost width: nat)
      requires Staged() && Carryable(width) && width < TOP
      modifies this`low, this`cache, this`cacheSize, this`buf, this`written, bufBase
      ensures Staged() && Carryable(width * 256)
      ensures View() == Interval(old(View()).low * 256, range, old(View()).shifts + 1)
      ensures low == ShiftWord(old(low))
      ensures old(low) == 0 ==> cacheSize == 0 && cache == 0
    {
      var low32 := low % WORD;
      var high := low / WORD;
      ShiftArithmetic(Val(Digits()), low, width);
      low := (low32 * 256) % WORD;
      if low32 < 0xFF00_0000 || high != 0 {
        WriteCarried(high, low32 / TOP);
      } else {
        HoldBack();
      }
    }

    /** `RC_BIT`: encodes one bit under a probability and returns the adapted
      * probability. */
    method EncodeBit(prob: nat, bit: Bit) returns (prob': nat)
      requires Valid() && ValidProb(prob)
      modifies this`range, this`low, this`cache, this`cacheSize, this`buf, this`written, bufBase
      ensures Valid() && ValidProb(prob')
      ensures View() == StepBit(old(View()), prob, bit)
      ensures prob' == NextProb(prob, bit)
    {
      StepBitInRange(View(), prob, bit);
      BoundFits(range, prob);
      var newBound := (range / BIT_MODEL_TOTAL) * prob;
      if bit == 0 {
        range := newBound;
        prob' := prob + (BIT_MODEL_TOTAL - prob) / 32;
      } else {
        low := low + newBound;
        range := range - newBound;
        prob' := prob - prob / 32;
      }
      assert View() == Split(old(View()), prob, bit);
      Normalise();
    }

    /** One direct bit: `range >>= 1; low += range & (0 - bit)`. */
    method EncodeDirectBit(bit: Bit)
      requires Valid()
      modifies this`range, this`low, this`cache, this`cacheSize, this`buf, this`written, bufBase
      ensures Valid()
      ensures View() == StepDirect(old(View()), bit)
    {
      StepDirectInRange(View(), bit);
      range := range / 2;
      if bit == 1 {
        low := low + range;
      }
      assert View() == Halve(old(View()), bit);
      Normalise();
    }

    /** `RC_NORM`. */
    method Normalise()
      requires Staged() && Carryable(range) && 0x1_0000 <= range < WORD
      modifies this`range, this`low, this`cache, this`cacheSize, this`buf, this`written, bufBase
      ensures Valid()
      ensures View() == Norm(old(View()))
    {
      if range < TOP {
        ShiftLow(range);
        range := range * 256;
      }
    }

    /** `RangeEnc_FlushData`: five shifts, after which the emitted bytes denote
      * the accumulated offset itself. */
    method FlushData()
      requires Valid()
      modifies this`range, this`low, this`cache, this`cacheSize, this`buf, this`written, bufBase
      ensures Staged()
      ensures Val(Emitted()) == old(View().low)
      ensures |Emitted()| == old(View().shifts) + 5
    {
      hide *;
      Narrow(range);
      FourShiftsEmpty(low);
      ShiftLow(1);
      Narrow(256);
      ShiftLow(1);
      Narrow(256);
      ShiftLow(1);
      Narrow(256);
      ShiftLow(1);
      Narrow(256);
      ShiftLow(1);
      FlushedView();
    }

    lemma Narrow(width: nat)
      ensures Valid() ==> Staged() && Carryable(range) && range > 0
      ensures Carryable(width) && width > 0 ==> Carryable(1) && cache < 256
      ensures 1 < TOP && WORD == 0x1_0000_0000
    {
    }

    /** With nothing held back the offset is that of the emitted bytes. */
    lemma FlushedView()
      requires Staged() && cacheSize == 0 && cache == 0 && low == ShiftWord(0)
      ensures View().low == Val(Emitted()) * 256 * WORD && View().shifts == |Emitted()|
    {
      assert Digits() == Emitted() + [0];
      ValSnoc(Emitted(), 0);
    }

    /** `RangeEnc_FlushStream` at the end of the stream: everything produced has
      * been handed to the output. */
    method Take() returns (bytes: seq<Byte>)
      requires Staged()
      modifies this`buf, this`written
      ensures bytes == old(Emitted())
    {
      FlushStream();
      bytes := written;
      assert bufBase[..0] == [];
    }
  }
}
