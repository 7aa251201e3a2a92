/** Match distances (LzmaEnc.c): the slot table, its shifted lookup, and the
  * coding of slot and footer bits, decoded as the LZMA specification says. */
module Distance {
  import opened Arith
  import opened Words
  import opened LzmaSpec
  import opened RangeCoder
  import opened LzmaModel

  const NUM_LOG_BITS := 13          // kNumLogBits with a 64-bit size_t
  const TABLE_SIZE := 8192          // 1 << kNumLogBits
  const NUM_FULL_DISTANCES := 128
  const END_POS_MODEL_INDEX := 14
  const MAX_DISTANCE := 0x8000_0000

  // ------------------------------------------------------------------ slots

  /** The slot of a distance: twice its bit length, less two, plus its second
    * highest bit. */
  function Slot(pos: nat): (s: nat)
    ensures pos < 4 ==> s == pos
    ensures pos >= 4 ==> s >= 4
  {
    if pos < 4 then pos else Slot(pos / 2) + 2
  }

  ghost function Footer(slot: nat): nat
    requires slot >= 2
  {
    slot / 2 - 1
  }

  /** The smallest distance of a slot. */
  ghost function Base(slot: nat): nat
    requires slot >= 2
  {
    (2 + slot % 2) * Pow2(Footer(slot))
  }

  lemma {:induction false} SlotUnique(pos: nat, slot: nat)
    requires slot >= 2 && Base(slot) <= pos < Base(slot) + Pow2(Footer(slot))
    ensures Slot(pos) == slot
    decreases slot
  {
    if slot < 4 {
      assert Footer(slot) == 0;
    } else {
      BaseDoubles(slot);
      assert pos >= 4 by {
        BaseAtLeast(slot);
      }
      SlotUnique(pos / 2, slot - 2);
    }
  }

  lemma BaseDoubles(slot: nat)
    requires slot >= 4
    ensures Base(slot) == 2 * Base(slot - 2) && Pow2(Footer(slot)) == 2 * Pow2(Footer(slot - 2))
  {
    assert Footer(slot) == Footer(slot - 2) + 1;
    assert slot % 2 == (slot - 2) % 2;
    MulRegroups(2 + slot % 2, 2, Pow2(Footer(slot - 2)));
  }

  lemma BaseAtLeast(slot: nat)
    requires slot >= 4
    ensures Base(slot) >= 4
  {
    BaseDoubles(slot);
    MulMonotone(2, 2 + slot % 2, Pow2(Footer(slot - 2)));
  }

  lemma BaseNext(slot: nat)
    requires slot >= 2
    ensures Base(slot) + Pow2(Footer(slot)) == Base(slot + 1)
  {
    if slot % 2 == 0 {
      assert Footer(slot + 1) == Footer(slot);
    } else {
      assert Footer(slot + 1) == Footer(slot) + 1;
    }
  }

  /** Every distance of at least two lies in the interval of its slot. */
  lemma {:induction false} SlotInterval(pos: nat)
    requires pos >= 2
    ensures Slot(pos) >= 2
    ensures Base(Slot(pos)) <= pos < Base(Slot(pos)) + Pow2(Footer(Slot(pos)))
  {
    if pos < 4 {
      assert Footer(pos) == 0;
    } else {
      SlotInterval(pos / 2);
      BaseDoubles(Slot(pos));
    }
  }

  /** The bit-scan form of the slot, `(zz + zz) + ((pos >> (zz - 1)) & 1)` with
    * `zz` the index of the highest bit, is the same slot. */
  lemma {:induction false} SlotIsLogBased(pos: nat, zz: nat)
    requires zz >= 1 && Pow2(zz) <= pos < Pow2(zz + 1)
    ensures Slot(pos) == (zz + zz) + (pos / Pow2(zz - 1)) % 2
    decreases zz
  {
    if zz == 1 {
      assert Pow2(1) == 2 && Pow2(2) == 4 && Pow2(0) == 1;
    } else {
      Pow2Double(zz);
      Pow2Double(zz + 1);
      Pow2Double(zz - 1);
      assert pos >= 4;
      SlotIsLogBased(pos / 2, zz - 1);
      DivDiv(pos, 2, Pow2(zz - 2));
    }
  }

  /** Dropping low bits lowers the slot by two a bit. */
  lemma {:induction false} SlotShift(pos: nat, z: nat)
    requires pos / Pow2(z) >= 2
    ensures Slot(pos) == Slot(pos / Pow2(z)) + 2 * z
    decreases z
  {
    if z > 0 {
      Pow2Double(z);
      DivDiv(pos, 2, Pow2(z - 1));
      DivModEquation(pos, Pow2(z));
      MulMonotone(2, pos / Pow2(z), Pow2(z));
      assert pos >= 4;
      SlotShift(pos / 2, z - 1);
    }
  }

  /** `LzmaEnc_FastPosInit`: entry `i` of the table is the slot of `i`. */
  method FastPosInit() returns (g: array<nat>)
    ensures fresh(g) && g.Length == TABLE_SIZE
    ensures forall i :: 0 <= i < TABLE_SIZE ==> g[i] == Slot(i)
  {
    hide Base, Footer, Pow2, Slot;
    g := new nat[TABLE_SIZE](_ => 0);
    g[0] := 0;
    g[1] := 1;
    var ptr := 2;
    BaseOfTwo();
    for slot := 2 to 2 * NUM_LOG_BITS
      invariant ptr == Base(slot) && 2 <= ptr <= TABLE_SIZE
      invariant forall i :: 0 <= i < ptr ==> g[i] == Slot(i)
    {
      var k := HalfPower(slot / 2 - 1);
      FooterOf(slot);
      BaseNext(slot);
      BaseBounded(slot + 1);
      for j := 0 to k
        invariant forall i :: 0 <= i < ptr + j ==> g[i] == Slot(i)
      {
        SlotUnique(ptr + j, slot);
        g[ptr + j] := slot;
      }
      ptr := ptr + k;
    }
    BaseBounded(2 * NUM_LOG_BITS);
  }

  lemma BaseOfTwo()
    ensures Base(2) == 2
  {
  }

  lemma FooterOf(slot: nat)
    requires slot >= 2
    ensures Footer(slot) == slot / 2 - 1
  {
  }

  /** `(size_t)1 << n`. */
  function HalfPower(n: nat): (p: nat)
    ensures p == Pow2(n)
  {
    if n == 0 then 1 else 2 * HalfPower(n - 1)
  }

  lemma {:induction false} BaseMonotone(a: nat, b: nat)
    requires 2 <= a <= b
    ensures Base(a) <= Base(b)
    decreases b - a
  {
    if a < b {
      BaseNext(a);
      BaseMonotone(a + 1, b);
    }
  }

  lemma BaseBounded(slot: nat)
    requires 2 <= slot <= 2 * NUM_LOG_BITS
    ensures Base(slot) <= TABLE_SIZE
    ensures slot == 2 * NUM_LOG_BITS ==> Base(slot) == TABLE_SIZE
  {
    BaseMonotone(slot, 26);
    assert Pow2(6) == 64;
    Pow2Split(6, 6);
    assert Base(26) == 2 * Pow2(12);
  }

  lemma SmallShifts()
    ensures Pow2(6) == 64 && Pow2(18) == 0x4_0000
  {
    assert Pow2(6) == 64;
    Pow2Split(6, 6);
    Pow2Split(12, 6);
  }

  /** `GetPosSlot`: a table lookup, shifted for distances past the table. */
  method GetPosSlot(g: array<nat>, pos: nat) returns (slot: nat)
    requires g.Length == TABLE_SIZE && forall i :: 0 <= i < TABLE_SIZE ==> g[i] == Slot(i)
    requires pos < MAX_DISTANCE
    ensures slot == Slot(pos)
  {
    hide Slot, Pow2;
    SmallShifts();
    if pos < NUM_FULL_DISTANCES {
      slot := g[pos % NUM_FULL_DISTANCES];
    } else if pos < 0x8_0000 {
      SlotShift(pos, 6);
      slot := g[pos / 64] + 12;
    } else {
      SlotShift(pos, 18);
      slot := g[pos / 0x4_0000] + 36;
    }
  }

  // ----------------------------------------------------------------- coding

  function LenState(len: nat): nat
    requires len >= 2
  {
    if len < 5 then len - 2 else 3
  }

  /** `posSlotEncoder[lenState]`. */
  function PosSlotCells(lenState: nat): nat -> Cell { (m: nat) => PosSlot(lenState, m) }

  /** `posEncoders[i]`: the encoder leaves room for the slot numbers that the
    * specification takes off. */
  function PosCell(i: nat): Cell { PosDecoders(i - Slot(i)) }

  /** The reverse tree at `posEncoders + base`. */
  function PosCells(base: nat): nat -> Cell { (m: nat) => PosCell(base + m) }

  /** `posAlignEncoder`. */
  function AlignCells(): nat -> Cell { (m: nat) => Align(m) }

  /** The encoder's tree for a slot has its nodes where the specification has
    * them. */
  lemma SameFooterCells(slot: nat)
    requires slot >= 4
    ensures SameCells(PosCells(Base(slot)), FooterTree(Base(slot) - slot), Pow2(Footer(slot)))
  {
    hide Base, Footer, Pow2, Slot, PosCells, FooterTree;
    forall m: nat | 1 <= m < Pow2(Footer(slot)) ensures PosCells(Base(slot))(m) == FooterTree(Base(slot) - slot)(m) {
      SameFooterCell(slot, m);
    }
  }

  lemma SameFooterCell(slot: nat, m: nat)
    requires slot >= 4 && 1 <= m < Pow2(Footer(slot))
    ensures PosCells(Base(slot))(m) == FooterTree(Base(slot) - slot)(m)
  {
    hide Base, Footer, Pow2, Slot;
    var b := Base(slot);
    SlotUnique(b + m, slot);
    assert PosCells(b)(m) == PosCell(b + m);
    assert FooterTree(b - slot)(m) == PosDecoders(b - slot + m);
  }

  /** `(dist | 0xF) << (32 - footerBits)` on 32 bits. */
  ghost function DirectRegister(dist: nat, footerBits: nat): nat
    requires footerBits <= 32
  {
    ((dist / 16 * 16 + 15) * Pow2(32 - footerBits)) % WORD
  }

  ghost function FooterScript(dist: nat): seq<Sym>
    requires 4 <= dist
  {
    var slot := Slot(dist);
    var fb := Footer(slot);
    if dist < NUM_FULL_DISTANCES then
      ReverseScript(PosCells(Base(slot)), fb, 1, dist)
    else if 4 <= fb <= 32 then
      DirectScript(fb - 4, DirectRegister(dist, fb)) + ReverseScript(AlignCells(), 4, 1, dist)
    else []  // not a 32-bit distance
  }

  /** What `LzmaEnc_CodeOneBlock` writes for a distance. */
  ghost function DistScript(len: nat, dist: nat): seq<Sym>
    requires len >= 2
  {
    TreeScript(PosSlotCells(LenState(len)), 64, 6, 64 + Slot(dist))
    + if dist < 4 then [] else FooterScript(dist)
  }

  lemma FooterBounds(dist: nat)
    requires 4 <= dist < MAX_DISTANCE
    ensures 4 <= Slot(dist) < 62
    ensures dist < NUM_FULL_DISTANCES <==> Slot(dist) < END_POS_MODEL_INDEX
    ensures dist >= NUM_FULL_DISTANCES ==> 6 <= Footer(Slot(dist)) <= 29
  {
    SlotInterval(dist);
    assert Base(14) == 2 * Pow2(6) && Pow2(6) == 64;
    Pow2At28();
    assert Base(62) == 2 * Pow2(30) && Pow2(30) == 4 * Pow2(28);
    if Slot(dist) >= 14 {
      BaseMonotone(14, Slot(dist));
    } else {
      BaseNext(Slot(dist));
      BaseMonotone(Slot(dist) + 1, 14);
    }
    if Slot(dist) >= 62 {
      BaseMonotone(62, Slot(dist));
    }
  }

  /** Slot and footer reconstruct the distance. */
  lemma FooterRest(dist: nat)
    requires dist >= 4
    ensures Slot(dist) >= 2
    ensures dist % Pow2(Footer(Slot(dist))) == dist - Base(Slot(dist))
  {
    SlotInterval(dist);
    var p := Pow2(Footer(Slot(dist)));
    var k := 2 + Slot(dist) % 2;
    DivModUnique(dist, p, k, dist - k * p);
  }

  /** The register of the direct-bit loop holds the bits above the four aligned
    * ones followed by the sentinel, so the loop sends exactly those bits. */
  lemma RegisterIsSentinel(dist: nat, fb: nat)
    requires 4 <= fb <= 32
    ensures (dist % Pow2(fb)) / 16 < Pow2(fb - 4)
    ensures DirectRegister(dist, fb) == Sentinel(fb - 4, (dist % Pow2(fb)) / 16)
  {
    hide Pow2, Pattern;
    var p, u := Pow2(fb - 4), Pow2(32 - fb);
    Pow2At28();
    Pow2Split(4, fb - 4);
    Pow2Split(fb, 32 - fb);
    Pow2Split(4, 28);
    DivModEquation(dist, Pow2(fb));
    var low, high := dist % Pow2(fb), dist / Pow2(fb);
    SplitAligned(high, low, p, dist);
    SentinelExit(fb - 4, low / 16);
    RegisterArithmetic(high, low / 16, p, u);
  }

  lemma SplitAligned(high: nat, low: nat, p: nat, x: nat)
    requires x == 16 * p * high + low && low < 16 * p
    ensures x / 16 == p * high + low / 16 && x % 16 == low % 16 && low / 16 < p
  {
    assert 16 * p * high == 16 * (p * high) by {
      MulRegroups(16, p, high);
      MulRegroups(p, 16, high);
    }
    DivModUnique(x, 16, p * high + low / 16, low % 16);
  }

  lemma RegisterArithmetic(high: nat, q: nat, p: nat, u: nat)
    requires 16 * p * u == WORD && Pattern(q, u) < WORD
    ensures ((p * high + q) * 16 + 15) * u % WORD == Pattern(q, u)
  {
    assert ((p * high + q) * 16 + 15) * u == WORD * high + Pattern(q, u) by {
      MulDistributes(16 * (p * high), 16 * q + 15, u);
      assert (16 * (p * high)) * u == WORD * high by {
        assert 16 * (p * high) == (16 * p) * high;
        MulRegroups(16 * p, high, u);
      }
    }
    DivModUnique(((p * high + q) * 16 + 15) * u, WORD, high, Pattern(q, u));
  }

  /** Distance coding is exact for every distance below two to the 31. */
  lemma DecodeDistanceRecovers(e: Coder, ds: DecState, len: nat, dist: nat, bytes: seq<Byte>)
    requires len >= 2 && dist < MAX_DISTANCE
    requires Follows(e, ds, bytes) && Leads(Run(e, DistScript(len, dist)), bytes)
    ensures DecodeDistance(ds, len - 2, bytes).0 == dist
    ensures Follows(Run(e, DistScript(len, dist)), DecodeDistance(ds, len - 2, bytes).1, bytes)
  {
    hide Run, Follows, Leads, TreeScript, TreeDecode, ReverseScript, ReverseDecode, DirectScript, DirectDecode, Slot;
    var f, g := PosSlotCells(LenState(len)), SlotTree(LenState(len));
    SlotCellsAgree(len);
    var head := TreeScript(f, 64, 6, 64 + Slot(dist));
    var tail := if dist < 4 then [] else FooterScript(dist);
    FollowsValid(e, ds, bytes);
    RunAppend(e, head, tail);
    LeadsRun(Run(e, head), tail, bytes);
    SlotBelow64(dist);
    TreeDecodeRecovers(e, ds, f, g, 64, 6, 64 + Slot(dist), 1, bytes);
    TreeEndFull(64, 6, Slot(dist));
    var ds1 := TreeDecode(ds, g, 6, 1, bytes).1;
    if dist < 4 {
      RunEmpty(Run(e, head));
    } else {
      DecodeFooterRecovers(Run(e, head), ds1, dist, bytes);
    }
  }

  lemma SlotCellsAgree(len: nat)
    requires len >= 2
    ensures SameCells(PosSlotCells(LenState(len)), SlotTree(LenState(len)), 64) && InTree(1, 6, 64)
    ensures LenState(len) == if len - 2 > 3 then 3 else len - 2
  {
    InTreeRoot(6);
    TreeSizes();
  }

  lemma AlignCellsAgree()
    ensures SameCells(AlignCells(), AlignTree(), 16) && InTree(1, 4, 16)
  {
    InTreeRoot(4);
    TreeSizes();
  }

  lemma FollowsValid(e: Coder, ds: DecState, bytes: seq<Byte>)
    requires Follows(e, ds, bytes)
    ensures ValidCoder(e)
  {
  }

  lemma SlotBelow64(dist: nat)
    requires dist < MAX_DISTANCE
    ensures Slot(dist) < 62 && (Slot(dist) < 4 <==> dist < 4) && (dist < 4 ==> Slot(dist) == dist)
  {
    if dist >= 4 {
      FooterBounds(dist);
    }
  }

  lemma DecodeFooterRecovers(e: Coder, ds: DecState, dist: nat, bytes: seq<Byte>)
    requires 4 <= dist < MAX_DISTANCE
    requires Follows(e, ds, bytes) && Leads(Run(e, FooterScript(dist)), bytes)
    ensures Slot(dist) >= 4
    ensures DecodeFooter(ds, Slot(dist), bytes).0 == dist
    ensures Follows(Run(e, FooterScript(dist)), DecodeFooter(ds, Slot(dist), bytes).1, bytes)
  {
    hide Run, Follows, Leads, ReverseScript, ReverseDecode, DirectScript, DirectDecode, Slot, Sentinel, DirectRegister, Pow2;
    var slot := Slot(dist);
    FooterBounds(dist);
    FooterRest(dist);
    FollowsValid(e, ds, bytes);
    var fb := Footer(slot);
    if dist < NUM_FULL_DISTANCES {
      SameFooterCells(slot);
      InTreeRoot(fb);
      ReverseDecodeRecovers(e, ds, PosCells(Base(slot)), FooterTree(Base(slot) - slot), Pow2(fb), fb, 1, dist, bytes);
    } else {
      RegisterIsSentinel(dist, fb);
      var q := (dist % Pow2(fb)) / 16;
      SentinelExit(fb - 4, q);
      var direct := DirectScript(fb - 4, Sentinel(fb - 4, q));
      var align := ReverseScript(AlignCells(), 4, 1, dist);
      RunAppend(e, direct, align);
      LeadsRun(Run(e, direct), align, bytes);
      DirectDecodeRecovers(e, ds, fb - 4, q, 0, bytes);
      var ds2 := DirectDecode(ds, fb - 4, 0, bytes).1;
      AlignCellsAgree();
      ReverseDecodeRecovers(Run(e, direct), ds2, AlignCells(), AlignTree(), 16, 4, 1, dist, bytes);
      AlignedParts(dist, fb);
    }
  }

  lemma AlignedParts(dist: nat, fb: nat)
    requires fb >= 4
    ensures ((dist % Pow2(fb)) / 16) * 16 + dist % Pow2(4) == dist % Pow2(fb)
  {
    hide Pow2;
    Pow2At28();
    Pow2Split(4, fb - 4);
    AlignedSum(dist, Pow2(fb), Pow2(fb - 4));
    ModSixteen(dist, Pow2(4));
  }

  lemma ModSixteen(x: nat, u: nat)
    requires u == 16
    ensures x % u == x % 16
  {
  }

  lemma AlignedSum(x: nat, d: nat, p: nat)
    requires d == 16 * p && d > 0
    ensures ((x % d) / 16) * 16 + x % 16 == x % d
  {
    var high, low := Parts(x, d);
    ScaleEqual(d, p, high);
    SixteenParts(high, low, p, x);
  }

  lemma Parts(x: nat, d: nat) returns (high: nat, low: nat)
    requires d > 0
    ensures x == d * high + low && low == x % d && low < d
  {
    high, low := x / d, x % d;
    DivModEquation(x, d);
  }

  lemma ScaleEqual(d: nat, p: nat, h: nat)
    requires d == 16 * p
    ensures d * h == 16 * p * h
  {
  }

  lemma SixteenParts(high: nat, low: nat, p: nat, x: nat)
    requires x == 16 * p * high + low && low < 16 * p
    ensures (low / 16) * 16 + x % 16 == low
  {
    SplitAligned(high, low, p, x);
  }

  lemma RunEmpty(e: Coder)
    requires ValidCoder(e)
    ensures Run(e, []) == e
  {
  }

  /** The cells of different slots never collide in `posEncoders`, neither in
    * the encoder's layout nor in the specification's. */
  lemma PosSpecialDisjoint(slot1: nat, m1: nat, slot2: nat, m2: nat)
    requires 4 <= slot1 < slot2 < END_POS_MODEL_INDEX
    requires 1 <= m1 < Pow2(Footer(slot1)) && 1 <= m2 < Pow2(Footer(slot2))
    ensures Base(slot1) + m1 != Base(slot2) + m2
    ensures Base(slot1) + m1 - slot1 != Base(slot2) + m2 - slot2
  {
    BaseNext(slot1);
    BaseMonotone(slot1 + 1, slot2);
    SpecLayoutMonotone(slot1 + 1, slot2);
  }

  lemma {:induction false} SpecLayoutMonotone(a: nat, b: nat)
    requires 2 <= a <= b
    ensures Base(a) - a <= Base(b) - b
    decreases b - a
  {
    if a < b {
      BaseNext(a);
      SpecLayoutMonotone(a + 1, b);
    }
  }
}
