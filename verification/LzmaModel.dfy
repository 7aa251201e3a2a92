/** Adaptive bit coding over probability cells: what a script of coded bits does
  * to the encoder, and that the building blocks of the specification's decoder
  * (bit trees, reverse bit trees, direct bits) read back what the encoder's
  * blocks wrote, whenever both place a node in the same cell. */
module LzmaModel {
  import opened Arith
  import opened Words
  import opened LzmaSpec
  import opened RangeCoder

  const PROB_INIT := 1024

  /** Cells that were never touched hold the initial value. */
  function ProbOf(probs: Probs, c: Cell): nat {
    if c in probs then probs[c] else PROB_INIT
  }

  ghost predicate ValidProbs(probs: Probs) {
    forall c :: c in probs ==> ValidProb(probs[c])
  }

  datatype Sym = Sym(choice: Choice, bit: Bit)

  // ---------------------------------------------------------------- encoder

  datatype Coder = Coder(iv: Interval, probs: Probs)

  ghost predicate ValidCoder(e: Coder) {
    InRange(e.iv) && ValidProbs(e.probs)
  }

  ghost function CoderStart(): (e: Coder)
    ensures ValidCoder(e)
  {
    Coder(START, map[])
  }

  ghost function Step(e: Coder, s: Sym): (e': Coder)
    requires ValidCoder(e)
    ensures ValidCoder(e')
  {
    match s.choice
    case Direct =>
      StepDirectInRange(e.iv, s.bit);
      e.(iv := StepDirect(e.iv, s.bit))
    case Modeled(c) =>
      var p := ProbOf(e.probs, c);
      StepBitInRange(e.iv, p, s.bit);
      NextProbValid(p, s.bit);
      Coder(StepBit(e.iv, p, s.bit), e.probs[c := NextProb(p, s.bit)])
  }

  ghost function Run(e: Coder, script: seq<Sym>): (e': Coder)
    requires ValidCoder(e)
    ensures ValidCoder(e')
    decreases |script|
  {
    if script == [] then e else Run(Step(e, script[0]), script[1..])
  }

  lemma {:induction false} RunAppend(e: Coder, a: seq<Sym>, b: seq<Sym>)
    requires ValidCoder(e)
    ensures Run(e, a + b) == Run(Run(e, a), b)
    decreases |a|
  {
    if a == [] {
      assert a + b == b;
    } else {
      assert (a + b)[1..] == a[1..] + b;
      RunAppend(Step(e, a[0]), a[1..], b);
    }
  }

  lemma RunCons(e: Coder, s: Sym, rest: seq<Sym>)
    requires ValidCoder(e)
    ensures Run(e, [s] + rest) == Run(Step(e, s), rest)
  {
    assert ([s] + rest)[1..] == rest;
  }

  lemma RunOne(e: Coder, s: Sym)
    requires ValidCoder(e)
    ensures Run(e, [s]) == Step(e, s)
  {
    RunCons(e, s, []);
    assert [s] + [] == [s];
  }

  // ---------------------------------------------------------------- decoder

  /** The decoder is where the encoder was when it had written this much. */
  ghost predicate Follows(e: Coder, ds: DecState, bytes: seq<Byte>) {
    ValidCoder(e) && Tracks(e.iv, ds.d, bytes) && ds.probs == e.probs
  }

  /** The final bytes were produced by a continuation of this encoder state. */
  ghost predicate Leads(e: Coder, bytes: seq<Byte>) {
    Inside(e.iv, bytes)
  }

  lemma LeadsStep(e: Coder, s: Sym, bytes: seq<Byte>)
    requires ValidCoder(e) && Leads(Step(e, s), bytes)
    ensures Leads(e, bytes)
  {
    match s.choice
    case Direct => InsideDirect(e.iv, s.bit, bytes);
    case Modeled(c) => InsideBit(e.iv, ProbOf(e.probs, c), s.bit, bytes);
  }

  lemma {:induction false} LeadsRun(e: Coder, script: seq<Sym>, bytes: seq<Byte>)
    requires ValidCoder(e) && Leads(Run(e, script), bytes)
    ensures Leads(e, bytes)
    decreases |script|
  {
    if script != [] {
      LeadsRun(Step(e, script[0]), script[1..], bytes);
      LeadsStep(e, script[0], bytes);
    }
  }

  lemma Decode1Recovers(e: Coder, s: Sym, ds: DecState, bytes: seq<Byte>)
    requires Follows(e, ds, bytes) && Leads(Step(e, s), bytes)
    ensures Decode1(ds, s.choice, bytes).0 == s.bit
    ensures Follows(Step(e, s), Decode1(ds, s.choice, bytes).1, bytes)
  {
    match s.choice
    case Direct => DecodeDirectRecovers(e.iv, s.bit, ds.d, bytes);
    case Modeled(c) =>
      DecodeBitRecovers(e.iv, ProbOf(e.probs, c), s.bit, ds.d, bytes);
  }

  /** `Decode1Recovers` at the head of a longer script. */
  lemma DecodeHead(e: Coder, s: Sym, rest: seq<Sym>, ds: DecState, bytes: seq<Byte>)
    requires Follows(e, ds, bytes) && Leads(Run(e, [s] + rest), bytes)
    ensures Decode1(ds, s.choice, bytes).0 == s.bit
    ensures Follows(Step(e, s), Decode1(ds, s.choice, bytes).1, bytes)
    ensures Run(e, [s] + rest) == Run(Step(e, s), rest)
  {
    RunCons(e, s, rest);
    LeadsRun(Step(e, s), rest, bytes);
    Decode1Recovers(e, s, ds, bytes);
  }

  // ------------------------------------------------- losslessness, bit by bit

  /** Any adaptive model: which cell (or none) codes the next bit may depend on
    * every bit coded before it. */
  type Model = seq<Bit> -> Choice

  ghost function ModelScript(model: Model, past: seq<Bit>, bits: seq<Bit>): (s: seq<Sym>)
    ensures |s| == |bits|
    decreases |bits|
  {
    if bits == [] then []
    else [Sym(model(past), bits[0])] + ModelScript(model, past + [bits[0]], bits[1..])
  }

  ghost function DecodeAll(ds: DecState, model: Model, past: seq<Bit>, n: nat, bytes: seq<Byte>): seq<Bit>
    decreases n
  {
    if n == 0 then []
    else
      var (bit, ds') := Decode1(ds, model(past), bytes);
      [bit] + DecodeAll(ds', model, past + [bit], n - 1, bytes)
  }

  lemma {:induction false} DecodeAllRecovers(e: Coder, ds: DecState, model: Model, past: seq<Bit>, bits: seq<Bit>, bytes: seq<Byte>)
    requires Follows(e, ds, bytes) && Leads(Run(e, ModelScript(model, past, bits)), bytes)
    ensures DecodeAll(ds, model, past, |bits|, bytes) == bits
    decreases |bits|
  {
    hide Decode1, Step, Inside, Tracks, ValidProbs, Val;
    if bits != [] {
      var s := Sym(model(past), bits[0]);
      DecodeHead(e, s, ModelScript(model, past + [bits[0]], bits[1..]), ds, bytes);
      var ds' := Decode1(ds, s.choice, bytes).1;
      DecodeAllRecovers(Step(e, s), ds', model, past + [bits[0]], bits[1..], bytes);
    }
  }

  /** What `RangeEnc_FlushData` guarantees of the final bytes. */
  ghost predicate Flushed(e: Coder, bytes: seq<Byte>) {
    Val(bytes) == e.iv.low && |bytes| == e.iv.shifts + 5
  }

  lemma FlushedLeads(e: Coder, bytes: seq<Byte>)
    requires ValidCoder(e) && Flushed(e, bytes)
    ensures Leads(e, bytes)
  {
    assert bytes[..|bytes|] == bytes;
  }

  /** The range coder is lossless: for every sequence of bits and every adaptive
    * model, the specification's decoder accepts the flushed bytes and reads the
    * same bits back. */
  lemma RangeCoderLossless(model: Model, bits: seq<Bit>, bytes: seq<Byte>)
    requires Flushed(Run(CoderStart(), ModelScript(model, [], bits)), bytes)
    ensures !InitCorrupted(bytes)
    ensures DecodeAll(DecStart(bytes), model, [], |bits|, bytes) == bits
  {
    hide Decode1, Step, Inside, ValidProbs, Val, Run, DecodeAll, ModelScript;
    var script := ModelScript(model, [], bits);
    FlushedLeads(Run(CoderStart(), script), bytes);
    LeadsRun(CoderStart(), script, bytes);
    StartTracks(bytes);
    DecodeAllRecovers(CoderStart(), DecStart(bytes), model, [], bits, bytes);
  }

  // -------------------------------------------------------------- bit trees

  /** The bits `LitEnc_Encode` and its unrolled copies emit: `sym` carries a
    * leading one above the symbol, `unit` is two to the number of tree levels. */
  ghost function TreeScript(f: nat -> Cell, unit: nat, n: nat, sym: nat): (s: seq<Sym>)
    requires unit in {8, 64, 256}
    ensures |s| == n
  {
    if n == 0 then []
    else [Sym(Modeled(f(sym / unit)), (sym / (unit / 2)) % 2)] + TreeScript(f, unit, n - 1, sym * 2)
  }

  /** The encoder's and the decoder's layouts agree on the nodes of a tree. */
  ghost predicate SameCells(f: nat -> Cell, g: nat -> Cell, unit: nat) {
    forall m: nat :: 1 <= m < unit ==> f(m) == g(m)
  }

  /** Node `m` has `n` levels below it. */
  ghost predicate InTree(m: nat, n: nat, unit: nat) {
    m >= 1 && (m + 1) * Pow2(n) <= 2 * unit
  }

  lemma InTreeStep(m: nat, n: nat, unit: nat, bit: Bit)
    requires InTree(m, n, unit) && n > 0
    ensures 1 <= m < unit && InTree(2 * m + bit, n - 1, unit)
  {
    var p := Pow2(n - 1);
    assert (m + 1) * (2 * p) == (2 * m + 2) * p;
    MulMonotone(2 * m + bit + 1, 2 * m + 2, p);
    MulMonotone(m + 1, (m + 1) * p, 1);
    MulAtLeast(m + 1, p);
  }

  lemma TreeSizes()
    ensures Pow2(3) == 8 && Pow2(4) == 16 && Pow2(6) == 64 && Pow2(8) == 256
  {
    assert Pow2(3) == 8;
    assert Pow2(6) == 8 * Pow2(3);
    assert Pow2(8) == 4 * Pow2(6);
  }

  lemma InTreeRoot(n: nat)
    ensures InTree(1, n, Pow2(n))
  {
  }

  /** The node a script of `n` levels ends in. */
  ghost function TreeEnd(unit: nat, n: nat, sym: nat): nat
    requires unit in {8, 64, 256}
    decreases n
  {
    if n == 0 then sym / unit else TreeEnd(unit, n - 1, sym * 2)
  }

  lemma {:induction false} TreeEndValue(unit: nat, n: nat, sym: nat)
    requires unit in {8, 64, 256}
    ensures TreeEnd(unit, n, sym) == (sym * Pow2(n)) / unit
    decreases n
  {
    if n > 0 {
      TreeEndValue(unit, n - 1, sym * 2);
      MulRegroups(2, sym, Pow2(n - 1));
      assert sym * 2 * Pow2(n - 1) == sym * Pow2(n);
    }
  }

  /** A full tree carries the symbol below the leading one. */
  lemma TreeEndFull(unit: nat, n: nat, sym: nat)
    requires (unit, n) in {(8, 3), (64, 6), (256, 8)}
    ensures TreeEnd(unit, n, unit + sym) == unit + sym
  {
    TreeEndValue(unit, n, unit + sym);
    TreeSizes();
    DivModUnique((unit + sym) * unit, unit, unit + sym, 0);
  }

  lemma TreeBit(sym: nat, unit: nat)
    requires unit in {8, 64, 256}
    ensures (sym * 2) / unit == 2 * (sym / unit) + (sym / (unit / 2)) % 2
  {
    var h := unit / 2;
    DivDouble(sym, h);
    DivDiv(sym, h, 2);
    ParityOf(sym / h);
  }

  lemma ParityOf(q: nat)
    ensures q == 2 * (q / 2) + q % 2
  {
  }

  lemma {:induction false} TreeDecodeRecovers(e: Coder, ds: DecState, f: nat -> Cell, g: nat -> Cell, unit: nat, n: nat, sym: nat, m: nat, bytes: seq<Byte>)
    requires unit in {8, 64, 256} && m == sym / unit
    requires SameCells(f, g, unit) && InTree(m, n, unit)
    requires Follows(e, ds, bytes) && Leads(Run(e, TreeScript(f, unit, n, sym)), bytes)
    ensures TreeDecode(ds, g, n, m, bytes).0 == TreeEnd(unit, n, sym)
    ensures Follows(Run(e, TreeScript(f, unit, n, sym)), TreeDecode(ds, g, n, m, bytes).1, bytes)
    decreases n
  {
    hide Decode1, Step, Inside, Tracks, ValidProbs, Val, InTree;
    if n > 0 {
      TreeBit(sym, unit);
      var bit := (sym / (unit / 2)) % 2;
      InTreeStep(m, n, unit, bit);
      var s := Sym(Modeled(f(m)), bit);
      DecodeHead(e, s, TreeScript(f, unit, n - 1, sym * 2), ds, bytes);
      TreeDecodeRecovers(Step(e, s), Decode1(ds, s.choice, bytes).1, f, g, unit, n - 1, sym * 2, 2 * m + bit, bytes);
    }
  }

  // ------------------------------------------------------ reverse bit trees

  /** The bits of `RcTree_ReverseEncode`, least significant first. */
  ghost function ReverseScript(f: nat -> Cell, n: nat, m: nat, sym: nat): (s: seq<Sym>)
    ensures |s| == n
  {
    if n == 0 then []
    else [Sym(Modeled(f(m)), sym % 2)] + ReverseScript(f, n - 1, 2 * m + sym % 2, sym / 2)
  }

  lemma {:induction false} ReverseDecodeRecovers(e: Coder, ds: DecState, f: nat -> Cell, g: nat -> Cell, unit: nat, n: nat, m: nat, sym: nat, bytes: seq<Byte>)
    requires SameCells(f, g, unit) && InTree(m, n, unit)
    requires Follows(e, ds, bytes) && Leads(Run(e, ReverseScript(f, n, m, sym)), bytes)
    ensures ReverseDecode(ds, g, n, m, bytes).0 == sym % Pow2(n)
    ensures Follows(Run(e, ReverseScript(f, n, m, sym)), ReverseDecode(ds, g, n, m, bytes).1, bytes)
    decreases n
  {
    hide Decode1, Step, Inside, Tracks, ValidProbs, Val, InTree;
    if n > 0 {
      InTreeStep(m, n, unit, sym % 2);
      var s := Sym(Modeled(f(m)), sym % 2);
      DecodeHead(e, s, ReverseScript(f, n - 1, 2 * m + sym % 2, sym / 2), ds, bytes);
      ReverseDecodeRecovers(Step(e, s), Decode1(ds, s.choice, bytes).1, f, g, unit, n - 1, 2 * m + s.bit, sym / 2, bytes);
      HalveMod(sym, Pow2(n - 1));
    }
  }

  // ------------------------------------------------------------ direct bits

  /** Direct bits leave the register at its top end. */
  ghost function DirectScript(n: nat, reg: nat): (s: seq<Sym>)
    requires reg < WORD
    ensures |s| == n
  {
    if n == 0 then []
    else [Sym(Direct, reg / 0x8000_0000)] + DirectScript(n - 1, (reg * 2) % WORD)
  }

  /** The register of the direct-bit loop when `n` bits of `q` are still to be
    * sent: `q`, four sentinel ones, zeroes. */
  ghost function Sentinel(n: nat, q: nat): nat
    requires n <= 28
  {
    Pattern(q, Pow2(28 - n))
  }

  function Pattern(q: nat, p: nat): nat { (16 * q + 15) * p }

  /** The loop leaves exactly when all `n` bits are sent: the register equals the
    * sentinel pattern 0xF0000000 for no other `n`. */
  lemma SentinelExit(n: nat, q: nat)
    requires n <= 28 && q < Pow2(n)
    ensures Sentinel(n, q) < WORD
    ensures Sentinel(n, q) == 0xF000_0000 <==> n == 0
  {
    hide Pow2, Pattern;
    Pow2At28();
    Pow2Split(n, 28 - n);
    SentinelBound(q, Pow2(n), Pow2(28 - n));
    if n == 0 {
      SentinelFirst();
    } else {
      Pow2Double(n);
      SentinelOdd(q, Pow2(n), Pow2(28 - n));
    }
  }

  lemma SentinelFirst()
    ensures Pattern(0, 0x1000_0000) == 0xF000_0000
  {
  }

  lemma SentinelBound(q: nat, h: nat, p: nat)
    requires q < h && h * p == 0x1000_0000 && p > 0
    ensures Pattern(q, p) < WORD
  {
    MulMonotone(16 * q + 16, 16 * h, p);
    MulRegroups(16, h, p);
    MulDistributes(16 * q + 15, 1, p);
  }

  lemma SentinelOdd(q: nat, h: nat, p: nat)
    requires h * p == 0x1000_0000 && p > 0 && h % 2 == 0
    ensures Pattern(q, p) != 0xF000_0000
  {
    if Pattern(q, p) == 0xF000_0000 {
      MulRegroups(15, h, p);
      MulCancels(16 * q + 15, 15 * h, p);
      assert false;
    }
  }

  /** One turn of the loop sends the top bit of what is left of `q`. */
  lemma SentinelStep(n: nat, q: nat)
    requires 0 < n <= 28 && q < Pow2(n)
    ensures Sentinel(n, q) < WORD
    ensures Sentinel(n, q) / 0x8000_0000 == q / Pow2(n - 1) <= 1
    ensures (Sentinel(n, q) * 2) % WORD == Sentinel(n - 1, q % Pow2(n - 1))
  {
    hide Pow2, Pattern;
    SentinelExit(n, q);
    Pow2At28();
    Pow2Split(n, 28 - n);
    Pow2Double(n);
    Pow2Double(28 - (n - 1));
    MulRegroups(2, Pow2(n - 1), Pow2(28 - n));
    PatternStep(q, Pow2(n - 1), Pow2(28 - n));
  }

  lemma PatternStep(q: nat, h: nat, p: nat)
    requires h > 0 && p > 0 && 2 * (h * p) == 0x1000_0000 && q < 2 * h
    ensures Pattern(q, p) / 0x8000_0000 == q / h <= 1
    ensures (Pattern(q, p) * 2) % WORD == Pattern(q % h, 2 * p)
  {
    DivModEquation(q, h);
    assert q / h <= 1 by {
      QuotientAtMostOne(q, h);
    }
    MulRegroups(h, 2, p);
    assert h * (2 * p) == 2 * (h * p);
    SentinelBound(q % h, h, 2 * p);
    SentinelShift(q, q / h, q % h, h, p);
  }

  lemma SentinelShift(q: nat, top: nat, rest: nat, h: nat, p: nat)
    requires h * p == 0x800_0000 && q == h * top + rest
    requires Pattern(rest, 2 * p) < WORD
    requires top <= 1
    ensures Pattern(q, p) / 0x8000_0000 == top
    ensures (Pattern(q, p) * 2) % WORD == Pattern(rest, 2 * p)
  {
    var s := Pattern(rest, p);
    assert Pattern(q, p) == top * 0x8000_0000 + s by {
      MulDistributes(16 * (h * top), 16 * rest + 15, p);
      MulRegroups(h, top, p);
      assert (16 * (h * top)) * p == 16 * ((h * top) * p) by {
        MulRegroups(16, h * top, p);
        MulRegroups(h * top, 16, p);
      }
    }
    assert Pattern(rest, 2 * p) == 2 * s by {
      MulRegroups(16 * rest + 15, 2, p);
      assert (16 * rest + 15) * (2 * p) == 2 * ((16 * rest + 15) * p);
    }
    DivModUnique(Pattern(q, p), 0x8000_0000, top, s);
    DivModUnique(Pattern(q, p) * 2, WORD, top, 2 * s);
  }

  lemma JoinTop(res: nat, top: nat, h: nat, rest: nat)
    ensures (2 * res + top) * h + rest == res * (2 * h) + (h * top + rest)
  {
    MulDistributes(2 * res, top, h);
    MulRegroups(2, res, h);
  }

  lemma {:induction false} DirectDecodeRecovers(e: Coder, ds: DecState, n: nat, q: nat, res: nat, bytes: seq<Byte>)
    requires n <= 28 && q < Pow2(n) && Sentinel(n, q) < WORD
    requires Follows(e, ds, bytes) && Leads(Run(e, DirectScript(n, Sentinel(n, q))), bytes)
    ensures DirectDecode(ds, n, res, bytes).0 == res * Pow2(n) + q
    ensures Follows(Run(e, DirectScript(n, Sentinel(n, q))), DirectDecode(ds, n, res, bytes).1, bytes)
    decreases n
  {
    hide Decode1, Step, Inside, Tracks, ValidProbs, Val, Pattern, Pow2;
    if n == 0 {
      Pow2At28();
    } else {
      Pow2Double(n);
      SentinelStep(n, q);
      var rest := q % Pow2(n - 1);
      SentinelExit(n - 1, rest);
      var s := Sym(Direct, q / Pow2(n - 1));
      DecodeHead(e, s, DirectScript(n - 1, Sentinel(n - 1, rest)), ds, bytes);
      DirectDecodeRecovers(Step(e, s), Decode1(ds, Direct, bytes).1, n - 1, rest, 2 * res + s.bit, bytes);
      DivModEquation(q, Pow2(n - 1));
      JoinTop(res, s.bit, Pow2(n - 1), rest);
    }
  }
}
