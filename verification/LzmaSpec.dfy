/** The decoder of the LZMA specification, on its own: properties, range decoder,
  * bit trees, lengths, distances and the main loop, in the specification's
  * numbers. Nothing here is shared with the encoder but the types of bytes. */
module LzmaSpec {
  import opened Options
  import opened Arith
  import opened Words

  // ------------------------------------------------------------- properties

  const LZMA_DIC_MIN: nat := 4096

  datatype Properties = Properties(lc: nat, lp: nat, pb: nat, dict: nat)

  /** The dictionary size in the four bytes behind the first. */
  function DictSize(props: seq<Byte>): nat
    requires |props| >= 5
  {
    props[1] + 0x100 * (props[2] as nat) + 0x1_0000 * (props[3] as nat) + 0x100_0000 * (props[4] as nat)
  }

  /** `DecodeProperties`: three numbers in one byte, then the dictionary. */
  function DecodeProperties(props: seq<Byte>): Option<Properties> {
    if |props| < 5 || props[0] >= 9 * 5 * 5 then None
    else
      var dict := DictSize(props);
      Some(Properties(props[0] % 9, (props[0] / 9) % 5, props[0] / 45, if dict < LZMA_DIC_MIN then LZMA_DIC_MIN else dict))
  }

  // ----------------------------------------------------------- range decoder

  const TOP_VALUE: nat := 0x100_0000
  const PROB_TOTAL: nat := 2048
  const PROB_INIT_VAL: nat := 1024

  /** The registers `Range` and `Code`, and how much of the stream was read. */
  datatype Dec = Dec(range: nat, code: nat, pos: nat)

  function ReadByte(bytes: seq<Byte>, pos: nat): Byte {
    if pos < |bytes| then bytes[pos] else 0
  }

  function DecInit(bytes: seq<Byte>): Dec {
    Dec(0xFFFF_FFFF,
        ((ReadByte(bytes, 1) * 256 + ReadByte(bytes, 2)) * 256 + ReadByte(bytes, 3)) * 256 + ReadByte(bytes, 4),
        5)
  }

  /** A stream whose first byte is not zero, or whose initial code equals the
    * initial range, is rejected. */
  predicate InitCorrupted(bytes: seq<Byte>) {
    ReadByte(bytes, 0) != 0 || DecInit(bytes).code == 0xFFFF_FFFF
  }

  function DecNorm(d: Dec, bytes: seq<Byte>): Dec {
    if d.range < TOP_VALUE
    then Dec((d.range * 256) % WORD, (d.code * 256 + ReadByte(bytes, d.pos)) % WORD, d.pos + 1)
    else d
  }

  lemma ShareFits(range: nat, prob: nat)
    requires prob <= PROB_TOTAL
    ensures (range / PROB_TOTAL) * prob <= range
  {
    assert (range / 2048) * prob <= (range / 2048) * 2048;
  }

  function DecodeBit(d: Dec, prob: nat, bytes: seq<Byte>): (Bit, Dec)
    requires prob <= PROB_TOTAL
  {
    var bound := (d.range / PROB_TOTAL) * prob;
    assert bound <= d.range by { ShareFits(d.range, prob); }
    if d.code < bound then (0, DecNorm(d.(range := bound), bytes))
    else (1, DecNorm(d.(code := d.code - bound, range := d.range - bound), bytes))
  }

  /** The probability moves by a thirty-second of its distance from the end. */
  function UpdateProb(prob: nat, bit: Bit): nat
    requires prob <= PROB_TOTAL
  {
    if bit == 0 then prob + (PROB_TOTAL - prob) / 32 else prob - prob / 32
  }

  function DecodeDirect(d: Dec, bytes: seq<Byte>): (Bit, Dec) {
    var half := d.range / 2;
    var code := (d.code - half) % WORD;
    if code >= 0x8000_0000
    then (0, DecNorm(d.(range := half, code := (code + half) % WORD), bytes))
    else (1, DecNorm(d.(range := half, code := code), bytes))
  }

  // -------------------------------------------------------- probability cells

  /** The probability cells, by the arrays and trees that hold them. */
  datatype Cell =
    | IsMatch(state: nat, posState: nat)
    | IsRep(state: nat)
    | IsRepG0(state: nat)
    | IsRepG1(state: nat)
    | IsRepG2(state: nat)
    | IsRep0Long(state: nat, posState: nat)
    | LitProbs(index: nat)
    | LenChoice(rep: bool)
    | LenChoice2(rep: bool)
    | LenLow(rep: bool, posState: nat, node: nat)
    | LenMid(rep: bool, posState: nat, node: nat)
    | LenHigh(rep: bool, node: nat)
    | PosSlot(lenState: nat, node: nat)
    | PosDecoders(place: int)
    | Align(node: nat)

  type Probs = map<Cell, nat>

  /** What the next bit is coded with: a cell, or nothing. */
  datatype Choice = Modeled(c: Cell) | Direct

  datatype DecState = DecState(d: Dec, probs: Probs)

  function DecStart(bytes: seq<Byte>): DecState { DecState(DecInit(bytes), map[]) }

  function Decode1(ds: DecState, choice: Choice, bytes: seq<Byte>): (Bit, DecState) {
    match choice
    case Direct =>
      var (bit, d) := DecodeDirect(ds.d, bytes);
      (bit, ds.(d := d))
    case Modeled(c) =>
      var p := if c in ds.probs then ds.probs[c] else PROB_INIT_VAL;
      if p > PROB_TOTAL then (0, ds)  // not a probability
      else
        var (bit, d) := DecodeBit(ds.d, p, bytes);
        (bit, DecState(d, ds.probs[c := UpdateProb(p, bit)]))
  }

  /** `BitTreeDecode`, from node `m`, `n` levels down. */
  function TreeDecode(ds: DecState, f: nat -> Cell, n: nat, m: nat, bytes: seq<Byte>): (nat, DecState)
    decreases n
  {
    if n == 0 then (m, ds)
    else
      var (bit, ds') := Decode1(ds, Modeled(f(m)), bytes);
      TreeDecode(ds', f, n - 1, 2 * m + bit, bytes)
  }

  /** A bit-tree decoder returns the node it ends in without its leading one. */
  function Leaf(m: nat, unit: nat): nat { if m >= unit then m - unit else 0 }

  /** `BitTreeReverseDecode`. */
  function ReverseDecode(ds: DecState, f: nat -> Cell, n: nat, m: nat, bytes: seq<Byte>): (nat, DecState)
    decreases n
  {
    if n == 0 then (0, ds)
    else
      var (bit, ds') := Decode1(ds, Modeled(f(m)), bytes);
      var (rest, ds'') := ReverseDecode(ds', f, n - 1, 2 * m + bit, bytes);
      (bit + 2 * rest, ds'')
  }

  /** `DecodeDirectBits`, continuing from `res`. */
  function DirectDecode(ds: DecState, n: nat, res: nat, bytes: seq<Byte>): (nat, DecState)
    decreases n
  {
    if n == 0 then (res, ds)
    else
      var (bit, ds') := Decode1(ds, Direct, bytes);
      DirectDecode(ds', n - 1, 2 * res + bit, bytes)
  }

  // -------------------------------------------------------- lengths, distances

  function LowTree(rep: bool, posState: nat): nat -> Cell { (m: nat) => LenLow(rep, posState, m) }

  function MidTree(rep: bool, posState: nat): nat -> Cell { (m: nat) => LenMid(rep, posState, m) }

  function HighTree(rep: bool): nat -> Cell { (m: nat) => LenHigh(rep, m) }

  /** `LenDecoder`: two choice bits, then a tree. */
  function LenDecode(ds: DecState, rep: bool, posState: nat, bytes: seq<Byte>): (nat, DecState) {
    var (b1, ds1) := Decode1(ds, Modeled(LenChoice(rep)), bytes);
    if b1 == 0 then
      var (m, ds2) := TreeDecode(ds1, LowTree(rep, posState), 3, 1, bytes);
      (Leaf(m, 8), ds2)
    else
      var (b2, ds2) := Decode1(ds1, Modeled(LenChoice2(rep)), bytes);
      if b2 == 0 then
        var (m, ds3) := TreeDecode(ds2, MidTree(rep, posState), 3, 1, bytes);
        (8 + Leaf(m, 8), ds3)
      else
        var (m, ds3) := TreeDecode(ds2, HighTree(rep), 8, 1, bytes);
        (16 + Leaf(m, 256), ds3)
  }

  function SlotTree(lenState: nat): nat -> Cell { (m: nat) => PosSlot(lenState, m) }

  /** The reverse tree at `PosDecoders + dist - posSlot`. */
  function FooterTree(offset: int): nat -> Cell { (m: nat) => PosDecoders(offset + m) }

  function AlignTree(): nat -> Cell { (m: nat) => Align(m) }

  /** `(2 | (posSlot & 1)) << numDirectBits`. */
  ghost function SlotStart(posSlot: nat, numDirectBits: nat): nat { (2 + posSlot % 2) * Pow2(numDirectBits) }

  /** The footer part of `DecodeDistance` below. */
  ghost function DecodeFooter(ds: DecState, posSlot: nat, bytes: seq<Byte>): (nat, DecState)
    requires posSlot >= 4
  {
    var numDirectBits := posSlot / 2 - 1;
    var dist := SlotStart(posSlot, numDirectBits);
    if posSlot < 14 then
      var (v, ds2) := ReverseDecode(ds, FooterTree(dist - posSlot), numDirectBits, 1, bytes);
      (dist + v, ds2)
    else
      var (v, ds2) := DirectDecode(ds, numDirectBits - 4, 0, bytes);
      var (w, ds3) := ReverseDecode(ds2, AlignTree(), 4, 1, bytes);
      (dist + v * 16 + w, ds3)
  }

  /** `DecodeDistance`; `lenCode` is the length less two. */
  ghost function DecodeDistance(ds: DecState, lenCode: nat, bytes: seq<Byte>): (nat, DecState) {
    var lenState := if lenCode > 3 then 3 else lenCode;
    var (m, ds1) := TreeDecode(ds, SlotTree(lenState), 6, 1, bytes);
    var posSlot := Leaf(m, 64);
    if posSlot < 4 then (posSlot, ds1) else DecodeFooter(ds1, posSlot, bytes)
  }

  // ---------------------------------------------------------------- literals

  function LiteralTree(base: nat): nat -> Cell { (m: nat) => LitProbs(base + m) }

  function LitState(low: nat, shift: nat, high: nat): nat { low * shift + high }

  /** Where the probabilities of the next literal begin: `lp` low bits of the
    * position and `lc` high bits of the byte before select one of the tables of
    * 0x300 cells. */
  ghost function LitTable(q: Properties, pos: nat, prev: Byte): nat
    requires q.lc <= 8
  {
    0x300 * LitState(pos % Pow2(q.lp), Pow2(q.lc), prev / Pow2(8 - q.lc))
  }

  /** `DecodeLiteral` after a match, `n` bits to go. */
  function MatchedDecode(ds: DecState, base: nat, n: nat, symbol: nat, matchByte: nat, bytes: seq<Byte>): (nat, DecState)
    decreases n
  {
    if n == 0 then (symbol, ds)
    else
      var matchBit := (matchByte / 128) % 2;
      var (bit, ds') := Decode1(ds, Modeled(LitProbs(base + (1 + matchBit) * 256 + symbol)), bytes);
      if matchBit != bit then TreeDecode(ds', LiteralTree(base), n - 1, 2 * symbol + bit, bytes)
      else MatchedDecode(ds', base, n - 1, 2 * symbol + bit, matchByte * 2, bytes)
  }

  // --------------------------------------------------------------- main loop

  function UpdateLiteral(state: nat): nat {
    if state < 4 then 0 else if state < 10 then state - 3 else state - 6
  }

  function UpdateMatch(state: nat): nat { if state < 7 then 7 else 10 }

  function UpdateRep(state: nat): nat { if state < 7 then 8 else 11 }

  function UpdateShortRep(state: nat): nat { if state < 7 then 9 else 11 }

  /** The decoder between two steps; repeated distances count from zero. */
  datatype Lzd = Lzd(ds: DecState, state: nat, rep: seq<nat>, out: seq<Byte>)

  function GetByte(out: seq<Byte>, dist: nat): Byte
    requires 1 <= dist <= |out|
  {
    out[|out| - dist]
  }

  function CopyMatch(out: seq<Byte>, dist: nat, len: nat): (r: seq<Byte>)
    requires 1 <= dist <= |out|
    decreases len
  {
    if len == 0 then out else CopyMatch(out + [GetByte(out, dist)], dist, len - 1)
  }

  ghost function PosStateOf(q: Properties, out: seq<Byte>): nat { |out| % Pow2(q.pb) }

  ghost function DecodeLiteral(q: Properties, d: Lzd, bytes: seq<Byte>): Option<Lzd>
    requires q.lc <= 8
  {
    var prev: Byte := if d.out == [] then 0 else d.out[|d.out| - 1];
    var base := LitTable(q, |d.out|, prev);
    if d.state >= 7 && (|d.rep| == 0 || d.rep[0] >= |d.out|) then None
    else
      var (m, ds) := if d.state >= 7
                     then MatchedDecode(d.ds, base, 8, 1, GetByte(d.out, d.rep[0] + 1), bytes)
                     else TreeDecode(d.ds, LiteralTree(base), 8, 1, bytes);
      if Leaf(m, 256) >= 256 then None
      else Some(d.(ds := ds, state := UpdateLiteral(d.state), out := d.out + [Leaf(m, 256)]))
  }

  /** Which repeated distance the selection bits name, and whether they name the
    * one-byte form. */
  function DecodeRep(d: Lzd, posState: nat, bytes: seq<Byte>): (nat, bool, DecState) {
    var (g0, ds1) := Decode1(d.ds, Modeled(IsRepG0(d.state)), bytes);
    if g0 == 0 then
      var (long, ds2) := Decode1(ds1, Modeled(IsRep0Long(d.state, posState)), bytes);
      (0, long == 0, ds2)
    else
      var (g1, ds2) := Decode1(ds1, Modeled(IsRepG1(d.state)), bytes);
      if g1 == 0 then (1, false, ds2)
      else
        var (g2, ds3) := Decode1(ds2, Modeled(IsRepG2(d.state)), bytes);
        (if g2 == 0 then 2 else 3, false, ds3)
  }

  /** The chosen distance becomes `rep0`, those before it move back by one. */
  function ChooseRep(rep: seq<nat>, index: nat): seq<nat>
    requires |rep| == 4
  {
    if index == 0 then rep
    else if index == 1 then [rep[1], rep[0], rep[2], rep[3]]
    else if index == 2 then [rep[2], rep[0], rep[1], rep[3]]
    else [rep[3], rep[0], rep[1], rep[2]]
  }

  /** Copies a match the decoder has read, unless it reaches before the output,
    * beyond the dictionary, or past the announced size. */
  function PutMatch(d: Lzd, len: nat, size: nat, dict: nat): Option<Lzd> {
    if |d.rep| == 0 || d.rep[0] >= |d.out| || d.rep[0] >= dict || |d.out| + len > size then None
    else Some(d.(out := CopyMatch(d.out, d.rep[0] + 1, len)))
  }

  /** A repeated match, behind its two leading bits. */
  ghost function DecodeRepMatch(q: Properties, d: Lzd, size: nat, bytes: seq<Byte>): Option<Lzd>
    requires |d.rep| == 4
  {
    if d.out == [] then None
    else
      var (index, short, ds3) := DecodeRep(d, PosStateOf(q, d.out), bytes);
      var rep := ChooseRep(d.rep, index);
      if short then
        PutMatch(Lzd(ds3, UpdateShortRep(d.state), rep, d.out), 1, size, q.dict)
      else
        var (len, ds4) := LenDecode(ds3, true, PosStateOf(q, d.out), bytes);
        PutMatch(Lzd(ds4, UpdateRep(d.state), rep, d.out), len + 2, size, q.dict)
  }

  /** A match with a distance of its own, behind its two leading bits. */
  ghost function DecodeNewMatch(q: Properties, d: Lzd, size: nat, bytes: seq<Byte>): Option<Lzd>
    requires |d.rep| == 4
  {
    var (len, ds3) := LenDecode(d.ds, false, PosStateOf(q, d.out), bytes);
    var (dist, ds4) := DecodeDistance(ds3, len, bytes);
    PutMatch(Lzd(ds4, UpdateMatch(d.state), [dist, d.rep[0], d.rep[1], d.rep[2]], d.out), len + 2, size, q.dict)
  }

  ghost function DecodeStep(q: Properties, d: Lzd, size: nat, bytes: seq<Byte>): Option<Lzd>
    requires |d.rep| == 4 && q.lc <= 8
  {
    var (isMatch, ds1) := Decode1(d.ds, Modeled(IsMatch(d.state, PosStateOf(q, d.out))), bytes);
    if isMatch == 0 then DecodeLiteral(q, d.(ds := ds1), bytes)
    else
      var (isRep, ds2) := Decode1(ds1, Modeled(IsRep(d.state)), bytes);
      if isRep == 1 then DecodeRepMatch(q, d.(ds := ds2), size, bytes)
      else DecodeNewMatch(q, d.(ds := ds2), size, bytes)
  }

  /** The decoder stops at the announced size, and accepts the stream if its code
    * register is then zero. `fuel` bounds the number of steps. */
  ghost function DecodeLoop(q: Properties, d: Lzd, size: nat, bytes: seq<Byte>, fuel: nat): Option<seq<Byte>>
    requires |d.rep| == 4 && q.lc <= 8
    decreases fuel
  {
    if |d.out| == size then if d.ds.d.code == 0 then Some(d.out) else None
    else if fuel == 0 then None
    else
      match DecodeStep(q, d, size, bytes)
      case None => None
      case Some(d') => if |d'.rep| != 4 then None else DecodeLoop(q, d', size, bytes, fuel - 1)
  }

  function DecodeStart(bytes: seq<Byte>): Lzd { Lzd(DecStart(bytes), 0, [0, 0, 0, 0], []) }

  /** A raw stream of `size` bytes with the properties of its header; every step
    * puts out a byte at least. */
  ghost function Decompress(props: seq<Byte>, size: nat, bytes: seq<Byte>): Option<seq<Byte>> {
    match DecodeProperties(props)
    case None => None
    case Some(q) => if InitCorrupted(bytes) then None else DecodeLoop(q, DecodeStart(bytes), size, bytes, size)
  }
}
