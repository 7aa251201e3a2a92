/** A whole LZMA stream: what `LzmaEnc_CodeOneBlock` writes for each step of the
  * chosen parse, and that the specification's decoder, told the properties by
  * their bytes, gives back the data. The encoder's parameters are those of level
  * 5: lc = 3, lp = 0, pb = 2. */
module LzmaStream {
  import opened Options
  import opened Arith
  import opened Words
  import opened LzmaSpec
  import opened RangeCoder
  import opened LzmaModel
  import opened Distance

  const MARK_LIT := 0xFFFF_FFFF
  const NUM_REPS := 4
  const LEN_MIN := 2
  const LEN_MAX := 273

  // ------------------------------------------------------------ parse steps

  /** One step of the parse: `back` is `MARK_LIT`, a repeat index below four, or
    * a distance plus four. */
  datatype Packet = Packet(len: nat, back: nat)

  /** The encoder's view between two steps; repeated distances count from one. */
  datatype Lz = Lz(state: nat, reps: seq<nat>, pos: nat)

  const LZ_START := Lz(0, [1, 1, 1, 1], 0)

  const LITERAL_NEXT: seq<nat> := [0, 0, 0, 0, 1, 2, 3, 4, 5, 6, 4, 5]
  const MATCH_NEXT: seq<nat> := [7, 7, 7, 7, 7, 7, 7, 10, 10, 10, 10, 10]
  const REP_NEXT: seq<nat> := [8, 8, 8, 8, 8, 8, 8, 11, 11, 11, 11, 11]
  const SHORT_REP_NEXT: seq<nat> := [9, 9, 9, 9, 9, 9, 9, 11, 11, 11, 11, 11]

  /** The encoder's tables are the specification's state update rules. */
  lemma StateTables(state: nat)
    requires state < 12
    ensures LITERAL_NEXT[state] == UpdateLiteral(state) < 12 && MATCH_NEXT[state] == UpdateMatch(state) < 12
    ensures REP_NEXT[state] == UpdateRep(state) < 12 && SHORT_REP_NEXT[state] == UpdateShortRep(state) < 12
  {
    var i :| i == state;
    if i == 0 {} else if i == 1 {} else if i == 2 {} else if i == 3 {}
    else if i == 4 {} else if i == 5 {} else if i == 6 {} else if i == 7 {}
    else if i == 8 {} else if i == 9 {} else if i == 10 {} else { assert i == 11; }
  }

  const LC := 3
  const LP := 0
  const PB := 2

  /** The decoder has been told the encoder's parameters, and a dictionary that is
    * large enough. */
  ghost predicate Announced(q: Properties, dict: nat) {
    q.lc == LC && q.lp == LP && q.pb == PB && dict <= q.dict
  }

  /** The bytes at `pos` repeat those `delta` bytes back, `len` times. */
  ghost predicate TrueMatch(data: seq<Byte>, pos: nat, delta: nat, len: nat) {
    && 1 <= delta <= pos && pos + len <= |data|
    && forall i :: pos <= i < pos + len ==> data[i] == data[i - delta]
  }

  ghost predicate ValidLz(lz: Lz, data: seq<Byte>) {
    && lz.state < 12 && |lz.reps| == NUM_REPS && lz.pos <= |data|
    && (forall i :: 0 <= i < NUM_REPS ==> 1 <= lz.reps[i] <= MAX_DISTANCE)
    && (lz.state >= 7 ==> lz.reps[0] <= lz.pos)
  }

  /** A step the parser may choose: what it copies is really there, within the
    * dictionary, and its length can be coded. */
  ghost predicate ValidPacket(lz: Lz, data: seq<Byte>, dict: nat, p: Packet)
    requires |lz.reps| == NUM_REPS
  {
    if p.back == MARK_LIT then p.len == 1 && lz.pos < |data|
    else if p.back < NUM_REPS then
      && TrueMatch(data, lz.pos, lz.reps[p.back], p.len) && lz.reps[p.back] <= dict
      && ((p.len == 1 && p.back == 0) || LEN_MIN <= p.len <= LEN_MAX)
    else
      && p.back - NUM_REPS < MAX_DISTANCE
      && TrueMatch(data, lz.pos, p.back - NUM_REPS + 1, p.len) && p.back - NUM_REPS + 1 <= dict
      && LEN_MIN <= p.len <= LEN_MAX
  }

  function MoveRep(reps: seq<nat>, i: nat): seq<nat>
    requires |reps| == NUM_REPS && i < NUM_REPS
  {
    [reps[i]] + reps[..i] + reps[i + 1..]
  }

  function Advance(lz: Lz, p: Packet): Lz
    requires |lz.reps| == NUM_REPS
  {
    if p.back == MARK_LIT then Lz(UpdateLiteral(lz.state), lz.reps, lz.pos + p.len)
    else if p.back < NUM_REPS then
      Lz(if p.len == 1 then UpdateShortRep(lz.state) else UpdateRep(lz.state), MoveRep(lz.reps, p.back), lz.pos + p.len)
    else Lz(UpdateMatch(lz.state), [p.back - NUM_REPS + 1] + lz.reps[..3], lz.pos + p.len)
  }

  lemma AdvanceValid(lz: Lz, data: seq<Byte>, dict: nat, p: Packet)
    requires ValidLz(lz, data) && ValidPacket(lz, data, dict, p)
    ensures ValidLz(Advance(lz, p), data)
  {
  }

  /** A parse of the data from here to its end. */
  ghost predicate ValidParse(lz: Lz, data: seq<Byte>, dict: nat, ps: seq<Packet>)
    decreases |ps|
  {
    ValidLz(lz, data)
    && if ps == [] then lz.pos == |data|
       else ValidPacket(lz, data, dict, ps[0]) && ValidParse(Advance(lz, ps[0]), data, dict, ps[1..])
  }

  // ---------------------------------------------------------------- literals

  function LitCells(base: nat): nat -> Cell { (m: nat) => LitProbs(base + m) }

  /** `LIT_PROBS`: `3 * ((((pos << 8) + prevByte) & lpMask) << lc)`, where the
    * mask keeps the three high bits of the previous byte. */
  function LitBase(pos: nat, prev: Byte): nat {
    3 * ((((pos * 256 + prev) % 256) / 32) * 32 * 8)
  }

  /** The bits of `LitEnc_EncodeMatched`: while `offs` is 0x100 the match byte
    * still agrees with the symbol and selects the cell. */
  ghost function MatchedScript(base: nat, n: nat, sym: nat, matchByte: nat, offs: nat): (s: seq<Sym>)
    ensures |s| == n
  {
    if n == 0 then []
    else
      var mb := matchByte * 2;
      var index := offs + (if offs == 256 then (mb / 256) % 2 * 256 else 0) + sym / 256;
      var offs' := if offs == 256 && (mb / 256) % 2 == (sym * 2 / 256) % 2 then 256 else 0;
      [Sym(Modeled(LitProbs(base + index)), (sym / 128) % 2)] + MatchedScript(base, n - 1, sym * 2, mb, offs')
  }

  lemma {:induction false} UnmatchedIsPlain(base: nat, n: nat, sym: nat, matchByte: nat)
    ensures MatchedScript(base, n, sym, matchByte, 0) == TreeScript(LitCells(base), 256, n, sym)
    decreases n
  {
    if n > 0 {
      UnmatchedIsPlain(base, n - 1, sym * 2, matchByte * 2);
    }
  }

  lemma LitCellsAgree(base: nat)
    ensures SameCells(LitCells(base), LiteralTree(base), 256) && InTree(1, 8, 256)
  {
    InTreeRoot(8);
    TreeSizes();
  }

  lemma MatchedBits(sym: nat, matchByte: nat)
    ensures (matchByte * 2 / 256) % 2 == (matchByte / 128) % 2 && (sym * 2 / 256) % 2 == (sym / 128) % 2
    ensures (sym * 2) / 256 == 2 * (sym / 256) + (sym / 128) % 2
  {
    TreeBit(sym, 256);
  }

  lemma {:induction false} MatchedDecodeRecovers(e: Coder, ds: DecState, base: nat, n: nat, sym: nat, symbol: nat, matchByte: nat, bytes: seq<Byte>)
    requires symbol == sym / 256 && InTree(symbol, n, 256)
    requires Follows(e, ds, bytes) && Leads(Run(e, MatchedScript(base, n, sym, matchByte, 256)), bytes)
    ensures MatchedDecode(ds, base, n, symbol, matchByte, bytes).0 == TreeEnd(256, n, sym)
    ensures Follows(Run(e, MatchedScript(base, n, sym, matchByte, 256)), MatchedDecode(ds, base, n, symbol, matchByte, bytes).1, bytes)
    decreases n
  {
    hide Decode1, Step, Run, Follows, Leads, InTree, SameCells;
    FollowsValid(e, ds, bytes);
    if n == 0 {
      RunEmpty(e);
    } else {
      var bit := (sym / 128) % 2;
      InTreeStep(symbol, n, 256, bit);
      var matchBit := (matchByte / 128) % 2;
      MatchedBits(sym, matchByte);
      var s := Sym(Modeled(LitProbs(base + (1 + matchBit) * 256 + symbol)), bit);
      var offs' := if matchBit == bit then 256 else 0;
      var rest := MatchedScript(base, n - 1, sym * 2, matchByte * 2, offs');
      assert MatchedScript(base, n, sym, matchByte, 256) == [s] + rest;
      DecodeHead(e, s, rest, ds, bytes);
      var ds' := Decode1(ds, s.choice, bytes).1;
      if matchBit == bit {
        MatchedDecodeRecovers(Step(e, s), ds', base, n - 1, sym * 2, 2 * symbol + bit, matchByte * 2, bytes);
      } else {
        UnmatchedIsPlain(base, n - 1, sym * 2, matchByte * 2);
        LitCellsAgree(base);
        TreeDecodeRecovers(Step(e, s), ds', LitCells(base), LiteralTree(base), 256, n - 1, sym * 2, 2 * symbol + bit, bytes);
      }
    }
  }

  // ----------------------------------------------------------------- lengths

  /** `low[i]` of `CLenEnc`: the trees of all position states, with the two choice
    * bits in the cells that the first two trees leave unused. */
  function LenCell(rep: bool, i: nat): Cell {
    if i == 0 then LenChoice(rep)
    else if i == 8 then LenChoice2(rep)
    else if i % 16 < 8 then LenLow(rep, i / 16, i % 16)
    else LenMid(rep, i / 16, i % 16 - 8)
  }

  function LowCells(rep: bool, base: nat): nat -> Cell { (m: nat) => LenCell(rep, base + m) }

  function HighCells(rep: bool): nat -> Cell { (m: nat) => LenHigh(rep, m) }

  /** The bits of `LenEnc_Encode`. */
  ghost function LenScript(rep: bool, sym: nat, posState: nat): seq<Sym> {
    if sym < 8 then
      [Sym(Modeled(LenCell(rep, 0)), 0)] + TreeScript(LowCells(rep, posState * 16), 8, 3, 8 + sym)
    else if sym < 16 then
      [Sym(Modeled(LenCell(rep, 0)), 1)] + ([Sym(Modeled(LenCell(rep, 8)), 0)]
      + TreeScript(LowCells(rep, 8 + posState * 16), 8, 3, sym))
    else
      [Sym(Modeled(LenCell(rep, 0)), 1)] + ([Sym(Modeled(LenCell(rep, 8)), 1)]
      + TreeScript(HighCells(rep), 256, 8, 256 + (sym - 16)))
  }

  lemma LenCellAt(rep: bool, posState: nat, r: nat, i: nat)
    requires i == 16 * posState + r && r < 16 && r % 8 != 0
    ensures LenCell(rep, i) == if r < 8 then LenLow(rep, posState, r) else LenMid(rep, posState, r - 8)
  {
    DivModUnique(i, 16, posState, r);
  }

  /** The trees inside `low` have their nodes where the specification has them. */
  lemma LenCellsAgree(rep: bool, posState: nat)
    ensures SameCells(LowCells(rep, posState * 16), LowTree(rep, posState), 8)
    ensures SameCells(LowCells(rep, 8 + posState * 16), MidTree(rep, posState), 8)
    ensures SameCells(HighCells(rep), HighTree(rep), 256)
    ensures InTree(1, 3, 8) && InTree(1, 8, 256)
  {
    forall m: nat | 1 <= m < 8
      ensures LowCells(rep, posState * 16)(m) == LenLow(rep, posState, m)
      ensures LowCells(rep, 8 + posState * 16)(m) == LenMid(rep, posState, m)
    {
      LenCellAt(rep, posState, m, posState * 16 + m);
      LenCellAt(rep, posState, 8 + m, 8 + posState * 16 + m);
    }
    InTreeRoot(3);
    InTreeRoot(8);
    TreeSizes();
  }

  lemma LenDecodeRecovers(e: Coder, ds: DecState, rep: bool, sym: nat, posState: nat, bytes: seq<Byte>)
    requires sym < 272
    requires Follows(e, ds, bytes) && Leads(Run(e, LenScript(rep, sym, posState)), bytes)
    ensures LenDecode(ds, rep, posState, bytes).0 == sym
    ensures Follows(Run(e, LenScript(rep, sym, posState)), LenDecode(ds, rep, posState, bytes).1, bytes)
  {
    hide Decode1, Step, Run, Follows, Leads, TreeDecode, TreeScript, TreeEnd, SameCells, InTree;
    LenCellsAgree(rep, posState);
    FollowsValid(e, ds, bytes);
    var s1 := Sym(Modeled(LenCell(rep, 0)), if sym < 8 then 0 else 1);
    if sym < 8 {
      DecodeHead(e, s1, TreeScript(LowCells(rep, posState * 16), 8, 3, 8 + sym), ds, bytes);
      TreeDecodeRecovers(Step(e, s1), Decode1(ds, s1.choice, bytes).1, LowCells(rep, posState * 16), LowTree(rep, posState), 8, 3, 8 + sym, 1, bytes);
      TreeEndFull(8, 3, sym);
    } else {
      var s2 := Sym(Modeled(LenCell(rep, 8)), if sym < 16 then 0 else 1);
      var tree := if sym < 16 then TreeScript(LowCells(rep, 8 + posState * 16), 8, 3, sym)
                  else TreeScript(HighCells(rep), 256, 8, 256 + (sym - 16));
      DecodeHead(e, s1, [s2] + tree, ds, bytes);
      var ds1 := Decode1(ds, s1.choice, bytes).1;
      DecodeHead(Step(e, s1), s2, tree, ds1, bytes);
      var ds2 := Decode1(ds1, s2.choice, bytes).1;
      if sym < 16 {
        TreeDecodeRecovers(Step(Step(e, s1), s2), ds2, LowCells(rep, 8 + posState * 16), MidTree(rep, posState), 8, 3, sym, 1, bytes);
        TreeEndFull(8, 3, sym - 8);
      } else {
        TreeDecodeRecovers(Step(Step(e, s1), s2), ds2, HighCells(rep), HighTree(rep), 256, 8, 256 + (sym - 16), 1, bytes);
        TreeEndFull(256, 8, sym - 16);
      }
    }
  }

  // ----------------------------------------------------------- packet scripts

  /** `pos & pbMask`. */
  function PosState(pos: nat): nat { pos % 4 }

  /** The encoder's masks are what the announced properties mean. */
  lemma MasksAnnounced(q: Properties, dict: nat, out: seq<Byte>, prev: Byte)
    requires Announced(q, dict)
    ensures PosStateOf(q, out) == PosState(|out|)
    ensures LitTable(q, |out|, prev) == LitBase(|out|, prev)
  {
    assert Pow2(0) == 1 && Pow2(2) == 4 && Pow2(3) == 8 && Pow2(5) == 4 * Pow2(3);
    DivModUnique(|out| * 256 + prev, 256, |out|, prev);
  }

  ghost function PrevByte(data: seq<Byte>, pos: nat): Byte
    requires pos <= |data|
  {
    if pos == 0 then 0 else data[pos - 1]
  }

  ghost function LiteralScript(lz: Lz, data: seq<Byte>): seq<Sym>
    requires ValidLz(lz, data) && lz.pos < |data|
  {
    var base := LitBase(lz.pos, PrevByte(data, lz.pos));
    var cur: nat := data[lz.pos];
    if lz.state < 7 then TreeScript(LitCells(base), 256, 8, 256 + cur)
    else MatchedScript(base, 8, 256 + cur, data[lz.pos - lz.reps[0]], 256)
  }

  /** The selection bits of a repeated match. */
  ghost function RepScript(lz: Lz, p: Packet): seq<Sym> {
    if p.back == 0 then
      [Sym(Modeled(IsRepG0(lz.state)), 0),
       Sym(Modeled(IsRep0Long(lz.state, PosState(lz.pos))), if p.len == 1 then 0 else 1)]
    else if p.back == 1 then
      [Sym(Modeled(IsRepG0(lz.state)), 1), Sym(Modeled(IsRepG1(lz.state)), 0)]
    else
      [Sym(Modeled(IsRepG0(lz.state)), 1), Sym(Modeled(IsRepG1(lz.state)), 1),
       Sym(Modeled(IsRepG2(lz.state)), if p.back == 2 then 0 else 1)]
  }

  /** What one step writes, after its first bit. */
  /** A repeated match behind its two leading bits. */
  ghost function RepMatchScript(lz: Lz, p: Packet): seq<Sym>
    requires p.back < NUM_REPS
  {
    RepScript(lz, p) + if p.len < LEN_MIN then [] else LenScript(true, p.len - LEN_MIN, PosState(lz.pos))
  }

  /** A match with a distance of its own. */
  ghost function NewMatchScript(lz: Lz, p: Packet): seq<Sym>
    requires p.back >= NUM_REPS && p.len >= LEN_MIN
  {
    LenScript(false, p.len - LEN_MIN, PosState(lz.pos)) + DistScript(p.len, p.back - NUM_REPS)
  }

  ghost function BodyScript(lz: Lz, data: seq<Byte>, p: Packet): seq<Sym>
    requires ValidLz(lz, data)
    requires p.back == MARK_LIT ==> lz.pos < |data|
  {
    if p.back == MARK_LIT then LiteralScript(lz, data)
    else if p.back < NUM_REPS then
      [Sym(Modeled(IsRep(lz.state)), 1)] + RepMatchScript(lz, p)
    else if p.len < LEN_MIN then []  // not a match the code can write
    else
      [Sym(Modeled(IsRep(lz.state)), 0)] + NewMatchScript(lz, p)
  }

  ghost function PacketScript(lz: Lz, data: seq<Byte>, p: Packet): seq<Sym>
    requires ValidLz(lz, data)
    requires p.back == MARK_LIT ==> lz.pos < |data|
  {
    [Sym(Modeled(IsMatch(lz.state, PosState(lz.pos))), if p.back == MARK_LIT then 0 else 1)] + BodyScript(lz, data, p)
  }

  ghost function StreamScript(lz: Lz, data: seq<Byte>, dict: nat, ps: seq<Packet>): seq<Sym>
    requires ValidParse(lz, data, dict, ps)
    decreases |ps|
  {
    if ps == [] then []
    else PacketScript(lz, data, ps[0]) + StreamScript(Advance(lz, ps[0]), data, dict, ps[1..])
  }

  // ------------------------------------------------- decoding what was coded

  /** The decoder has reproduced the data up to the encoder's position. */
  ghost predicate Agrees(lz: Lz, data: seq<Byte>, d: Lzd) {
    && ValidLz(lz, data)
    && d.state == lz.state && d.out == data[..lz.pos]
    && |d.rep| == NUM_REPS && forall i :: 0 <= i < NUM_REPS ==> d.rep[i] + 1 == lz.reps[i]
  }

  lemma {:induction false} CopyTrueMatch(data: seq<Byte>, pos: nat, dist: nat, len: nat)
    requires TrueMatch(data, pos, dist, len)
    ensures CopyMatch(data[..pos], dist, len) == data[..pos + len]
    decreases len
  {
    if len > 0 {
      assert data[..pos] + [GetByte(data[..pos], dist)] == data[..pos + 1];
      CopyTrueMatch(data, pos + 1, dist, len - 1);
    }
  }

  lemma LiteralRecovers(q: Properties, dict: nat, e: Coder, d: Lzd, lz: Lz, data: seq<Byte>, bytes: seq<Byte>)
    requires Announced(q, dict) && Agrees(lz, data, d) && lz.pos < |data|
    requires Follows(e, d.ds, bytes) && Leads(Run(e, LiteralScript(lz, data)), bytes)
    ensures var r := DecodeLiteral(q, d, bytes);
            && r.Some?
            && r.value.out == data[..lz.pos + 1] && r.value.state == UpdateLiteral(lz.state) && r.value.rep == d.rep
            && Follows(Run(e, LiteralScript(lz, data)), r.value.ds, bytes)
  {
    hide Run, Follows, Leads, TreeDecode, TreeScript, TreeEnd, MatchedScript, MatchedDecode, LitBase, LitTable, InTree, SameCells;
    var prev := PrevByte(data, lz.pos);
    MasksAnnounced(q, dict, d.out, prev);
    LitCellsAgree(LitBase(lz.pos, prev));
    var base := LitBase(lz.pos, prev);
    var cur: nat := data[lz.pos];
    TreeEndFull(256, 8, cur);
    if lz.state < 7 {
      TreeDecodeRecovers(e, d.ds, LitCells(base), LiteralTree(base), 256, 8, 256 + cur, 1, bytes);
    } else {
      assert GetByte(d.out, d.rep[0] + 1) == data[lz.pos - lz.reps[0]];
      MatchedDecodeRecovers(e, d.ds, base, 8, 256 + cur, 1, data[lz.pos - lz.reps[0]], bytes);
    }
    assert data[..lz.pos] + [data[lz.pos]] == data[..lz.pos + 1];
  }

  lemma RepRecovers(e: Coder, d: Lzd, lz: Lz, p: Packet, bytes: seq<Byte>)
    requires p.back < NUM_REPS && d.state == lz.state && |d.out| == lz.pos
    requires Follows(e, d.ds, bytes) && Leads(Run(e, RepScript(lz, p)), bytes)
    ensures DecodeRep(d, PosState(lz.pos), bytes).0 == p.back
    ensures DecodeRep(d, PosState(lz.pos), bytes).1 == (p.back == 0 && p.len == 1)
    ensures Follows(Run(e, RepScript(lz, p)), DecodeRep(d, PosState(lz.pos), bytes).2, bytes)
  {
    hide Run, Follows, Leads, Step, Decode1;
    var script := RepScript(lz, p);
    FollowsValid(e, d.ds, bytes);
    assert script == [script[0]] + script[1..];
    DecodeHead(e, script[0], script[1..], d.ds, bytes);
    var e1, ds1 := Step(e, script[0]), Decode1(d.ds, script[0].choice, bytes).1;
    assert script[1..] == [script[1]] + script[2..];
    DecodeHead(e1, script[1], script[2..], ds1, bytes);
    var e2, ds2 := Step(e1, script[1]), Decode1(ds1, script[1].choice, bytes).1;
    FollowsValid(e2, ds2, bytes);
    RunEmpty(e2);
    if p.back >= 2 {
      assert script[2..] == [script[2]] + [];
      DecodeHead(e2, script[2], [], ds2, bytes);
      var e3, ds3 := Step(e2, script[2]), Decode1(ds2, script[2].choice, bytes).1;
      FollowsValid(e3, ds3, bytes);
      RunEmpty(e3);
    } else {
      assert script[2..] == [];
    }
  }

  /** A decoded step leaves the decoder in agreement with the advanced encoder. */
  ghost predicate StepRecovered(r: Option<Lzd>, e: Coder, lz: Lz, data: seq<Byte>, bytes: seq<Byte>) {
    r.Some? && Agrees(lz, data, r.value) && Follows(e, r.value.ds, bytes)
  }

  /** A repeated match, from after its two leading bits. */
  lemma RepMatchRecovers(e: Coder, d: Lzd, lz: Lz, data: seq<Byte>, dict: nat, p: Packet, bytes: seq<Byte>)
    requires Agrees(lz, data, d) && ValidPacket(lz, data, dict, p) && p.back < NUM_REPS
    requires Follows(e, d.ds, bytes)
    requires Leads(Run(e, RepMatchScript(lz, p)), bytes)
    ensures var script := RepMatchScript(lz, p);
            var (index, short, ds3) := DecodeRep(d, PosState(lz.pos), bytes);
            var (len, ds4) := LenDecode(ds3, true, PosState(lz.pos), bytes);
            && index == p.back && short == (p.len == 1)
            && (short ==> Follows(Run(e, script), ds3, bytes))
            && (!short ==> len + LEN_MIN == p.len && Follows(Run(e, script), ds4, bytes))
  {
    hide Run, Follows, Leads, DecodeRep, RepScript, LenDecode, LenScript, PosState;
    var reps := RepScript(lz, p);
    FollowsValid(e, d.ds, bytes);
    if p.len < LEN_MIN {
      assert reps + [] == reps;
      RepRecovers(e, d, lz, p, bytes);
    } else {
      var lens := LenScript(true, p.len - LEN_MIN, PosState(lz.pos));
      RunAppend(e, reps, lens);
      LeadsRun(Run(e, reps), lens, bytes);
      RepRecovers(e, d, lz, p, bytes);
      LenDecodeRecovers(Run(e, reps), DecodeRep(d, PosState(lz.pos), bytes).2, true, p.len - LEN_MIN, PosState(lz.pos), bytes);
    }
  }

  lemma DistMatchRecovers(e: Coder, ds: DecState, len: nat, dist: nat, posState: nat, bytes: seq<Byte>)
    requires LEN_MIN <= len <= LEN_MAX && dist < MAX_DISTANCE
    requires Follows(e, ds, bytes)
    requires Leads(Run(e, LenScript(false, len - LEN_MIN, posState) + DistScript(len, dist)), bytes)
    ensures var (l, ds3) := LenDecode(ds, false, posState, bytes);
            var (v, ds4) := DecodeDistance(ds3, l, bytes);
            && l + LEN_MIN == len && v == dist
            && Follows(Run(e, LenScript(false, len - LEN_MIN, posState) + DistScript(len, dist)), ds4, bytes)
  {
    hide Run, Follows, Leads, LenDecode, LenScript, DecodeDistance, DistScript;
    var lens, dists := LenScript(false, len - LEN_MIN, posState), DistScript(len, dist);
    FollowsValid(e, ds, bytes);
    RunAppend(e, lens, dists);
    LeadsRun(Run(e, lens), dists, bytes);
    LenDecodeRecovers(e, ds, false, len - LEN_MIN, posState, bytes);
    DecodeDistanceRecovers(Run(e, lens), LenDecode(ds, false, posState, bytes).1, len, dist, bytes);
  }

  lemma PutTrueMatch(d: Lzd, lz: Lz, data: seq<Byte>, dict: nat, len: nat, announced: nat)
    requires Agrees(lz, data, d)
    requires TrueMatch(data, lz.pos, lz.reps[0], len) && lz.reps[0] <= dict <= announced
    ensures PutMatch(d, len, |data|, announced) == Some(d.(out := data[..lz.pos + len]))
  {
    CopyTrueMatch(data, lz.pos, lz.reps[0], len);
  }

  /** The shifts of the encoder's repeated distances are the specification's. */
  lemma RepsMove(rep: seq<nat>, reps: seq<nat>, index: nat)
    requires |rep| == |reps| == NUM_REPS && index < NUM_REPS
    requires forall i :: 0 <= i < NUM_REPS ==> rep[i] + 1 == reps[i]
    ensures |ChooseRep(rep, index)| == |MoveRep(reps, index)| == NUM_REPS
    ensures forall i :: 0 <= i < NUM_REPS ==> ChooseRep(rep, index)[i] + 1 == MoveRep(reps, index)[i]
  {
  }

  lemma RepStepRecovers(q: Properties, e: Coder, d: Lzd, lz: Lz, data: seq<Byte>, dict: nat, p: Packet, bytes: seq<Byte>)
    requires Announced(q, dict) && Agrees(lz, data, d) && ValidPacket(lz, data, dict, p) && p.back < NUM_REPS
    requires Follows(e, d.ds, bytes) && Leads(Run(e, RepMatchScript(lz, p)), bytes)
    ensures StepRecovered(DecodeRepMatch(q, d, |data|, bytes), Run(e, RepMatchScript(lz, p)), Advance(lz, p), data, bytes)
  {
    hide Run, Follows, Leads, DecodeRep, RepScript, LenDecode, LenScript, PosState, PosStateOf, CopyMatch, ChooseRep;
    AdvanceValid(lz, data, dict, p);
    MasksAnnounced(q, dict, d.out, 0);
    RepsMove(d.rep, lz.reps, p.back);
    RepMatchRecovers(e, d, lz, data, dict, p, bytes);
    var next := Lz(if p.len == 1 then UpdateShortRep(lz.state) else UpdateRep(lz.state), MoveRep(lz.reps, p.back), lz.pos);
    var ds4 := if p.len == 1 then DecodeRep(d, PosState(lz.pos), bytes).2 else LenDecode(DecodeRep(d, PosState(lz.pos), bytes).2, true, PosState(lz.pos), bytes).1;
    PutTrueMatch(Lzd(ds4, next.state, ChooseRep(d.rep, p.back), d.out), next, data, dict, p.len, q.dict);
  }

  lemma NewStepRecovers(q: Properties, e: Coder, d: Lzd, lz: Lz, data: seq<Byte>, dict: nat, p: Packet, bytes: seq<Byte>)
    requires Announced(q, dict) && Agrees(lz, data, d) && ValidPacket(lz, data, dict, p) && p.back >= NUM_REPS && p.back != MARK_LIT
    requires LEN_MIN <= p.len <= LEN_MAX && p.back - NUM_REPS < MAX_DISTANCE
    requires Follows(e, d.ds, bytes) && Leads(Run(e, NewMatchScript(lz, p)), bytes)
    ensures StepRecovered(DecodeNewMatch(q, d, |data|, bytes), Run(e, NewMatchScript(lz, p)), Advance(lz, p), data, bytes)
  {
    hide Run, Follows, Leads, LenDecode, LenScript, DecodeDistance, DistScript, PosState, PosStateOf, CopyMatch;
    AdvanceValid(lz, data, dict, p);
    var dist := p.back - NUM_REPS;
    MasksAnnounced(q, dict, d.out, 0);
    DistMatchRecovers(e, d.ds, p.len, dist, PosState(lz.pos), bytes);
    var (len, ds3) := LenDecode(d.ds, false, PosState(lz.pos), bytes);
    var next := Lz(UpdateMatch(lz.state), [dist + 1] + lz.reps[..3], lz.pos);
    PutTrueMatch(Lzd(DecodeDistance(ds3, len, bytes).1, next.state, [dist, d.rep[0], d.rep[1], d.rep[2]], d.out), next, data, dict, p.len, q.dict);
  }

  lemma LiteralStepRecovers(q: Properties, e: Coder, d: Lzd, lz: Lz, data: seq<Byte>, dict: nat, p: Packet, bytes: seq<Byte>)
    requires Announced(q, dict) && Agrees(lz, data, d) && ValidPacket(lz, data, dict, p) && p.back == MARK_LIT
    requires Follows(e, d.ds, bytes) && Leads(Run(e, LiteralScript(lz, data)), bytes)
    ensures StepRecovered(DecodeLiteral(q, d, bytes), Run(e, LiteralScript(lz, data)), Advance(lz, p), data, bytes)
  {
    hide Run, Follows, Leads, LiteralScript, DecodeLiteral;
    AdvanceValid(lz, data, dict, p);
    LiteralRecovers(q, dict, e, d, lz, data, bytes);
  }

  lemma DecodeStepRecovers(q: Properties, e: Coder, d: Lzd, lz: Lz, data: seq<Byte>, dict: nat, p: Packet, bytes: seq<Byte>)
    requires Announced(q, dict) && Agrees(lz, data, d) && ValidPacket(lz, data, dict, p)
    requires Follows(e, d.ds, bytes) && Leads(Run(e, PacketScript(lz, data, p)), bytes)
    ensures StepRecovered(DecodeStep(q, d, |data|, bytes), Run(e, PacketScript(lz, data, p)), Advance(lz, p), data, bytes)
  {
    hide Run, Follows, Leads, Step, Decode1, DecodeRepMatch, DecodeNewMatch, RepMatchScript, NewMatchScript, DecodeLiteral,
      LiteralScript, PosState, PosStateOf, StepRecovered, Advance;
    FollowsValid(e, d.ds, bytes);
    MasksAnnounced(q, dict, d.out, 0);
    PacketParts(lz, data, dict, p);
    var s1 := Sym(Modeled(IsMatch(lz.state, PosState(lz.pos))), if p.back == MARK_LIT then 0 else 1);
    DecodeHead(e, s1, BodyScript(lz, data, p), d.ds, bytes);
    var e1, d1 := Step(e, s1), d.(ds := Decode1(d.ds, s1.choice, bytes).1);
    if p.back == MARK_LIT {
      LiteralStepRecovers(q, e1, d1, lz, data, dict, p, bytes);
    } else {
      var s2 := Sym(Modeled(IsRep(lz.state)), if p.back < NUM_REPS then 1 else 0);
      FollowsValid(e1, d1.ds, bytes);
      var rest := if p.back < NUM_REPS then RepMatchScript(lz, p) else NewMatchScript(lz, p);
      DecodeHead(e1, s2, rest, d1.ds, bytes);
      var e2, d2 := Step(e1, s2), d1.(ds := Decode1(d1.ds, s2.choice, bytes).1);
      if p.back < NUM_REPS {
        RepStepRecovers(q, e2, d2, lz, data, dict, p, bytes);
      } else {
        NewStepRecovers(q, e2, d2, lz, data, dict, p, bytes);
      }
    }
  }

  /** How a packet's script is put together. */
  lemma PacketParts(lz: Lz, data: seq<Byte>, dict: nat, p: Packet)
    requires ValidLz(lz, data) && ValidPacket(lz, data, dict, p)
    ensures PacketScript(lz, data, p)
         == [Sym(Modeled(IsMatch(lz.state, PosState(lz.pos))), if p.back == MARK_LIT then 0 else 1)] + BodyScript(lz, data, p)
    ensures p.back == MARK_LIT ==> lz.pos < |data| && BodyScript(lz, data, p) == LiteralScript(lz, data)
    ensures p.back != MARK_LIT && p.back < NUM_REPS ==>
              BodyScript(lz, data, p) == [Sym(Modeled(IsRep(lz.state)), 1)] + RepMatchScript(lz, p)
    ensures p.back != MARK_LIT && p.back >= NUM_REPS ==>
              && LEN_MIN <= p.len <= LEN_MAX && p.back - NUM_REPS < MAX_DISTANCE
              && BodyScript(lz, data, p) == [Sym(Modeled(IsRep(lz.state)), 0)] + NewMatchScript(lz, p)
  {
    hide LiteralScript, RepMatchScript, NewMatchScript, PosState;
  }

  lemma {:induction false} DecodeLoopRecovers(q: Properties, e: Coder, d: Lzd, lz: Lz, data: seq<Byte>, dict: nat, ps: seq<Packet>, bytes: seq<Byte>, fuel: nat)
    requires Announced(q, dict) && Agrees(lz, data, d) && ValidParse(lz, data, dict, ps)
    requires |data| - lz.pos <= fuel
    requires Follows(e, d.ds, bytes)
    requires Flushed(Run(e, StreamScript(lz, data, dict, ps)), bytes)
    ensures DecodeLoop(q, d, |data|, bytes, fuel) == Some(data)
    decreases |ps|
  {
    hide Run, DecodeStep, PacketScript, ValidPacket, Val, Step, ValidProbs;
    if ps == [] {
      FollowsValid(e, d.ds, bytes);
      RunEmpty(e);
      assert bytes[..|bytes|] == bytes;
      assert data[..lz.pos] == data;
    } else {
      PacketShort(lz, data, dict, ps[0]);
      var head, rest := PacketScript(lz, data, ps[0]), StreamScript(Advance(lz, ps[0]), data, dict, ps[1..]);
      RunAppend(e, head, rest);
      FlushedLeads(Run(e, head + rest), bytes);
      LeadsRun(Run(e, head), rest, bytes);
      DecodeStepRecovers(q, e, d, lz, data, dict, ps[0], bytes);
      var d' := DecodeStep(q, d, |data|, bytes).value;
      DecodeLoopRecovers(q, Run(e, head), d', Advance(lz, ps[0]), data, dict, ps[1..], bytes, fuel - 1);
    }
  }

  lemma PacketShort(lz: Lz, data: seq<Byte>, dict: nat, p: Packet)
    requires ValidLz(lz, data) && ValidPacket(lz, data, dict, p)
    ensures p.len >= 1 && lz.pos < |data| && Advance(lz, p).pos == lz.pos + p.len
  {
  }

  /** The stream is lossless, in the format its header announces: whatever valid
    * parse the optimiser chooses, the specification's decoder, given the property
    * byte 93, turns the flushed bytes back into the data. */
  lemma StreamLossless(data: seq<Byte>, dict: nat, ps: seq<Packet>, bytes: seq<Byte>, props: seq<Byte>)
    requires |props| >= 5 && props[0] == 93 && dict <= DictSize(props)
    requires ValidParse(LZ_START, data, dict, ps)
    requires Flushed(Run(CoderStart(), StreamScript(LZ_START, data, dict, ps)), bytes)
    ensures Decompress(props, |data|, bytes) == Some(data)
  {
    hide Run, StreamScript, DecodeLoop, ValidPacket;
    var script := StreamScript(LZ_START, data, dict, ps);
    FlushedLeads(Run(CoderStart(), script), bytes);
    LeadsRun(CoderStart(), script, bytes);
    StartTracks(bytes);
    assert data[..0] == [];
    DecodeLoopRecovers(DecodeProperties(props).value, CoderStart(), DecodeStart(bytes), LZ_START, data, dict, ps, bytes, |data|);
  }

  // ------------------------------------------------------------- the encoder

  /** `CLzmaEnc`, as far as coding a chosen parse goes. */
  class LzmaEnc {
    const rc: RangeEnc
    var probs: Probs
    var state: nat
    var reps: seq<nat>

    ghost predicate Valid()
      reads this, rc, rc.bufBase
    {
      rc.Valid() && ValidProbs(probs)
    }

    /** What the range coder and the probability cells denote. */
    ghost function View(): (e: Coder)
      reads this, rc, rc.bufBase
      requires Valid()
      ensures ValidCoder(e)
    {
      Coder(rc.View(), probs)
    }

    /** `LzmaEnc_Init`. */
    constructor Init()
      ensures Valid() && fresh(rc) && fresh(rc.bufBase)
      ensures View() == CoderStart() && Lz(state, reps, 0) == LZ_START
    {
      rc := new RangeEnc.Init();
      probs := map[];
      state := 0;
      reps := [1, 1, 1, 1];
    }

    /** `RC_BIT` on one probability cell. */
    method EncodeBit(c: Cell, bit: Bit)
      requires Valid()
      modifies this`probs, rc, rc.bufBase
      ensures Valid() && rc.bufBase == old(rc.bufBase)
      ensures View() == Step(old(View()), Sym(Modeled(c), bit))
    {
      var prob := rc.EncodeBit(ProbOf(probs, c), bit);
      probs := probs[c := prob];
    }

    method EncodeDirectBit(bit: Bit)
      requires Valid()
      modifies rc, rc.bufBase
      ensures Valid() && rc.bufBase == old(rc.bufBase)
      ensures View() == Step(old(View()), Sym(Direct, bit))
    {
      rc.EncodeDirectBit(bit);
    }

    /** `LitEnc_Encode` and the tree loops of the same shape: `sym` carries a
      * leading one that the loop shifts up to its bound. */
    method EncodeTree(f: nat -> Cell, unit: nat, ghost levels: nat, symbol: nat)
      requires Valid() && (unit, levels) in {(8, 3), (64, 6), (256, 8)} && symbol < unit
      modifies this`probs, rc, rc.bufBase
      ensures Valid() && rc.bufBase == old(rc.bufBase)
      ensures View() == Run(old(View()), TreeScript(f, unit, levels, unit + symbol))
    {
      hide *;
      var sym: nat := unit + symbol;
      ghost var n: nat := levels;
      TreeLoopStart(unit, levels, sym);
      while sym < Limit(unit)
        invariant Valid() && rc.bufBase == old(rc.bufBase)
        invariant TreeLoop(unit, n, sym)
        invariant Run(View(), TreeScript(f, unit, n, sym)) == Run(old(View()), TreeScript(f, unit, levels, unit + symbol))
        decreases n
      {
        TreeLoopStep(unit, n, sym);
        TreeScriptStep(f, unit, n, sym);
        RunCons(View(), Sym(Modeled(f(NodeOf(sym, unit))), BranchOf(sym, unit)), TreeScript(f, unit, n - 1, sym * 2));
        EncodeBit(f(NodeOf(sym, unit)), BranchOf(sym, unit));
        sym := sym * 2;
        n := n - 1;
      }
      TreeLoopEnd(unit, n, sym);
      TreeScriptEnds(f, unit, sym);
      RunEmpty(View());
    }

    /** `LitEnc_EncodeMatched`. */
    method EncodeMatched(base: nat, symbol: Byte, match0: Byte)
      requires Valid()
      modifies this`probs, rc, rc.bufBase
      ensures Valid() && rc.bufBase == old(rc.bufBase)
      ensures View() == Run(old(View()), MatchedScript(base, 8, 256 + (symbol as nat), match0, 256))
    {
      hide *;
      var offs: nat := 256;
      var sym: nat := 256 + (symbol as nat);
      var matchByte: nat := match0;
      ghost var n: nat := 8;
      TreeLoopStart(256, 8, sym);
      while sym < Limit(256)
        invariant Valid() && rc.bufBase == old(rc.bufBase)
        invariant TreeLoop(256, n, sym)
        invariant Run(View(), MatchedScript(base, n, sym, matchByte, offs))
               == Run(old(View()), MatchedScript(base, 8, 256 + (symbol as nat), match0, 256))
        decreases n
      {
        TreeLoopStep(256, n, sym);
        MatchedScriptStep(base, n, sym, matchByte, offs);
        matchByte := matchByte * 2;
        var index := MatchedIndex(offs, matchByte, sym);
        var bit := BranchOf(sym, 256);
        sym := sym * 2;
        offs := MatchedOffs(offs, matchByte, sym);
        RunCons(View(), Sym(Modeled(LitProbs(base + index)), bit), MatchedScript(base, n - 1, sym, matchByte, offs));
        EncodeBit(LitProbs(base + index), bit);
        n := n - 1;
      }
      TreeLoopEnd(256, n, sym);
      MatchedScriptEnds(base, sym, matchByte, offs);
      RunEmpty(View());
    }

    /** `RcTree_ReverseEncode`. */
    method ReverseEncode(f: nat -> Cell, numBits: nat, symbol: nat)
      requires Valid() && numBits > 0
      modifies this`probs, rc, rc.bufBase
      ensures Valid() && rc.bufBase == old(rc.bufBase)
      ensures View() == Run(old(View()), ReverseScript(f, numBits, 1, symbol))
    {
      hide *;
      var n: nat, m: nat, sym: nat := numBits, 1, symbol;
      while n != 0
        invariant Valid() && rc.bufBase == old(rc.bufBase)
        invariant Run(View(), ReverseScript(f, n, m, sym)) == Run(old(View()), ReverseScript(f, numBits, 1, symbol))
        decreases n
      {
        ReverseScriptStep(f, n, m, sym);
        var bit := sym % 2;
        RunCons(View(), Sym(Modeled(f(m)), bit), ReverseScript(f, n - 1, 2 * m + bit, sym / 2));
        sym := sym / 2;
        EncodeBit(f(m), bit);
        m := m * 2 + bit;
        n := n - 1;
      }
      ReverseScriptEnds(f, m, sym);
      RunEmpty(View());
    }

    /** The direct-bit loop, left when only the sentinel pattern remains. */
    method EncodeDirect(register: nat, ghost count: nat, ghost q: nat)
      requires Valid() && 0 < count <= 28 && q < Pow2(count)
      requires register == Sentinel(count, q) < WORD
      modifies this`probs, rc, rc.bufBase
      ensures Valid() && rc.bufBase == old(rc.bufBase)
      ensures View() == Run(old(View()), DirectScript(count, register))
    {
      hide Pow2, Pattern, Sentinel, Step;
      var pos2: nat := register;
      ghost var n: nat, left: nat := count, q;
      SentinelExit(n, left);
      while pos2 != 0xF000_0000
        invariant Valid() && rc.bufBase == old(rc.bufBase)
        invariant n <= 28 && left < Pow2(n) && pos2 == Sentinel(n, left) < WORD
        invariant Run(View(), DirectScript(n, pos2)) == Run(old(View()), DirectScript(count, register))
        decreases n
      {
        SentinelExit(n, left);
        SentinelStep(n, left);
        var bit := pos2 / 0x8000_0000;
        RunCons(View(), Sym(Direct, bit), DirectScript(n - 1, (pos2 * 2) % WORD));
        EncodeDirectBit(bit);
        pos2 := (pos2 * 2) % WORD;
        DivModEquation(left, Pow2(n - 1));
        n, left := n - 1, left % Pow2(n - 1);
      }
      SentinelExit(n, left);
      RunEmpty(View());
    }

    /** `LenEnc_Encode`. */
    method LenEncode(rep: bool, symbol: nat, posState: nat)
      requires Valid() && symbol < 272
      modifies this`probs, rc, rc.bufBase
      ensures Valid() && rc.bufBase == old(rc.bufBase)
      ensures View() == Run(old(View()), LenScript(rep, symbol, posState))
    {
      hide Run, Step, TreeScript, ValidProbs, RangeEnc.View;
      var sym := symbol;
      ghost var e := View();
      if sym >= 8 {
        EncodeBit(LenCell(rep, 0), 1);
        ghost var e1 := View();
        if sym >= 16 {
          EncodeBit(LenCell(rep, 8), 1);
          ghost var tree := TreeScript(HighCells(rep), 256, 8, 256 + (symbol - 16));
          RunCons(e, Sym(Modeled(LenCell(rep, 0)), 1), [Sym(Modeled(LenCell(rep, 8)), 1)] + tree);
          RunCons(e1, Sym(Modeled(LenCell(rep, 8)), 1), tree);
          EncodeTree(HighCells(rep), 256, 8, sym - 16);
          return;
        }
        sym := sym - 8;
        EncodeBit(LenCell(rep, 8), 0);
        ghost var tree := TreeScript(LowCells(rep, 8 + posState * 16), 8, 3, symbol);
        RunCons(e, Sym(Modeled(LenCell(rep, 0)), 1), [Sym(Modeled(LenCell(rep, 8)), 0)] + tree);
        RunCons(e1, Sym(Modeled(LenCell(rep, 8)), 0), tree);
        EncodeTree(LowCells(rep, 8 + posState * 16), 8, 3, sym);
      } else {
        EncodeBit(LenCell(rep, 0), 0);
        RunCons(e, Sym(Modeled(LenCell(rep, 0)), 0), TreeScript(LowCells(rep, posState * 16), 8, 3, 8 + symbol));
        EncodeTree(LowCells(rep, posState * 16), 8, 3, sym);
      }
    }

    /** The distance part of `LzmaEnc_CodeOneBlock`. */
    method EncodeDistance(fastPos: array<nat>, len: nat, dist: nat)
      requires Valid() && len >= LEN_MIN && dist < MAX_DISTANCE
      requires fastPos.Length == TABLE_SIZE && forall i :: 0 <= i < TABLE_SIZE ==> fastPos[i] == Slot(i)
      modifies this`probs, rc, rc.bufBase
      ensures Valid() && rc.bufBase == old(rc.bufBase)
      ensures View() == Run(old(View()), DistScript(len, dist))
    {
      hide Run, Step, TreeScript, Slot, Pow2, Footer, Base, ReverseScript, DirectScript, DirectRegister;
      var slot := GetPosSlot(fastPos, dist);
      SlotBelow64(dist);
      ghost var e := View();
      EncodeTree(PosSlotCells(LenState(len)), 64, 6, slot);
      ghost var head := TreeScript(PosSlotCells(LenState(len)), 64, 6, 64 + slot);
      RunAppend(e, head, if dist < 4 then [] else FooterScript(dist));
      if dist >= 4 {
        EncodeFooter(slot, dist);
      } else {
        RunEmpty(View());
      }
    }

    method EncodeFooter(slot: nat, dist: nat)
      requires Valid() && 4 <= dist < MAX_DISTANCE && slot == Slot(dist)
      modifies this`probs, rc, rc.bufBase
      ensures Valid() && rc.bufBase == old(rc.bufBase)
      ensures View() == Run(old(View()), FooterScript(dist))
    {
      hide Run, Step, Slot, ReverseScript, DirectScript, Pow2, Sentinel;
      FooterBounds(dist);
      var footerBits := slot / 2 - 1;
      if dist < NUM_FULL_DISTANCES {
        var base := (2 + slot % 2) * HalfPower(footerBits);
        ReverseEncode(PosCells(base), footerBits, dist);
      } else {
        var pos2 := ((dist / 16 * 16 + 15) * HalfPower(32 - footerBits)) % WORD;
        RegisterIsSentinel(dist, footerBits);
        ghost var e := View();
        ghost var direct := DirectScript(footerBits - 4, pos2);
        EncodeDirect(pos2, footerBits - 4, (dist % Pow2(footerBits)) / 16);
        RunAppend(e, direct, ReverseScript(AlignCells(), 4, 1, dist));
        ReverseEncode(AlignCells(), 4, dist);
      }
    }

    /** The literal branch of `LzmaEnc_CodeOneBlock`, after its first bit. */
    method EncodeLiteral(data: array<Byte>, pos: nat)
      requires Valid() && ValidLz(Lz(state, reps, pos), data[..]) && pos < data.Length && data != rc.bufBase
      modifies this`probs, rc, rc.bufBase
      ensures Valid() && rc.bufBase == old(rc.bufBase)
      ensures View() == Run(old(View()), LiteralScript(Lz(state, reps, pos), old(data[..])))
    {
      hide Run, Step, LitBase, TreeScript, MatchedScript;
      var prev: Byte := if pos == 0 then 0 else data[pos - 1];
      var base := LitBase(pos, prev);
      if state < 7 {
        EncodeTree(LitCells(base), 256, 8, data[pos]);
      } else {
        EncodeMatched(base, data[pos], data[pos - reps[0]]);
      }
    }

    /** The shifts of `reps` that bring a repeated distance to the front. */
    method MoveToFront(index: nat)
      requires index < NUM_REPS && |reps| == NUM_REPS
      modifies this`reps
      ensures reps == MoveRep(old(reps), index)
    {
      if index != 0 {
        var dist := reps[index];
        if index >= 2 {
          if index == 3 {
            reps := reps[3 := reps[2]];
          }
          reps := reps[2 := reps[1]];
        }
        reps := reps[1 := reps[0]];
        reps := reps[0 := dist];
      }
    }

    /** The selection bits of a repeated match. */
    method EncodeRep(index: nat, len: nat, pos: nat)
      requires Valid() && index < NUM_REPS
      modifies this`probs, rc, rc.bufBase
      ensures Valid() && rc.bufBase == old(rc.bufBase)
      ensures View() == Run(old(View()), RepScript(Lz(state, reps, pos), Packet(len, index)))
    {
      hide Step, Run, ValidProbs, RangeEnc.View;
      ghost var e := View();
      ghost var script := RepScript(Lz(state, reps, pos), Packet(len, index));
      RunCons(e, script[0], script[1..]);
      RunCons(Step(e, script[0]), script[1], script[2..]);
      assert script == [script[0]] + script[1..] && script[1..] == [script[1]] + script[2..];
      if index == 0 {
        assert script[2..] == [];
        EncodeBit(IsRepG0(state), 0);
        EncodeBit(IsRep0Long(state, PosState(pos)), if len != 1 then 1 else 0);
        RunEmpty(View());
      } else {
        EncodeBit(IsRepG0(state), 1);
        if index == 1 {
          assert script[2..] == [];
          EncodeBit(IsRepG1(state), 0);
          RunEmpty(View());
        } else {
          assert script[2..] == [script[2]];
          EncodeBit(IsRepG1(state), 1);
          RunOne(View(), script[2]);
          EncodeBit(IsRepG2(state), if index == 2 then 0 else 1);
        }
      }
    }

    method CodeRepMatch(pos: nat, p: Packet)
      requires Valid() && state < 12 && |reps| == NUM_REPS && p.back < NUM_REPS && 1 <= p.len <= LEN_MAX
      modifies this, rc, rc.bufBase
      ensures Valid() && rc.bufBase == old(rc.bufBase)
      ensures state == (if p.len == 1 then UpdateShortRep(old(state)) else UpdateRep(old(state))) && reps == MoveRep(old(reps), p.back)
      ensures View() == Run(old(View()), RepMatchScript(old(Lz(state, reps, pos)), p))
    {
      hide Run, RepScript, LenScript, ValidProbs, RangeEnc.View, MoveRep;
      StateTables(state);
      ghost var lz := Lz(state, reps, pos);
      ghost var lens := if p.len < LEN_MIN then [] else LenScript(true, p.len - LEN_MIN, PosState(pos));
      RunAppend(View(), RepScript(lz, p), lens);
      EncodeRep(p.back, p.len, pos);
      MoveToFront(p.back);
      if p.len != 1 {
        LenEncode(true, p.len - LEN_MIN, PosState(pos));
        state := REP_NEXT[state];
      } else {
        RunEmpty(View());
        state := SHORT_REP_NEXT[state];
      }
    }

    method CodeNewMatch(fastPos: array<nat>, pos: nat, p: Packet)
      requires Valid() && state < 12 && |reps| == NUM_REPS && p.back >= NUM_REPS && p.back - NUM_REPS < MAX_DISTANCE
      requires LEN_MIN <= p.len <= LEN_MAX
      requires fastPos.Length == TABLE_SIZE && forall i :: 0 <= i < TABLE_SIZE ==> fastPos[i] == Slot(i)
      modifies this, rc, rc.bufBase
      ensures Valid() && rc.bufBase == old(rc.bufBase)
      ensures state == UpdateMatch(old(state)) && reps == [p.back - NUM_REPS + 1] + old(reps)[..3]
      ensures View() == Run(old(View()), NewMatchScript(old(Lz(state, reps, pos)), p))
    {
      hide Run, LenScript, DistScript, ValidProbs, RangeEnc.View;
      StateTables(state);
      var dist := p.back - NUM_REPS;
      RunAppend(View(), LenScript(false, p.len - LEN_MIN, PosState(pos)), DistScript(p.len, dist));
      state := MATCH_NEXT[state];
      LenEncode(false, p.len - LEN_MIN, PosState(pos));
      reps := [dist + 1, reps[0], reps[1], reps[2]];
      EncodeDistance(fastPos, p.len, dist);
    }

    /** One step of `LzmaEnc_CodeOneBlock`. */
    method CodePacket(fastPos: array<nat>, data: array<Byte>, pos: nat, p: Packet, ghost dict: nat)
      requires Valid() && data != rc.bufBase
      requires fastPos.Length == TABLE_SIZE && forall i :: 0 <= i < TABLE_SIZE ==> fastPos[i] == Slot(i)
      requires ValidLz(Lz(state, reps, pos), data[..]) && ValidPacket(Lz(state, reps, pos), data[..], dict, p)
      modifies this, rc, rc.bufBase
      ensures Valid() && rc.bufBase == old(rc.bufBase)
      ensures Lz(state, reps, pos + p.len) == Advance(old(Lz(state, reps, pos)), p)
      ensures View() == Run(old(View()), PacketScript(old(Lz(state, reps, pos)), old(data[..]), p))
    {
      hide Run, Step, LiteralScript, RepScript, LenScript, DistScript, ValidProbs, RangeEnc.View;
      ghost var e, lz, bytes := View(), Lz(state, reps, pos), data[..];
      StateTables(state);
      var posState := PosState(pos);
      ghost var body := BodyScript(lz, bytes, p);
      RunCons(e, Sym(Modeled(IsMatch(state, posState)), if p.back == MARK_LIT then 0 else 1), body);
      if p.back == MARK_LIT {
        EncodeBit(IsMatch(state, posState), 0);
        EncodeLiteral(data, pos);
        state := LITERAL_NEXT[state];
      } else {
        EncodeBit(IsMatch(state, posState), 1);
        ghost var e1 := View();
        if p.back < NUM_REPS {
          RunCons(e1, Sym(Modeled(IsRep(state)), 1), RepMatchScript(lz, p));
          EncodeBit(IsRep(state), 1);
          CodeRepMatch(pos, p);
        } else {
          RunCons(e1, Sym(Modeled(IsRep(state)), 0), NewMatchScript(lz, p));
          EncodeBit(IsRep(state), 0);
          CodeNewMatch(fastPos, pos, p);
        }
      }
    }
  }

  /** The bound of the tree loops, `1 << (2 * numBits)`. */
  function Limit(unit: nat): nat { unit * unit }

  /** With `n` bits to go the leading one is `n` places below the bound. */
  ghost predicate TreeLoop(unit: nat, n: nat, sym: nat) {
    Limit(unit) <= sym * Pow2(n) < 2 * Limit(unit)
  }

  lemma ReverseScriptStep(f: nat -> Cell, n: nat, m: nat, sym: nat)
    requires n > 0
    ensures ReverseScript(f, n, m, sym) == [Sym(Modeled(f(m)), sym % 2)] + ReverseScript(f, n - 1, 2 * m + sym % 2, sym / 2)
  {
  }

  lemma ReverseScriptEnds(f: nat -> Cell, m: nat, sym: nat)
    ensures ReverseScript(f, 0, m, sym) == []
  {
  }

  /** `offs + (matchByte & offs) + (sym >> 8)`, where `offs` is 0x100 or zero. */
  function MatchedIndex(offs: nat, matchByte: nat, sym: nat): nat {
    offs + (if offs == 256 then (matchByte / 256) % 2 * 256 else 0) + sym / 256
  }

  /** `offs &= ~(matchByte ^ sym)`. */
  function MatchedOffs(offs: nat, matchByte: nat, sym: nat): nat {
    if offs == 256 && (matchByte / 256) % 2 == (sym / 256) % 2 then 256 else 0
  }

  lemma MatchedScriptStep(base: nat, n: nat, sym: nat, matchByte: nat, offs: nat)
    requires n > 0
    ensures MatchedScript(base, n, sym, matchByte, offs)
         == [Sym(Modeled(LitProbs(base + MatchedIndex(offs, matchByte * 2, sym))), BranchOf(sym, 256))]
            + MatchedScript(base, n - 1, sym * 2, matchByte * 2, MatchedOffs(offs, matchByte * 2, sym * 2))
  {
  }

  lemma MatchedScriptEnds(base: nat, sym: nat, matchByte: nat, offs: nat)
    ensures MatchedScript(base, 0, sym, matchByte, offs) == []
  {
  }

  /** The tree node a shifted symbol stands at, and the bit it takes there. */
  function NodeOf(sym: nat, unit: nat): nat
    requires unit in {8, 64, 256}
  {
    sym / unit
  }

  function BranchOf(sym: nat, unit: nat): (bit: nat)
    requires unit in {8, 64, 256}
    ensures bit < 2
  {
    (sym / (unit / 2)) % 2
  }

  lemma TreeScriptStep(f: nat -> Cell, unit: nat, n: nat, sym: nat)
    requires unit in {8, 64, 256} && n > 0
    ensures TreeScript(f, unit, n, sym)
         == [Sym(Modeled(f(NodeOf(sym, unit))), BranchOf(sym, unit))] + TreeScript(f, unit, n - 1, sym * 2)
  {
  }

  lemma TreeScriptEnds(f: nat -> Cell, unit: nat, sym: nat)
    requires unit in {8, 64, 256}
    ensures TreeScript(f, unit, 0, sym) == []
  {
  }

  lemma TreeLoopStart(unit: nat, levels: nat, sym: nat)
    requires (unit, levels) in {(8, 3), (64, 6), (256, 8)} && unit <= sym < 2 * unit
    ensures TreeLoop(unit, levels, sym)
  {
    assert Pow2(3) == 8;
    assert Pow2(6) == 8 * Pow2(3);
    assert Pow2(8) == 4 * Pow2(6);
    assert Pow2(levels) == unit;
  }

  lemma TreeLoopStep(unit: nat, n: nat, sym: nat)
    requires TreeLoop(unit, n, sym) && sym < Limit(unit)
    ensures n > 0 && TreeLoop(unit, n - 1, sym * 2)
  {
    assert Pow2(0) == 1;
    MulRegroups(2, sym, Pow2(n - 1));
  }

  lemma TreeLoopEnd(unit: nat, n: nat, sym: nat)
    requires TreeLoop(unit, n, sym) && sym >= Limit(unit)
    ensures n == 0
  {
    if n > 0 {
      Pow2Double(n);
      MulMonotone(2, Pow2(n), sym);
    }
  }

  /** The announced dictionary: at least the one used, in a round number. */
  method RoundedDict(dict: nat) returns (dictSize: nat)
    requires dict < WORD
    ensures dict <= dictSize < WORD
    ensures 0x40_0000 <= dict && dict % 0x10_0000 == 0 ==> dictSize == dict
  {
    dictSize := dict;
    if dictSize >= 0x40_0000 {
      var dictMask := 0xF_FFFF;
      if dictSize < 0xFFFF_FFFF - dictMask {
        RoundUp(dictSize, 0x10_0000);
        dictSize := (dictSize + dictMask) / 0x10_0000 * 0x10_0000;
      }
    } else {
      var unit := 2048;
      for i := 11 to 31
        invariant dictSize == dict && (unit == 2048 || unit < dictSize)
      {
        if dictSize <= 2 * unit {
          dictSize := 2 * unit;
          break;
        }
        if dictSize <= 3 * unit {
          dictSize := 3 * unit;
          break;
        }
        unit := 2 * unit;
      }
    }
  }

  lemma RoundUp(x: nat, unit: nat)
    requires unit > 0
    ensures x <= (x + unit - 1) / unit * unit < x + unit
    ensures x % unit == 0 ==> (x + unit - 1) / unit * unit == x
  {
    DivModEquation(x, unit);
    DivModEquation(x + unit - 1, unit);
    if x % unit == 0 {
      DivModUnique(x + unit - 1, unit, x / unit, unit - 1);
    }
  }

  /** `LzmaEnc_WriteProperties`: the parameters in one byte, and behind it the
    * dictionary's size. */
  method WriteProperties(dict: nat) returns (props: seq<Byte>)
    requires dict < WORD
    ensures |props| == 5 && props[0] == 93 && dict <= DictSize(props)
    ensures 0x40_0000 <= dict && dict % 0x10_0000 == 0 ==> DictSize(props) == dict
  {
    var d := RoundedDict(dict);
    FourBytes(d);
    props := [(PB * 5 + LP) * 9 + LC, d % 256, d / 0x100 % 256, d / 0x1_0000 % 256, d / 0x100_0000];
  }

  lemma FourBytes(v: nat)
    requires v < WORD
    ensures v == v % 256 + 0x100 * (v / 0x100 % 256) + 0x1_0000 * (v / 0x1_0000 % 256) + 0x100_0000 * (v / 0x100_0000)
  {
    DivDiv(v, 0x100, 0x100);
    DivDiv(v, 0x1_0000, 0x100);
  }

  /** The encoder run over a whole parse: the bytes it hands to its output
    * stream decompress to the data it was given. */
  method Encode(data: array<Byte>, ps: seq<Packet>, dict: nat, ghost props: seq<Byte>) returns (bytes: seq<Byte>)
    requires |props| >= 5 && props[0] == 93 && dict <= DictSize(props)
    requires ValidParse(LZ_START, data[..], dict, ps)
    ensures Decompress(props, data.Length, bytes) == Some(data[..])
  {
    hide Run, PacketScript, ValidPacket, Decompress, Advance, Slot;
    var fastPos := FastPosInit();
    var enc := new LzmaEnc.Init();
    ghost var content := data[..];
    ghost var script := StreamScript(LZ_START, content, dict, ps);
    var pos: nat, i: nat := 0, 0;
    while i < |ps|
      invariant i <= |ps| && enc.Valid() && enc.rc.bufBase != data && data[..] == content
      invariant fresh(enc) && fresh(enc.rc) && fresh(enc.rc.bufBase)
      invariant fastPos.Length == TABLE_SIZE && forall k :: 0 <= k < TABLE_SIZE ==> fastPos[k] == Slot(k)
      invariant ValidParse(Lz(enc.state, enc.reps, pos), content, dict, ps[i..])
      invariant Run(enc.View(), StreamScript(Lz(enc.state, enc.reps, pos), content, dict, ps[i..])) == Run(CoderStart(), script)
    {
      ghost var e, lz := enc.View(), Lz(enc.state, enc.reps, pos);
      PacketShort(lz, content, dict, ps[i]);
      assert ps[i..][1..] == ps[i + 1..];
      RunAppend(e, PacketScript(lz, content, ps[i]), StreamScript(Advance(lz, ps[i]), content, dict, ps[i + 1..]));
      enc.CodePacket(fastPos, data, pos, ps[i], dict);
      pos := pos + ps[i].len;
      i := i + 1;
    }
    assert ps[i..] == [];
    RunEmpty(enc.View());
    enc.rc.FlushData();
    bytes := enc.rc.Take();
    StreamLossless(content, dict, ps, bytes, props);
  }
}
