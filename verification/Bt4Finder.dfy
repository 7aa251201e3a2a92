/** `CMatchFinder` with four hash bytes and binary trees, reading from memory:
  * one hash lookup and one tree insertion per position, limits and position
  * normalisation included. */
module Bt4Finder {
  import opened Arith
  import opened Words
  import opened Strings
  import opened MatchTree
  import opened TreeSearch
  import opened MatchFinder
  import opened LzHash

  datatype Config = Config(cbs: nat, matchMaxLen: nat, keepSizeAfter: nat, cutValue: nat, hashSize: nat, crc: CrcTable)
  {
    ghost predicate Valid() {
      && 1 <= cbs <= MAX_HISTORY_SIZE + 1
      && 4 <= matchMaxLen <= keepSizeAfter
      && hashSize > 0
    }
  }

  /** The mutable part of the finder. `hash` holds the two-byte, three-byte and
    * main tables behind one another. */
  datatype Snap = Snap(hash: seq<nat>, son: seq<nat>, buffer: nat, pos: nat, posLimit: nat, streamPos: nat, lenLimit: nat, cyclicBufferPos: nat)

  function Min(a: nat, b: nat): nat { if a < b then a else b }

  // ------------------------------------------------------- moving by one byte

  /** `MatchFinder_SetLimits`. */
  function SetLimits(c: Config, s: Snap): Snap
    requires s.pos <= MAX_VAL_FOR_NORMALIZE && s.cyclicBufferPos <= c.cbs
  {
    var avail := (s.streamPos - s.pos) % WORD;
    var limit2 := if avail <= c.keepSizeAfter then (if avail > 0 then 1 else 0) else avail - c.keepSizeAfter;
    var limit := Min(limit2, Min(c.cbs - s.cyclicBufferPos, MAX_VAL_FOR_NORMALIZE - s.pos));
    s.(lenLimit := Min(avail, c.matchMaxLen), posLimit := s.pos + limit)
  }

  /** `MatchFinder_Normalize`. */
  function Normalize(c: Config, s: Snap): Snap
    requires c.cbs <= s.pos
  {
    var sub := SubValue(s.pos, c.cbs);
    s.(hash := NormAll(s.hash, sub), son := NormAll(s.son, sub),
       pos := s.pos - sub, streamPos := (s.streamPos - sub) % WORD)
  }

  /** `MatchFinder_CheckLimits`, the whole input having been read. */
  function CheckLimits(c: Config, s: Snap): Snap
    requires c.cbs <= s.pos <= MAX_VAL_FOR_NORMALIZE && s.cyclicBufferPos <= c.cbs
  {
    var s1 := if s.pos == MAX_VAL_FOR_NORMALIZE then Normalize(c, s) else s;
    var s2 := if s1.cyclicBufferPos == c.cbs then s1.(cyclicBufferPos := 0) else s1;
    SetLimits(c, s2)
  }

  /** `MOVE_POS`. */
  function Moved(c: Config, s: Snap): Snap
    requires c.cbs <= s.pos < MAX_VAL_FOR_NORMALIZE && s.cyclicBufferPos < c.cbs
  {
    var s1 := s.(cyclicBufferPos := s.cyclicBufferPos + 1, buffer := s.buffer + 1, pos := s.pos + 1);
    if s1.pos == s1.posLimit then CheckLimits(c, s1) else s1
  }

  // ----------------------------------------------------------- the invariant

  /** The limits in force make the next call cheap and safe: the cyclic position
    * cannot run off its window, nor the position off 32 bits, nor the compared
    * bytes off the data, before the limits are checked again. */
  ghost predicate LimitsOK(c: Config, n: nat, s: Snap) {
    && c.Valid() && s.buffer <= n < WORD
    && c.cbs <= s.pos <= s.posLimit <= MAX_VAL_FOR_NORMALIZE && s.pos < MAX_VAL_FOR_NORMALIZE
    && s.streamPos == (s.pos + (n - s.buffer)) % WORD
    && s.lenLimit == Min(n - s.buffer, c.matchMaxLen)
    && s.cyclicBufferPos == Slot(c.cbs, s.buffer) && s.cyclicBufferPos + (s.posLimit - s.pos) <= c.cbs
    && (s.buffer < n ==> s.pos < s.posLimit)
    && s.posLimit - s.pos <= (if n - s.buffer <= c.keepSizeAfter then 1 else n - s.buffer - c.keepSizeAfter)
  }

  ghost function FrameOf(c: Config, d: seq<Byte>, s: Snap, base: int): Frame {
    Frame(d, c.cbs, base, s.buffer, s.lenLimit)
  }

  /** A cell of the two small tables refers to nothing in the window, or to a
    * position with that hash. */
  ghost predicate SmallCellOK(c: Config, f: Frame, i: nat, v: nat) {
    f.Out(v)
    || (0 <= v + f.base < f.cur && v + f.base + 4 <= |f.d|
        && if i < HASH2_SIZE then Hash2(c.crc, f.d[v + f.base], f.d[v + f.base + 1]) == i
           else Hash3(c.crc, f.d[v + f.base], f.d[v + f.base + 1], f.d[v + f.base + 2]) == i - HASH2_SIZE)
  }

  ghost predicate TablesOK(c: Config, f: Frame, hash: seq<nat>, forest: Forest) {
    && f.Valid() && |hash| == FIX4_HASH_SIZE + c.hashSize
    && (forall i :: 0 <= i < FIX4_HASH_SIZE ==> SmallCellOK(c, f, i, hash[i]))
    && (forall i :: FIX4_HASH_SIZE <= i < |hash| ==> RootOK(f, forest, hash[i], i))
  }

  /** Everything a finder keeps between calls; `base` turns stored references
    * into positions of the data. */
  ghost predicate Inv(c: Config, d: seq<Byte>, s: Snap, base: int, forest: Forest) {
    && LimitsOK(c, |d|, s) && s.pos == s.buffer - base
    && Settled(FrameOf(c, d, s, base), s.son, forest)
    && TablesOK(c, FrameOf(c, d, s, base), s.hash, forest)
  }

  // -------------------------------------------------------- keeping it: moves

  lemma WrapDifference(pos: nat, avail: nat)
    requires avail < WORD
    ensures ((pos + avail) % WORD - pos) % WORD == avail
  {
    var q := (pos + avail) / WORD;
    DivModEquation(pos + avail, WORD);
    DivModUnique((pos + avail) % WORD - pos, WORD, -q, avail);
  }

  lemma NextSlot(b: nat, cbs: nat)
    requires cbs >= 1
    ensures Slot(cbs, b + 1) == if Slot(cbs, b) + 1 == cbs then 0 else Slot(cbs, b) + 1
  {
    DivModEquation(b, cbs);
    if b % cbs + 1 == cbs {
      MulDistributes(b / cbs, 1, cbs);
      DivModUnique(b + 1, cbs, b / cbs + 1, 0);
    } else {
      DivModUnique(b + 1, cbs, b / cbs, b % cbs + 1);
    }
  }

  /** Setting the limits from scratch gives sound ones. */
  lemma SetLimitsOK(c: Config, n: nat, s: Snap)
    requires c.Valid() && s.buffer <= n < WORD
    requires c.cbs <= s.pos < MAX_VAL_FOR_NORMALIZE && s.cyclicBufferPos == Slot(c.cbs, s.buffer) < c.cbs
    requires s.streamPos == (s.pos + (n - s.buffer)) % WORD
    ensures LimitsOK(c, n, SetLimits(c, s))
    ensures SetLimits(c, s) == s.(lenLimit := Min(n - s.buffer, c.matchMaxLen), posLimit := SetLimits(c, s).posLimit)
  {
    WrapDifference(s.pos, n - s.buffer);
  }

  /** How the shift changes when a move normalises. */
  ghost function MovedBase(c: Config, s: Snap, base: int): int {
    if s.pos + 1 == s.posLimit && s.pos + 1 == MAX_VAL_FOR_NORMALIZE && c.cbs <= s.pos
    then base + SubValue(s.pos + 1, c.cbs) else base
  }

  /** A move keeps the limits sound, and changes tables only by normalising. */
  lemma MovedLimits(c: Config, n: nat, s: Snap)
    requires LimitsOK(c, n, s) && s.buffer < n
    ensures var t := Moved(c, s);
            && LimitsOK(c, n, t) && t.buffer == s.buffer + 1 && t.lenLimit <= s.lenLimit
            && if s.pos + 1 == s.posLimit && s.pos + 1 == MAX_VAL_FOR_NORMALIZE
               then var sub := SubValue(s.pos + 1, c.cbs);
                    t.pos == s.pos + 1 - sub && t.hash == NormAll(s.hash, sub) && t.son == NormAll(s.son, sub)
               else t.pos == s.pos + 1 && t.hash == s.hash && t.son == s.son
  {
    hide Slot, CheckLimits, NormAll, SubValue;
    NextSlot(s.buffer, c.cbs);
    var s1 := s.(cyclicBufferPos := s.cyclicBufferPos + 1, buffer := s.buffer + 1, pos := s.pos + 1);
    assert s1.streamPos == (s1.pos + (n - s1.buffer)) % WORD;
    if s1.pos == s1.posLimit {
      CheckedLimits(c, n, s1);
    }
  }

  /** Sound but for the limits, which are due to be set again. */
  ghost predicate LimitsDue(c: Config, n: nat, s: Snap) {
    && c.Valid() && s.buffer <= n < WORD && c.cbs <= s.pos <= MAX_VAL_FOR_NORMALIZE
    && s.streamPos == (s.pos + (n - s.buffer)) % WORD
    && (s.cyclicBufferPos == Slot(c.cbs, s.buffer) || (s.cyclicBufferPos == c.cbs && Slot(c.cbs, s.buffer) == 0))
  }

  lemma NormalizedDue(c: Config, n: nat, s: Snap)
    requires LimitsDue(c, n, s) && s.pos == MAX_VAL_FOR_NORMALIZE
    ensures LimitsDue(c, n, Normalize(c, s)) && Normalize(c, s).pos < MAX_VAL_FOR_NORMALIZE
  {
    hide Slot, NormAll, SubValue;
    NormaliseSimulates(s.pos, c.cbs, 0);
    WrapShift(s.pos, n - s.buffer, SubValue(s.pos, c.cbs));
  }

  lemma CheckedLimits(c: Config, n: nat, s: Snap)
    requires LimitsDue(c, n, s)
    ensures var t, u := CheckLimits(c, s), if s.pos == MAX_VAL_FOR_NORMALIZE then Normalize(c, s) else s;
            && LimitsOK(c, n, t) && t.buffer == s.buffer && t.pos == u.pos && t.hash == u.hash && t.son == u.son
            && t.lenLimit == Min(n - s.buffer, c.matchMaxLen)
  {
    hide Slot, SetLimits, Normalize;
    var s1 := s;
    if s.pos == MAX_VAL_FOR_NORMALIZE {
      NormalizedDue(c, n, s);
      NormalizedKeeps(c, s);
      s1 := Normalize(c, s);
    }
    SetLimitsOK(c, n, if s1.cyclicBufferPos == c.cbs then s1.(cyclicBufferPos := 0) else s1);
  }

  lemma NormalizedKeeps(c: Config, s: Snap)
    requires c.cbs <= s.pos
    ensures Normalize(c, s).buffer == s.buffer && Normalize(c, s).cyclicBufferPos == s.cyclicBufferPos
  {
  }

  lemma WrapShift(pos: nat, avail: nat, sub: nat)
    requires sub <= pos
    ensures ((pos + avail) % WORD - sub) % WORD == (pos - sub + avail) % WORD
  {
    var q := (pos + avail) / WORD;
    DivModEquation(pos + avail, WORD);
    var x := (pos + avail) % WORD - sub;
    DivModEquation(x, WORD);
    DivModUnique(pos - sub + avail, WORD, q + x / WORD, x % WORD);
  }

  /** Positions are taken back when the next one would be the last of 32 bits, and
    * only then: by a multiple of 1024, to less than that above the window's size. */
  lemma NormalisesWhen(c: Config, n: nat, s: Snap)
    requires LimitsOK(c, n, s) && s.buffer < n
    ensures Moved(c, s).pos != s.pos + 1 <==> s.pos + 1 == 0xFFFF_FFFF
    ensures s.pos + 1 == 0xFFFF_FFFF ==>
              c.cbs <= Moved(c, s).pos < c.cbs + 1024 && (s.pos + 1 - Moved(c, s).pos) % 1024 == 0
  {
    hide Moved, Slot, NormAll;
    MovedLimits(c, n, s);
    if s.pos + 1 == 0xFFFF_FFFF {
      var gap := s.pos + 1 - c.cbs;
      DivModEquation(gap, 1024);
      DivModUnique(gap - gap % 1024, 1024, gap / 1024, 0);
    }
  }

  lemma SmallCellMoves(c: Config, f: Frame, g: Frame, i: nat, v: nat)
    requires SmallCellOK(c, f, i, v) && g == f.(cur := f.cur + 1, len := g.len)
    ensures SmallCellOK(c, g, i, v)
  {
  }

  lemma SmallCellNormalises(c: Config, f: Frame, i: nat, v: nat)
    requires f.Valid() && SmallCellOK(c, f, i, v)
    ensures var sub := SubValue(f.Pos(), f.cbs);
            SmallCellOK(c, f.(base := f.base + sub), i, NormRef(v, sub))
  {
    if v <= f.Pos() {
      NormaliseSimulates(f.Pos(), f.cbs, v);
    }
  }

  lemma RootNormalises(f: Frame, forest: Forest, v: nat, h: nat)
    requires f.Valid() && RootOK(f, forest, v, h)
    ensures var sub := SubValue(f.Pos(), f.cbs);
            f.(base := f.base + sub).Valid() && RootOK(f.(base := f.base + sub), forest, NormRef(v, sub), h)
  {
    NormaliseSimulates(f.Pos(), f.cbs, 0);
    if v <= f.Pos() {
      NormaliseSimulates(f.Pos(), f.cbs, v);
    }
  }

  lemma TablesNormalise(c: Config, f: Frame, hash: seq<nat>, forest: Forest)
    requires TablesOK(c, f, hash, forest)
    ensures var sub := SubValue(f.Pos(), f.cbs);
            TablesOK(c, f.(base := f.base + sub), NormAll(hash, sub), forest)
  {
    hide SmallCellOK, RootOK, NormRef, SubValue;
    var sub := SubValue(f.Pos(), f.cbs);
    RootOutside(f, forest);
    RootNormalises(f, forest, 0, 0);
    forall i | 0 <= i < FIX4_HASH_SIZE
      ensures SmallCellOK(c, f.(base := f.base + sub), i, NormAll(hash, sub)[i])
    {
      SmallCellNormalises(c, f, i, hash[i]);
    }
    forall i | FIX4_HASH_SIZE <= i < |hash|
      ensures RootOK(f.(base := f.base + sub), forest, NormAll(hash, sub)[i], i)
    {
      RootNormalises(f, forest, hash[i], i);
    }
  }

  lemma RootOutside(f: Frame, forest: Forest)
    requires f.Valid()
    ensures RootOK(f, forest, 0, 0)
  {
  }

  /** The tables and trees after the insertion of a position, before the move. */
  ghost predicate Ready(c: Config, d: seq<Byte>, s: Snap, base: int, forest: Forest) {
    && LimitsOK(c, |d|, s) && s.pos == s.buffer - base && s.buffer < |d|
    && ForestOK(FrameOf(c, d, s, base), s.son, forest, {})
    && (forall r :: r in forest ==> r <= s.buffer)
    && |s.hash| == FIX4_HASH_SIZE + c.hashSize
    && (forall i :: 0 <= i < FIX4_HASH_SIZE ==> SmallCellOK(c, NextFrame(c, d, s, base), i, s.hash[i]))
    && NextFrame(c, d, s, base).Valid()
    && (forall i :: FIX4_HASH_SIZE <= i < |s.hash| ==> RootOK(NextFrame(c, d, s, base), forest, s.hash[i], i))
  }

  /** The frame of the next position, before any normalisation. */
  ghost function NextFrame(c: Config, d: seq<Byte>, s: Snap, base: int): Frame {
    Frame(d, c.cbs, base, s.buffer + 1, if s.buffer < |d| then Min(|d| - (s.buffer + 1), c.matchMaxLen) else 0)
  }

  /** After an insertion, the move restores the invariant. */
  lemma MoveKeepsInv(c: Config, d: seq<Byte>, s: Snap, base: int, forest: Forest)
    requires Ready(c, d, s, base, forest)
    ensures Inv(c, d, Moved(c, s), MovedBase(c, s, base), forest)
  {
    hide ForestOK, SmallCellOK, RootOK, Moved, SubValue, NormAll;
    MovedLimits(c, |d|, s);
    var t := Moved(c, s);
    var f, g := FrameOf(c, d, s, base), NextFrame(c, d, s, base);
    assert t.lenLimit == g.len;
    MoveOn(f, g, s.son, forest);
    assert TablesOK(c, g, s.hash, forest);
    if s.pos + 1 == s.posLimit && s.pos + 1 == MAX_VAL_FOR_NORMALIZE {
      NormaliseForest(g, s.son, forest);
      TablesNormalise(c, g, s.hash, forest);
    }
  }

  /** Without an insertion nothing but the position changes. */
  lemma InvReady(c: Config, d: seq<Byte>, s: Snap, base: int, forest: Forest)
    requires Inv(c, d, s, base, forest) && s.buffer < |d|
    ensures Ready(c, d, s, base, forest)
  {
  }

  // ----------------------------------------------------- inserting a position

  function HashesAt(c: Config, d: seq<Byte>, p: nat): (h: (nat, nat, nat))
    requires p + 4 <= |d| && c.hashSize > 0
    ensures h.0 < HASH2_SIZE <= h.1 < FIX4_HASH_SIZE <= h.2 < FIX4_HASH_SIZE + c.hashSize
  {
    (Hash2(c.crc, d[p], d[p + 1]),
     HASH2_SIZE + Hash3(c.crc, d[p], d[p + 1], d[p + 2]),
     FIX4_HASH_SIZE + Hash4(c.crc, c.hashSize, d[p], d[p + 1], d[p + 2], d[p + 3]))
  }

  /** What one call does to the finder: nothing but a move when fewer than four
    * bytes are left, else three table updates, one tree insertion, and a move.
    * Reporting and skipping are this same step. */
  ghost function Next(c: Config, d: seq<Byte>, s: Snap, base: int): Snap
    requires LimitsOK(c, |d|, s) && s.buffer < |d|
    requires FrameOf(c, d, s, base).Valid() && |s.son| == 2 * c.cbs && |s.hash| == FIX4_HASH_SIZE + c.hashSize
  {
    Moved(c, if s.lenLimit < 4 then s else WithPosition(c, d, s, base))
  }

  ghost function WithPosition(c: Config, d: seq<Byte>, s: Snap, base: int): Snap
    requires LimitsOK(c, |d|, s) && s.buffer < |d| && s.lenLimit >= 4
    requires FrameOf(c, d, s, base).Valid() && |s.son| == 2 * c.cbs && |s.hash| == FIX4_HASH_SIZE + c.hashSize
  {
    var (h2, h3, hv) := HashesAt(c, d, s.buffer);
    s.(hash := s.hash[h2 := s.pos][h3 := s.pos][hv := s.pos],
       son := Walk(FrameOf(c, d, s, base), s.son, s.hash[hv], 2 * s.cyclicBufferPos, 2 * s.cyclicBufferPos + 1, c.cutValue))
  }

  /** After the insertion everything is ready for the move. */
  lemma InsertReady(c: Config, d: seq<Byte>, s: Snap, base: int, forest: Forest, forest': Forest)
    requires Inv(c, d, s, base, forest) && s.buffer < |d| && s.lenLimit >= 4
    requires var hv := HashesAt(c, d, s.buffer).2;
             Inserted(FrameOf(c, d, s, base), s.son, WithPosition(c, d, s, base).son, forest, forest', s.hash[hv], hv, c.cutValue)
    ensures Ready(c, d, WithPosition(c, d, s, base), base, forest')
  {
    hide ForestOK, SmallCellOK, Walk, Hash2, Hash3, Hash4;
    var (h2, h3, hv) := HashesAt(c, d, s.buffer);
    var t, f, g := WithPosition(c, d, s, base), FrameOf(c, d, s, base), NextFrame(c, d, s, base);
    assert g == NextFrame(c, d, t, base) && f == FrameOf(c, d, t, base);
    forall i | 0 <= i < FIX4_HASH_SIZE
      ensures SmallCellOK(c, g, i, t.hash[i])
    {
      if i == h2 || i == h3 {
        OwnCell(c, g, s.buffer, i, s.pos);
      } else {
        SmallCellMoves(c, f, g, i, s.hash[i]);
      }
    }
    forall i | FIX4_HASH_SIZE <= i < |t.hash|
      ensures RootOK(g, forest', t.hash[i], i)
    {
      if i != hv {
        assert RootOK(f, forest, s.hash[i], i);
      }
    }
  }

  lemma OwnCell(c: Config, g: Frame, p: nat, i: nat, v: nat)
    requires g.Valid() && c.hashSize > 0 && p + 4 <= |g.d| && v + g.base == p < g.cur
    requires i == HashesAt(c, g.d, p).0 || i == HashesAt(c, g.d, p).1
    ensures SmallCellOK(c, g, i, v)
  {
  }

  // ------------------------------------------------------- nothing is forgotten

  /** A bucket's tree has the position, or a later one that is equal to it as far as
    * strings are compared. */
  ghost predicate HasNode(f: Frame, son: seq<nat>, forest: Forest, v: nat, p: nat)
    requires f.Valid() && |son| == 2 * f.cbs && p <= f.cur
  {
    exists r: nat :: p <= r <= f.cur && Below(f, son, forest, {}, v, r) && Same(f.d, p, r, f.len)
  }

  /** A position in the window whose four bytes are all there. */
  ghost predicate Entered(f: Frame, p: nat) {
    f.InWindow(p) && p + 4 <= |f.d|
  }

  /** No insertion into the bucket was cut off after the position's own; `lost` has
    * the latest of each bucket that was. */
  ghost predicate SinceCut(lost: map<nat, nat>, h: nat, p: nat) {
    h in lost ==> lost[h] <= p
  }

  ghost function WithCut(lost: map<nat, nat>, h: nat, p: nat, cutOff: bool): map<nat, nat> {
    if cutOff then lost[h := p] else lost
  }

  /** Of the positions before `n` each is in its bucket's tree, unless an insertion
    * into that tree was cut off since. */
  ghost predicate TreesWhole(c: Config, f: Frame, hash: seq<nat>, son: seq<nat>, forest: Forest, lost: map<nat, nat>, n: nat) {
    && f.Valid() && |son| == 2 * f.cbs && |hash| == FIX4_HASH_SIZE + c.hashSize && c.hashSize > 0 && n <= f.cur + 1
    && forall p: nat :: p < n && Entered(f, p) && SinceCut(lost, HashesAt(c, f.d, p).2, p) ==>
         HasNode(f, son, forest, hash[HashesAt(c, f.d, p).2], p)
  }

  /** The small tables refer to the latest position of a hash. */
  ghost predicate TablesRecent(c: Config, f: Frame, hash: seq<nat>, n: nat) {
    && |hash| == FIX4_HASH_SIZE + c.hashSize && c.hashSize > 0
    && forall p: nat :: p < n && Entered(f, p) ==>
         hash[HashesAt(c, f.d, p).0] + f.base >= p && hash[HashesAt(c, f.d, p).1] + f.base >= p
  }

  ghost predicate Whole(c: Config, f: Frame, hash: seq<nat>, son: seq<nat>, forest: Forest, lost: map<nat, nat>, n: nat) {
    TreesWhole(c, f, hash, son, forest, lost, n) && TablesRecent(c, f, hash, n)
  }

  lemma {:induction false} SameTrans(d: seq<Byte>, a: nat, b: nat, c: nat, n: nat)
    requires a + n <= |d| && b + n <= |d| && c + n <= |d|
    requires Same(d, a, b, n) && Same(d, b, c, n)
    ensures Same(d, a, c, n)
    decreases n
  {
    if n > 0 {
      SameTrans(d, a + 1, b + 1, c + 1, n - 1);
    }
  }

  /** An insertion into the tree of bucket `hv` keeps every bucket whole; cut off,
    * this one of the new position only. */
  lemma InsertWhole(c: Config, f: Frame, hash: seq<nat>, son: seq<nat>, forest: Forest, lost: map<nat, nat>,
                    hash': seq<nat>, son': seq<nat>, forest': Forest, lost': map<nat, nat>)
    requires Whole(c, f, hash, son, forest, lost, f.cur) && f.cur + 4 <= |f.d|
    requires forall i :: FIX4_HASH_SIZE <= i < |hash| ==> RootOK(f, forest, hash[i], i)
    requires var (h2, h3, hv) := HashesAt(c, f.d, f.cur);
             && hash' == hash[h2 := f.Pos()][h3 := f.Pos()][hv := f.Pos()]
             && Keeps(f, son, son', forest, forest', hash[hv], hv, c.cutValue, f.len)
             && lost' == WithCut(lost, hv, f.cur, CutsOff(f, son, hash[hv], 2 * Slot(f.cbs, f.cur), 2 * Slot(f.cbs, f.cur) + 1, c.cutValue))
    ensures Whole(c, f, hash', son', forest', lost', f.cur + 1)
  {
    hide Keeps, HasNode, RootOK, HashesAt, CutsOff, TablesRecent;
    InsertTrees(c, f, hash, son, forest, lost, hash', son', forest', lost');
    InsertRecent(c, f, hash, hash');
  }

  lemma InsertRecent(c: Config, f: Frame, hash: seq<nat>, hash': seq<nat>)
    requires TablesRecent(c, f, hash, f.cur) && f.cur + 4 <= |f.d| && f.Valid()
    requires var (h2, h3, hv) := HashesAt(c, f.d, f.cur); hash' == hash[h2 := f.Pos()][h3 := f.Pos()][hv := f.Pos()]
    ensures TablesRecent(c, f, hash', f.cur + 1)
  {
    hide HashesAt;
  }

  lemma InsertTrees(c: Config, f: Frame, hash: seq<nat>, son: seq<nat>, forest: Forest, lost: map<nat, nat>,
                    hash': seq<nat>, son': seq<nat>, forest': Forest, lost': map<nat, nat>)
    requires TreesWhole(c, f, hash, son, forest, lost, f.cur) && f.cur + 4 <= |f.d|
    requires forall i :: FIX4_HASH_SIZE <= i < |hash| ==> RootOK(f, forest, hash[i], i)
    requires var (h2, h3, hv) := HashesAt(c, f.d, f.cur);
             && hash' == hash[h2 := f.Pos()][h3 := f.Pos()][hv := f.Pos()]
             && Keeps(f, son, son', forest, forest', hash[hv], hv, c.cutValue, f.len)
             && lost' == WithCut(lost, hv, f.cur, CutsOff(f, son, hash[hv], 2 * Slot(f.cbs, f.cur), 2 * Slot(f.cbs, f.cur) + 1, c.cutValue))
    ensures TreesWhole(c, f, hash', son', forest', lost', f.cur + 1)
  {
    hide Keeps, HasNode, RootOK, HashesAt, CutsOff, Slot;
    KeepsSizes(f, son, son', forest, forest', hash[HashesAt(c, f.d, f.cur).2], HashesAt(c, f.d, f.cur).2, c.cutValue);
    var hv := HashesAt(c, f.d, f.cur).2;
    forall p: nat | p < f.cur + 1 && Entered(f, p) && SinceCut(lost', HashesAt(c, f.d, p).2, p)
      ensures HasNode(f, son', forest', hash'[HashesAt(c, f.d, p).2], p)
    {
      var h := HashesAt(c, f.d, p).2;
      if h != hv {
        OtherHasNode(f, son, son', forest, forest', hash[hv], hv, c.cutValue, hash[h], h, p);
      } else if p == f.cur {
        NewHasNode(f, son, son', forest, forest', hash[hv], hv, c.cutValue);
      } else {
        OwnHasNode(f, son, son', forest, forest', hash[hv], hv, c.cutValue, p);
      }
    }
  }

  lemma KeepsSizes(f: Frame, son: seq<nat>, son': seq<nat>, forest: Forest, forest': Forest, v: nat, hv: nat, cut: nat)
    requires Keeps(f, son, son', forest, forest', v, hv, cut, f.len)
    ensures f.Valid() && |son| == |son'| == 2 * f.cbs
  {
  }

  lemma OtherHasNode(f: Frame, son: seq<nat>, son': seq<nat>, forest: Forest, forest': Forest, v: nat, hv: nat, cut: nat, u: nat, h: nat, p: nat)
    requires Keeps(f, son, son', forest, forest', v, hv, cut, f.len) && h != hv && RootOK(f, forest, u, h)
    requires p < f.cur && HasNode(f, son, forest, u, p)
    ensures HasNode(f, son', forest', u, p)
  {
    hide CutsOff, Searched, Same;
    var r: nat :| p <= r <= f.cur && Below(f, son, forest, {}, u, r) && Same(f.d, p, r, f.len);
    assert (u + f.base, r) in OtherNodes(f, son, forest, hv);
  }

  lemma NewHasNode(f: Frame, son: seq<nat>, son': seq<nat>, forest: Forest, forest': Forest, v: nat, hv: nat, cut: nat)
    requires Keeps(f, son, son', forest, forest', v, hv, cut, f.len)
    ensures HasNode(f, son', forest', f.Pos(), f.cur)
  {
    hide CutsOff, Slot;
    SameSelf(f.d, f.cur, f.len);
    assert Below(f, son', forest', {}, f.Pos(), f.cur);
  }

  lemma OwnHasNode(f: Frame, son: seq<nat>, son': seq<nat>, forest: Forest, forest': Forest, v: nat, hv: nat, cut: nat, p: nat)
    requires Keeps(f, son, son', forest, forest', v, hv, cut, f.len)
    requires !CutsOff(f, son, v, 2 * Slot(f.cbs, f.cur), 2 * Slot(f.cbs, f.cur) + 1, cut)
    requires p < f.cur && HasNode(f, son, forest, v, p)
    ensures HasNode(f, son', forest', f.Pos(), p)
  {
    hide CutsOff, Slot, Same;
    var r: nat :| p <= r <= f.cur && Below(f, son, forest, {}, v, r) && Same(f.d, p, r, f.len);
    assert r in Nodes(f, son, forest, v);
    if Up(f, son', forest', {}, f.cur, r) {
      assert Below(f, son', forest', {}, f.Pos(), r);
    } else {
      SameTrans(f.d, p, r, f.cur, f.len);
      assert Below(f, son', forest', {}, f.Pos(), f.cur);
    }
  }

  lemma {:induction false} UpMoves(f: Frame, g: Frame, son: seq<nat>, forest: Forest, root: nat, r: nat)
    requires f.Valid() && g.Valid() && |son| == 2 * f.cbs && g == f.(cur := f.cur + 1, len := g.len)
    requires Up(f, son, forest, {}, root, r) && g.InWindow(r)
    ensures Up(g, son, forest, {}, root, r)
    decreases root - r
  {
    if r < root {
      UpMoves(f, g, son, forest, root, forest[r].place.parent);
    }
  }

  lemma {:induction false} UpNormalises(f: Frame, son: seq<nat>, forest: Forest, root: nat, r: nat)
    requires f.Valid() && |son| == 2 * f.cbs && Up(f, son, forest, {}, root, r)
    ensures var sub := SubValue(f.Pos(), f.cbs);
            f.(base := f.base + sub).Valid() && Up(f.(base := f.base + sub), NormAll(son, sub), forest, {}, root, r)
    decreases root - r
  {
    hide SubValue, NormRef;
    NormaliseSimulates(f.Pos(), f.cbs, 0);
    if r < root {
      var p, right := forest[r].place.parent, forest[r].place.right;
      NormaliseSimulates(f.Pos(), f.cbs, son[Cell(f.cbs, p, right)]);
      UpNormalises(f, son, forest, root, p);
    }
  }

  lemma NodeMoves(f: Frame, g: Frame, son: seq<nat>, forest: Forest, v: nat, p: nat)
    requires f.Valid() && g.Valid() && |son| == 2 * f.cbs && g == f.(cur := f.cur + 1, len := g.len) && g.len <= f.len
    requires p <= f.cur && g.InWindow(p) && HasNode(f, son, forest, v, p)
    ensures HasNode(g, son, forest, v, p)
  {
    hide Same;
    var r: nat :| p <= r <= f.cur && Below(f, son, forest, {}, v, r) && Same(f.d, p, r, f.len);
    UpMoves(f, g, son, forest, v + f.base, r);
    SamePrefix(f.d, p, r, f.len, g.len);
  }

  lemma NodeNormalises(f: Frame, son: seq<nat>, forest: Forest, v: nat, p: nat)
    requires f.Valid() && |son| == 2 * f.cbs && p <= f.cur && HasNode(f, son, forest, v, p)
    ensures var sub := SubValue(f.Pos(), f.cbs);
            f.(base := f.base + sub).Valid() && HasNode(f.(base := f.base + sub), NormAll(son, sub), forest, NormRef(v, sub), p)
  {
    hide Same, SubValue, NormRef, Below, NormAll;
    var r: nat :| p <= r <= f.cur && Below(f, son, forest, {}, v, r) && Same(f.d, p, r, f.len);
    NormaliseSimulates(f.Pos(), f.cbs, 0);
    BelowNormalises(f, son, forest, v, r);
  }

  lemma BelowNormalises(f: Frame, son: seq<nat>, forest: Forest, v: nat, r: nat)
    requires f.Valid() && |son| == 2 * f.cbs && Below(f, son, forest, {}, v, r)
    ensures var sub := SubValue(f.Pos(), f.cbs);
            f.(base := f.base + sub).Valid() && Below(f.(base := f.base + sub), NormAll(son, sub), forest, {}, NormRef(v, sub), r)
  {
    hide SubValue, NormRef, NormAll, Up;
    InUpWindow(f, son, forest, v + f.base, r);
    UpNormalises(f, son, forest, v + f.base, r);
    NormaliseSimulates(f.Pos(), f.cbs, v);
  }

  lemma {:induction false} InUpWindow(f: Frame, son: seq<nat>, forest: Forest, root: nat, r: nat)
    requires f.Valid() && |son| == 2 * f.cbs && Up(f, son, forest, {}, root, r)
    ensures f.InWindow(root)
    decreases root - r
  {
    if r < root {
      InUpWindow(f, son, forest, root, forest[r].place.parent);
    }
  }

  /** Moving on forgets only what leaves the window. */
  lemma WholeMoves(c: Config, f: Frame, g: Frame, hash: seq<nat>, son: seq<nat>, forest: Forest, lost: map<nat, nat>)
    requires Whole(c, f, hash, son, forest, lost, f.cur + 1)
    requires g.Valid() && g == f.(cur := f.cur + 1, len := g.len) && g.len <= f.len
    ensures Whole(c, g, hash, son, forest, lost, g.cur)
  {
    hide HasNode, HashesAt;
    forall p: nat | p < g.cur && Entered(g, p) && SinceCut(lost, HashesAt(c, g.d, p).2, p)
      ensures HasNode(g, son, forest, hash[HashesAt(c, g.d, p).2], p)
    {
      assert Entered(f, p);
      NodeMoves(f, g, son, forest, hash[HashesAt(c, f.d, p).2], p);
    }
    forall p: nat | p < g.cur && Entered(g, p)
      ensures hash[HashesAt(c, g.d, p).0] + g.base >= p && hash[HashesAt(c, g.d, p).1] + g.base >= p
    {
      assert Entered(f, p);
    }
  }

  /** Normalisation forgets nothing. */
  lemma WholeNormalises(c: Config, f: Frame, hash: seq<nat>, son: seq<nat>, forest: Forest, lost: map<nat, nat>)
    requires Whole(c, f, hash, son, forest, lost, f.cur) && TablesOK(c, f, hash, forest)
    ensures var sub := SubValue(f.Pos(), f.cbs);
            Whole(c, f.(base := f.base + sub), NormAll(hash, sub), NormAll(son, sub), forest, lost, f.cur)
  {
    hide HasNode, HashesAt, SubValue, NormRef, SmallCellOK, RootOK;
    var sub := SubValue(f.Pos(), f.cbs);
    var g := f.(base := f.base + sub);
    NormaliseSimulates(f.Pos(), f.cbs, 0);
    forall p: nat | p < g.cur && Entered(g, p) && SinceCut(lost, HashesAt(c, g.d, p).2, p)
      ensures HasNode(g, NormAll(son, sub), forest, NormAll(hash, sub)[HashesAt(c, g.d, p).2], p)
    {
      assert Entered(f, p);
      NodeNormalises(f, son, forest, hash[HashesAt(c, f.d, p).2], p);
    }
    forall p: nat | p < g.cur && Entered(g, p)
      ensures NormAll(hash, sub)[HashesAt(c, g.d, p).0] + g.base >= p && NormAll(hash, sub)[HashesAt(c, g.d, p).1] + g.base >= p
    {
      assert Entered(f, p);
      RecentNormalises(c, f, HashesAt(c, f.d, p).0, hash[HashesAt(c, f.d, p).0], p);
      RecentNormalises(c, f, HashesAt(c, f.d, p).1, hash[HashesAt(c, f.d, p).1], p);
    }
  }

  lemma RecentNormalises(c: Config, f: Frame, i: nat, v: nat, p: nat)
    requires f.Valid() && SmallCellOK(c, f, i, v) && v + f.base >= p && f.InWindow(p)
    ensures var sub := SubValue(f.Pos(), f.cbs); NormRef(v, sub) + (f.base + sub) >= p
  {
    hide SubValue, NormRef;
    NormaliseSimulates(f.Pos(), f.cbs, v);
  }

  /** After whatever an insertion left, the move keeps everything whole. */
  lemma MoveKeepsWhole(c: Config, d: seq<Byte>, s: Snap, base: int, forest: Forest, lost: map<nat, nat>)
    requires Ready(c, d, s, base, forest) && Whole(c, FrameOf(c, d, s, base), s.hash, s.son, forest, lost, s.buffer + 1)
    ensures var t := Moved(c, s);
            Whole(c, FrameOf(c, d, t, MovedBase(c, s, base)), t.hash, t.son, forest, lost, t.buffer)
  {
    hide ForestOK, SmallCellOK, RootOK, Moved, SubValue, NormAll, Whole;
    MovedLimits(c, |d|, s);
    var t := Moved(c, s);
    var f, g := FrameOf(c, d, s, base), NextFrame(c, d, s, base);
    assert t.lenLimit == g.len;
    WholeMoves(c, f, g, s.hash, s.son, forest, lost);
    if s.pos + 1 == s.posLimit && s.pos + 1 == MAX_VAL_FOR_NORMALIZE {
      WholeNormalises(c, g, s.hash, s.son, forest, lost);
    }
  }

  /** Where fewer than four bytes are left there is nothing to insert. */
  lemma NothingToInsert(c: Config, f: Frame, hash: seq<nat>, son: seq<nat>, forest: Forest, lost: map<nat, nat>)
    requires Whole(c, f, hash, son, forest, lost, f.cur) && f.cur + 4 > |f.d|
    ensures Whole(c, f, hash, son, forest, lost, f.cur + 1)
  {
    hide HasNode, HashesAt;
  }

  // --------------------------------------------------------- what is reported

  /** The full report of one call: true matches of strictly increasing lengths,
    * all of at least two bytes. */
  ghost predicate Found(f: Frame, ms: seq<Match>) {
    Increasing(ms, 1) && forall k :: 0 <= k < |ms| ==> TrueAt(f, ms[k])
  }

  /** A small table's cell is in the window, and its string begins with the same
    * byte. */
  ghost predicate Hit(f: Frame, v: nat)
    requires f.Valid()
  {
    !f.Out(v) && 0 <= v + f.base < f.cur && f.len > 0 && f.d[v + f.base] == f.d[f.cur]
  }

  /** What the small tables hit is reported, or something at least as long. */
  ghost predicate FindsHit(f: Frame, v: nat, ms: seq<Match>)
    requires f.Valid()
  {
    Hit(f, v) ==> ms != [] && Lcp(f.d, v + f.base, f.cur, f.len) <= Best(ms, 0)
  }

  /** Nothing at a position matches better than what is reported, if it matches in
    * four bytes at all. */
  ghost predicate NotBetter(f: Frame, p: nat, ms: seq<Match>)
    requires f.Valid() && p < f.cur
  {
    Lcp(f.d, p, f.cur, f.len) >= 4 ==> Lcp(f.d, p, f.cur, f.len) <= Best(ms, 0)
  }

  /** Of every position that is compared the best match is reported. */
  ghost predicate FindsVisited(f: Frame, son: seq<nat>, v: nat, cut: nat, ms: seq<Match>)
    requires f.Valid() && |son| == 2 * f.cbs
  {
    var qs := Visits(f, son, v, 2 * Slot(f.cbs, f.cur), 2 * Slot(f.cbs, f.cur) + 1, cut);
    forall i :: 0 <= i < |qs| ==> NotBetter(f, qs[i], ms)
  }

  /** The longest match in the window is reported, if it has four bytes: of all
    * positions since the bucket's last cut, and so of the whole window if there was
    * none. */
  ghost predicate FindsLongest(f: Frame, lost: map<nat, nat>, hv: nat, ms: seq<Match>)
    requires f.Valid()
  {
    forall p: nat :: p < f.cur && f.InWindow(p) && SinceCut(lost, hv, p) ==> NotBetter(f, p, ms)
  }

  /** What was reported from the small tables, as far as is known of it. */
  ghost predicate SmallDone(f: Frame, v2: nat, v3: nat, ms: seq<Match>, maxLen: nat)
    requires f.Valid()
  {
    && (if ms == [] then maxLen == 0 else 2 <= maxLen <= f.len && ms[|ms| - 1].len == maxLen)
    && FindsHit(f, v2, ms) && FindsHit(f, v3, ms)
  }

  lemma SmallLast(f: Frame, v2: nat, v3: nat, ms: seq<Match>, maxLen: nat)
    requires f.Valid() && SmallDone(f, v2, v3, ms, maxLen)
    ensures maxLen <= f.len && (ms == [] ==> maxLen == 0) && Best(ms, 0) == maxLen
  {
  }

  lemma LcpOfSame(f: Frame, p: nat, r: nat)
    requires f.Valid() && p <= f.cur && r <= f.cur && Same(f.d, p, r, f.len)
    ensures Lcp(f.d, p, f.cur, f.len) <= Lcp(f.d, r, f.cur, f.len)
  {
    var m := Lcp(f.d, p, f.cur, f.len);
    SamePrefix(f.d, p, r, f.len, m);
    SameFlips(f.d, p, r, m);
    SameTrans(f.d, r, p, f.cur, m);
    AtLeast(f.d, r, f.cur, f.len, m);
  }

  /** Strings with four common bytes are in one bucket. */
  lemma FourBytesOneBucket(c: Config, f: Frame, p: nat)
    requires f.Valid() && p < f.cur && c.hashSize > 0 && Lcp(f.d, p, f.cur, f.len) >= 4
    ensures p + 4 <= |f.d| && f.cur + 4 <= |f.d| && HashesAt(c, f.d, p) == HashesAt(c, f.d, f.cur)
  {
    var m := Lcp(f.d, p, f.cur, f.len);
    SameAt(f.d, p, f.cur, m, 0);
    SameAt(f.d, p, f.cur, m, 1);
    SameAt(f.d, p, f.cur, m, 2);
    SameAt(f.d, p, f.cur, m, 3);
  }

  /** What is found of the hits of the small tables, on the walk through the tree of
    * bucket `hv`, and, unless that walk is cut off, in the window. */
  ghost predicate Finds(c: Config, f: Frame, son: seq<nat>, hv: nat, curMatch: nat, lost: map<nat, nat>, v2: nat, v3: nat, ms: seq<Match>)
    requires f.Valid() && |son| == 2 * f.cbs
  {
    && FindsHit(f, v2, ms) && FindsHit(f, v3, ms) && FindsVisited(f, son, curMatch, c.cutValue, ms)
    && (!CutsOff(f, son, curMatch, 2 * Slot(f.cbs, f.cur), 2 * Slot(f.cbs, f.cur) + 1, c.cutValue) ==> FindsLongest(f, lost, hv, ms))
  }

  /** With the longest possible match there is nothing better. */
  lemma NothingBetter(c: Config, f: Frame, son: seq<nat>, hv: nat, v: nat, lost: map<nat, nat>, v2: nat, v3: nat, ms: seq<Match>, maxLen: nat)
    requires f.Valid() && |son| == 2 * f.cbs && SmallDone(f, v2, v3, ms, maxLen) && maxLen == f.len > 0
    ensures Finds(c, f, son, hv, v, lost, v2, v3, ms)
  {
    hide Visits, Lcp;
    forall p: nat | p < f.cur ensures NotBetter(f, p, ms) {
      LcpBounded(f, p);
    }
  }

  lemma BestJoined(small: seq<Match>, more: seq<Match>, maxLen: nat, floor: nat, k: nat)
    requires if small == [] then maxLen == 0 else small[|small| - 1].len == maxLen
    requires floor == Max(3, maxLen) && Best(more, floor) >= floor
    ensures Best(small + more, 0) >= maxLen
    ensures 4 <= k <= Best(more, floor) ==> k <= Best(small + more, 0)
  {
    if more == [] {
      assert small + more == small;
    }
  }

  /** The tables and the tree together. */
  lemma NothingMissed(c: Config, f: Frame, hash: seq<nat>, son: seq<nat>, son': seq<nat>, forest: Forest, forest': Forest, lost: map<nat, nat>,
                      v2: nat, v3: nat, small: seq<Match>, maxLen: nat, more: seq<Match>, floor: nat)
    requires TreesWhole(c, f, hash, son, forest, lost, f.cur) && f.cur + 4 <= |f.d|
    requires SmallDone(f, v2, v3, small, maxLen) && floor == Max(3, maxLen)
    requires var hv := HashesAt(c, f.d, f.cur).2;
             && more == Records(f, Visits(f, son, hash[hv], 2 * Slot(f.cbs, f.cur), 2 * Slot(f.cbs, f.cur) + 1, c.cutValue), floor)
             && Keeps(f, son, son', forest, forest', hash[hv], hv, c.cutValue, Best(more, floor))
    ensures var hv := HashesAt(c, f.d, f.cur).2; Finds(c, f, son, hv, hash[hv], lost, v2, v3, small + more)
  {
    hide HashesAt, Visits, CutsOff, Lcp, Slot, Keeps, Records, HasNode, Same;
    var hv := HashesAt(c, f.d, f.cur).2;
    var qs := Visits(f, son, hash[hv], 2 * Slot(f.cbs, f.cur), 2 * Slot(f.cbs, f.cur) + 1, c.cutValue);
    RecordsGrow(f, qs, floor);
    BestJoined(small, more, maxLen, floor, 0);
    forall i | 0 <= i < |qs| ensures NotBetter(f, qs[i], small + more) {
      RecordsBest(f, qs, floor, i);
      BestJoined(small, more, maxLen, floor, Lcp(f.d, qs[i], f.cur, f.len));
    }
    if !CutsOff(f, son, hash[hv], 2 * Slot(f.cbs, f.cur), 2 * Slot(f.cbs, f.cur) + 1, c.cutValue) {
      forall p: nat | p < f.cur && f.InWindow(p) && SinceCut(lost, hv, p) ensures NotBetter(f, p, small + more) {
        if Lcp(f.d, p, f.cur, f.len) >= 4 {
          FourBytesOneBucket(c, f, p);
          assert Entered(f, p);
          NodeNotBetter(f, son, son', forest, forest', hash[hv], hv, c.cutValue, Best(more, floor), p);
          BestJoined(small, more, maxLen, floor, Lcp(f.d, p, f.cur, f.len));
        }
      }
    }
  }

  lemma NodeNotBetter(f: Frame, son: seq<nat>, son': seq<nat>, forest: Forest, forest': Forest, v: nat, hv: nat, cut: nat, best: nat, p: nat)
    requires Keeps(f, son, son', forest, forest', v, hv, cut, best) && p < f.cur && HasNode(f, son, forest, v, p)
    requires !CutsOff(f, son, v, 2 * Slot(f.cbs, f.cur), 2 * Slot(f.cbs, f.cur) + 1, cut)
    ensures Lcp(f.d, p, f.cur, f.len) <= best
  {
    hide CutsOff, Slot, Same, Lcp;
    var r: nat :| p <= r <= f.cur && Below(f, son, forest, {}, v, r) && Same(f.d, p, r, f.len);
    assert r in Nodes(f, son, forest, v);
    LcpOfSame(f, p, r);
  }

  /** A table hit with an equal first byte is a match of two or three bytes. */
  lemma TableHit(c: Config, f: Frame, i: nat, v: nat, delta: nat, n: nat)
    requires f.Valid() && f.len >= 4 && c.hashSize > 0 && SmallCellOK(c, f, i, v)
    requires v <= f.Pos() && delta == f.Pos() - v && delta < f.cbs
    requires (n == 2 && i == HashesAt(c, f.d, f.cur).0) || (n == 3 && i == HashesAt(c, f.d, f.cur).1)
    requires 0 < delta <= f.cur && f.d[f.cur - delta] == f.d[f.cur]
    ensures TrueAt(f, Match(n, delta - 1))
  {
    var p := v + f.base;
    if n == 2 {
      Hash2Forces(c.crc, f.d[f.cur], f.d[f.cur + 1], f.d[p + 1]);
    } else {
      Hash3Forces(c.crc, f.d[f.cur], f.d[f.cur + 1], f.d[f.cur + 2], f.d[p + 1], f.d[p + 2]);
      assert Same(f.d, p + 2, f.cur + 2, 1);
    }
    assert Same(f.d, p + 1, f.cur + 1, n - 1);
  }

  /** The small tables' cells for the current string: each refers to the latest
    * position in the window with the same hash, if to any in the window. */
  ghost predicate SmallCells(c: Config, f: Frame, v2: nat, v3: nat) {
    && f.Valid() && f.len >= 4 && c.hashSize > 0
    && SmallCellOK(c, f, HashesAt(c, f.d, f.cur).0, v2) && SmallCellOK(c, f, HashesAt(c, f.d, f.cur).1, v3)
    && forall p: nat :: p < f.cur && Entered(f, p) ==>
         && (HashesAt(c, f.d, p).0 == HashesAt(c, f.d, f.cur).0 ==> v2 + f.base >= p)
         && (HashesAt(c, f.d, p).1 == HashesAt(c, f.d, f.cur).1 ==> v3 + f.base >= p)
  }

  lemma CellsOfTables(c: Config, f: Frame, hash: seq<nat>, forest: Forest)
    requires TablesOK(c, f, hash, forest) && TablesRecent(c, f, hash, f.cur) && f.len >= 4
    ensures SmallCells(c, f, hash[HashesAt(c, f.d, f.cur).0], hash[HashesAt(c, f.d, f.cur).1])
  {
    hide SmallCellOK, RootOK;
  }

  /** How the code asks for a hit. */
  lemma HitIff(c: Config, f: Frame, i: nat, v: nat)
    requires f.Valid() && f.len > 0 && SmallCellOK(c, f, i, v)
    ensures v <= f.Pos()
    ensures f.Pos() - v < f.cbs ==> 0 < f.Pos() - v <= f.cur && f.cur - (f.Pos() - v) == v + f.base
    ensures Hit(f, v) <==> f.Pos() - v < f.cbs && f.d[f.cur - (f.Pos() - v)] == f.d[f.cur]
  {
  }

  /** Both cells at once: how the code asks for hits, and what it may report. */
  lemma CellsHit(c: Config, f: Frame, v2: nat, v3: nat)
    requires SmallCells(c, f, v2, v3)
    ensures f.Valid() && 4 <= f.len && f.cur + f.len <= |f.d| && v2 <= f.Pos() && v3 <= f.Pos()
    ensures var d2 := f.Pos() - v2;
            && (d2 < f.cbs ==> 0 < d2 <= f.cur && f.cur - d2 == v2 + f.base)
            && (Hit(f, v2) <==> d2 < f.cbs && f.d[f.cur - d2] == f.d[f.cur])
            && (Hit(f, v2) ==> TrueAt(f, Match(2, d2 - 1)))
    ensures var d3 := f.Pos() - v3;
            && (d3 < f.cbs ==> 0 < d3 <= f.cur && f.cur - d3 == v3 + f.base)
            && (Hit(f, v3) <==> d3 < f.cbs && f.d[f.cur - d3] == f.d[f.cur])
            && (Hit(f, v3) ==> TrueAt(f, Match(3, d3 - 1)))
  {
    hide HashesAt, SmallCellOK, TrueAt;
    var (h2, h3, hv) := HashesAt(c, f.d, f.cur);
    HitIff(c, f, h2, v2);
    HitIff(c, f, h3, v3);
    if Hit(f, v2) {
      TableHit(c, f, h2, v2, f.Pos() - v2, 2);
    }
    if Hit(f, v3) {
      TableHit(c, f, h3, v3, f.Pos() - v3, 3);
    }
  }

  lemma SameHashes(c: Config, f: Frame, p: nat, n: nat)
    requires c.hashSize > 0 && p + 4 <= |f.d| && f.cur + 4 <= |f.d| && 2 <= n && p + n <= |f.d| && f.cur + n <= |f.d|
    requires Same(f.d, p, f.cur, n)
    ensures HashesAt(c, f.d, p).0 == HashesAt(c, f.d, f.cur).0
    ensures n > 2 ==> HashesAt(c, f.d, p).1 == HashesAt(c, f.d, f.cur).1
  {
    hide Same, Hash2, Hash3, Hash4;
    SameAt(f.d, p, f.cur, n, 0);
    SameAt(f.d, p, f.cur, n, 1);
    if n > 2 {
      SameAt(f.d, p, f.cur, n, 2);
    }
  }

  /** Where both small tables hit, and not the same position, the two-byte table's
    * match has two bytes only: else either table would know of the other's. */
  lemma ThreeBeatsTwo(c: Config, f: Frame, v2: nat, v3: nat)
    requires SmallCells(c, f, v2, v3) && f.Valid() && Hit(f, v2) && Hit(f, v3) && v2 != v3
    ensures Lcp(f.d, v2 + f.base, f.cur, f.len) <= 2 < Lcp(f.d, v3 + f.base, f.cur, f.len)
  {
    hide Lcp, HashesAt, Same;
    CellsHit(c, f, v2, v3);
    CellsEntered(c, f, v2, v3);
    var p2, p3 := v2 + f.base, v3 + f.base;
    AtLeast(f.d, p3, f.cur, f.len, 3);
    SameHashes(c, f, p3, 3);
    if Lcp(f.d, p2, f.cur, f.len) > 2 {
      SameHashes(c, f, p2, Lcp(f.d, p2, f.cur, f.len));
    }
  }

  lemma CellsEntered(c: Config, f: Frame, v2: nat, v3: nat)
    requires SmallCells(c, f, v2, v3) && f.Valid() && Hit(f, v2) && Hit(f, v3)
    ensures Entered(f, v2 + f.base) && Entered(f, v3 + f.base)
  {
    hide HashesAt;
  }

  lemma FoundTwo(f: Frame, ms: seq<Match>)
    requires |ms| <= 2 && (forall k :: 0 <= k < |ms| ==> TrueAt(f, ms[k]))
    requires ms != [] ==> 2 <= ms[0].len
    requires |ms| == 2 ==> ms[0].len < ms[1].len
    ensures Found(f, ms)
  {
  }

  /** Which of the two hits is extended, and how far. */
  ghost predicate Extended(f: Frame, v2: nat, v3: nat, maxLen: nat)
    requires f.Valid()
  {
    if v3 != v2 && Hit(f, v3) then maxLen == Lcp(f.d, v3 + f.base, f.cur, f.len)
    else if Hit(f, v2) then maxLen == Lcp(f.d, v2 + f.base, f.cur, f.len)
    else maxLen == 0
  }

  lemma SmallFinds(c: Config, f: Frame, v2: nat, v3: nat, ms: seq<Match>, maxLen: nat)
    requires SmallCells(c, f, v2, v3) && f.Valid() && Extended(f, v2, v3, maxLen)
    requires ms != [] <==> Hit(f, v2) || Hit(f, v3)
    requires ms != [] ==> ms[|ms| - 1].len == maxLen && 2 <= maxLen <= f.len
    ensures SmallDone(f, v2, v3, ms, maxLen)
  {
    hide SmallCells, Hit, Lcp;
    if v2 != v3 && Hit(f, v2) && Hit(f, v3) {
      ThreeBeatsTwo(c, f, v2, v3);
    }
  }

  lemma FoundJoin(f: Frame, ms: seq<Match>, more: seq<Match>, floor: nat)
    requires Found(f, ms) && Reported(f, more, floor)
    requires forall k :: 0 <= k < |ms| ==> ms[k].len <= floor
    requires floor >= 1
    ensures Found(f, ms + more)
  {
    var all := ms + more;
    forall k: nat | k < |all| ensures LongerAt(all, 1, k) && TrueAt(f, all[k]) {
      if k < |ms| {
        assert LongerAt(ms, 1, k);
      } else {
        assert LongerAt(more, floor, k - |ms|);
      }
    }
  }

  // ------------------------------------------------------------- the object

  /** `CMatchFinder` over a buffer in memory. */
  class CMatchFinder {
    const c: Config
    const data: array<Byte>
    const hash: array<nat>
    const son: array<nat>
    var buffer: nat
    var pos: nat
    var posLimit: nat
    var streamPos: nat
    var lenLimit: nat
    var cyclicBufferPos: nat
    ghost var base: int
    ghost var forest: Forest

    /** Per bucket the latest insertion that was cut off, if any was. */
    ghost var lost: map<nat, nat>

    ghost function State(): Snap
      reads this, hash, son
    {
      Snap(hash[..], son[..], buffer, pos, posLimit, streamPos, lenLimit, cyclicBufferPos)
    }

    ghost predicate Separate() {
      hash != son && (data as object) != hash && (data as object) != son
    }

    ghost predicate Valid()
      reads this, hash, son, data
    {
      Separate() && Inv(c, data[..], State(), base, forest) && NothingForgotten()
    }

    /** Every position of the window is in its bucket's tree, unless an insertion was
      * cut off there since, and the small tables are up to date. */
    ghost predicate NothingForgotten()
      reads this, hash, son, data
    {
      Whole(c, FrameOf(c, data[..], State(), base), hash[..], son[..], forest, lost, buffer)
    }

    /** `MatchFinder_Init` after `MatchFinder_Create`: empty tables, whatever the
      * `son` cells hold. */
    constructor Init(c: Config, data: array<Byte>, hash: array<nat>, son: array<nat>)
      requires c.Valid() && data.Length < WORD - 1
      requires hash.Length == FIX4_HASH_SIZE + c.hashSize && son.Length == 2 * c.cbs
      requires hash != son && (data as object) != hash && (data as object) != son
      modifies hash
      ensures Valid() && this.c == c && this.data == data && this.hash == hash && this.son == son && buffer == 0 && lost == map[]
    {
      this.c, this.data, this.hash, this.son := c, data, hash, son;
      cyclicBufferPos, buffer, pos := 0, 0, c.cbs;
      streamPos := (c.cbs + data.Length) % WORD;
      posLimit, lenLimit := 0, 0;
      base, forest, lost := 0 - c.cbs, map[], map[];
      new;
      for i := 0 to hash.Length
        invariant forall k :: 0 <= k < i ==> hash[k] == 0
        modifies hash
      {
        hash[i] := 0;
      }
      SetLimitsOK(c, data.Length, State());
      SetLimitsNow();
    }

    /** `MatchFinder_SetLimits`. */
    method SetLimitsNow()
      requires pos <= MAX_VAL_FOR_NORMALIZE && cyclicBufferPos <= c.cbs
      modifies this`lenLimit, this`posLimit
      ensures State() == SetLimits(c, old(State()))
    {
      var limit := MAX_VAL_FOR_NORMALIZE - pos;
      var limit2 := c.cbs - cyclicBufferPos;
      if limit2 < limit {
        limit := limit2;
      }
      limit2 := (streamPos - pos) % WORD;
      if limit2 <= c.keepSizeAfter {
        if limit2 > 0 {
          limit2 := 1;
        }
      } else {
        limit2 := limit2 - c.keepSizeAfter;
      }
      if limit2 < limit {
        limit := limit2;
      }
      lenLimit := (streamPos - pos) % WORD;
      if lenLimit > c.matchMaxLen {
        lenLimit := c.matchMaxLen;
      }
      posLimit := pos + limit;
    }

    /** `MatchFinder_CheckLimits`. */
    method CheckLimitsNow()
      requires Separate() && c.cbs <= pos <= MAX_VAL_FOR_NORMALIZE && cyclicBufferPos <= c.cbs
      modifies this`pos, this`streamPos, this`cyclicBufferPos, this`lenLimit, this`posLimit, hash, son
      ensures State() == CheckLimits(c, old(State()))
    {
      if pos == MAX_VAL_FOR_NORMALIZE {
        var subValue := ((pos - c.cbs) / NORMALIZE_STEP) * NORMALIZE_STEP;
        Normalize3(subValue, hash);
        Normalize3(subValue, son);
        pos := pos - subValue;
        streamPos := (streamPos - subValue) % WORD;
      }
      if cyclicBufferPos == c.cbs {
        cyclicBufferPos := 0;
      }
      SetLimitsNow();
    }

    /** `MOVE_POS`. */
    method MovePos()
      requires Separate() && c.cbs <= pos < MAX_VAL_FOR_NORMALIZE && cyclicBufferPos < c.cbs
      modifies this`pos, this`buffer, this`streamPos, this`cyclicBufferPos, this`lenLimit, this`posLimit, this`base, hash, son
      ensures State() == Moved(c, old(State()))
      ensures base == MovedBase(c, old(State()), old(base))
    {
      base := MovedBase(c, State(), base);
      cyclicBufferPos := cyclicBufferPos + 1;
      buffer := buffer + 1;
      pos := pos + 1;
      if pos == posLimit {
        CheckLimitsNow();
      }
    }

    /** The three table cells of the current string are pointed at it; returns
      * what they held. */
    method UpdateTables() returns (v2: nat, v3: nat, curMatch: nat)
      requires Separate() && buffer + 4 <= data.Length && c.hashSize > 0 && hash.Length == FIX4_HASH_SIZE + c.hashSize
      modifies hash
      ensures var (h2, h3, hv) := HashesAt(c, data[..], buffer);
              && hash[..] == old(hash[..])[h2 := pos][h3 := pos][hv := pos]
              && v2 == old(hash[h2]) && v3 == old(hash[h3]) && curMatch == old(hash[hv])
    {
      var (h2, h3, hv) := HashesAt(c, data[..], buffer);
      v2, v3, curMatch := hash[h2], hash[h3], hash[hv];
      hash[h2] := pos;
      hash[h3] := pos;
      hash[hv] := pos;
    }

    /** `Bt4_MatchFinder_Skip`, one position. */
    method SkipOne()
      requires Valid() && buffer < data.Length
      modifies this, hash, son
      ensures Valid() && State() == Next(c, data[..], old(State()), old(base)) && buffer == old(buffer) + 1
      ensures lost == LostAfter(c, data[..], old(State()), old(base), old(lost))
    {
      hide Inv, Ready, ForestOK, Settled, TablesOK, Walk, Moved, HashesAt, RootOK, Whole, Keeps, CutsOff;
      ghost var s, d := State(), data[..];
      InvFacts(c, d, s, base, forest);
      if lenLimit < 4 {
        InvReady(c, d, s, base, forest);
        NothingToInsert(c, FrameOf(c, d, s, base), s.hash, s.son, forest, lost);
      } else {
        var v2, v3, curMatch := UpdateTables();
        ghost var hv := HashesAt(c, d, buffer).2;
        forest := SkipMatchesSpec(FrameOf(c, d, s, base), lenLimit, curMatch, pos, data, buffer, son,
                                  cyclicBufferPos, c.cbs, c.cutValue, forest, hv);
        assert State() == WithPosition(c, d, s, base);
        InsertReady(c, d, s, base, old(forest), forest);
        lost := LostAfter(c, d, s, base, lost);
        InsertKeepsWhole(c, d, s, base, old(forest), forest, old(lost));
      }
      MoveAll();
    }

    /** The move behind an insertion. */
    method MoveAll()
      requires Separate() && Ready(c, data[..], State(), base, forest)
      requires Whole(c, FrameOf(c, data[..], State(), base), hash[..], son[..], forest, lost, buffer + 1)
      modifies this`pos, this`buffer, this`streamPos, this`cyclicBufferPos, this`lenLimit, this`posLimit, this`base, hash, son
      ensures Valid() && LimitsOK(c, data.Length, old(State())) && old(buffer) < data.Length
      ensures State() == Moved(c, old(State())) && buffer == old(buffer) + 1
    {
      hide Inv, ForestOK, Settled, TablesOK, Walk, Moved, HashesAt, RootOK, Whole;
      ghost var d, t := data[..], State();
      MoveKeepsInv(c, d, t, base, forest);
      MoveKeepsWhole(c, d, t, base, forest, lost);
      MovedFacts(c, |d|, t);
      MovePos();
    }

    /** `UPDATE_maxLen`: extends a match already known to be `maxLen0` long. */
    method UpdateMaxLen(ghost f: Frame, d2: nat, maxLen0: nat) returns (maxLen: nat)
      requires f == Frame(data[..], c.cbs, base, buffer, lenLimit) && f.Valid()
      requires 0 < d2 && maxLen0 <= lenLimit && TrueAt(f, Match(maxLen0, d2 - 1))
      ensures maxLen0 <= maxLen <= lenLimit && TrueAt(f, Match(maxLen, d2 - 1))
      ensures d2 <= buffer && maxLen == Lcp(f.d, buffer - d2, buffer, lenLimit)
    {
      maxLen := maxLen0;
      while maxLen != lenLimit
        invariant maxLen0 <= maxLen <= lenLimit && TrueAt(f, Match(maxLen, d2 - 1))
        decreases lenLimit - maxLen
      {
        if data[buffer - d2 + maxLen] != data[buffer + maxLen] {
          break;
        }
        SameExtend(f.d, buffer - d2, buffer, maxLen);
        maxLen := maxLen + 1;
      }
      LcpUnique(f.d, buffer - d2, buffer, lenLimit, maxLen);
    }

    /** The two small tables: at most two entries, the last one extended. */
    method SmallMatches(ghost f: Frame, v2: nat, v3: nat, distances: array<Match>) returns (offset: nat, maxLen: nat)
      requires f == Frame(data[..], c.cbs, base, buffer, lenLimit) && SmallCells(c, f, v2, v3) && pos == f.Pos()
      requires distances.Length >= 2 && (distances as object) != data
      modifies distances
      ensures offset <= 2 && Found(f, distances[..][..offset]) && f.Valid() && SmallDone(f, v2, v3, distances[..][..offset], maxLen)
      ensures forall k :: 0 <= k < offset ==> distances[k].len <= maxLen
    {
      hide SmallCells, Hit, TrueAt, SmallDone, Lcp, Found, HashesAt, FindsHit;
      CellsHit(c, f, v2, v3);
      var d2, d3 := pos - v2, pos - v3;
      maxLen, offset := 0, 0;
      if d2 < c.cbs && data[buffer - d2] == data[buffer] {
        maxLen := 2;
        distances[0] := Match(2, d2 - 1);
        offset := 1;
      }
      if d2 != d3 && d3 < c.cbs && data[buffer - d3] == data[buffer] {
        maxLen := 3;
        distances[offset] := Match(3, d3 - 1);
        offset := offset + 1;
        d2 := d3;
      }
      if offset != 0 {
        maxLen := UpdateMaxLen(f, d2, maxLen);
        distances[offset - 1] := Match(maxLen, d2 - 1);
      }
      FoundTwo(f, distances[..][..offset]);
      SmallFinds(c, f, v2, v3, distances[..][..offset], maxLen);
    }

    /** The tree walk of a report, behind what the small tables gave: with a match
      * of the full length the tree is only split, else searched too. */
    method TreeMatches(ghost f: Frame, ghost hash0: seq<nat>, ghost lost0: map<nat, nat>, ghost v2: nat, ghost v3: nat, curMatch: nat,
                       distances: array<Match>, offset: nat, maxLen0: nat) returns (n: nat)
      requires f == Frame(data[..], c.cbs, base, buffer, lenLimit) && f.Valid() && |son[..]| == 2 * f.cbs
      requires pos == f.Pos() && lenLimit >= 4 && cyclicBufferPos == Slot(c.cbs, buffer)
      requires Settled(f, son[..], forest) && TreesWhole(c, f, hash0, son[..], forest, lost0, buffer)
      requires curMatch == hash0[HashesAt(c, f.d, buffer).2] && RootOK(f, forest, curMatch, HashesAt(c, f.d, buffer).2)
      requires distances.Length >= lenLimit && offset <= 2 && (distances as object) !in {data as object, hash, son} && Separate()
      requires Found(f, distances[..][..offset]) && SmallDone(f, v2, v3, distances[..][..offset], maxLen0)
      requires forall k :: 0 <= k < offset ==> distances[k].len <= maxLen0
      modifies son, distances, this`forest
      ensures f.Valid() && |old(son[..])| == 2 * f.cbs && n <= distances.Length && Found(f, distances[..][..n])
      ensures var hv := HashesAt(c, f.d, buffer).2;
              && Inserted(f, old(son[..]), son[..], old(forest), forest, curMatch, hv, c.cutValue)
              && Keeps(f, old(son[..]), son[..], old(forest), forest, curMatch, hv, c.cutValue, lenLimit)
              && Finds(c, f, old(son[..]), hv, curMatch, lost0, v2, v3, distances[..][..n])
    {
      hide Settled, ForestOK, RootOK, Inserted, Keeps, Found, Reported, Finds, TreesWhole, HashesAt, Lcp, Records, Visits, SmallDone;
      SmallLast(f, v2, v3, distances[..][..offset], maxLen0);
      ghost var hv, son0, forest0 := HashesAt(c, f.d, buffer).2, son[..], forest;
      ghost var small := distances[..][..offset];
      var maxLen := maxLen0;
      if offset != 0 && maxLen == lenLimit {
        n := offset;
        forest := SkipMatchesSpec(f, lenLimit, curMatch, pos, data, buffer, son, cyclicBufferPos, c.cbs, c.cutValue, forest, hv);
        NothingBetter(c, f, son0, hv, curMatch, lost0, v2, v3, small, maxLen);
      } else {
        if maxLen < 3 {
          maxLen := 3;
        }
        n, forest := GetMatchesSpec1(f, lenLimit, curMatch, pos, data, buffer, son, cyclicBufferPos, c.cbs, c.cutValue,
                                     distances, offset, maxLen, forest, hv);
        ghost var more := distances[..][offset..n];
        assert distances[..][..n] == small + more;
        FoundJoin(f, small, more, maxLen);
        ReportedBest(f, more, maxLen);
        KeepsWeaker(f, son0, son[..], forest0, forest, curMatch, hv, c.cutValue, Best(more, maxLen), lenLimit);
        NothingMissed(c, f, hash0, son0, son[..], forest0, forest, lost0, v2, v3, small, maxLen0, more, maxLen);
      }
    }

    /** What a report does to tables and tree, and what it finds. */
    method FindAndInsert(distances: array<Match>) returns (n: nat)
      requires Valid() && buffer < data.Length && lenLimit >= 4
      requires distances.Length >= c.matchMaxLen && (distances as object) !in {data as object, hash, son}
      modifies hash, son, distances, this`forest, this`lost
      ensures Ready(c, data[..], State(), base, forest)
      ensures Whole(c, FrameOf(c, data[..], State(), base), hash[..], son[..], forest, lost, buffer + 1)
      ensures Reporting(c, data[..], old(State()), base)
      ensures State() == WithPosition(c, data[..], old(State()), base)
      ensures lost == LostAfter(c, data[..], old(State()), base, old(lost))
      ensures n <= distances.Length && ReportsAll(c, data[..], old(State()), base, old(lost), distances[..][..n])
    {
      hide Inv, Ready, ForestOK, Settled, TablesOK, Walk, HashesAt, Found, SmallCellOK, RootOK, Whole, Keeps, CutsOff, Finds, SmallDone, SmallCells;
      ghost var s, d := State(), data[..];
      ghost var f := FrameOf(c, d, s, base);
      InvFacts(c, d, s, base, forest);
      InvCells(c, d, s, base, forest, lost);
      var v2, v3, curMatch := UpdateTables();
      var offset, maxLen := SmallMatches(f, v2, v3, distances);
      n := TreeMatches(f, s.hash, lost, v2, v3, curMatch, distances, offset, maxLen);
      assert State() == WithPosition(c, d, s, base);
      InsertReady(c, d, s, base, old(forest), forest);
      lost := LostAfter(c, d, s, base, lost);
      InsertKeepsWhole(c, d, s, base, old(forest), forest, old(lost));
    }

    /** `Bt4_MatchFinder_GetMatches`: every reported pair is a true match inside
      * the window, lengths strictly increase, nothing the tables or the walk meet
      * is missed, and the finder moves on exactly as if it had skipped. */
    method GetMatches(distances: array<Match>) returns (n: nat)
      requires Valid() && buffer < data.Length
      requires distances.Length >= c.matchMaxLen && (distances as object) !in {data as object, hash, son}
      modifies this, hash, son, distances
      ensures Valid() && State() == Next(c, data[..], old(State()), old(base)) && buffer == old(buffer) + 1
      ensures lost == LostAfter(c, data[..], old(State()), old(base), old(lost))
      ensures n <= distances.Length && Found(FrameOf(c, data[..], old(State()), old(base)), distances[..][..n])
      ensures if old(lenLimit) < 4 then n == 0
              else ReportsAll(c, data[..], old(State()), old(base), old(lost), distances[..][..n])
    {
      hide Inv, Ready, ForestOK, Settled, TablesOK, Walk, Moved, HashesAt, Found, RootOK, Whole, CutsOff, ReportsAll, WithPosition;
      ghost var s, d := State(), data[..];
      InvFacts(c, d, s, base, forest);
      n := 0;
      if lenLimit < 4 {
        FoundNone(FrameOf(c, d, s, base));
        assert distances[..][..0] == [];
        InvReady(c, d, s, base, forest);
        NothingToInsert(c, FrameOf(c, d, s, base), s.hash, s.son, forest, lost);
      } else {
        n := FindAndInsert(distances);
        ReportFound(c, d, s, base, old(lost), distances[..][..n]);
      }
      MoveAll();
    }
  }

  /** A finder about to report a position with at least four bytes left. */
  ghost predicate Reporting(c: Config, d: seq<Byte>, s: Snap, base: int) {
    && LimitsOK(c, |d|, s) && s.buffer < |d| && s.lenLimit >= 4
    && FrameOf(c, d, s, base).Valid() && |s.son| == 2 * c.cbs && |s.hash| == FIX4_HASH_SIZE + c.hashSize
  }

  /** The report of one call: true matches only, and the best of what the tables and
    * the tree have. */
  ghost predicate ReportsAll(c: Config, d: seq<Byte>, s: Snap, base: int, lost: map<nat, nat>, ms: seq<Match>)
    requires Reporting(c, d, s, base)
  {
    var (h2, h3, hv) := HashesAt(c, d, s.buffer);
    Found(FrameOf(c, d, s, base), ms) && Finds(c, FrameOf(c, d, s, base), s.son, hv, s.hash[hv], lost, s.hash[h2], s.hash[h3], ms)
  }

  lemma ReportFound(c: Config, d: seq<Byte>, s: Snap, base: int, lost: map<nat, nat>, ms: seq<Match>)
    requires Reporting(c, d, s, base) && ReportsAll(c, d, s, base, lost, ms)
    ensures Found(FrameOf(c, d, s, base), ms)
  {
  }

  lemma InvCells(c: Config, d: seq<Byte>, s: Snap, base: int, forest: Forest, lost: map<nat, nat>)
    requires Inv(c, d, s, base, forest) && s.lenLimit >= 4
    requires Whole(c, FrameOf(c, d, s, base), s.hash, s.son, forest, lost, s.buffer)
    ensures s.buffer + 4 <= |d| && |s.hash| == FIX4_HASH_SIZE + c.hashSize && c.hashSize > 0
    ensures TreesWhole(c, FrameOf(c, d, s, base), s.hash, s.son, forest, lost, s.buffer)
    ensures var (h2, h3, hv) := HashesAt(c, d, s.buffer); SmallCells(c, FrameOf(c, d, s, base), s.hash[h2], s.hash[h3])
  {
    hide SmallCells, Settled, TreesWhole, HashesAt, RootOK, SmallCellOK;
    CellsOfTables(c, FrameOf(c, d, s, base), s.hash, forest);
  }

  lemma ReportedBest(f: Frame, ms: seq<Match>, floor: nat)
    requires Reported(f, ms, floor) && floor <= f.len
    ensures Best(ms, floor) <= f.len
  {
  }

  lemma KeepsWeaker(f: Frame, before: seq<nat>, after: seq<nat>, forest: Forest, forest': Forest, v: nat, h: nat, cut: nat, best: nat, best': nat)
    requires Keeps(f, before, after, forest, forest', v, h, cut, best) && best <= best'
    ensures Keeps(f, before, after, forest, forest', v, h, cut, best')
  {
    hide CutsOff, Nodes, OtherNodes, AllOthers, Slot;
  }

  /** The cuts so far, after one more insertion. */
  ghost function LostAfter(c: Config, d: seq<Byte>, s: Snap, base: int, lost: map<nat, nat>): map<nat, nat>
    requires LimitsOK(c, |d|, s) && s.buffer < |d|
    requires FrameOf(c, d, s, base).Valid() && |s.son| == 2 * c.cbs && |s.hash| == FIX4_HASH_SIZE + c.hashSize
  {
    if s.lenLimit < 4 then lost
    else
      var f, hv := FrameOf(c, d, s, base), HashesAt(c, d, s.buffer).2;
      WithCut(lost, hv, s.buffer, CutsOff(f, s.son, s.hash[hv], 2 * Slot(c.cbs, s.buffer), 2 * Slot(c.cbs, s.buffer) + 1, c.cutValue))
  }

  /** A cut is one of an insertion that compared as many positions as the cut value
    * allows, and concerns its own bucket, from its own position back. */
  lemma CutOnlyWhenUsedUp(c: Config, d: seq<Byte>, s: Snap, base: int, lost: map<nat, nat>, h: nat)
    requires Reporting(c, d, s, base)
    requires h in LostAfter(c, d, s, base, lost) && (h !in lost || LostAfter(c, d, s, base, lost)[h] != lost[h])
    ensures h == HashesAt(c, d, s.buffer).2 && LostAfter(c, d, s, base, lost)[h] == s.buffer
    ensures |Visits(FrameOf(c, d, s, base), s.son, s.hash[h], 2 * Slot(c.cbs, s.buffer), 2 * Slot(c.cbs, s.buffer) + 1, c.cutValue)|
         == c.cutValue
  {
    hide Visits, CutsOff, HashesAt;
    var f, hv := FrameOf(c, d, s, base), HashesAt(c, d, s.buffer).2;
    CutsOffAfter(f, s.son, s.hash[hv], 2 * Slot(c.cbs, s.buffer), 2 * Slot(c.cbs, s.buffer) + 1, c.cutValue);
  }

  lemma InsertKeepsWhole(c: Config, d: seq<Byte>, s: Snap, base: int, forest: Forest, forest': Forest, lost: map<nat, nat>)
    requires Inv(c, d, s, base, forest) && s.buffer < |d| && s.lenLimit >= 4
    requires var f, hv := FrameOf(c, d, s, base), HashesAt(c, d, s.buffer).2;
             && Whole(c, f, s.hash, s.son, forest, lost, s.buffer)
             && Keeps(f, s.son, WithPosition(c, d, s, base).son, forest, forest', s.hash[hv], hv, c.cutValue, s.lenLimit)
    ensures LimitsOK(c, |d|, s) && FrameOf(c, d, s, base).Valid() && |s.son| == 2 * c.cbs && |s.hash| == FIX4_HASH_SIZE + c.hashSize
    ensures var t := WithPosition(c, d, s, base);
            && FrameOf(c, d, t, base) == FrameOf(c, d, s, base)
            && Whole(c, FrameOf(c, d, t, base), t.hash, t.son, forest', LostAfter(c, d, s, base, lost), s.buffer + 1)
  {
    hide Inv, Whole, Keeps, CutsOff, Walk, HashesAt, RootOK, SmallCellOK;
    InvFacts(c, d, s, base, forest);
    InvRoots(c, d, s, base, forest);
    var f, t := FrameOf(c, d, s, base), WithPosition(c, d, s, base);
    InsertWhole(c, f, s.hash, s.son, forest, lost, t.hash, t.son, forest', LostAfter(c, d, s, base, lost));
  }

  lemma InvRoots(c: Config, d: seq<Byte>, s: Snap, base: int, forest: Forest)
    requires Inv(c, d, s, base, forest)
    ensures forall i :: FIX4_HASH_SIZE <= i < |s.hash| ==> RootOK(FrameOf(c, d, s, base), forest, s.hash[i], i)
  {
  }

  lemma FoundNone(f: Frame)
    ensures Found(f, [])
  {
  }

  lemma InvFacts(c: Config, d: seq<Byte>, s: Snap, base: int, forest: Forest)
    requires Inv(c, d, s, base, forest)
    ensures LimitsOK(c, |d|, s) && FrameOf(c, d, s, base).Valid() && |s.son| == 2 * c.cbs && |s.hash| == FIX4_HASH_SIZE + c.hashSize
    ensures s.pos == s.buffer - base && Settled(FrameOf(c, d, s, base), s.son, forest)
    ensures s.buffer + 4 <= |d| ==>
              var (h2, h3, hv) := HashesAt(c, d, s.buffer);
              && RootOK(FrameOf(c, d, s, base), forest, s.hash[hv], hv)
              && SmallCellOK(c, FrameOf(c, d, s, base), h2, s.hash[h2]) && SmallCellOK(c, FrameOf(c, d, s, base), h3, s.hash[h3])
  {
  }

  lemma MovedFacts(c: Config, n: nat, s: Snap)
    requires LimitsOK(c, n, s) && s.buffer < n
    ensures Moved(c, s).buffer == s.buffer + 1
  {
    MovedLimits(c, n, s);
  }

  /** `MatchFinder_Normalize3`. */
  method Normalize3(subValue: nat, items: array<nat>)
    modifies items
    ensures items[..] == NormAll(old(items[..]), subValue)
  {
    for i := 0 to items.Length
      invariant forall k :: 0 <= k < i ==> items[k] == NormRef(old(items[k]), subValue)
      invariant forall k :: i <= k < items.Length ==> items[k] == old(items[k])
    {
      var value := items[i];
      if value <= subValue {
        value := 0;
      } else {
        value := value - subValue;
      }
      items[i] := value;
    }
  }
}
