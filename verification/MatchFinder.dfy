/** The match finder with four-byte hashes and binary trees (LzFind.c), in its
  * in-memory mode: every match it reports is a true match inside the window,
  * lengths strictly increase, and skipping leaves the tree reporting leaves. */
module MatchFinder {
  import opened Arith
  import opened Words
  import opened Strings
  import opened MatchTree
  import opened TreeSearch

  /** Two consecutive cells of the `distances` array: a length and a distance
    * less one. */
  datatype Match = Match(len: nat, dist: nat)

  /** The entry is a match of the string at `cur`, inside the window. */
  ghost predicate TrueAt(f: Frame, m: Match) {
    && f.cur + f.len <= |f.d| && m.dist + 1 < f.cbs && m.dist + 1 <= f.cur && 1 <= m.len <= f.len
    && Same(f.d, f.cur - m.dist - 1, f.cur, m.len)
  }

  /** It cannot be made longer within the limit. */
  ghost predicate LongestAt(f: Frame, m: Match)
    requires TrueAt(f, m)
  {
    Lcp(f.d, f.cur - m.dist - 1, f.cur, f.len) == m.len
  }

  ghost predicate LongerAt(ms: seq<Match>, floor: nat, k: nat)
    requires k < |ms|
  {
    (if k == 0 then floor else ms[k - 1].len) < ms[k].len
  }

  ghost predicate Increasing(ms: seq<Match>, floor: nat) {
    forall k: nat :: k < |ms| ==> LongerAt(ms, floor, k)
  }

  /** What a tree walk reports: exact matches, each longer than all before. */
  ghost predicate Reported(f: Frame, ms: seq<Match>, floor: nat) {
    Increasing(ms, floor) && forall k :: 0 <= k < |ms| ==> TrueAt(f, ms[k]) && LongestAt(f, ms[k])
  }

  lemma ReportMore(f: Frame, ms: seq<Match>, floor: nat, maxLen: nat, m: Match)
    requires Reported(f, ms, floor)
    requires maxLen == if ms == [] then floor else ms[|ms| - 1].len
    requires maxLen < m.len && TrueAt(f, m) && LongestAt(f, m)
    ensures Reported(f, ms + [m], floor)
  {
    forall k: nat | k < |ms| + 1 ensures LongerAt(ms + [m], floor, k) {
      if k < |ms| {
        assert LongerAt(ms, floor, k);
      }
    }
  }

  function Max(a: nat, b: nat): nat { if a < b then b else a }

  /** What a position adds to the records. */
  ghost function NextRecord(f: Frame, q: nat, floor: nat): seq<Match>
    requires f.Valid() && q < f.cur
  {
    var k := Lcp(f.d, q, f.cur, f.len);
    if k > floor then [Match(k, f.cur - q - 1)] else []
  }

  /** Of some positions in turn those that match better than all before and than
    * `floor`. */
  ghost function Records(f: Frame, qs: seq<nat>, floor: nat): seq<Match>
    requires f.Valid() && forall i :: 0 <= i < |qs| ==> qs[i] < f.cur
  {
    if qs == [] then []
    else NextRecord(f, qs[0], floor) + Records(f, qs[1..], Max(floor, Lcp(f.d, qs[0], f.cur, f.len)))
  }

  lemma RecordsNext(f: Frame, q: nat, qs: seq<nat>, floor: nat)
    requires f.Valid() && q < f.cur && forall i :: 0 <= i < |qs| ==> qs[i] < f.cur
    ensures Records(f, [q] + qs, floor) == NextRecord(f, q, floor) + Records(f, qs, Max(floor, Lcp(f.d, q, f.cur, f.len)))
  {
    hide Lcp, NextRecord, Max;
    assert ([q] + qs)[1..] == qs;
  }

  lemma RecordsLast(f: Frame, q: nat, floor: nat)
    requires f.Valid() && q < f.cur
    ensures Records(f, [q], floor) == NextRecord(f, q, floor) + []
  {
    hide Lcp, NextRecord, Max;
    RecordsNext(f, q, [], floor);
    assert [q] + [] == [q];
  }

  /** The length of the last match, if there is any. */
  ghost function Best(ms: seq<Match>, floor: nat): nat {
    if ms == [] then floor else ms[|ms| - 1].len
  }

  /** No position that was looked at is better than the last record. */
  lemma {:induction false} RecordsBest(f: Frame, qs: seq<nat>, floor: nat, i: nat)
    requires f.Valid() && (forall j :: 0 <= j < |qs| ==> qs[j] < f.cur) && i < |qs|
    ensures Lcp(f.d, qs[i], f.cur, f.len) <= Best(Records(f, qs, floor), floor)
    decreases |qs|
  {
    hide Lcp;
    var k := Lcp(f.d, qs[0], f.cur, f.len);
    RecordsGrow(f, qs[1..], Max(floor, k));
    if i > 0 {
      RecordsBest(f, qs[1..], Max(floor, k), i - 1);
    }
  }

  lemma {:induction false} RecordsGrow(f: Frame, qs: seq<nat>, floor: nat)
    requires f.Valid() && forall j :: 0 <= j < |qs| ==> qs[j] < f.cur
    ensures Best(Records(f, qs, floor), floor) >= floor
    decreases |qs|
  {
    hide Lcp;
    if qs != [] {
      RecordsGrow(f, qs[1..], Max(floor, Lcp(f.d, qs[0], f.cur, f.len)));
    }
  }

  /** An insertion keeps what is in the trees, and has seen the best that its own
    * tree has to offer, unless it is cut off. */
  ghost predicate Keeps(f: Frame, before: seq<nat>, after: seq<nat>, forest: Forest, forest': Forest, v: nat, h: nat, cut: nat, best: nat) {
    && f.Valid() && |before| == |after| == 2 * f.cbs && f.cur in forest'
    && AllOthers(f, after, forest', h, OtherNodes(f, before, forest, h))
    && (CutsOff(f, before, v, 2 * Slot(f.cbs, f.cur), 2 * Slot(f.cbs, f.cur) + 1, cut)
        || Searched(f, after, forest', h, Nodes(f, before, forest, v), OtherNodes(f, before, forest, h), best))
  }

  /** Compares on from a byte that agrees. */
  method MatchLen(data: array<Byte>, pb: nat, cur: nat, len0: nat, lenLimit: nat) returns (len: nat)
    requires pb <= cur && cur + lenLimit <= data.Length && len0 < lenLimit
    requires Same(data[..], pb, cur, len0)
    ensures len == Lcp(data[..], pb, cur, lenLimit)
  {
    len := len0;
    if data[pb + len] == data[cur + len] {
      SameExtend(data[..], pb, cur, len);
      len := len + 1;
      while len != lenLimit
        invariant len <= lenLimit && Same(data[..], pb, cur, len)
        decreases lenLimit - len
      {
        if data[pb + len] != data[cur + len] {
          break;
        }
        SameExtend(data[..], pb, cur, len);
        len := len + 1;
      }
    }
    LcpUnique(data[..], pb, cur, lenLimit, len);
  }

  /** What both walks promise about the forest and the tree they leave. */
  ghost predicate Inserted(f: Frame, before: seq<nat>, after: seq<nat>, forest: Forest, forest': Forest, v: nat, h: nat, cut: nat) {
    && ForestOK(f, after, forest', {})
    && f.cur in forest' && forest'[f.cur] == Info(Root(h), Open, Open)
    && OtherRootsKept(forest, forest', h) && forest'.Keys <= forest.Keys + {f.cur}
    && |before| == 2 * f.cbs
    && after == Walk(f, before, v, 2 * Slot(f.cbs, f.cur), 2 * Slot(f.cbs, f.cur) + 1, cut)
  }

  lemma WalkDone(f: Frame, before: seq<nat>, after: seq<nat>, forest: Forest, forest': Forest, v: nat, h: nat, cut: nat)
    requires ForestOK(f, after, forest', {})
    requires f.cur in forest' && forest'[f.cur] == Info(Root(h), Open, Open)
    requires OtherRootsKept(forest, forest', h) && forest'.Keys <= forest.Keys + {f.cur}
    requires f.Valid() && |before| == 2 * f.cbs
    requires after == Walk(f, before, v, 2 * Slot(f.cbs, f.cur), 2 * Slot(f.cbs, f.cur) + 1, cut)
    ensures Inserted(f, before, after, forest, forest', v, h, cut)
  {
    hide ForestOK, OtherRootsKept, Walk, Slot;
  }

  /** The state of a walk: where the open cells are and how many bytes the bounds
    * are known to share with the current string. */
  ghost predicate Walking(f: Frame, son: seq<nat>, forest0: Forest, forest: Forest, a: Bound, b: Bound, v: nat, h: nat,
                          ptr1: nat, ptr0: nat, len1: nat, len0: nat)
  {
    && WalkOK(f, son, forest, a, b, v, h)
    && ptr1 == Cell(f.cbs, SmallHole(f.cur, a).r, SmallHole(f.cur, a).right)
    && ptr0 == Cell(f.cbs, GreatHole(f.cur, b).r, GreatHole(f.cur, b).right)
    && len1 < f.len && len0 < f.len
    && (if a.At? then Same(f.d, a.p, f.cur, len1) else len1 == 0)
    && (if b.At? then Same(f.d, b.p, f.cur, len0) else len0 == 0)
    && OtherRootsKept(forest0, forest, h) && forest.Keys <= forest0.Keys + {f.cur}
  }

  /** Before a candidate is compared: it is a node in the window, its pair of
    * cells is where the pointer arithmetic says, and the skipped bytes agree. */
  lemma Visit(f: Frame, son: seq<nat>, forest0: Forest, forest: Forest, a: Bound, b: Bound, v: nat, h: nat,
              ptr1: nat, ptr0: nat, len1: nat, len0: nat, delta: nat)
    requires Walking(f, son, forest0, forest, a, b, v, h, ptr1, ptr0, len1, len0)
    requires v <= f.Pos() && delta == f.Pos() - v && delta < f.cbs
    ensures !f.Out(v) && 0 < delta <= f.cur && v + f.base == f.cur - delta && f.InWindow(f.cur - delta)
    ensures var pair := 2 * (Slot(f.cbs, f.cur) - delta + (if delta > Slot(f.cbs, f.cur) then f.cbs else 0));
            pair == Cell(f.cbs, f.cur - delta, false) && pair + 1 == Cell(f.cbs, f.cur - delta, true)
    ensures Same(f.d, f.cur - delta, f.cur, if len0 < len1 then len0 else len1)
    ensures |son| == 2 * f.cbs
  {
    hide Le;
    CyclicSlot(f.cbs, f.cur, delta);
    var m := if len0 < len1 then len0 else len1;
    if a.At? { SamePrefix(f.d, a.p, f.cur, len1, m); }
    if b.At? { SamePrefix(f.d, b.p, f.cur, len0, m); }
    SkippedBytesAgree(f, son, forest, a, b, v, h, m);
  }

  /** The walk over: both open cells are emptied. */
  lemma StepEnd(f: Frame, son: seq<nat>, forest0: Forest, forest: Forest, a: Bound, b: Bound, v: nat, h: nat,
                ptr1: nat, ptr0: nat, len1: nat, len0: nat, cut: nat)
    requires Walking(f, son, forest0, forest, a, b, v, h, ptr1, ptr0, len1, len0)
    requires cut == 0 || f.Out(v)
    ensures f.Valid() && |son| == 2 * f.cbs && ptr1 < |son| && ptr0 < |son|
    ensures Walk(f, son, v, ptr1, ptr0, cut) == son[ptr0 := 0][ptr1 := 0]
    ensures ForestOK(f, son[ptr0 := 0][ptr1 := 0], forest, {})
    ensures Visits(f, son, v, ptr1, ptr0, cut) == [] && CutsOff(f, son, v, ptr1, ptr0, cut) == !f.Out(v)
  {
    hide Le;
    var s, g := SmallHole(f.cur, a), GreatHole(f.cur, b);
    CellsDiffer(f, s.r, s.right, g.r, g.right);
    PlaceNothing(f, son, forest, a, b, v, h);
    assert son[ptr0 := 0][ptr1 := 0] == son[ptr1 := 0][ptr0 := 0];
  }

  lemma SearchEnds(f: Frame, before: seq<nat>, son: seq<nat>, forest0: Forest, forest: Forest, a: Bound, b: Bound, v0: nat, v: nat, h: nat,
                   ptr1: nat, ptr0: nat, len1: nat, len0: nat, cut: nat, best: nat)
    requires Walking(f, son, forest0, forest, a, b, v, h, ptr1, ptr0, len1, len0) && |son| == |before| == 2 * f.cbs
    requires ptr1 < |son| && ptr0 < |son|
    requires Searching(f, son, forest, a, b, v, h, Nodes(f, before, forest0, v0), OtherNodes(f, before, forest0, h), best)
    requires CutsOff(f, before, v0, 2 * Slot(f.cbs, f.cur), 2 * Slot(f.cbs, f.cur) + 1, cut) == !f.Out(v)
    ensures Keeps(f, before, son[ptr0 := 0][ptr1 := 0], forest0, forest, v0, h, cut, best)
  {
    hide Le, Searching, Searched, Nodes, OtherNodes, AllOthers, ForestOK, CandidateOK, Slot, CutsOff;
    WalkOKFrame(f, son, forest, a, b, v, h);
    SearchEnd(f, son, forest, a, b, v, h, Nodes(f, before, forest0, v0), OtherNodes(f, before, forest0, h), best);
  }

  /** A node equal in all compared bytes is replaced. */
  lemma StepEqual(f: Frame, son: seq<nat>, forest0: Forest, forest: Forest, a: Bound, b: Bound, v: nat, h: nat,
                  ptr1: nat, ptr0: nat, len1: nat, len0: nat, q: nat, cut: nat)
    returns (forest': Forest)
    requires Walking(f, son, forest0, forest, a, b, v, h, ptr1, ptr0, len1, len0)
    requires cut > 0 && !f.Out(v) && q == v + f.base && q < f.cur && f.InWindow(q) && |son| == 2 * f.cbs
    requires Lcp(f.d, q, f.cur, f.len) == f.len
    ensures ptr1 < |son| && ptr0 < |son| && ptr1 != Cell(f.cbs, q, true)
    ensures var after := son[ptr1 := son[Cell(f.cbs, q, false)]][ptr0 := son[Cell(f.cbs, q, true)]];
            && Walk(f, son, v, ptr1, ptr0, cut) == after
            && ForestOK(f, after, forest', {})
    ensures Visits(f, son, v, ptr1, ptr0, cut) == [q] && !CutsOff(f, son, v, ptr1, ptr0, cut)
    ensures f.cur in forest' && forest'[f.cur] == Info(Root(h), Open, Open)
    ensures OtherRootsKept(forest0, forest', h) && forest'.Keys <= forest0.Keys + {f.cur}
    ensures Replaced(f, forest, forest', q, son[Cell(f.cbs, q, false)], son[Cell(f.cbs, q, true)], SmallHole(f.cur, a), GreatHole(f.cur, b))
    ensures OtherRootsKept(forest, forest', h)
  {
    hide Le, ForestOK, CandidateOK;
    var s := SmallHole(f.cur, a);
    WalkOKFrame(f, son, forest, a, b, v, h);
    assert a.At? ==> q < a.p by { CandidateBelow(f, son, forest, a, b, v, h); }
    CellsDiffer(f, q, true, s.r, s.right);
    forest' := PlaceEqual(f, son, forest, a, b, v, h, q);
  }

  lemma SearchEqualEnds(f: Frame, before: seq<nat>, son: seq<nat>, forest0: Forest, forest: Forest, forest': Forest, a: Bound, b: Bound,
                        v0: nat, v: nat, h: nat, ptr1: nat, ptr0: nat, len1: nat, len0: nat, cut: nat, best: nat, q: nat)
    requires Walking(f, son, forest0, forest, a, b, v, h, ptr1, ptr0, len1, len0) && |son| == |before| == 2 * f.cbs
    requires ptr1 < |son| && ptr0 < |son| && !f.Out(v) && q == v + f.base && q < f.cur && f.InWindow(q) && best <= f.len
    requires Lcp(f.d, q, f.cur, f.len) == f.len
    requires Searching(f, son, forest, a, b, v, h, Nodes(f, before, forest0, v0), OtherNodes(f, before, forest0, h), best)
    requires Replaced(f, forest, forest', q, son[Cell(f.cbs, q, false)], son[Cell(f.cbs, q, true)], SmallHole(f.cur, a), GreatHole(f.cur, b))
    requires OtherRootsKept(forest, forest', h) && f.cur in forest'
    ensures Keeps(f, before, son[ptr1 := son[Cell(f.cbs, q, false)]][ptr0 := son[Cell(f.cbs, q, true)]], forest0, forest', v0, h, cut, f.len)
  {
    hide Le, Searching, Nodes, OtherNodes, AllOthers, ForestOK, CandidateOK, Slot, CutsOff, Replaced;
    WalkOKFrame(f, son, forest, a, b, v, h);
    LcpAgrees(f, q);
    SearchEqual(f, son, forest, a, b, v, h, Nodes(f, before, forest0, v0), OtherNodes(f, before, forest0, h), best, q, forest');
    SearchedOthers(f, Taken(f, son, a, b, q), forest', h, Nodes(f, before, forest0, v0), OtherNodes(f, before, forest0, h), f.len);
  }

  lemma SearchedOthers(f: Frame, son: seq<nat>, forest: Forest, h: nat, kept: set<nat>, others: set<(nat, nat)>, best: nat)
    requires f.Valid() && |son| == 2 * f.cbs && Searched(f, son, forest, h, kept, others, best)
    ensures AllOthers(f, son, forest, h, others)
  {
  }

  lemma WalkOKFrame(f: Frame, son: seq<nat>, forest: Forest, a: Bound, b: Bound, v: nat, h: nat)
    requires WalkOK(f, son, forest, a, b, v, h)
    ensures f.Valid() && |son| == 2 * f.cbs && f.InWindow(f.cur)
    ensures f.InWindow(SmallHole(f.cur, a).r) && f.InWindow(GreatHole(f.cur, b).r)
  {
  }

  lemma CandidateBelow(f: Frame, son: seq<nat>, forest: Forest, a: Bound, b: Bound, v: nat, h: nat)
    requires WalkOK(f, son, forest, a, b, v, h) && !f.Out(v)
    ensures 0 <= v + f.base < f.cur && (a.At? ==> v + f.base < a.p) && (b.At? ==> v + f.base < b.p)
  {
  }

  lemma LcpAgrees(f: Frame, q: nat)
    requires f.Valid() && q <= f.cur
    ensures Same(f.d, q, f.cur, Lcp(f.d, q, f.cur, f.len))
  {
  }

  lemma RootsKeptOn(forest0: Forest, forest: Forest, forest': Forest, h: nat)
    requires OtherRootsKept(forest0, forest, h) && OtherRootsKept(forest, forest', h)
    ensures OtherRootsKept(forest0, forest', h)
  {
  }

  /** After the candidate `q` the walk goes on with fewer cells to spare. */
  ghost predicate GoesOn(f: Frame, son: seq<nat>, v: nat, i1: nat, i0: nat, cut: nat, q: nat, son': seq<nat>, v': nat, i1': nat, i0': nat)
    requires f.Valid() && |son| == |son'| == 2 * f.cbs && i1 < |son| && i0 < |son| && i1' < |son| && i0' < |son| && cut > 0
  {
    && Walk(f, son, v, i1, i0, cut) == Walk(f, son', v', i1', i0', cut - 1)
    && Visits(f, son, v, i1, i0, cut) == [q] + Visits(f, son', v', i1', i0', cut - 1)
    && CutsOff(f, son, v, i1, i0, cut) == CutsOff(f, son', v', i1', i0', cut - 1)
  }

  lemma StepSmaller(f: Frame, son: seq<nat>, forest0: Forest, forest: Forest, a: Bound, b: Bound, v: nat, h: nat,
                    ptr1: nat, ptr0: nat, len1: nat, len0: nat, q: nat, k: nat, cut: nat)
    returns (forest': Forest)
    requires Walking(f, son, forest0, forest, a, b, v, h, ptr1, ptr0, len1, len0)
    requires cut > 0 && !f.Out(v) && q == v + f.base && q < f.cur && f.InWindow(q) && |son| == 2 * f.cbs
    requires k == Lcp(f.d, q, f.cur, f.len) < f.len && f.d[q + k] < f.d[f.cur + k]
    ensures ptr1 < |son| && ptr0 < |son|
    ensures var right := Cell(f.cbs, q, true);
            && Walking(f, son[ptr1 := v], forest0, forest', At(q), b, son[ptr1 := v][right], h, right, ptr0, k, len0)
            && GoesOn(f, son, v, ptr1, ptr0, cut, q, son[ptr1 := v], son[ptr1 := v][right], right, ptr0)
    ensures Hung(f, son, forest, son[ptr1 := v], forest', v, q, SmallHole(f.cur, a))
  {
    hide Le, WalkOK, Cell, Slot, OtherRootsKept, Lcp;
    WalkOKFrame(f, son, forest, a, b, v, h);
    LcpAgrees(f, q);
    forest' := PlaceSmaller(f, son, forest, a, b, v, h, q, k);
    RootsKeptOn(forest0, forest, forest', h);
  }

  lemma StepGreater(f: Frame, son: seq<nat>, forest0: Forest, forest: Forest, a: Bound, b: Bound, v: nat, h: nat,
                    ptr1: nat, ptr0: nat, len1: nat, len0: nat, q: nat, k: nat, cut: nat)
    returns (forest': Forest)
    requires Walking(f, son, forest0, forest, a, b, v, h, ptr1, ptr0, len1, len0)
    requires cut > 0 && !f.Out(v) && q == v + f.base && q < f.cur && f.InWindow(q) && |son| == 2 * f.cbs
    requires k == Lcp(f.d, q, f.cur, f.len) < f.len && f.d[q + k] > f.d[f.cur + k]
    ensures ptr1 < |son| && ptr0 < |son|
    ensures var left := Cell(f.cbs, q, false);
            && Walking(f, son[ptr0 := v], forest0, forest', a, At(q), son[ptr0 := v][left], h, ptr1, left, len1, k)
            && GoesOn(f, son, v, ptr1, ptr0, cut, q, son[ptr0 := v], son[ptr0 := v][left], ptr1, left)
    ensures Hung(f, son, forest, son[ptr0 := v], forest', v, q, GreatHole(f.cur, b))
  {
    hide Le, WalkOK, Cell, Slot, OtherRootsKept, Lcp;
    WalkOKFrame(f, son, forest, a, b, v, h);
    LcpAgrees(f, q);
    forest' := PlaceGreater(f, son, forest, a, b, v, h, q, k);
    RootsKeptOn(forest0, forest, forest', h);
  }

  lemma StepStart(f: Frame, son: seq<nat>, forest: Forest, v: nat, h: nat, floor: nat) returns (forest': Forest)
    requires Settled(f, son, forest) && RootOK(f, forest, v, h) && f.len > 0
    ensures f.Valid() && |son| == 2 * f.cbs
    ensures Searching(f, son, forest', Open, Open, v, h, Nodes(f, son, forest, v), OtherNodes(f, son, forest, h), floor)
    ensures Walking(f, son, forest, forest', Open, Open, v, h, 2 * Slot(f.cbs, f.cur), 2 * Slot(f.cbs, f.cur) + 1, 0, 0)
  {
    hide Searching, Nodes, OtherNodes;
    forest' := StartWalk(f, son, forest, v, h);
    SearchStart(f, son, forest, v, h, forest', OtherNodes(f, son, forest, h), floor);
  }

  lemma WalkingCells(f: Frame, son: seq<nat>, forest0: Forest, forest: Forest, a: Bound, b: Bound, v: nat, h: nat,
                     ptr1: nat, ptr0: nat, len1: nat, len0: nat)
    requires Walking(f, son, forest0, forest, a, b, v, h, ptr1, ptr0, len1, len0)
    ensures f.Valid() && |son| == 2 * f.cbs && ptr1 < |son| && ptr0 < |son| && len1 < f.len && len0 < f.len
    ensures v <= f.Pos() == f.cur - f.base && (f.Out(v) <==> f.Pos() - v >= f.cbs)
    ensures f.cur in forest && forest[f.cur] == Info(Root(h), Open, Open)
    ensures OtherRootsKept(forest0, forest, h) && forest.Keys <= forest0.Keys + {f.cur}
  {
  }

  lemma ExactMatch(f: Frame, pb: nat, delta: nat)
    requires f.Valid() && 0 < delta <= f.cur && delta < f.cbs && pb == f.cur - delta
    requires Lcp(f.d, pb, f.cur, f.len) > 0
    ensures TrueAt(f, Match(Lcp(f.d, pb, f.cur, f.len), delta - 1)) && LongestAt(f, Match(Lcp(f.d, pb, f.cur, f.len), delta - 1))
  {
  }

  /** `*ptr = v`. */
  method Store(son: array<nat>, i: nat, v: nat)
    requires i < son.Length
    modifies son
    ensures son[..] == old(son[..])[i := v]
  {
    son[i] := v;
  }

  /** The report so far: the entries from `offset` to `n`, the last of them (if
    * any) of length `maxLen`; each is at least one longer than the one before. */
  ghost predicate Listed(f: Frame, ds: seq<Match>, ds0: seq<Match>, offset: nat, n: nat, floor: nat, maxLen: nat) {
    && |ds| == |ds0| && offset <= n <= |ds| && ds[..offset] == ds0[..offset]
    && Reported(f, ds[offset..n], floor)
    && floor <= maxLen && n <= offset + (maxLen - floor)
    && maxLen == if n == offset then floor else ds[n - 1].len
  }

  /** `*distances++ = len; *distances++ = delta - 1;` */
  method Report(ghost f: Frame, distances: array<Match>, ghost ds0: seq<Match>, ghost offset: nat, n: nat, m: Match, ghost floor: nat, ghost maxLen: nat)
    requires Listed(f, distances[..], ds0, offset, n, floor, maxLen) && n < distances.Length
    requires maxLen < m.len && TrueAt(f, m) && LongestAt(f, m)
    modifies distances
    ensures Listed(f, distances[..], ds0, offset, n + 1, floor, m.len)
    ensures distances[..][offset..n + 1] == old(distances[..][offset..n]) + [m]
  {
    ReportMore(f, distances[offset..n], floor, maxLen, m);
    ghost var before := distances[..];
    distances[n] := m;
    assert distances[..] == before[n := m];
    assert distances[..][offset..n + 1] == before[offset..n] + [m];
    assert distances[..][..offset] == before[..offset];
  }

  method ReportMatch(ghost f: Frame, distances: array<Match>, ghost ds0: seq<Match>, ghost offset: nat, n: nat,
                     ghost pb: nat, delta: nat, len: nat, ghost floor: nat, ghost maxLen: nat)
    requires Listed(f, distances[..], ds0, offset, n, floor, maxLen) && offset + (f.len - floor) <= distances.Length
    requires f.Valid() && 0 < delta <= f.cur && delta < f.cbs && pb == f.cur - delta
    requires len == Lcp(f.d, pb, f.cur, f.len) && maxLen < len <= f.len
    modifies distances
    ensures Listed(f, distances[..], ds0, offset, n + 1, floor, len)
    ensures n < distances.Length && distances[..][offset..n + 1] == old(distances[..][offset..n]) + [Match(len, delta - 1)]
  {
    hide Listed, Lcp, TrueAt, LongestAt;
    ExactMatch(f, pb, delta);
    ListedBound(f, distances[..], ds0, offset, n, floor, maxLen);
    Report(f, distances, ds0, offset, n, Match(len, delta - 1), floor, maxLen);
  }

  /** Where a candidate's pair of cells is, where its string begins, and how far it
    * agrees with the current one. */
  method Compare(ghost f: Frame, ghost son: seq<nat>, ghost forest0: Forest, ghost forest: Forest, ghost a: Bound, ghost b: Bound,
                 ghost v: nat, ghost h: nat, ghost ptr1: nat, ghost ptr0: nat, len1: nat, len0: nat,
                 data: array<Byte>, cur: nat, cyclicBufferPos: nat, cyclicBufferSize: nat, delta: nat, lenLimit: nat)
    returns (pair: nat, pb: nat, len: nat)
    requires Walking(f, son, forest0, forest, a, b, v, h, ptr1, ptr0, len1, len0) && f.Valid()
    requires f.d == data[..] && f.cbs == cyclicBufferSize && f.cur == cur && f.len == lenLimit
    requires v <= f.Pos() && delta == f.Pos() - v && delta < f.cbs && cyclicBufferPos == Slot(f.cbs, f.cur)
    ensures !f.Out(v) && 0 < delta <= cur && pb == v + f.base == cur - delta && f.InWindow(pb)
    ensures pair == Cell(f.cbs, pb, false) && pair + 1 == Cell(f.cbs, pb, true) < |son|
    ensures len == Lcp(f.d, pb, cur, f.len)
  {
    hide Walking, Lcp, Same, Cell, Slot;
    WalkingCells(f, son, forest0, forest, a, b, v, h, ptr1, ptr0, len1, len0);
    Visit(f, son, forest0, forest, a, b, v, h, ptr1, ptr0, len1, len0, delta);
    pair := 2 * (cyclicBufferPos - delta + (if delta > cyclicBufferPos then cyclicBufferSize else 0));
    pb := cur - delta;
    len := MatchLen(data, pb, cur, if len0 < len1 then len0 else len1, lenLimit);
  }

  /** Where a reporting walk began. */
  datatype Walked = Walked(son: seq<nat>, v: nat, cut: nat, ds: seq<Match>, offset: nat, floor: nat)

  /** A walk and its report so far: what is left of both is what is left of the tree. */
  ghost predicate Reports(f: Frame, w: Walked, ds: seq<Match>, n: nat, maxLen: nat, son: seq<nat>, v: nat, i1: nat, i0: nat, cut: nat) {
    && f.Valid() && |son| == |w.son| == 2 * f.cbs && i1 < |son| && i0 < |son|
    && Listed(f, ds, w.ds, w.offset, n, w.floor, maxLen)
    && var j1, j0 := 2 * Slot(f.cbs, f.cur), 2 * Slot(f.cbs, f.cur) + 1;
       && Walk(f, son, v, i1, i0, cut) == Walk(f, w.son, w.v, j1, j0, w.cut)
       && CutsOff(f, son, v, i1, i0, cut) == CutsOff(f, w.son, w.v, j1, j0, w.cut)
       && Records(f, Visits(f, w.son, w.v, j1, j0, w.cut), w.floor)
          == ds[w.offset..n] + Records(f, Visits(f, son, v, i1, i0, cut), maxLen)
  }

  lemma ReportsStart(f: Frame, w: Walked, i1: nat, i0: nat)
    requires f.Valid() && |w.son| == 2 * f.cbs && w.offset <= |w.ds|
    requires i1 == 2 * Slot(f.cbs, f.cur) && i0 == i1 + 1 && i0 < |w.son|
    ensures Reports(f, w, w.ds, w.offset, w.floor, w.son, w.v, i1, i0, w.cut)
  {
    hide Walk, CutsOff, Visits, Records, Slot;
    ListedNone(f, w.ds, w.offset, w.floor);
  }

  lemma ReportsListed(f: Frame, w: Walked, ds: seq<Match>, n: nat, maxLen: nat, son: seq<nat>, v: nat, i1: nat, i0: nat, cut: nat)
    requires Reports(f, w, ds, n, maxLen, son, v, i1, i0, cut)
    ensures Listed(f, ds, w.ds, w.offset, n, w.floor, maxLen) && w.offset <= n <= |ds| == |w.ds|
  {
    hide Walk, CutsOff, Visits, Records, Slot;
  }

  lemma ReportsNone(f: Frame, w: Walked, ds: seq<Match>, n: nat, maxLen: nat, son: seq<nat>, v: nat, i1: nat, i0: nat, cut: nat)
    requires Reports(f, w, ds, n, maxLen, son, v, i1, i0, cut) && Visits(f, son, v, i1, i0, cut) == []
    ensures w.offset <= n <= |ds| == |w.ds| && ds[..w.offset] == w.ds[..w.offset]
    ensures Reported(f, ds[w.offset..n], w.floor) && Best(ds[w.offset..n], w.floor) == maxLen
    ensures ds[w.offset..n] == Records(f, Visits(f, w.son, w.v, 2 * Slot(f.cbs, f.cur), 2 * Slot(f.cbs, f.cur) + 1, w.cut), w.floor)
    ensures Walk(f, w.son, w.v, 2 * Slot(f.cbs, f.cur), 2 * Slot(f.cbs, f.cur) + 1, w.cut) == Walk(f, son, v, i1, i0, cut)
    ensures CutsOff(f, w.son, w.v, 2 * Slot(f.cbs, f.cur), 2 * Slot(f.cbs, f.cur) + 1, w.cut) == CutsOff(f, son, v, i1, i0, cut)
  {
    hide Walk, CutsOff, Visits, Records, Slot, Listed;
    ListedDone(f, ds, w.ds, w.offset, n, w.floor, maxLen);
    RecordsNone(f, maxLen);
  }

  lemma ReportsLast(f: Frame, w: Walked, ds: seq<Match>, n: nat, maxLen: nat, son: seq<nat>, v: nat, i1: nat, i0: nat, cut: nat,
                    q: nat, ds': seq<Match>)
    requires Reports(f, w, ds, n, maxLen, son, v, i1, i0, cut) && Visits(f, son, v, i1, i0, cut) == [q] && q < f.cur
    requires Lcp(f.d, q, f.cur, f.len) == f.len > maxLen && Listed(f, ds', w.ds, w.offset, n + 1, w.floor, f.len)
    requires w.offset <= n <= |ds| && n < |ds'| && ds'[w.offset..n + 1] == ds[w.offset..n] + [Match(f.len, f.cur - q - 1)]
    ensures n + 1 <= |ds'| == |w.ds| && ds'[..w.offset] == w.ds[..w.offset]
    ensures Reported(f, ds'[w.offset..n + 1], w.floor) && Best(ds'[w.offset..n + 1], w.floor) == f.len
    ensures ds'[w.offset..n + 1]
         == Records(f, Visits(f, w.son, w.v, 2 * Slot(f.cbs, f.cur), 2 * Slot(f.cbs, f.cur) + 1, w.cut), w.floor)
    ensures Walk(f, w.son, w.v, 2 * Slot(f.cbs, f.cur), 2 * Slot(f.cbs, f.cur) + 1, w.cut) == Walk(f, son, v, i1, i0, cut)
    ensures CutsOff(f, w.son, w.v, 2 * Slot(f.cbs, f.cur), 2 * Slot(f.cbs, f.cur) + 1, w.cut) == CutsOff(f, son, v, i1, i0, cut)
  {
    hide Walk, CutsOff, Visits, Records, Slot, Listed, Lcp;
    RecordsLast(f, q, maxLen);
    RecordsMove(f, Records(f, Visits(f, w.son, w.v, 2 * Slot(f.cbs, f.cur), 2 * Slot(f.cbs, f.cur) + 1, w.cut), w.floor),
                ds[w.offset..n], q, maxLen, []);
    ListedDone(f, ds', w.ds, w.offset, n + 1, w.floor, f.len);
  }

  lemma ReportsOn(f: Frame, w: Walked, ds: seq<Match>, n: nat, maxLen: nat, son: seq<nat>, v: nat, i1: nat, i0: nat, cut: nat,
                  q: nat, ds': seq<Match>, n': nat, maxLen': nat, son': seq<nat>, v': nat, i1': nat, i0': nat)
    requires Reports(f, w, ds, n, maxLen, son, v, i1, i0, cut) && cut > 0 && q < f.cur
    requires |son'| == 2 * f.cbs && i1' < |son'| && i0' < |son'| && GoesOn(f, son, v, i1, i0, cut, q, son', v', i1', i0')
    requires w.offset <= n <= |ds| && if Lcp(f.d, q, f.cur, f.len) > maxLen then n' == n + 1 else n' == n && maxLen' == maxLen && ds' == ds
    requires n' > n ==> maxLen' == Lcp(f.d, q, f.cur, f.len) && Listed(f, ds', w.ds, w.offset, n', w.floor, maxLen')
    requires n' > n ==> n' <= |ds'| && ds'[w.offset..n'] == ds[w.offset..n] + [Match(maxLen', f.cur - q - 1)]
    ensures Reports(f, w, ds', n', maxLen', son', v', i1', i0', cut - 1)
  {
    hide Walk, CutsOff, Visits, Records, Slot, Listed, Lcp, GoesOn;
    ReportsListed(f, w, ds, n, maxLen, son, v, i1, i0, cut);
    GoneOn(f, son, v, i1, i0, cut, q, son', v', i1', i0', maxLen);
    RecordsMove(f, Records(f, Visits(f, w.son, w.v, 2 * Slot(f.cbs, f.cur), 2 * Slot(f.cbs, f.cur) + 1, w.cut), w.floor),
                ds[w.offset..n], q, maxLen, Records(f, Visits(f, son', v', i1', i0', cut - 1), Max(maxLen, Lcp(f.d, q, f.cur, f.len))));
    if n' > n {
      ListedSizes(f, ds', w.ds, w.offset, n', w.floor, maxLen');
    }
  }

  lemma ListedSizes(f: Frame, ds: seq<Match>, ds0: seq<Match>, offset: nat, n: nat, floor: nat, maxLen: nat)
    requires Listed(f, ds, ds0, offset, n, floor, maxLen)
    ensures |ds| == |ds0| && offset <= n <= |ds|
  {
  }

  /** `GetMatchesSpec1`: splits the bucket's tree around the current string,
    * reporting every longer match it meets. */
  method GetMatchesSpec1(ghost f: Frame, lenLimit: nat, curMatch0: nat, pos: nat, data: array<Byte>, cur: nat, son: array<nat>,
                         cyclicBufferPos: nat, cyclicBufferSize: nat, cutValue0: nat,
                         distances: array<Match>, offset: nat, maxLen0: nat, ghost forest: Forest, ghost h: nat)
    returns (n: nat, ghost forest': Forest)
    requires f == Frame(data[..], cyclicBufferSize, cur - pos, cur, lenLimit)
    requires Settled(f, son[..], forest) && RootOK(f, forest, curMatch0, h)
    requires cyclicBufferPos == Slot(cyclicBufferSize, cur)
    requires maxLen0 < lenLimit && offset + (lenLimit - maxLen0) <= distances.Length
    modifies son, distances
    ensures Inserted(f, old(son[..]), son[..], forest, forest', curMatch0, h, cutValue0)
    ensures offset <= n <= distances.Length && distances[..][..offset] == old(distances[..])[..offset]
    ensures Reported(f, distances[..][offset..n], maxLen0)
    ensures distances[..][offset..n] == Records(f, Visits(f, old(son[..]), curMatch0, 2 * cyclicBufferPos, 2 * cyclicBufferPos + 1, cutValue0), maxLen0)
    ensures Keeps(f, old(son[..]), son[..], forest, forest', curMatch0, h, cutValue0, Best(distances[..][offset..n], maxLen0))
  {
    hide *;
    forest' := StepStart(f, son[..], forest, curMatch0, h, maxLen0);
    var ptr0: nat, ptr1: nat := 2 * cyclicBufferPos + 1, 2 * cyclicBufferPos;
    WalkingCells(f, son[..], forest, forest', Open, Open, curMatch0, h, ptr1, ptr0, 0, 0);
    var len0: nat, len1: nat := 0, 0;
    var curMatch: nat, cutValue: nat, maxLen: nat := curMatch0, cutValue0, maxLen0;
    ghost var a, b, before, ds0 := Open, Open, son[..], distances[..];
    ghost var w := Walked(before, curMatch0, cutValue0, ds0, offset, maxLen0);
    ghost var kept, others := Nodes(f, before, forest, curMatch0), OtherNodes(f, before, forest, h);
    n := offset;
    ReportsStart(f, w, ptr1, ptr0);
    while true
      invariant data[..] == f.d && |son[..]| == 2 * f.cbs && f.Valid() && |distances[..]| == |ds0|
      invariant Walking(f, son[..], forest, forest', a, b, curMatch, h, ptr1, ptr0, len1, len0)
      invariant maxLen < lenLimit && Searching(f, son[..], forest', a, b, curMatch, h, kept, others, maxLen)
      invariant Reports(f, w, distances[..], n, maxLen, son[..], curMatch, ptr1, ptr0, cutValue)
      decreases cutValue
    {
      ghost var now, dsNow, n0 := son[..], distances[..], n;
      WalkingCells(f, now, forest, forest', a, b, curMatch, h, ptr1, ptr0, len1, len0);
      ReportsListed(f, w, dsNow, n, maxLen, now, curMatch, ptr1, ptr0, cutValue);
      var delta := pos - curMatch;
      if cutValue == 0 || delta >= cyclicBufferSize {
        StepEnd(f, now, forest, forest', a, b, curMatch, h, ptr1, ptr0, len1, len0, cutValue);
        Store(son, ptr0, 0);
        Store(son, ptr1, 0);
        ReportsNone(f, w, dsNow, n, maxLen, now, curMatch, ptr1, ptr0, cutValue);
        WalkDone(f, before, son[..], forest, forest', curMatch0, h, cutValue0);
        SearchEnds(f, before, now, forest, forest', a, b, curMatch0, curMatch, h, ptr1, ptr0, len1, len0, cutValue0, maxLen);
        return;
      }
      var pair, pb, len := Compare(f, now, forest, forest', a, b, curMatch, h, ptr1, ptr0, len1, len0,
                                   data, cur, cyclicBufferPos, cyclicBufferSize, delta, lenLimit);
      var pair0 := son[pair];
      ghost var best, forest0 := maxLen, forest';
      if maxLen < len {
        ReportMatch(f, distances, ds0, offset, n, pb, delta, len, maxLen0, maxLen);
        maxLen := len;
        n := n + 1;
        if len == lenLimit {
          forest' := StepEqual(f, now, forest, forest', a, b, curMatch, h, ptr1, ptr0, len1, len0, pb, cutValue);
          Store(son, ptr1, pair0);
          Store(son, ptr0, son[pair + 1]);
          ReportsLast(f, w, dsNow, n0, best, now, curMatch, ptr1, ptr0, cutValue, pb, distances[..]);
          WalkDone(f, before, son[..], forest, forest', curMatch0, h, cutValue0);
          SearchEqualEnds(f, before, now, forest, forest0, forest', a, b, curMatch0, curMatch, h, ptr1, ptr0, len1, len0, cutValue0, best, pb);
          return;
        }
      }
      ghost var v, i1, i0 := curMatch, ptr1, ptr0;
      ptr1, ptr0, curMatch, len1, len0, a, b, forest' :=
        Link(f, data, cur, son, forest, forest', a, b, curMatch, h, ptr1, ptr0, len1, len0, pb, pair, len, cutValue, kept, others, best, maxLen);
      ReportsOn(f, w, dsNow, n0, best, now, v, i1, i0, cutValue, pb, distances[..], n, maxLen, son[..], curMatch, ptr1, ptr0);
      cutValue := cutValue - 1;
    }
  }

  /** The common tail of both walks: hangs the candidate on its side and goes
    * down on the other. */
  method Link(ghost f: Frame, data: array<Byte>, cur: nat, son: array<nat>, ghost forest0: Forest, ghost forest: Forest,
              ghost a: Bound, ghost b: Bound, curMatch: nat, ghost h: nat,
              ptr1: nat, ptr0: nat, len1: nat, len0: nat, pb: nat, pair: nat, len: nat, ghost cut: nat,
              ghost kept: set<nat>, ghost others: set<(nat, nat)>, ghost best: nat, ghost best': nat)
    returns (ptr1': nat, ptr0': nat, curMatch': nat, len1': nat, len0': nat, ghost a': Bound, ghost b': Bound, ghost forest': Forest)
    requires data[..] == f.d && cur == f.cur && |son[..]| == 2 * f.cbs && f.cbs > 0
    requires Walking(f, son[..], forest0, forest, a, b, curMatch, h, ptr1, ptr0, len1, len0)
    requires cut > 0 && f.cur + f.len <= |f.d| && !f.Out(curMatch) && pb == curMatch + f.base && pb < cur && f.InWindow(pb)
    requires len == Lcp(f.d, pb, cur, f.len) < f.len
    requires pair == Cell(f.cbs, pb, false) && pair + 1 == Cell(f.cbs, pb, true)
    requires f.Valid() && ptr1 < 2 * f.cbs && ptr0 < 2 * f.cbs
    requires Searching(f, son[..], forest, a, b, curMatch, h, kept, others, best) && len <= best' && best <= best'
    modifies son
    ensures |son[..]| == 2 * f.cbs && ptr1 < 2 * f.cbs && ptr0 < 2 * f.cbs && ptr1' < 2 * f.cbs && ptr0' < 2 * f.cbs && f.Valid()
    ensures Walking(f, son[..], forest0, forest', a', b', curMatch', h, ptr1', ptr0', len1', len0')
    ensures GoesOn(f, old(son[..]), curMatch, ptr1, ptr0, cut, pb, son[..], curMatch', ptr1', ptr0')
    ensures Searching(f, son[..], forest', a', b', curMatch', h, kept, others, best')
  {
    hide Walking, WalkOK, ForestOK, Walk, Visits, CutsOff, GoesOn, Same, Lcp, OtherRootsKept, Cell, Slot, Searching, Hung;
    ghost var now := son[..];
    WalkingCells(f, son[..], forest0, forest, a, b, curMatch, h, ptr1, ptr0, len1, len0);
    IsCandidate(f, son[..], forest0, forest, a, b, curMatch, h, ptr1, ptr0, len1, len0, pb);
    ptr1', ptr0', curMatch', len1', len0', a', b' := ptr1, ptr0, curMatch, len1, len0, a, b;
    if data[pb + len] < data[cur + len] {
      forest' := StepSmaller(f, son[..], forest0, forest, a, b, curMatch, h, ptr1, ptr0, len1, len0, pb, len, cut);
      a' := At(pb);
      Store(son, ptr1, curMatch);
      ptr1' := pair + 1;
      curMatch' := son[ptr1'];
      len1' := len;
      SearchStep(f, now, forest, a, b, curMatch, h, kept, others, best, pb, len, true, son[..], forest', best');
    } else {
      LcpDiffers(f, pb);
      forest' := StepGreater(f, son[..], forest0, forest, a, b, curMatch, h, ptr1, ptr0, len1, len0, pb, len, cut);
      b' := At(pb);
      Store(son, ptr0, curMatch);
      ptr0' := pair;
      curMatch' := son[ptr0'];
      len0' := len;
      SearchStep(f, now, forest, a, b, curMatch, h, kept, others, best, pb, len, false, son[..], forest', best');
    }
  }

  lemma IsCandidate(f: Frame, son: seq<nat>, forest0: Forest, forest: Forest, a: Bound, b: Bound, v: nat, h: nat,
                    ptr1: nat, ptr0: nat, len1: nat, len0: nat, q: nat)
    requires Walking(f, son, forest0, forest, a, b, v, h, ptr1, ptr0, len1, len0)
    requires !f.Out(v) && q == v + f.base && q < f.cur && f.InWindow(q)
    ensures Candidate(f, son, forest, a, b, v, h, q)
  {
    hide WalkOK;
  }

  /** One more record, or none. */
  lemma RecordsMove(f: Frame, all: seq<Match>, done: seq<Match>, q: nat, floor: nat, rest: seq<Match>)
    requires f.Valid() && q < f.cur && all == done + (NextRecord(f, q, floor) + rest)
    ensures var k := Lcp(f.d, q, f.cur, f.len);
            && Max(floor, k) == (if k > floor then k else floor)
            && all == (if k > floor then done + [Match(k, f.cur - q - 1)] else done) + rest
  {
    hide Lcp;
  }

  lemma RecordsNone(f: Frame, floor: nat)
    requires f.Valid()
    ensures Records(f, [], floor) == []
  {
  }

  /** What is left of a walk after a candidate. */
  lemma GoneOn(f: Frame, son: seq<nat>, v: nat, i1: nat, i0: nat, cut: nat, q: nat, son': seq<nat>, v': nat, i1': nat, i0': nat, floor: nat)
    requires f.Valid() && |son| == |son'| == 2 * f.cbs && i1 < |son| && i0 < |son| && i1' < |son| && i0' < |son| && cut > 0 && q < f.cur
    requires GoesOn(f, son, v, i1, i0, cut, q, son', v', i1', i0')
    ensures Walk(f, son, v, i1, i0, cut) == Walk(f, son', v', i1', i0', cut - 1)
    ensures CutsOff(f, son, v, i1, i0, cut) == CutsOff(f, son', v', i1', i0', cut - 1)
    ensures Records(f, Visits(f, son, v, i1, i0, cut), floor)
         == NextRecord(f, q, floor) + Records(f, Visits(f, son', v', i1', i0', cut - 1), Max(floor, Lcp(f.d, q, f.cur, f.len)))
  {
    hide Walk, Visits, CutsOff, Records, Lcp;
    RecordsNext(f, q, Visits(f, son', v', i1', i0', cut - 1), floor);
  }

  lemma LcpDiffers(f: Frame, q: nat)
    requires f.Valid() && q < f.cur && Lcp(f.d, q, f.cur, f.len) < f.len
    ensures f.d[q + Lcp(f.d, q, f.cur, f.len)] != f.d[f.cur + Lcp(f.d, q, f.cur, f.len)]
  {
  }

  lemma ListedNone(f: Frame, ds: seq<Match>, offset: nat, floor: nat)
    requires offset <= |ds|
    ensures Listed(f, ds, ds, offset, offset, floor, floor)
  {
  }

  lemma ListedBound(f: Frame, ds: seq<Match>, ds0: seq<Match>, offset: nat, n: nat, floor: nat, maxLen: nat)
    requires Listed(f, ds, ds0, offset, n, floor, maxLen)
    ensures floor <= maxLen && n <= offset + (maxLen - floor)
  {
  }

  lemma ListedDone(f: Frame, ds: seq<Match>, ds0: seq<Match>, offset: nat, n: nat, floor: nat, maxLen: nat)
    requires Listed(f, ds, ds0, offset, n, floor, maxLen)
    ensures |ds| == |ds0| && offset <= n <= |ds| && ds[..offset] == ds0[..offset] && Reported(f, ds[offset..n], floor)
    ensures Best(ds[offset..n], floor) == maxLen
  {
  }

  /** `SkipMatchesSpec`: the same walk without reports. */
  method SkipMatchesSpec(ghost f: Frame, lenLimit: nat, curMatch0: nat, pos: nat, data: array<Byte>, cur: nat, son: array<nat>,
                         cyclicBufferPos: nat, cyclicBufferSize: nat, cutValue0: nat, ghost forest: Forest, ghost h: nat)
    returns (ghost forest': Forest)
    requires f == Frame(data[..], cyclicBufferSize, cur - pos, cur, lenLimit)
    requires Settled(f, son[..], forest) && RootOK(f, forest, curMatch0, h)
    requires cyclicBufferPos == Slot(cyclicBufferSize, cur) && lenLimit > 0
    modifies son
    ensures Inserted(f, old(son[..]), son[..], forest, forest', curMatch0, h, cutValue0)
    ensures Keeps(f, old(son[..]), son[..], forest, forest', curMatch0, h, cutValue0, lenLimit)
  {
    hide *;
    forest' := StepStart(f, son[..], forest, curMatch0, h, lenLimit);
    var ptr0: nat, ptr1: nat := 2 * cyclicBufferPos + 1, 2 * cyclicBufferPos;
    WalkingCells(f, son[..], forest, forest', Open, Open, curMatch0, h, ptr1, ptr0, 0, 0);
    var len0: nat, len1: nat := 0, 0;
    var curMatch: nat, cutValue: nat := curMatch0, cutValue0;
    ghost var a, b, before := Open, Open, son[..];
    ghost var result := Walk(f, before, curMatch0, ptr1, ptr0, cutValue0);
    ghost var cutsOff := CutsOff(f, before, curMatch0, ptr1, ptr0, cutValue0);
    ghost var kept, others := Nodes(f, before, forest, curMatch0), OtherNodes(f, before, forest, h);
    while true
      invariant data[..] == f.d && |son[..]| == 2 * f.cbs
      invariant Walking(f, son[..], forest, forest', a, b, curMatch, h, ptr1, ptr0, len1, len0)
      invariant ptr1 < 2 * f.cbs && ptr0 < 2 * f.cbs && Walk(f, son[..], curMatch, ptr1, ptr0, cutValue) == result
      invariant f.Valid() && Searching(f, son[..], forest', a, b, curMatch, h, kept, others, lenLimit)
      invariant cutsOff == CutsOff(f, son[..], curMatch, ptr1, ptr0, cutValue)
      decreases cutValue
    {
      ghost var now := son[..];
      WalkingCells(f, now, forest, forest', a, b, curMatch, h, ptr1, ptr0, len1, len0);
      var delta := pos - curMatch;
      if cutValue == 0 || delta >= cyclicBufferSize {
        StepEnd(f, now, forest, forest', a, b, curMatch, h, ptr1, ptr0, len1, len0, cutValue);
        Store(son, ptr0, 0);
        Store(son, ptr1, 0);
        WalkDone(f, before, son[..], forest, forest', curMatch0, h, cutValue0);
        SearchEnds(f, before, now, forest, forest', a, b, curMatch0, curMatch, h, ptr1, ptr0, len1, len0, cutValue0, lenLimit);
        return;
      }
      var pair, pb, len := Compare(f, now, forest, forest', a, b, curMatch, h, ptr1, ptr0, len1, len0,
                                   data, cur, cyclicBufferPos, cyclicBufferSize, delta, lenLimit);
      if len == lenLimit {
        ghost var forest0 := forest';
        forest' := StepEqual(f, now, forest, forest', a, b, curMatch, h, ptr1, ptr0, len1, len0, pb, cutValue);
        Store(son, ptr1, son[pair]);
        Store(son, ptr0, son[pair + 1]);
        WalkDone(f, before, son[..], forest, forest', curMatch0, h, cutValue0);
        SearchEqualEnds(f, before, now, forest, forest0, forest', a, b, curMatch0, curMatch, h, ptr1, ptr0, len1, len0, cutValue0, lenLimit, pb);
        return;
      }
      ghost var v, i1, i0 := curMatch, ptr1, ptr0;
      ptr1, ptr0, curMatch, len1, len0, a, b, forest' :=
        Link(f, data, cur, son, forest, forest', a, b, curMatch, h, ptr1, ptr0, len1, len0, pb, pair, len, cutValue, kept, others, lenLimit, lenLimit);
      GoneOn(f, now, v, i1, i0, cutValue, pb, son[..], curMatch, ptr1, ptr0, 0);
      cutValue := cutValue - 1;
    }
  }
}
