/** Nothing gets lost in the trees of the match finder: every node of a bucket's
  * tree stays in it when a position is inserted, unless the walk is cut off, and
  * no node that the walk passes by matches the current string better than those
  * it compares. */
module TreeSearch {
  import opened Words
  import opened Strings
  import opened MatchTree

  /** Going up from `r`, by cells of the window that really refer to the node below
    * and are not open, one comes to `root`. */
  ghost predicate Up(f: Frame, son: seq<nat>, forest: Forest, holes: set<Hole>, root: nat, r: nat)
    requires f.Valid() && |son| == 2 * f.cbs
    decreases root - r
  {
    && r in forest && f.InWindow(r) && r <= root
    && (r < root ==>
          && forest[r].place.Under?
          && var p, right := forest[r].place.parent, forest[r].place.right;
             r < p && f.InWindow(p) && Hole(p, right) !in holes && son[Cell(f.cbs, p, right)] + f.base == r
             && Up(f, son, forest, holes, root, p))
  }

  /** The node is in the subtree that a reference leads to. */
  ghost predicate Below(f: Frame, son: seq<nat>, forest: Forest, holes: set<Hole>, v: nat, r: nat)
    requires f.Valid() && |son| == 2 * f.cbs
  {
    !f.Out(v) && 0 <= v + f.base && Up(f, son, forest, holes, v + f.base, r)
  }

  lemma {:induction false} UpJoin(f: Frame, son: seq<nat>, forest: Forest, holes: set<Hole>, root: nat, mid: nat, r: nat)
    requires f.Valid() && |son| == 2 * f.cbs
    requires Up(f, son, forest, holes, root, mid) && Up(f, son, forest, holes, mid, r)
    ensures Up(f, son, forest, holes, root, r)
    decreases mid - r
  {
    if r < mid {
      UpJoin(f, son, forest, holes, root, mid, forest[r].place.parent);
    }
  }

  lemma UpOne(f: Frame, son: seq<nat>, forest: Forest, holes: set<Hole>, p: nat, right: bool, c: nat)
    requires f.Valid() && |son| == 2 * f.cbs
    requires p in forest && c in forest && c < p && f.InWindow(c) && f.InWindow(p)
    requires forest[c].place == Under(p, right) && Hole(p, right) !in holes && son[Cell(f.cbs, p, right)] + f.base == c
    ensures Up(f, son, forest, holes, p, c)
  {
    assert Up(f, son, forest, holes, p, p);
  }

  /** What lies under a node lies under one of its children. */
  lemma {:induction false} UpSplit(f: Frame, son: seq<nat>, forest: Forest, holes: set<Hole>, q: nat, r: nat) returns (right: bool)
    requires f.Valid() && |son| == 2 * f.cbs
    requires Up(f, son, forest, holes, q, r) && r != q
    ensures Hole(q, right) !in holes && Below(f, son, forest, holes, son[Cell(f.cbs, q, right)], r)
    ensures var c := son[Cell(f.cbs, q, right)] + f.base; c in forest && c < q && forest[c].place == Under(q, right)
    decreases q - r
  {
    var p := forest[r].place.parent;
    if p == q {
      right := forest[r].place.right;
    } else {
      right := UpSplit(f, son, forest, holes, q, p);
      UpJoin(f, son, forest, holes, son[Cell(f.cbs, q, right)] + f.base, p, r);
    }
  }

  /** A change of cells that are open, and of nodes that hang in open cells or
    * below one another, touches no way up. */
  lemma {:induction false} UpKept(f: Frame, son: seq<nat>, forest: Forest, holes: set<Hole>, son': seq<nat>, forest': Forest,
                                  holes': set<Hole>, touched: set<nat>, root: nat, r: nat)
    requires f.Valid() && |son| == |son'| == 2 * f.cbs
    requires Up(f, son, forest, holes, root, r) && root !in touched && root in forest'
    requires forall x :: x in touched && x in forest && forest[x].place.Under? ==>
               Hole(forest[x].place.parent, forest[x].place.right) in holes || forest[x].place.parent in touched
    requires forall x :: x in forest && x != root && x !in touched ==> x in forest' && forest'[x] == forest[x]
    requires forall x, right :: x in forest && f.InWindow(x) && x !in touched && Hole(x, right) !in holes ==>
               son'[Cell(f.cbs, x, right)] == son[Cell(f.cbs, x, right)] && Hole(x, right) !in holes'
    ensures r !in touched && Up(f, son', forest', holes', root, r)
    decreases root - r
  {
    if r < root {
      UpKept(f, son, forest, holes, son', forest', holes', touched, root, forest[r].place.parent);
    }
  }

  lemma BoundRefl(f: Frame, b: Bound)
    requires f.Valid() && (b.At? ==> b.p <= f.cur)
    ensures LoLe(f, b, b) && HiLe(f, b, b)
  {
    if b.At? {
      LeRefl(f.d, b.p, f.len);
    }
  }

  /** The nodes under a node keep to its interval. */
  lemma {:induction false} UpWithin(f: Frame, son: seq<nat>, forest: Forest, holes: set<Hole>, root: nat, r: nat)
    requires ForestOK(f, son, forest, holes) && Up(f, son, forest, holes, root, r)
    ensures root in forest && LoLe(f, forest[root].lo, forest[r].lo) && HiLe(f, forest[r].hi, forest[root].hi)
    decreases root - r
  {
    hide Le;
    if r < root {
      var p, right := forest[r].place.parent, forest[r].place.right;
      UpWithin(f, son, forest, holes, root, p);
      assert CellOK(f, forest, p, right, son[Cell(f.cbs, p, right)]);
      if right {
        LoLeTrans(f, forest[p].lo, At(p), forest[r].lo);
      } else {
        HiLeTrans(f, forest[r].hi, At(p), forest[p].hi);
      }
      LoLeTrans(f, forest[root].lo, forest[p].lo, forest[r].lo);
      HiLeTrans(f, forest[r].hi, forest[p].hi, forest[root].hi);
    } else {
      BoundRefl(f, forest[r].lo);
      BoundRefl(f, forest[r].hi);
    }
  }

  // ----------------------------------------------------- what is passed by

  /** A string before one that is before the current one, or behind one that is
    * behind, has no longer prefix in common with the current one. */
  lemma FartherShares(d: seq<Byte>, r: nat, q: nat, cur: nat, n: nat)
    requires r + n <= |d| && q + n <= |d| && cur + n <= |d|
    requires (Le(d, r, q, n) && Le(d, q, cur, n)) || (Le(d, cur, q, n) && Le(d, q, r, n))
    ensures Lcp(d, r, cur, n) <= Lcp(d, q, cur, n)
  {
    var m := Lcp(d, r, cur, n);
    SameSelf(d, cur, m);
    if Le(d, r, q, n) && Le(d, q, cur, n) {
      Sandwich(d, r, q, cur, cur, n, m);
    } else {
      Sandwich(d, cur, q, r, cur, n, m);
    }
    AtLeast(d, q, cur, n, m);
  }

  lemma {:induction false} SameSelf(d: seq<Byte>, a: nat, n: nat)
    requires a + n <= |d|
    ensures Same(d, a, a, n)
    decreases n
  {
    if n > 0 {
      SameSelf(d, a + 1, n - 1);
    }
  }

  lemma AtLeast(d: seq<Byte>, a: nat, b: nat, n: nat, m: nat)
    requires m <= n && a + n <= |d| && b + n <= |d| && Same(d, a, b, m)
    ensures m <= Lcp(d, a, b, n)
  {
    if Lcp(d, a, b, n) < m {
      SameAt(d, a, b, m, Lcp(d, a, b, n));
      assert false;
    }
  }

  /** On the side of a candidate that the walk leaves, nothing matches better than
    * the candidate does. */
  lemma LeftBehind(f: Frame, son: seq<nat>, forest: Forest, holes: set<Hole>, q: nat, right: bool, r: nat, k: nat)
    requires ForestOK(f, son, forest, holes) && q < f.cur && f.InWindow(q) && q in forest && Hole(q, right) !in holes
    requires Below(f, son, forest, holes, son[Cell(f.cbs, q, right)], r)
    requires k == Lcp(f.d, q, f.cur, f.len) < f.len
    requires if right then f.d[q + k] > f.d[f.cur + k] else f.d[q + k] < f.d[f.cur + k]
    ensures Lcp(f.d, r, f.cur, f.len) <= k
  {
    hide Le, Same, Lcp;
    var c := son[Cell(f.cbs, q, right)] + f.base;
    assert CellOK(f, forest, q, right, son[Cell(f.cbs, q, right)]);
    UpWithin(f, son, forest, holes, c, r);
    assert NodeOK(f, forest[r], r);
    LcpSplits(f, q);
    if right {
      GreaterBound(f, q, k);
      LoLeTrans(f, At(q), forest[c].lo, forest[r].lo);
      LoLeTrans(f, At(q), forest[r].lo, At(r));
    } else {
      SmallerBound(f, q, k);
      HiLeTrans(f, forest[r].hi, forest[c].hi, At(q));
      HiLeTrans(f, At(r), forest[r].hi, At(q));
    }
    FartherShares(f.d, r, q, f.cur, f.len);
  }

  lemma LcpSplits(f: Frame, q: nat)
    requires f.Valid() && q < f.cur
    ensures Same(f.d, q, f.cur, Lcp(f.d, q, f.cur, f.len))
  {
  }

  // ----------------------------------------------------------- the search

  /** The walk on its way: the owners of the two open cells are in the new tree; of
    * the nodes to be kept each is in the new tree or under the candidate, and those
    * not under the candidate match no better than the best so far; other buckets
    * are as they were. */
  ghost predicate Searching(f: Frame, son: seq<nat>, forest: Forest, a: Bound, b: Bound, v: nat, h: nat,
                            kept: set<nat>, others: set<(nat, nat)>, best: nat)
    requires f.Valid() && |son| == 2 * f.cbs
  {
    var holes := {SmallHole(f.cur, a), GreatHole(f.cur, b)};
    && Up(f, son, forest, holes, f.cur, SmallHole(f.cur, a).r) && Up(f, son, forest, holes, f.cur, GreatHole(f.cur, b).r)
    && (forall r :: r in kept ==> r < f.cur && (Up(f, son, forest, holes, f.cur, r) || Below(f, son, forest, holes, v, r)))
    && (forall r :: r in kept ==> Below(f, son, forest, holes, v, r) || Lcp(f.d, r, f.cur, f.len) <= best)
    && (forall x :: x in others ==> IsOther(forest, h, x) && Up(f, son, forest, holes, x.0, x.1))
  }

  /** The root of a tree of another bucket, and a node. */
  ghost predicate IsOther(forest: Forest, h: nat, x: (nat, nat)) {
    x.0 in forest && forest[x.0].place.Root? && forest[x.0].place != Root(h)
  }

  /** The nodes of a bucket's tree between two insertions. */
  ghost function Nodes(f: Frame, son: seq<nat>, forest: Forest, v: nat): set<nat>
    requires f.Valid() && |son| == 2 * f.cbs
  {
    set r | r in forest && Below(f, son, forest, {}, v, r)
  }

  /** The nodes of all other buckets' trees, each with its root. */
  ghost function OtherNodes(f: Frame, son: seq<nat>, forest: Forest, h: nat): (others: set<(nat, nat)>)
    requires f.Valid() && |son| == 2 * f.cbs
    ensures AllOthers(f, son, forest, h, others)
  {
    set x, r | x in forest && r in forest && IsOther(forest, h, (x, r)) && Up(f, son, forest, {}, x, r) :: (x, r)
  }

  ghost predicate AllOthers(f: Frame, son: seq<nat>, forest: Forest, h: nat, others: set<(nat, nat)>)
    requires f.Valid() && |son| == 2 * f.cbs
  {
    forall x :: x in others ==> IsOther(forest, h, x) && Up(f, son, forest, {}, x.0, x.1)
  }

  lemma SearchStart(f: Frame, son: seq<nat>, forest: Forest, v: nat, h: nat, forest': Forest, others: set<(nat, nat)>, floor: nat)
    requires Settled(f, son, forest) && RootOK(f, forest, v, h) && AllOthers(f, son, forest, h, others)
    requires forest' == forest[f.cur := Info(Root(h), Open, Open)]
    ensures Searching(f, son, forest', Open, Open, v, h, Nodes(f, son, forest, v), others, floor)
  {
    hide Le, Same, Lcp, CellOK, NodeOK;
    var holes := {Hole(f.cur, false), Hole(f.cur, true)};
    forall r | r in Nodes(f, son, forest, v) ensures r < f.cur && Below(f, son, forest', holes, v, r) {
      UpKept(f, son, forest, {}, son, forest', holes, {}, v + f.base, r);
    }
    forall x | x in others ensures IsOther(forest', h, x) && Up(f, son, forest', holes, x.0, x.1) {
      UpKept(f, son, forest, {}, son, forest', holes, {}, x.0, x.1);
    }
  }

  /** What a step of the walk does to the cells and the nodes: the candidate `q`
    * hangs in the cell `to`, and the walk goes on in the cell `next` below it. */
  ghost predicate Hung(f: Frame, son: seq<nat>, forest: Forest, son': seq<nat>, forest': Forest, v: nat, q: nat, to: Hole)
    requires f.Valid() && |son| == 2 * f.cbs
  {
    son' == son[Cell(f.cbs, to.r, to.right) := v] && v + f.base == q && q in forest && Rehung(forest, forest', q, to)
  }

  /** Where a step leaves the ways up that do not go through the candidate. */
  lemma UpPast(f: Frame, son: seq<nat>, forest: Forest, son': seq<nat>, forest': Forest, v: nat, q: nat, to: Hole, kept: Hole, right: bool,
               root: nat, r: nat)
    requires f.Valid() && |son| == 2 * f.cbs && Hung(f, son, forest, son', forest', v, q, to)
    requires f.InWindow(to.r) && f.InWindow(kept.r) && q < to.r && q < kept.r
    requires forest[q].place.Under? ==> Hole(forest[q].place.parent, forest[q].place.right) in {to, kept}
    requires Up(f, son, forest, {to, kept}, root, r) && root != q && root in forest'
    ensures r != q && Up(f, son', forest', {Hole(q, right), kept}, root, r)
  {
    forall x, side | x in forest && f.InWindow(x) && x != q && Hole(x, side) !in {to, kept}
      ensures son'[Cell(f.cbs, x, side)] == son[Cell(f.cbs, x, side)] && Hole(x, side) !in {Hole(q, right), kept}
    {
      CellsDiffer(f, x, side, to.r, to.right);
    }
    UpKept(f, son, forest, {to, kept}, son', forest', {Hole(q, right), kept}, {q}, root, r);
  }

  /** Where it leaves what was under the candidate: on the side that the walk
    * leaves in the new tree, on the other under the next candidate. */
  lemma UpUnder(f: Frame, son: seq<nat>, forest: Forest, son': seq<nat>, forest': Forest, v: nat, q: nat, to: Hole, kept: Hole, right: bool,
                r: nat) returns (side: bool)
    requires f.Valid() && |son| == 2 * f.cbs && Hung(f, son, forest, son', forest', v, q, to)
    requires f.InWindow(q) && f.InWindow(to.r) && f.InWindow(kept.r) && q < to.r && q < kept.r && to.r <= f.cur
    requires to != kept && to.r in forest && to.r != q
    requires forest[q].place.Under? ==> Hole(forest[q].place.parent, forest[q].place.right) in {to, kept}
    requires Up(f, son, forest, {to, kept}, f.cur, to.r) && f.cur in forest'
    requires Up(f, son, forest, {to, kept}, q, r) && r != q
    ensures Below(f, son, forest, {to, kept}, son[Cell(f.cbs, q, side)], r)
    ensures side == right ==> Below(f, son', forest', {Hole(q, right), kept}, son'[Cell(f.cbs, q, right)], r)
    ensures side != right ==> Up(f, son', forest', {Hole(q, right), kept}, f.cur, r)
  {
    side := UpSplit(f, son, forest, {to, kept}, q, r);
    var c := son[Cell(f.cbs, q, side)] + f.base;
    CellsDiffer(f, q, side, to.r, to.right);
    UpPast(f, son, forest, son', forest', v, q, to, kept, right, c, r);
    if side != right {
      NewTree(f, son, forest, son', forest', v, q, to, kept, right);
      UpJoin(f, son', forest', {Hole(q, right), kept}, f.cur, q, c);
      UpJoin(f, son', forest', {Hole(q, right), kept}, f.cur, c, r);
    }
  }

  /** The candidate itself is in the new tree. */
  lemma NewTree(f: Frame, son: seq<nat>, forest: Forest, son': seq<nat>, forest': Forest, v: nat, q: nat, to: Hole, kept: Hole, right: bool)
    requires f.Valid() && |son| == 2 * f.cbs && Hung(f, son, forest, son', forest', v, q, to)
    requires f.InWindow(q) && f.InWindow(to.r) && f.InWindow(kept.r) && q < to.r && q < kept.r
    requires to != kept && forest[q].place.Under? ==> Hole(forest[q].place.parent, forest[q].place.right) in {to, kept}
    requires to != kept && Up(f, son, forest, {to, kept}, f.cur, to.r) && f.cur in forest'
    ensures Up(f, son', forest', {Hole(q, right), kept}, f.cur, q)
  {
    UpPast(f, son, forest, son', forest', v, q, to, kept, right, f.cur, to.r);
  }

  /** The candidate is one that the walk compares next. */
  ghost predicate Candidate(f: Frame, son: seq<nat>, forest: Forest, a: Bound, b: Bound, v: nat, h: nat, q: nat) {
    WalkOK(f, son, forest, a, b, v, h) && !f.Out(v) && q == v + f.base && q < f.cur && f.InWindow(q)
  }

  /** A node under the candidate is then in the new tree and passed by, or under the
    * next candidate. */
  lemma StepUnder(f: Frame, son: seq<nat>, forest: Forest, a: Bound, b: Bound, v: nat, h: nat, q: nat, k: nat, right: bool,
                  son': seq<nat>, forest': Forest, r: nat)
    requires Candidate(f, son, forest, a, b, v, h, q)
    requires k == Lcp(f.d, q, f.cur, f.len) < f.len
    requires if right then f.d[q + k] < f.d[f.cur + k] else f.d[q + k] > f.d[f.cur + k]
    requires var s, g := SmallHole(f.cur, a), GreatHole(f.cur, b);
             && Hung(f, son, forest, son', forest', v, q, if right then s else g)
             && Up(f, son, forest, {s, g}, f.cur, s.r) && Up(f, son, forest, {s, g}, f.cur, g.r)
             && Up(f, son, forest, {s, g}, q, r)
    ensures |son'| == 2 * f.cbs
    ensures var holes' := {Hole(q, right), if right then GreatHole(f.cur, b) else SmallHole(f.cur, a)};
            || Below(f, son', forest', holes', son'[Cell(f.cbs, q, right)], r)
            || (Up(f, son', forest', holes', f.cur, r) && Lcp(f.d, r, f.cur, f.len) <= k)
  {
    hide Le, Same, Lcp, CellOK, NodeOK, LoLe, HiLe, Cell, Slot;
    var s, g := SmallHole(f.cur, a), GreatHole(f.cur, b);
    var to, rest := if right then s else g, if right then g else s;
    assert {to, rest} == {s, g};
    if r == q {
      NewTree(f, son, forest, son', forest', v, q, to, rest, right);
    } else {
      var side := UpUnder(f, son, forest, son', forest', v, q, to, rest, right, r);
      if side != right {
        LeftBehind(f, son, forest, {s, g}, q, side, r, k);
      }
    }
  }

  /** A step keeps everything, and passes by nothing better: `to` is the cell the
    * candidate is hung in, `rest` the one that stays open. */
  lemma SearchStep(f: Frame, son: seq<nat>, forest: Forest, a: Bound, b: Bound, v: nat, h: nat, kept: set<nat>, others: set<(nat, nat)>,
                   best: nat, q: nat, k: nat, right: bool, son': seq<nat>, forest': Forest, best': nat)
    requires Candidate(f, son, forest, a, b, v, h, q) && Searching(f, son, forest, a, b, v, h, kept, others, best)
    requires k == Lcp(f.d, q, f.cur, f.len) < f.len && k <= best' && best <= best'
    requires if right then f.d[q + k] < f.d[f.cur + k] else f.d[q + k] > f.d[f.cur + k]
    requires Hung(f, son, forest, son', forest', v, q, if right then SmallHole(f.cur, a) else GreatHole(f.cur, b))
    ensures |son'| == 2 * f.cbs
    ensures var v' := son'[Cell(f.cbs, q, right)];
            if right then Searching(f, son', forest', At(q), b, v', h, kept, others, best')
            else Searching(f, son', forest', a, At(q), v', h, kept, others, best')
  {
    hide Le, Same, Lcp, CellOK, NodeOK, LoLe, HiLe, Cell, Slot;
    var s, g := SmallHole(f.cur, a), GreatHole(f.cur, b);
    var to, rest := if right then s else g, if right then g else s;
    var holes, holes' := {to, rest}, {Hole(q, right), rest};
    assert holes == {s, g};
    var v' := son'[Cell(f.cbs, q, right)];
    NewTree(f, son, forest, son', forest', v, q, to, rest, right);
    UpPast(f, son, forest, son', forest', v, q, to, rest, right, f.cur, rest.r);
    forall r | r in kept
      ensures Up(f, son', forest', holes', f.cur, r) || Below(f, son', forest', holes', v', r)
      ensures Below(f, son', forest', holes', v', r) || Lcp(f.d, r, f.cur, f.len) <= best'
    {
      if Below(f, son, forest, holes, v, r) {
        StepUnder(f, son, forest, a, b, v, h, q, k, right, son', forest', r);
      } else {
        UpPast(f, son, forest, son', forest', v, q, to, rest, right, f.cur, r);
      }
    }
    forall x | x in others ensures IsOther(forest', h, x) && Up(f, son', forest', holes', x.0, x.1) {
      UpPast(f, son, forest, son', forest', v, q, to, rest, right, x.0, x.1);
    }
    assert holes' == if right then {SmallHole(f.cur, At(q)), g} else {s, GreatHole(f.cur, At(q))};
  }

  /** What the insertion leaves: everything to be kept is in the new tree, and
    * nothing matches better than the best. */
  ghost predicate Searched(f: Frame, son: seq<nat>, forest: Forest, h: nat, kept: set<nat>, others: set<(nat, nat)>, best: nat)
    requires f.Valid() && |son| == 2 * f.cbs
  {
    && Up(f, son, forest, {}, f.cur, f.cur)
    && (forall r :: r in kept ==> r < f.cur && Lcp(f.d, r, f.cur, f.len) <= best)
    && (forall r :: r in kept ==> Represented(f, son, forest, r))
    && AllOthers(f, son, forest, h, others)
  }

  /** The node, or one that equals it as far as strings are compared, is in the new
    * tree. */
  ghost predicate Represented(f: Frame, son: seq<nat>, forest: Forest, r: nat)
    requires f.Valid() && |son| == 2 * f.cbs && r < f.cur
  {
    Up(f, son, forest, {}, f.cur, r) || Same(f.d, r, f.cur, f.len)
  }

  /** The walk ends where the window does. */
  lemma SearchEnd(f: Frame, son: seq<nat>, forest: Forest, a: Bound, b: Bound, v: nat, h: nat, kept: set<nat>, others: set<(nat, nat)>, best: nat)
    requires WalkOK(f, son, forest, a, b, v, h) && Searching(f, son, forest, a, b, v, h, kept, others, best)
    ensures var s, g := SmallHole(f.cur, a), GreatHole(f.cur, b);
            var son' := son[Cell(f.cbs, g.r, g.right) := 0][Cell(f.cbs, s.r, s.right) := 0];
            && |son'| == 2 * f.cbs
            && (f.Out(v) ==> Searched(f, son', forest, h, kept, others, best))
            && AllOthers(f, son', forest, h, others)
  {
    hide Le, Same, Lcp, CellOK, NodeOK, LoLe, HiLe;
    var s, g := SmallHole(f.cur, a), GreatHole(f.cur, b);
    var holes := {s, g};
    var son' := son[Cell(f.cbs, g.r, g.right) := 0][Cell(f.cbs, s.r, s.right) := 0];
    forall x, side | x in forest && f.InWindow(x) && Hole(x, side) !in holes
      ensures son'[Cell(f.cbs, x, side)] == son[Cell(f.cbs, x, side)]
    {
      CellsDiffer(f, x, side, s.r, s.right);
      CellsDiffer(f, x, side, g.r, g.right);
    }
    UpKept(f, son, forest, holes, son', forest, {}, {}, f.cur, s.r);
    forall r | r in kept && Up(f, son, forest, holes, f.cur, r) ensures Up(f, son', forest, {}, f.cur, r) {
      UpKept(f, son, forest, holes, son', forest, {}, {}, f.cur, r);
    }
    forall x | x in others ensures Up(f, son', forest, {}, x.0, x.1) {
      UpKept(f, son, forest, holes, son', forest, {}, {}, x.0, x.1);
    }
  }

  /** The children of a node, as far as it has any in the window. */
  ghost function ChildrenOf(f: Frame, v0: nat, v1: nat): set<nat> {
    (if f.Out(v0) || v0 + f.base < 0 then {} else {v0 + f.base}) + (if f.Out(v1) || v1 + f.base < 0 then {} else {v1 + f.base})
  }

  /** The cells when the new node has taken over the children of an equal one. */
  ghost function Taken(f: Frame, son: seq<nat>, a: Bound, b: Bound, q: nat): (r: seq<nat>)
    requires f.Valid() && |son| == 2 * f.cbs
    ensures |r| == |son|
  {
    var s, g := SmallHole(f.cur, a), GreatHole(f.cur, b);
    son[Cell(f.cbs, s.r, s.right) := son[Cell(f.cbs, q, false)]][Cell(f.cbs, g.r, g.right) := son[Cell(f.cbs, q, true)]]
  }

  /** The walk ends at an equal node, whose place the new one takes. */
  lemma SearchEqual(f: Frame, son: seq<nat>, forest: Forest, a: Bound, b: Bound, v: nat, h: nat, kept: set<nat>, others: set<(nat, nat)>,
                    best: nat, q: nat, forest': Forest)
    requires Candidate(f, son, forest, a, b, v, h, q) && Searching(f, son, forest, a, b, v, h, kept, others, best)
    requires Same(f.d, q, f.cur, f.len) && best <= f.len
    requires Replaced(f, forest, forest', q, son[Cell(f.cbs, q, false)], son[Cell(f.cbs, q, true)], SmallHole(f.cur, a), GreatHole(f.cur, b))
    requires OtherRootsKept(forest, forest', h) && f.cur in forest'
    ensures Searched(f, Taken(f, son, a, b, q), forest', h, kept, others, f.len)
  {
    hide Le, Same, Lcp, NodeOK, LoLe, HiLe, Nested, Taken, Cell, Slot;
    var s, g := SmallHole(f.cur, a), GreatHole(f.cur, b);
    var v0, v1 := son[Cell(f.cbs, q, false)], son[Cell(f.cbs, q, true)];
    var son' := Taken(f, son, a, b, q);
    EqualCells(f, son, forest, a, b, v, h, q);
    forall r | r in kept ensures Lcp(f.d, r, f.cur, f.len) <= f.len && Represented(f, son', forest', r) {
      LcpBounded(f, r);
      if Up(f, son, forest, {s, g}, f.cur, r) {
        UpPastEqual(f, son, forest, a, b, v, h, q, forest', f.cur, r);
      } else if r != q {
        var side := UpSplit(f, son, forest, {s, g}, q, r);
        UpUnderEqual(f, son, forest, a, b, v, h, q, forest', side, r);
      }
    }
    forall x | x in others ensures IsOther(forest', h, x) && Up(f, son', forest', {}, x.0, x.1) {
      UpPastEqual(f, son, forest, a, b, v, h, q, forest', x.0, x.1);
    }
  }

  lemma LcpBounded(f: Frame, r: nat)
    requires f.Valid() && r <= f.cur
    ensures Lcp(f.d, r, f.cur, f.len) <= f.len
  {
  }

  /** Which cells an equal node's removal changes, and whose the children are. */
  lemma EqualCells(f: Frame, son: seq<nat>, forest: Forest, a: Bound, b: Bound, v: nat, h: nat, q: nat)
    requires Candidate(f, son, forest, a, b, v, h, q)
    ensures var s, g := SmallHole(f.cur, a), GreatHole(f.cur, b);
            var v0, v1 := son[Cell(f.cbs, q, false)], son[Cell(f.cbs, q, true)];
            var son' := Taken(f, son, a, b, q);
            && q < s.r && q < g.r && s != g && f.InWindow(s.r) && f.InWindow(g.r)
            && |son'| == |son| && son'[Cell(f.cbs, s.r, s.right)] == v0 && son'[Cell(f.cbs, g.r, g.right)] == v1
            && (forall x, side :: x in forest && f.InWindow(x) && Hole(x, side) !in {s, g} ==>
                  son'[Cell(f.cbs, x, side)] == son[Cell(f.cbs, x, side)])
            && (!f.Out(v0) ==> 0 <= v0 + f.base < q && v0 + f.base in forest && forest[v0 + f.base].place == Under(q, false))
            && (!f.Out(v1) ==> 0 <= v1 + f.base < q && v1 + f.base in forest && forest[v1 + f.base].place == Under(q, true))
  {
    hide Le, Same, LoLe, HiLe, Nested, NodeOK;
    var s, g := SmallHole(f.cur, a), GreatHole(f.cur, b);
    var v0, v1 := son[Cell(f.cbs, q, false)], son[Cell(f.cbs, q, true)];
    assert CellOK(f, forest, q, false, v0) && CellOK(f, forest, q, true, v1);
    CellsDiffer(f, s.r, s.right, g.r, g.right);
    var son' := Taken(f, son, a, b, q);
    forall x, side | x in forest && f.InWindow(x) && Hole(x, side) !in {s, g}
      ensures son'[Cell(f.cbs, x, side)] == son[Cell(f.cbs, x, side)]
    {
      CellsDiffer(f, x, side, s.r, s.right);
      CellsDiffer(f, x, side, g.r, g.right);
    }
  }

  lemma FrameHolds(f: Frame, son: seq<nat>, forest: Forest, a: Bound, b: Bound, v: nat, h: nat, q: nat)
    requires Candidate(f, son, forest, a, b, v, h, q)
    ensures f.Valid() && |son| == 2 * f.cbs
  {
  }

  lemma UpPastEqual(f: Frame, son: seq<nat>, forest: Forest, a: Bound, b: Bound, v: nat, h: nat, q: nat, forest': Forest, root: nat, r: nat)
    requires Candidate(f, son, forest, a, b, v, h, q)
    requires Replaced(f, forest, forest', q, son[Cell(f.cbs, q, false)], son[Cell(f.cbs, q, true)], SmallHole(f.cur, a), GreatHole(f.cur, b))
    requires root in forest' && root in forest && (root == f.cur || (forest[root].place.Root? && forest[root].place != Root(h)))
    requires Up(f, son, forest, {SmallHole(f.cur, a), GreatHole(f.cur, b)}, root, r)
    ensures Up(f, Taken(f, son, a, b, q), forest', {}, root, r)
  {
    hide Le, Same, LoLe, HiLe, Nested, NodeOK, Taken, Cell, Slot, ForestOK;
    FrameHolds(f, son, forest, a, b, v, h, q);
    var s, g := SmallHole(f.cur, a), GreatHole(f.cur, b);
    var v0, v1 := son[Cell(f.cbs, q, false)], son[Cell(f.cbs, q, true)];
    var son' := Taken(f, son, a, b, q);
    EqualCells(f, son, forest, a, b, v, h, q);
    UpKept(f, son, forest, {s, g}, son', forest', {}, {q} + ChildrenOf(f, v0, v1), root, r);
  }

  /** What was under the equal node is under the new one. */
  lemma UpUnderEqual(f: Frame, son: seq<nat>, forest: Forest, a: Bound, b: Bound, v: nat, h: nat, q: nat, forest': Forest, side: bool, r: nat)
    requires Candidate(f, son, forest, a, b, v, h, q)
    requires Replaced(f, forest, forest', q, son[Cell(f.cbs, q, false)], son[Cell(f.cbs, q, true)], SmallHole(f.cur, a), GreatHole(f.cur, b))
    requires f.cur in forest'
    requires var holes := {SmallHole(f.cur, a), GreatHole(f.cur, b)};
             && Up(f, son, forest, holes, f.cur, SmallHole(f.cur, a).r) && Up(f, son, forest, holes, f.cur, GreatHole(f.cur, b).r)
             && Below(f, son, forest, holes, son[Cell(f.cbs, q, side)], r)
    ensures Up(f, Taken(f, son, a, b, q), forest', {}, f.cur, r)
  {
    hide Le, Same, LoLe, HiLe, Nested, NodeOK, Taken, Cell, Slot, ForestOK;
    FrameHolds(f, son, forest, a, b, v, h, q);
    var s, g := SmallHole(f.cur, a), GreatHole(f.cur, b);
    var v0, v1 := son[Cell(f.cbs, q, false)], son[Cell(f.cbs, q, true)];
    var son' := Taken(f, son, a, b, q);
    var c := son[Cell(f.cbs, q, side)] + f.base;
    EqualCells(f, son, forest, a, b, v, h, q);
    UpKept(f, son, forest, {s, g}, son', forest', {}, {q} + ChildrenOf(f, v0, v1) - {c}, c, r);
    var to := if side then g else s;
    UpPastEqual(f, son, forest, a, b, v, h, q, forest', f.cur, to.r);
    UpOne(f, son', forest', {}, to.r, to.right, c);
    UpJoin(f, son', forest', {}, f.cur, to.r, c);
    UpJoin(f, son', forest', {}, f.cur, c, r);
  }
}
