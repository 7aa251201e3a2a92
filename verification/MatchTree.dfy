/** The binary search trees of the match finder (LzFind.c): every position that
  * was inserted is a node, its two child references sit in the cyclic `son`
  * array, and children are older than their parents. A ghost forest records for
  * every node the one cell that refers to it and the interval of strings its
  * subtree stays within. */
module MatchTree {
  import opened Arith
  import opened Words
  import opened Strings

  /** Where the reference to a node is stored. */
  datatype Place = Root(hash: nat) | Under(parent: nat, right: bool)

  datatype Bound = Open | At(p: nat)

  datatype Info = Info(place: Place, lo: Bound, hi: Bound)

  type Forest = map<nat, Info>

  /** What stays fixed while one position is inserted: the data, the size of the
    * cyclic window, the shift from stored references to positions in the data,
    * the current position, and how many bytes are compared. */
  datatype Frame = Frame(d: seq<Byte>, cbs: nat, base: int, cur: nat, len: nat)
  {
    /** The stored form of the current position, `p->pos`. */
    ghost function Pos(): int { cur - base }

    ghost predicate Valid() {
      cbs >= 1 && cur + len <= |d| && Pos() >= cbs
    }

    /** The finder gives up at references this far back; empty cells are. */
    ghost predicate Out(v: nat) { v <= Pos() && Pos() - v >= cbs }

    ghost predicate InWindow(r: nat) { r <= cur && cur - r < cbs }
  }

  /** The slot of a position in the cyclic window. */
  function Slot(cbs: nat, r: nat): (s: nat)
    requires cbs >= 1
    ensures s < cbs
  {
    r % cbs
  }

  /** The index of a child cell: two cells for each slot of the cyclic window. */
  function Cell(cbs: nat, r: nat, right: bool): (i: nat)
    requires cbs >= 1
    ensures i < 2 * cbs
  {
    2 * Slot(cbs, r) + if right then 1 else 0
  }

  /** Positions of one window have different slots. */
  lemma SlotsDiffer(cbs: nat, a: nat, b: nat)
    requires cbs >= 1 && a < b < a + cbs
    ensures Slot(cbs, a) != Slot(cbs, b)
  {
    if a % cbs == b % cbs {
      DivModEquation(a, cbs);
      DivModEquation(b, cbs);
      MulDistributes(b / cbs, -(a / cbs), cbs);
      assert cbs * (b / cbs - a / cbs) == b - a;
      MulSmall(cbs, b / cbs - a / cbs);
    }
  }

  lemma CellsDiffer(f: Frame, a: nat, ra: bool, b: nat, rb: bool)
    requires f.Valid() && f.InWindow(a) && f.InWindow(b) && (a, ra) != (b, rb)
    ensures Cell(f.cbs, a, ra) != Cell(f.cbs, b, rb)
  {
    if a < b {
      SlotsDiffer(f.cbs, a, b);
    } else if b < a {
      SlotsDiffer(f.cbs, b, a);
    }
  }

  /** The pointer arithmetic on the cyclic position finds the slot of the
    * position `delta` back. */
  lemma CyclicSlot(cbs: nat, cur: nat, delta: nat)
    requires cbs >= 1 && delta < cbs && delta <= cur
    ensures Slot(cbs, cur) - delta + (if delta > Slot(cbs, cur) then cbs else 0) == Slot(cbs, cur - delta)
  {
    DivModEquation(cur, cbs);
    var s := cur % cbs;
    if delta > s {
      DivModUnique(cur - delta, cbs, cur / cbs - 1, s - delta + cbs) by {
        MulDistributes(cur / cbs, -1, cbs);
      }
    } else {
      DivModUnique(cur - delta, cbs, cur / cbs, s - delta);
    }
  }

  // -------------------------------------------------------------- intervals

  ghost predicate LoLe(f: Frame, outer: Bound, inner: Bound)
    requires f.Valid()
  {
    outer.At? ==> inner.At? && outer.p <= f.cur && inner.p <= f.cur && Le(f.d, outer.p, inner.p, f.len)
  }

  ghost predicate HiLe(f: Frame, inner: Bound, outer: Bound)
    requires f.Valid()
  {
    outer.At? ==> inner.At? && outer.p <= f.cur && inner.p <= f.cur && Le(f.d, inner.p, outer.p, f.len)
  }

  lemma LoLeTrans(f: Frame, a: Bound, b: Bound, c: Bound)
    requires f.Valid() && LoLe(f, a, b) && LoLe(f, b, c)
    ensures LoLe(f, a, c)
  {
    if a.At? {
      LeTrans(f.d, a.p, b.p, c.p, f.len);
    }
  }

  lemma HiLeTrans(f: Frame, a: Bound, b: Bound, c: Bound)
    requires f.Valid() && HiLe(f, a, b) && HiLe(f, b, c)
    ensures HiLe(f, a, c)
  {
    if c.At? {
      LeTrans(f.d, a.p, b.p, c.p, f.len);
    }
  }

  // ----------------------------------------------------------- the invariant

  /** A node lies inside its own interval. */
  ghost predicate NodeOK(f: Frame, info: Info, r: nat)
    requires f.Valid()
  {
    r <= f.cur && LoLe(f, info.lo, At(r)) && HiLe(f, At(r), info.hi)
  }

  /** A child keeps to its parent's side and inside its parent's interval. */
  ghost predicate Nested(f: Frame, parent: Info, r: nat, right: bool, child: Info)
    requires f.Valid()
  {
    if right then LoLe(f, At(r), child.lo) && HiLe(f, child.hi, parent.hi)
    else LoLe(f, parent.lo, child.lo) && HiLe(f, child.hi, At(r))
  }

  /** A child cell is empty (or as good as), or refers to an older node that
    * knows this cell as its only place. */
  ghost predicate CellOK(f: Frame, forest: Forest, r: nat, right: bool, v: nat)
    requires f.Valid() && r in forest
  {
    f.Out(v)
    || (0 <= v + f.base < r && v + f.base in forest
        && forest[v + f.base].place == Under(r, right)
        && Nested(f, forest[r], r, right, forest[v + f.base]))
  }

  datatype Hole = Hole(r: nat, right: bool)

  /** All nodes and all child cells of nodes still in the window are right,
    * except for the cells in `holes`. */
  ghost predicate ForestOK(f: Frame, son: seq<nat>, forest: Forest, holes: set<Hole>)
  {
    && f.Valid() && |son| == 2 * f.cbs
    && (forall r :: r in forest ==> NodeOK(f, forest[r], r))
    && (forall r, right :: r in forest && f.InWindow(r) && Hole(r, right) !in holes ==>
          CellOK(f, forest, r, right, son[Cell(f.cbs, r, right)]))
  }

  // ---------------------------------------------------------- the insertion

  /** The cell that receives the next smaller subtree, `ptr1`: the left cell of
    * the new node, then the right cell of the last smaller node. */
  function SmallHole(cur: nat, a: Bound): Hole {
    if a.Open? then Hole(cur, false) else Hole(a.p, true)
  }

  /** The cell that receives the next greater subtree, `ptr0`. */
  function GreatHole(cur: nat, b: Bound): Hole {
    if b.Open? then Hole(cur, true) else Hole(b.p, false)
  }

  /** The candidate still to be placed belongs between the last smaller node `a`
    * and the last greater node `b`. */
  ghost predicate CandidateOK(f: Frame, forest: Forest, a: Bound, b: Bound, v: nat, h: nat)
    requires f.Valid()
  {
    f.Out(v)
    || (0 <= v + f.base < f.cur && v + f.base in forest
        && (a.At? ==> v + f.base < a.p) && (b.At? ==> v + f.base < b.p)
        && LoLe(f, a, forest[v + f.base].lo) && HiLe(f, forest[v + f.base].hi, b)
        && var place := forest[v + f.base].place;
           place == Root(h) || (place.Under? && Hole(place.parent, place.right) in {SmallHole(f.cur, a), GreatHole(f.cur, b)}))
  }

  ghost predicate WalkOK(f: Frame, son: seq<nat>, forest: Forest, a: Bound, b: Bound, v: nat, h: nat)
  {
    && ForestOK(f, son, forest, {SmallHole(f.cur, a), GreatHole(f.cur, b)})
    && f.cur in forest && forest[f.cur] == Info(Root(h), Open, Open)
    && (a.At? ==> a.p in forest && a.p < f.cur && f.InWindow(a.p) && forest[a.p].hi == At(f.cur))
    && (b.At? ==> b.p in forest && b.p < f.cur && f.InWindow(b.p) && forest[b.p].lo == At(f.cur))
    && CandidateOK(f, forest, a, b, v, h)
  }

  /** The first bytes the finder skips really agree: the candidate lies between
    * two strings that share them with the current one. */
  lemma SkippedBytesAgree(f: Frame, son: seq<nat>, forest: Forest, a: Bound, b: Bound, v: nat, h: nat, m: nat)
    requires WalkOK(f, son, forest, a, b, v, h) && !f.Out(v)
    requires m <= f.len
    requires a.At? ==> Same(f.d, a.p, f.cur, m)
    requires b.At? ==> Same(f.d, b.p, f.cur, m)
    requires a.Open? || b.Open? ==> m == 0
    ensures 0 <= v + f.base < f.cur && Same(f.d, v + f.base, f.cur, m)
  {
    var c := v + f.base;
    if m > 0 {
      var info := forest[c];
      LeTrans(f.d, a.p, info.lo.p, c, f.len);
      LeTrans(f.d, c, info.hi.p, b.p, f.len);
      Sandwich(f.d, a.p, c, b.p, f.cur, f.len, m);
    }
  }

  lemma SmallerBound(f: Frame, q: nat, k: nat)
    requires f.Valid() && q <= f.cur && k < f.len && Same(f.d, q, f.cur, k) && f.d[q + k] < f.d[f.cur + k]
    ensures HiLe(f, At(q), At(f.cur)) && HiLe(f, At(f.cur), At(f.cur))
    ensures forall b: Bound :: LoLe(f, Open, b) && HiLe(f, b, Open)
  {
    LeAtDifference(f.d, q, f.cur, f.len, k);
    LeRefl(f.d, f.cur, f.len);
  }

  lemma GreaterBound(f: Frame, q: nat, k: nat)
    requires f.Valid() && q <= f.cur && k < f.len && Same(f.d, q, f.cur, k) && f.d[q + k] > f.d[f.cur + k]
    ensures LoLe(f, At(f.cur), At(q)) && LoLe(f, At(f.cur), At(f.cur))
    ensures forall b: Bound :: LoLe(f, Open, b) && HiLe(f, b, Open)
  {
    SameFlips(f.d, q, f.cur, k);
    LeAtDifference(f.d, f.cur, q, f.len, k);
    LeRefl(f.d, f.cur, f.len);
  }

  /** Other buckets' roots are none of this insertion's business. */
  ghost predicate OtherRootsKept(before: Forest, after: Forest, h: nat) {
    forall r :: r in before && before[r].place.Root? && before[r].place != Root(h) ==> r in after && after[r] == before[r]
  }

  /** One node hangs in another cell, the others where they did. */
  ghost predicate Rehung(before: Forest, after: Forest, q: nat, to: Hole) {
    && q in after && after[q].place == Under(to.r, to.right)
    && forall r :: r in before && r != q ==> r in after && after[r] == before[r]
  }

  /** A node is gone, its two children hang in two cells, and the others where they
    * did. */
  ghost predicate Replaced(f: Frame, before: Forest, after: Forest, q: nat, v0: nat, v1: nat, s: Hole, g: Hole)
  {
    && (forall r :: r in before && r != q && (f.Out(v0) || r != v0 + f.base) && (f.Out(v1) || r != v1 + f.base) ==>
          r in after && after[r] == before[r])
    && (!f.Out(v0) && v0 + f.base >= 0 && v0 + f.base in before ==> v0 + f.base in after && after[v0 + f.base].place == Under(s.r, s.right))
    && (!f.Out(v1) && v1 + f.base >= 0 && v1 + f.base in before ==> v1 + f.base in after && after[v1 + f.base].place == Under(g.r, g.right))
  }

  /** A child of the candidate keeps to its side of it and between the bounds. */
  lemma ChildFits(f: Frame, son: seq<nat>, forest: Forest, a: Bound, b: Bound, v: nat, h: nat, q: nat, right: bool)
    requires WalkOK(f, son, forest, a, b, v, h) && !f.Out(v) && q == v + f.base && f.InWindow(q)
    ensures var c := son[Cell(f.cbs, q, right)] + f.base;
            f.Out(son[Cell(f.cbs, q, right)])
            || (0 <= c < q && c in forest && forest[c].place == Under(q, right)
                && LoLe(f, if right then At(q) else a, forest[c].lo)
                && HiLe(f, forest[c].hi, if right then b else At(q)))
  {
    hide Le, LoLe, HiLe;
    var v' := son[Cell(f.cbs, q, right)];
    assert CellOK(f, forest, q, right, v');
    if !f.Out(v') {
      if right {
        HiLeTrans(f, forest[v' + f.base].hi, forest[q].hi, b);
      } else {
        LoLeTrans(f, a, forest[q].lo, forest[v' + f.base].lo);
      }
    }
  }

  /** A smaller candidate joins the smaller side; the walk goes on in its right
    * subtree. */
  lemma PlaceSmaller(f: Frame, son: seq<nat>, forest: Forest, a: Bound, b: Bound, v: nat, h: nat, q: nat, k: nat)
    returns (forest': Forest)
    requires WalkOK(f, son, forest, a, b, v, h) && !f.Out(v) && q == v + f.base
    requires f.InWindow(q) && k < f.len && Same(f.d, q, f.cur, k) && f.d[q + k] < f.d[f.cur + k]
    ensures var s := SmallHole(f.cur, a);
            var son' := son[Cell(f.cbs, s.r, s.right) := v];
            && son'[Cell(f.cbs, q, true)] == son[Cell(f.cbs, q, true)]
            && WalkOK(f, son', forest', At(q), b, son[Cell(f.cbs, q, true)], h)
    ensures OtherRootsKept(forest, forest', h) && forest'.Keys == forest.Keys
    ensures Rehung(forest, forest', q, SmallHole(f.cur, a))
  {
    hide Le, Same, LoLe, HiLe, Slot, Cell;
    var s, g := SmallHole(f.cur, a), GreatHole(f.cur, b);
    var son' := son[Cell(f.cbs, s.r, s.right) := v];
    forest' := forest[q := Info(Under(s.r, s.right), forest[q].lo, At(f.cur))];
    SmallerBound(f, q, k);
    forall r, right | r in forest' && f.InWindow(r) && Hole(r, right) !in {Hole(q, true), g}
      ensures CellOK(f, forest', r, right, son'[Cell(f.cbs, r, right)])
    {
      if Hole(r, right) != s {
        CellsDiffer(f, r, right, s.r, s.right);
        assert CellOK(f, forest, r, right, son[Cell(f.cbs, r, right)]);
      }
    }
    CellsDiffer(f, q, true, s.r, s.right);
    ChildFits(f, son, forest, a, b, v, h, q, true);
  }

  /** A greater candidate joins the greater side; the walk goes on in its left
    * subtree. */
  lemma PlaceGreater(f: Frame, son: seq<nat>, forest: Forest, a: Bound, b: Bound, v: nat, h: nat, q: nat, k: nat)
    returns (forest': Forest)
    requires WalkOK(f, son, forest, a, b, v, h) && !f.Out(v) && q == v + f.base
    requires f.InWindow(q) && k < f.len && Same(f.d, q, f.cur, k) && f.d[q + k] > f.d[f.cur + k]
    ensures var g := GreatHole(f.cur, b);
            var son' := son[Cell(f.cbs, g.r, g.right) := v];
            && son'[Cell(f.cbs, q, false)] == son[Cell(f.cbs, q, false)]
            && WalkOK(f, son', forest', a, At(q), son[Cell(f.cbs, q, false)], h)
    ensures OtherRootsKept(forest, forest', h) && forest'.Keys == forest.Keys
    ensures Rehung(forest, forest', q, GreatHole(f.cur, b))
  {
    hide Le, Same, LoLe, HiLe, Slot, Cell;
    var s, g := SmallHole(f.cur, a), GreatHole(f.cur, b);
    var son' := son[Cell(f.cbs, g.r, g.right) := v];
    forest' := forest[q := Info(Under(g.r, g.right), At(f.cur), forest[q].hi)];
    GreaterBound(f, q, k);
    forall r, right | r in forest' && f.InWindow(r) && Hole(r, right) !in {Hole(q, false), s}
      ensures CellOK(f, forest', r, right, son'[Cell(f.cbs, r, right)])
    {
      if Hole(r, right) != g {
        CellsDiffer(f, r, right, g.r, g.right);
        assert CellOK(f, forest, r, right, son[Cell(f.cbs, r, right)]);
      }
    }
    CellsDiffer(f, q, false, g.r, g.right);
    ChildFits(f, son, forest, a, b, v, h, q, false);
  }

  /** When the walk ends, both open cells are emptied. */
  lemma PlaceNothing(f: Frame, son: seq<nat>, forest: Forest, a: Bound, b: Bound, v: nat, h: nat)
    requires WalkOK(f, son, forest, a, b, v, h)
    ensures var s, g := SmallHole(f.cur, a), GreatHole(f.cur, b);
            ForestOK(f, son[Cell(f.cbs, s.r, s.right) := 0][Cell(f.cbs, g.r, g.right) := 0], forest, {})
  {
    var s, g := SmallHole(f.cur, a), GreatHole(f.cur, b);
    var son' := son[Cell(f.cbs, s.r, s.right) := 0][Cell(f.cbs, g.r, g.right) := 0];
    forall r, right | r in forest && f.InWindow(r)
      ensures CellOK(f, forest, r, right, son'[Cell(f.cbs, r, right)])
    {
      if Hole(r, right) != s && Hole(r, right) != g {
        CellsDiffer(f, r, right, s.r, s.right);
        CellsDiffer(f, r, right, g.r, g.right);
      } else {
        CellsDiffer(f, s.r, s.right, g.r, g.right);
      }
    }
  }

  /** Moving a subtree from its cell below `q` into an open cell that suits it
    * closes the one and opens the other. */
  lemma Adopt(f: Frame, son: seq<nat>, forest: Forest, holes: set<Hole>, to: Hole, q: nat, right: bool, v: nat)
    returns (forest': Forest)
    requires ForestOK(f, son, forest, holes) && to in holes && Hole(q, right) !in holes
    requires q in forest && f.InWindow(q) && to.r in forest && f.InWindow(to.r) && q < to.r
    requires forall x :: x in holes ==> f.InWindow(x.r)
    requires v == son[Cell(f.cbs, q, right)]
    requires !f.Out(v) && v + f.base in forest ==> Nested(f, forest[to.r], to.r, to.right, forest[v + f.base])
    ensures ForestOK(f, son[Cell(f.cbs, to.r, to.right) := v], forest', holes - {to} + {Hole(q, right)})
    ensures forest'.Keys == forest.Keys
    ensures forall r :: r in forest && (f.Out(v) || r != v + f.base) ==> forest'[r] == forest[r]
    ensures !f.Out(v) ==> v + f.base in forest && v + f.base < q && forest'[v + f.base] == forest[v + f.base].(place := Under(to.r, to.right))
    ensures !f.Out(v) ==> forest[v + f.base].place == Under(q, right)
  {
    hide Le;
    var son' := son[Cell(f.cbs, to.r, to.right) := v];
    assert CellOK(f, forest, q, right, v);
    forest' := if f.Out(v) then forest else forest[v + f.base := forest[v + f.base].(place := Under(to.r, to.right))];
    forall r, side | r in forest' && f.InWindow(r) && Hole(r, side) !in holes - {to} + {Hole(q, right)}
      ensures CellOK(f, forest', r, side, son'[Cell(f.cbs, r, side)])
    {
      if Hole(r, side) != to {
        CellsDiffer(f, r, side, to.r, to.right);
        assert CellOK(f, forest, r, side, son[Cell(f.cbs, r, side)]);
      }
    }
  }

  /** A node both of whose cells are open, and to which nothing refers, can go. */
  lemma Forget(f: Frame, son: seq<nat>, forest: Forest, q: nat)
    requires ForestOK(f, son, forest, {Hole(q, false), Hole(q, true)})
    requires q in forest
    requires forall r, right :: r in forest && r != q && f.InWindow(r) ==> son[Cell(f.cbs, r, right)] + f.base != q
    ensures ForestOK(f, son, forest - {q}, {})
  {
    hide Le;
    forall r, right | r in forest - {q} && f.InWindow(r)
      ensures CellOK(f, forest - {q}, r, right, son[Cell(f.cbs, r, right)])
    {
      assert CellOK(f, forest, r, right, son[Cell(f.cbs, r, right)]);
    }
  }

  /** A candidate equal in all compared bytes is replaced by the new node, which
    * takes over its two subtrees. */
  lemma PlaceEqual(f: Frame, son: seq<nat>, forest: Forest, a: Bound, b: Bound, v: nat, h: nat, q: nat)
    returns (forest': Forest)
    requires WalkOK(f, son, forest, a, b, v, h) && !f.Out(v) && q == v + f.base
    requires f.InWindow(q) && Same(f.d, q, f.cur, f.len)
    ensures var s, g := SmallHole(f.cur, a), GreatHole(f.cur, b);
            var v0, v1 := son[Cell(f.cbs, q, false)], son[Cell(f.cbs, q, true)];
            ForestOK(f, son[Cell(f.cbs, s.r, s.right) := v0][Cell(f.cbs, g.r, g.right) := v1], forest', {})
    ensures f.cur in forest' && forest'[f.cur] == forest[f.cur]
    ensures OtherRootsKept(forest, forest', h) && forest'.Keys <= forest.Keys
    ensures var v0, v1 := son[Cell(f.cbs, q, false)], son[Cell(f.cbs, q, true)];
            Replaced(f, forest, forest', q, v0, v1, SmallHole(f.cur, a), GreatHole(f.cur, b))
  {
    hide Le, Same, CellOK, ForestOK, Slot, Cell, Replaced, Nested;
    var s, g := SmallHole(f.cur, a), GreatHole(f.cur, b);
    SubtreesFit(f, son, forest, a, b, v, h, q);
    var v0, v1 := son[Cell(f.cbs, q, false)], son[Cell(f.cbs, q, true)];
    CellsDiffer(f, q, true, s.r, s.right);
    CellsDiffer(f, s.r, s.right, g.r, g.right);
    var forest0 := Adopt(f, son, forest, {s, g}, s, q, false, v0);
    assert {s, g} - {s} + {Hole(q, false)} == {g, Hole(q, false)};
    var son0 := son[Cell(f.cbs, s.r, s.right) := v0];
    var forest1 := Adopt(f, son0, forest0, {g, Hole(q, false)}, g, q, true, v1);
    assert {g, Hole(q, false)} - {g} + {Hole(q, true)} == {Hole(q, false), Hole(q, true)};
    var son1 := son0[Cell(f.cbs, g.r, g.right) := v1];
    forall r, right | r in forest1 && r != q && f.InWindow(r)
      ensures son1[Cell(f.cbs, r, right)] + f.base != q
    {
      if Hole(r, right) != s && Hole(r, right) != g {
        CellsDiffer(f, r, right, s.r, s.right);
        CellsDiffer(f, r, right, g.r, g.right);
        ElsewhereNot(f, son, forest, a, b, v, h, q, r, right);
      }
    }
    Forget(f, son1, forest1, q);
    forest' := forest1 - {q};
    ChildrenRehung(f, forest, forest0, forest1, q, v0, v1, s, g);
  }

  /** Two adoptions, and the parent gone. */
  lemma ChildrenRehung(f: Frame, forest: Forest, forest0: Forest, forest1: Forest, q: nat, v0: nat, v1: nat, s: Hole, g: Hole)
    requires forest0.Keys == forest.Keys && forest1.Keys == forest0.Keys
    requires forall r :: r in forest && (f.Out(v0) || r != v0 + f.base) ==> forest0[r] == forest[r]
    requires forall r :: r in forest0 && (f.Out(v1) || r != v1 + f.base) ==> forest1[r] == forest0[r]
    requires !f.Out(v0) ==> v0 + f.base in forest && v0 + f.base < q && forest0[v0 + f.base].place == Under(s.r, s.right)
    requires !f.Out(v1) ==> v1 + f.base in forest0 && v1 + f.base < q && forest1[v1 + f.base].place == Under(g.r, g.right)
    requires !f.Out(v0) && !f.Out(v1) ==> v0 != v1
    ensures Replaced(f, forest, forest1 - {q}, q, v0, v1, s, g)
  {
  }

  /** No cell but the open ones refers to the candidate. */
  lemma ElsewhereNot(f: Frame, son: seq<nat>, forest: Forest, a: Bound, b: Bound, v: nat, h: nat, q: nat, r: nat, right: bool)
    requires WalkOK(f, son, forest, a, b, v, h) && !f.Out(v) && q == v + f.base
    requires r in forest && f.InWindow(r) && Hole(r, right) !in {SmallHole(f.cur, a), GreatHole(f.cur, b)}
    ensures son[Cell(f.cbs, r, right)] + f.base != q
  {
    hide Le;
    assert CellOK(f, forest, r, right, son[Cell(f.cbs, r, right)]);
  }

  /** The two subtrees of a node equal to the current string suit the two open
    * cells. */
  lemma SubtreesFit(f: Frame, son: seq<nat>, forest: Forest, a: Bound, b: Bound, v: nat, h: nat, q: nat)
    requires WalkOK(f, son, forest, a, b, v, h) && !f.Out(v) && q == v + f.base
    requires f.InWindow(q) && Same(f.d, q, f.cur, f.len)
    ensures var s, g := SmallHole(f.cur, a), GreatHole(f.cur, b);
            var v0, v1 := son[Cell(f.cbs, q, false)], son[Cell(f.cbs, q, true)];
            && f.Valid() && f.cur in forest && q in forest && ForestOK(f, son, forest, {s, g})
            && |son| == 2 * f.cbs && q < s.r && q < g.r && s.r in forest && g.r in forest && f.InWindow(s.r) && f.InWindow(g.r)
            && (f.Out(v0) || (0 <= v0 + f.base < q && v0 + f.base in forest && Nested(f, forest[s.r], s.r, s.right, forest[v0 + f.base])))
            && (f.Out(v1) || (0 <= v1 + f.base < q && v1 + f.base in forest && forest[v1 + f.base].place == Under(q, true)
                && Nested(f, forest[g.r], g.r, g.right, forest[v1 + f.base])))
  {
    hide Le, Same;
    var v0, v1 := son[Cell(f.cbs, q, false)], son[Cell(f.cbs, q, true)];
    SameBounds(f, q);
    assert CellOK(f, forest, q, false, v0) && CellOK(f, forest, q, true, v1);
    if !f.Out(v0) {
      HiLeTrans(f, forest[v0 + f.base].hi, At(q), At(f.cur));
      LoLeTrans(f, a, forest[q].lo, forest[v0 + f.base].lo);
    }
    if !f.Out(v1) {
      LoLeTrans(f, At(f.cur), At(q), forest[v1 + f.base].lo);
      HiLeTrans(f, forest[v1 + f.base].hi, forest[q].hi, b);
    }
  }

  lemma SameBounds(f: Frame, q: nat)
    requires f.Valid() && q <= f.cur && Same(f.d, q, f.cur, f.len)
    ensures HiLe(f, At(q), At(f.cur)) && LoLe(f, At(f.cur), At(q))
  {
    SameFlips(f.d, q, f.cur, f.len);
  }

  /** A bucket refers to nothing in the window, or to the root of its tree. */
  ghost predicate RootOK(f: Frame, forest: Forest, v: nat, h: nat)
    requires f.Valid()
  {
    f.Out(v) || (0 <= v + f.base < f.cur && v + f.base in forest && forest[v + f.base] == Info(Root(h), Open, Open))
  }

  /** The new node becomes the root of its bucket, with both cells open. */
  lemma StartWalk(f: Frame, son: seq<nat>, forest: Forest, v: nat, h: nat) returns (forest': Forest)
    requires Settled(f, son, forest) && RootOK(f, forest, v, h)
    ensures WalkOK(f, son, forest', Open, Open, v, h)
    ensures forest' == forest[f.cur := Info(Root(h), Open, Open)]
  {
    hide Le;
    forest' := forest[f.cur := Info(Root(h), Open, Open)];
    forall r, right | r in forest' && f.InWindow(r) && Hole(r, right) !in {Hole(f.cur, false), Hole(f.cur, true)}
      ensures CellOK(f, forest', r, right, son[Cell(f.cbs, r, right)])
    {
      assert r != f.cur;
      assert CellOK(f, forest, r, right, son[Cell(f.cbs, r, right)]);
    }
  }

  // ------------------------------------------------------ the tree it leaves

  /** The `son` array an insertion leaves, computed with full comparisons: the
    * reference for both the reporting and the skipping walk. */
  ghost function Walk(f: Frame, son: seq<nat>, v: nat, i1: nat, i0: nat, cut: nat): (r: seq<nat>)
    requires f.Valid() && |son| == 2 * f.cbs && i1 < |son| && i0 < |son|
    ensures |r| == |son|
    decreases cut
  {
    var c := v + f.base;
    if cut == 0 || f.Out(v) || !(0 <= c < f.cur) then son[i0 := 0][i1 := 0]
    else
      var left, right := Cell(f.cbs, c, false), Cell(f.cbs, c, true);
      var k := Lcp(f.d, c, f.cur, f.len);
      if k == f.len then son[i1 := son[left]][i0 := son[right]]
      else if f.d[c + k] < f.d[f.cur + k] then
        var son' := son[i1 := v];
        Walk(f, son', son'[right], right, i0, cut - 1)
      else
        var son' := son[i0 := v];
        Walk(f, son', son'[left], i1, left, cut - 1)
  }

  /** The positions that an insertion compares, one after the other. */
  ghost function Visits(f: Frame, son: seq<nat>, v: nat, i1: nat, i0: nat, cut: nat): (qs: seq<nat>)
    requires f.Valid() && |son| == 2 * f.cbs && i1 < |son| && i0 < |son|
    ensures forall i :: 0 <= i < |qs| ==> qs[i] < f.cur
    decreases cut
  {
    var c := v + f.base;
    if cut == 0 || f.Out(v) || !(0 <= c < f.cur) then []
    else
      var k := Lcp(f.d, c, f.cur, f.len);
      if k == f.len then [c]
      else
        var right := f.d[c + k] < f.d[f.cur + k];
        var son', next := son[(if right then i1 else i0) := v], Cell(f.cbs, c, right);
        [c] + Visits(f, son', son'[next], if right then next else i1, if right then i0 else next, cut - 1)
  }

  /** The cut value is used up while there is still a candidate. */
  ghost predicate CutsOff(f: Frame, son: seq<nat>, v: nat, i1: nat, i0: nat, cut: nat)
    requires f.Valid() && |son| == 2 * f.cbs && i1 < |son| && i0 < |son|
    decreases cut
  {
    var c := v + f.base;
    if f.Out(v) || !(0 <= c < f.cur) then false
    else if cut == 0 then true
    else
      var k := Lcp(f.d, c, f.cur, f.len);
      if k == f.len then false
      else
        var right := f.d[c + k] < f.d[f.cur + k];
        var son', next := son[(if right then i1 else i0) := v], Cell(f.cbs, c, right);
        CutsOff(f, son', son'[next], if right then next else i1, if right then i0 else next, cut - 1)
  }

  lemma VisitsOn(f: Frame, son: seq<nat>, v: nat, i1: nat, i0: nat, cut: nat, c: nat, k: nat, right: bool)
    requires f.Valid() && |son| == 2 * f.cbs && i1 < |son| && i0 < |son|
    requires cut > 0 && !f.Out(v) && c == v + f.base && c < f.cur && k == Lcp(f.d, c, f.cur, f.len) < f.len
    requires right <==> f.d[c + k] < f.d[f.cur + k]
    ensures var son', next := son[(if right then i1 else i0) := v], Cell(f.cbs, c, right);
            var j1, j0 := if right then next else i1, if right then i0 else next;
            && Visits(f, son, v, i1, i0, cut) == [c] + Visits(f, son', son'[next], j1, j0, cut - 1)
            && CutsOff(f, son, v, i1, i0, cut) == CutsOff(f, son', son'[next], j1, j0, cut - 1)
  {
    hide Lcp, Walk, Cell, Slot, Same;
  }

  /** It is used up by comparing as many positions as it says, and no fewer. */
  lemma {:induction false} CutsOffAfter(f: Frame, son: seq<nat>, v: nat, i1: nat, i0: nat, cut: nat)
    requires f.Valid() && |son| == 2 * f.cbs && i1 < |son| && i0 < |son|
    ensures |Visits(f, son, v, i1, i0, cut)| <= cut
    ensures CutsOff(f, son, v, i1, i0, cut) ==> |Visits(f, son, v, i1, i0, cut)| == cut
    decreases cut
  {
    hide Visits, CutsOff, Lcp, Walk, Cell, Slot, Same;
    var c := v + f.base;
    if cut > 0 && !f.Out(v) && 0 <= c < f.cur && Lcp(f.d, c, f.cur, f.len) < f.len {
      var k := Lcp(f.d, c, f.cur, f.len);
      var right := f.d[c + k] < f.d[f.cur + k];
      var son', next := son[(if right then i1 else i0) := v], Cell(f.cbs, c, right);
      VisitsOn(f, son, v, i1, i0, cut, c, k, right);
      CutsOffAfter(f, son', son'[next], if right then next else i1, if right then i0 else next, cut - 1);
    } else {
      VisitsEnd(f, son, v, i1, i0, cut);
    }
  }

  lemma VisitsEnd(f: Frame, son: seq<nat>, v: nat, i1: nat, i0: nat, cut: nat)
    requires f.Valid() && |son| == 2 * f.cbs && i1 < |son| && i0 < |son|
    requires !(cut > 0 && !f.Out(v) && 0 <= v + f.base < f.cur && Lcp(f.d, v + f.base, f.cur, f.len) < f.len)
    ensures |Visits(f, son, v, i1, i0, cut)| == (if cut > 0 && !f.Out(v) && 0 <= v + f.base < f.cur then 1 else 0)
    ensures CutsOff(f, son, v, i1, i0, cut) ==> cut == 0
  {
    hide Walk, Cell;
  }

  // ------------------------------------------------- between two insertions

  /** The bounds of every node refer to inserted positions. */
  ghost predicate Settled(f: Frame, son: seq<nat>, forest: Forest) {
    && ForestOK(f, son, forest, {})
    && forall r :: r in forest ==> r < f.cur
  }

  lemma LoLeShorter(f: Frame, g: Frame, a: Bound, b: Bound)
    requires f.Valid() && g.Valid() && g == f.(cur := g.cur, len := g.len) && f.cur <= g.cur && g.len <= f.len
    requires LoLe(f, a, b)
    ensures LoLe(g, a, b)
  {
    if a.At? {
      LePrefix(f.d, a.p, b.p, f.len, g.len);
    }
  }

  lemma HiLeShorter(f: Frame, g: Frame, a: Bound, b: Bound)
    requires f.Valid() && g.Valid() && g == f.(cur := g.cur, len := g.len) && f.cur <= g.cur && g.len <= f.len
    requires HiLe(f, a, b)
    ensures HiLe(g, a, b)
  {
    if b.At? {
      LePrefix(f.d, a.p, b.p, f.len, g.len);
    }
  }

  /** Moving on by one position, and comparing no more bytes than before, keeps
    * the forest: positions only leave the window. */
  lemma MoveOn(f: Frame, g: Frame, son: seq<nat>, forest: Forest)
    requires ForestOK(f, son, forest, {}) && g.Valid()
    requires g == f.(cur := f.cur + 1, len := g.len) && g.len <= f.len
    ensures Settled(g, son, forest)
  {
    hide LoLe, HiLe;
    forall r | r in forest ensures NodeOK(g, forest[r], r) {
      LoLeShorter(f, g, forest[r].lo, At(r));
      HiLeShorter(f, g, At(r), forest[r].hi);
    }
    forall r, right | r in forest && g.InWindow(r)
      ensures CellOK(g, forest, r, right, son[Cell(g.cbs, r, right)])
    {
      var v := son[Cell(f.cbs, r, right)];
      assert CellOK(f, forest, r, right, v);
      if !f.Out(v) {
        var child := forest[v + f.base];
        if right {
          LoLeShorter(f, g, At(r), child.lo);
          HiLeShorter(f, g, child.hi, forest[r].hi);
        } else {
          LoLeShorter(f, g, forest[r].lo, child.lo);
          HiLeShorter(f, g, child.hi, At(r));
        }
      }
    }
  }

  // ------------------------------------------------------------ normalisation

  const MAX_VAL_FOR_NORMALIZE := 0xFFFF_FFFF
  const NORMALIZE_STEP := 1024
  const MAX_HISTORY_SIZE := 0xE000_0000  // (UInt32)7 << 29

  /** `MatchFinder_GetSubValue`; the window is one larger than the history. */
  function SubValue(pos: nat, cbs: nat): nat
    requires cbs <= pos
  {
    ((pos - cbs) / NORMALIZE_STEP) * NORMALIZE_STEP
  }

  function NormRef(v: nat, sub: nat): nat {
    if v <= sub then 0 else v - sub
  }

  /** Normalisation simulates unbounded positions: a reference inside the window
    * keeps its distance, any other still reads as outside, and the position
    * stays at least the window size; the position really drops. */
  lemma NormaliseSimulates(pos: nat, cbs: nat, v: nat)
    requires cbs <= pos && v <= pos
    ensures var sub := SubValue(pos, cbs);
            && pos - sub >= cbs
            && (pos - v < cbs ==> (pos - sub) - NormRef(v, sub) == pos - v)
            && (pos - v >= cbs ==> (pos - sub) - NormRef(v, sub) >= cbs)
            && (pos == MAX_VAL_FOR_NORMALIZE && cbs <= MAX_HISTORY_SIZE + 1 ==> pos - sub < cbs + NORMALIZE_STEP < pos)
  {
  }

  function NormAll(items: seq<nat>, sub: nat): (r: seq<nat>)
    ensures |r| == |items| && forall i :: 0 <= i < |r| ==> r[i] == NormRef(items[i], sub)
  {
    seq(|items|, i requires 0 <= i < |items| => NormRef(items[i], sub))
  }

  /** The whole forest survives normalisation: the same nodes, the same shape. */
  lemma NormaliseForest(f: Frame, son: seq<nat>, forest: Forest)
    requires Settled(f, son, forest)
    ensures var sub := SubValue(f.Pos(), f.cbs);
            Settled(f.(base := f.base + sub), NormAll(son, sub), forest)
  {
    hide Le;
    var sub := SubValue(f.Pos(), f.cbs);
    var g := f.(base := f.base + sub);
    NormaliseSimulates(f.Pos(), f.cbs, 0);
    forall r, right | r in forest && g.InWindow(r)
      ensures CellOK(g, forest, r, right, NormAll(son, sub)[Cell(g.cbs, r, right)])
    {
      var v := son[Cell(f.cbs, r, right)];
      assert CellOK(f, forest, r, right, v);
      if v <= f.Pos() {
        NormaliseSimulates(f.Pos(), f.cbs, v);
      }
    }
  }
}
