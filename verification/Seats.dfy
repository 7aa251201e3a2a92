/** Seats of a room, as maps from seat to occupant: who sits where, which seat is
  * taken next, and how a team is moved together. */
module Seats {
  import opened Options

  /** Team and place within the team. */
  type Pos = (nat, nat)

  predicate IsSeat(p: Pos, t0: nat, t1: nat) {
    (p.0 == 0 && p.1 < t0) || (p.0 == 1 && p.1 < t1)
  }

  ghost predicate OnSeats<C>(d: map<Pos, C>, t0: nat, t1: nat) {
    forall p :: p in d ==> IsSeat(p, t0, t1)
  }

  ghost predicate Full<C>(d: map<Pos, C>, t0: nat, t1: nat) {
    forall p: Pos :: IsSeat(p, t0, t1) ==> p in d
  }

  /** The first free place of a team from `k` on. */
  function Scan<C>(d: map<Pos, C>, t: nat, k: nat, max: nat): (r: Option<Pos>)
    ensures r.Some? ==> r.value.0 == t && k <= r.value.1 < max && r.value !in d
    ensures r.Some? ==> forall i :: k <= i < r.value.1 ==> (t, i) in d
    ensures r.None? ==> forall i :: k <= i < max ==> (t, i) in d
    decreases max - k
  {
    if k >= max then None
    else if (t, k) !in d then Some((t, k))
    else Scan(d, t, k + 1, max)
  }

  /** The order in which seats are tried: from the hint on, and around. */
  function Ahead(hint: Pos, p: Pos): nat {
    if p.0 == hint.0 && p.1 >= hint.1 then p.1 - hint.1
    else if p.0 > hint.0 then 1000 + p.1
    else if p.0 < hint.0 then 2000 + p.1
    else 3000 + p.1
  }

  /** The free seat tried first. */
  ghost predicate FirstFree<C>(d: map<Pos, C>, hint: Pos, p: Pos, t0: nat, t1: nat) {
    && IsSeat(p, t0, t1) && p !in d
    && forall q :: IsSeat(q, t0, t1) && q !in d && q != p ==> Ahead(hint, p) < Ahead(hint, q)
  }

  lemma FreedNotFull<C>(d: map<Pos, C>, p: Pos, t0: nat, t1: nat)
    requires IsSeat(p, t0, t1)
    ensures !Full(d - {p}, t0, t1)
  {
  }

  /** Moving on from a seat ends there again exactly when no other is free. */
  lemma StaysIff<C>(d: map<Pos, C>, p: Pos, q: Pos, t0: nat, t1: nat)
    requires IsSeat(p, t0, t1) && t0 <= 3 && t1 <= 3 && FirstFree(d - {p}, (p.0, p.1 + 1), q, t0, t1)
    ensures q == p <==> forall r :: IsSeat(r, t0, t1) && r != p ==> r in d
    ensures IsSeat(q, t0, t1) && q !in d - {p}
  {
    var hint := (p.0, p.1 + 1);
    if q == p {
      forall r | IsSeat(r, t0, t1) && r != p ensures r in d {
        assert r !in d - {p} ==> Ahead(hint, p) < Ahead(hint, r);
      }
    }
  }

  // -------------------------------------------------------------------- teams

  /** The occupants of the first `k` places of a team, in order. */
  function TeamSeq<C>(d: map<Pos, C>, t: nat, k: nat): (s: seq<C>)
    ensures |s| <= k
  {
    if k == 0 then []
    else TeamSeq(d, t, k - 1) + (if (t, k - 1) in d then [d[(t, k - 1)]] else [])
  }

  /** Exactly the first `n` places of a team are taken. */
  ghost predicate Tight<C>(d: map<Pos, C>, t: nat, n: nat) {
    forall i: nat :: (t, i) in d <==> i < n
  }

  lemma {:induction false} TeamSeqPrefix<C>(d: map<Pos, C>, t: nat, n: nat, k: nat)
    requires n <= k && forall i: nat :: i < k ==> ((t, i) in d <==> i < n)
    ensures |TeamSeq(d, t, k)| == n
    ensures forall i :: 0 <= i < n ==> TeamSeq(d, t, k)[i] == d[(t, i)]
    decreases k
  {
    if k > 0 {
      TeamSeqPrefix(d, t, if n == k then n - 1 else n, k - 1);
    }
  }

  /** Reading a team depends on its own seats only. */
  lemma {:induction false} TeamSeqSame<C>(d: map<Pos, C>, e: map<Pos, C>, t: nat, k: nat)
    requires forall i: nat :: i < k ==> ((t, i) in d <==> (t, i) in e) && ((t, i) in d ==> d[(t, i)] == e[(t, i)])
    ensures TeamSeq(d, t, k) == TeamSeq(e, t, k)
    decreases k
  {
    if k > 0 {
      TeamSeqSame(d, e, t, k - 1);
    }
  }

  /** Moving the next occupant down to a free place keeps the order. */
  lemma {:induction false} MoveKeepsOrder<C>(d: map<Pos, C>, t: nat, p: nat, q: nat, k: nat)
    requires p < q && (t, q) in d && forall i: nat :: p <= i < q ==> (t, i) !in d
    ensures k > q ==> TeamSeq((d - {(t, q)})[(t, p) := d[(t, q)]], t, k) == TeamSeq(d, t, k)
    ensures p < k <= q ==> TeamSeq((d - {(t, q)})[(t, p) := d[(t, q)]], t, k) == TeamSeq(d, t, k) + [d[(t, q)]]
    ensures k <= p ==> TeamSeq((d - {(t, q)})[(t, p) := d[(t, q)]], t, k) == TeamSeq(d, t, k)
    decreases k
  {
    if k > 0 {
      MoveKeepsOrder(d, t, p, q, k - 1);
    }
  }

  /** There is somebody behind the first free place of a team that is not yet
    * moved together. */
  lemma {:induction false} SomebodyBehind<C>(d: map<Pos, C>, t: nat, p: nat, k: nat)
    requires (forall i: nat :: i < k && p <= i ==> (t, i) !in d) && p <= k
    ensures |TeamSeq(d, t, k)| <= p
    decreases k
  {
    if k > p {
      SomebodyBehind(d, t, p, k - 1);
    }
  }

  /** A team whose first `n` places are taken and that counts `n` has nobody
    * else. */
  lemma {:induction false} NobodyElse<C>(d: map<Pos, C>, t: nat, n: nat, k: nat)
    requires n <= k && |TeamSeq(d, t, k)| == n && forall i: nat :: i < n ==> (t, i) in d
    ensures forall i: nat :: n <= i < k ==> (t, i) !in d
    decreases k
  {
    if k > n {
      if (t, k - 1) in d {
        AtLeast(d, t, n, k - 1);
        assert false;
      }
      NobodyElse(d, t, n, k - 1);
    }
  }

  lemma {:induction false} AtLeast<C>(d: map<Pos, C>, t: nat, n: nat, k: nat)
    requires n <= k && forall i: nat :: i < n ==> (t, i) in d
    ensures |TeamSeq(d, t, k)| >= n
    decreases k
  {
    if k > n {
      AtLeast(d, t, n, k - 1);
    } else if k > 0 {
      AtLeast(d, t, n - 1, k - 1);
    }
  }

  // ------------------------------------------------------------------ counting

  ghost function TeamOf<C>(d: map<Pos, C>, t: nat, k: nat): set<Pos> {
    set i: nat | i < k && (t, i) in d :: (t, i)
  }

  lemma {:induction false} TeamCount<C>(d: map<Pos, C>, t: nat, k: nat)
    ensures |TeamOf(d, t, k)| == |TeamSeq(d, t, k)|
    decreases k
  {
    if k == 0 {
      assert TeamOf(d, t, 0) == {};
    } else {
      TeamCount(d, t, k - 1);
      if (t, k - 1) in d {
        assert TeamOf(d, t, k) == TeamOf(d, t, k - 1) + {(t, k - 1)};
      } else {
        assert TeamOf(d, t, k) == TeamOf(d, t, k - 1);
      }
    }
  }

  function OfTeam(ps: set<Pos>, t: nat): set<Pos> {
    set p | p in ps && p.0 == t
  }

  lemma OfTeamAdd(ps: set<Pos>, p: Pos, t: nat)
    requires p !in ps
    ensures |OfTeam(ps + {p}, t)| == |OfTeam(ps, t)| + (if p.0 == t then 1 else 0)
  {
    if p.0 == t {
      assert OfTeam(ps + {p}, t) == OfTeam(ps, t) + {p};
    } else {
      assert OfTeam(ps + {p}, t) == OfTeam(ps, t);
    }
  }

  lemma OfTeamCount<C>(d: map<Pos, C>, t0: nat, t1: nat)
    requires OnSeats(d, t0, t1)
    ensures |OfTeam(d.Keys, 0)| == |TeamSeq(d, 0, t0)| && |OfTeam(d.Keys, 1)| == |TeamSeq(d, 1, t1)|
  {
    TeamCount(d, 0, t0);
    TeamCount(d, 1, t1);
    assert OfTeam(d.Keys, 0) == TeamOf(d, 0, t0) && OfTeam(d.Keys, 1) == TeamOf(d, 1, t1);
  }

  lemma {:induction false} InTeamSeq<C>(d: map<Pos, C>, t: nat, i: nat, k: nat)
    requires i < k && (t, i) in d
    ensures d[(t, i)] in TeamSeq(d, t, k)
    decreases k
  {
    if i < k - 1 {
      InTeamSeq(d, t, i, k - 1);
    }
  }

  lemma {:induction false} RowCount(t: nat, k: nat)
    ensures |set i: nat | i < k :: (t, i)| == k
    decreases k
  {
    if k == 0 {
      assert (set i: nat | i < 0 :: (t, i)) == {};
    } else {
      RowCount(t, k - 1);
      assert (set i: nat | i < k :: (t, i)) == (set i: nat | i < k - 1 :: (t, i)) + {(t, k - 1)};
    }
  }

  lemma SubsetSize<T>(a: set<T>, b: set<T>)
    requires a <= b
    ensures |a| <= |b|
    ensures |a| == |b| ==> a == b
  {
    assert b == a + (b - a);
    if |a| == |b| {
      assert |b - a| == 0;
    }
  }

  /** Pigeonhole: as many occupants as seats means every seat is taken. */
  ghost function AllSeats(t0: nat, t1: nat): (s: set<Pos>)
    ensures forall p :: p in s <==> IsSeat(p, t0, t1)
  {
    (set i: nat | i < t0 :: (0, i)) + (set i: nat | i < t1 :: (1, i))
  }

  lemma AllSeatsCount(t0: nat, t1: nat)
    ensures |AllSeats(t0, t1)| == t0 + t1
  {
    var row0, row1 := (set i: nat | i < t0 :: (0, i)), (set i: nat | i < t1 :: (1, i));
    RowCount(0, t0);
    RowCount(1, t1);
    assert row0 !! row1;
  }

  lemma FullByCount<C>(d: map<Pos, C>, t0: nat, t1: nat)
    requires OnSeats(d, t0, t1)
    ensures |d| <= t0 + t1
    ensures |d| == t0 + t1 <==> Full(d, t0, t1)
  {
    AllSeatsCount(t0, t1);
    var seats := AllSeats(t0, t1);
    assert d.Keys <= seats && |d.Keys| == |d|;
    SubsetSize(d.Keys, seats);
    if Full(d, t0, t1) {
      assert d.Keys == seats;
    } else if d.Keys == seats {
      assert false;
    }
  }
}
