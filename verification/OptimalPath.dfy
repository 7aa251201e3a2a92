/** The backward pass of the optimal parser (`Backward` in LzmaEnc.c), which
  * turns the chain of best predecessors into the forward list of steps inside
  * the very array the chain is stored in. */
module OptimalPath {
  import opened Words
  import opened LzmaSpec
  import opened LzmaStream

  /** The fields of `COptimal` that describe how a position was reached: by a
    * step of `len` and `dist`, or with `extra` by two or three steps. */
  datatype Optimal = Optimal(len: nat, dist: nat, extra: nat)

  /** Following the chain from `cur` stays inside the array and ends at zero. */
  ghost predicate Chain(opt: seq<Optimal>, cur: nat)
    decreases cur
  {
    cur > 0 ==>
      && cur < |opt| && opt[cur].len >= 1
      && opt[cur].len + opt[cur].extra <= cur
      && Chain(opt, cur - opt[cur].len - opt[cur].extra)
  }

  /** The steps one entry stands for: a plain step; a literal and then the step;
    * or a match one shorter than `extra`, a literal, and a repeat of it. */
  ghost function Expand(o: Optimal): seq<Packet> {
    if o.extra == 0 then [Packet(o.len, o.dist)]
    else if o.extra == 1 then [Packet(1, MARK_LIT), Packet(o.len, o.dist)]
    else [Packet(o.extra - 1, o.dist), Packet(1, MARK_LIT), Packet(o.len, 0)]
  }

  /** The steps of the chain, first step first. */
  ghost function Forward(opt: seq<Optimal>, cur: nat): seq<Packet>
    requires Chain(opt, cur)
    decreases cur
  {
    if cur == 0 then []
    else Forward(opt, cur - opt[cur].len - opt[cur].extra) + Expand(opt[cur])
  }

  ghost function TotalLen(ps: seq<Packet>): nat {
    if ps == [] then 0 else ps[0].len + TotalLen(ps[1..])
  }

  lemma {:induction false} TotalLenAppend(a: seq<Packet>, b: seq<Packet>)
    ensures TotalLen(a + b) == TotalLen(a) + TotalLen(b)
    decreases |a|
  {
    if a == [] {
      assert a + b == b;
    } else {
      assert (a + b)[1..] == a[1..] + b;
      TotalLenAppend(a[1..], b);
    }
  }

  /** The steps cover exactly the positions up to `cur`. */
  lemma {:induction false} ForwardCovers(opt: seq<Optimal>, cur: nat)
    requires Chain(opt, cur)
    ensures TotalLen(Forward(opt, cur)) == cur
    decreases cur
  {
    if cur > 0 {
      var o := opt[cur];
      ForwardCovers(opt, cur - o.len - o.extra);
      TotalLenAppend(Forward(opt, cur - o.len - o.extra), Expand(o));
      ExpandLen(o);
    }
  }

  lemma ExpandLen(o: Optimal)
    ensures TotalLen(Expand(o)) == o.len + o.extra
  {
    var ps := Expand(o);
    if o.extra == 1 {
      TotalLenCons(ps[0], [ps[1]]);
    } else if o.extra > 1 {
      TotalLenCons(ps[0], [ps[1], ps[2]]);
      TotalLenCons(ps[1], [ps[2]]);
    }
    TotalLenCons(ps[|ps| - 1], []);
  }

  lemma TotalLenCons(p: Packet, ps: seq<Packet>)
    ensures TotalLen([p] + ps) == p.len + TotalLen(ps)
  {
    assert ([p] + ps)[1..] == ps;
  }

  // ---------------------------------------------------- what the steps code

  /** Steps that may be coded one after the other from here on. */
  ghost predicate Codable(lz: Lz, data: seq<Byte>, dict: nat, ps: seq<Packet>)
    decreases |ps|
  {
    ValidLz(lz, data)
    && (ps == [] || (ValidPacket(lz, data, dict, ps[0]) && Codable(Advance(lz, ps[0]), data, dict, ps[1..])))
  }

  ghost function Through(lz: Lz, ps: seq<Packet>): (r: Lz)
    requires |lz.reps| == NUM_REPS
    ensures |r.reps| == NUM_REPS
    decreases |ps|
  {
    if ps == [] then lz else Through(Advance(lz, ps[0]), ps[1..])
  }

  lemma {:induction false} ThroughAppend(lz: Lz, data: seq<Byte>, dict: nat, a: seq<Packet>, b: seq<Packet>)
    requires Codable(lz, data, dict, a) && Codable(Through(lz, a), data, dict, b)
    ensures Codable(lz, data, dict, a + b) && Through(lz, a + b) == Through(Through(lz, a), b)
    decreases |a|
  {
    if a == [] {
      assert a + b == b;
    } else {
      assert (a + b)[0] == a[0] && (a + b)[1..] == a[1..] + b;
      ThroughAppend(Advance(lz, a[0]), data, dict, a[1..], b);
    }
  }

  /** The distance a step means: a repeated one by its index, or its own. */
  function Reach(lz: Lz, dist: nat): nat
    requires |lz.reps| == NUM_REPS
  {
    if dist < NUM_REPS then lz.reps[dist] else dist - NUM_REPS + 1
  }

  /** What the parser has compared before it stores an entry: a plain step is one
    * it may choose; behind a literal the data repeat the last distance; a match
    * goes on, one literal later, at its own distance. */
  ghost predicate Compared(lz: Lz, data: seq<Byte>, dict: nat, o: Optimal)
    requires |lz.reps| == NUM_REPS
  {
    if o.extra == 0 then ValidPacket(lz, data, dict, Packet(o.len, o.dist))
    else
      && LEN_MIN <= o.len <= LEN_MAX && o.dist != MARK_LIT
      && Reach(lz, o.dist) <= dict && TrueMatch(data, lz.pos + o.extra, Reach(lz, o.dist), o.len)
      && if o.extra == 1 then o.dist == 0 else ValidPacket(lz, data, dict, Packet(o.extra - 1, o.dist)) && o.extra > LEN_MIN
  }

  /** The state behind an entry is computed in one go: after a literal and a
    * repeat it is always the same. */
  function EntryState(state: nat, o: Optimal): nat
    requires state < 12
  {
    if o.extra > 0 then 8
    else if o.len == 1 then if o.dist == 0 then SHORT_REP_NEXT[state] else LITERAL_NEXT[state]
    else if o.dist < NUM_REPS then REP_NEXT[state] else MATCH_NEXT[state]
  }

  /** The repeated distances behind an entry, likewise. */
  function EntryReps(reps: seq<nat>, o: Optimal): seq<nat>
    requires |reps| == NUM_REPS
  {
    if o.dist == MARK_LIT || o.dist == 0 then reps
    else if o.dist == 1 then [reps[1], reps[0], reps[2], reps[3]]
    else if o.dist < NUM_REPS then [reps[o.dist], reps[0], reps[1], reps[if o.dist == 2 then 3 else 2]]
    else [o.dist - NUM_REPS + 1, reps[0], reps[1], reps[2]]
  }

  /** An entry's steps may be coded, and lead where the parser says they lead. */
  lemma EntryCodable(lz: Lz, data: seq<Byte>, dict: nat, o: Optimal)
    requires ValidLz(lz, data) && Compared(lz, data, dict, o)
    ensures Codable(lz, data, dict, Expand(o))
    ensures Through(lz, Expand(o)) == Lz(EntryState(lz.state, o), EntryReps(lz.reps, o), lz.pos + o.len + o.extra)
  {
    hide ValidPacket, ValidLz, Advance, EntryState, EntryReps, Reach, TrueMatch;
    if o.extra == 0 {
      OneStep(lz, data, dict, Packet(o.len, o.dist), []);
      EntryLeads(lz, data, dict, o);
    } else if o.extra == 1 {
      EntryBehindLiteral(lz, data, dict, o);
    } else {
      EntryGoesOn(lz, data, dict, o);
    }
  }

  /** One step that is an entry by itself. */
  lemma EntryLeads(lz: Lz, data: seq<Byte>, dict: nat, o: Optimal)
    requires ValidLz(lz, data) && o.extra == 0 && ValidPacket(lz, data, dict, Packet(o.len, o.dist))
    ensures Advance(lz, Packet(o.len, o.dist)) == Lz(EntryState(lz.state, o), EntryReps(lz.reps, o), lz.pos + o.len)
  {
    hide TrueMatch;
    StateTables(lz.state);
  }

  lemma EntryBehindLiteral(lz: Lz, data: seq<Byte>, dict: nat, o: Optimal)
    requires ValidLz(lz, data) && o.extra == 1 && Compared(lz, data, dict, o)
    ensures Codable(lz, data, dict, Expand(o))
    ensures Through(lz, Expand(o)) == Lz(EntryState(lz.state, o), EntryReps(lz.reps, o), lz.pos + o.len + o.extra)
  {
    var lit := Packet(1, MARK_LIT);
    LiteralThenRep(lz, data, dict, o.len);
    OneStep(Advance(lz, lit), data, dict, Packet(o.len, 0), []);
    OneStep(lz, data, dict, lit, [Packet(o.len, 0)]);
  }

  /** Behind a literal the last distance is repeated, and stays the last. */
  lemma LiteralThenRep(lz: Lz, data: seq<Byte>, dict: nat, len: nat)
    requires ValidLz(lz, data) && LEN_MIN <= len <= LEN_MAX && lz.reps[0] <= dict
    requires TrueMatch(data, lz.pos + 1, lz.reps[0], len)
    ensures var lit, mid := Packet(1, MARK_LIT), Advance(lz, Packet(1, MARK_LIT));
            && ValidPacket(lz, data, dict, lit) && ValidLz(mid, data) && ValidPacket(mid, data, dict, Packet(len, 0))
            && Advance(mid, Packet(len, 0)) == Lz(8, lz.reps, lz.pos + 1 + len)
  {
    AdvanceValid(lz, data, dict, Packet(1, MARK_LIT));
  }

  lemma EntryGoesOn(lz: Lz, data: seq<Byte>, dict: nat, o: Optimal)
    requires ValidLz(lz, data) && o.extra > 1 && Compared(lz, data, dict, o)
    ensures Codable(lz, data, dict, Expand(o))
    ensures Through(lz, Expand(o)) == Lz(EntryState(lz.state, o), EntryReps(lz.reps, o), lz.pos + o.len + o.extra)
  {
    hide ValidPacket, Advance, TrueMatch;
    var p, lit, rep := Packet(o.extra - 1, o.dist), Packet(1, MARK_LIT), Packet(o.len, 0);
    var first := Advance(lz, p);
    AdvanceValid(lz, data, dict, p);
    MatchLeads(lz, data, dict, o);
    LiteralThenRep(first, data, dict, o.len);
    OneStep(Advance(first, lit), data, dict, rep, []);
    OneStep(first, data, dict, lit, [rep]);
    OneStep(lz, data, dict, p, [lit, rep]);
  }

  /** Whichever way a match names its distance, that is the last one then. */
  lemma MatchLeads(lz: Lz, data: seq<Byte>, dict: nat, o: Optimal)
    requires ValidLz(lz, data) && o.extra > LEN_MIN && o.dist != MARK_LIT
    requires ValidPacket(lz, data, dict, Packet(o.extra - 1, o.dist))
    ensures var first := Advance(lz, Packet(o.extra - 1, o.dist));
            first.reps == EntryReps(lz.reps, o) && first.reps[0] == Reach(lz, o.dist) && first.pos == lz.pos + o.extra - 1
  {
    hide TrueMatch;
  }

  lemma OneStep(lz: Lz, data: seq<Byte>, dict: nat, p: Packet, ps: seq<Packet>)
    requires ValidLz(lz, data) && ValidPacket(lz, data, dict, p) && (ps == [] || Codable(Advance(lz, p), data, dict, ps))
    ensures Codable(lz, data, dict, [p] + ps) && Through(lz, [p] + ps) == Through(Advance(lz, p), ps)
  {
    AdvanceValid(lz, data, dict, p);
    assert ([p] + ps)[1..] == ps;
  }

  /** Every entry of the chain was compared where its steps begin. */
  ghost predicate ChainCompared(lz: Lz, data: seq<Byte>, dict: nat, opt: seq<Optimal>, cur: nat)
    requires Chain(opt, cur) && |lz.reps| == NUM_REPS
    decreases cur
  {
    cur > 0 ==>
      var prev := cur - opt[cur].len - opt[cur].extra;
      && ChainCompared(lz, data, dict, opt, prev)
      && Compared(Through(lz, Forward(opt, prev)), data, dict, opt[cur])
  }

  /** The list the backward pass leaves may be coded as it stands. */
  lemma {:induction false} ForwardCodable(lz: Lz, data: seq<Byte>, dict: nat, opt: seq<Optimal>, cur: nat)
    requires Chain(opt, cur) && ValidLz(lz, data) && ChainCompared(lz, data, dict, opt, cur)
    ensures Codable(lz, data, dict, Forward(opt, cur)) && Through(lz, Forward(opt, cur)).pos == lz.pos + cur
    decreases cur
  {
    hide ValidPacket, Compared, Advance, Expand;
    if cur > 0 {
      var prev := cur - opt[cur].len - opt[cur].extra;
      ForwardCodable(lz, data, dict, opt, prev);
      CodableEnds(lz, data, dict, Forward(opt, prev));
      EntryCodable(Through(lz, Forward(opt, prev)), data, dict, opt[cur]);
      ThroughAppend(lz, data, dict, Forward(opt, prev), Expand(opt[cur]));
    }
  }

  lemma {:induction false} CodableEnds(lz: Lz, data: seq<Byte>, dict: nat, ps: seq<Packet>)
    requires Codable(lz, data, dict, ps) && |lz.reps| == NUM_REPS
    ensures ValidLz(Through(lz, ps), data)
    decreases |ps|
  {
    if ps != [] {
      CodableEnds(Advance(lz, ps[0]), data, dict, ps[1..]);
    }
  }

  /** A list that reaches the end of the data is a parse of it. */
  lemma {:induction false} CodableParses(lz: Lz, data: seq<Byte>, dict: nat, ps: seq<Packet>)
    requires Codable(lz, data, dict, ps) && |lz.reps| == NUM_REPS && Through(lz, ps).pos == |data|
    ensures ValidParse(lz, data, dict, ps)
    decreases |ps|
  {
    if ps != [] {
      CodableParses(Advance(lz, ps[0]), data, dict, ps[1..]);
    }
  }

  /** Consecutive entries, read as steps. */
  ghost function Steps(opt: seq<Optimal>): seq<Packet> {
    if opt == [] then [] else [Packet(opt[0].len, opt[0].dist)] + Steps(opt[1..])
  }

  lemma StepsPushed(before: seq<Optimal>, after: seq<Optimal>, wr: nat, end: nat, len: nat, dist: nat)
    requires wr < end <= |before| == |after|
    requires after[wr].len == len && after[wr].dist == dist
    requires after == before[wr := after[wr]]
    ensures Steps(after[wr..end]) == [Packet(len, dist)] + Steps(before[wr + 1..end])
  {
    assert after[wr..end][1..] == before[wr + 1..end];
  }

  class Optimizer {
    const opt: array<Optimal>
    var optCur: nat
    var optEnd: nat
    var backRes: nat

    constructor (opt: array<Optimal>)
      ensures this.opt == opt
    {
      this.opt := opt;
      optCur, optEnd, backRes := 0, 0, 0;
    }

    /** Returns the first step and leaves the others, in order, at the entries
      * from `optCur` to `optEnd`. Every entry is read before the list reaches
      * it: nothing below `optCur` is touched. */
    method Backward(cur0: nat) returns (len: nat)
      requires 0 < cur0 < opt.Length && Chain(opt[..], cur0)
      modifies this, opt
      ensures 1 <= optCur <= optEnd == cur0 + 1
      ensures [Packet(len, backRes)] + Steps(opt[optCur..optEnd]) == Forward(old(opt[..]), cur0)
      ensures forall i :: 0 <= i < optCur || optEnd <= i < opt.Length ==> opt[i] == old(opt[i])
    {
      hide Forward, Steps;
      StepsEmpty();
      ForwardZero(opt[..]);
      ghost var was, end := opt[..], cur0 + 1;
      var cur := cur0;
      var wr := cur + 1;
      optEnd := wr;
      ghost var tail: seq<Packet> := [];
      assert opt[wr..end] == [];
      while true
        invariant 0 < cur < wr <= end == optEnd
        invariant Chain(was, cur)
        invariant forall i :: 0 <= i < wr || end <= i < opt.Length ==> opt[i] == was[i]
        invariant Steps(opt[wr..end]) == tail && Forward(was, cur) + tail == Forward(was, cur0)
        decreases cur
      {
        ghost var o, top := opt[cur], cur;
        var dist := opt[cur].dist;
        len := opt[cur].len;
        var extra := opt[cur].extra;
        cur := cur - len;
        if extra != 0 {
          wr := wr - 1;
          cur := cur - extra;
          if extra == 1 {
            Store(wr, len, dist, end);
            len := extra;
            dist := MARK_LIT;
          } else {
            Store(wr, len, 0, end);
            len := extra - 1;
            wr := wr - 1;
            Store(wr, 1, MARK_LIT, end);
          }
        }
        assert [Packet(len, dist)] + Steps(opt[wr..end]) == Expand(o) + tail by {
          if extra > 1 {
            assert Steps(opt[wr..end]) == [Packet(1, MARK_LIT)] + ([Packet(o.len, 0)] + tail);
          } else if extra == 1 {
            assert Steps(opt[wr..end]) == [Packet(o.len, o.dist)] + tail;
          }
        }
        ChainStep(was, top, tail);
        tail := Steps(opt[wr..end]);
        if cur == 0 {
          backRes := dist;
          optCur := wr;
          return;
        }
        wr := wr - 1;
        Store(wr, len, dist, end);
        tail := [Packet(len, dist)] + tail;
      }
    }

    /** Assigns the length and distance of one entry. */
    method Store(wr: nat, len: nat, dist: nat, ghost end: nat)
      requires wr < end <= opt.Length
      modifies opt
      ensures forall i :: 0 <= i < opt.Length && i != wr ==> opt[i] == old(opt[i])
      ensures Steps(opt[wr..end]) == [Packet(len, dist)] + old(Steps(opt[wr + 1..end]))
    {
      ghost var before := opt[..];
      opt[wr] := opt[wr].(len := len, dist := dist);
      StepsPushed(before, opt[..], wr, end, len, dist);
      assert opt[..][wr..end] == opt[wr..end] && before[wr + 1..end] == old(opt[wr + 1..end]);
    }
  }

  lemma StepsEmpty()
    ensures Steps([]) == []
  {
  }

  lemma ForwardZero(opt: seq<Optimal>)
    ensures Forward(opt, 0) == []
  {
  }

  lemma ChainStep(opt: seq<Optimal>, cur: nat, tail: seq<Packet>)
    requires Chain(opt, cur) && cur > 0
    ensures Forward(opt, cur) + tail == Forward(opt, cur - opt[cur].len - opt[cur].extra) + (Expand(opt[cur]) + tail)
  {
  }
}
