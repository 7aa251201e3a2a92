/** Runs of a room in which it does not do what one would expect: the properties
  * that fail do fail, and clients get there. Every step is an event that is
  * dispatched. */
module RoomRuns {
  import opened Options
  import opened Seats
  import opened Room

  /** No seat in front of `p` is free. */
  ghost predicate NextFree<C>(d: map<Pos, C>, p: Pos, t0: nat, t1: nat) {
    && IsSeat(p, t0, t1) && p !in d
    && (forall i: nat :: i < (if p.0 == 0 then p.1 else t0) ==> (0, i) in d)
    && (forall i: nat :: p.0 == 1 && i < p.1 ==> (1, i) in d)
  }

  lemma FirstIsNext<C>(d: map<Pos, C>, p: Pos, q: Pos, t0: nat, t1: nat)
    requires NextFree(d, p, t0, t1) && FirstFree(d, (0, 0), q, t0, t1) && t0 <= 3 && t1 <= 3
    ensures q == p && !Full(d, t0, t1)
  {
    assert IsSeat(p, t0, t1) && p !in d;
    assert p == (p.0, p.1) && q == (q.0, q.1);
  }

  /** The seats one after the other, with one in the first team. */
  lemma SeatsInTurn<C>(d: map<Pos, C>, t1: nat)
    requires t1 >= 1
    ensures d == map[] ==> NextFree(d, (0, 0), 1, t1)
    ensures d.Keys == {(0, 0)} ==> NextFree(d, (1, 0), 1, t1)
    ensures d.Keys == {(0, 0), (1, 0)} && t1 >= 2 ==> NextFree(d, (1, 1), 1, t1)
  {
  }

  lemma JoinedHere(room: Room)
    ensures room.Now().places.Keys == room.Now().ready.Keys == room.joined
    ensures forall c :: c in room.joined ==> room.Now().places[c] == c.position && room.Now().ready[c] == c.ready
  {
  }

  // -------------------------------------------------------------- single steps

  ghost function JoinedAt(v: View, c: Client, p: Pos): View
    requires v.state.Waiting?
  {
    v.(duelists := v.duelists[p := c], places := v.places[c := p], ready := v.ready[c := false],
       state := Waiting(if v.state.host == null then c else v.state.host))
  }

  lemma JoinsNext(room: Room, c: Client, p: Pos, s: View, t: View)
    requires s.state.Waiting? && room.Does(Join(c), s, t, true)
    requires NextFree(s.duelists, p, room.t0Count, room.t1Count) && room.t0Count <= 3 && room.t1Count <= 3
    ensures t == JoinedAt(s, c, p)
  {
    hide FirstFree, NextFree, Full;
    if room.TakesSeat(s.duelists, (0, 0), t, c) {
      FirstIsNext(s.duelists, p, t.places[c], room.t0Count, room.t1Count);
    } else {
      NotFull(s.duelists, p, room.t0Count, room.t1Count);
    }
  }

  lemma NotFull<C>(d: map<Pos, C>, p: Pos, t0: nat, t1: nat)
    requires NextFree(d, p, t0, t1)
    ensures !Full(d, t0, t1)
  {
  }

  /** A new client comes to the next free seat. */
  method Joins(room: Room, c: Client, ghost p: Pos)
    requires room.Valid() && room.state.Waiting? && c !in room.joined && c.position == SPECTATOR && !c.ready
    requires NextFree(room.duelists, p, room.t0Count, room.t1Count)
    modifies room, room.joined, c
    ensures room.Valid() && room.joined == old(room.joined) + {c} && room.Now() == JoinedAt(old(room.Now()), c, p)
  {
    hide *;
    Waits(room, Join(c));
    room.Dispatch(Join(c));
    SizesOK(room);
    JoinsNext(room, c, p, old(room.Now()), room.Now());
  }

  lemma SizesOK(room: Room)
    requires room.Valid()
    ensures 1 <= room.t0Count <= 3 && 1 <= room.t1Count <= 3
  {
  }

  lemma Waits(room: Room, e: Event)
    requires e.Join? ==> e.c !in room.joined && e.c.position == SPECTATOR && !e.c.ready
    requires !e.Join? ==> e.Ready? || e.TryKick? || e.TryStart? || e.ConnectionLost? || e.ChooseRPS? || e.Rematch?
    requires !e.Join? ==> e.c in room.joined
    ensures room.EventOK(e) && room.Now().state == room.state && room.Now().duelists == room.duelists
    ensures room.Now().places.Keys == room.joined && e.Subject() == {e.c}
  {
  }

  lemma ReadyNow(room: Room, c: Client, s: View, t: View)
    requires s.state.Waiting? && room.Does(Ready(c, true, true), s, t, true)
    requires c in s.places && s.places[c] != SPECTATOR
    ensures t == s.(ready := s.ready[c := true])
  {
    assert s.ready[c] ==> s.ready[c := true] == s.ready;
  }

  method GetReady(room: Room, c: Client)
    requires room.Valid() && room.state.Waiting? && c in room.joined && c.position != SPECTATOR
    modifies room, room.joined
    ensures room.Valid() && room.joined == old(room.joined)
    ensures room.Now() == old(room.Now()).(ready := old(room.Now()).ready[c := true])
  {
    hide *;
    Waits(room, Ready(c, true, true));
    PlaceIs(room, c);
    room.Dispatch(Ready(c, true, true));
    ReadyNow(room, c, old(room.Now()), room.Now());
  }

  lemma PlaceIs(room: Room, c: Client)
    requires c in room.joined
    ensures c in room.Now().places && room.Now().places[c] == c.position
  {
  }

  /** The host kicks the duelist on the other team's first seat. */
  method Kick(room: Room, h: Client)
    requires room.Valid() && room.state == Waiting(h) && h in room.joined && room.t0Count == 1
    requires (1, 0) in room.duelists && room.duelists[(1, 0)] != h
    modifies room, room.joined
    ensures room.Valid() && room.joined == old(room.joined)
    ensures room.Now() == old(room.Now()).(duelists := old(room.duelists) - {(1, 0)})
  {
    hide *;
    Waits(room, TryKick(h, 1));
    room.Dispatch(TryKick(h, 1));
    KicksOther(room, h, old(room.Now()), room.Now());
  }

  lemma KicksOther(room: Room, h: Client, s: View, t: View)
    requires s.state == Waiting(h) && room.t0Count == 1 && room.Does(TryKick(h, 1), s, t, true)
    requires (1, 0) in s.duelists && s.duelists[(1, 0)] != h
    ensures t == s.(duelists := s.duelists - {(1, 0)})
  {
  }

  /** The connection of a client that is not the host turns out to be lost. */
  method Loses(room: Room, h: Client, c: Client)
    requires room.Valid() && room.state == Waiting(h) && c in room.joined && c != h
    modifies room, room.joined
    ensures room.Valid() && room.joined == old(room.joined)
    ensures room.Now() == old(room.Now()).(duelists := old(room.duelists) - {old(c.position)}, spectators := old(room.spectators) - {c})
  {
    hide *;
    Waits(room, ConnectionLost(c));
    PlaceIs(room, c);
    SpectatorsHere(room);
    room.Dispatch(ConnectionLost(c));
    LosesSeat(room, h, c, old(room.Now()), room.Now());
  }

  lemma SpectatorsHere(room: Room)
    ensures room.Now().spectators == room.spectators
  {
  }

  lemma LosesSeat(room: Room, h: Client, c: Client, s: View, t: View)
    requires s.state == Waiting(h) && c != h && c in s.places && room.Does(ConnectionLost(c), s, t, true)
    ensures t == s.(duelists := s.duelists - {s.places[c]}, spectators := s.spectators - {c})
  {
  }

  // ------------------------------------------------------ somebody else is erased

  ghost function HostAlone(h: Client): View {
    View(map[(0, 0) := h], {}, Waiting(h), false, false, (0, 0), map[h := (0, 0)], map[h := false])
  }

  ghost function BothThere(h: Client, a: Client): View {
    View(map[(0, 0) := h, (1, 0) := a], {}, Waiting(h), false, false, (0, 0), map[h := (0, 0), a := (1, 0)], map[h := false, a := false])
  }

  /** `a` still believes to have the seat that is taken by `d`. */
  ghost function BothBelieve(h: Client, a: Client, d: Client): View {
    View(map[(0, 0) := h, (1, 0) := d], {}, Waiting(h), false, false, (0, 0),
         map[h := (0, 0), a := (1, 0), d := (1, 0)], map[h := false, a := false, d := false])
  }

  ghost function Erased(h: Client, a: Client, d: Client): View {
    BothBelieve(h, a, d).(duelists := map[(0, 0) := h])
  }

  lemma InHostAlone(room: Room, h: Client)
    requires room.Now() == HostAlone(h)
    ensures room.state == Waiting(h) && room.duelists == map[(0, 0) := h] && room.joined == {h} && room.spectators == {}
  {
    JoinedHere(room);
  }

  lemma InBothThere(room: Room, h: Client, a: Client)
    requires room.Now() == BothThere(h, a)
    ensures room.state == Waiting(h) && room.duelists == map[(0, 0) := h, (1, 0) := a] && room.joined == {h, a} && room.spectators == {}
  {
    JoinedHere(room);
  }

  lemma InBothBelieve(room: Room, h: Client, a: Client, d: Client)
    requires room.Now() == BothBelieve(h, a, d) && h != a && h != d && a != d
    ensures room.state == Waiting(h) && room.duelists == map[(0, 0) := h, (1, 0) := d] && room.joined == {h, a, d} && room.spectators == {}
    ensures h.position == (0, 0) && a.position == d.position == (1, 0)
  {
    JoinedHere(room);
    assert h in room.joined && a in room.joined && d in room.joined;
  }

  lemma InErased(room: Room, h: Client, a: Client, d: Client)
    requires room.Now() == Erased(h, a, d) && h != a && h != d && a != d
    ensures room.state == Waiting(h) && room.duelists == map[(0, 0) := h] && room.joined == {h, a, d} && room.spectators == {}
    ensures d.position == (1, 0) && !room.Seated(d)
  {
    JoinedHere(room);
    assert d in room.joined;
  }

  lemma HostCame(h: Client)
    ensures JoinedAt(View(map[], {}, Waiting(null), false, false, (0, 0), map[], map[]), h, (0, 0)) == HostAlone(h)
  {
    assert map[][(0, 0) := h] == map[(0, 0) := h];
    assert map[][h := (0, 0)] == map[h := (0, 0)];
    assert map[][h := false] == map[h := false];
  }

  lemma OtherCame(h: Client, a: Client)
    requires h != a
    ensures HostAlone(h).state.Waiting? && JoinedAt(HostAlone(h), a, (1, 0)) == BothThere(h, a)
  {
    assert map[(0, 0) := h][(1, 0) := a] == map[(0, 0) := h, (1, 0) := a];
    assert map[h := (0, 0)][a := (1, 0)] == map[h := (0, 0), a := (1, 0)];
    assert map[h := false][a := false] == map[h := false, a := false];
  }

  /** The other's seat is free again, and taken by a third. */
  lemma ThirdCame(h: Client, a: Client, d: Client, v: View)
    requires h != a && h != d && a != d
    requires v == BothThere(h, a).(duelists := map[(0, 0) := h, (1, 0) := a] - {(1, 0)})
    ensures v.duelists == map[(0, 0) := h] && v.state == Waiting(h) && v.places.Keys == {h, a}
    ensures JoinedAt(v, d, (1, 0)) == BothBelieve(h, a, d)
  {
    assert map[(0, 0) := h][(1, 0) := d] == map[(0, 0) := h, (1, 0) := d];
    assert map[h := (0, 0), a := (1, 0)][d := (1, 0)] == map[h := (0, 0), a := (1, 0), d := (1, 0)];
    assert map[h := false, a := false][d := false] == map[h := false, a := false, d := false];
  }

  lemma ThirdErased(h: Client, a: Client, d: Client)
    ensures BothBelieve(h, a, d).(duelists := map[(0, 0) := h, (1, 0) := d] - {(1, 0)}, spectators := {} - {a}) == Erased(h, a, d)
  {
    assert map[(0, 0) := h, (1, 0) := d] - {(1, 0)} == map[(0, 0) := h];
  }

  /** A room of two: the host has joined. */
  method RoomOfTwo() returns (room: Room, h: Client)
    ensures fresh(room) && fresh(h) && fresh(room.joined)
    ensures room.Valid() && room.t0Count == room.t1Count == 1 && !room.relay && room.bestOf == 1
    ensures room.Now() == HostAlone(h)
  {
    hide *;
    room := new Room(1, 1, false, 1);
    h := new Client();
    EmptyRoom(room);
    SeatsInTurn(room.duelists, 1);
    HostCame(h);
    Joins(room, h, (0, 0));
  }

  lemma EmptyRoom(room: Room)
    requires room.Now() == View(map[], {}, Waiting(null), false, false, (0, 0), map[], map[])
    ensures room.state == Waiting(null) && room.duelists == map[] && room.joined == {}
  {
    JoinedHere(room);
  }

  /** Somebody joins, and is kicked. */
  method KickedOut(room: Room, h: Client) returns (a: Client)
    requires room.Valid() && room.t0Count == room.t1Count == 1 && room.Now() == HostAlone(h)
    modifies room, room.joined
    ensures fresh(a) && room.Valid() && room.joined == old(room.joined) + {a} && h != a
    ensures room.Now() == BothThere(h, a).(duelists := map[(0, 0) := h, (1, 0) := a] - {(1, 0)})
  {
    hide *;
    InHostAlone(room, h);
    a := new Client();
    SeatsInTurn(room.duelists, 1);
    OtherCame(h, a);
    Joins(room, a, (1, 0));
    InBothThere(room, h, a);
    Kick(room, h);
  }

  /** The host kicks `a`, and `d` joins into the freed seat. When the connection
    * of `a` is noticed to be gone, it is `d` who is erased: `d` is still
    * connected and believes to have a seat, but has none. */
  method SomebodyElseIsErased() returns (room: Room, h: Client, a: Client, d: Client)
    ensures fresh(room) && fresh(h) && fresh(a) && fresh(d) && fresh(room.joined) && h != d && a != h && a != d
    ensures room.Valid() && room.t0Count == room.t1Count == 1 && !room.relay && room.bestOf == 1 && room.joined == {h, a, d}
    ensures room.Now() == Erased(h, a, d)
    ensures d.position == (1, 0) && !room.Seated(d) && d !in room.spectators
  {
    hide *;
    room, h := RoomOfTwo();
    a := KickedOut(room, h);
    d := new Client();
    TakesItsPlace(room, h, a, d);
    InBothBelieve(room, h, a, d);
    Loses(room, h, a);
    ThirdErased(h, a, d);
    InErased(room, h, a, d);
  }

  method TakesItsPlace(room: Room, h: Client, a: Client, d: Client)
    requires room.Valid() && room.t0Count == room.t1Count == 1 && h != d && a != h && a != d
    requires room.Now() == BothThere(h, a).(duelists := map[(0, 0) := h, (1, 0) := a] - {(1, 0)})
    requires d !in room.joined && d.position == SPECTATOR && !d.ready
    modifies room, room.joined, d
    ensures room.Valid() && room.joined == old(room.joined) + {d} && room.Now() == BothBelieve(h, a, d)
  {
    hide *;
    ThirdCame(h, a, d, room.Now());
    Fields(room);
    SeatsInTurn(room.duelists, 1);
    Joins(room, d, (1, 0));
  }

  /** What the view says of the room. */
  lemma Fields(room: Room)
    ensures room.Now().state == room.state && room.Now().duelists == room.duelists && room.Now().spectators == room.spectators
  {
  }

  // ------------------------------------------------------------ into a duel

  /** Everybody in the seats is where the seats say. */
  ghost predicate SeatsMatch(room: Room, v: View) {
    && OnSeats(v.duelists, room.t0Count, room.t1Count)
    && forall p :: p in v.duelists ==> v.duelists[p] in v.places && v.places[v.duelists[p]] == p
  }

  lemma SeatsDoMatch(room: Room)
    requires room.Valid()
    ensures SeatsMatch(room, room.Now())
  {
  }

  /** Both teams already sit on their first places, and nobody else is around. */
  ghost predicate Settled(room: Room, v: View) {
    && (exists n0: nat, n1: nat :: n0 <= room.t0Count && n1 <= room.t1Count && Tight(v.duelists, 0, n0) && Tight(v.duelists, 1, n1))
    && v.places.Keys == v.duelists.Values
  }

  lemma TightTeamSame<C>(d: map<Pos, C>, e: map<Pos, C>, t: nat, n: nat, m: nat, k: nat)
    requires Tight(d, t, n) && Tight(e, t, m) && n <= k && m <= k && TeamSeq(d, t, k) == TeamSeq(e, t, k)
    ensures n == m && forall i: nat :: i < n ==> d[(t, i)] == e[(t, i)]
  {
    TeamSeqPrefix(d, t, n, k);
    TeamSeqPrefix(e, t, m, k);
    forall i: nat | i < n ensures d[(t, i)] == e[(t, i)] {
      assert TeamSeq(d, t, k)[i] == TeamSeq(e, t, k)[i];
    }
  }

  /** Teams that sit on their first places and keep their order keep their seats. */
  lemma SameSeats<C>(d: map<Pos, C>, e: map<Pos, C>, n0: nat, n1: nat, m0: nat, m1: nat, t0: nat, t1: nat)
    requires OnSeats(d, t0, t1) && OnSeats(e, t0, t1) && n0 <= t0 && n1 <= t1 && m0 <= t0 && m1 <= t1
    requires Tight(d, 0, n0) && Tight(d, 1, n1) && Tight(e, 0, m0) && Tight(e, 1, m1)
    requires TeamSeq(d, 0, t0) == TeamSeq(e, 0, t0) && TeamSeq(d, 1, t1) == TeamSeq(e, 1, t1)
    ensures d == e
  {
    TightTeamSame(d, e, 0, n0, m0, t0);
    TightTeamSame(d, e, 1, n1, m1, t1);
    forall p | p in d ensures p in e && d[p] == e[p] {
      assert p == (p.0, p.1);
    }
    forall p | p in e ensures p in d {
      assert p == (p.0, p.1);
    }
  }

  lemma BeginsNow(room: Room, h: Client, s: View, t: View)
    requires s.state.Waiting? && room.MayStart(h, s) && room.Does(TryStart(h), s, t, true)
    requires room.relay ==> Settled(room, s) && SeatsMatch(room, s) && SeatsMatch(room, t) && t.places.Keys == s.places.Keys
    ensures t == s.(state := RockPaperScissor((0, 0)), started := true)
  {
    hide Tight, TeamSeq, Full;
    if room.relay {
      var d, e := s.duelists, t.duelists;
      var n0: nat, n1: nat :| n0 <= room.t0Count && n1 <= room.t1Count && Tight(d, 0, n0) && Tight(d, 1, n1);
      SameSeats(d, e, n0, n1, |TeamSeq(d, 0, room.t0Count)|, |TeamSeq(d, 1, room.t1Count)|, room.t0Count, room.t1Count);
      assert t.places == s.places;
    }
  }

  /** The host starts, and the host's hand wins. */
  method HostMayChoose(room: Room, h: Client, o: Client)
    requires room.Valid() && room.state.Waiting? && {h, o} <= room.joined && room.MayStart(h, room.Now())
    requires room.relay ==> Settled(room, room.Now())
    requires room.Now().places[h] == (0, 0) && room.Now().places[o] == (1, 0)
    requires (0, 0) in room.duelists && (1, 0) in room.duelists && room.duelists[(0, 0)] == h
    modifies room, room.joined
    ensures room.Valid() && room.joined == old(room.joined)
    ensures room.Now() == old(room.Now()).(state := ChoosingTurn(h), started := true)
  {
    hide *;
    ghost var v := room.Now();
    Waits(room, TryStart(h));
    SeatsDoMatch(room);
    room.Dispatch(TryStart(h));
    SeatsDoMatch(room);
    JoinedHere(room);
    BeginsNow(room, h, v, room.Now());
    ghost var w := room.Now();
    Waits(room, ChooseRPS(h, ROCK));
    room.Dispatch(ChooseRPS(h, ROCK));
    ghost var x := room.Now();
    Waits(room, ChooseRPS(o, SCISSOR));
    room.Dispatch(ChooseRPS(o, SCISSOR));
    HostsHandWins(room, h, o, w, x, room.Now());
  }

  lemma HostsHandWins(room: Room, h: Client, o: Client, w: View, x: View, y: View)
    requires w.state == RockPaperScissor((0, 0)) && room.Does(ChooseRPS(h, ROCK), w, x, true) && room.Does(ChooseRPS(o, SCISSOR), x, y, true)
    requires h in w.places && o in w.places && w.places[h] == (0, 0) && w.places[o] == (1, 0)
    requires (0, 0) in w.duelists && (1, 0) in w.duelists && w.duelists[(0, 0)] == h
    ensures y == w.(state := ChoosingTurn(h))
  {
    assert x == w.(state := RockPaperScissor((ROCK, 0)));
  }

  /** The host goes first, and the duel gets under way. */
  method HostGoesFirst(room: Room, h: Client, run: CoreRun)
    requires room.Valid() && room.state == ChoosingTurn(h) && h in room.joined && RunOK(run, false)
    modifies room, room.joined
    ensures room.Valid() && room.joined == old(room.joined)
    ensures room.Does(ChooseTurn(h, true, run), old(room.Now()), room.Now(), true)
  {
    hide *;
    Chooses(room, h, run);
    room.Dispatch(ChooseTurn(h, true, run));
  }

  lemma Chooses(room: Room, h: Client, run: CoreRun)
    requires h in room.joined && RunOK(run, false)
    ensures room.EventOK(ChooseTurn(h, true, run)) && ChooseTurn(h, true, run).Subject() == {h}
  {
  }

  // ------------------------------------------------- a quorum without everyone

  /** The room above, with somebody else, `e`, on the seat. */
  ghost function Replaced(h: Client, a: Client, d: Client, e: Client): View {
    View(map[(0, 0) := h, (1, 0) := e], {}, Waiting(h), false, false, (0, 0),
         map[h := (0, 0), a := (1, 0), d := (1, 0), e := (1, 0)], map[h := true, a := false, d := false, e := true])
  }

  lemma ReplacedView(h: Client, a: Client, d: Client, e: Client)
    requires h != a && h != d && a != d && e !in {h, a, d}
    ensures Erased(h, a, d).state == Waiting(h) && Erased(h, a, d).duelists == map[(0, 0) := h]
    ensures var v := JoinedAt(Erased(h, a, d), e, (1, 0));
            v.state == Waiting(h) && v.places == map[h := (0, 0), a := (1, 0), d := (1, 0), e := (1, 0)]
    ensures var v := JoinedAt(Erased(h, a, d), e, (1, 0));
            var w := v.(ready := v.ready[h := true]);
            w.(ready := w.ready[e := true]) == Replaced(h, a, d, e)
  {
    assert map[(0, 0) := h][(1, 0) := e] == map[(0, 0) := h, (1, 0) := e];
    assert map[h := (0, 0), a := (1, 0), d := (1, 0)][e := (1, 0)] == map[h := (0, 0), a := (1, 0), d := (1, 0), e := (1, 0)];
    assert map[h := false, a := false, d := false][e := false][h := true][e := true]
        == map[h := true, a := false, d := false, e := true];
  }

  lemma InReplaced(room: Room, h: Client, a: Client, d: Client, e: Client)
    requires h != a && h != d && a != d && e !in {h, a, d}
    requires room.t0Count == room.t1Count == 1 && !room.relay
    requires room.Now() == Replaced(h, a, d, e)
    ensures room.state.Waiting? && {h, d, e} <= room.joined && room.MayStart(h, room.Now())
    ensures room.Now().places[h] == (0, 0) && room.Now().places[e] == (1, 0)
    ensures room.duelists == room.Now().duelists == map[(0, 0) := h, (1, 0) := e] && room.duelists[(0, 0)] == h
  {
    JoinedHere(room);
  }

  method ErasedAndReplaced() returns (room: Room, h: Client, a: Client, d: Client, e: Client)
    ensures fresh(room) && fresh(h) && fresh(d) && fresh(e) && fresh(room.joined) && h != d && a != h && a != d && e !in {h, a, d}
    ensures room.Valid() && room.t0Count == room.t1Count == 1 && !room.relay && room.bestOf == 1
    ensures room.Now() == Replaced(h, a, d, e)
  {
    hide *;
    room, h, a, d := SomebodyElseIsErased();
    e := new Client();
    InErased(room, h, a, d);
    SeatsInTurn(room.duelists, 1);
    ReplacedView(h, a, d, e);
    Joins(room, e, (1, 0));
    Fields(room);
    JoinedHere(room);
    InMap(h, a, d, e, room.Now().places);
    BothGetReady(room, h, e);
  }

  lemma InMap(h: Client, a: Client, d: Client, e: Client, places: map<Client, Pos>)
    requires h != a && h != d && a != d && e !in {h, a, d}
    requires places == map[h := (0, 0), a := (1, 0), d := (1, 0), e := (1, 0)]
    ensures {h, e} <= places.Keys && places[h] == (0, 0) && places[e] == (1, 0) && SPECTATOR !in {(0, 0), (1, 0)}
  {
  }

  method BothGetReady(room: Room, h: Client, o: Client)
    requires room.Valid() && room.state == Waiting(h) && {h, o} <= room.joined
    requires room.Now().places.Keys >= {h, o} && room.Now().places[h] != SPECTATOR && room.Now().places[o] != SPECTATOR
    modifies room, room.joined
    ensures room.Valid() && room.joined == old(room.joined)
    ensures var v := old(room.Now());
            var w := v.(ready := v.ready[h := true]);
            room.Now() == w.(ready := w.ready[o := true])
  {
    hide *;
    JoinedHere(room);
    Fields(room);
    GetReady(room, h);
    JoinedHere(room);
    Fields(room);
    GetReady(room, o);
  }

  /** A single duel won by the host: everybody is asked for another, and `e`, who
    * lost, is to decide. */
  lemma WonAtOnce(room: Room, h: Client, e: Client, run: CoreRun, s: View, t: View)
    requires room.bestOf == 1 && !room.relay && run == CoreRun([Win(0)], false)
    requires s.state == ChoosingTurn(h) && h in s.places && s.places[h] == (0, 0) && s.duelists == map[(0, 0) := h, (1, 0) := e]
    requires room.Does(ChooseTurn(h, true, run), s, t, true)
    ensures t == s.(team1First := false, state := Rematching(e, {}))
  {
    var table := Table(room.t0Count, room.t1Count, s.duelists.Keys, false);
    var turns := Turns((0, room.t1Count - 1), None, (0, 0), false);
    assert table.Run(turns, run.msgs[..0]) == Running(turns);
    assert table.Run(turns, run.msgs) == table.Step(turns, Win(0)) == Over(turns, Finish(DuelWon, 0));
  }

  lemma OneConsents(room: Room, e: Client, d: Client, s: View, t: View)
    requires s.state == Rematching(e, {}) && d in s.places && s.places[d] != SPECTATOR && |s.duelists| == 2
    requires room.Does(Rematch(d, true), s, t, true)
    ensures t == s.(state := Rematching(e, {d}))
  {
    assert |{d}| == 1;
  }

  lemma TwoConsent(room: Room, e: Client, d: Client, h: Client, s: View, t: View)
    requires s.state == Rematching(e, {d}) && d != h && h in s.places && s.places[h] != SPECTATOR && |s.duelists| == 2
    requires room.Does(Rematch(h, true), s, t, true)
    ensures t == s.(state := ChoosingTurn(e))
  {
    assert {d} + {h} == {d, h} && |{d, h}| == 2;
  }

  method ErasedInRematch() returns (room: Room, h: Client, d: Client, e: Client)
    ensures fresh(room) && fresh(h) && fresh(d) && fresh(e) && fresh(room.joined) && h != d && e !in {h, d}
    ensures room.Valid() && {h, d, e} <= room.joined && room.Now().places.Keys == room.joined
    ensures room.Now().state == Rematching(e, {}) && room.Now().duelists == map[(0, 0) := h, (1, 0) := e]
    ensures room.Now().places[h] == (0, 0) && room.Now().places[d] == (1, 0)
  {
    hide *;
    var a;
    room, h, a, d, e := ErasedAndReplaced();
    InReplaced(room, h, a, d, e);
    JoinedHere(room);
    OthersPlace(h, a, d, e);
    HostMayChoose(room, h, e);
    Fields(room);
    JoinedHere(room);
    ghost var v := room.Now();
    var run := CoreRun([Win(0)], false);
    WinIsRun(run);
    HostGoesFirst(room, h, run);
    WonAtOnce(room, h, e, run, v, room.Now());
  }

  lemma OthersPlace(h: Client, a: Client, d: Client, e: Client)
    requires h != a && h != d && a != d && e !in {h, a, d}
    ensures d in Replaced(h, a, d, e).places && Replaced(h, a, d, e).places[d] == (1, 0)
  {
  }

  lemma WinIsRun(run: CoreRun)
    requires run == CoreRun([Win(0)], false)
    ensures RunOK(run, false)
  {
  }

  /** The erased client answers for somebody else: with the host's consent, `last`,
    * the next duel starts, though `e`, who has a seat, was never heard. */
  method QuorumWithoutEveryone() returns (room: Room, h: Client, d: Client, e: Client, ghost before: View)
    ensures room.Valid() && h != d && e !in {h, d}
    ensures before.state == Rematching(e, {d}) && e in before.duelists.Values && d !in before.duelists.Values
    ensures room.Does(Rematch(h, true), before, room.Now(), true) && room.state == ChoosingTurn(e)
    ensures room.Seated(e)
  {
    hide *;
    room, h, d, e := ErasedInRematch();
    ghost var v := room.Now();
    TwoSeats(v.duelists, h, e);
    Waits(room, Rematch(d, true));
    room.Dispatch(Rematch(d, true));
    OneConsents(room, e, d, v, room.Now());
    before := room.Now();
    Waits(room, Rematch(h, true));
    room.Dispatch(Rematch(h, true));
    TwoConsent(room, e, d, h, before, room.Now());
    Fields(room);
    SeatedThere(room, (1, 0));
  }

  lemma TwoSeats(d: map<Pos, Client>, h: Client, e: Client)
    requires d == map[(0, 0) := h, (1, 0) := e]
    ensures |d| == 2 && d.Values == {h, e}
    ensures SPECTATOR !in {(0, 0), (1, 0)}
  {
    assert d.Keys == {(0, 0), (1, 0)} && |d| == |d.Keys|;
    assert d[(0, 0)] == h && d[(1, 0)] == e;
  }

  lemma SeatedThere(room: Room, p: Pos)
    requires room.Valid() && p in room.duelists
    ensures room.duelists[p].position == p && room.duelists[p] in room.joined && room.Seated(room.duelists[p])
  {
  }

  // ------------------------------------------------- two teams of one and more

  ghost function BothReady(h: Client, a: Client): View {
    BothThere(h, a).(ready := map[h := true, a := true])
  }

  lemma InBothReady(room: Room, h: Client, a: Client)
    requires room.Now() == BothReady(h, a) && h != a
    ensures room.state == Waiting(h) && room.duelists == map[(0, 0) := h, (1, 0) := a] && room.joined == {h, a}
    ensures room.Now().duelists == room.duelists && room.Now().places[h] == (0, 0) && room.Now().places[a] == (1, 0)
  {
    JoinedHere(room);
  }

  lemma ReadyView(h: Client, a: Client)
    requires h != a
    ensures BothThere(h, a).state == Waiting(h) && BothThere(h, a).places.Keys == {h, a}
    ensures BothThere(h, a).places[h] == (0, 0) && BothThere(h, a).places[a] == (1, 0) && SPECTATOR !in {(0, 0), (1, 0)}
    ensures var w := BothThere(h, a).(ready := BothThere(h, a).ready[h := true]);
            w.(ready := w.ready[a := true]) == BothReady(h, a)
  {
    assert map[h := false, a := false][h := true][a := true] == map[h := true, a := true];
  }

  method TwoTeams(t1Count: nat, relay: bool) returns (room: Room, h: Client, a: Client)
    requires 1 <= t1Count <= 3
    ensures fresh(room) && fresh(h) && fresh(a) && fresh(room.joined) && h != a
    ensures room.Valid() && room.t0Count == 1 && room.t1Count == t1Count && room.relay == relay && room.bestOf == 1
    ensures room.Now() == BothReady(h, a)
  {
    hide *;
    room := new Room(1, t1Count, relay, 1);
    h := new Client();
    a := new Client();
    EmptyRoom(room);
    SeatsInTurn(room.duelists, t1Count);
    HostCame(h);
    Joins(room, h, (0, 0));
    InHostAlone(room, h);
    SeatsInTurn(room.duelists, t1Count);
    OtherCame(h, a);
    Joins(room, a, (1, 0));
    InBothThere(room, h, a);
    ReadyView(h, a);
    BothGetReady(room, h, a);
  }

  // ---------------------------------------------------- a relay asks nobody

  lemma RelayMayStart(room: Room, h: Client, a: Client)
    requires room.Now() == BothReady(h, a) && h != a && room.relay && room.t0Count == 1 && room.t1Count == 2
    ensures room.MayStart(h, room.Now()) && Settled(room, room.Now())
  {
    var d := room.Now().duelists;
    assert Tight(d, 0, 1) && Tight(d, 1, 1);
    assert d[(0, 0)] == h && d[(1, 0)] == a;
    InTeamSeq(d, 0, 0, 1);
    InTeamSeq(d, 1, 0, 2);
  }

  /** After the swap it is the turn of an empty place. */
  lemma SwapLosesTurn(room: Room, h: Client, a: Client, run: CoreRun, s: View, t: View)
    requires room.relay && room.t0Count == 1 && room.t1Count == 2 && run == CoreRun([TagSwap(1), ForDuelist(1, true)], false)
    requires s.state == ChoosingTurn(h) && h in s.places && s.places[h] == (0, 0) && s.duelists == map[(0, 0) := h, (1, 0) := a]
    requires room.Does(ChooseTurn(h, true, run), s, t, true)
    ensures t == s.(team1First := false, state := Broken)
  {
    var table := Table(1, 2, s.duelists.Keys, false);
    var turns := Turns((0, 0), None, (0, 0), false);
    assert run.msgs[..2] == run.msgs && run.msgs[..1] == [TagSwap(1)] && run.msgs[..1][..0] == [];
    assert table.Run(turns, run.msgs[..1][..0]) == Running(turns);
    assert table.Run(turns, run.msgs[..1]) == table.Step(turns, TagSwap(1)) == Running(turns.(pos := (0, 1)));
    assert table.Run(turns, run.msgs) == table.Step(turns.(pos := (0, 1)), ForDuelist(1, true)) == Lost;
  }

  lemma SwapIsRun(run: CoreRun)
    requires run == CoreRun([TagSwap(1), ForDuelist(1, true)], false)
    ensures RunOK(run, false)
  {
  }

  /** A relay with one duelist where two could sit: after one tag swap the core's
    * next question goes to nobody. */
  method RelayAsksNobody() returns (room: Room)
    ensures room.Valid() && room.state.Broken?
  {
    hide *;
    var h, a;
    room, h, a := TwoTeams(2, true);
    InBothReady(room, h, a);
    RelayMayStart(room, h, a);
    FirstPlaces(h, a);
    HostMayChoose(room, h, a);
    Fields(room);
    JoinedHere(room);
    ghost var v := room.Now();
    var run := CoreRun([TagSwap(1), ForDuelist(1, true)], false);
    SwapIsRun(run);
    HostGoesFirst(room, h, run);
    SwapLosesTurn(room, h, a, run, v, room.Now());
    Fields(room);
    IsBroken(room.state);
  }

  lemma FirstPlaces(h: Client, a: Client)
    ensures var d := map[(0, 0) := h, (1, 0) := a]; (0, 0) in d && (1, 0) in d && d[(0, 0)] == h
  {
  }

  lemma IsBroken(s: State)
    requires s == Broken
    ensures s.Broken?
  {
  }

  // ------------------------------------------- replays under somebody else's name

  ghost function ThreeReady(h: Client, a: Client, d: Client): View {
    View(map[(0, 0) := h, (1, 0) := a, (1, 1) := d], {}, Waiting(h), false, false, (0, 0),
         map[h := (0, 0), a := (1, 0), d := (1, 1)], map[h := true, a := true, d := true])
  }

  lemma ThirdReady(h: Client, a: Client, d: Client)
    requires h != a && d !in {h, a}
    ensures BothReady(h, a).state == Waiting(h)
    ensures var v := JoinedAt(BothReady(h, a), d, (1, 1));
            v.state == Waiting(h) && d in v.places && v.places[d] == (1, 1) != SPECTATOR
    ensures var v := JoinedAt(BothReady(h, a), d, (1, 1)); v.(ready := v.ready[d := true]) == ThreeReady(h, a, d)
  {
    assert map[(0, 0) := h, (1, 0) := a][(1, 1) := d] == map[(0, 0) := h, (1, 0) := a, (1, 1) := d];
    assert map[h := (0, 0), a := (1, 0)][d := (1, 1)] == map[h := (0, 0), a := (1, 0), d := (1, 1)];
    assert map[h := true, a := true][d := false][d := true] == map[h := true, a := true, d := true];
  }

  lemma InThreeReady(room: Room, h: Client, a: Client, d: Client)
    requires room.Now() == ThreeReady(h, a, d) && h != a && d !in {h, a} && !room.relay && room.t0Count == 1 && room.t1Count == 2
    ensures room.state.Waiting? && {h, a, d} <= room.joined && room.MayStart(h, room.Now())
    ensures room.Now().places[h] == (0, 0) && room.Now().places[a] == (1, 0)
    ensures room.duelists == room.Now().duelists == map[(0, 0) := h, (1, 0) := a, (1, 1) := d]
    ensures (0, 0) in room.duelists && (1, 0) in room.duelists && room.duelists[(0, 0)] == h
  {
    JoinedHere(room);
  }

  lemma DuelBegins(room: Room, h: Client, run: CoreRun, s: View, t: View)
    requires !room.relay && room.t0Count == 1 && room.t1Count == 2 && run == CoreRun([], false)
    requires s.state == ChoosingTurn(h) && h in s.places && s.places[h] == (0, 0)
    requires room.Does(ChooseTurn(h, true, run), s, t, true)
    ensures t == s.(team1First := false, state := Dueling((0, 1), null, (0, 0), false))
  {
  }

  /** A team of two that goes second: the replay files the deck of one under the
    * name of the other. */
  method ReplayNamesSwapped() returns (room: Room)
    ensures room.Valid() && room.state.Dueling? && !room.relay
    ensures (1, 0) in room.duelists && (1, room.CoreIndex(1, 0)) in room.duelists
    ensures room.duelists[(1, room.CoreIndex(1, 0))] != room.duelists[(1, 0)]
  {
    hide *;
    var h, a, d;
    room, h, a, d := ThreeThere();
    InThreeReady(room, h, a, d);
    HostMayChoose(room, h, a);
    Fields(room);
    JoinedHere(room);
    ghost var v := room.Now();
    var run := CoreRun([], false);
    SilenceIsRun(run);
    HostGoesFirst(room, h, run);
    DuelBegins(room, h, run, v, room.Now());
    Fields(room);
    SecondStartsLast(room);
    room.ReplayNames(1, 0);
  }

  method ThreeThere() returns (room: Room, h: Client, a: Client, d: Client)
    ensures fresh(room) && fresh(h) && fresh(a) && fresh(d) && fresh(room.joined) && h != a && d !in {h, a}
    ensures room.Valid() && room.t0Count == 1 && room.t1Count == 2 && !room.relay && room.Now() == ThreeReady(h, a, d)
  {
    hide *;
    room, h, a := TwoTeams(2, false);
    d := new Client();
    InBothReady(room, h, a);
    SeatsInTurn(room.duelists, 2);
    ThirdReady(h, a, d);
    Joins(room, d, (1, 1));
    Fields(room);
    JoinedHere(room);
    GetReady(room, d);
  }

  lemma SilenceIsRun(run: CoreRun)
    requires run == CoreRun([], false)
    ensures RunOK(run, false)
  {
  }

  lemma SecondStartsLast(room: Room)
    requires room.Valid() && room.state == Dueling((0, 1), null, (0, 0), false) && !room.relay && room.t0Count == 1 && room.t1Count == 2
    requires !room.Now().team1First
    ensures room.state.Dueling? && At(room.start, 1) != 0 && 0 < room.Count(1)
  {
  }
}
