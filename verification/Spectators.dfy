/** Who receives what during a duel (Dueling.cpp), and the cache from which a
  * late spectator catches up. */
module Spectators {
  import opened Options
  import opened Words
  import opened Messages
  import opened Seats
  import Room
  import Strip
  import ByteIO
  import QueryCodec
  import QueryViews
  import QueryIO
  import opened QueryRequests

  /** What is sent to a client. A waiting notice is a game message of the room's
    * own making, told apart here from those of the core. */
  datatype Stoc = Game(bytes: seq<Byte>) | WaitingNotice | TimeLimit(team: nat, ticks: nat) | CatchUp(on: bool) | Notice

  class Client {
    var inbox: seq<Stoc>

    /** How much it had received when the duel began, or when it joined. */
    ghost var mark: nat

    constructor ()
      ensures inbox == [] && mark == 0
    {
      inbox, mark := [], 0;
    }

    method Send(msg: Stoc)
      modifies this`inbox
      ensures inbox == old(inbox) + [msg]
    {
      inbox := inbox + [msg];
    }
  }

  function GamesOf(s: seq<Stoc>): seq<Stoc> {
    if s == [] then [] else (if s[0].Game? then [s[0]] else []) + GamesOf(s[1..])
  }

  lemma GamesUnfold(s: seq<Stoc>)
    ensures GamesOf(s) == if s == [] then [] else (if s[0].Game? then [s[0]] else []) + GamesOf(s[1..])
  {
  }

  lemma {:induction false} GamesAppend(s: seq<Stoc>, t: seq<Stoc>)
    ensures GamesOf(s + t) == GamesOf(s) + GamesOf(t)
    decreases |s|
  {
    hide *;
    GamesUnfold(s);
    if s == [] {
      assert s + t == t;
    } else {
      GamesUnfold(s + t);
      assert (s + t)[0] == s[0] && (s + t)[1..] == s[1..] + t;
      GamesAppend(s[1..], t);
    }
  }

  ghost predicate AllGames(s: seq<Stoc>) {
    forall i :: 0 <= i < |s| ==> s[i].Game?
  }

  lemma {:induction false} GamesOfGames(s: seq<Stoc>)
    requires AllGames(s)
    ensures GamesOf(s) == s
    decreases |s|
  {
    if s != [] {
      GamesOfGames(s[1..]);
    }
  }

  lemma {:induction false} NoGames(s: seq<Stoc>)
    requires forall i :: 0 <= i < |s| ==> !s[i].Game?
    ensures GamesOf(s) == []
    decreases |s|
  {
    if s != [] {
      NoGames(s[1..]);
    }
  }

  class Duel {
    var duelists: map<Pos, Client>
    var spectators: set<Client>
    var spectatorCache: seq<Stoc>
    var isTeam1GoingFirst: bool
    var currentPos: (nat, nat)

    /** Nobody sits twice, and nobody sits and watches. */
    ghost predicate Apart()
      reads this`duelists, this`spectators
    {
      && (forall p, q :: p in duelists && q in duelists && duelists[p] == duelists[q] ==> p == q)
      && duelists.Values !! spectators
    }

    /** The game messages a spectator received since its mark. */
    ghost function Seen(c: Client): seq<Stoc>
      reads c
    {
      if c.mark <= |c.inbox| then GamesOf(c.inbox[c.mark..]) else []
    }

    /** Every spectator has seen what is in the cache, in that order. */
    ghost predicate Valid()
      reads this, spectators
    {
      && Apart() && AllGames(spectatorCache)
      && forall c :: c in spectators ==> c.mark <= |c.inbox| && Seen(c) == spectatorCache
    }

    // ------------------------------------------------------------------ sending

    method SendToTeam(team: nat, msg: Stoc)
      requires Apart()
      modifies duelists.Values`inbox
      ensures forall p :: p in duelists ==> duelists[p].inbox == old(duelists[p].inbox) + (if p.0 == team then [msg] else [])
    {
      var rest := duelists.Keys;
      while rest != {}
        invariant rest <= duelists.Keys
        invariant forall p :: p in duelists ==>
                    duelists[p].inbox == old(duelists[p].inbox) + (if p.0 == team && p !in rest then [msg] else [])
        decreases |rest|
      {
        var kv :| kv in rest;
        rest := rest - {kv};
        if kv.0 == team {
          duelists[kv].Send(msg);
        }
      }
    }

    method SendToSpectators(msg: Stoc)
      modifies spectators`inbox
      ensures forall c :: c in spectators ==> c.inbox == old(c.inbox) + [msg]
    {
      var rest := spectators;
      while rest != {}
        invariant rest <= spectators
        invariant forall c :: c in spectators ==> c.inbox == old(c.inbox) + (if c in rest then [] else [msg])
        decreases |rest|
      {
        var c :| c in rest;
        rest := rest - {c};
        c.Send(msg);
      }
    }

    method SendToDuelistsExcept(client: Client?, msg: Stoc)
      requires Apart()
      modifies duelists.Values`inbox
      ensures forall p :: p in duelists ==>
                duelists[p].inbox == old(duelists[p].inbox) + (if duelists[p] == client then [] else [msg])
    {
      var rest := duelists.Keys;
      while rest != {}
        invariant rest <= duelists.Keys
        invariant forall p :: p in duelists ==>
                    duelists[p].inbox == old(duelists[p].inbox) + (if duelists[p] == client || p in rest then [] else [msg])
        decreases |rest|
      {
        var kv :| kv in rest;
        rest := rest - {kv};
        if duelists[kv] != client {
          duelists[kv].Send(msg);
        }
      }
    }

    method SendToAllExcept(client: Client?, msg: Stoc)
      requires Apart()
      modifies duelists.Values`inbox, spectators`inbox
      ensures forall p :: p in duelists ==>
                duelists[p].inbox == old(duelists[p].inbox) + (if duelists[p] == client then [] else [msg])
      ensures forall c :: c in spectators ==> c.inbox == old(c.inbox) + [msg]
    {
      SendToDuelistsExcept(client, msg);
      SendToSpectators(msg);
    }

    /** Saves a message and sends it to the spectators. */
    method ToSpectators(msg: Stoc)
      requires Valid() && msg.Game?
      modifies this`spectatorCache, spectators`inbox
      ensures Valid() && spectatorCache == old(spectatorCache) + [msg]
      ensures forall c :: c in spectators ==> c.inbox == old(c.inbox) + [msg]
    {
      spectatorCache := spectatorCache + [msg];
      SendToSpectators(msg);
      forall c | c in spectators ensures Seen(c) == spectatorCache {
        SeenGrows(c, msg, old(c.inbox));
        assert old(Seen(c)) == old(spectatorCache);
      }
    }

    lemma SeenGrows(c: Client, msg: Stoc, before: seq<Stoc>)
      requires c.mark <= |before| && c.inbox == before + [msg]
      ensures Seen(c) == GamesOf(before[c.mark..]) + (if msg.Game? then [msg] else [])
    {
      assert c.inbox[c.mark..] == before[c.mark..] + [msg];
      GamesAppend(before[c.mark..], [msg]);
      assert GamesOf([msg]) == if msg.Game? then [msg] else [];
    }

    /** Waiting notices, time limits and chat reach everybody but are not kept. */
    method NotifyAllExcept(client: Client?, msg: Stoc)
      requires Valid() && !msg.Game?
      modifies duelists.Values`inbox, spectators`inbox
      ensures Valid()
      ensures forall p :: p in duelists ==>
                duelists[p].inbox == old(duelists[p].inbox) + (if duelists[p] == client then [] else [msg])
      ensures forall c :: c in spectators ==> c.inbox == old(c.inbox) + [msg]
    {
      SendToAllExcept(client, msg);
      forall c | c in spectators ensures Seen(c) == spectatorCache {
        SeenGrows(c, msg, old(c.inbox));
        assert old(Seen(c)) == old(spectatorCache);
      }
    }

    // ------------------------------------------------------------ distribution

    function Swapped(team: nat): nat
      requires team <= 1
      reads this`isTeam1GoingFirst
    {
      if isTeam1GoingFirst then 1 - team else team
    }

    /** `GetCurrentTeamClient`: the place whose turn it is in the core's team. */
    function CurrentPlace(team: nat): Pos
      requires team <= 1
      reads this`isTeam1GoingFirst, this`currentPos
    {
      (Swapped(team), Room.At(currentPos, Swapped(team)))
    }

    /** The message singles this place out. */
    predicate SinglesOut(msg: seq<Byte>, p: Pos)
      requires Distributable(msg)
      reads this`isTeam1GoingFirst, this`currentPos
    {
      NamesDuelist(msg) && p == CurrentPlace(GetMessageReceivingTeam(msg))
    }

    /** `DistributeMsg`. A message for a duelist goes to the one of the named team
      * whose turn it is. Each team sees its own form of a stripped message, the
      * spectators the form neither team's knowledge adds to. */
    method DistributeMsg(msg: seq<Byte>, ghost m: CoreMsg)
      requires Valid() && Messages.Valid(m) && msg == Encode(m) && Distributable(msg)
      requires NamesDuelist(msg) ==> CurrentPlace(GetMessageReceivingTeam(msg)) in duelists
      modifies this`spectatorCache, duelists.Values`inbox, spectators`inbox
      ensures Valid()
      ensures spectatorCache == old(spectatorCache) + ForSpectators(m)
      ensures forall c :: c in spectators ==> c.inbox == old(c.inbox) + ForSpectators(m)
      ensures forall p :: p in duelists && p.0 <= 1 ==>
                duelists[p].inbox == old(duelists[p].inbox) + ForDuelist(m, Swapped(p.0), SinglesOut(msg, p))
    {
      hide Encode, Hide, Messages.Valid, GetMessageDistributionType, GetMessageReceivingTeam;
      TeamWhenNamed(msg);
      match GetMessageDistributionType(msg) {
        case SpecificTeamDuelistStripped =>
          var team := GetMessageReceivingTeam(msg);
          var sMsg := Strip.StripMessageForTeam(team, msg, m);
          SendToOne(CurrentPlace(team), Game(sMsg));
        case SpecificTeamDuelist =>
          var team := GetMessageReceivingTeam(msg);
          SendToOne(CurrentPlace(team), Game(msg));
        case SpecificTeam =>
          var team := GetMessageReceivingTeam(msg);
          SendToTeam(Swapped(team), Game(msg));
        case EveryoneExceptTeamDuelist =>
          var team := GetMessageReceivingTeam(msg);
          SendToAllButPlace(CurrentPlace(team), Game(msg));
          ToSpectators(Game(msg));
        case EveryoneStripped =>
          DistributeStripped(msg, m);
        case Everyone =>
          SendToDuelistsExcept(null, Game(msg));
          ToSpectators(Game(msg));
      }
    }

    /** The duelists' part of sending to everybody but one of them. */
    method SendToAllButPlace(p: Pos, msg: Stoc)
      requires Valid() && p in duelists
      modifies duelists.Values`inbox
      ensures Valid()
      ensures forall q :: q in duelists ==> duelists[q].inbox == old(duelists[q].inbox) + (if q == p then [] else [msg])
      ensures forall c :: c in spectators ==> c.inbox == old(c.inbox)
    {
      SendToDuelistsExcept(duelists[p], msg);
    }

    method DistributeStripped(msg: seq<Byte>, ghost m: CoreMsg)
      requires Valid() && Messages.Valid(m) && msg == Encode(m)
      modifies this`spectatorCache, duelists.Values`inbox, spectators`inbox
      ensures Valid()
      ensures spectatorCache == old(spectatorCache) + [Game(Encode(SpectatorForm(m)))]
      ensures forall c :: c in spectators ==> c.inbox == old(c.inbox) + [Game(Encode(SpectatorForm(m)))]
      ensures forall p :: p in duelists && p.0 <= 1 ==>
                duelists[p].inbox == old(duelists[p].inbox) + [Game(Encode(TeamForm(Swapped(p.0), m)))]
    {
      hide Encode, Hide, Messages.Valid;
      var sMsg0 := Strip.StripMessageForTeam(0, msg, m);
      var sMsg1 := Strip.StripMessageForTeam(1, msg, m);
      var both := Strip.StripMessageForTeam(1, sMsg0, TeamForm(0, m));
      ToTeams(Swapped(0), Game(sMsg0), Game(sMsg1));
      ToSpectators(Game(both));
    }

    /** One message to a team and another to the other. */
    method ToTeams(team: nat, msg: Stoc, other: Stoc)
      requires Valid() && team <= 1
      modifies duelists.Values`inbox
      ensures Valid()
      ensures forall p :: p in duelists && p.0 <= 1 ==>
                duelists[p].inbox == old(duelists[p].inbox) + [if p.0 == team then msg else other]
      ensures forall c :: c in spectators ==> c.inbox == old(c.inbox)
    {
      SendToTeam(team, msg);
      SendToTeam(1 - team, other);
    }

    method SendToOne(p: Pos, msg: Stoc)
      requires Valid() && p in duelists
      modifies duelists.Values`inbox
      ensures Valid()
      ensures forall q :: q in duelists ==> duelists[q].inbox == old(duelists[q].inbox) + (if q == p then [msg] else [])
      ensures forall c :: c in spectators ==> c.inbox == old(c.inbox)
    {
      duelists[p].Send(msg);
    }

    // --------------------------------------------------------------- whose turn

    /** This duel is the one that the room is in. */
    ghost predicate DuelOf(room: Room.Room)
      reads this, room
    {
      && room.state.Dueling? && duelists.Keys == room.duelists.Keys
      && currentPos == room.state.currentPos && isTeam1GoingFirst == room.isTeam1GoingFirst
    }

    /** Outside relays the duelist that a message singles out is always there, and
      * the core knows the place by the number of tag swaps so far. */
    lemma SingledOutIsThere(room: Room.Room, msg: seq<Byte>)
      requires room.Valid() && DuelOf(room) && !room.relay && Distributable(msg) && NamesDuelist(msg)
      ensures var team := Swapped(GetMessageReceivingTeam(msg));
              var p := CurrentPlace(GetMessageReceivingTeam(msg));
              p in duelists && room.CoreIndex(team, p.1) == Room.At(room.swaps, team) % room.Count(team)
    {
      room.TurnIsTaken(Swapped(GetMessageReceivingTeam(msg)));
    }

    // ------------------------------------------------------------------ queries

    /** The answer to a request for one card: each side gets its view, the
      * spectators the public one. */
    method ProcessSingleQuery(r: Request, full: seq<Byte>)
      requires Valid() && r.Single? && r.con <= 1 && Readable(r, full)
      modifies this`spectatorCache, duelists.Values`inbox, spectators`inbox
      ensures Valid()
      ensures spectatorCache == old(spectatorCache) + AnswerForSpectators(r, full)
      ensures forall c :: c in spectators ==> c.inbox == old(c.inbox) + AnswerForSpectators(r, full)
      ensures forall p :: p in duelists && p.0 <= 1 ==>
                duelists[p].inbox == old(duelists[p].inbox) + AnswerForTeam(r, full, Swapped(p.0))
    {
      hide QueryCodec.Serialized, QueryCodec.ParseOne;
      var parsed := QueryIO.DeserializeOneQuery(full, 0);
      var ownerBuffer := QueryIO.SerializeSingleQuery(parsed.value, false);
      var strippedBuffer := QueryIO.SerializeSingleQuery(parsed.value, true);
      var strippedMsg := Game(UpdateCard(r.con, r.loc, r.seq_, strippedBuffer[..]));
      ToTeams(Swapped(r.con), Game(UpdateCard(r.con, r.loc, r.seq_, ownerBuffer[..])), strippedMsg);
      ToSpectators(strippedMsg);
    }

    /** The answer to a request for a location: the deck is only recorded, the
      * extra deck goes to its owner as it is, other places like single cards. */
    method ProcessLocationQuery(r: Request, full: seq<Byte>)
      requires Valid() && r.Location? && r.con <= 1 && Readable(r, full)
      modifies this`spectatorCache, duelists.Values`inbox, spectators`inbox
      ensures Valid()
      ensures spectatorCache == old(spectatorCache) + AnswerForSpectators(r, full)
      ensures forall c :: c in spectators ==> c.inbox == old(c.inbox) + AnswerForSpectators(r, full)
      ensures forall p :: p in duelists && p.0 <= 1 ==>
                duelists[p].inbox == old(duelists[p].inbox) + AnswerForTeam(r, full, Swapped(p.0))
    {
      hide QueryViews.LocationBytes, QueryViews.ParseLocation, QueryViews.AllValid;
      if r.loc == LOCATION_DECK {
        return;
      }
      if r.loc == LOCATION_EXTRA {
        SendToTeam(Swapped(r.con), Game(UpdateData(r.con, r.loc, full)));
        return;
      }
      var parsed := QueryIO.DeserializeLocationQueryBuffer(full);
      QueryViews.ParsedAreValid(full);
      var ownerBuffer := QueryIO.SerializeLocationQuery(parsed.value, false);
      var strippedBuffer := QueryIO.SerializeLocationQuery(parsed.value, true);
      var strippedMsg := Game(UpdateData(r.con, r.loc, strippedBuffer));
      ToTeams(Swapped(r.con), Game(UpdateData(r.con, r.loc, ownerBuffer)), strippedMsg);
      ToSpectators(strippedMsg);
    }

    /** One request after the other. */
    method ProcessQueryRequests(rs: seq<Request>, fulls: seq<seq<Byte>>)
      requires Valid() && Answered(rs, fulls)
      modifies this`spectatorCache, duelists.Values`inbox, spectators`inbox
      ensures Valid()
      ensures spectatorCache == old(spectatorCache) + AnswersForSpectators(rs, fulls, |rs|)
      ensures forall c :: c in spectators ==> c.inbox == old(c.inbox) + AnswersForSpectators(rs, fulls, |rs|)
      ensures forall p :: p in duelists && p.0 <= 1 ==>
                duelists[p].inbox == old(duelists[p].inbox) + AnswersForTeam(rs, fulls, Swapped(p.0), |rs|)
    {
      hide AnswerForSpectators, AnswerForTeam, Readable, Valid;
      for i := 0 to |rs|
        invariant Valid()
        invariant spectatorCache == old(spectatorCache) + AnswersForSpectators(rs, fulls, i)
        invariant forall c :: c in spectators ==> c.inbox == old(c.inbox) + AnswersForSpectators(rs, fulls, i)
        invariant forall p :: p in duelists && p.0 <= 1 ==>
                    duelists[p].inbox == old(duelists[p].inbox) + AnswersForTeam(rs, fulls, Swapped(p.0), i)
      {
        if rs[i].Single? {
          ProcessSingleQuery(rs[i], fulls[i]);
        } else {
          ProcessLocationQuery(rs[i], fulls[i]);
        }
      }
    }

    /** A whole message: what has to be known before it, the message, and what it
      * changed. */
    method ProcessSingleMsg(msg: seq<Byte>, ghost m: CoreMsg, before: seq<seq<Byte>>, after: seq<seq<Byte>>)
      requires Valid() && Messages.Valid(m) && msg == Encode(m) && Distributable(msg) && LongEnough(msg)
      requires NamesDuelist(msg) ==> CurrentPlace(GetMessageReceivingTeam(msg)) in duelists
      requires Answered(PreDist(msg), before) && Answered(PostDist(msg), after)
      modifies this`spectatorCache, duelists.Values`inbox, spectators`inbox
      ensures Valid()
      ensures spectatorCache == old(spectatorCache) + WholeForSpectators(m, before, after)
      ensures forall c :: c in spectators ==> c.inbox == old(c.inbox) + WholeForSpectators(m, before, after)
      ensures forall p :: p in duelists && p.0 <= 1 ==>
                duelists[p].inbox == old(duelists[p].inbox) + WholeForDuelist(m, before, after, Swapped(p.0), SinglesOut(msg, p))
    {
      hide AnswersForSpectators, AnswersForTeam, ForSpectators, ForDuelist, Answered, PreDist, PostDist, LongEnough, Distributable,
        NamesDuelist, GetMessageReceivingTeam, Encode, Messages.Valid, Valid, SinglesOut;
      ProcessQueryRequests(PreDist(msg), before);
      DistributeMsg(msg, m);
      ProcessQueryRequests(PostDist(msg), after);
    }

    // ---------------------------------------------------- the rest of the duel

    /** After a question: everybody but the one asked is told to wait, and all
      * see the clock. */
    method PostAnalyzeQuestion(replier: Client, timed: bool, team: nat, ticks: nat)
      requires Valid() && replier in duelists.Values
      modifies duelists.Values`inbox, spectators`inbox
      ensures Valid() && spectatorCache == old(spectatorCache)
      ensures forall c :: c in spectators ==>
                c.inbox == old(c.inbox) + [WaitingNotice] + (if timed then [TimeLimit(team, ticks)] else [])
    {
      NotifyAllExcept(replier, WaitingNotice);
      if timed {
        NotifyAllExcept(null, TimeLimit(team, ticks));
      }
    }

    /** The start of a duel: an empty cache, and the start message in three
      * forms. */
    method Start(msgStart: seq<Byte>)
      requires Apart() && |msgStart| > 1
      modifies this`spectatorCache, duelists.Values`inbox, spectators
      ensures Valid()
      ensures spectatorCache == [Game(msgStart[1 := 0xF0 + if isTeam1GoingFirst then 1 else 0])]
      ensures forall p :: p in duelists && p.0 <= 1 ==>
                duelists[p].inbox == old(duelists[p].inbox) + [Game(if p.0 == Swapped(0) then msgStart else msgStart[1 := 1])]
    {
      spectatorCache := [];
      forall c | c in spectators {
        c.mark := |c.inbox|;
      }
      ToTeams(Swapped(0), Game(msgStart), Game(msgStart[1 := 1]));
      ToSpectators(Game(msgStart[1 := 0xF0 + if isTeam1GoingFirst then 1 else 0]));
    }

    /** A client that joins as a spectator is sent the cache between two catch-up
      * markers: exactly, and in that order, what those present have seen. */
    method Join(c: Client)
      requires Valid() && c !in spectators && c !in duelists.Values
      modifies this`spectators, c
      ensures Valid() && spectators == old(spectators) + {c} && spectatorCache == old(spectatorCache)
      ensures exists notices :: GamesOf(notices) == []
                             && c.inbox == old(c.inbox) + notices + [CatchUp(true)] + spectatorCache + [CatchUp(false)]
      ensures forall o :: o in spectators ==> Seen(o) == Seen(c)
    {
      spectators := spectators + {c};
      c.mark := |c.inbox|;
      ghost var had := c.inbox;
      var notices := [Notice, Notice, Notice]; // join, type and duel start
      c.inbox := c.inbox + notices;
      c.Send(CatchUp(true));
      for i := 0 to |spectatorCache|
        invariant c.inbox == had + notices + [CatchUp(true)] + spectatorCache[..i]
        invariant c.mark == |had|
        modifies c
      {
        assert spectatorCache[..i + 1] == spectatorCache[..i] + [spectatorCache[i]];
        c.Send(spectatorCache[i]);
      }
      assert spectatorCache[..|spectatorCache|] == spectatorCache;
      c.Send(CatchUp(false));
      JoinSees(c, had, notices);
    }

    lemma JoinSees(c: Client, had: seq<Stoc>, notices: seq<Stoc>)
      requires AllGames(spectatorCache) && notices == [Notice, Notice, Notice] && c.mark == |had|
      requires c.inbox == had + notices + [CatchUp(true)] + spectatorCache + [CatchUp(false)]
      ensures GamesOf(notices) == [] && Seen(c) == spectatorCache
    {
      var front := notices + [CatchUp(true)];
      assert c.inbox[c.mark..] == front + spectatorCache + [CatchUp(false)];
      GamesAppend(front + spectatorCache, [CatchUp(false)]);
      GamesAppend(front, spectatorCache);
      GamesOfGames(spectatorCache);
      NoGames(front);
      NoGames(notices);
      NoGames([CatchUp(false)]);
    }

    method Leave(c: Client)
      requires Valid()
      modifies this`spectators
      ensures Valid() && spectators == old(spectators) - {c}
    {
      spectators := spectators - {c};
    }
  }

  function UpdateCard(con: nat, loc: nat, seq_: nat, qb: seq<Byte>): seq<Byte> {
    [7, con % 256, loc % 256, seq_ % 256] + qb
  }

  function UpdateData(con: nat, loc: nat, qb: seq<Byte>): seq<Byte> {
    [6, con % 256, loc % 256] + qb
  }

  /** The core's buffer can be read as the answer to a request. */
  ghost predicate Readable(r: Request, full: seq<Byte>) {
    match r
    case Single(_, _, _, _) => QueryCodec.ParseOne(full, 0).Ok?
    case Location(_, loc, _) => loc == LOCATION_DECK || loc == LOCATION_EXTRA || QueryViews.ParseLocation(full).Ok?
  }

  /** Every request has its answer, and is about a player that exists. */
  ghost predicate Answered(rs: seq<Request>, fulls: seq<seq<Byte>>) {
    |rs| == |fulls| && forall i :: 0 <= i < |rs| ==> rs[i].con <= 1 && Readable(rs[i], fulls[i])
  }

  /** An answer as one side is sent it. */
  ghost function AnswerView(r: Request, full: seq<Byte>, public: bool): Stoc
    requires Readable(r, full) && (r.Location? ==> r.loc != LOCATION_DECK && r.loc != LOCATION_EXTRA)
  {
    match r
    case Single(con, loc, seq_, _) => Game(UpdateCard(con, loc, seq_, QueryCodec.Serialized(QueryCodec.ParseOne(full, 0).value, public)))
    case Location(con, loc, _) =>
      QueryViews.ParsedAreValid(full);
      Game(UpdateData(con, loc, QueryViews.LocationBytes(QueryViews.ParseLocation(full).value, public)))
  }

  /** Spectators see everything publicly, and nothing of decks. */
  ghost function AnswerForSpectators(r: Request, full: seq<Byte>): seq<Stoc>
    requires Readable(r, full)
  {
    if r.Location? && (r.loc == LOCATION_DECK || r.loc == LOCATION_EXTRA) then [] else [AnswerView(r, full, true)]
  }

  /** The core's team `t` sees its own cards as their owner. */
  ghost function AnswerForTeam(r: Request, full: seq<Byte>, t: nat): seq<Stoc>
    requires Readable(r, full)
  {
    if r.Location? && r.loc == LOCATION_DECK then []
    else if r.Location? && r.loc == LOCATION_EXTRA then (if t == r.con then [Game(UpdateData(r.con, r.loc, full))] else [])
    else [AnswerView(r, full, t != r.con)]
  }

  ghost function AnswersForSpectators(rs: seq<Request>, fulls: seq<seq<Byte>>, n: nat): seq<Stoc>
    requires Answered(rs, fulls) && n <= |rs|
  {
    if n == 0 then [] else AnswersForSpectators(rs, fulls, n - 1) + AnswerForSpectators(rs[n - 1], fulls[n - 1])
  }

  ghost function AnswersForTeam(rs: seq<Request>, fulls: seq<seq<Byte>>, t: nat, n: nat): seq<Stoc>
    requires Answered(rs, fulls) && n <= |rs|
  {
    if n == 0 then [] else AnswersForTeam(rs, fulls, t, n - 1) + AnswerForTeam(rs[n - 1], fulls[n - 1], t)
  }

  /** What the spectators get around and of a message. */
  ghost function WholeForSpectators(m: CoreMsg, before: seq<seq<Byte>>, after: seq<seq<Byte>>): seq<Stoc>
    requires Messages.Valid(m) && Distributable(Encode(m)) && LongEnough(Encode(m))
    requires Answered(PreDist(Encode(m)), before) && Answered(PostDist(Encode(m)), after)
  {
    AnswersForSpectators(PreDist(Encode(m)), before, |PreDist(Encode(m))|) + ForSpectators(m)
    + AnswersForSpectators(PostDist(Encode(m)), after, |PostDist(Encode(m))|)
  }

  ghost function WholeForDuelist(m: CoreMsg, before: seq<seq<Byte>>, after: seq<seq<Byte>>, t: nat, singledOut: bool): seq<Stoc>
    requires Messages.Valid(m) && Distributable(Encode(m)) && LongEnough(Encode(m)) && t <= 1
    requires Answered(PreDist(Encode(m)), before) && Answered(PostDist(Encode(m)), after)
  {
    AnswersForTeam(PreDist(Encode(m)), before, t, |PreDist(Encode(m))|) + ForDuelist(m, t, singledOut)
    + AnswersForTeam(PostDist(Encode(m)), after, t, |PostDist(Encode(m))|)
  }

  /** What the spectators receive of a message does not depend on codes hidden
    * from either team. */
  lemma SpectatorsLearnNothing(m: CoreMsg, n: CoreMsg)
    requires Messages.Valid(m) && Messages.Valid(n) && Distributable(Encode(m)) && Distributable(Encode(n))
    requires GetMessageDistributionType(Encode(m)) == GetMessageDistributionType(Encode(n)) == EveryoneStripped
    requires LooksAlike(0, m, n) || LooksAlike(1, m, n)
    ensures ForSpectators(m) == ForSpectators(n)
  {
    hide Encode, Hide, Messages.Valid, LooksAlike, GetMessageDistributionType;
    HideExactly(0, m, n);
    HideExactly(1, m, n);
    HideTwice(1, 0, m);
    HideTwice(1, 0, n);
  }

  /** The cards in two answers are alike as far as everybody may see them. */
  ghost predicate AlikeInPublic(r: Request, full: seq<Byte>, other: seq<Byte>)
    requires Readable(r, full) && Readable(r, other)
  {
    match r
    case Single(_, _, _, _) => QueryViews.SameToAll(QueryCodec.ParseOne(full, 0).value, QueryCodec.ParseOne(other, 0).value)
    case Location(_, loc, _) =>
      loc == LOCATION_DECK || loc == LOCATION_EXTRA
      || var cs, ds := QueryViews.ParseLocation(full).value, QueryViews.ParseLocation(other).value;
         |cs| == |ds| && forall i :: 0 <= i < |cs| ==> QueryViews.SameToAll(cs[i], ds[i])
  }

  /** Nor does what they receive of an answer depend on secret fields of cards
    * that are not public, or on anything in decks. */
  lemma AnswersHideSecrets(r: Request, full: seq<Byte>, other: seq<Byte>)
    requires Readable(r, full) && Readable(r, other) && AlikeInPublic(r, full, other)
    ensures AnswerForSpectators(r, full) == AnswerForSpectators(r, other)
  {
    hide QueryCodec.ParseOne, QueryCodec.Serialized, QueryViews.ParseLocation, QueryViews.LocationBytes, QueryViews.SameToAll;
    match r
    case Single(_, _, _, _) =>
      QueryViews.PublicAnswerHidesSecrets(QueryCodec.ParseOne(full, 0).value, QueryCodec.ParseOne(other, 0).value);
    case Location(_, loc, _) =>
      if loc != LOCATION_DECK && loc != LOCATION_EXTRA {
        QueryViews.ParsedAreValid(full);
        QueryViews.ParsedAreValid(other);
        QueryViews.PublicLocationsHideSecrets(QueryViews.ParseLocation(full).value, QueryViews.ParseLocation(other).value);
      }
  }

  /** What the distribution looks at is there: the kind of a hint, the location
    * of confirmed cards, and, in a message for one team, a team. */
  predicate Distributable(msg: seq<Byte>) {
    && |msg| > 0
    && (msg[0] == MSG_HINT ==> |msg| > 1)
    && (msg[0] == MSG_CONFIRM_CARDS ==> |msg| >= 6 && (ReadCount(msg) != 0 ==> |msg| >= 12))
    && (NamesTeam(GetMessageDistributionType(msg)) ==>
          |msg| > (if msg[0] == MSG_HINT then 2 else 1) && GetMessageReceivingTeam(msg) <= 1)
  }

  predicate NamesTeam(d: Distribution) {
    d !in {Everyone, EveryoneStripped}
  }

  /** The message is for the duelist of a team whose turn it is, or for everybody
    * else. */
  predicate NamesDuelist(msg: seq<Byte>)
    requires Distributable(msg)
    ensures NamesDuelist(msg) ==> |msg| > (if msg[0] == MSG_HINT then 2 else 1) && GetMessageReceivingTeam(msg) <= 1
  {
    GetMessageDistributionType(msg) !in {Everyone, EveryoneStripped, SpecificTeam}
  }

  function ReadCount(msg: seq<Byte>): nat
    requires |msg| >= 6
  {
    ByteIO.ReadAt(msg, 2, 4)
  }

  /** A message as one team may see it, and as neither team's knowledge allows. */
  ghost function TeamForm(t: Byte, m: CoreMsg): (r: CoreMsg)
    requires Messages.Valid(m)
    ensures Messages.Valid(r) && r == Hide(t, m)
  {
    HideKeepsShape(t, m);
    Hide(t, m)
  }

  ghost function SpectatorForm(m: CoreMsg): (r: CoreMsg)
    requires Messages.Valid(m)
    ensures Messages.Valid(r)
  {
    TeamForm(1, TeamForm(0, m))
  }

  lemma TeamWhenNamed(msg: seq<Byte>)
    requires Distributable(msg)
    ensures NamesTeam(GetMessageDistributionType(msg)) ==>
              |msg| > (if msg[0] == MSG_HINT then 2 else 1) && GetMessageReceivingTeam(msg) <= 1
  {
  }

  /** What the spectators get of a core message. */
  ghost function ForSpectators(m: CoreMsg): seq<Stoc>
    requires Messages.Valid(m) && Distributable(Encode(m))
  {
    match GetMessageDistributionType(Encode(m))
    case EveryoneExceptTeamDuelist => [Game(Encode(m))]
    case EveryoneStripped => [Game(Encode(SpectatorForm(m)))]
    case Everyone => [Game(Encode(m))]
    case _ => []
  }

  /** What a duelist of the core's team `t` gets of it. */
  ghost function ForDuelist(m: CoreMsg, t: nat, singledOut: bool): seq<Stoc>
    requires Messages.Valid(m) && Distributable(Encode(m)) && t <= 1
  {
    match GetMessageDistributionType(Encode(m))
    case SpecificTeamDuelistStripped =>
      if singledOut then [Game(Encode(TeamForm(GetMessageReceivingTeam(Encode(m)), m)))] else []
    case SpecificTeamDuelist => if singledOut then [Game(Encode(m))] else []
    case SpecificTeam => if t == GetMessageReceivingTeam(Encode(m)) then [Game(Encode(m))] else []
    case EveryoneExceptTeamDuelist => if singledOut then [] else [Game(Encode(m))]
    case EveryoneStripped => [Game(Encode(TeamForm(t, m)))]
    case Everyone => [Game(Encode(m))]
  }
}
