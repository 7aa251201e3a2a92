/** What the two teams and the spectators learn from the answers to queries and
  * from core messages, read as a client reads them. */
module Answers {
  import Arith
  import opened Options
  import opened Words
  import opened ByteIO
  import opened Messages
  import opened Spectators
  import opened QueryRequests
  import opened QueryCodec
  import opened QueryViews
  import opened QueryFields

  // ----------------------------------------------------------------- queries

  /** The answer is about cards whose own bytes are passed on: not about decks. */
  predicate AboutCards(r: Request) { r.Single? || r.loc !in {0x01, 0x40} }

  /** The cards in the core's answer. */
  ghost function CardsIn(r: Request, full: seq<Byte>): (cs: seq<Option<Query>>)
    requires Readable(r, full) && AboutCards(r)
    ensures AllValid(cs)
  {
    if r.Single? then [ParseOne(full, 0).value]
    else
      ParsedAreValid(full);
      ParseLocation(full).value
  }

  /** What a client makes of what it was sent: one message, about these cards. */
  ghost predicate ReadsAs(r: Request, got: seq<Stoc>, cs: seq<Option<Query>>) {
    && |got| == 1 && got[0].Game?
    && var b := got[0].bytes;
       match r
       case Single(con, loc, seq_, _) =>
         && |b| >= 4 && b[..4] == [7, con % 256, loc % 256, seq_ % 256]
         && |cs| == 1 && ParseOne(b[4..], 0) == Ok(cs[0], |b| - 4)
       case Location(con, loc, _) =>
         && |b| >= 3 && b[..3] == [6, con % 256, loc % 256]
         && ParseLocation(b[3..]) == Ok(cs, |b| - 3)
  }

  /** A card as it was read by somebody who may or may not see what is its owner's
    * alone. */
  ghost predicate ReadBy(owner: bool, c: Option<Query>, v: Option<Query>) {
    && c.Some? == v.Some?
    && (c.Some? ==>
          && QueryCodec.Valid(c.value) && QueryCodec.Valid(v.value)
          && forall i: FlagBit ::
               && v.value.flags[i] == ShownTo(owner, c.value, i)
               && (v.value.flags[i] ==> v.value.fields[i] == c.value.fields[i]))
  }

  lemma ViewIsRead(c: Option<Query>, public: bool)
    requires c.Some? ==> QueryCodec.Valid(c.value)
    ensures ReadBy(!public, c, ViewOf(c, public))
  {
    hide View, ShownTo, QueryCodec.Valid;
    if c.Some? {
      ViewIsValid(c.value, public);
      forall i: FlagBit
        ensures View(c.value, public).flags[i] == ShownTo(!public, c.value, i)
        ensures View(c.value, public).flags[i] ==> View(c.value, public).fields[i] == c.value.fields[i]
      {
        ShownExactly(c.value, public, i);
      }
    }
  }

  lemma ViewIsValid(q: Query, public: bool)
    requires QueryCodec.Valid(q)
    ensures QueryCodec.Valid(View(q, public))
    ensures |q.flags| == |q.fields| == |View(q, public).flags| == |View(q, public).fields| == 32
  {
  }

  /** No list was queried (bits 15 to 17), and the end marker is there. */
  ghost predicate Plain(c: Option<Query>) {
    c.Some? ==>
      QueryCodec.Valid(c.value) && c.value.flags[31] && !c.value.flags[15] && !c.value.flags[16] && !c.value.flags[17]
  }

  ghost predicate AllPlain(cs: seq<Option<Query>>) {
    forall k :: 0 <= k < |cs| ==> Plain(cs[k])
  }

  lemma PlainSendable(c: Option<Query>, public: bool)
    requires Plain(c)
    ensures Sendable(c, public)
  {
    hide QueryCodec.Valid;
  }

  /** What the server asks for is answered without lists. */
  lemma AnswersArePlain(msg: seq<Byte>, r: Request, c: Option<Query>)
    requires LongEnough(msg) && r in PreDist(msg) + PostDist(msg) && QueryRequests.Answers(r.flags, c)
    ensures Plain(c)
  {
    hide LongEnough, PreDist, PostDist, Asked, QueryCodec.Valid;
    NeverAsksForLists(msg, r);
    assert IsList(15) && IsList(16) && IsList(17);
  }

  lemma {:induction false} ViewsAreRead(cs: seq<Option<Query>>, public: bool)
    requires AllValid(cs)
    ensures |ViewsOf(cs, public)| == |cs| && forall k :: 0 <= k < |cs| ==> ReadBy(!public, cs[k], ViewsOf(cs, public)[k])
    decreases |cs|
  {
    hide ReadBy, QueryCodec.Valid, ViewOf;
    if cs != [] {
      ViewIsRead(cs[0], public);
      ViewsAreRead(cs[1..], public);
    }
  }

  /** The message made for a side can be read, and shows that side's view. */
  lemma SideReads(r: Request, full: seq<Byte>, public: bool) returns (vs: seq<Option<Query>>)
    requires Readable(r, full) && AboutCards(r) && AllPlain(CardsIn(r, full))
    requires |Cards(CardsIn(r, full), public)| < WORD
    ensures ReadsAs(r, [AnswerView(r, full, public)], vs) && |vs| == |CardsIn(r, full)|
    ensures forall k :: 0 <= k < |vs| ==> ReadBy(!public, CardsIn(r, full)[k], vs[k])
  {
    hide ParseOne, ParseLocation, Cards, Serialized, LocationBytes, Plain, Sendable, ReadBy, QueryCodec.Valid, ViewOf, ViewsOf, Holds;
    var cs := CardsIn(r, full);
    if r.Single? {
      var buf := Serialized(cs[0], public);
      PlainSendable(cs[0], public);
      HoldsItself(buf);
      SingleQueryRoundTrip(buf, 0, cs[0], public);
      ViewIsRead(cs[0], public);
      vs := [ViewOf(cs[0], public)];
      assert AnswerView(r, full, public).bytes[4..] == buf;
    } else {
      var buf := LocationBytes(cs, public);
      forall k | 0 <= k < |cs| ensures Sendable(cs[k], public) {
        PlainSendable(cs[k], public);
      }
      LocationRoundTrip(cs, public);
      ViewsAreRead(cs, public);
      vs := ViewsOf(cs, public);
      assert AnswerView(r, full, public).bytes[3..] == buf;
    }
  }

  lemma HoldsItself(b: seq<Byte>)
    ensures Holds(b, 0, b)
  {
  }

  /** A team reads, from what it is sent: of face-up and public cards everything; of
    * its own cards everything unless they are hidden; of others only what is not
    * their owner's alone. */
  lemma TeamReads(r: Request, full: seq<Byte>, t: nat) returns (vs: seq<Option<Query>>)
    requires Readable(r, full) && AboutCards(r) && AllPlain(CardsIn(r, full))
    requires |Cards(CardsIn(r, full), t != r.con)| < WORD
    ensures ReadsAs(r, AnswerForTeam(r, full, t), vs) && |vs| == |CardsIn(r, full)|
    ensures forall k :: 0 <= k < |vs| ==> ReadBy(t == r.con, CardsIn(r, full)[k], vs[k])
  {
    hide ReadsAs, ReadBy, Readable, AnswerView, Cards, AllPlain;
    vs := SideReads(r, full, t != r.con);
  }

  /** Spectators are sent what the opponents are sent, and both are sent nothing of
    * decks (0x01) and extra decks (0x40); an extra deck goes to its owner as it
    * is. */
  lemma OpponentsAreSpectators(r: Request, full: seq<Byte>, t: nat)
    requires Readable(r, full) && t != r.con
    ensures AnswerForTeam(r, full, t) == AnswerForSpectators(r, full)
    ensures AboutCards(r) <==> AnswerForSpectators(r, full) != []
    ensures !AboutCards(r) ==>
              AnswerForTeam(r, full, r.con) == if r.loc == 0x40 then [Game([6, r.con % 256, 0x40] + full)] else []
  {
    hide Readable, AnswerView;
  }

  /** The other team learns nothing about secret fields of cards that are not
    * public. */
  lemma OpponentsLearnNothing(r: Request, full: seq<Byte>, other: seq<Byte>, t: nat)
    requires Readable(r, full) && Readable(r, other) && t != r.con && AlikeInPublic(r, full, other)
    ensures AnswerForTeam(r, full, t) == AnswerForTeam(r, other, t)
  {
    hide Readable, AlikeInPublic, AnswerForTeam, AnswerForSpectators;
    OpponentsAreSpectators(r, full, t);
    OpponentsAreSpectators(r, other, t);
    AnswersHideSecrets(r, full, other);
  }

  // ----------------------------------------------------------- core messages

  /** The message asks or tells the one duelist that it singles out: every
    * question (10 to 26, 132, 140 to 144), a missed effect (120), the hints 1, 2, 3
    * and 5, and cards shown from a deck (31). */
  predicate ForOne(msg: seq<Byte>)
    requires Distributable(msg)
  {
    || (10 <= msg[0] <= 26 && msg[0] != 17) || msg[0] in {120, 132, 140, 141, 142, 143, 144}
    || (msg[0] == 2 && msg[1] in {1, 2, 3, 5})
    || (msg[0] == 31 && ReadCount(msg) > 0 && msg[11] == 0x01)
  }

  /** A hint for a whole team (200). */
  predicate ForTeam(msg: seq<Byte>)
    requires Distributable(msg)
  {
    msg[0] == 2 && msg[1] == 200
  }

  /** A hint for everybody but the one it singles out. */
  predicate ForOthers(msg: seq<Byte>)
    requires Distributable(msg)
  {
    msg[0] == 2 && msg[1] in {4, 6, 7, 8, 9, 11}
  }

  /** Whether a duelist of the core's team `t` gets a message. */
  predicate Gets(msg: seq<Byte>, t: nat, singledOut: bool)
    requires Distributable(msg)
  {
    if ForOne(msg) then singledOut
    else if ForTeam(msg) then |msg| > 2 && msg[2] == t
    else if ForOthers(msg) then !singledOut
    else true
  }

  /** Every duelist gets exactly the messages meant for it, in the form that its
    * team may see. */
  lemma DuelistGetsExactly(m: CoreMsg, t: nat, singledOut: bool)
    requires Messages.Valid(m) && Distributable(Encode(m)) && t <= 1
    requires singledOut ==> NamesDuelist(Encode(m)) && t == GetMessageReceivingTeam(Encode(m))
    ensures ForDuelist(m, t, singledOut) == if Gets(Encode(m), t, singledOut) then [Game(Encode(TeamForm(t, m)))] else []
  {
    hide Encode, Hide, Messages.Valid;
    DistributionAgrees(t, m);
  }

  /** Spectators get exactly the messages that are for nobody in particular, in the
    * form that leaves out what is hidden from either team. */
  lemma SpectatorsGetExactly(m: CoreMsg)
    requires Messages.Valid(m) && Distributable(Encode(m))
    ensures ForSpectators(m) == if ForOne(Encode(m)) || ForTeam(Encode(m)) then [] else [Game(Encode(TeamForm(1, TeamForm(0, m))))]
  {
    hide Encode, Hide, Messages.Valid;
    DistributionAgrees(0, m);
    DistributionAgrees(1, m);
  }

  /** The first byte of messages that look alike is the same, and so is everything
    * of those that are not stripped. */
  lemma AlikeGets(team: Byte, m: CoreMsg, n: CoreMsg, t: nat, singledOut: bool)
    requires Messages.Valid(m) && Messages.Valid(n) && LooksAlike(team, m, n)
    requires Distributable(Encode(m)) && Distributable(Encode(n))
    ensures Gets(Encode(m), t, singledOut) == Gets(Encode(n), t, singledOut)
  {
    hide Encode, Hide, Messages.Valid, SameCards;
    HideKeepsShape(team, m);
    HideKeepsShape(team, n);
    if m.Other? {
      assert m == n;
    }
  }

  /** What a duelist gets does not depend on codes hidden from its team. */
  lemma DuelistsLearnNothing(m: CoreMsg, n: CoreMsg, t: nat, singledOut: bool)
    requires Messages.Valid(m) && Messages.Valid(n) && Distributable(Encode(m)) && Distributable(Encode(n)) && t <= 1
    requires LooksAlike(t, m, n)
    requires singledOut ==> NamesDuelist(Encode(m)) && t == GetMessageReceivingTeam(Encode(m))
    requires singledOut ==> NamesDuelist(Encode(n)) && t == GetMessageReceivingTeam(Encode(n))
    ensures ForDuelist(m, t, singledOut) == ForDuelist(n, t, singledOut)
  {
    hide Encode, Hide, Messages.Valid, LooksAlike, Distributable, NamesDuelist, GetMessageReceivingTeam, Gets, ForDuelist;
    DuelistGetsExactly(m, t, singledOut);
    DuelistGetsExactly(n, t, singledOut);
    AlikeGets(t, m, n, t, singledOut);
    HideExactly(t, m, n);
  }

  // ------------------------------------------------------- codes, in numbers

  /** Neither face-up in attack (1) nor in defence (4). */
  predicate NotUp(pos: nat) { pos % 8 in {0, 2} }

  /** Face-down in attack (2) or in defence (8). */
  predicate Down(pos: nat) { pos % 16 !in {0, 1, 4, 5} }

  /** In the graveyard (0x10) or under another card (0x80), and not in a deck (1) or
    * a hand (2). */
  predicate Exposed(loc: nat) { loc % 4 == 0 && (loc % 32 >= 16 || loc >= 128) }

  lemma PositionNumbers(pos: nat)
    ensures Messages.FaceUp(pos) == !NotUp(pos) && FaceDown(pos) == Down(pos)
  {
    Arith.DivModEquation(pos, 16);
    SixteenBits(pos, pos / 16, pos % 16);
  }

  lemma SixteenBits(n: nat, q: nat, r: nat)
    requires n == 16 * q + r && r < 16
    ensures n % 2 == r % 2 && (n / 2) % 2 == (r / 2) % 2 && (n / 4) % 2 == (r / 4) % 2 && (n / 8) % 2 == r / 8 && n % 8 == r % 8
  {
    Arith.DivModUnique(n, 2, 8 * q + r / 2, r % 2);
    Arith.DivModUnique(n, 4, 4 * q + r / 4, r % 4);
    Arith.DivModUnique(n, 8, 2 * q + r / 8, r % 8);
    Parity(4 * q, r / 2);
    Parity(2 * q, r / 4);
    Parity(q, r / 8);
  }

  lemma Parity(k: nat, x: nat)
    ensures (2 * k + x) % 2 == x % 2
  {
    Arith.DivModUnique(2 * k + x, 2, k + x / 2, x % 2);
  }

  lemma LocationNumbers(l: QueryCodec.LocInfo)
    requires l.loc < 256
    ensures IsLocInfoPublic(l) == (Exposed(l.loc) || !Down(l.pos))
  {
    PositionNumbers(l.pos);
    Arith.DivModEquation(l.loc, 32);
    Arith.DivModUnique(l.loc, 16, 2 * (l.loc / 32) + l.loc % 32 / 16, l.loc % 32 % 16);
  }

  /** The codes a team is sent of listed cards: all in its own draws, shuffles and
    * swaps, face-up ones in the other team's, and in selections those of the cards
    * it controls; every other one is zero. */
  ghost predicate ListSent(cs: seq<Card>, ds: seq<Card>, all: bool, byPosition: bool, byController: bool, team: Byte) {
    && |cs| == |ds|
    && forall i :: 0 <= i < |cs| ==>
         && ds[i].about == cs[i].about
         && var shown := || all || (byPosition && !NotUp(FromLE(cs[i].about)))
                         || (byController && |cs[i].about| > 0 && cs[i].about[0] == team);
            ds[i].code == if shown then cs[i].code else 0
  }

  lemma ListIsSent(rule: Rule, team: Byte, cs: seq<Card>)
    ensures ListSent(cs, HideCards(rule, team, cs), false, rule == ByPosition, rule == ByController, team)
  {
    forall i | 0 <= i < |cs|
      ensures Messages.FaceUp(FromLE(cs[i].about)) == !NotUp(FromLE(cs[i].about))
    {
      PositionNumbers(FromLE(cs[i].about));
    }
  }

  /** Which codes a team is sent, by what the message says about the cards. */
  lemma CodesSent(team: Byte, m: CoreMsg)
    requires Messages.Valid(m)
    ensures var h := Hide(team, m);
            match m
            case Set(_, r) => h == CoreMsg.Set(0, r)
            case Shuffle(_, con, cs, _) => h.Shuffle? && ListSent(cs, h.codes, con == team, false, false, team)
            case Move(code, p, c, r) => h == Move(if c.con == team || Exposed(c.loc) || !Down(c.pos) then code else 0, p, c, r)
            case SpSummoning(code, c, r) => h == SpSummoning(if c.con == team || !Down(c.pos) then code else 0, c, r)
            case Draw(con, cs, _) => h.Draw? && ListSent(cs, h.cards, con == team, true, false, team)
            case TagSwap(con, _, _, _, _, _, cs, _) => h.TagSwap? && ListSent(cs, h.cards, con == team, true, false, team)
            case SelectCard(_, cs, _) => h.SelectCard? && ListSent(cs, h.cards, false, false, true, team)
            case SelectTribute(_, cs, _) => h.SelectTribute? && ListSent(cs, h.cards, false, false, true, team)
            case SelectUnselect(_, cs, ds, _) =>
              h.SelectUnselect? && ListSent(cs, h.cards, false, false, true, team) && ListSent(ds, h.others, false, false, true, team)
            case Other(_) => h == m
  {
    hide HideCards, FaceDown, Down, Exposed, IsLocInfoPublic, CardsFit;
    match m
    case Shuffle(_, _, cs, _) => ListIsSent(Never, team, cs);
    case Move(_, _, c, _) => LocationNumbers(c);
    case SpSummoning(_, c, _) => PositionNumbers(c.pos);
    case Draw(_, cs, _) => ListIsSent(ByPosition, team, cs);
    case TagSwap(_, _, _, _, _, _, cs, _) => ListIsSent(ByPosition, team, cs);
    case SelectCard(_, cs, _) => ListIsSent(ByController, team, cs);
    case SelectTribute(_, cs, _) => ListIsSent(ByController, team, cs);
    case SelectUnselect(_, cs, ds, _) =>
      ListIsSent(ByController, team, cs);
      ListIsSent(ByController, team, ds);
    case _ =>
  }

  /** Whom a message singles out: in the team that its second byte names, a hint's
    * third, with the core's team 0 going first, the one whose turn it is. */
  lemma SingledOutByNumbers(duel: Duel, msg: seq<Byte>, p: (nat, nat))
    requires Distributable(msg)
    ensures duel.SinglesOut(msg, p) <==>
              && (ForOne(msg) || ForOthers(msg))
              && |msg| > (if msg[0] == 2 then 2 else 1)
              && var k := if msg[0] == 2 then msg[2] else msg[1];
                 p == if (k == 0) != duel.isTeam1GoingFirst then (0, duel.currentPos.0) else (1, duel.currentPos.1)
  {
  }

  /** The messages with codes to hide, by their first bytes: those that everybody
    * gets, in forms of their own, and the selections (15, 20, 26). */
  lemma HiddenByNumbers(m: CoreMsg)
    requires Messages.Valid(m) && |Encode(m)| > 0
    ensures StrippedForAll(Encode(m)[0]) <==> Encode(m)[0] in {33, 39, 50, 54, 62, 90, 161}
    ensures Encode(m)[0]
         == match m
            case Shuffle(extra, _, _, _) => if extra then 39 else 33
            case Move(_, _, _, _) => 50
            case Set(_, _) => 54
            case SpSummoning(_, _, _) => 62
            case Draw(_, _, _) => 90
            case TagSwap(_, _, _, _, _, _, _, _) => 161
            case SelectCard(_, _, _) => 15
            case SelectTribute(_, _, _) => 20
            case SelectUnselect(_, _, _, _) => 26
            case Other(bytes) => bytes[0]
  {
    hide LE, CardsBytes, CardsFit, Middle;
  }

  // --------------------------------------------------- requests, in numbers

  function BothSides(loc: nat, mask: nat): seq<Request> { [Location(0, loc, mask), Location(1, loc, mask)] }

  /** A card by where the bytes from `pos` on say it is. */
  function CardAt(msg: seq<Byte>, pos: nat): Request
    requires pos + 6 <= |msg|
  {
    Single(msg[pos], msg[pos + 1], FromLE(msg[pos + 2..pos + 6]), 0x3F81FFF)
  }

  /** Before a player decides in battle (10) or the main phase (11), hands, monsters
    * and spells are looked up; before a chain (16) and a new turn (40) monsters and
    * spells; before a flip summon (64) the card. */
  lemma AskedBefore(msg: seq<Byte>)
    requires LongEnough(msg)
    ensures PreDist(msg)
         == if msg[0] in {10, 11} then BothSides(2, 0x3781FFF) + BothSides(4, 0x3981FFF) + BothSides(8, 0x3F81FFF)
            else if msg[0] in {16, 40} then BothSides(4, 0x3981FFF) + BothSides(8, 0x3F81FFF)
            else if msg[0] == 64 then [CardAt(msg, 5)]
            else []
  {
    hide FromLE, BothSides;
    SameZones();
    if msg[0] == 64 {
      SameCard(msg, 5);
    }
  }

  lemma SameZones()
    ensures forall loc, mask :: OfBoth(loc, mask) == BothSides(loc, mask)
  {
  }

  lemma SameCard(msg: seq<Byte>, pos: nat)
    requires pos + 10 <= |msg|
    ensures AtPlace(ReadLoc(msg, pos)) == CardAt(msg, pos)
  {
    hide FromLE;
    OneByte(msg[pos]);
    OneByte(msg[pos + 1]);
    assert msg[pos..pos + 1] == [msg[pos]] && msg[pos + 1..pos + 2] == [msg[pos + 1]];
  }

  lemma OneByte(b: Byte)
    ensures FromLE([b]) == b
  {
    assert FromLE([]) == 0;
  }

  /** Afterwards: what was drawn, shuffled or swapped, the field whenever cards come
    * or a chain ends, a card that went elsewhere or was turned up, and both of two
    * that changed places. */
  lemma AskedAfter(msg: seq<Byte>)
    requires LongEnough(msg)
    ensures PostDist(msg)
         == (match msg[0]
             case 33 => [Location(msg[1], 2, 0x3781FFF)]
             case 90 => [Location(msg[1], 2, 0x3781FFF)]
             case 39 => [Location(msg[1], 0x40, 0x381FFF)]
             case 35 => [Location(msg[1], 0x10, 0x381FFF)]
             case 37 => BothSides(1, 0x1181FFF)
             case 36 => BothSides(msg[1], 0x3181FFF)
             case 113 => BothSides(4, 0x3981FFF)
             case 114 => BothSides(4, 0x3981FFF)
             case 61 => BothSides(4, 0x3981FFF) + BothSides(8, 0x3F81FFF)
             case 63 => BothSides(4, 0x3981FFF) + BothSides(8, 0x3F81FFF)
             case 65 => BothSides(4, 0x3981FFF) + BothSides(8, 0x3F81FFF)
             case 41 => BothSides(4, 0x3981FFF) + BothSides(8, 0x3F81FFF) + BothSides(2, 0x3781FFF)
             case 71 => BothSides(4, 0x3981FFF) + BothSides(8, 0x3F81FFF) + BothSides(2, 0x3781FFF)
             case 74 => BothSides(1, 0x1181FFF) + BothSides(4, 0x3981FFF) + BothSides(8, 0x3F81FFF) + BothSides(2, 0x3781FFF)
             case 50 => if msg[15..17] != msg[5..7] && msg[16] != 0 && msg[16] < 0x80 then [CardAt(msg, 15)] else []
             case 53 => if Down(msg[8]) && !NotUp(msg[9]) then [Single(msg[5], msg[6], msg[7], 0x3F81FFF)] else []
             case 55 => [CardAt(msg, 5), CardAt(msg, 19)]
             case 161 =>
               [Location(msg[1], 1, 0x1181FFF), Location(msg[1], 0x40, 0x381FFF), Location(msg[1], 2, 0x3781FFF)]
               + BothSides(4, 0x3181FFF) + BothSides(8, 0x3781FFF)
             case 162 => BothSides(0x40, 0x381FFF)
             case _ => [])
  {
    hide FromLE, BothSides, Down, NotUp, FaceDown, FaceUp;
    SameZones();
    match msg[0]
    case 50 =>
      SameCard(msg, 15);
      SamePlaces(msg);
    case 53 =>
      PositionNumbers(msg[8]);
      PositionNumbers(msg[9]);
    case 55 =>
      SameCard(msg, 5);
      SameCard(msg, 19);
    case _ =>
  }

  lemma SamePlaces(msg: seq<Byte>)
    requires |msg| >= 25
    ensures MovedElsewhere(ReadLoc(msg, 5), ReadLoc(msg, 15)) <==> msg[15..17] != msg[5..7] && msg[16] != 0 && msg[16] < 0x80
  {
    hide FromLE;
    OneByte(msg[5]);
    OneByte(msg[6]);
    OneByte(msg[15]);
    OneByte(msg[16]);
    assert msg[5..6] == [msg[5]] && msg[6..7] == [msg[6]] && msg[15..16] == [msg[15]] && msg[16..17] == [msg[16]];
    assert msg[15..17] == [msg[15], msg[16]] && msg[5..7] == [msg[5], msg[6]];
  }
}
