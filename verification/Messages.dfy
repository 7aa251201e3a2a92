/** Core messages (CoreUtils.cpp): how they are split, who gets them, and which
  * card codes are blanked out on the way to a team. */
module Messages {
  import opened Arith
  import opened Words
  import opened ByteIO
  import QueryCodec

  type LocInfo = QueryCodec.LocInfo

  // ----------------------------------------------------------- message types

  const MSG_HINT: Byte := 2
  const MSG_SELECT_CARD: Byte := 15
  const MSG_SELECT_TRIBUTE: Byte := 20
  const MSG_SELECT_UNSELECT_CARD: Byte := 26
  const MSG_CONFIRM_CARDS: Byte := 31
  const MSG_SHUFFLE_HAND: Byte := 33
  const MSG_SHUFFLE_EXTRA: Byte := 39
  const MSG_MOVE: Byte := 50
  const MSG_SET: Byte := 54
  const MSG_SPSUMMONING: Byte := 62
  const MSG_DRAW: Byte := 90
  const MSG_MISSED_EFFECT: Byte := 120
  const MSG_TAG_SWAP: Byte := 161

  const LOCATION_DECK := 1

  /** The messages whose first byte asks one duelist for an answer and that are
    * sent on as they are. */
  predicate PlainQuestion(t: Byte) {
    || 10 <= t <= 14 || t == 16 || t == 18 || t == 19 || 21 <= t <= 25
    || t == 132 || 140 <= t <= 144
  }

  predicate CardQuestion(t: Byte) {
    t == MSG_SELECT_CARD || t == MSG_SELECT_TRIBUTE || t == MSG_SELECT_UNSELECT_CARD
  }

  predicate DoesMessageRequireAnswer(t: Byte) {
    CardQuestion(t) || PlainQuestion(t)
  }

  datatype Distribution =
    | SpecificTeamDuelistStripped
    | SpecificTeamDuelist
    | SpecificTeam
    | EveryoneExceptTeamDuelist
    | EveryoneStripped
    | Everyone

  predicate StrippedForAll(t: Byte) {
    || t == MSG_SHUFFLE_HAND || t == MSG_SHUFFLE_EXTRA || t == MSG_SET || t == MSG_MOVE
    || t == MSG_SPSUMMONING || t == MSG_DRAW || t == MSG_TAG_SWAP
  }

  /** `GetMessageDistributionType`. The core's messages are long enough for the
    * bytes it looks at. */
  function GetMessageDistributionType(msg: seq<Byte>): Distribution
    requires |msg| > 0
    requires msg[0] == MSG_HINT ==> |msg| > 1
    requires msg[0] == MSG_CONFIRM_CARDS ==> |msg| >= 6 && (ReadAt(msg, 2, 4) != 0 ==> |msg| >= 12)
  {
    var t := msg[0];
    if CardQuestion(t) then SpecificTeamDuelistStripped
    else if PlainQuestion(t) || t == MSG_MISSED_EFFECT then SpecificTeamDuelist
    else if t == MSG_HINT then
      if msg[1] in {1, 2, 3, 5} then SpecificTeamDuelist
      else if msg[1] == 200 then SpecificTeam
      else if msg[1] in {4, 6, 7, 8, 9, 11} then EveryoneExceptTeamDuelist
      else Everyone
    else if t == MSG_CONFIRM_CARDS then
      if ReadAt(msg, 2, 4) != 0 && msg[11] == LOCATION_DECK then SpecificTeamDuelist else Everyone
    else if StrippedForAll(t) then EveryoneStripped
    else Everyone
  }

  function GetMessageReceivingTeam(msg: seq<Byte>): Byte
    requires |msg| > 1 && (msg[0] == MSG_HINT ==> |msg| > 2)
  {
    if msg[0] == MSG_HINT then msg[2] else msg[1]
  }

  // --------------------------------------------------------- splitting a burst

  /** The core's buffer: every message behind its length. */
  function Burst(msgs: seq<seq<Byte>>): (b: seq<Byte>)
    ensures msgs != [] ==> |b| >= 4
  {
    if msgs == [] then [] else LE(|msgs[0]|, 4) + msgs[0] + Burst(msgs[1..])
  }

  ghost predicate LengthsFit(msgs: seq<seq<Byte>>) {
    forall i :: 0 <= i < |msgs| ==> |msgs[i]| < WORD
  }

  lemma BurstStep(b: seq<Byte>, pos: nat, msgs: seq<seq<Byte>>)
    requires msgs != [] && LengthsFit(msgs) && Holds(b, pos, Burst(msgs))
    ensures pos + 4 + |msgs[0]| <= |b| && ReadAt(b, pos, 4) == |msgs[0]|
    ensures b[pos + 4..pos + 4 + |msgs[0]|] == msgs[0]
    ensures Holds(b, pos + 4 + |msgs[0]|, Burst(msgs[1..]))
    ensures |Burst(msgs)| == 4 + |msgs[0]| + |Burst(msgs[1..])|
  {
    hide *;
    Widths();
    BurstUnfolds(msgs);
    var h, m, r := LE(|msgs[0]|, 4), msgs[0], Burst(msgs[1..]);
    HoldsSplit(b, pos, h + m, r);
    HoldsSplit(b, pos, h, m);
    ReadHeld(b, pos, |msgs[0]|, 4);
    HeldSlice(b, pos + 4, m);
  }

  lemma BurstUnfolds(msgs: seq<seq<Byte>>)
    requires msgs != [] && LengthsFit(msgs)
    ensures LengthsFit(msgs[1..])
    ensures Burst(msgs) == (LE(|msgs[0]|, 4) + msgs[0]) + Burst(msgs[1..]) && |msgs[0]| < WORD
    ensures WORD == 0x1_0000_0000
  {
  }

  lemma HeldSlice(b: seq<Byte>, pos: nat, s: seq<Byte>)
    requires Holds(b, pos, s)
    ensures pos + |s| <= |b| && b[pos..pos + |s|] == s
  {
  }

  /** What is split off, and what is still ahead. */
  ghost predicate Splitting(b: seq<Byte>, pos: nat, msgs: seq<seq<Byte>>, sent: seq<seq<Byte>>) {
    && pos <= |b| && |msgs| <= |sent| && msgs == sent[..|msgs|]
    && Holds(b, pos, Burst(sent[|msgs|..])) && pos + |Burst(sent[|msgs|..])| == |b|
  }

  lemma SplitStep(b: seq<Byte>, pos: nat, msgs: seq<seq<Byte>>, sent: seq<seq<Byte>>)
    requires LengthsFit(sent) && Splitting(b, pos, msgs, sent) && pos != |b|
    ensures pos + 4 <= |b| && pos + 4 + ReadAt(b, pos, 4) <= |b|
    ensures var l := ReadAt(b, pos, 4); Splitting(b, pos + 4 + l, msgs + [b[pos + 4..pos + 4 + l]], sent)
  {
    hide Holds, ReadAt, LE;
    var rest := sent[|msgs|..];
    assert rest != [];
    assert rest[1..] == sent[|msgs| + 1..] && rest[0] == sent[|msgs|];
    BurstStep(b, pos, rest);
    assert sent[..|msgs| + 1] == sent[..|msgs|] + [sent[|msgs|]];
  }

  lemma SplitEnds(b: seq<Byte>, msgs: seq<seq<Byte>>, sent: seq<seq<Byte>>)
    requires Splitting(b, |b|, msgs, sent)
    ensures msgs == sent
  {
    assert sent[|msgs|..] == [];
  }

  lemma SplitStarts(b: seq<Byte>, sent: seq<seq<Byte>>)
    requires b == Burst(sent)
    ensures Splitting(b, 0, [], sent) && (b == [] ==> sent == [])
  {
    hide Burst;
    assert sent[0..] == sent;
  }

  /** `SplitToMsgs`, on what the core hands over. */
  method SplitToMsgs(buffer: seq<Byte>, ghost sent: seq<seq<Byte>>) returns (msgs: seq<seq<Byte>>)
    requires buffer == Burst(sent) && LengthsFit(sent)
    ensures msgs == sent
  {
    hide *;
    SplitStarts(buffer, sent);
    msgs := [];
    if buffer == [] {
      return;
    }
    var pos := 0;
    while pos != |buffer|
      invariant Splitting(buffer, pos, msgs, sent) && pos <= |buffer|
      decreases |buffer| - pos
    {
      SplitStep(buffer, pos, msgs, sent);
      var l := ReadAt(buffer, pos, 4);
      pos := pos + 4;
      msgs := msgs + [buffer[pos..pos + l]];
      pos := pos + l;
      InBuffer(buffer, pos, msgs, sent);
    }
    SplitEnds(buffer, msgs, sent);
  }

  lemma InBuffer(b: seq<Byte>, pos: nat, msgs: seq<seq<Byte>>, sent: seq<seq<Byte>>)
    requires Splitting(b, pos, msgs, sent)
    ensures pos <= |b|
  {
  }

  // ----------------------------------------------------- messages with cards

  /** A card in a list: its code, and the bytes that say where it is. */
  datatype Card = Card(code: nat, about: seq<Byte>)

  /** The messages with card codes that may have to be hidden, and `Other`. What
    * follows the last byte looked at is kept as `rest`. */
  datatype CoreMsg =
    | Set(code: nat, rest: seq<Byte>)
    | Shuffle(extra: bool, con: Byte, codes: seq<Card>, rest: seq<Byte>)
    | Move(code: nat, previous: LocInfo, current: LocInfo, rest: seq<Byte>)
    | SpSummoning(code: nat, current: LocInfo, rest: seq<Byte>)
    | Draw(con: Byte, cards: seq<Card>, rest: seq<Byte>)
    | TagSwap(con: Byte, main: nat, extraCount: nat, pendulums: nat, handCount: nat, top: nat, cards: seq<Card>,
              rest: seq<Byte>)
    | SelectCard(head: seq<Byte>, cards: seq<Card>, rest: seq<Byte>)
    | SelectTribute(head: seq<Byte>, cards: seq<Card>, rest: seq<Byte>)
    | SelectUnselect(head: seq<Byte>, cards: seq<Card>, others: seq<Card>, rest: seq<Byte>)
    | Other(bytes: seq<Byte>)

  ghost predicate CardsFit(cs: seq<Card>, w: nat) {
    |cs| < WORD && forall i :: 0 <= i < |cs| ==> cs[i].code < WORD && |cs[i].about| == w
  }

  ghost predicate Valid(m: CoreMsg) {
    match m
    case Set(code, _) => code < WORD
    case Shuffle(_, _, codes, _) => CardsFit(codes, 0)
    case Move(code, p, c, _) => code < WORD && QueryCodec.LocFits(p) && QueryCodec.LocFits(c)
    case SpSummoning(code, c, _) => code < WORD && QueryCodec.LocFits(c)
    case Draw(_, cards, _) => CardsFit(cards, 4)
    case TagSwap(_, main, extra, pendulums, hand, top, cards, _) =>
      && main < WORD && extra < WORD && pendulums < WORD && hand < WORD && top < WORD
      && CardsFit(cards, 4) && |cards| == extra + hand
    case SelectCard(head, cards, _) => |head| == 10 && CardsFit(cards, 10)
    case SelectTribute(head, cards, _) => |head| == 10 && CardsFit(cards, 7)
    case SelectUnselect(head, cards, others, _) => |head| == 11 && CardsFit(cards, 10) && CardsFit(others, 10)
    case Other(bytes) => |bytes| > 0 && !StrippedForAll(bytes[0]) && !CardQuestion(bytes[0])
  }

  function CardBytes(c: Card): seq<Byte> { LE(c.code, 4) + c.about }

  function CardsBytes(cs: seq<Card>): seq<Byte> {
    if cs == [] then [] else CardBytes(cs[0]) + CardsBytes(cs[1..])
  }

  function TypeOf(m: CoreMsg): Byte
    requires m.Other? ==> |m.bytes| > 0
  {
    match m
    case Set(_, _) => MSG_SET
    case Shuffle(extra, _, _, _) => if extra then MSG_SHUFFLE_EXTRA else MSG_SHUFFLE_HAND
    case Move(_, _, _, _) => MSG_MOVE
    case SpSummoning(_, _, _) => MSG_SPSUMMONING
    case Draw(_, _, _) => MSG_DRAW
    case TagSwap(_, _, _, _, _, _, _, _) => MSG_TAG_SWAP
    case SelectCard(_, _, _) => MSG_SELECT_CARD
    case SelectTribute(_, _, _) => MSG_SELECT_TRIBUTE
    case SelectUnselect(_, _, _, _) => MSG_SELECT_UNSELECT_CARD
    case Other(bytes) => bytes[0]
  }

  /** The bytes before the first card list. */
  ghost function Before(m: CoreMsg): seq<Byte>
    requires Valid(m) && !m.Other?
  {
    match m
    case Set(_, _) => [MSG_SET]
    case Shuffle(extra, con, codes, _) => [TypeOf(m), con] + LE(|codes|, 4)
    case Move(_, _, _, _) => [MSG_MOVE]
    case SpSummoning(_, _, _) => [MSG_SPSUMMONING]
    case Draw(con, cards, _) => [MSG_DRAW, con] + LE(|cards|, 4)
    case TagSwap(con, main, extra, pendulums, hand, top, _, _) =>
      [MSG_TAG_SWAP, con] + LE(main, 4) + LE(extra, 4) + LE(pendulums, 4) + LE(hand, 4) + LE(top, 4)
    case SelectCard(head, cards, _) => [MSG_SELECT_CARD] + head + LE(|cards|, 4)
    case SelectTribute(head, cards, _) => [MSG_SELECT_TRIBUTE] + head + LE(|cards|, 4)
    case SelectUnselect(head, cards, _, _) => [MSG_SELECT_UNSELECT_CARD] + head + LE(|cards|, 4)
  }

  /** The card or the first list of cards. */
  ghost function Middle(m: CoreMsg): seq<Byte>
    requires Valid(m) && !m.Other?
  {
    match m
    case Set(code, _) => LE(code, 4)
    case Shuffle(_, _, codes, _) => CardsBytes(codes)
    case Move(code, p, c, _) => LE(code, 4) + QueryCodec.LocBytes(p) + QueryCodec.LocBytes(c)
    case SpSummoning(code, c, _) => LE(code, 4) + QueryCodec.LocBytes(c)
    case Draw(_, cards, _) => CardsBytes(cards)
    case TagSwap(_, _, _, _, _, _, cards, _) => CardsBytes(cards)
    case SelectCard(_, cards, _) => CardsBytes(cards)
    case SelectTribute(_, cards, _) => CardsBytes(cards)
    case SelectUnselect(_, cards, others, _) => CardsBytes(cards) + LE(|others|, 4) + CardsBytes(others)
  }

  ghost function Encode(m: CoreMsg): seq<Byte>
    requires Valid(m)
  {
    if m.Other? then m.bytes else Before(m) + Middle(m) + m.rest
  }

  // ----------------------------------------------------------- who knows what

  predicate FaceUp(pos: nat) { pos % 2 == 1 || (pos / 4) % 2 == 1 }

  predicate FaceDown(pos: nat) { (pos / 2) % 2 == 1 || (pos / 8) % 2 == 1 }

  /** In the graveyard or under another card, or anywhere not face-down. */
  predicate IsLocInfoPublic(l: LocInfo) {
    (((l.loc / 16) % 2 == 1 || (l.loc / 128) % 2 == 1) && l.loc % 4 == 0) || !FaceDown(l.pos)
  }

  datatype Rule = Never | ByPosition | ByController

  /** Does a team know a listed card? By its position when drawn, by its
    * controller when it can be selected. */
  predicate Known(rule: Rule, team: Byte, about: seq<Byte>) {
    match rule
    case Never => false
    case ByPosition => FaceUp(FromLE(about))
    case ByController => |about| > 0 && about[0] == team
  }

  function HideCards(rule: Rule, team: Byte, cs: seq<Card>): (r: seq<Card>)
    ensures |r| == |cs|
  {
    seq(|cs|, i requires 0 <= i < |cs| =>
      if Known(rule, team, cs[i].about) then cs[i] else cs[i].(code := 0))
  }

  /** A message as one team may see it. */
  function Hide(team: Byte, m: CoreMsg): CoreMsg {
    match m
    case Set(_, r) => Set(0, r)
    case Shuffle(extra, con, codes, r) =>
      if con == team then m else Shuffle(extra, con, HideCards(Never, team, codes), r)
    case Move(_, p, c, r) => if c.con == team || IsLocInfoPublic(c) then m else Move(0, p, c, r)
    case SpSummoning(_, c, r) => if c.con == team || !FaceDown(c.pos) then m else SpSummoning(0, c, r)
    case Draw(con, cards, r) => if con == team then m else Draw(con, HideCards(ByPosition, team, cards), r)
    case TagSwap(con, main, extra, pendulums, hand, top, cards, r) =>
      if con == team then m
      else TagSwap(con, main, extra, pendulums, hand, top, HideCards(ByPosition, team, cards), r)
    case SelectCard(head, cards, r) => SelectCard(head, HideCards(ByController, team, cards), r)
    case SelectTribute(head, cards, r) => SelectTribute(head, HideCards(ByController, team, cards), r)
    case SelectUnselect(head, cards, others, r) =>
      SelectUnselect(head, HideCards(ByController, team, cards), HideCards(ByController, team, others), r)
    case Other(_) => m
  }

  /** Two messages that differ at most in codes hidden from a team. */
  ghost predicate SameCards(rule: Rule, team: Byte, cs: seq<Card>, ds: seq<Card>) {
    && |cs| == |ds|
    && forall i :: 0 <= i < |cs| ==> cs[i].about == ds[i].about && (Known(rule, team, cs[i].about) ==> cs[i].code == ds[i].code)
  }

  ghost predicate LooksAlike(team: Byte, m: CoreMsg, n: CoreMsg) {
    match (m, n)
    case (Set(_, r), Set(_, s)) => r == s
    case (Shuffle(e, con, cs, r), Shuffle(f, con', ds, s)) =>
      e == f && con == con' && r == s && (if con == team then cs == ds else SameCards(Never, team, cs, ds))
    case (Move(c, p, l, r), Move(d, q, l', s)) =>
      p == q && l == l' && r == s && (l.con == team || IsLocInfoPublic(l) ==> c == d)
    case (SpSummoning(c, l, r), SpSummoning(d, l', s)) =>
      l == l' && r == s && (l.con == team || !FaceDown(l.pos) ==> c == d)
    case (Draw(con, cs, r), Draw(con', ds, s)) =>
      con == con' && r == s && (if con == team then cs == ds else SameCards(ByPosition, team, cs, ds))
    case (TagSwap(con, a, b, c, d, e, cs, r), TagSwap(con', a', b', c', d', e', ds, s)) =>
      && con == con' && a == a' && b == b' && c == c' && d == d' && e == e' && r == s
      && (if con == team then cs == ds else SameCards(ByPosition, team, cs, ds))
    case (SelectCard(h, cs, r), SelectCard(h', ds, s)) => h == h' && r == s && SameCards(ByController, team, cs, ds)
    case (SelectTribute(h, cs, r), SelectTribute(h', ds, s)) => h == h' && r == s && SameCards(ByController, team, cs, ds)
    case (SelectUnselect(h, cs, cs', r), SelectUnselect(h', ds, ds', s)) =>
      h == h' && r == s && SameCards(ByController, team, cs, ds) && SameCards(ByController, team, cs', ds')
    case (Other(a), Other(b)) => a == b
    case _ => false
  }

  lemma HideCardsTwice(rule: Rule, team: Byte, other: Byte, cs: seq<Card>)
    ensures HideCards(rule, team, HideCards(rule, team, cs)) == HideCards(rule, team, cs)
    ensures HideCards(rule, team, HideCards(rule, other, cs)) == HideCards(rule, other, HideCards(rule, team, cs))
  {
  }

  lemma HideCardsAlike(rule: Rule, team: Byte, cs: seq<Card>, ds: seq<Card>)
    ensures SameCards(rule, team, cs, HideCards(rule, team, cs))
    ensures SameCards(rule, team, cs, ds) ==> HideCards(rule, team, cs) == HideCards(rule, team, ds)
    ensures HideCards(rule, team, cs) == HideCards(rule, team, ds) ==> SameCards(rule, team, cs, ds)
  {
    var hc, hd := HideCards(rule, team, cs), HideCards(rule, team, ds);
    if hc == hd {
      assert |cs| == |ds|;
      forall i | 0 <= i < |cs| ensures cs[i].about == ds[i].about && (Known(rule, team, cs[i].about) ==> cs[i].code == ds[i].code) {
        assert hc[i] == hd[i];
      }
    }
  }

  /** Hiding is idempotent, and the order in which two teams' knowledge is taken
    * away does not matter: there is one form for the spectators. */
  lemma HideTwice(team: Byte, other: Byte, m: CoreMsg)
    ensures Hide(team, Hide(team, m)) == Hide(team, m)
    ensures Hide(team, Hide(other, m)) == Hide(other, Hide(team, m))
  {
    match m
    case Shuffle(_, _, codes, _) => HideCardsTwice(Never, team, other, codes); HideCardsTwice(Never, team, team, codes);
    case Draw(_, cards, _) => HideCardsTwice(ByPosition, team, other, cards);
    case TagSwap(_, _, _, _, _, _, cards, _) => HideCardsTwice(ByPosition, team, other, cards);
    case SelectCard(_, cards, _) => HideCardsTwice(ByController, team, other, cards);
    case SelectTribute(_, cards, _) => HideCardsTwice(ByController, team, other, cards);
    case SelectUnselect(_, cards, others, _) =>
      HideCardsTwice(ByController, team, other, cards);
      HideCardsTwice(ByController, team, other, others);
    case _ =>
  }

  /** A team can tell two messages apart after hiding exactly when they differ in
    * something that is not hidden from it. */
  lemma HideExactly(team: Byte, m: CoreMsg, n: CoreMsg)
    ensures Hide(team, m) == Hide(team, n) <==> LooksAlike(team, m, n)
    ensures LooksAlike(team, m, Hide(team, m))
  {
    HideKeepsLooks(team, m);
    match (m, n)
    case (Shuffle(_, _, cs, _), Shuffle(_, _, ds, _)) => HideCardsAlike(Never, team, cs, ds);
    case (Draw(_, cs, _), Draw(_, ds, _)) => HideCardsAlike(ByPosition, team, cs, ds);
    case (TagSwap(_, _, _, _, _, _, cs, _), TagSwap(_, _, _, _, _, _, ds, _)) => HideCardsAlike(ByPosition, team, cs, ds);
    case (SelectCard(_, cs, _), SelectCard(_, ds, _)) => HideCardsAlike(ByController, team, cs, ds);
    case (SelectTribute(_, cs, _), SelectTribute(_, ds, _)) => HideCardsAlike(ByController, team, cs, ds);
    case (SelectUnselect(_, cs, cs', _), SelectUnselect(_, ds, ds', _)) =>
      HideCardsAlike(ByController, team, cs, ds);
      HideCardsAlike(ByController, team, cs', ds');
    case _ =>
  }

  lemma HideKeepsLooks(team: Byte, m: CoreMsg)
    ensures LooksAlike(team, m, Hide(team, m))
  {
    match m
    case Shuffle(_, _, codes, _) => HideCardsAlike(Never, team, codes, codes);
    case Draw(_, cards, _) => HideCardsAlike(ByPosition, team, cards, cards);
    case TagSwap(_, _, _, _, _, _, cards, _) => HideCardsAlike(ByPosition, team, cards, cards);
    case SelectCard(_, cards, _) => HideCardsAlike(ByController, team, cards, cards);
    case SelectTribute(_, cards, _) => HideCardsAlike(ByController, team, cards, cards);
    case SelectUnselect(_, cards, others, _) =>
      HideCardsAlike(ByController, team, cards, cards);
      HideCardsAlike(ByController, team, others, others);
    case _ =>
  }

  // ---------------------------------------------------------- on the bytes

  lemma {:induction false} CardsLength(cs: seq<Card>, w: nat)
    requires CardsFit(cs, w)
    ensures |CardsBytes(cs)| == |cs| * (4 + w)
    decreases |cs|
  {
    if cs != [] {
      CardsLength(cs[1..], w);
    }
  }

  /** Hiding keeps the shape, the type and the length of a message. */
  lemma HideKeepsShape(team: Byte, m: CoreMsg)
    requires Valid(m)
    ensures Valid(Hide(team, m)) && TypeOf(Hide(team, m)) == TypeOf(m)
    ensures !m.Other? ==> Before(Hide(team, m)) == Before(m) && |Middle(Hide(team, m))| == |Middle(m)|
    ensures |Encode(Hide(team, m))| == |Encode(m)| && Encode(m)[0] == TypeOf(m)
  {
    hide CardsBytes, HideCards, LE;
    match m
    case Shuffle(_, _, codes, _) => SameLength(Never, team, codes, 0);
    case Draw(_, cards, _) => SameLength(ByPosition, team, cards, 4);
    case TagSwap(_, _, _, _, _, _, cards, _) => SameLength(ByPosition, team, cards, 4);
    case SelectCard(_, cards, _) => SameLength(ByController, team, cards, 10);
    case SelectTribute(_, cards, _) => SameLength(ByController, team, cards, 7);
    case SelectUnselect(_, cards, others, _) =>
      SameLength(ByController, team, cards, 10);
      SameLength(ByController, team, others, 10);
    case _ =>
  }

  lemma SameLength(rule: Rule, team: Byte, cs: seq<Card>, w: nat)
    requires CardsFit(cs, w)
    ensures CardsFit(HideCards(rule, team, cs), w) && |CardsBytes(HideCards(rule, team, cs))| == |CardsBytes(cs)|
  {
    CardsLength(cs, w);
    CardsLength(HideCards(rule, team, cs), w);
  }

  /** A message whose distribution type is not one of the stripped ones is not
    * changed by stripping; a question goes to one duelist only. */
  lemma DistributionAgrees(team: Byte, m: CoreMsg)
    requires Valid(m)
    requires Encode(m)[0] == MSG_HINT ==> |Encode(m)| > 1
    requires Encode(m)[0] == MSG_CONFIRM_CARDS ==> |Encode(m)| >= 6 && (ReadAt(Encode(m), 2, 4) != 0 ==> |Encode(m)| >= 12)
    ensures GetMessageDistributionType(Encode(m)) !in {SpecificTeamDuelistStripped, EveryoneStripped} ==> Hide(team, m) == m
    ensures DoesMessageRequireAnswer(Encode(m)[0]) ==>
              GetMessageDistributionType(Encode(m)) in {SpecificTeamDuelistStripped, SpecificTeamDuelist}
    ensures GetMessageDistributionType(Encode(m)) == EveryoneStripped <==> StrippedForAll(Encode(m)[0])
  {
    hide Encode, Before, Middle, CardsFit, HideCards, ReadAt;
    HideKeepsShape(team, m);
  }
}
