/** Which cards the server asks the core about before and after it passes a
  * message on (CoreUtils.cpp), and what that means for the codec. */
module QueryRequests {
  import opened Options
  import opened Words
  import opened ByteIO
  import opened QueryCodec
  import opened QueryViews
  import opened Messages

  datatype Request =
    | Single(con: nat, loc: nat, seq_: nat, flags: nat)
    | Location(con: nat, loc: nat, flags: nat)

  const LOCATION_HAND := 0x02
  const LOCATION_MZONE := 0x04
  const LOCATION_SZONE := 0x08
  const LOCATION_GRAVE := 0x10
  const LOCATION_EXTRA := 0x40

  const MSG_SELECT_BATTLECMD: Byte := 10
  const MSG_SELECT_IDLECMD: Byte := 11
  const MSG_SELECT_CHAIN: Byte := 16
  const MSG_SWAP_GRAVE_DECK: Byte := 35
  const MSG_SHUFFLE_SET_CARD: Byte := 36
  const MSG_REVERSE_DECK: Byte := 37
  const MSG_NEW_TURN: Byte := 40
  const MSG_NEW_PHASE: Byte := 41
  const MSG_POS_CHANGE: Byte := 53
  const MSG_SWAP: Byte := 55
  const MSG_SUMMONED: Byte := 61
  const MSG_SPSUMMONED: Byte := 63
  const MSG_FLIPSUMMONING: Byte := 64
  const MSG_FLIPSUMMONED: Byte := 65
  const MSG_CHAINED: Byte := 71
  const MSG_CHAIN_END: Byte := 74
  const MSG_DAMAGE_STEP_START: Byte := 113
  const MSG_DAMAGE_STEP_END: Byte := 114
  const MSG_RELOAD_FIELD: Byte := 162

  function OfBoth(loc: nat, flags: nat): seq<Request> { [Location(0, loc, flags), Location(1, loc, flags)] }

  const ALL_DECKS := OfBoth(LOCATION_DECK, 0x1181FFF)
  const ALL_HANDS := OfBoth(LOCATION_HAND, 0x3781FFF)
  const ALL_MZONES := OfBoth(LOCATION_MZONE, 0x3981FFF)
  const ALL_SZONES := OfBoth(LOCATION_SZONE, 0x3F81FFF)

  /** The bytes of a message that its requests are made from. */
  function Needed(t: Byte): nat {
    if t == MSG_FLIPSUMMONING then 15
    else if t == MSG_MOVE then 25
    else if t == MSG_POS_CHANGE then 10
    else if t == MSG_SWAP then 29
    else if t in {MSG_SHUFFLE_HAND, MSG_DRAW, MSG_SHUFFLE_EXTRA, MSG_SWAP_GRAVE_DECK, MSG_SHUFFLE_SET_CARD, MSG_TAG_SWAP} then 2
    else 1
  }

  predicate LongEnough(msg: seq<Byte>) { |msg| > 0 && Needed(msg[0]) <= |msg| }

  function AtPlace(l: LocInfo): Request { Single(l.con, l.loc, l.seq_, 0x3F81FFF) }

  /** `GetPreDistQueryRequests`. */
  function PreDist(msg: seq<Byte>): seq<Request>
    requires LongEnough(msg)
  {
    var t := msg[0];
    if t in {MSG_SELECT_BATTLECMD, MSG_SELECT_IDLECMD} then ALL_HANDS + ALL_MZONES + ALL_SZONES
    else if t in {MSG_SELECT_CHAIN, MSG_NEW_TURN} then ALL_MZONES + ALL_SZONES
    else if t == MSG_FLIPSUMMONING then [AtPlace(ReadLoc(msg, 5))]
    else []
  }

  /** The card came to another place, and not under another card. */
  predicate MovedElsewhere(previous: LocInfo, current: LocInfo) {
    (previous.con != current.con || previous.loc != current.loc) && current.loc != 0 && (current.loc / 128) % 2 == 0
  }

  /** `GetPostDistQueryRequests`. */
  function PostDist(msg: seq<Byte>): seq<Request>
    requires LongEnough(msg)
  {
    var t := msg[0];
    if t in {MSG_SHUFFLE_HAND, MSG_DRAW} then [Location(msg[1], LOCATION_HAND, 0x3781FFF)]
    else if t == MSG_SHUFFLE_EXTRA then [Location(msg[1], LOCATION_EXTRA, 0x381FFF)]
    else if t == MSG_SWAP_GRAVE_DECK then [Location(msg[1], LOCATION_GRAVE, 0x381FFF)]
    else if t == MSG_REVERSE_DECK then ALL_DECKS
    else if t == MSG_SHUFFLE_SET_CARD then OfBoth(msg[1], 0x3181FFF)
    else if t in {MSG_DAMAGE_STEP_START, MSG_DAMAGE_STEP_END} then ALL_MZONES
    else if t in {MSG_SUMMONED, MSG_SPSUMMONED, MSG_FLIPSUMMONED} then ALL_MZONES + ALL_SZONES
    else if t in {MSG_NEW_PHASE, MSG_CHAINED} then ALL_MZONES + ALL_SZONES + ALL_HANDS
    else if t == MSG_CHAIN_END then ALL_DECKS + ALL_MZONES + ALL_SZONES + ALL_HANDS
    else if t == MSG_MOVE then
      if MovedElsewhere(ReadLoc(msg, 5), ReadLoc(msg, 15)) then [AtPlace(ReadLoc(msg, 15))] else []
    else if t == MSG_POS_CHANGE then
      if FaceDown(msg[8]) && FaceUp(msg[9])
      then [Single(msg[5], msg[6], msg[7], 0x3F81FFF)] else []
    else if t == MSG_SWAP then [AtPlace(ReadLoc(msg, 5)), AtPlace(ReadLoc(msg, 19))]
    else if t == MSG_TAG_SWAP then
      [Location(msg[1], LOCATION_DECK, 0x1181FFF), Location(msg[1], LOCATION_EXTRA, 0x381FFF),
       Location(msg[1], LOCATION_HAND, 0x3781FFF)]
      + OfBoth(LOCATION_MZONE, 0x3181FFF) + OfBoth(LOCATION_SZONE, 0x3781FFF)
    else if t == MSG_RELOAD_FIELD then OfBoth(LOCATION_EXTRA, 0x381FFF)
    else []
  }

  // ------------------------------------------------------------ what is asked

  predicate Asked(flags: nat, i: FlagBit) { (flags / Flag(i)) % 2 == 1 }

  /** Every mask the server uses. */
  const MASKS: set<nat> := {0x1181FFF, 0x3781FFF, 0x3981FFF, 0x3F81FFF, 0x381FFF, 0x3181FFF}

  /** Only extra decks and graveyards are asked about with the mask that leaves
    * out whether a card is hidden. */
  predicate Usual(r: Request) {
    r.flags in MASKS && (r.flags == 0x381FFF ==> r.Location? && r.loc in {LOCATION_EXTRA, LOCATION_GRAVE})
  }

  lemma PreDistUsual(msg: seq<Byte>)
    requires LongEnough(msg)
    ensures forall r :: r in PreDist(msg) ==> Usual(r)
  {
    hide ReadLoc;
  }

  lemma PostDistUsual(msg: seq<Byte>)
    requires LongEnough(msg)
    ensures forall r :: r in PostDist(msg) ==> Usual(r)
  {
    hide ReadLoc, FaceUp, FaceDown, MovedElsewhere;
  }

  lemma FlagsAround()
    ensures Flag(POSITION) == 2 && Flag(TARGET_CARD) == 0x8000 && Flag(OVERLAY_CARD) == 0x1_0000 && Flag(COUNTERS) == 0x2_0000
    ensures Flag(IS_PUBLIC) == 0x10_0000 && Flag(IS_HIDDEN) == 0x100_0000
  {
    assert Flag(8) == 0x100;
    assert Flag(16) == 0x100 * Flag(8);
    assert Flag(20) == 0x10 * Flag(16);
  }

  lemma MaskBits(flags: nat)
    requires flags in MASKS
    ensures !Asked(flags, TARGET_CARD) && !Asked(flags, OVERLAY_CARD) && !Asked(flags, COUNTERS)
    ensures Asked(flags, POSITION) && Asked(flags, IS_PUBLIC)
    ensures !Asked(flags, IS_HIDDEN) ==> flags == 0x381FFF
  {
    FlagsAround();
  }

  lemma ListBits(i: FlagBit)
    requires IsList(i)
    ensures i in {TARGET_CARD, OVERLAY_CARD, COUNTERS}
  {
  }

  /** The server never asks for a list. It always asks for what secrecy is decided
    * by: the position, whether the card is public, and, except in graveyards and
    * for extra decks, whether it is hidden. */
  lemma NeverAsksForLists(msg: seq<Byte>, r: Request)
    requires LongEnough(msg) && r in PreDist(msg) + PostDist(msg)
    ensures forall i: FlagBit :: IsList(i) ==> !Asked(r.flags, i)
    ensures Asked(r.flags, POSITION) && Asked(r.flags, IS_PUBLIC)
    ensures !Asked(r.flags, IS_HIDDEN) ==> r.Location? && r.loc in {LOCATION_EXTRA, LOCATION_GRAVE}
  {
    hide Asked, IsList, PreDist, PostDist, LongEnough;
    PreDistUsual(msg);
    PostDistUsual(msg);
    assert Usual(r);
    MaskBits(r.flags);
    forall i: FlagBit | IsList(i) ensures !Asked(r.flags, i) {
      ListBits(i);
    }
  }

  /** The core answers with what it was asked for, and the end marker. */
  ghost predicate Answers(flags: nat, c: Option<Query>) {
    c.Some? ==> QueryCodec.Valid(c.value) && c.value.flags[END] && forall i: FlagBit :: c.value.flags[i] ==> Asked(flags, i) || i == END
  }

  /** So in a duel, where only such answers are passed on, every query survives the
    * trip, in the form its reader may see. */
  lemma AnswersSurvive(msg: seq<Byte>, r: Request, c: Option<Query>, public: bool, b: seq<Byte>, pos: nat)
    requires LongEnough(msg) && r in PreDist(msg) + PostDist(msg) && Answers(r.flags, c)
    requires Holds(b, pos, Serialized(c, public))
    ensures ParseOne(b, pos) == Ok(ViewOf(c, public), pos + |Serialized(c, public)|)
  {
    hide *;
    NeverAsksForLists(msg, r);
    AnswersSendable(r.flags, c, public);
    SingleQueryRoundTrip(b, pos, c, public);
  }

  lemma AnswersSendable(flags: nat, c: Option<Query>, public: bool)
    requires Answers(flags, c) && forall i: FlagBit :: IsList(i) ==> !Asked(flags, i)
    ensures Sendable(c, public)
  {
    hide Asked, QueryCodec.Valid;
  }
}
