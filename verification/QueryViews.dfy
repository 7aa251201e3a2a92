/** What the query codec guarantees: a view survives the trip over the wire, the
  * views compose, and the public bytes carry nothing that is not public. */
module QueryViews {
  import opened Options
  import opened Arith
  import opened Words
  import opened ByteIO
  import opened QueryCodec

  // ------------------------------------------------------------- round trips

  lemma {:induction false} FlagsIncrease(i: FlagBit, j: FlagBit)
    requires i < j
    ensures Flag(i) < Flag(j)
    decreases i + j
  {
    if i > 0 {
      FlagsIncrease(i - 1, j - 1);
    } else {
      assert Flag(j) == 2 * Flag(j - 1);
    }
  }

  /** The flag words are distinct, and a flag word has one bit set. */
  lemma {:induction false} FlagBits(i: FlagBit, j: FlagBit)
    ensures (Flag(i) / Flag(j)) % 2 == 1 <==> i == j
    ensures Flag(i) == Flag(j) <==> i == j
    decreases i + j
  {
    if i < j {
      FlagsIncrease(i, j);
      DivModUnique(Flag(i), Flag(j), 0, Flag(i));
    } else if i == j {
      DivModUnique(Flag(i), Flag(i), 1, 0);
    } else {
      FlagsIncrease(j, i);
      if j > 0 {
        FlagBits(i - 1, j - 1);
        DivDouble(Flag(i - 1), Flag(j - 1));
      }
    }
  }

  lemma {:induction false} FlagBelow(i: FlagBit)
    ensures Flag(i) <= Flag(31) == 0x8000_0000
    decreases 31 - i
  {
    if i < 31 {
      FlagBelow(i + 1);
    } else {
      assert Flag(7) == 128 && Flag(15) == 0x8000 && Flag(23) == 0x80_0000;
    }
  }

  lemma {:induction false} FlagFound(i: FlagBit, j: nat)
    requires j <= i
    ensures FindFlag(Flag(i), j) == Some(i)
    decreases i - j
  {
    FlagBits(i, j);
    if j < i {
      FlagFound(i, j + 1);
    }
  }

  /** What has been read when the fields below bit `i` have been. */
  function Partial(q: Query, public: bool, i: nat): (v: Query)
    requires Valid(q)
    ensures Valid(v)
  {
    Query(seq(32, j requires 0 <= j < 32 => j < i && Visible(q, public, j)),
          seq(32, j requires 0 <= j < 32 => if j < i && Visible(q, public, j) then q.fields[j] else Default(KindOf(j))))
  }

  lemma OrFlagSets(flags: seq<bool>, i: FlagBit)
    requires |flags| == 32
    ensures OrFlag(flags, Flag(i)) == flags[i := true]
  {
    forall j: nat | j < 32 ensures OrFlag(flags, Flag(i))[j] == flags[i := true][j] {
      FlagBits(i, j);
    }
  }

  /** One written value is read back, whatever it held before. */
  lemma FieldRecovers(b: seq<Byte>, pos: nat, k: Kind, size: nat, f: Field, was: Field)
    requires Fits(k, f) && Fits(k, was) && k != LocList && k != U32List && k != Bare
    requires Holds(b, pos, Payload(k, f))
    ensures ReadField(b, pos, k, size, was) == Ok(f, pos + PayloadSize(k, f))
  {
    Widths();
    match k
    case U8 => ReadHeld(b, pos, f.n, 1);
    case U32 => ReadHeld(b, pos, f.n, 4);
    case U64 => ReadHeld(b, pos, f.n, 8);
    case LinkPair =>
      HoldsSplit(b, pos, LE(f.link, 4), LE(f.marker, 4));
      ReadHeld(b, pos, f.link, 4);
      ReadHeld(b, pos + 4, f.marker, 4);
    case Loc => LocRecovers(b, pos, f.info);
  }

  lemma LocRecovers(b: seq<Byte>, pos: nat, l: LocInfo)
    requires LocFits(l) && Holds(b, pos, LocBytes(l))
    ensures ReadLoc(b, pos) == l
  {
    Widths();
    HoldsSplit(b, pos, LE(l.con, 1) + LE(l.loc, 1) + LE(l.seq_, 4), LE(l.pos, 4));
    HoldsSplit(b, pos, LE(l.con, 1) + LE(l.loc, 1), LE(l.seq_, 4));
    HoldsSplit(b, pos, LE(l.con, 1), LE(l.loc, 1));
    ReadHeld(b, pos, l.con, 1);
    ReadHeld(b, pos + 1, l.loc, 1);
    ReadHeld(b, pos + 2, l.seq_, 4);
    ReadHeld(b, pos + 6, l.pos, 4);
  }

  lemma SmallPayload(i: FlagBit, f: Field)
    requires Fits(KindOf(i), f) && !IsList(i)
    ensures |Payload(KindOf(i), f)| == PayloadSize(KindOf(i), f) <= 10
  {
  }

  lemma HeaderRecovers(b: seq<Byte>, pos: nat, size: nat, flag: nat)
    requires size + 4 < 0x1_0000 && flag < WORD && Holds(b, pos, Header(size, flag))
    ensures pos + 6 <= |b| && ReadAt(b, pos, 2) == size + 4 && ReadAt(b, pos + 2, 4) == flag
  {
    hide LE, ReadAt;
    Widths();
    assert Header(size, flag) == LE(size + 4, 2) + LE(flag, 4);
    HoldsSplit(b, pos, LE(size + 4, 2), LE(flag, 4));
    ReadHeld(b, pos, size + 4, 2);
    ReadHeld(b, pos + 2, flag, 4);
  }

  lemma FieldHeaderRecovers(b: seq<Byte>, pos: nat, q: Query, i: FlagBit)
    requires Valid(q) && !IsList(i) && Holds(b, pos, FieldBytes(q, i))
    ensures pos + 6 <= |b|
    ensures ReadAt(b, pos, 2) == PayloadSize(KindOf(i), q.fields[i]) + 4 && ReadAt(b, pos + 2, 4) == Flag(i)
    ensures Holds(b, pos + 6, Payload(KindOf(i), q.fields[i]))
    ensures |FieldBytes(q, i)| == 6 + PayloadSize(KindOf(i), q.fields[i])
  {
    hide Payload, PayloadSize, KindOf, Flag, LE, ReadAt, Header;
    FlagBelow(i);
    SmallPayload(i, q.fields[i]);
    HoldsSplit(b, pos, Header(PayloadSize(KindOf(i), q.fields[i]), Flag(i)), Payload(KindOf(i), q.fields[i]));
    HeaderRecovers(b, pos, PayloadSize(KindOf(i), q.fields[i]), Flag(i));
  }

  lemma PartialGrows(q: Query, public: bool, i: FlagBit)
    requires Valid(q)
    ensures !Visible(q, public, i) ==> Partial(q, public, i + 1) == Partial(q, public, i)
    ensures Visible(q, public, i) ==>
              Partial(q, public, i + 1) == Query(Partial(q, public, i).flags[i := true],
                                                 Partial(q, public, i).fields[i := q.fields[i]])
    ensures KindOf(i) == Bare ==> Partial(q, public, i).fields[i] == q.fields[i]
    ensures Partial(q, public, 32) == View(q, public)
  {
    hide Visible;
    var was, now := Partial(q, public, i), Partial(q, public, i + 1);
    if Visible(q, public, i) {
      assert now.flags == was.flags[i := true] && now.fields == was.fields[i := q.fields[i]];
    } else {
      assert now.flags == was.flags && now.fields == was.fields;
    }
    assert Partial(q, public, 32).flags == View(q, public).flags;
    assert Partial(q, public, 32).fields == View(q, public).fields;
  }

  /** Reading a field: what the loop body does with a flag it knows. */
  lemma FieldBodyStep(b: seq<Byte>, pos: nat, was: Query, i: FlagBit, f: Field)
    requires Valid(was) && Fits(KindOf(i), f) && !IsList(i) && i != END
    requires pos + 6 <= |b| && ReadAt(b, pos, 2) == PayloadSize(KindOf(i), f) + 4 && ReadAt(b, pos + 2, 4) == Flag(i)
    requires Holds(b, pos + 6, Payload(KindOf(i), f))
    requires KindOf(i) == Bare ==> was.fields[i] == f
    ensures Valid(Query(was.flags[i := true], was.fields[i := f]))
    ensures ParseFields(b, pos, was) ==
              ParseFields(b, pos + 6 + PayloadSize(KindOf(i), f), Query(was.flags[i := true], was.fields[i := f]))
  {
    hide Holds, ReadAt, LE, FromLE, OrFlag, FindFlag, Flag, ReadField;
    FlagFound(i, 0);
    OrFlagSets(was.flags, i);
    var k := KindOf(i);
    assert Valid(Query(was.flags[i := true], was.fields[i := f]));
    assert Query(was.flags[i := true], was.fields) == was.(flags := was.flags[i := true]);
    if k == Bare {
      assert PayloadSize(k, f) == 0;
      assert was.fields[i := f] == was.fields;
    } else {
      FieldRecovers(b, pos + 6, k, ReadAt(b, pos, 2), f, was.fields[i]);
    }
  }

  lemma EndStep(b: seq<Byte>, pos: nat, was: Query)
    requires Valid(was) && pos + 6 <= |b| && ReadAt(b, pos + 2, 4) == Flag(END)
    ensures ParseFields(b, pos, was) == Ok(was.(flags := was.flags[END := true]), pos + 6)
  {
    FlagFound(END, 0);
    OrFlagSets(was.flags, END);
    hide ReadAt, OrFlag, FindFlag, Flag, Valid;
  }

  /** Reading one visible field takes the reader to the next one. */
  lemma FieldStep(b: seq<Byte>, pos: nat, q: Query, public: bool, i: FlagBit)
    requires Valid(q) && Visible(q, public, i) && !IsList(i) && Holds(b, pos, FieldBytes(q, i)) && i != END
    ensures ParseFields(b, pos, Partial(q, public, i)) == ParseFields(b, pos + |FieldBytes(q, i)|, Partial(q, public, i + 1))
  {
    hide *;
    ValidAt(q, i);
    FieldHeaderRecovers(b, pos, q, i);
    PartialGrows(q, public, i);
    FieldBodyStep(b, pos, Partial(q, public, i), i, q.fields[i]);
  }

  lemma ValidAt(q: Query, i: FlagBit)
    requires Valid(q)
    ensures |q.flags| == |q.fields| == 32 && Fits(KindOf(i), q.fields[i])
    ensures i == END ==> i == 31 && KindOf(i) == Bare && !IsList(i) && PayloadSize(KindOf(i), q.fields[i]) == 0
  {
  }

  /** Reading the end marker takes the reader to the end. */
  lemma EndFieldStep(b: seq<Byte>, pos: nat, q: Query, public: bool)
    requires Valid(q) && Visible(q, public, END) && Holds(b, pos, FieldBytes(q, END))
    ensures ParseFields(b, pos, Partial(q, public, END)) == Ok(View(q, public), pos + |FieldBytes(q, END)|)
  {
    hide *;
    var was := Partial(q, public, END);
    ValidAt(q, END);
    ValidAt(was, END);
    FieldHeaderRecovers(b, pos, q, END);
    PartialGrows(q, public, END);
    assert was.fields[END := q.fields[END]] == was.fields;
    EndStep(b, pos, was);
  }

  /** Reading takes the reader over all fields that are not lists. */
  lemma {:induction false} ReadsUpTo(b: seq<Byte>, pos: nat, q: Query, public: bool, j: nat, i: nat) returns (p: nat)
    requires Valid(q) && j <= i <= END && Holds(b, pos, ViewBytes(q, public, j))
    requires forall k: FlagBit :: j <= k < i && Visible(q, public, k) ==> !IsList(k)
    ensures ParseFields(b, pos, Partial(q, public, j)) == ParseFields(b, p, Partial(q, public, i))
    ensures Holds(b, p, ViewBytes(q, public, i)) && p + |ViewBytes(q, public, i)| == pos + |ViewBytes(q, public, j)|
    ensures p >= pos
    decreases i - j
  {
    hide Visible, Partial, FieldBytes, ParseFields, Valid, IsList, Holds;
    p := pos;
    if j < i {
      if !Visible(q, public, j) {
        PartialGrows(q, public, j);
        assert ViewBytes(q, public, j) == ViewBytes(q, public, j + 1);
      } else {
        HoldsSplit(b, pos, FieldBytes(q, j), ViewBytes(q, public, j + 1));
        FieldStep(b, pos, q, public, j);
        p := pos + |FieldBytes(q, j)|;
      }
      p := ReadsUpTo(b, p, q, public, j + 1, i);
    }
  }

  lemma ViewUnfolds(q: Query, public: bool, i: FlagBit)
    requires Valid(q) && Visible(q, public, i)
    ensures ViewBytes(q, public, i) == FieldBytes(q, i) + ViewBytes(q, public, i + 1)
  {
  }

  lemma EndShown(q: Query, public: bool)
    requires Valid(q) && q.flags[END]
    ensures Visible(q, public, END) && ViewBytes(q, public, END + 1) == []
    ensures !ShowsList(q, public, 0) ==> forall k: FlagBit :: Visible(q, public, k) ==> !IsList(k)
  {
  }

  /** Without lists, reading gives the whole view. */
  lemma ViewRecovers(b: seq<Byte>, pos: nat, q: Query, public: bool)
    requires Valid(q) && q.flags[END] && !ShowsList(q, public, 0)
    requires Holds(b, pos, ViewBytes(q, public, 0))
    ensures ParseFields(b, pos, Partial(q, public, 0)) == Ok(View(q, public), pos + |ViewBytes(q, public, 0)|)
  {
    hide *;
    EndShown(q, public);
    var p := ReadsUpTo(b, pos, q, public, 0, END);
    ViewUnfolds(q, public, END);
    assert FieldBytes(q, END) + [] == FieldBytes(q, END);
    HoldsSplit(b, p, FieldBytes(q, END), []);
    EndFieldStep(b, p, q, public);
  }

  ghost predicate SmallFields(q: Query, public: bool)
    requires Valid(q)
  {
    forall k: FlagBit :: Visible(q, public, k) ==> PayloadSize(KindOf(k), q.fields[k]) <= 10
  }

  /** No shown field is so long that its size wraps around on two bytes. */
  ghost predicate SizesFit(q: Query, public: bool)
    requires Valid(q)
  {
    forall k: FlagBit :: Visible(q, public, k) ==> PayloadSize(KindOf(k), q.fields[k]) + 4 < 0x1_0000
  }

  lemma SmallSizesFit(q: Query, public: bool)
    requires Valid(q) && SmallFields(q, public)
    ensures SizesFit(q, public)
  {
  }

  /** The first size field is never the zero that marks an absent card. */
  lemma {:induction false} FirstSizeNotZero(b: seq<Byte>, pos: nat, q: Query, public: bool, i: nat)
    requires Valid(q) && i <= END && q.flags[END] && SizesFit(q, public)
    requires Holds(b, pos, ViewBytes(q, public, i))
    ensures pos + 2 <= |b| && ReadAt(b, pos, 2) != 0
    decreases 32 - i
  {
    assert i == END ==> Visible(q, public, i);
    assert Visible(q, public, i) ==> PayloadSize(KindOf(i), q.fields[i]) + 4 < 0x1_0000;
    assert !Visible(q, public, i) ==> ViewBytes(q, public, i) == ViewBytes(q, public, i + 1);
    hide Holds, Visible, ViewBytes, Header, Flag, ReadAt, SizesFit, Valid, Payload, PayloadSize, KindOf, Fits;
    if Visible(q, public, i) {
      FlagBelow(i);
      ViewUnfolds(q, public, i);
      HoldsSplit(b, pos, FieldBytes(q, i), ViewBytes(q, public, i + 1));
      HoldsSplit(b, pos, Header(PayloadSize(KindOf(i), q.fields[i]), Flag(i)), Payload(KindOf(i), q.fields[i]));
      HeaderRecovers(b, pos, PayloadSize(KindOf(i), q.fields[i]), Flag(i));
    } else {
      FirstSizeNotZero(b, pos, q, public, i + 1);
    }
  }

  lemma NoListsSmallFields(q: Query, public: bool)
    requires Valid(q) && !ShowsList(q, public, 0)
    ensures SmallFields(q, public)
  {
    forall k: FlagBit | Visible(q, public, k) ensures PayloadSize(KindOf(k), q.fields[k]) <= 10 {
      SmallPayload(k, q.fields[k]);
    }
  }

  /** What the codec is meant for: the end marker is set, no list is shown. */
  ghost predicate Sendable(c: Option<Query>, public: bool) {
    c.Some? ==> Valid(c.value) && c.value.flags[END] && !ShowsList(c.value, public, 0)
  }

  function ViewOf(c: Option<Query>, public: bool): Option<Query>
    requires c.Some? ==> Valid(c.value)
  {
    if c.Some? then Some(View(c.value, public)) else None
  }

  lemma StartsEmpty(q: Query, public: bool)
    requires Valid(q)
    ensures Partial(q, public, 0) == Empty()
  {
    assert Partial(q, public, 0).flags == Empty().flags && Partial(q, public, 0).fields == Empty().fields;
  }

  lemma NothingPadded(q: Query, public: bool)
    requires Valid(q) && !ShowsList(q, public, 0)
    ensures Serialized(Some(q), public) == ViewBytes(q, public, 0)
  {
    SizeExactIffNoLists(q, public, 0);
  }

  lemma AbsentRecovers(b: seq<Byte>, pos: nat)
    requires Holds(b, pos, [0, 0])
    ensures ParseOne(b, pos) == Ok(None, pos + 2)
  {
    Widths();
    assert LE(0, 2) == [0, 0];
    ReadHeld(b, pos, 0, 2);
  }

  lemma ParseOnePresent(b: seq<Byte>, pos: nat)
    requires pos + 2 <= |b| && ReadAt(b, pos, 2) != 0
    ensures ParseOne(b, pos)
         == match ParseFields(b, pos, Empty()) { case Overrun => Overrun case Ok(q, p) => Ok(Some(q), p) }
  {
    hide ParseFields, ReadAt, Empty;
  }

  lemma PresentRecovers(b: seq<Byte>, pos: nat, q: Query, public: bool)
    requires Valid(q) && q.flags[END] && !ShowsList(q, public, 0) && Holds(b, pos, ViewBytes(q, public, 0))
    ensures ParseOne(b, pos) == Ok(Some(View(q, public)), pos + |ViewBytes(q, public, 0)|)
  {
    hide *;
    NoListsSmallFields(q, public);
    SmallSizesFit(q, public);
    FirstSizeNotZero(b, pos, q, public, 0);
    ViewRecovers(b, pos, q, public);
    StartsEmpty(q, public);
    ParseOnePresent(b, pos);
  }

  lemma WhatIsSendable(q: Query, public: bool)
    requires Sendable(Some(q), public)
    ensures Valid(q) && q.flags[END] && !ShowsList(q, public, 0)
    ensures ViewOf(Some(q), public) == Some(View(q, public))
  {
    hide ShowsList, View;
  }

  /** Deserialising what was serialised gives the query as that side may see
    * it, anywhere in a buffer. */
  lemma SingleQueryRoundTrip(b: seq<Byte>, pos: nat, c: Option<Query>, public: bool)
    requires Sendable(c, public) && Holds(b, pos, Serialized(c, public))
    ensures ParseOne(b, pos) == Ok(ViewOf(c, public), pos + |Serialized(c, public)|)
  {
    hide *;
    if c.None? {
      AbsentSerialized(public);
      AbsentRecovers(b, pos);
    } else {
      WhatIsSendable(c.value, public);
      NothingPadded(c.value, public);
      PresentRecovers(b, pos, c.value, public);
    }
  }

  lemma AbsentSerialized(public: bool)
    ensures Serialized(None, public) == [0, 0] && ViewOf(None, public) == None
  {
  }

  // -------------------------------------------------------- location vectors

  ghost predicate AllValid(cs: seq<Option<Query>>) {
    forall i :: 0 <= i < |cs| && cs[i].Some? ==> Valid(cs[i].value)
  }

  ghost predicate AllSendable(cs: seq<Option<Query>>, public: bool) {
    forall i :: 0 <= i < |cs| ==> Sendable(cs[i], public)
  }

  /** `SerializeLocationQuery` after its length field. */
  ghost function Cards(cs: seq<Option<Query>>, public: bool): seq<Byte>
    requires AllValid(cs)
  {
    if cs == [] then [] else Serialized(cs[0], public) + Cards(cs[1..], public)
  }

  ghost function LocationBytes(cs: seq<Option<Query>>, public: bool): seq<Byte>
    requires AllValid(cs)
  {
    LE(|Cards(cs, public)| % WORD, 4) + Cards(cs, public)
  }

  /** The loop of `DeserializeLocationQueryBuffer` up to its end pointer. */
  ghost function ParseCards(b: seq<Byte>, pos: nat, end: nat): (r: Parsed<seq<Option<Query>>>)
    decreases if pos < |b| then |b| - pos else 0
  {
    if pos >= end then Ok([], pos)
    else
      match ParseOne(b, pos)
      case Overrun => Overrun
      case Ok(c, pos') =>
        if pos >= |b| then Overrun
        else
          match ParseCards(b, pos', end)
          case Overrun => Overrun
          case Ok(rest, last) => Ok([c] + rest, last)
  }

  ghost function ParseLocation(b: seq<Byte>): Parsed<seq<Option<Query>>> {
    if |b| < 4 then Overrun else ParseCards(b, 4, 4 + ReadAt(b, 0, 4))
  }

  lemma {:induction false} CardsAreValid(b: seq<Byte>, pos: nat, end: nat)
    ensures ParseCards(b, pos, end).Ok? ==> AllValid(ParseCards(b, pos, end).value)
    decreases if pos < |b| then |b| - pos else 0
  {
    hide ParseOne, Valid;
    if pos < end && pos < |b| && ParseOne(b, pos).Ok? {
      CardsAreValid(b, ParseOne(b, pos).pos, end);
    }
  }

  lemma ParsedAreValid(b: seq<Byte>)
    ensures ParseLocation(b).Ok? ==> AllValid(ParseLocation(b).value)
  {
    hide ParseCards, AllValid, ReadAt;
    if |b| >= 4 {
      CardsAreValid(b, 4, 4 + ReadAt(b, 0, 4));
    }
  }

  ghost function ViewsOf(cs: seq<Option<Query>>, public: bool): (vs: seq<Option<Query>>)
    requires AllValid(cs)
    ensures |vs| == |cs|
  {
    if cs == [] then [] else [ViewOf(cs[0], public)] + ViewsOf(cs[1..], public)
  }

  lemma {:induction false} CardsRecover(b: seq<Byte>, pos: nat, cs: seq<Option<Query>>, public: bool)
    requires AllValid(cs) && AllSendable(cs, public)
    requires Holds(b, pos, Cards(cs, public))
    ensures ParseCards(b, pos, pos + |Cards(cs, public)|) == Ok(ViewsOf(cs, public), pos + |Cards(cs, public)|)
    decreases |cs|
  {
    hide Sendable, Valid, Holds, ParseOne, Serialized, ViewOf;
    if cs != [] {
      assert AllValid(cs[1..]) && AllSendable(cs[1..], public);
      HoldsSplit(b, pos, Serialized(cs[0], public), Cards(cs[1..], public));
      SingleQueryRoundTrip(b, pos, cs[0], public);
      CardsRecover(b, pos + |Serialized(cs[0], public)|, cs[1..], public);
    }
  }

  lemma LocationParts(cs: seq<Option<Query>>, public: bool)
    requires AllValid(cs) && |Cards(cs, public)| < WORD
    ensures var b := LocationBytes(cs, public);
            |b| == 4 + |Cards(cs, public)| && ReadAt(b, 0, 4) == |Cards(cs, public)| && Holds(b, 4, Cards(cs, public))
  {
    hide AllValid, Cards, LE, ReadAt;
    var b := LocationBytes(cs, public);
    Widths();
    assert b[..4] == LE(|Cards(cs, public)|, 4) && b[4..] == Cards(cs, public);
    assert Holds(b, 0, LE(|Cards(cs, public)|, 4));
    ReadHeld(b, 0, |Cards(cs, public)|, 4);
  }

  /** A whole location survives as long as its length fits the length field. */
  lemma LocationRoundTrip(cs: seq<Option<Query>>, public: bool)
    requires AllValid(cs) && AllSendable(cs, public)
    requires |Cards(cs, public)| < WORD
    ensures ParseLocation(LocationBytes(cs, public)) == Ok(ViewsOf(cs, public), |LocationBytes(cs, public)|)
  {
    hide AllSendable, AllValid, Cards, ViewsOf, ParseCards, LE, ReadAt;
    var b := LocationBytes(cs, public);
    LocationParts(cs, public);
    CardsRecover(b, 4, cs, public);
  }

  lemma {:induction false} SmallFieldsSmallView(q: Query, public: bool, i: nat)
    requires Valid(q) && i <= 32
    requires SmallFields(q, public)
    ensures ViewSize(q, public, i) <= 16 * (32 - i)
    decreases 32 - i
  {
    if i < 32 {
      SmallFieldsSmallView(q, public, i + 1);
    }
  }

  lemma HighHalf(b: seq<Byte>, pos: nat)
    requires Holds(b, pos, [0, 0]) && pos + 4 <= |b|
    ensures ReadAt(b, pos, 4) == 0x1_0000 * ReadAt(b, pos + 2, 2)
  {
    var four := b[pos..pos + 4];
    assert four[..2] == b[pos..pos + 2] == [0, 0];
    assert four[0] == four[..2][0] && four[1] == four[..2][1];
    assert b[pos + 2..pos + 4] == four[2..];
    assert FromLE(four) == four[0] + 256 * FromLE(four[1..]);
    assert four[1..][1..] == four[2..];
  }

  lemma ListOverruns(b: seq<Byte>, pos: nat, k: Kind, size: nat, was: Field)
    requires Fits(k, was) && (k == LocList || k == U32List)
    requires pos + 4 <= |b| < pos + 0x4_0000 && Holds(b, pos, [0, 0]) && ReadAt(b, pos + 2, 2) != 0
    ensures ReadField(b, pos, k, size, was) == Overrun
  {
    hide ReadAt, Holds, Fits, ReadLocs, ReadNums;
    HighHalf(b, pos);
  }

  /** An empty list is written as a count of two bytes; the four bytes that are
    * read as its count take in the size of the next field. */
  lemma EmptyListStep(b: seq<Byte>, pos: nat, was: Query, i: FlagBit)
    requires Valid(was) && IsList(i) && Holds(b, pos, Header(4, Flag(i)) + [0, 0])
    requires pos + 10 <= |b| < pos + 0x4_0000 && ReadAt(b, pos + 8, 2) != 0
    ensures ParseFields(b, pos, was) == Overrun
  {
    hide Header, Flag, FindFlag, ReadAt, Holds, OrFlag, FromLE, ReadField;
    FlagBelow(i);
    FlagFound(i, 0);
    HoldsSplit(b, pos, Header(4, Flag(i)), [0, 0]);
    HeaderRecovers(b, pos, 4, Flag(i));
    ListOverruns(b, pos + 6, KindOf(i), 8, was.fields[i]);
    assert i != END && KindOf(i) != Bare;
  }

  lemma HoldsApart(b: seq<Byte>, pos: nat, s: seq<Byte>, t: seq<Byte>, u: seq<Byte>)
    requires Holds(b, pos, (s + t) + u)
    ensures Holds(b, pos, s + t) && Holds(b, pos + |s| + |t|, u)
  {
    HoldsSplit(b, pos, s + t, u);
  }

  lemma SerializedHolds(q: Query, public: bool)
    requires Valid(q)
    ensures Holds(Serialized(Some(q), public), 0, ViewBytes(q, public, 0))
    ensures |Serialized(Some(q), public)| == ViewSize(q, public, 0)
  {
    hide ViewBytes, ViewSize, Valid;
    SizeExactIffNoLists(q, public, 0);
  }

  lemma EmptyListBytes(i: FlagBit)
    requires IsList(i)
    ensures i < END && Payload(KindOf(i), Default(KindOf(i))) == [0, 0] && PayloadSize(KindOf(i), Default(KindOf(i))) == 4
  {
    assert LE(0, 2) == [0, 0];
    if KindOf(i) == LocList {
      assert LocListBytes([]) == [];
    } else {
      assert NumListBytes([]) == [];
    }
  }

  lemma EmptyListField(q: Query, i: FlagBit)
    requires Valid(q) && IsList(i) && q.fields[i] == Default(KindOf(i))
    ensures FieldBytes(q, i) == Header(4, Flag(i)) + [0, 0]
  {
    hide IsList, Default, KindOf, Payload, PayloadSize, Flag, Header, Valid, Fits;
    EmptyListBytes(i);
  }

  lemma ListThenMore(b: seq<Byte>, p: nat, q: Query, public: bool, i: FlagBit)
    requires Valid(q) && Visible(q, public, i) && IsList(i) && q.fields[i] == Default(KindOf(i))
    requires Holds(b, p, ViewBytes(q, public, i))
    ensures Holds(b, p, Header(4, Flag(i)) + [0, 0]) && Holds(b, p + 8, ViewBytes(q, public, i + 1))
  {
    hide *;
    ViewUnfolds(q, public, i);
    EmptyListField(q, i);
    HoldsApart(b, p, Header(4, Flag(i)), [0, 0], ViewBytes(q, public, i + 1));
  }

  lemma LoneEmptyListSmall(q: Query, public: bool, i: FlagBit)
    requires Valid(q) && IsList(i) && q.fields[i] == Default(KindOf(i))
    requires forall k: FlagBit :: k != i && Visible(q, public, k) ==> !IsList(k)
    ensures i < END && SmallFields(q, public)
  {
    forall k: FlagBit | Visible(q, public, k) ensures PayloadSize(KindOf(k), q.fields[k]) <= 10 {
      if k == i {
        EmptyListBytes(i);
      } else {
        SmallPayload(k, q.fields[k]);
      }
    }
  }

  lemma ParseOneNonZero(b: seq<Byte>)
    requires |b| >= 2 && ReadAt(b, 0, 2) != 0 && ParseFields(b, 0, Empty()) == Overrun
    ensures ParseOne(b, 0) == Overrun
  {
  }

  /** With a list the trip fails: a lone empty list already sends the reader
    * beyond the buffer. (The server asks for no lists: `QueryRequests`.) */
  lemma EmptyListBreaksRoundTrip(q: Query, public: bool, i: FlagBit)
    requires Valid(q) && q.flags[END] && Visible(q, public, i) && IsList(i)
    requires q.fields[i] == Default(KindOf(i))
    requires forall k: FlagBit :: k != i && Visible(q, public, k) ==> !IsList(k)
    ensures ParseOne(Serialized(Some(q), public), 0) == Overrun
  {
    hide *;
    var b := Serialized(Some(q), public);
    LoneEmptyListSmall(q, public, i);
    SmallFieldsSmallView(q, public, 0);
    SerializedHolds(q, public);
    StartsEmpty(q, public);
    var p := ReadsUpTo(b, 0, q, public, 0, i);
    SmallSizesFit(q, public);
    ListThenMore(b, p, q, public, i);
    FirstSizeNotZero(b, p + 8, q, public, i + 1);
    FirstSizeNotZero(b, 0, q, public, 0);
    EmptyListStep(b, p, Partial(q, public, i), i);
    ParseOneNonZero(b);
  }

  // ------------------------------------------------------------------- views

  /** Seeing a query as its owner first takes nothing from what everybody may
    * see, and seeing it twice changes nothing. */
  lemma ViewOfView(q: Query, public: bool)
    requires Valid(q)
    ensures View(View(q, false), true) == View(q, true)
    ensures View(View(q, public), public) == View(q, public)
  {
    var v, p := View(q, false), View(q, public);
    assert CardPublic(v) == CardPublic(q) && CardPublic(p) == CardPublic(q);
    forall i: nat | i < 32
      ensures Visible(v, true, i) == Visible(q, true, i) && Visible(p, public, i) == Visible(q, public, i)
    {
    }
    assert View(v, true).flags == View(q, true).flags && View(p, public).flags == p.flags;
    assert View(v, true).fields == View(q, true).fields && View(p, public).fields == p.fields;
  }

  /** Two queries that everybody may see alike. */
  ghost predicate SamePublicly(q: Query, r: Query)
    requires Valid(q) && Valid(r)
  {
    && (forall i: FlagBit :: !Secret(i) ==> q.flags[i] == r.flags[i] && q.fields[i] == r.fields[i])
    && (CardPublic(q) ==> q == r)
  }

  lemma SameShown(q: Query, r: Query, i: FlagBit)
    requires Valid(q) && Valid(r) && SamePublicly(q, r)
    ensures Visible(q, true, i) == Visible(r, true, i)
    ensures Visible(q, true, i) ==> q.fields[i] == r.fields[i] && FieldBytes(q, i) == FieldBytes(r, i)
  {
    assert CardPublic(q) == CardPublic(r);
    assert Visible(q, true, i) || Visible(r, true, i) ==> q.fields[i] == r.fields[i];
  }

  /** The public bytes carry nothing that is not public, not even whether a
    * secret field was there. */
  lemma {:induction false} PublicBytesHideSecrets(q: Query, r: Query, i: nat)
    requires Valid(q) && Valid(r) && SamePublicly(q, r) && i <= 32
    ensures ViewBytes(q, true, i) == ViewBytes(r, true, i) && ViewSize(q, true, i) == ViewSize(r, true, i)
    decreases 32 - i
  {
    hide Valid, SamePublicly, Visible, FieldBytes, PayloadSize, KindOf, Fits;
    if i < 32 {
      SameShown(q, r, i);
      PublicBytesHideSecrets(q, r, i + 1);
    }
  }

  lemma PublicBuffersHideSecrets(q: Query, r: Query)
    requires Valid(q) && Valid(r) && SamePublicly(q, r)
    ensures Serialized(Some(q), true) == Serialized(Some(r), true)
  {
    hide ViewBytes, ViewSize, SamePublicly, Valid, Zeroes;
    PublicBytesHideSecrets(q, r, 0);
  }

  /** Two answers that everybody may see alike. */
  ghost predicate SameToAll(c: Option<Query>, d: Option<Query>) {
    c.Some? == d.Some? && (c.Some? ==> Valid(c.value) && Valid(d.value) && SamePublicly(c.value, d.value))
  }

  lemma PublicAnswerHidesSecrets(c: Option<Query>, d: Option<Query>)
    requires SameToAll(c, d)
    ensures (c.Some? ==> Valid(c.value)) && (d.Some? ==> Valid(d.value)) && Serialized(c, true) == Serialized(d, true)
  {
    hide Serialized, SamePublicly, Valid;
    if c.Some? {
      PublicBuffersHideSecrets(c.value, d.value);
    }
  }

  lemma {:induction false} PublicCardsHideSecrets(cs: seq<Option<Query>>, ds: seq<Option<Query>>)
    requires AllValid(cs) && AllValid(ds) && |cs| == |ds| && forall i :: 0 <= i < |cs| ==> SameToAll(cs[i], ds[i])
    ensures Cards(cs, true) == Cards(ds, true)
    decreases |cs|
  {
    hide Serialized, SameToAll, Valid;
    if cs != [] {
      PublicAnswerHidesSecrets(cs[0], ds[0]);
      PublicCardsHideSecrets(cs[1..], ds[1..]);
    }
  }

  /** The same for whole locations. */
  lemma PublicLocationsHideSecrets(cs: seq<Option<Query>>, ds: seq<Option<Query>>)
    requires AllValid(cs) && AllValid(ds) && |cs| == |ds| && forall i :: 0 <= i < |cs| ==> SameToAll(cs[i], ds[i])
    ensures LocationBytes(cs, true) == LocationBytes(ds, true)
  {
    hide Cards, SameToAll, LE;
    PublicCardsHideSecrets(cs, ds);
  }

  /** A hidden card that is not public looks the same to everybody, its owner
    * included. */
  lemma HiddenFromOwnerToo(q: Query)
    requires Valid(q) && q.flags[IS_HIDDEN] && q.fields[IS_HIDDEN].n != 0
    ensures View(q, false) == View(q, true)
  {
    assert forall i: nat :: i < 32 ==> Visible(q, false, i) == Visible(q, true, i);
    assert View(q, false).flags == View(q, true).flags;
    assert View(q, false).fields == View(q, true).fields;
  }
}
