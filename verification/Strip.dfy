/** `StripMessageForTeam`: card codes are overwritten in place behind a moving
  * pointer. */
module Strip {
  import opened Arith
  import opened Words
  import opened ByteIO
  import opened Messages
  import QueryCodec
  import QueryViews

  lemma CardsUnfold(cs: seq<Card>)
    ensures CardsBytes(cs) == if cs == [] then [] else CardBytes(cs[0]) + CardsBytes(cs[1..])
  {
  }

  lemma {:induction false} CardsAppend(cs: seq<Card>, ds: seq<Card>)
    ensures CardsBytes(cs + ds) == CardsBytes(cs) + CardsBytes(ds)
    decreases |cs|
  {
    hide *;
    CardsUnfold(cs);
    if cs == [] {
      assert cs + ds == ds;
    } else {
      assert (cs + ds)[0] == cs[0] && (cs + ds)[1..] == cs[1..] + ds;
      CardsUnfold(cs + ds);
      CardsAppend(cs[1..], ds);
    }
  }

  lemma OneCard(c: Card)
    ensures CardsBytes([c]) == LE(c.code, 4) + c.about
  {
    assert CardsBytes([c][1..]) == [];
  }

  lemma CardsNext(cs: seq<Card>, i: nat)
    requires i < |cs|
    ensures CardsBytes(cs[..i + 1]) == CardsBytes(cs[..i]) + (LE(cs[i].code, 4) + cs[i].about)
  {
    hide *;
    assert cs[..i + 1] == cs[..i] + [cs[i]];
    CardsAppend(cs[..i], [cs[i]]);
    OneCard(cs[i]);
  }

  lemma CardsAround(cs: seq<Card>, i: nat)
    requires i < |cs|
    ensures CardsBytes(cs) == CardsBytes(cs[..i + 1]) + CardsBytes(cs[i + 1..])
  {
    hide *;
    assert cs == cs[..i + 1] + cs[i + 1..];
    CardsAppend(cs[..i + 1], cs[i + 1..]);
  }

  /** The first `i` cards of a list are done. */
  ghost predicate Clearing(rule: Rule, team: Byte, cs: seq<Card>, i: nat, before: seq<Byte>, now: seq<Byte>,
                           start: nat, ptr: nat)
  {
    && i <= |cs| && Holds(before, start, CardsBytes(cs))
    && ptr == start + |CardsBytes(cs[..i])| && |CardsBytes(HideCards(rule, team, cs)[..i])| == |CardsBytes(cs[..i])|
    && Wrote(before, now, start, CardsBytes(HideCards(rule, team, cs)[..i]))
  }

  lemma ClearingStarts(rule: Rule, team: Byte, cs: seq<Card>, before: seq<Byte>, start: nat)
    requires Holds(before, start, CardsBytes(cs))
    ensures Clearing(rule, team, cs, 0, before, before, start, start)
  {
    WroteNothing(before, start);
    assert CardsBytes([]) == [];
  }

  lemma ClearingEnds(rule: Rule, team: Byte, cs: seq<Card>, before: seq<Byte>, now: seq<Byte>, start: nat, ptr: nat)
    requires Clearing(rule, team, cs, |cs|, before, now, start, ptr)
    ensures Wrote(before, now, start, CardsBytes(HideCards(rule, team, cs)))
    ensures ptr == start + |CardsBytes(cs)| == start + |CardsBytes(HideCards(rule, team, cs))|
  {
    hide HideCards, Wrote, Holds, CardsBytes;
    assert HideCards(rule, team, cs)[..|cs|] == HideCards(rule, team, cs) && cs[..|cs|] == cs;
  }

  /** The next card is where the pointer stands. */
  lemma ClearingCard(rule: Rule, team: Byte, cs: seq<Card>, i: nat, before: seq<Byte>, now: seq<Byte>, start: nat, ptr: nat)
    requires Clearing(rule, team, cs, i, before, now, start, ptr) && i < |cs|
    ensures Holds(now, ptr, LE(cs[i].code, 4)) && Holds(now, ptr + 4, cs[i].about)
    ensures ptr + 4 + |cs[i].about| <= |now|
  {
    hide HideCards, Wrote, Holds, CardsBytes, LE;
    CardsAround(cs, i);
    CardsNext(cs, i);
    var card := LE(cs[i].code, 4) + cs[i].about;
    HoldsSplit(before, start, CardsBytes(cs[..i]) + card, CardsBytes(cs[i + 1..]));
    HoldsSplit(before, start, CardsBytes(cs[..i]), card);
    HoldsBehind(before, now, start, CardsBytes(HideCards(rule, team, cs)[..i]), ptr, card);
    HoldsSplit(now, ptr, LE(cs[i].code, 4), cs[i].about);
    HeldInside(now, ptr + 4, cs[i].about);
  }

  lemma HeldInside(b: seq<Byte>, pos: nat, s: seq<Byte>)
    requires Holds(b, pos, s)
    ensures pos + |s| <= |b| && b[pos..pos + |s|] == s
  {
  }

  lemma HiddenAt(rule: Rule, team: Byte, cs: seq<Card>, i: nat)
    requires i < |cs|
    ensures HideCards(rule, team, cs)[i] == Card(if Known(rule, team, cs[i].about) then cs[i].code else 0, cs[i].about)
  {
  }

  /** One more card is done when its code was left alone or wiped, as it should
    * be. */
  lemma ClearingStep(rule: Rule, team: Byte, cs: seq<Card>, i: nat, before: seq<Byte>, now: seq<Byte>, after: seq<Byte>,
                     start: nat, ptr: nat)
    requires Clearing(rule, team, cs, i, before, now, start, ptr) && i < |cs|
    requires Wrote(now, after, ptr, LE(if Known(rule, team, cs[i].about) then cs[i].code else 0, 4))
    ensures Clearing(rule, team, cs, i + 1, before, after, start, ptr + 4 + |cs[i].about|)
  {
    hide HideCards, Wrote, Holds, CardsBytes, LE, Known;
    var hs := HideCards(rule, team, cs);
    HiddenAt(rule, team, cs, i);
    CardsNext(cs, i);
    CardsNext(hs, i);
    ClearingCard(rule, team, cs, i, before, now, start, ptr);
    WroteThenHeld(now, after, ptr, LE(hs[i].code, 4), cs[i].about);
    WroteBoth(before, now, after, start, CardsBytes(hs[..i]), LE(hs[i].code, 4) + cs[i].about);
  }

  method ClearPositionArray(buf: array<Byte>, count: nat, ptr: nat, ghost cs: seq<Card>, ghost team: Byte)
    returns (ptr': nat)
    requires count == |cs| && CardsFit(cs, 4) && Holds(buf[..], ptr, CardsBytes(cs))
    modifies buf
    ensures Wrote(old(buf[..]), buf[..], ptr, CardsBytes(HideCards(ByPosition, team, cs)))
    ensures ptr' == ptr + |CardsBytes(cs)| == ptr + |CardsBytes(HideCards(ByPosition, team, cs))|
  {
    hide HideCards, Wrote, Holds, CardsBytes, LE, Clearing, FromLE;
    ghost var before := buf[..];
    ptr' := ptr;
    ClearingStarts(ByPosition, team, cs, before, ptr);
    for i := 0 to count
      invariant Clearing(ByPosition, team, cs, i, before, buf[..], ptr, ptr')
    {
      ghost var now := buf[..];
      ClearingCard(ByPosition, team, cs, i, before, now, ptr, ptr');
      HeldInside(now, ptr' + 4, cs[i].about);
      var pos := ReadAt(buf[..], ptr' + 4, 4);
      if !FaceUp(pos) {
        var _ := Write(buf, ptr', 0, 4);
      } else {
        HeldIsWritten(now, ptr', LE(cs[i].code, 4));
      }
      ClearingStep(ByPosition, team, cs, i, before, now, buf[..], ptr, ptr');
      ptr' := ptr' + 8;
    }
    ClearingEnds(ByPosition, team, cs, before, buf[..], ptr, ptr');
  }

  method ClearLocInfoArray(buf: array<Byte>, count: nat, team: Byte, ptr: nat, ghost cs: seq<Card>)
    returns (ptr': nat)
    requires count == |cs| && CardsFit(cs, 10) && Holds(buf[..], ptr, CardsBytes(cs))
    modifies buf
    ensures Wrote(old(buf[..]), buf[..], ptr, CardsBytes(HideCards(ByController, team, cs)))
    ensures ptr' == ptr + |CardsBytes(cs)| == ptr + |CardsBytes(HideCards(ByController, team, cs))|
  {
    hide HideCards, Wrote, Holds, CardsBytes, LE, Clearing;
    ghost var before := buf[..];
    ptr' := ptr;
    ClearingStarts(ByController, team, cs, before, ptr);
    for i := 0 to count
      invariant Clearing(ByController, team, cs, i, before, buf[..], ptr, ptr')
    {
      ghost var now := buf[..];
      ClearingCard(ByController, team, cs, i, before, now, ptr, ptr');
      HeldInside(now, ptr' + 4, cs[i].about);
      assert now[ptr' + 4] == now[ptr' + 4..ptr' + 14][0];
      var con := buf[ptr' + 4];
      if team != con {
        var _ := Write(buf, ptr', 0, 4);
      } else {
        HeldIsWritten(now, ptr', LE(cs[i].code, 4));
      }
      ClearingStep(ByController, team, cs, i, before, now, buf[..], ptr, ptr');
      ptr' := ptr' + 14;
    }
    ClearingEnds(ByController, team, cs, before, buf[..], ptr, ptr');
  }

  /** The loop over tribute candidates. */
  method ClearTributes(buf: array<Byte>, count: nat, team: Byte, ptr: nat, ghost cs: seq<Card>)
    returns (ptr': nat)
    requires count == |cs| && CardsFit(cs, 7) && Holds(buf[..], ptr, CardsBytes(cs))
    modifies buf
    ensures Wrote(old(buf[..]), buf[..], ptr, CardsBytes(HideCards(ByController, team, cs)))
    ensures ptr' == ptr + |CardsBytes(cs)| == ptr + |CardsBytes(HideCards(ByController, team, cs))|
  {
    hide HideCards, Wrote, Holds, CardsBytes, LE, Clearing;
    ghost var before := buf[..];
    ptr' := ptr;
    ClearingStarts(ByController, team, cs, before, ptr);
    for i := 0 to count
      invariant Clearing(ByController, team, cs, i, before, buf[..], ptr, ptr')
    {
      ghost var now, at := buf[..], ptr';
      ClearingCard(ByController, team, cs, i, before, now, ptr, ptr');
      HeldInside(now, ptr' + 4, cs[i].about);
      assert now[ptr' + 4] == now[ptr' + 4..ptr' + 11][0];
      ptr' := ptr' + 4;
      var con := buf[ptr'];
      ptr' := ptr' + 1;
      if team != con {
        ptr' := ptr' - 5;
        ptr' := Write(buf, ptr', 0, 4);
        ptr' := ptr' + 1;
      } else {
        HeldIsWritten(now, at, LE(cs[i].code, 4));
      }
      ptr' := ptr' + 6;
      ClearingStep(ByController, team, cs, i, before, now, buf[..], ptr, at);
    }
    ClearingEnds(ByController, team, cs, before, buf[..], ptr, ptr');
  }

  /** The codes of a shuffled pile. */
  method ClearCodes(buf: array<Byte>, count: nat, ptr: nat, ghost cs: seq<Card>, ghost team: Byte) returns (ptr': nat)
    requires count == |cs| && CardsFit(cs, 0) && Holds(buf[..], ptr, CardsBytes(cs))
    modifies buf
    ensures Wrote(old(buf[..]), buf[..], ptr, CardsBytes(HideCards(Never, team, cs)))
  {
    hide HideCards, Wrote, Holds, CardsBytes, LE, Clearing;
    ghost var before := buf[..];
    ptr' := ptr;
    ClearingStarts(Never, team, cs, before, ptr);
    for i := 0 to count
      invariant Clearing(Never, team, cs, i, before, buf[..], ptr, ptr')
    {
      ghost var now, at := buf[..], ptr';
      ClearingCard(Never, team, cs, i, before, now, ptr, ptr');
      ptr' := Write(buf, ptr', 0, 4);
      ClearingStep(Never, team, cs, i, before, now, buf[..], ptr, at);
    }
    ClearingEnds(Never, team, cs, before, buf[..], ptr, ptr');
  }

  // ------------------------------------------------------- the message itself

  lemma EncodeParts(m: CoreMsg)
    requires Valid(m) && !m.Other?
    ensures Holds(Encode(m), 0, Before(m)) && Holds(Encode(m), |Before(m)|, Middle(m))
  {
    hide Before, Middle, Valid;
  }

  /** Once the middle part is the hidden one, so is the message. */
  lemma MiddleHidden(team: Byte, m: CoreMsg, now: seq<Byte>)
    requires Valid(m) && !m.Other? && Valid(Hide(team, m))
    requires Wrote(Encode(m), now, |Before(m)|, Middle(Hide(team, m)))
    ensures now == Encode(Hide(team, m))
  {
    HideKeepsShape(team, m);
    assert !Hide(team, m).Other? && Hide(team, m).rest == m.rest;
    hide Before, Middle, Valid, Hide, Wrote;
    MiddleReplaced(Before(m), Middle(m), m.rest, now, Middle(Hide(team, m)));
  }

  /** A message type and the count behind a header. */
  lemma CountHeld(b: seq<Byte>, head: seq<Byte>, n: nat)
    requires n < WORD && Holds(b, 0, head + LE(n, 4))
    ensures |head| + 4 <= |b| && ReadAt(b, |head|, 4) == n
    ensures forall i :: 0 <= i < |head| ==> b[i] == head[i]
  {
    Widths();
    HoldsSplit(b, 0, head, LE(n, 4));
    ReadHeld(b, |head|, n, 4);
    assert b[0..|head|] == head;
    forall i | 0 <= i < |head| ensures b[i] == head[i] {
      assert b[0..|head|][i] == head[i];
    }
  }

  method StripSet(buf: array<Byte>, team: Byte, ghost m: CoreMsg)
    requires Valid(m) && m.Set? && buf[..] == Encode(m)
    modifies buf
    ensures buf[..] == Encode(Hide(team, m))
  {
    EncodeParts(m);
    HideKeepsShape(team, m);
    var _ := Write(buf, 1, 0, 4);
    MiddleHidden(team, m, buf[..]);
  }

  method StripShuffle(buf: array<Byte>, team: Byte, ghost m: CoreMsg)
    requires Valid(m) && m.Shuffle? && buf[..] == Encode(m)
    modifies buf
    ensures buf[..] == Encode(Hide(team, m))
  {
    hide CardsBytes, HideCards, LE, Wrote, Holds, CardsFit, ReadAt;
    EncodeParts(m);
    HideKeepsShape(team, m);
    CardsFitCount(m.codes, 0);
    CountHeld(buf[..], [TypeOf(m), m.con], |m.codes|);
    var con := buf[1];
    if con == team {
      return;
    }
    var count := ReadAt(buf[..], 2, 4);
    var _ := ClearCodes(buf, count, 6, m.codes, team);
    MiddleHidden(team, m, buf[..]);
  }

  lemma CardsFitCount(cs: seq<Card>, w: nat)
    requires CardsFit(cs, w)
    ensures |cs| < WORD
  {
  }

  method StripDraw(buf: array<Byte>, team: Byte, ghost m: CoreMsg)
    requires Valid(m) && m.Draw? && buf[..] == Encode(m)
    modifies buf
    ensures buf[..] == Encode(Hide(team, m))
  {
    hide CardsBytes, HideCards, LE, Wrote, Holds, CardsFit, ReadAt;
    EncodeParts(m);
    HideKeepsShape(team, m);
    CardsFitCount(m.cards, 4);
    CountHeld(buf[..], [MSG_DRAW, m.con], |m.cards|);
    var con := buf[1];
    if con == team {
      return;
    }
    var count := ReadAt(buf[..], 2, 4);
    var _ := ClearPositionArray(buf, count, 6, m.cards, team);
    MiddleHidden(team, m, buf[..]);
  }

  /** The five numbers of a tag swap. */
  lemma TagSwapHeld(b: seq<Byte>, head: seq<Byte>, main: nat, extra: nat, pendulums: nat, hand: nat, top: nat)
    requires extra < WORD && hand < WORD && |head| == 2
    requires Holds(b, 0, head + LE(main, 4) + LE(extra, 4) + LE(pendulums, 4) + LE(hand, 4) + LE(top, 4))
    ensures |b| >= 22 && b[1] == head[1]
    ensures ReadAt(b, 6, 4) == extra && ReadAt(b, 14, 4) == hand
  {
    hide LE, Holds, ReadAt;
    Widths();
    HoldsSplit(b, 0, head + LE(main, 4) + LE(extra, 4) + LE(pendulums, 4) + LE(hand, 4), LE(top, 4));
    HoldsSplit(b, 0, head + LE(main, 4) + LE(extra, 4) + LE(pendulums, 4), LE(hand, 4));
    HoldsSplit(b, 0, head + LE(main, 4) + LE(extra, 4), LE(pendulums, 4));
    HoldsSplit(b, 0, head + LE(main, 4), LE(extra, 4));
    HoldsSplit(b, 0, head, LE(main, 4));
    ReadHeld(b, 6, extra, 4);
    ReadHeld(b, 14, hand, 4);
    HeldInside(b, 18, LE(top, 4));
    HeldInside(b, 0, head);
    assert b[0..2][1] == b[1];
  }

  method StripTagSwap(buf: array<Byte>, team: Byte, ghost m: CoreMsg)
    requires Valid(m) && m.TagSwap? && buf[..] == Encode(m)
    modifies buf
    ensures buf[..] == Encode(Hide(team, m))
  {
    hide CardsBytes, HideCards, LE, Wrote, Holds, CardsFit, ReadAt;
    EncodeParts(m);
    HideKeepsShape(team, m);
    CardsFitCount(m.cards, 4);
    TagSwapHeld(buf[..], [MSG_TAG_SWAP, m.con], m.main, m.extraCount, m.pendulums, m.handCount, m.top);
    var ptr := 1;
    var con := buf[ptr];
    if con == team {
      return;
    }
    ptr := ptr + 1 + 4;
    var count := ReadAt(buf[..], ptr, 4);
    ptr := ptr + 4 + 4;
    count := (count + ReadAt(buf[..], ptr, 4)) % WORD;
    ptr := ptr + 4 + 4;
    var _ := ClearPositionArray(buf, count, ptr, m.cards, team);
    MiddleHidden(team, m, buf[..]);
  }

  method StripSelectCard(buf: array<Byte>, team: Byte, ghost m: CoreMsg)
    requires Valid(m) && m.SelectCard? && buf[..] == Encode(m)
    modifies buf
    ensures buf[..] == Encode(Hide(team, m))
  {
    hide CardsBytes, HideCards, LE, Wrote, Holds, CardsFit, ReadAt;
    EncodeParts(m);
    HideKeepsShape(team, m);
    CardsFitCount(m.cards, 10);
    CountHeld(buf[..], [MSG_SELECT_CARD] + m.head, |m.cards|);
    var ptr := 1 + 1 + 1 + 4 + 4;
    var count := ReadAt(buf[..], ptr, 4);
    var _ := ClearLocInfoArray(buf, count, team, ptr + 4, m.cards);
    MiddleHidden(team, m, buf[..]);
  }

  method StripSelectTribute(buf: array<Byte>, team: Byte, ghost m: CoreMsg)
    requires Valid(m) && m.SelectTribute? && buf[..] == Encode(m)
    modifies buf
    ensures buf[..] == Encode(Hide(team, m))
  {
    hide CardsBytes, HideCards, LE, Wrote, Holds, CardsFit, ReadAt;
    EncodeParts(m);
    HideKeepsShape(team, m);
    CardsFitCount(m.cards, 7);
    CountHeld(buf[..], [MSG_SELECT_TRIBUTE] + m.head, |m.cards|);
    var ptr := 1 + 1 + 1 + 4 + 4;
    var count := ReadAt(buf[..], ptr, 4);
    var _ := ClearTributes(buf, count, team, ptr + 4, m.cards);
    MiddleHidden(team, m, buf[..]);
  }

  /** Where the two lists of cards are. */
  lemma TwoListsHeld(m: CoreMsg)
    requires Valid(m) && m.SelectUnselect?
    ensures CardsFit(m.cards, 10) && CardsFit(m.others, 10) && |m.others| < WORD
    ensures var b, first := Encode(m), CardsBytes(m.cards);
            && 16 <= |b| && ReadAt(b, 12, 4) == |m.cards| && Holds(b, 16, first)
            && Holds(b, 16 + |first|, LE(|m.others|, 4)) && Holds(b, 20 + |first|, CardsBytes(m.others))
  {
    hide CardsBytes, LE, Holds, CardsFit, ReadAt, Encode;
    EncodeParts(m);
    CardsFitCount(m.cards, 10);
    CardsFitCount(m.others, 10);
    CountHeld(Encode(m), [MSG_SELECT_UNSELECT_CARD] + m.head, |m.cards|);
    HoldsSplit(Encode(m), 16, CardsBytes(m.cards) + LE(|m.others|, 4), CardsBytes(m.others));
    HoldsSplit(Encode(m), 16, CardsBytes(m.cards), LE(|m.others|, 4));
  }

  lemma TwoListsHidden(team: Byte, m: CoreMsg, now: seq<Byte>)
    requires Valid(m) && m.SelectUnselect?
    requires Wrote(Encode(m), now, 16, CardsBytes(HideCards(ByController, team, m.cards)) + LE(|m.others|, 4)
                                       + CardsBytes(HideCards(ByController, team, m.others)))
    ensures now == Encode(Hide(team, m))
  {
    hide CardsBytes, HideCards, LE, Wrote, CardsFit, Encode;
    HideKeepsShape(team, m);
    SameCount(ByController, team, m.others);
    MiddleHidden(team, m, now);
  }

  lemma SameCount(rule: Rule, team: Byte, cs: seq<Card>)
    ensures |HideCards(rule, team, cs)| == |cs|
  {
  }

  method StripSelectUnselect(buf: array<Byte>, team: Byte, ghost m: CoreMsg)
    requires Valid(m) && m.SelectUnselect? && buf[..] == Encode(m)
    modifies buf
    ensures buf[..] == Encode(Hide(team, m))
  {
    hide *;
    TwoListsHeld(m);
    var ptr := 1 + 1 + 1 + 1 + 4 + 4;
    var count1 := ReadAt(buf[..], ptr, 4);
    ptr := ptr + 4;
    ghost var b0 := buf[..];
    ghost var others := LE(|m.others|, 4);
    ghost var first := CardsBytes(HideCards(ByController, team, m.cards));
    ghost var second := CardsBytes(HideCards(ByController, team, m.others));
    ptr := ClearLocInfoArray(buf, count1, team, ptr, m.cards);
    ghost var b1 := buf[..];
    HoldsBehind(b0, b1, 16, first, ptr, others);
    HoldsBehind(b0, b1, 16, first, ptr + 4, CardsBytes(m.others));
    NumberHeld(b1, ptr, |m.others|);
    var count2 := ReadAt(buf[..], ptr, 4);
    WroteThenHeld(b0, b1, 16, first, others);
    ptr := ClearLocInfoArray(buf, count2, team, ptr + 4, m.others);
    WroteBoth(b0, b1, buf[..], 16, first + others, second);
    TwoListsHidden(team, m, buf[..]);
  }

  lemma NumberHeld(b: seq<Byte>, pos: nat, n: nat)
    requires n < WORD && Holds(b, pos, LE(n, 4))
    ensures pos + 4 <= |b| && ReadAt(b, pos, 4) == n
  {
    Widths();
    ReadHeld(b, pos, n, 4);
  }

  method StripMove(buf: array<Byte>, team: Byte, ghost m: CoreMsg)
    requires Valid(m) && m.Move? && buf[..] == Encode(m)
    modifies buf
    ensures buf[..] == Encode(Hide(team, m))
  {
    hide LE, Wrote, Holds, QueryCodec.LocBytes, QueryCodec.LocFits;
    EncodeParts(m);
    HideKeepsShape(team, m);
    ghost var code, previous, current := LE(m.code, 4), QueryCodec.LocBytes(m.previous), QueryCodec.LocBytes(m.current);
    ghost var b0 := buf[..];
    HoldsSplit(b0, 1, code + previous, current);
    HoldsSplit(b0, 1, code, previous);
    HeldInside(b0, 15, current);
    QueryViews.LocRecovers(b0, 15, m.current);
    var info := QueryCodec.ReadLoc(buf[..], 1 + 4 + 10);
    if info.con == team || IsLocInfoPublic(info) {
      return;
    }
    var _ := Write(buf, 1, 0, 4);
    WroteThenHeld(b0, buf[..], 1, LE(0, 4), previous);
    WroteThenHeld(b0, buf[..], 1, LE(0, 4) + previous, current);
    MiddleHidden(team, m, buf[..]);
  }

  method StripSpSummoning(buf: array<Byte>, team: Byte, ghost m: CoreMsg)
    requires Valid(m) && m.SpSummoning? && buf[..] == Encode(m)
    modifies buf
    ensures buf[..] == Encode(Hide(team, m))
  {
    hide LE, Wrote, Holds, QueryCodec.LocBytes, QueryCodec.LocFits;
    EncodeParts(m);
    HideKeepsShape(team, m);
    ghost var code, current := LE(m.code, 4), QueryCodec.LocBytes(m.current);
    ghost var b0 := buf[..];
    HoldsSplit(b0, 1, code, current);
    HeldInside(b0, 5, current);
    QueryViews.LocRecovers(b0, 5, m.current);
    var info := QueryCodec.ReadLoc(buf[..], 1 + 4);
    if info.con == team {
      return;
    }
    if FaceDown(info.pos) {
      var _ := Write(buf, 1, 0, 4);
      WroteThenHeld(b0, buf[..], 1, LE(0, 4), current);
      MiddleHidden(team, m, buf[..]);
    }
  }

  /** `StripMessageForTeam` on the core's messages: the bytes of the message as
    * that team may see it, in a copy of its own. */
  method StripMessageForTeam(team: Byte, msg: seq<Byte>, ghost m: CoreMsg) returns (stripped: seq<Byte>)
    requires Valid(m) && msg == Encode(m)
    ensures stripped == Encode(Hide(team, m))
  {
    hide Encode, Hide, Valid, Before, Middle;
    HideKeepsShape(team, m);
    TypesApart(m);
    var buf := new Byte[|msg|](i requires 0 <= i < |msg| => msg[i]);
    assert buf[..] == msg;
    var t := msg[0];
    if t == MSG_SET {
      StripSet(buf, team, m);
    } else if t == MSG_SHUFFLE_HAND || t == MSG_SHUFFLE_EXTRA {
      StripShuffle(buf, team, m);
    } else if t == MSG_MOVE {
      StripMove(buf, team, m);
    } else if t == MSG_SPSUMMONING {
      StripSpSummoning(buf, team, m);
    } else if t == MSG_DRAW {
      StripDraw(buf, team, m);
    } else if t == MSG_TAG_SWAP {
      StripTagSwap(buf, team, m);
    } else if t == MSG_SELECT_CARD {
      StripSelectCard(buf, team, m);
    } else if t == MSG_SELECT_TRIBUTE {
      StripSelectTribute(buf, team, m);
    } else if t == MSG_SELECT_UNSELECT_CARD {
      StripSelectUnselect(buf, team, m);
    }
    stripped := buf[..];
  }

  lemma TypesApart(m: CoreMsg)
    requires Valid(m)
    ensures |Encode(m)| > 0 && Encode(m)[0] == TypeOf(m)
    ensures m.Other? ==> !StrippedForAll(TypeOf(m)) && !CardQuestion(TypeOf(m)) && (forall team :: Hide(team, m) == m)
  {
    HideKeepsShape(0, m);
  }
}
