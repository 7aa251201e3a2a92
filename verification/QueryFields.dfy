/** The query codec in plain numbers: how each field looks on the wire, and what
  * becomes of it by the card's position, its public and its hidden byte. */
module QueryFields {
  import opened Options
  import opened Arith
  import opened Words
  import opened ByteIO
  import opened QueryCodec
  import opened QueryViews

  /** Code, alias, type, level, rank, attribute, race, the four attack and defence
    * values, status, the scales and link, by the bits of their flags. */
  const OWNER_ONLY: set<nat> := {0, 2, 3, 4, 5, 6, 7, 8, 9, 10, 11, 19, 21, 22, 23}

  /** The card was queried for its position (bit 1), and it is one of the two
    * face-up ones, 1 in attack and 4 in defence. */
  predicate LiesFaceUp(q: Query)
    requires Valid(q)
  {
    q.flags[1] && q.fields[1].n % 8 !in {0, 2}
  }

  /** It was queried for its public byte (bit 20), which is set. */
  predicate SaidPublic(q: Query)
    requires Valid(q)
  {
    q.flags[20] && q.fields[20].n > 0
  }

  /** It was queried for its hidden byte (bit 24), which is set. */
  predicate SaidHidden(q: Query)
    requires Valid(q)
  {
    q.flags[24] && q.fields[24].n > 0
  }

  /** A reason or equip card (bits 13 and 14) that is nowhere. */
  predicate Nowhere(q: Query, i: FlagBit)
    requires Valid(q)
  {
    i in {13, 14} && q.fields[i].info.loc == 0
  }

  lemma PublicByNumbers(q: Query)
    requires Valid(q)
    ensures CardPublic(q) == (LiesFaceUp(q) || SaidPublic(q))
  {
    assert Fits(KindOf(1), q.fields[1]) && Fits(KindOf(20), q.fields[20]);
    PositionBits(q.fields[1].n);
  }

  lemma PositionBits(n: nat)
    ensures n % 2 == 1 || (n / 4) % 2 == 1 <==> n % 8 !in {0, 2}
    ensures n in {1, 4} ==> n % 8 !in {0, 2}
    ensures n in {2, 8} ==> n % 8 in {0, 2}
  {
    DivModEquation(n, 8);
    BitsOfEight(n, n / 8, n % 8);
  }

  lemma BitsOfEight(n: nat, q: nat, r: nat)
    requires n == 8 * q + r && r < 8
    ensures n % 2 == r % 2 && (n / 4) % 2 == r / 4
  {
    DivModUnique(n, 2, 4 * q + r / 2, r % 2);
    DivModUnique(n, 4, 2 * q + r / 4, r % 4);
    DivModUnique(2 * q + r / 4, 2, q, r / 4);
  }

  /** What a side is to see of a card: of a face-up or public one every field; of
    * any other the fields that are not its owner's alone, and these too for the
    * owner unless the card is hidden. */
  predicate ShownTo(owner: bool, q: Query, i: FlagBit)
    requires Valid(q)
  {
    q.flags[i] && !Nowhere(q, i) && (LiesFaceUp(q) || SaidPublic(q) || i !in OWNER_ONLY || (owner && !SaidHidden(q)))
  }

  /** The views show exactly that. */
  lemma ShownExactly(q: Query, public: bool, i: FlagBit)
    requires Valid(q)
    ensures View(q, public).flags[i] <==> ShownTo(!public, q, i)
    ensures View(q, public).fields[i] == if View(q, public).flags[i] then q.fields[i] else Default(KindOf(i))
  {
    assert Fits(KindOf(24), q.fields[24]);
    PublicByNumbers(q);
  }

  /** Both views of a face-up or public card are the whole card. */
  lemma FaceUpShowsAll(q: Query, public: bool, i: FlagBit)
    requires Valid(q) && ((q.flags[1] && q.fields[1].n in {1, 4}) || (q.flags[20] && q.fields[20].n > 0))
    ensures View(q, public).flags[i] == (q.flags[i] && !Nowhere(q, i))
    ensures q.flags[i] && !Nowhere(q, i) ==> View(q, public).fields[i] == q.fields[i]
  {
    ShownExactly(q, public, i);
    PositionBits(q.fields[1].n);
  }

  /** The two differ in fields that are their owner's alone, at most. */
  ghost predicate SameButSecrets(q: Query, r: Query)
    requires Valid(q) && Valid(r)
  {
    forall i: FlagBit :: i !in OWNER_ONLY ==> q.flags[i] == r.flags[i] && q.fields[i] == r.fields[i]
  }

  /** The public bytes of a face-down card do not depend on its code, on anything
    * else that is its owner's alone, or on whether these were queried. */
  lemma FaceDownHides(q: Query, r: Query)
    requires Valid(q) && Valid(r) && SameButSecrets(q, r)
    requires q.flags[1] && q.fields[1].n in {2, 8} && (!q.flags[20] || q.fields[20].n == 0)
    ensures Serialized(Some(q), true) == Serialized(Some(r), true)
  {
    hide Serialized;
    PublicByNumbers(q);
    PositionBits(q.fields[1].n);
    PublicBuffersHideSecrets(q, r);
  }

  /** A field on the wire: the size of what follows the size, the flag, and the
    * value in its width. Lists are announced as longer than they are. */
  lemma WireLayout(q: Query, i: FlagBit)
    requires Valid(q)
    ensures var f, flag := q.fields[i], LE(Pow2(i), 4);
            FieldBytes(q, i) ==
              if i in {18, 20, 24} then LE(5, 2) + flag + LE(f.n, 1)
              else if i == 7 then LE(12, 2) + flag + LE(f.n, 8)
              else if i in {13, 14} then LE(14, 2) + flag + (LE(f.info.con, 1) + LE(f.info.loc, 1) + LE(f.info.seq_, 4) + LE(f.info.pos, 4))
              else if i == 15 then LE((8 + 12 * |f.infos|) % 0x1_0000, 2) + flag + (LE(|f.infos| % 0x1_0000, 2) + LocListBytes(f.infos))
              else if i in {16, 17} then LE((8 + 4 * |f.ns|) % 0x1_0000, 2) + flag + (LE(|f.ns| % 0x1_0000, 2) + NumListBytes(f.ns))
              else if i == 23 then LE(12, 2) + flag + (LE(f.link, 4) + LE(f.marker, 4))
              else if i >= 26 then LE(4, 2) + flag + []
              else LE(8, 2) + flag + LE(f.n, 4)
  {
    hide Valid, FieldBytes, LE, LocListBytes, NumListBytes, Pow2;
    FieldParts(q, i);
  }

  lemma FieldParts(q: Query, i: FlagBit)
    requires Valid(q)
    ensures |q.fields| == 32 && Fits(KindOf(i), q.fields[i])
    ensures FieldBytes(q, i) == LE((PayloadSize(KindOf(i), q.fields[i]) + 4) % 0x1_0000, 2) + LE(Pow2(i), 4) + Payload(KindOf(i), q.fields[i])
  {
    hide LE, Payload, PayloadSize, Fits, KindOf;
  }
}
