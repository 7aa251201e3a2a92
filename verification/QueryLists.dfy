/** Queries with lists: reading never gives back what was written. The count is
  * written on two bytes and read from four, so the reader takes in two bytes too
  * many, and nothing makes up for them. */
module QueryLists {
  import opened Options
  import opened Arith
  import opened Words
  import opened ByteIO
  import opened QueryCodec
  import opened QueryViews

  /** A field whose list starts with another's. */
  predicate Extends(k: Kind, f: Field, g: Field)
    requires Fits(k, f) && Fits(k, g)
  {
    match k
    case LocList => f.infos <= g.infos
    case U32List => f.ns <= g.ns
    case _ => true
  }

  lemma ExtendsTrans(k: Kind, f: Field, g: Field, h: Field)
    requires Fits(k, f) && Fits(k, g) && Fits(k, h) && Extends(k, f, g) && Extends(k, g, h)
    ensures Extends(k, f, h)
  {
  }

  lemma ReadExtends(b: seq<Byte>, pos: nat, k: Kind, size: nat, was: Field)
    requires Fits(k, was) && ReadField(b, pos, k, size, was).Ok?
    ensures Fits(k, ReadField(b, pos, k, size, was).value) && Extends(k, was, ReadField(b, pos, k, size, was).value)
  {
    hide ReadAt, ReadLocs, ReadNums, ReadLoc, Fits;
    ReadFieldFits(b, pos, k, size, was);
  }

  /** Reading on only adds to a list that was begun. */
  lemma {:induction false} OnlyAppends(b: seq<Byte>, pos: nat, q: Query, j: FlagBit)
    requires Valid(q) && ParseFields(b, pos, q).Ok?
    ensures Valid(ParseFields(b, pos, q).value)
    ensures Extends(KindOf(j), q.fields[j], ParseFields(b, pos, q).value.fields[j])
    decreases |b| - pos
  {
    hide Extends, ReadField, OrFlag, ReadAt, FindFlag, KindOf, Fits;
    ValidAt(q, j);
    ExtendsSelf(KindOf(j), q.fields[j]);
    var size, flag := ReadAt(b, pos, 2), ReadAt(b, pos + 2, 4);
    var q1 := q.(flags := OrFlag(q.flags, flag));
    match FindFlag(flag, 0)
    case None => OnlyAppends(b, pos + 2 + size, q1, j);
    case Some(i) =>
      ValidAt(q, i);
      if i == END {
      } else if KindOf(i) == Bare {
        OnlyAppends(b, pos + 2 + size, q1, j);
      } else {
        var r := ReadField(b, pos + 6, KindOf(i), size, q.fields[i]);
        ReadExtends(b, pos + 6, KindOf(i), size, q.fields[i]);
        var q2 := q1.(fields := q.fields[i := r.value]);
        assert Valid(q2);
        OnlyAppends(b, r.pos, q2, j);
        ValidAt(q2, j);
        ValidAt(ParseFields(b, r.pos, q2).value, j);
        if i == j {
          ExtendsTrans(KindOf(j), q.fields[j], q2.fields[j], ParseFields(b, r.pos, q2).value.fields[j]);
        }
      }
  }

  lemma ExtendsSelf(k: Kind, f: Field)
    requires Fits(k, f)
    ensures Extends(k, f, f)
  {
  }

  // ------------------------------------------------------------ one list field

  function Len(k: Kind, f: Field): nat
    requires Fits(k, f)
  {
    match k
    case LocList => |f.infos|
    case U32List => |f.ns|
    case _ => 0
  }

  /** The elements of a list, without the count. */
  function ListBytes(k: Kind, f: Field): seq<Byte>
    requires Fits(k, f)
  {
    match k
    case LocList => LocListBytes(f.infos)
    case U32List => NumListBytes(f.ns)
    case _ => []
  }

  lemma BytesOfNumber(b: seq<Byte>, pos: nat, w: nat)
    requires pos + w <= |b|
    ensures LE(ReadAt(b, pos, w), w) == b[pos..pos + w]
  {
    WrittenRead(b[pos..pos + w]);
  }

  lemma {:induction false} BytesOfNums(b: seq<Byte>, pos: nat, n: nat)
    requires pos + 4 * n <= |b|
    ensures |ReadNums(b, pos, n)| == n && Holds(b, pos, NumListBytes(ReadNums(b, pos, n)))
    decreases n
  {
    if n > 0 {
      var v := ReadAt(b, pos, 4);
      BytesOfNumber(b, pos, 4);
      BytesOfNums(b, pos + 4, n - 1);
      assert ReadNums(b, pos, n)[1..] == ReadNums(b, pos + 4, n - 1);
      HoldsJoin(b, pos, LE(v, 4), NumListBytes(ReadNums(b, pos + 4, n - 1)));
    }
  }

  lemma BytesOfLoc(b: seq<Byte>, pos: nat)
    requires pos + 10 <= |b|
    ensures Holds(b, pos, LocBytes(ReadLoc(b, pos)))
  {
    hide LE, ReadAt;
    BytesOfNumber(b, pos, 1);
    BytesOfNumber(b, pos + 1, 1);
    BytesOfNumber(b, pos + 2, 4);
    BytesOfNumber(b, pos + 6, 4);
    var l := ReadLoc(b, pos);
    HoldsJoin(b, pos, LE(l.con, 1), LE(l.loc, 1));
    HoldsJoin(b, pos, LE(l.con, 1) + LE(l.loc, 1), LE(l.seq_, 4));
    HoldsJoin(b, pos, LE(l.con, 1) + LE(l.loc, 1) + LE(l.seq_, 4), LE(l.pos, 4));
  }

  lemma {:induction false} BytesOfLocs(b: seq<Byte>, pos: nat, n: nat)
    requires pos + 10 * n <= |b|
    ensures |ReadLocs(b, pos, n)| == n && Holds(b, pos, LocListBytes(ReadLocs(b, pos, n)))
    decreases n
  {
    hide LocBytes, ReadLoc;
    if n > 0 {
      BytesOfLoc(b, pos);
      BytesOfLocs(b, pos + 10, n - 1);
      assert ReadLocs(b, pos, n)[1..] == ReadLocs(b, pos + 10, n - 1);
      HoldsJoin(b, pos, LocBytes(ReadLoc(b, pos)), LocListBytes(ReadLocs(b, pos + 10, n - 1)));
    }
  }

  lemma HoldsJoin(b: seq<Byte>, pos: nat, s: seq<Byte>, t: seq<Byte>)
    requires Holds(b, pos, s) && Holds(b, pos + |s|, t)
    ensures Holds(b, pos, s + t)
  {
    assert b[pos..pos + |s| + |t|] == b[pos..pos + |s|] + b[pos + |s|..pos + |s| + |t|];
  }

  /** Reading a list that was not begun: as many elements as its four bytes say,
    * from behind them. */
  lemma ReadsList(b: seq<Byte>, pos: nat, k: Kind, size: nat)
    requires k == LocList || k == U32List
    requires ReadField(b, pos, k, size, Default(k)).Ok?
    ensures var f := ReadField(b, pos, k, size, Default(k)).value;
            Fits(k, f) && pos + 4 <= |b| && Len(k, f) == ReadAt(b, pos, 4) && Holds(b, pos + 4, ListBytes(k, f))
  {
    hide ReadAt, Holds, ReadLocs, ReadNums, LocListBytes, NumListBytes;
    ReadFieldFits(b, pos, k, size, Default(k));
    var n := ReadAt(b, pos, 4);
    if k == LocList {
      BytesOfLocs(b, pos + 4, n);
      assert [] + ReadLocs(b, pos + 4, n) == ReadLocs(b, pos + 4, n);
    } else {
      BytesOfNums(b, pos + 4, n);
      assert [] + ReadNums(b, pos + 4, n) == ReadNums(b, pos + 4, n);
    }
  }

  /** Bytes that stand at two positions two apart, and start with zeroes, are
    * zeroes throughout, and so are the two bytes behind them. */
  lemma ZeroesThroughout(b: seq<Byte>, a: nat, s: seq<Byte>)
    requires Holds(b, a, s) && Holds(b, a + 2, s) && b[a] == 0 && b[a + 1] == 0
    ensures b[a + |s|] == 0 && b[a + |s| + 1] == 0
  {
    var j := 0;
    while j < |s|
      invariant j <= |s| && forall m :: a <= m < a + j + 2 ==> b[m] == 0
    {
      assert b[a..a + |s|][j] == b[a + 2..a + 2 + |s|][j];
      j := j + 1;
    }
  }

  lemma TwoZeroes(b: seq<Byte>, pos: nat)
    requires pos + 2 <= |b|
    ensures ReadAt(b, pos, 2) == 0 <==> b[pos] == 0 && b[pos + 1] == 0
  {
    var two := b[pos..pos + 2];
    assert two[1..][1..] == [] && FromLE(two[1..]) == two[1] + 256 * FromLE([]);
  }

  lemma Halves(b: seq<Byte>, pos: nat)
    requires pos + 4 <= |b|
    ensures ReadAt(b, pos, 4) == ReadAt(b, pos, 2) + 0x1_0000 * ReadAt(b, pos + 2, 2)
  {
    var four := b[pos..pos + 4];
    var low := b[pos..pos + 2];
    assert b[pos + 2..pos + 4] == four[2..] && four[1..][1..] == four[2..];
    assert low[0] == four[0] && low[1] == four[1] && low[1..][1..] == [];
    assert FromLE(low) == low[0] + 256 * FromLE(low[1..]) && FromLE(low[1..]) == low[1] + 256 * FromLE([]);
    assert FromLE(four) == four[0] + 256 * FromLE(four[1..]) && FromLE(four[1..]) == four[1] + 256 * FromLE(four[2..]);
  }

  lemma SameLengthPrefix(k: Kind, f: Field, g: Field)
    requires Fits(k, f) && Fits(k, g) && (k == LocList || k == U32List) && Extends(k, f, g)
    ensures Len(k, f) <= Len(k, g)
    ensures Len(k, f) == Len(k, g) ==> f == g
  {
  }

  /** The bytes of a list field: header, count, elements. */
  lemma ListField(q: Query, public: bool, i: FlagBit)
    requires Valid(q) && Visible(q, public, i) && IsList(i) && SizesFit(q, public)
    ensures var k, f := KindOf(i), q.fields[i];
            && i < END && Fits(k, f) && (k == LocList || k == U32List)
            && Len(k, f) < 0x1_0000 && PayloadSize(k, f) + 4 < 0x1_0000
            && FieldBytes(q, i) == (Header(PayloadSize(k, f), Flag(i)) + LE(Len(k, f), 2)) + ListBytes(k, f)
  {
    hide Header, Flag, LE, LocListBytes, NumListBytes;
    var k, f := KindOf(i), q.fields[i];
    assert Len(k, f) % 0x1_0000 == Len(k, f);
    Regroup(Header(PayloadSize(k, f), Flag(i)), LE(Len(k, f), 2), ListBytes(k, f));
  }

  lemma Regroup(a: seq<Byte>, b: seq<Byte>, c: seq<Byte>)
    ensures a + (b + c) == (a + b) + c
  {
  }

  /** The reader's step over a list field. */
  lemma ListFieldStep(b: seq<Byte>, pos: nat, was: Query, i: FlagBit)
    requires Valid(was) && IsList(i) && pos + 6 <= |b| && ReadAt(b, pos + 2, 4) == Flag(i)
    requires ParseFields(b, pos, was).Ok?
    ensures ReadField(b, pos + 6, KindOf(i), ReadAt(b, pos, 2), was.fields[i]).Ok?
    ensures var f := ReadField(b, pos + 6, KindOf(i), ReadAt(b, pos, 2), was.fields[i]).value;
            Fits(KindOf(i), f) && Fits(KindOf(i), ParseFields(b, pos, was).value.fields[i])
            && Extends(KindOf(i), f, ParseFields(b, pos, was).value.fields[i])
  {
    hide Extends, ReadField, OrFlag, ReadAt, FindFlag, KindOf, Fits, Flag;
    FlagFound(i, 0);
    ValidAt(was, i);
    assert i != END && KindOf(i) != Bare;
    var q1 := was.(flags := OrFlag(was.flags, Flag(i)));
    var r := ReadField(b, pos + 6, KindOf(i), ReadAt(b, pos, 2), was.fields[i]);
    ReadExtends(b, pos + 6, KindOf(i), ReadAt(b, pos, 2), was.fields[i]);
    var q2 := q1.(fields := was.fields[i := r.value]);
    assert Valid(q2);
    OnlyAppends(b, r.pos, q2, i);
    ValidAt(ParseFields(b, r.pos, q2).value, i);
  }

  /** Bit `i` of what is read holds `f`. */
  ghost predicate GivesBack(b: seq<Byte>, pos: nat, was: Query, i: FlagBit, f: Field)
    requires Valid(was)
  {
    ParseFields(b, pos, was).Ok? && ParseFields(b, pos, was).value.fields[i] == f
  }

  lemma FlagWord(i: FlagBit)
    ensures Flag(i) < WORD
  {
    FlagBelow(i);
  }

  /** A shown list, part by part, and what follows it. */
  lemma ListParts(b: seq<Byte>, pos: nat, q: Query, public: bool, i: FlagBit)
    requires Valid(q) && q.flags[END] && Visible(q, public, i) && IsList(i) && SizesFit(q, public)
    requires Holds(b, pos, ViewBytes(q, public, i))
    ensures var k, f := KindOf(i), q.fields[i];
            && i < END && Fits(k, f) && pos + 8 <= |b|
            && ReadAt(b, pos + 2, 4) == Flag(i) && ReadAt(b, pos + 6, 2) == Len(k, f) && Holds(b, pos + 8, ListBytes(k, f))
            && pos + 10 + |ListBytes(k, f)| <= |b| && ReadAt(b, pos + 8 + |ListBytes(k, f)|, 2) != 0
  {
    hide *;
    ValidAt(q, i);
    FlagWord(i);
    ListField(q, public, i);
    ViewUnfolds(q, public, i);
    var k, f := KindOf(i), q.fields[i];
    var header, count, elements := Header(PayloadSize(k, f), Flag(i)), LE(Len(k, f), 2), ListBytes(k, f);
    HoldsSplit(b, pos, FieldBytes(q, i), ViewBytes(q, public, i + 1));
    HoldsSplit(b, pos, header + count, elements);
    HoldsSplit(b, pos, header, count);
    HeaderRecovers(b, pos, PayloadSize(k, f), Flag(i));
    CountHeld(b, pos + 6, Len(k, f));
    FirstSizeNotZero(b, pos + 8 + |elements|, q, public, i + 1);
  }

  lemma KindOfList(i: FlagBit)
    requires IsList(i)
    ensures KindOf(i) == LocList || KindOf(i) == U32List
  {
  }

  lemma ListStarted(b: seq<Byte>, pos: nat, was: Query, i: FlagBit, f: Field)
    requires Valid(was) && IsList(i) && was.fields[i] == Default(KindOf(i)) && Fits(KindOf(i), was.fields[i])
    requires pos + 6 <= |b| && ReadAt(b, pos + 2, 4) == Flag(i) && GivesBack(b, pos, was, i, f)
    ensures Fits(KindOf(i), Default(KindOf(i)))
    ensures ReadField(b, pos + 6, KindOf(i), ReadAt(b, pos, 2), Default(KindOf(i))).Ok?
    ensures var g := ReadField(b, pos + 6, KindOf(i), ReadAt(b, pos, 2), Default(KindOf(i))).value;
            Fits(KindOf(i), g) && Fits(KindOf(i), f) && Extends(KindOf(i), g, f)
  {
    hide ReadField, ReadAt, Extends, Default, Flag, KindOf, ParseFields, Fits, IsList;
    ListFieldStep(b, pos, was, i);
  }

  /** If the list comes back, then the two bytes behind it are zeroes. */
  lemma ZeroesBehind(b: seq<Byte>, pos: nat, was: Query, i: FlagBit, f: Field)
    requires Valid(was) && IsList(i) && Fits(KindOf(i), f) && was.fields[i] == Default(KindOf(i)) && Fits(KindOf(i), was.fields[i])
    requires pos + 10 + |ListBytes(KindOf(i), f)| <= |b|
    requires ReadAt(b, pos + 2, 4) == Flag(i) && ReadAt(b, pos + 6, 2) == Len(KindOf(i), f)
    requires Holds(b, pos + 8, ListBytes(KindOf(i), f)) && GivesBack(b, pos, was, i, f)
    ensures ReadAt(b, pos + 8 + |ListBytes(KindOf(i), f)|, 2) == 0
  {
    hide *;
    KindOfList(i);
    var k, elements := KindOf(i), ListBytes(KindOf(i), f);
    ListStarted(b, pos, was, i, f);
    ReadsList(b, pos + 6, k, ReadAt(b, pos, 2));
    SameLengthPrefix(k, ReadField(b, pos + 6, k, ReadAt(b, pos, 2), Default(k)).value, f);
    Halves(b, pos + 6);
    TwoZeroes(b, pos + 8);
    ZeroesThroughout(b, pos + 8, elements);
    TwoZeroes(b, pos + 8 + |elements|);
  }

  /** A shown list does not come back. */
  lemma ListLost(b: seq<Byte>, pos: nat, q: Query, public: bool, i: FlagBit)
    requires Valid(q) && q.flags[END] && Visible(q, public, i) && IsList(i) && SizesFit(q, public)
    requires Holds(b, pos, ViewBytes(q, public, i))
    ensures !GivesBack(b, pos, Partial(q, public, i), i, q.fields[i])
  {
    hide *;
    ValidAt(q, i);
    ListParts(b, pos, q, public, i);
    NotBegun(q, public, i);
    ValidAt(Partial(q, public, i), i);
    if GivesBack(b, pos, Partial(q, public, i), i, q.fields[i]) {
      ZeroesBehind(b, pos, Partial(q, public, i), i, q.fields[i]);
    }
  }

  lemma NotBegun(q: Query, public: bool, i: FlagBit)
    requires Valid(q)
    ensures Partial(q, public, i).fields[i] == Default(KindOf(i))
  {
  }

  lemma CountHeld(b: seq<Byte>, pos: nat, n: nat)
    requires n < 0x1_0000 && Holds(b, pos, LE(n, 2))
    ensures pos + 2 <= |b| && ReadAt(b, pos, 2) == n
  {
    Widths();
    ReadHeld(b, pos, n, 2);
  }

  // -------------------------------------------------------------- whole queries

  /** The first list that is shown. */
  lemma {:induction false} FirstList(q: Query, public: bool, j: nat) returns (i: FlagBit)
    requires Valid(q) && j <= 32 && ShowsList(q, public, j)
    ensures j <= i < END && Visible(q, public, i) && IsList(i)
    ensures forall k: FlagBit :: j <= k < i && Visible(q, public, k) ==> !IsList(k)
    decreases 32 - j
  {
    var w: FlagBit :| j <= w && Visible(q, public, w) && IsList(w);
    if Visible(q, public, j) && IsList(j) {
      i := j;
    } else {
      assert w != j;
      i := FirstList(q, public, j + 1);
    }
  }

  lemma ViewAt(q: Query, public: bool, i: FlagBit)
    requires Valid(q) && Visible(q, public, i)
    ensures View(q, public).fields[i] == q.fields[i]
  {
  }

  /** A query that shows a list is never read back, wherever the reader stops. */
  lemma ListsAreLost(b: seq<Byte>, pos: nat, q: Query, public: bool)
    requires Valid(q) && q.flags[END] && SizesFit(q, public) && ShowsList(q, public, 0)
    requires Holds(b, pos, ViewBytes(q, public, 0))
    ensures ParseOne(b, pos).Ok? ==> ParseOne(b, pos).value != Some(View(q, public))
  {
    hide *;
    FirstSizeNotZero(b, pos, q, public, 0);
    var i := FirstList(q, public, 0);
    var p := ReadsUpTo(b, pos, q, public, 0, i);
    StartsEmpty(q, public);
    ListLost(b, p, q, public, i);
    ParseOnePresent(b, pos);
    NotTheView(b, pos, q, public, p, i);
  }

  lemma NotTheView(b: seq<Byte>, pos: nat, q: Query, public: bool, p: nat, i: FlagBit)
    requires Valid(q) && Visible(q, public, i)
    requires ParseFields(b, pos, Empty()) == ParseFields(b, p, Partial(q, public, i))
    requires !GivesBack(b, p, Partial(q, public, i), i, q.fields[i])
    ensures ParseFields(b, pos, Empty()).Ok? ==> ParseFields(b, pos, Empty()).value != View(q, public)
  {
    hide ParseFields, Partial, View, Visible, Valid, Empty;
    ViewAt(q, public, i);
  }

  ghost predicate Codable(c: Option<Query>, public: bool) {
    c.Some? ==> Valid(c.value) && c.value.flags[END] && SizesFit(c.value, public)
  }

  ghost predicate ListShown(c: Option<Query>, public: bool)
    requires c.Some? ==> Valid(c.value)
  {
    c.Some? && ShowsList(c.value, public, 0)
  }

  /** The round trip works exactly for the queries that show no list. */
  lemma RoundTripIffNoList(b: seq<Byte>, pos: nat, c: Option<Query>, public: bool)
    requires Codable(c, public) && Holds(b, pos, Serialized(c, public))
    ensures ParseOne(b, pos) == Ok(ViewOf(c, public), pos + |Serialized(c, public)|) <==> !ListShown(c, public)
    ensures ListShown(c, public) && ParseOne(b, pos).Ok? ==> ParseOne(b, pos).value != ViewOf(c, public)
  {
    hide ParseOne, Holds, ViewBytes, ShowsList, Valid, View;
    if !ListShown(c, public) {
      SingleQueryRoundTrip(b, pos, c, public);
    } else {
      WrittenFirst(b, pos, c.value, public);
      ListsAreLost(b, pos, c.value, public);
    }
  }

  /** Whatever is padded comes last. */
  lemma WrittenFirst(b: seq<Byte>, pos: nat, q: Query, public: bool)
    requires Valid(q) && Holds(b, pos, Serialized(Some(q), public))
    ensures Holds(b, pos, ViewBytes(q, public, 0))
  {
    hide *;
    var padding := SerializedParts(q, public);
    HoldsSplit(b, pos, ViewBytes(q, public, 0), padding);
  }

  lemma SerializedParts(q: Query, public: bool) returns (padding: seq<Byte>)
    requires Valid(q)
    ensures Serialized(Some(q), public) == ViewBytes(q, public, 0) + padding
  {
    hide ViewBytes, ViewSize, Valid, Zeroes;
    SizeExactIffNoLists(q, public, 0);
    padding := Zeroes(ViewSize(q, public, 0) - |ViewBytes(q, public, 0)|);
  }

  // ------------------------------------------------------------ whole locations

  ghost predicate AllCodable(cs: seq<Option<Query>>, public: bool) {
    forall i :: 0 <= i < |cs| ==> Codable(cs[i], public)
  }

  ghost predicate SomeListShown(cs: seq<Option<Query>>, public: bool)
    requires AllValid(cs)
  {
    exists i :: 0 <= i < |cs| && ListShown(cs[i], public)
  }

  lemma CardHere(b: seq<Byte>, pos: nat, end: nat)
    requires pos < end && ParseCards(b, pos, end).Ok?
    ensures ParseOne(b, pos).Ok? && ParseCards(b, ParseOne(b, pos).pos, end).Ok?
    ensures ParseCards(b, pos, end).value == [ParseOne(b, pos).value] + ParseCards(b, ParseOne(b, pos).pos, end).value
  {
    hide ParseOne;
  }

  /** The first list spoils the cards from there on. */
  lemma {:induction false} CardsLost(b: seq<Byte>, pos: nat, cs: seq<Option<Query>>, public: bool)
    requires AllValid(cs) && AllCodable(cs, public) && SomeListShown(cs, public)
    requires Holds(b, pos, Cards(cs, public))
    ensures ParseCards(b, pos, pos + |Cards(cs, public)|).Ok? ==>
              ParseCards(b, pos, pos + |Cards(cs, public)|).value != ViewsOf(cs, public)
    decreases |cs|
  {
    hide Codable, ListShown, Valid, Holds, ParseOne, Serialized, ViewOf, ParseCards;
    var c, end := cs[0], pos + |Cards(cs, public)|;
    assert AllValid(cs[1..]) && AllCodable(cs[1..], public) && Codable(c, public);
    if pos < end && ParseCards(b, pos, end).Ok? && ParseCards(b, pos, end).value == ViewsOf(cs, public) {
      HoldsSplit(b, pos, Serialized(c, public), Cards(cs[1..], public));
      RoundTripIffNoList(b, pos, c, public);
      CardHere(b, pos, end);
      assert ParseOne(b, pos).value == ViewsOf(cs, public)[0];
      assert ParseCards(b, ParseOne(b, pos).pos, end).value == ViewsOf(cs, public)[1..];
      var i :| 0 <= i < |cs| && ListShown(cs[i], public);
      assert i > 0 && ListShown(cs[1..][i - 1], public);
      CardsLost(b, pos + |Serialized(c, public)|, cs[1..], public);
      assert false;
    } else if pos >= end {
      assert ParseCards(b, pos, end) == Ok([], pos) by {
        NothingLeft(b, pos, end);
      }
    }
  }

  lemma NothingLeft(b: seq<Byte>, pos: nat, end: nat)
    requires pos >= end
    ensures ParseCards(b, pos, end) == Ok([], pos)
  {
  }

  /** And a whole location is read back exactly when none of its cards shows a
    * list. */
  lemma LocationRoundTripIffNoList(cs: seq<Option<Query>>, public: bool)
    requires AllValid(cs) && AllCodable(cs, public) && |Cards(cs, public)| < WORD
    ensures ParseLocation(LocationBytes(cs, public)) == Ok(ViewsOf(cs, public), |LocationBytes(cs, public)|)
       <==> !SomeListShown(cs, public)
  {
    hide Codable, ListShown, Cards, ViewsOf, ParseCards, LE, ReadAt;
    if SomeListShown(cs, public) {
      var b := LocationBytes(cs, public);
      LocationParts(cs, public);
      CardsLost(b, 4, cs, public);
    } else {
      forall i | 0 <= i < |cs| ensures Sendable(cs[i], public) {
        SendableWhen(cs[i], public);
      }
      LocationRoundTrip(cs, public);
    }
  }

  lemma SendableWhen(c: Option<Query>, public: bool)
    requires Codable(c, public) && !ListShown(c, public)
    ensures Sendable(c, public)
  {
  }
}
