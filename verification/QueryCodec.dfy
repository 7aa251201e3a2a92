/** Card queries (CoreUtils.cpp): reading the core's query buffers, and writing
  * them back for the owner or for everybody, with hidden fields left out. */
module QueryCodec {
  import opened Options
  import opened Arith
  import opened Words
  import opened ByteIO

  // ------------------------------------------------------------------ fields

  datatype LocInfo = LocInfo(con: nat, loc: nat, seq_: nat, pos: nat)

  datatype Kind = U8 | U32 | U64 | Loc | LinkPair | LocList | U32List | Bare

  /** The value of one field; signed fields are their 32-bit patterns. */
  datatype Field =
    | Num(n: nat)
    | At(info: LocInfo)
    | Link(link: nat, marker: nat)
    | Locs(infos: seq<LocInfo>)
    | Nums(ns: seq<nat>)
    | Nothing

  // The bit of every QUERY_* flag that is treated specially somewhere.
  const POSITION := 1
  const REASON_CARD := 13
  const EQUIP_CARD := 14
  const TARGET_CARD := 15
  const OVERLAY_CARD := 16
  const COUNTERS := 17
  const IS_PUBLIC := 20
  const IS_HIDDEN := 24
  const END: FlagBit := 31

  type FlagBit = i: nat | i < 32

  /** The wire type behind each flag, in the order of the bits. */
  function KindOf(i: FlagBit): Kind {
    if i == 7 then U64
    else if i == REASON_CARD || i == EQUIP_CARD then Loc
    else if i == TARGET_CARD then LocList
    else if i == OVERLAY_CARD || i == COUNTERS then U32List
    else if i == 18 || i == IS_PUBLIC || i == IS_HIDDEN then U8
    else if i == 23 then LinkPair
    else if i >= 26 then Bare
    else U32
  }

  predicate IsList(i: FlagBit) { KindOf(i) == LocList || KindOf(i) == U32List }

  function Default(k: Kind): Field {
    match k
    case U8 => Num(0)
    case U32 => Num(0)
    case U64 => Num(0)
    case Loc => At(LocInfo(0, 0, 0, 0))
    case LinkPair => Link(0, 0)
    case LocList => Locs([])
    case U32List => Nums([])
    case Bare => Nothing
  }

  predicate LocFits(l: LocInfo) { l.con < 256 && l.loc < 256 && l.seq_ < WORD && l.pos < WORD }

  predicate Fits(k: Kind, f: Field) {
    match k
    case U8 => f.Num? && f.n < 256
    case U32 => f.Num? && f.n < WORD
    case U64 => f.Num? && f.n < WORD * WORD
    case Loc => f.At? && LocFits(f.info)
    case LinkPair => f.Link? && f.link < WORD && f.marker < WORD
    case LocList => f.Locs? && forall l :: l in f.infos ==> LocFits(l)
    case U32List => f.Nums? && forall n :: n in f.ns ==> n < WORD
    case Bare => f.Nothing?
  }

  /** A card query: one flag and one value for each of the 32 bits. */
  datatype Query = Query(flags: seq<bool>, fields: seq<Field>)

  ghost predicate Valid(q: Query) {
    |q.flags| == 32 && |q.fields| == 32 && forall i: FlagBit :: Fits(KindOf(i), q.fields[i])
  }

  function Empty(): (q: Query)
    ensures Valid(q)
  {
    Query(seq(32, _ => false), seq(32, i requires 0 <= i < 32 => Default(KindOf(i))))
  }

  // -------------------------------------------------------------- visibility

  /** The fields only their owner may see. */
  predicate Secret(i: FlagBit) {
    i == 0 || 2 <= i <= 11 || i == 19 || 21 <= i <= 23
  }

  /** The card as a whole is public: it says so, or it lies face-up. */
  predicate CardPublic(q: Query)
    requires Valid(q)
  {
    (q.flags[IS_PUBLIC] && q.fields[IS_PUBLIC].n != 0)
    || (q.flags[POSITION] && (q.fields[POSITION].n % 2 == 1 || (q.fields[POSITION].n / 4) % 2 == 1))
  }

  predicate IsPublic(q: Query, i: FlagBit)
    requires Valid(q)
  {
    CardPublic(q) || !Secret(i)
  }

  /** What `SerializeSingleQuery` does not skip. */
  predicate Visible(q: Query, public: bool, i: FlagBit)
    requires Valid(q)
  {
    && q.flags[i]
    && !(i == REASON_CARD && q.fields[REASON_CARD].info.loc == 0)
    && !(i == EQUIP_CARD && q.fields[EQUIP_CARD].info.loc == 0)
    && !(q.flags[IS_HIDDEN] && q.fields[IS_HIDDEN].n != 0 && !IsPublic(q, i))
    && !(public && !IsPublic(q, i))
  }

  /** A view of a query: the visible fields, everything else as if never sent. */
  function View(q: Query, public: bool): (v: Query)
    requires Valid(q)
    ensures Valid(v)
  {
    Query(seq(32, i requires 0 <= i < 32 => Visible(q, public, i)),
          seq(32, i requires 0 <= i < 32 => if Visible(q, public, i) then q.fields[i] else Default(KindOf(i))))
  }

  // ----------------------------------------------------------------- writing

  function LocBytes(l: LocInfo): (s: seq<Byte>)
    ensures |s| == 10
  {
    LE(l.con, 1) + LE(l.loc, 1) + LE(l.seq_, 4) + LE(l.pos, 4)
  }

  function LocListBytes(ls: seq<LocInfo>): (s: seq<Byte>)
    ensures |s| == 10 * |ls|
  {
    if ls == [] then [] else LocBytes(ls[0]) + LocListBytes(ls[1..])
  }

  function NumListBytes(ns: seq<nat>): (s: seq<Byte>)
    ensures |s| == 4 * |ns|
  {
    if ns == [] then [] else LE(ns[0], 4) + NumListBytes(ns[1..])
  }

  /** The bytes of a value. A list is preceded by its count on two bytes. */
  function Payload(k: Kind, f: Field): seq<Byte>
    requires Fits(k, f)
  {
    match k
    case U8 => LE(f.n, 1)
    case U32 => LE(f.n, 4)
    case U64 => LE(f.n, 8)
    case Loc => LocBytes(f.info)
    case LinkPair => LE(f.link, 4) + LE(f.marker, 4)
    case LocList => LE(|f.infos| % 0x1_0000, 2) + LocListBytes(f.infos)
    case U32List => LE(|f.ns| % 0x1_0000, 2) + NumListBytes(f.ns)
    case Bare => []
  }

  /** `ComputeQuerySize`. A list is accounted for with a count of four bytes, and
    * a location in it with the padded size it has in memory. */
  function PayloadSize(k: Kind, f: Field): nat
    requires Fits(k, f)
  {
    match k
    case U8 => 1
    case U32 => 4
    case U64 => 8
    case Loc => 10
    case LinkPair => 8
    case LocList => 4 + 12 * |f.infos|
    case U32List => 4 + 4 * |f.ns|
    case Bare => 0
  }

  function Flag(i: FlagBit): (v: nat)
    ensures v == Pow2(i)
  {
    if i == 0 then 1 else 2 * Flag(i - 1)
  }

  /** A field starts with the size of what follows the size, and its flag. */
  function Header(size: nat, flag: nat): (s: seq<Byte>)
    ensures |s| == 6
  {
    LE((size + 4) % 0x1_0000, 2) + LE(flag, 4)
  }

  function FieldBytes(q: Query, i: FlagBit): seq<Byte>
    requires Valid(q)
  {
    Header(PayloadSize(KindOf(i), q.fields[i]), Flag(i)) + Payload(KindOf(i), q.fields[i])
  }

  /** The visible fields from bit `i` on. */
  function ViewBytes(q: Query, public: bool, i: nat): seq<Byte>
    requires Valid(q) && i <= 32
    decreases 32 - i
  {
    if i == 32 then []
    else (if Visible(q, public, i) then FieldBytes(q, i) else []) + ViewBytes(q, public, i + 1)
  }

  /** The size computed before writing. */
  function ViewSize(q: Query, public: bool, i: nat): nat
    requires Valid(q) && i <= 32
    decreases 32 - i
  {
    if i == 32 then 0
    else (if Visible(q, public, i) then 6 + PayloadSize(KindOf(i), q.fields[i]) else 0) + ViewSize(q, public, i + 1)
  }

  ghost predicate ShowsList(q: Query, public: bool, i: nat)
    requires Valid(q)
  {
    exists j: FlagBit :: i <= j && Visible(q, public, j) && IsList(j)
  }

  /** Exactly the precomputed number of bytes is written if and only if no list
    * is visible: every visible list leaves bytes of its slot unwritten. */
  lemma {:induction false} SizeExactIffNoLists(q: Query, public: bool, i: nat)
    requires Valid(q) && i <= 32
    ensures |ViewBytes(q, public, i)| <= ViewSize(q, public, i)
    ensures |ViewBytes(q, public, i)| == ViewSize(q, public, i) <==> !ShowsList(q, public, i)
    decreases 32 - i
  {
    if i < 32 {
      SizeExactIffNoLists(q, public, i + 1);
      FieldSize(q, i);
      assert ShowsList(q, public, i) <==> (Visible(q, public, i) && IsList(i)) || ShowsList(q, public, i + 1) by {
        if ShowsList(q, public, i) {
          var j: FlagBit :| i <= j && Visible(q, public, j) && IsList(j);
          assert j == i || i + 1 <= j;
        }
      }
    }
  }

  /** What the computed size of a list has too much. */
  function Slack(k: Kind, f: Field): nat
    requires Fits(k, f)
  {
    match k
    case LocList => 2 + 2 * |f.infos|
    case U32List => 2
    case _ => 0
  }

  lemma FieldSize(q: Query, i: FlagBit)
    requires Valid(q)
    ensures |FieldBytes(q, i)| + Slack(KindOf(i), q.fields[i]) == 6 + PayloadSize(KindOf(i), q.fields[i])
    ensures Slack(KindOf(i), q.fields[i]) > 0 <==> IsList(i)
  {
  }

  function Zeroes(n: nat): seq<Byte> { seq(n, _ => 0) }

  /** `SerializeSingleQuery`: the buffer has the precomputed size and is written
    * from its start. */
  ghost function Serialized(q: Option<Query>, public: bool): seq<Byte>
    requires q.Some? ==> Valid(q.value)
  {
    match q
    case None => [0, 0]
    case Some(v) =>
      SizeExactIffNoLists(v, public, 0);
      ViewBytes(v, public, 0) + Zeroes(ViewSize(v, public, 0) - |ViewBytes(v, public, 0)|)
  }

  // ----------------------------------------------------------------- reading

  function OrFlag(flags: seq<bool>, v: nat): (r: seq<bool>)
    requires |flags| == 32
    ensures |r| == 32
  {
    seq(32, i requires 0 <= i < 32 => flags[i] || (v / Flag(i)) % 2 == 1)
  }

  /** Which case of the reader's switch a flag word selects. */
  function FindFlag(v: nat, i: nat): Option<FlagBit>
    requires i <= 32
    decreases 32 - i
  {
    if i == 32 then None else if v == Flag(i) then Some(i) else FindFlag(v, i + 1)
  }

  function ReadLoc(b: seq<Byte>, pos: nat): LocInfo
    requires pos + 10 <= |b|
  {
    LocInfo(ReadAt(b, pos, 1), ReadAt(b, pos + 1, 1), ReadAt(b, pos + 2, 4), ReadAt(b, pos + 6, 4))
  }

  function ReadLocs(b: seq<Byte>, pos: nat, n: nat): seq<LocInfo>
    requires pos + 10 * n <= |b|
    decreases n
  {
    if n == 0 then [] else [ReadLoc(b, pos)] + ReadLocs(b, pos + 10, n - 1)
  }

  function ReadNums(b: seq<Byte>, pos: nat, n: nat): seq<nat>
    requires pos + 4 * n <= |b|
    decreases n
  {
    if n == 0 then [] else [ReadAt(b, pos, 4)] + ReadNums(b, pos + 4, n - 1)
  }

  /** The value behind a flag; a list is preceded by its count on four bytes and
    * is appended to what was read before. */
  function ReadField(b: seq<Byte>, pos: nat, k: Kind, size: nat, old_: Field): (r: Parsed<Field>)
    requires Fits(k, old_)
    ensures r.Ok? ==> pos <= r.pos
  {
    match k
    case U8 => if pos + 1 > |b| then Overrun else Ok(Num(ReadAt(b, pos, 1)), pos + 1)
    case U32 => if pos + 4 > |b| then Overrun else Ok(Num(ReadAt(b, pos, 4)), pos + 4)
    case U64 => if pos + 8 > |b| then Overrun else Ok(Num(ReadAt(b, pos, 8)), pos + 8)
    case Loc => if pos + 10 > |b| then Overrun else Ok(At(ReadLoc(b, pos)), pos + 10)
    case LinkPair => if pos + 8 > |b| then Overrun else Ok(Link(ReadAt(b, pos, 4), ReadAt(b, pos + 4, 4)), pos + 8)
    case LocList =>
      if pos + 4 > |b| || pos + 4 + 10 * ReadAt(b, pos, 4) > |b| then Overrun
      else Ok(Locs(old_.infos + ReadLocs(b, pos + 4, ReadAt(b, pos, 4))), pos + 4 + 10 * ReadAt(b, pos, 4))
    case U32List =>
      if pos + 4 > |b| || pos + 4 + 4 * ReadAt(b, pos, 4) > |b| then Overrun
      else Ok(Nums(old_.ns + ReadNums(b, pos + 4, ReadAt(b, pos, 4))), pos + 4 + 4 * ReadAt(b, pos, 4))
    case Bare => Overrun
  }

  lemma {:induction false} ReadLocsFit(b: seq<Byte>, pos: nat, n: nat)
    requires pos + 10 * n <= |b|
    ensures forall l :: l in ReadLocs(b, pos, n) ==> LocFits(l)
    decreases n
  {
    if n > 0 {
      ReadFits(b, pos, 1);
      ReadFits(b, pos + 1, 1);
      ReadFits(b, pos + 2, 4);
      ReadFits(b, pos + 6, 4);
      ReadLocsFit(b, pos + 10, n - 1);
    }
  }

  lemma {:induction false} ReadNumsFit(b: seq<Byte>, pos: nat, n: nat)
    requires pos + 4 * n <= |b|
    ensures forall v :: v in ReadNums(b, pos, n) ==> v < WORD
    decreases n
  {
    if n > 0 {
      ReadFits(b, pos, 4);
      ReadNumsFit(b, pos + 4, n - 1);
    }
  }

  lemma ReadFits(b: seq<Byte>, pos: nat, w: nat)
    requires pos + w <= |b| && w in {1, 2, 4, 8}
    ensures ReadAt(b, pos, w) < Pow256(w)
    ensures Pow256(1) == 256 && Pow256(4) == WORD && Pow256(8) == WORD * WORD
  {
    Widths();
    FromLEBound(b[pos..pos + w]);
  }

  lemma ReadFieldFits(b: seq<Byte>, pos: nat, k: Kind, size: nat, f: Field)
    requires Fits(k, f) && ReadField(b, pos, k, size, f).Ok?
    ensures Fits(k, ReadField(b, pos, k, size, f).value)
  {
    match k
    case U8 => ReadFits(b, pos, 1);
    case U32 => ReadFits(b, pos, 4);
    case U64 => ReadFits(b, pos, 8);
    case Loc => ReadLocsFit(b, pos, 1); assert ReadLocs(b, pos, 1) == [ReadLoc(b, pos)]; assert ReadLoc(b, pos) in ReadLocs(b, pos, 1);
    case LinkPair => ReadFits(b, pos, 4); ReadFits(b, pos + 4, 4);
    case LocList => ReadLocsFit(b, pos + 4, ReadAt(b, pos, 4));
    case U32List => ReadNumsFit(b, pos + 4, ReadAt(b, pos, 4));
    case Bare =>
  }

  /** The loop of `DeserializeOneQuery`. */
  ghost function ParseFields(b: seq<Byte>, pos: nat, q: Query): (r: Parsed<Query>)
    requires Valid(q)
    ensures r.Ok? ==> Valid(r.value) && pos < r.pos
    decreases |b| - pos
  {
    if pos + 6 > |b| then Overrun
    else
      var size := ReadAt(b, pos, 2);
      var flag := ReadAt(b, pos + 2, 4);
      var q1 := q.(flags := OrFlag(q.flags, flag));
      match FindFlag(flag, 0)
      case None => ParseFields(b, pos + 2 + size, q1)
      case Some(i) =>
        if i == END then Ok(q1, pos + 6)
        else if KindOf(i) == Bare then ParseFields(b, pos + 2 + size, q1)
        else
          match ReadField(b, pos + 6, KindOf(i), size, q.fields[i])
          case Overrun => Overrun
          case Ok(f, pos') =>
            ReadFieldFits(b, pos + 6, KindOf(i), size, q.fields[i]);
            ParseFields(b, pos', q1.(fields := q.fields[i := f]))
  }

  /** `DeserializeOneQuery`. */
  ghost function ParseOne(b: seq<Byte>, pos: nat): (r: Parsed<Option<Query>>)
    ensures r.Ok? ==> pos < r.pos && (r.value.Some? ==> Valid(r.value.value))
  {
    if pos + 2 > |b| then Overrun
    else if ReadAt(b, pos, 2) == 0 then Ok(None, pos + 2)
    else
      match ParseFields(b, pos, Empty())
      case Overrun => Overrun
      case Ok(q, pos') => Ok(Some(q), pos')
  }
}
