/** The query codec as it runs: two passes over the flags and a write pointer
  * on the way out, a read pointer and a loop on the way in. */
module QueryIO {
  import opened Options
  import opened Arith
  import opened Words
  import opened ByteIO
  import opened QueryCodec
  import opened QueryViews

  // ----------------------------------------------------------------- writing

  method InsertLoc(buf: array<Byte>, ptr: nat, l: LocInfo) returns (ptr': nat)
    requires ptr + 10 <= buf.Length
    modifies buf
    ensures ptr' == ptr + 10 && Wrote(old(buf[..]), buf[..], ptr, LocBytes(l))
  {
    hide LE, Wrote;
    ghost var b0 := buf[..];
    ptr' := Write(buf, ptr, l.con, 1);
    ghost var b1 := buf[..];
    ptr' := Write(buf, ptr', l.loc, 1);
    ghost var b2 := buf[..];
    ptr' := Write(buf, ptr', l.seq_, 4);
    ghost var b3 := buf[..];
    ptr' := Write(buf, ptr', l.pos, 4);
    WroteBoth(b0, b1, b2, ptr, LE(l.con, 1), LE(l.loc, 1));
    WroteBoth(b0, b2, b3, ptr, LE(l.con, 1) + LE(l.loc, 1), LE(l.seq_, 4));
    WroteBoth(b0, b3, buf[..], ptr, LE(l.con, 1) + LE(l.loc, 1) + LE(l.seq_, 4), LE(l.pos, 4));
  }

  lemma LocListUnfold(ls: seq<LocInfo>)
    ensures LocListBytes(ls) == if ls == [] then [] else LocBytes(ls[0]) + LocListBytes(ls[1..])
  {
  }

  lemma {:induction false} LocListGrows(ls: seq<LocInfo>, l: LocInfo)
    ensures LocListBytes(ls + [l]) == LocListBytes(ls) + LocBytes(l)
    decreases |ls|
  {
    hide *;
    LocListUnfold(ls);
    LocListUnfold(ls + [l]);
    if ls == [] {
      assert (ls + [l])[1..] == [];
    } else {
      LocListGrows(ls[1..], l);
      assert (ls + [l])[1..] == ls[1..] + [l] && (ls + [l])[0] == ls[0];
    }
  }

  lemma NumListUnfold(ns: seq<nat>)
    ensures NumListBytes(ns) == if ns == [] then [] else LE(ns[0], 4) + NumListBytes(ns[1..])
  {
  }

  lemma {:induction false} NumListGrows(ns: seq<nat>, n: nat)
    ensures NumListBytes(ns + [n]) == NumListBytes(ns) + LE(n, 4)
    decreases |ns|
  {
    hide *;
    NumListUnfold(ns);
    NumListUnfold(ns + [n]);
    if ns == [] {
      assert (ns + [n])[1..] == [];
    } else {
      NumListGrows(ns[1..], n);
      assert (ns + [n])[1..] == ns[1..] + [n] && (ns + [n])[0] == ns[0];
    }
  }

  lemma LocPrefixes(ls: seq<LocInfo>, i: nat)
    requires i <= |ls|
    ensures LocListBytes(ls[..0]) == []
    ensures i < |ls| ==> LocListBytes(ls[..i + 1]) == LocListBytes(ls[..i]) + LocBytes(ls[i])
    ensures ls[..|ls|] == ls
  {
    hide *;
    LocListUnfold(ls[..0]);
    if i < |ls| {
      LocListGrows(ls[..i], ls[i]);
      assert ls[..i + 1] == ls[..i] + [ls[i]];
    }
  }

  lemma NumPrefixes(ns: seq<nat>, i: nat)
    requires i <= |ns|
    ensures NumListBytes(ns[..0]) == []
    ensures i < |ns| ==> NumListBytes(ns[..i + 1]) == NumListBytes(ns[..i]) + LE(ns[i], 4)
    ensures ns[..|ns|] == ns
  {
    hide *;
    NumListUnfold(ns[..0]);
    if i < |ns| {
      NumListGrows(ns[..i], ns[i]);
      assert ns[..i + 1] == ns[..i] + [ns[i]];
    }
  }

  method InsertLocs(buf: array<Byte>, ptr: nat, ls: seq<LocInfo>) returns (ptr': nat)
    requires ptr + 10 * |ls| <= buf.Length
    modifies buf
    ensures ptr' == ptr + 10 * |ls| && Wrote(old(buf[..]), buf[..], ptr, LocListBytes(ls))
  {
    hide *;
    ghost var before := buf[..];
    ptr' := ptr;
    WroteNothing(before, ptr);
    LocPrefixes(ls, 0);
    for i := 0 to |ls|
      invariant ptr' == ptr + 10 * i && Wrote(before, buf[..], ptr, LocListBytes(ls[..i]))
    {
      ghost var now := buf[..];
      ptr' := InsertLoc(buf, ptr', ls[i]);
      WroteBoth(before, now, buf[..], ptr, LocListBytes(ls[..i]), LocBytes(ls[i]));
      LocPrefixes(ls, i);
    }
    LocPrefixes(ls, |ls|);
  }

  method InsertNums(buf: array<Byte>, ptr: nat, ns: seq<nat>) returns (ptr': nat)
    requires ptr + 4 * |ns| <= buf.Length
    modifies buf
    ensures ptr' == ptr + 4 * |ns| && Wrote(old(buf[..]), buf[..], ptr, NumListBytes(ns))
  {
    hide *;
    ghost var before := buf[..];
    ptr' := ptr;
    WroteNothing(before, ptr);
    NumPrefixes(ns, 0);
    for i := 0 to |ns|
      invariant ptr' == ptr + 4 * i && Wrote(before, buf[..], ptr, NumListBytes(ns[..i]))
    {
      ghost var now := buf[..];
      ptr' := Write(buf, ptr', ns[i], 4);
      WroteBoth(before, now, buf[..], ptr, NumListBytes(ns[..i]), LE(ns[i], 4));
      NumPrefixes(ns, i);
    }
    NumPrefixes(ns, |ns|);
  }

  /** The value of one field, behind its header. */
  method InsertField(buf: array<Byte>, ptr: nat, k: Kind, f: Field) returns (ptr': nat)
    requires Fits(k, f) && ptr + |Payload(k, f)| <= buf.Length
    modifies buf
    ensures ptr' == ptr + |Payload(k, f)| && Wrote(old(buf[..]), buf[..], ptr, Payload(k, f))
  {
    hide LE, Wrote, LocBytes, LocListBytes, NumListBytes;
    WroteNothing(buf[..], ptr);
    ghost var before := buf[..];
    ptr' := ptr;
    match k {
      case U8 => ptr' := Write(buf, ptr, f.n, 1);
      case U32 => ptr' := Write(buf, ptr, f.n, 4);
      case U64 => ptr' := Write(buf, ptr, f.n, 8);
      case Loc => ptr' := InsertLoc(buf, ptr, f.info);
      case LinkPair =>
        ptr' := Write(buf, ptr, f.link, 4);
        ghost var now := buf[..];
        ptr' := Write(buf, ptr', f.marker, 4);
        WroteBoth(before, now, buf[..], ptr, LE(f.link, 4), LE(f.marker, 4));
      case LocList =>
        ptr' := Write(buf, ptr, |f.infos| % 0x1_0000, 2);
        ghost var now := buf[..];
        ptr' := InsertLocs(buf, ptr', f.infos);
        WroteBoth(before, now, buf[..], ptr, LE(|f.infos| % 0x1_0000, 2), LocListBytes(f.infos));
      case U32List =>
        ptr' := Write(buf, ptr, |f.ns| % 0x1_0000, 2);
        ghost var now := buf[..];
        ptr' := InsertNums(buf, ptr', f.ns);
        WroteBoth(before, now, buf[..], ptr, LE(|f.ns| % 0x1_0000, 2), NumListBytes(f.ns));
      case Bare =>
    }
  }

  lemma ViewSkips(q: Query, public: bool, i: FlagBit)
    requires Valid(q)
    ensures ViewSize(q, public, i) == (if Visible(q, public, i) then 6 + PayloadSize(KindOf(i), q.fields[i]) else 0)
                                    + ViewSize(q, public, i + 1)
    ensures !Visible(q, public, i) ==> ViewBytes(q, public, i) == ViewBytes(q, public, i + 1)
    ensures |FieldBytes(q, i)| == 6 + |Payload(KindOf(i), q.fields[i])| <= 6 + PayloadSize(KindOf(i), q.fields[i])
  {
    hide Visible, Flag;
  }

  lemma FieldParts(q: Query, i: FlagBit)
    requires Valid(q)
    ensures FieldBytes(q, i) == (LE((PayloadSize(KindOf(i), q.fields[i]) + 4) % 0x1_0000, 2) + LE(Flag(i), 4))
                              + Payload(KindOf(i), q.fields[i])
  {
  }

  /** One pass of the writing loop over a field that is shown. */
  method InsertWhole(buf: array<Byte>, ptr: nat, q: Query, i: FlagBit, flag: nat) returns (ptr': nat)
    requires Valid(q) && flag == Flag(i)
    requires ptr + 6 + |Payload(KindOf(i), q.fields[i])| <= buf.Length
    modifies buf
    ensures ptr' == ptr + |FieldBytes(q, i)| && Wrote(old(buf[..]), buf[..], ptr, FieldBytes(q, i))
  {
    hide *;
    ValidAt(q, i);
    FieldParts(q, i);
    ghost var b0 := buf[..];
    var size := (PayloadSize(KindOf(i), q.fields[i]) + 4) % 0x1_0000;
    ptr' := Write(buf, ptr, size, 2);
    ghost var b1 := buf[..];
    ptr' := Write(buf, ptr', flag, 4);
    WroteBoth(b0, b1, buf[..], ptr, LE(size, 2), LE(flag, 4));
    ghost var b2 := buf[..];
    ptr' := InsertField(buf, ptr', KindOf(i), q.fields[i]);
    WroteBoth(b0, b2, buf[..], ptr, LE(size, 2) + LE(flag, 4), Payload(KindOf(i), q.fields[i]));
  }

  lemma SplitsField(q: Query, public: bool, i: FlagBit, done: seq<Byte>)
    requires Valid(q) && Visible(q, public, i) && Splits(ViewBytes(q, public, 0), done, ViewBytes(q, public, i))
    ensures Splits(ViewBytes(q, public, 0), done + FieldBytes(q, i), ViewBytes(q, public, i + 1))
  {
    hide *;
    ViewUnfolds(q, public, i);
    SplitsNext(ViewBytes(q, public, 0), done, FieldBytes(q, i), ViewBytes(q, public, i + 1));
  }

  lemma NextFlag(i: FlagBit)
    ensures i < 31 ==> Flag(i + 1) == 2 * Flag(i)
  {
  }

  lemma ViewEnds(q: Query, public: bool)
    requires Valid(q)
    ensures ViewBytes(q, public, 32) == [] && ViewSize(q, public, 32) == 0 && Flag(0) == 1
  {
  }

  /** The first loop: the size of what will be written. */
  method ComputeTotalSize(q: Query, isPublic: bool) returns (size: nat)
    requires Valid(q)
    ensures size == ViewSize(q, isPublic, 0)
  {
    hide Visible, Payload, PayloadSize, KindOf, Fits, ViewSize, ViewBytes;
    size := 0;
    ViewEnds(q, isPublic);
    for i := 0 to 32
      invariant size + ViewSize(q, isPublic, i) == ViewSize(q, isPublic, 0)
    {
      ViewSkips(q, isPublic, i);
      if Visible(q, isPublic, i) {
        size := size + 6 + PayloadSize(KindOf(i), q.fields[i]);
      }
    }
  }

  /** The writing loop before its pass over bit `i`: `ptr` bytes are written,
    * the rest of the view fits behind them. */
  ghost predicate Filling(q: Query, public: bool, i: nat, before: seq<Byte>, now: seq<Byte>, ptr: nat, done: seq<Byte>)
    requires Valid(q) && i <= 32
  {
    && ptr == |done| && ptr + ViewSize(q, public, i) <= |now|
    && Wrote(before, now, 0, done)
    && Splits(ViewBytes(q, public, 0), done, ViewBytes(q, public, i))
  }

  /** One pass over a flag. */
  method InsertIfShown(qb: array<Byte>, q: Query, isPublic: bool, i: FlagBit, flag: nat, ptr: nat,
                       ghost before: seq<Byte>, ghost done: seq<Byte>) returns (ptr': nat, ghost done': seq<Byte>)
    requires Valid(q) && flag == Flag(i) && Filling(q, isPublic, i, before, qb[..], ptr, done)
    modifies qb
    ensures Filling(q, isPublic, i + 1, before, qb[..], ptr', done')
  {
    hide Visible, Payload, PayloadSize, KindOf, Fits, ViewSize, ViewBytes, Wrote, Header, FieldBytes, Valid, Splits, Flag;
    ptr', done' := ptr, done;
    ViewSkips(q, isPublic, i);
    if Visible(q, isPublic, i) {
      ghost var now := qb[..];
      SplitsField(q, isPublic, i, done);
      ptr' := InsertWhole(qb, ptr, q, i, flag);
      WroteBoth(before, now, qb[..], 0, done, FieldBytes(q, i));
      done' := done + FieldBytes(q, i);
    }
  }

  lemma FillingStarts(q: Query, public: bool, before: seq<Byte>)
    requires Valid(q) && |before| == ViewSize(q, public, 0)
    ensures Filling(q, public, 0, before, before, 0, [])
  {
    hide Wrote, ViewBytes, ViewSize, Valid;
    WroteNothing(before, 0);
  }

  lemma FillingEnds(q: Query, public: bool, before: seq<Byte>, now: seq<Byte>, ptr: nat, done: seq<Byte>)
    requires Valid(q) && Filling(q, public, 32, before, now, ptr, done)
    ensures Wrote(before, now, 0, ViewBytes(q, public, 0))
  {
    hide Wrote, ViewBytes, ViewSize, Valid;
    ViewEnds(q, public);
    assert done + [] == done;
  }

  /** The second loop: the visible fields are written from the start of the
    * buffer. */
  method FillBuffer(qb: array<Byte>, q: Query, isPublic: bool)
    requires Valid(q) && qb.Length == ViewSize(q, isPublic, 0)
    modifies qb
    ensures Wrote(old(qb[..]), qb[..], 0, ViewBytes(q, isPublic, 0))
  {
    hide *;
    ghost var before := qb[..];
    ghost var done := [];
    var ptr, flag := 0, 1;
    ViewEnds(q, isPublic);
    FillingStarts(q, isPublic, before);
    for i := 0 to 32
      invariant i < 32 ==> flag == Flag(i)
      invariant Filling(q, isPublic, i, before, qb[..], ptr, done)
    {
      ptr, done := InsertIfShown(qb, q, isPublic, i, flag, ptr, before, done);
      NextFlag(i);
      flag := 2 * flag;
    }
    FillingEnds(q, isPublic, before, qb[..], ptr, done);
  }

  lemma ZeroesAround(zero: seq<Byte>, s: seq<Byte>)
    requires forall k :: 0 <= k < |zero| ==> zero[k] == 0
    ensures forall now :: Wrote(zero, now, 0, s) ==> now == s + Zeroes(|zero| - |s|)
  {
    forall now | Wrote(zero, now, 0, s) ensures now == s + Zeroes(|zero| - |s|) {
      assert zero[|s|..] == Zeroes(|zero| - |s|) && zero[..0] == [];
    }
  }

  lemma PresentSerialized(q: Query, public: bool)
    requires Valid(q)
    ensures |ViewBytes(q, public, 0)| <= ViewSize(q, public, 0)
    ensures Serialized(Some(q), public)
         == ViewBytes(q, public, 0) + Zeroes(ViewSize(q, public, 0) - |ViewBytes(q, public, 0)|)
  {
    hide ViewBytes, ViewSize, Valid, Zeroes;
    SizeExactIffNoLists(q, public, 0);
  }

  /** `SerializeSingleQuery`. */
  method SerializeSingleQuery(qOpt: Option<Query>, isPublic: bool) returns (qb: array<Byte>)
    requires qOpt.Some? ==> Valid(qOpt.value)
    ensures fresh(qb) && qb[..] == Serialized(qOpt, isPublic)
  {
    hide *;
    if qOpt.None? {
      AbsentSerialized(isPublic);
      qb := new Byte[2](_ => 0);
      return;
    }
    PresentSerialized(qOpt.value, isPublic);
    var size := ComputeTotalSize(qOpt.value, isPublic);
    qb := new Byte[size](_ => 0);
    ZeroesAround(qb[..], ViewBytes(qOpt.value, isPublic, 0));
    FillBuffer(qb, qOpt.value, isPublic);
  }

  /** `SerializeLocationQuery`: the length field is filled in last. */
  method SerializeLocationQuery(qs: seq<Option<Query>>, isPublic: bool) returns (qb: seq<Byte>)
    requires AllValid(qs)
    ensures qb == LocationBytes(qs, isPublic)
  {
    hide Serialized, Cards, LE, Splits;
    var totalSize := 0;
    qb := [0, 0, 0, 0];
    NoCards(isPublic, qb);
    for i := 0 to |qs|
      invariant |qb| >= 4 && Splits(qb, [0, 0, 0, 0], Cards(qs[..i], isPublic))
      invariant totalSize == |Cards(qs[..i], isPublic)| % WORD
    {
      var single := SerializeSingleQuery(qs[i], isPublic);
      totalSize := (totalSize + single.Length) % WORD;
      SplitsGrow(qb, [0, 0, 0, 0], Cards(qs[..i], isPublic), single[..]);
      qb := qb + single[..];
      CardsGrow(qs[..i], qs[i], isPublic);
      assert qs[..i + 1] == qs[..i] + [qs[i]];
      ModOfSum(|Cards(qs[..i], isPublic)|, single.Length);
    }
    assert qs[..|qs|] == qs;
    var head := new Byte[4](_ => 0);
    var ptr := Write(head, 0, totalSize, 4);
    HeadReplaced(qb, Cards(qs, isPublic));
    qb := head[..] + qb[4..];
  }

  lemma NoCards(public: bool, head: seq<Byte>)
    ensures Cards([], public) == [] && Splits(head, head, [])
  {
  }

  lemma HeadReplaced(qb: seq<Byte>, body: seq<Byte>)
    requires Splits(qb, [0, 0, 0, 0], body)
    ensures qb[4..] == body
  {
  }

  lemma CardsUnfold(cs: seq<Option<Query>>, public: bool)
    requires AllValid(cs)
    ensures Cards(cs, public) == if cs == [] then [] else Serialized(cs[0], public) + Cards(cs[1..], public)
  {
    hide Serialized, Valid;
  }

  lemma {:induction false} CardsGrow(cs: seq<Option<Query>>, c: Option<Query>, public: bool)
    requires AllValid(cs) && (c.Some? ==> Valid(c.value))
    ensures Cards(cs + [c], public) == Cards(cs, public) + Serialized(c, public)
    decreases |cs|
  {
    hide Cards, Serialized, Valid;
    CardsUnfold(cs, public);
    CardsUnfold(cs + [c], public);
    if cs == [] {
      assert (cs + [c])[1..] == [] == cs;
    } else {
      CardsGrow(cs[1..], c, public);
      assert (cs + [c])[1..] == cs[1..] + [c] && (cs + [c])[0] == cs[0];
    }
  }

  lemma ModOfSum(a: nat, b: nat)
    ensures (a % WORD + b) % WORD == (a + b) % WORD
  {
    var q, r := (a % WORD + b) / WORD, (a % WORD + b) % WORD;
    DivModUnique(a + b, WORD, a / WORD + q, r);
  }

  // ----------------------------------------------------------------- reading

  method ReadLocsLoop(b: seq<Byte>, pos: nat, c: nat, was: seq<LocInfo>) returns (infos: seq<LocInfo>)
    requires pos + 10 * c <= |b|
    ensures infos == was + ReadLocs(b, pos, c)
  {
    infos := was;
    var ptr := pos;
    for i := 0 to c
      invariant ptr == pos + 10 * i
      invariant infos + ReadLocs(b, ptr, c - i) == was + ReadLocs(b, pos, c)
    {
      hide ReadLoc;
      infos := infos + [ReadLoc(b, ptr)];
      ptr := ptr + 10;
    }
  }

  method ReadNumsLoop(b: seq<Byte>, pos: nat, c: nat, was: seq<nat>) returns (ns: seq<nat>)
    requires pos + 4 * c <= |b|
    ensures ns == was + ReadNums(b, pos, c)
  {
    ns := was;
    var ptr := pos;
    for i := 0 to c
      invariant ptr == pos + 4 * i
      invariant ns + ReadNums(b, ptr, c - i) == was + ReadNums(b, pos, c)
    {
      hide ReadAt;
      ns := ns + [ReadAt(b, ptr, 4)];
      ptr := ptr + 4;
    }
  }

  /** The cases of the reader's switch that have a value to read. */
  method ReadValue(b: seq<Byte>, pos: nat, k: Kind, was: Field, ghost size: nat) returns (r: Parsed<Field>)
    requires Fits(k, was) && k != Bare
    ensures r == ReadField(b, pos, k, size, was)
    ensures r.Ok? ==> pos <= r.pos && Fits(k, r.value)
  {
    hide ReadLocs, ReadNums, ReadLoc, ReadAt;
    match k {
      case LocList =>
        if pos + 4 > |b| { return Overrun; }
        var c := ReadAt(b, pos, 4);
        if pos + 4 + 10 * c > |b| { return Overrun; }
        var infos := ReadLocsLoop(b, pos + 4, c, was.infos);
        r := Ok(Locs(infos), pos + 4 + 10 * c);
      case U32List =>
        if pos + 4 > |b| { return Overrun; }
        var c := ReadAt(b, pos, 4);
        if pos + 4 + 4 * c > |b| { return Overrun; }
        var ns := ReadNumsLoop(b, pos + 4, c, was.ns);
        r := Ok(Nums(ns), pos + 4 + 4 * c);
      case U8 => r := if pos + 1 > |b| then Overrun else Ok(Num(ReadAt(b, pos, 1)), pos + 1);
      case U32 => r := if pos + 4 > |b| then Overrun else Ok(Num(ReadAt(b, pos, 4)), pos + 4);
      case U64 => r := if pos + 8 > |b| then Overrun else Ok(Num(ReadAt(b, pos, 8)), pos + 8);
      case Loc => r := if pos + 10 > |b| then Overrun else Ok(At(ReadLoc(b, pos)), pos + 10);
      case LinkPair => r := if pos + 8 > |b| then Overrun else Ok(Link(ReadAt(b, pos, 4), ReadAt(b, pos + 4, 4)), pos + 8);
    }
    if r.Ok? {
      ReadFieldFits(b, pos, k, size, was);
    }
  }

  lemma StaysValid(q: Query, flags: seq<bool>, i: FlagBit, f: Field)
    requires Valid(q) && |flags| == 32 && Fits(KindOf(i), f)
    ensures Valid(Query(flags, q.fields)) && Valid(Query(flags, q.fields[i := f]))
  {
  }

  /** A flag with nothing to read: the size says how far to go on. */
  lemma StepOver(b: seq<Byte>, ptr: nat, q: Query)
    requires Valid(q) && ptr + 6 <= |b|
    requires var found := FindFlag(ReadAt(b, ptr + 2, 4), 0); found.None? || (found.value != END && KindOf(found.value) == Bare)
    ensures Valid(Query(OrFlag(q.flags, ReadAt(b, ptr + 2, 4)), q.fields))
    ensures ParseFields(b, ptr, q)
         == ParseFields(b, ptr + 2 + ReadAt(b, ptr, 2), Query(OrFlag(q.flags, ReadAt(b, ptr + 2, 4)), q.fields))
  {
    hide OrFlag, FindFlag, ReadField, ReadAt, KindOf, Fits;
  }

  lemma StepToEnd(b: seq<Byte>, ptr: nat, q: Query)
    requires Valid(q) && ptr + 6 <= |b| && FindFlag(ReadAt(b, ptr + 2, 4), 0) == Some(END)
    ensures ParseFields(b, ptr, q) == Ok(Query(OrFlag(q.flags, ReadAt(b, ptr + 2, 4)), q.fields), ptr + 6)
  {
    hide OrFlag, FindFlag, ReadField, ReadAt, KindOf, Fits;
  }

  lemma StepThrough(b: seq<Byte>, ptr: nat, q: Query, i: FlagBit, r: Parsed<Field>)
    requires Valid(q) && ptr + 6 <= |b| && FindFlag(ReadAt(b, ptr + 2, 4), 0) == Some(i) && i != END && KindOf(i) != Bare
    requires Fits(KindOf(i), q.fields[i]) && r == ReadField(b, ptr + 6, KindOf(i), ReadAt(b, ptr, 2), q.fields[i])
    ensures r.Overrun? ==> ParseFields(b, ptr, q) == Overrun
    ensures r.Ok? ==>
              var next := Query(OrFlag(q.flags, ReadAt(b, ptr + 2, 4)), q.fields[i := r.value]);
              Valid(next) && ParseFields(b, ptr, q) == ParseFields(b, r.pos, next)
  {
    hide OrFlag, FindFlag, ReadField, ReadAt, KindOf, Fits;
    if r.Ok? {
      ReadFieldFits(b, ptr + 6, KindOf(i), ReadAt(b, ptr, 2), q.fields[i]);
      StaysValid(q, OrFlag(q.flags, ReadAt(b, ptr + 2, 4)), i, r.value);
    }
  }

  lemma NoFieldLeft(b: seq<Byte>, ptr: nat, q: Query)
    requires Valid(q) && ptr + 6 > |b|
    ensures ParseFields(b, ptr, q) == Overrun
  {
  }

  lemma ParseOneAbsent(b: seq<Byte>, pos: nat)
    ensures pos + 2 > |b| ==> ParseOne(b, pos) == Overrun
    ensures pos + 2 <= |b| && ReadAt(b, pos, 2) == 0 ==> ParseOne(b, pos) == Ok(None, pos + 2)
  {
    hide ParseFields, ReadAt, Empty;
  }

  /** `DeserializeOneQuery`: the query is filled in flag by flag. */
  method DeserializeOneQuery(b: seq<Byte>, pos: nat) returns (r: Parsed<Option<Query>>)
    ensures r == ParseOne(b, pos)
  {
    hide *;
    ParseOneAbsent(b, pos);
    if pos + 2 > |b| { return Overrun; }
    if ReadAt(b, pos, 2) == 0 { return Ok(None, pos + 2); }
    ParseOnePresent(b, pos);
    var q, ptr := Empty(), pos;
    while ptr + 6 <= |b|
      invariant Valid(q) && ParseFields(b, ptr, q) == ParseFields(b, pos, Empty())
      decreases |b| - ptr
    {
      ValidAt(q, 0);
      var size := ReadAt(b, ptr, 2);
      var flag := ReadAt(b, ptr + 2, 4);
      var flags := OrFlag(q.flags, flag);
      match FindFlag(flag, 0) {
        case None =>
          StepOver(b, ptr, q);
          q, ptr := Query(flags, q.fields), ptr + 2 + size;
        case Some(i) =>
          ValidAt(q, i);
          if i == END {
            StepToEnd(b, ptr, q);
            return Ok(Some(Query(flags, q.fields)), ptr + 6);
          }
          if KindOf(i) == Bare {
            StepOver(b, ptr, q);
            q, ptr := Query(flags, q.fields), ptr + 2 + size;
          } else {
            var f := ReadValue(b, ptr + 6, KindOf(i), q.fields[i], size);
            StepThrough(b, ptr, q, i, f);
            if f.Overrun? { return Overrun; }
            q, ptr := Query(flags, q.fields[i := f.value]), f.pos;
          }
      }
    }
    NoFieldLeft(b, ptr, q);
    return Overrun;
  }

  lemma LocationStarts(b: seq<Byte>)
    ensures ParseLocation(b) == if |b| < 4 then Overrun else Prefixed([], ParseCards(b, 4, 4 + ReadAt(b, 0, 4)))
  {
    hide ParseCards, ReadAt;
    if |b| >= 4 {
      match ParseCards(b, 4, 4 + ReadAt(b, 0, 4))
      case Overrun =>
      case Ok(rest, last) => assert [] + rest == rest;
    }
  }

  lemma CardsStep(b: seq<Byte>, ptr: nat, ptrMax: nat, ret: seq<Option<Query>>)
    requires ptr < ptrMax
    ensures var c := ParseOne(b, ptr);
            Prefixed(ret, ParseCards(b, ptr, ptrMax)) ==
              if c.Overrun? || ptr >= |b| then Overrun else Prefixed(ret + [c.value], ParseCards(b, c.pos, ptrMax))
    ensures ParseOne(b, ptr).Ok? ==> ptr < ParseOne(b, ptr).pos
  {
    hide ParseOne;
    var c := ParseOne(b, ptr);
    if c.Ok? && ptr < |b| {
      match ParseCards(b, c.pos, ptrMax)
      case Overrun =>
      case Ok(rest, last) => assert ret + ([c.value] + rest) == (ret + [c.value]) + rest;
    }
  }

  lemma CardsEnd(b: seq<Byte>, ptr: nat, ptrMax: nat, ret: seq<Option<Query>>)
    requires ptr >= ptrMax
    ensures Prefixed(ret, ParseCards(b, ptr, ptrMax)) == Ok(ret, ptr)
  {
    assert ret + [] == ret;
  }

  /** `DeserializeLocationQueryBuffer`. */
  method DeserializeLocationQueryBuffer(b: seq<Byte>) returns (r: Parsed<seq<Option<Query>>>)
    ensures r == ParseLocation(b)
  {
    hide *;
    LocationStarts(b);
    if |b| < 4 { return Overrun; }
    var ptrMax := 4 + ReadAt(b, 0, 4);
    var ptr, ret := 4, [];
    while ptr < ptrMax
      invariant ParseLocation(b) == Prefixed(ret, ParseCards(b, ptr, ptrMax))
      decreases if ptr < |b| then |b| - ptr else 0
    {
      hide *;
      CardsStep(b, ptr, ptrMax, ret);
      var c := DeserializeOneQuery(b, ptr);
      if c.Overrun? || ptr >= |b| { return Overrun; }
      ret := ret + [c.value];
      ptr := c.pos;
    }
    CardsEnd(b, ptr, ptrMax, ret);
    return Ok(ret, ptr);
  }

  ghost function Prefixed(ret: seq<Option<Query>>, rest: Parsed<seq<Option<Query>>>): Parsed<seq<Option<Query>>> {
    if rest.Ok? then Ok(ret + rest.value, rest.pos) else Overrun
  }
}
