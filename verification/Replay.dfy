/** Recording a duel and writing it out as a replay (Replay.cpp). */
module Replay {
  import opened Options
  import opened Arith
  import opened Words
  import opened ByteIO
  import opened ReplayFormat
  import LzmaSpec
  import LzmaStream
  import Messages

  datatype Duelist = Duelist(name: Text, main: seq<nat>, extra: seq<nat>)

  // ----------------------------------------------------------- ordered maps

  /** The values of a map in the order of its keys, up to `n`. */
  function InOrder(m: map<nat, Duelist>, n: nat): (s: seq<Duelist>)
    ensures |s| <= n
  {
    if n == 0 then [] else InOrder(m, n - 1) + if n - 1 in m then [m[n - 1]] else []
  }

  /** Positions are bytes. */
  function Ordered(m: map<nat, Duelist>): seq<Duelist> { InOrder(m, 256) }

  ghost predicate KeysFit(m: map<nat, Duelist>) { forall k :: k in m ==> k < 256 }

  lemma {:induction false} InOrderSize(m: map<nat, Duelist>, n: nat)
    ensures |InOrder(m, n)| == |set k | k in m && k < n|
    decreases n
  {
    if n == 0 {
      assert (set k | k in m && k < 0) == {};
    } else {
      InOrderSize(m, n - 1);
      if n - 1 in m {
        assert (set k | k in m && k < n) == (set k | k in m && k < n - 1) + {n - 1};
      } else {
        assert (set k | k in m && k < n) == (set k | k in m && k < n - 1);
      }
    }
  }

  /** Every value has as many before it as there are smaller keys. */
  lemma {:induction false} InOrderAt(m: map<nat, Duelist>, n: nat, k: nat)
    requires k in m && k < n
    ensures var i := |set j | j in m && j < k|; i < |InOrder(m, n)| && InOrder(m, n)[i] == m[k]
    decreases n
  {
    InOrderSize(m, n - 1);
    if k < n - 1 {
      InOrderAt(m, n - 1, k);
    }
  }

  /** Duelists stand in the ascending order of their positions, all of them. */
  lemma OrderedAscends(m: map<nat, Duelist>, k: nat)
    requires KeysFit(m) && k in m
    ensures |Ordered(m)| == |m|
    ensures var i := |set j | j in m && j < k|; i < |Ordered(m)| && Ordered(m)[i] == m[k]
  {
    OrderedSize(m);
    InOrderAt(m, 256, k);
  }

  lemma OrderedSize(m: map<nat, Duelist>)
    requires KeysFit(m)
    ensures |Ordered(m)| == |m|
  {
    InOrderSize(m, 256);
    assert (set k | k in m && k < 256) == m.Keys;
  }

  lemma {:induction false} OrderedHas(m: map<nat, Duelist>, n: nat, i: nat)
    requires i < |InOrder(m, n)|
    ensures exists k :: k in m && m[k] == InOrder(m, n)[i]
    decreases n
  {
    if n > 0 && i < |InOrder(m, n - 1)| {
      OrderedHas(m, n - 1, i);
    }
  }

  function Names(ds: seq<Duelist>): (r: seq<Text>)
    ensures |r| == |ds| && forall i :: 0 <= i < |ds| ==> r[i] == ds[i].name
  {
    seq(|ds|, i requires 0 <= i < |ds| => ds[i].name)
  }

  function Decks(ds: seq<Duelist>): (r: seq<DeckList>)
    ensures |r| == |ds| && forall i :: 0 <= i < |ds| ==> r[i].main == ds[i].main && r[i].extra == ds[i].extra
  {
    seq(|ds|, i requires 0 <= i < |ds| => DeckList(ds[i].main, ds[i].extra))
  }

  // ----------------------------------------------------------- writing lists

  lemma {:induction false} WriteAllAppend<T>(w: Writer<T>, xs: seq<T>, ys: seq<T>)
    ensures WriteAll(w, xs + ys) == WriteAll(w, xs) + WriteAll(w, ys)
    decreases |xs|
  {
    if xs == [] {
      assert xs + ys == ys;
    } else {
      assert (xs + ys)[0] == xs[0] && (xs + ys)[1..] == xs[1..] + ys;
      WriteAllAppend(w, xs[1..], ys);
    }
  }

  lemma WriteAllNext<T>(w: Writer<T>, xs: seq<T>, i: nat)
    requires i < |xs|
    ensures WriteAll(w, xs[..i + 1]) == WriteAll(w, xs[..i]) + w(xs[i])
    ensures WriteAll(w, xs[..0]) == [] && xs[..|xs|] == xs
  {
    WriteAllAppend(w, xs[..i], [xs[i]]);
    assert xs[..i + 1] == xs[..i] + [xs[i]];
    assert WriteAll(w, [xs[i]]) == w(xs[i]) + WriteAll(w, [xs[i]][1..]);
    assert WriteAll(w, [xs[i]][1..]) == [];
  }

  lemma WriteAllEnds<T>(w: Writer<T>, xs: seq<T>)
    ensures WriteAll(w, xs[..0]) == [] && xs[..|xs|] == xs
  {
  }

  method WriteCodes(buf: array<Byte>, ptr: nat, codes: seq<nat>) returns (ptr': nat)
    requires ptr + |WriteAll(CodeW, codes)| <= buf.Length
    modifies buf
    ensures ptr' == ptr + |WriteAll(CodeW, codes)| && Wrote(old(buf[..]), buf[..], ptr, WriteAll(CodeW, codes))
  {
    hide WriteAll, Wrote, LE;
    ghost var before := buf[..];
    ptr' := ptr;
    WriteAllEnds(CodeW, codes);
    WroteNothing(before, ptr);
    WidthAll(CodeW, codes, 4);
    for i := 0 to |codes|
      invariant ptr' == ptr + 4 * i == ptr + |WriteAll(CodeW, codes[..i])|
      invariant Wrote(before, buf[..], ptr, WriteAll(CodeW, codes[..i]))
    {
      hide WriteAll, Wrote, LE;
      ghost var now := buf[..];
      ptr' := Write(buf, ptr', codes[i], 4);
      WriteAllNext(CodeW, codes, i);
      WroteBoth(before, now, buf[..], ptr, WriteAll(CodeW, codes[..i]), LE(codes[i], 4));
    }
  }

  /** `WriteCodeVector`. */
  method WriteCodeVector(buf: array<Byte>, ptr: nat, codes: seq<nat>) returns (ptr': nat)
    requires ptr + |CountedW(CodeW, codes)| <= buf.Length
    modifies buf
    ensures ptr' == ptr + |CountedW(CodeW, codes)| && Wrote(old(buf[..]), buf[..], ptr, CountedW(CodeW, codes))
  {
    hide WriteAll, Wrote, LE;
    ghost var before := buf[..];
    ptr' := Write(buf, ptr, |codes| % WORD, 4);
    ghost var now := buf[..];
    ptr' := WriteCodes(buf, ptr', codes);
    WroteBoth(before, now, buf[..], ptr, LE(|codes| % WORD, 4), WriteAll(CodeW, codes));
  }

  method WriteDecks(buf: array<Byte>, ptr: nat, decks: seq<DeckList>) returns (ptr': nat)
    requires ptr + |WriteAll(DeckW, decks)| <= buf.Length
    modifies buf
    ensures ptr' == ptr + |WriteAll(DeckW, decks)| && Wrote(old(buf[..]), buf[..], ptr, WriteAll(DeckW, decks))
  {
    hide WriteAll, Wrote, CountedW;
    ghost var before := buf[..];
    ptr' := ptr;
    WriteAllEnds(DeckW, decks);
    WroteNothing(before, ptr);
    for i := 0 to |decks|
      invariant ptr' == ptr + |WriteAll(DeckW, decks[..i])|
      invariant Wrote(before, buf[..], ptr, WriteAll(DeckW, decks[..i]))
    {
      hide WriteAll, Wrote, CountedW;
      ghost var now, at := buf[..], ptr';
      WriteAllNext(DeckW, decks, i);
      PrefixFits(DeckW, decks, i + 1);
      ptr' := WriteCodeVector(buf, ptr', decks[i].main);
      ghost var mid := buf[..];
      ptr' := WriteCodeVector(buf, ptr', decks[i].extra);
      WroteBoth(now, mid, buf[..], at, CountedW(CodeW, decks[i].main), CountedW(CodeW, decks[i].extra));
      WroteBoth(before, now, buf[..], ptr, WriteAll(DeckW, decks[..i]), DeckW(decks[i]));
    }
  }

  lemma PrefixFits<T>(w: Writer<T>, xs: seq<T>, i: nat)
    requires i <= |xs|
    ensures |WriteAll(w, xs[..i])| <= |WriteAll(w, xs)|
  {
    WriteAllAppend(w, xs[..i], xs[i..]);
    assert xs[..i] + xs[i..] == xs;
  }

  method WriteResponses(buf: array<Byte>, ptr: nat, rs: seq<seq<Byte>>) returns (ptr': nat)
    requires ptr + |WriteAll(ResponseW, rs)| <= buf.Length
    modifies buf
    ensures ptr' == ptr + |WriteAll(ResponseW, rs)| && Wrote(old(buf[..]), buf[..], ptr, WriteAll(ResponseW, rs))
  {
    hide WriteAll, Wrote;
    ghost var before := buf[..];
    ptr' := ptr;
    WriteAllEnds(ResponseW, rs);
    WroteNothing(before, ptr);
    for i := 0 to |rs|
      invariant ptr' == ptr + |WriteAll(ResponseW, rs[..i])|
      invariant Wrote(before, buf[..], ptr, WriteAll(ResponseW, rs[..i]))
    {
      hide WriteAll, Wrote, ResponseW;
      ghost var now := buf[..];
      WriteAllNext(ResponseW, rs, i);
      PrefixFits(ResponseW, rs, i + 1);
      ptr' := WriteResponse(buf, ptr', rs[i]);
      WroteBoth(before, now, buf[..], ptr, WriteAll(ResponseW, rs[..i]), ResponseW(rs[i]));
    }
  }

  method WriteResponse(buf: array<Byte>, ptr: nat, r: seq<Byte>) returns (ptr': nat)
    requires ptr + |ResponseW(r)| <= buf.Length
    modifies buf
    ensures ptr' == ptr + |ResponseW(r)| && Wrote(old(buf[..]), buf[..], ptr, ResponseW(r))
  {
    hide Wrote, LE;
    OneByte(|r|);
    ghost var before := buf[..];
    ptr' := Write(buf, ptr, |r| % 256, 1);
    ghost var mid := buf[..];
    ptr' := WriteBytes(buf, ptr', r);
    WroteBoth(before, mid, buf[..], ptr, [|r| % 256], r);
  }

  lemma OneByte(n: nat)
    ensures LE(n % 256, 1) == [n % 256]
  {
    assert LE(n % 256 / 256, 0) == [];
  }

  method WriteMessages(buf: array<Byte>, ptr: nat, ms: seq<seq<Byte>>) returns (ptr': nat)
    requires forall i :: 0 <= i < |ms| ==> ms[i] != []
    requires ptr + |WriteAll(MsgW, ms)| <= buf.Length
    modifies buf
    ensures ptr' == ptr + |WriteAll(MsgW, ms)| && Wrote(old(buf[..]), buf[..], ptr, WriteAll(MsgW, ms))
  {
    hide WriteAll, Wrote, LE;
    ghost var before := buf[..];
    ptr' := ptr;
    WriteAllEnds(MsgW, ms);
    WroteNothing(before, ptr);
    for i := 0 to |ms|
      invariant ptr' == ptr + |WriteAll(MsgW, ms[..i])|
      invariant Wrote(before, buf[..], ptr, WriteAll(MsgW, ms[..i]))
    {
      hide WriteAll, Wrote, LE;
      ghost var now := buf[..];
      WriteAllNext(MsgW, ms, i);
      PrefixFits(MsgW, ms, i + 1);
      ptr' := WriteMessage(buf, ptr', ms[i]);
      WroteBoth(before, now, buf[..], ptr, WriteAll(MsgW, ms[..i]), MsgW(ms[i]));
    }
  }

  method WriteMessage(buf: array<Byte>, ptr: nat, m: seq<Byte>) returns (ptr': nat)
    requires m != [] && ptr + |MsgW(m)| <= buf.Length
    modifies buf
    ensures ptr' == ptr + |MsgW(m)| && Wrote(old(buf[..]), buf[..], ptr, MsgW(m))
  {
    hide Wrote, LE;
    var bodyLength := |m| - 1;
    ghost var b0 := buf[..];
    ptr' := WriteBytes(buf, ptr, [m[0]]);
    ghost var b1 := buf[..];
    ptr' := Write(buf, ptr', bodyLength % WORD, 4);
    WroteBoth(b0, b1, buf[..], ptr, [m[0]], LE(bodyLength % WORD, 4));
    ghost var b2 := buf[..];
    ptr' := WriteBytes(buf, ptr', m[1..]);
    WroteBoth(b0, b2, buf[..], ptr, [m[0]] + LE(bodyLength % WORD, 4), m[1..]);
  }

  // ------------------------------------------------------------ writing names

  lemma {:induction false} ZeroUnits(n: nat)
    ensures WriteAll(UnitW, seq(n, _ => 0)) == seq(2 * n, _ => 0 as Byte)
    decreases n
  {
    if n > 0 {
      ZeroUnits(n - 1);
      assert seq(n, _ => 0)[1..] == seq(n - 1, _ => 0);
      assert LE(0, 2) == [0, 0];
    }
  }

  ghost predicate ZeroFrom(b: seq<Byte>, pos: nat) {
    forall k :: pos <= k < |b| ==> b[k] == 0
  }

  lemma ZeroesHeld(b: seq<Byte>, from: nat, pos: nat, n: nat)
    requires ZeroFrom(b, from) && from <= pos && pos + n <= |b|
    ensures Holds(b, pos, seq(n, _ => 0 as Byte))
  {
  }

  lemma ZeroBehind(a: seq<Byte>, b: seq<Byte>, ptr: nat, s: seq<Byte>)
    requires ZeroFrom(a, ptr) && Wrote(a, b, ptr, s)
    ensures ZeroFrom(b, ptr + |s|)
  {
  }

  /** The units of a name; the rest of its field is zero already. */
  method WriteName(buf: array<Byte>, ptr: nat, name: Text) returns (ptr': nat)
    requires |name| <= NAME_UNITS && ptr + 40 <= buf.Length && ZeroFrom(buf[..], ptr)
    modifies buf
    ensures ptr' == ptr + 40 == ptr + |NameW(name)| && Wrote(old(buf[..]), buf[..], ptr, NameW(name))
  {
    hide WriteAll, Wrote, Holds, ZeroFrom;
    var str16 := WriteAll(UnitW, name);
    var rest := NAME_UNITS - |name|;
    WidthAll(UnitW, name, 2);
    ZeroUnits(rest);
    WriteAllAppend(UnitW, name, seq(rest, _ => 0));
    NameWidth(name);
    ghost var before := buf[..];
    ZeroesHeld(before, ptr, ptr + |str16|, 2 * rest);
    var _ := WriteBytes(buf, ptr, str16);
    WroteThenHeld(before, buf[..], ptr, str16, seq(2 * rest, _ => 0 as Byte));
    ptr' := ptr + 40;
  }

  method WriteNames(buf: array<Byte>, ptr: nat, names: seq<Text>) returns (ptr': nat)
    requires (forall i :: 0 <= i < |names| ==> |names[i]| <= NAME_UNITS) && ZeroFrom(buf[..], ptr)
    requires ptr + |WriteAll(NameW, names)| <= buf.Length
    modifies buf
    ensures ptr' == ptr + |WriteAll(NameW, names)| && Wrote(old(buf[..]), buf[..], ptr, WriteAll(NameW, names))
  {
    hide WriteAll, Wrote, NameW, ZeroFrom;
    ghost var before := buf[..];
    ptr' := ptr;
    WriteAllEnds(NameW, names);
    WroteNothing(before, ptr);
    for i := 0 to |names|
      invariant ptr' == ptr + |WriteAll(NameW, names[..i])|
      invariant Wrote(before, buf[..], ptr, WriteAll(NameW, names[..i]))
    {
      hide WriteAll, Wrote, NameW, ZeroFrom;
      ghost var now := buf[..];
      ZeroBehind(before, now, ptr, WriteAll(NameW, names[..i]));
      WriteAllNext(NameW, names, i);
      PrefixFits(NameW, names, i + 1);
      NameWidth(names[i]);
      ptr' := WriteName(buf, ptr', names[i]);
      WroteBoth(before, now, buf[..], ptr, WriteAll(NameW, names[..i]), NameW(names[i]));
    }
  }

  /** `WriteDuelists`: both teams, each its count and its names. */
  method WriteDuelists(buf: array<Byte>, ptr: nat, team0: seq<Text>, team1: seq<Text>) returns (ptr': nat)
    requires (forall i :: 0 <= i < |team0| ==> |team0[i]| <= NAME_UNITS)
    requires (forall i :: 0 <= i < |team1| ==> |team1[i]| <= NAME_UNITS)
    requires ZeroFrom(buf[..], ptr) && ptr + |TeamsW(team0, team1)| <= buf.Length
    modifies buf
    ensures ptr' == ptr + |TeamsW(team0, team1)| && Wrote(old(buf[..]), buf[..], ptr, TeamsW(team0, team1))
  {
    hide CountedW, Wrote, ZeroFrom;
    ghost var b0 := buf[..];
    ptr' := WriteTeam(buf, ptr, team0);
    ghost var b1 := buf[..];
    ZeroBehind(b0, b1, ptr, CountedW(NameW, team0));
    ptr' := WriteTeam(buf, ptr', team1);
    WroteBoth(b0, b1, buf[..], ptr, CountedW(NameW, team0), CountedW(NameW, team1));
  }

  method WriteTeam(buf: array<Byte>, ptr: nat, names: seq<Text>) returns (ptr': nat)
    requires (forall i :: 0 <= i < |names| ==> |names[i]| <= NAME_UNITS)
    requires ZeroFrom(buf[..], ptr) && ptr + |CountedW(NameW, names)| <= buf.Length
    modifies buf
    ensures ptr' == ptr + |CountedW(NameW, names)| && Wrote(old(buf[..]), buf[..], ptr, CountedW(NameW, names))
  {
    hide WriteAll, Wrote, LE, ZeroFrom;
    ghost var before := buf[..];
    ptr' := Write(buf, ptr, |names| % WORD, 4);
    ghost var now := buf[..];
    ZeroBehind(before, now, ptr, LE(|names| % WORD, 4));
    ptr' := WriteNames(buf, ptr', names);
    WroteBoth(before, now, buf[..], ptr, LE(|names| % WORD, 4), WriteAll(NameW, names));
  }

  // -------------------------------------------------------------------- sizes

  lemma MsgWidth(m: seq<Byte>)
    requires m != []
    ensures |MsgW(m)| == |m| + 4
  {
  }

  method MessagesSize(ms: seq<seq<Byte>>) returns (v: nat)
    requires forall i :: 0 <= i < |ms| ==> ms[i] != []
    ensures v == |WriteAll(MsgW, ms)|
  {
    v := 0;
    WriteAllEnds(MsgW, ms);
    for i := 0 to |ms|
      invariant v == |WriteAll(MsgW, ms[..i])|
    {
      hide WriteAll, MsgW;
      WriteAllNext(MsgW, ms, i);
      MsgWidth(ms[i]);
      v := v + |ms[i]| + 4;
    }
  }

  method ResponsesSize(rs: seq<seq<Byte>>) returns (v: nat)
    ensures v == |WriteAll(ResponseW, rs)|
  {
    v := 0;
    WriteAllEnds(ResponseW, rs);
    for i := 0 to |rs|
      invariant v == |WriteAll(ResponseW, rs[..i])|
    {
      hide WriteAll;
      WriteAllNext(ResponseW, rs, i);
      v := v + |rs[i]| + 1;
    }
  }

  method DecksSize(decks: seq<DeckList>) returns (v: nat)
    ensures v == |WriteAll(DeckW, decks)|
  {
    v := 0;
    WriteAllEnds(DeckW, decks);
    for i := 0 to |decks|
      invariant v == |WriteAll(DeckW, decks[..i])|
    {
      hide WriteAll, DeckW;
      WriteAllNext(DeckW, decks, i);
      DeckWidth(decks[i]);
      v := v + 8 + |decks[i].main| * 4 + |decks[i].extra| * 4;
    }
  }

  lemma DeckWidth(d: DeckList)
    ensures |DeckW(d)| == 8 + |d.main| * 4 + |d.extra| * 4
  {
    WidthAll(CodeW, d.main, 4);
    WidthAll(CodeW, d.extra, 4);
  }

  lemma TeamsWidth(team0: seq<Text>, team1: seq<Text>)
    requires (forall i :: 0 <= i < |team0| ==> |team0[i]| <= NAME_UNITS)
    requires (forall i :: 0 <= i < |team1| ==> |team1[i]| <= NAME_UNITS)
    ensures |TeamsW(team0, team1)| == 8 + 40 * (|team0| + |team1|)
  {
    hide NameW;
    forall i | 0 <= i < |team0| ensures |NameW(team0[i])| == 40 {
      NameWidth(team0[i]);
    }
    forall i | 0 <= i < |team1| ensures |NameW(team1[i])| == 40 {
      NameWidth(team1[i]);
    }
    WidthAll(NameW, team0, 40);
    WidthAll(NameW, team1, 40);
  }

  // ------------------------------------------------------------------- header

  method WriteHeader(buf: array<Byte>, ptr: nat, h: Header) returns (ptr': nat)
    requires HeaderOK(h) && ptr + HEADER_SIZE <= buf.Length
    modifies buf
    ensures ptr' == ptr + HEADER_SIZE == ptr + |HeaderW(h)| && Wrote(old(buf[..]), buf[..], ptr, HeaderW(h))
  {
    // the structure is copied as a whole
    WidthAll(SeedW, h.seed, 8);
    assert |HeaderW(h)| == HEADER_SIZE by {
      hide LE, WriteAll;
    }
    hide HeaderW, Wrote;
    ptr' := WriteBytes(buf, ptr, HeaderW(h));
  }

  // --------------------------------------------------------------- the replay

  const OLD_REPLAY_FORMAT: Byte := 231
  const SERVER_VERSION: nat := 41 + 11 * 0x1_0000

  /** The dictionary of compression level 5, and the property bytes that say so:
    * lc 3, lp 0, pb 2 in one byte, the dictionary's size in four. */
  const DICTIONARY: nat := 0x100_0000
  const LZMA_PROPS: seq<Byte> := [93, 0, 0, 0, 1, 0, 0, 0]
  const NO_PROPS: seq<Byte> := [0, 0, 0, 0, 0, 0, 0, 0]

  /** What a reader makes of a replay file: decompress, read, and read the last
    * message as a replay of its own. */
  datatype Recording = Recording(header: Header, yrpx: Yrpx, nestedHeader: Header, yrp: Yrp)

  ghost function ReadNested(m: seq<Byte>): Option<(Header, Yrp)> {
    if m == [] || m[0] != OLD_REPLAY_FORMAT then None
    else
      match HeaderR(m, 1)
      case Overrun => None
      case Ok(h, p) =>
        if h.kind != REPLAY_YRP1 then None
        else
          match YrpR(m, p, |m|)
          case Overrun => None
          case Ok(y, _) => Some((h, y))
  }

  ghost function ReadBody(h: Header, data: seq<Byte>): Option<Recording> {
    match YrpxR(data, 0, |data|)
    case Overrun => None
    case Ok(x, _) =>
      if x.messages == [] then None
      else
        match ReadNested(x.messages[|x.messages| - 1])
        case None => None
        case Some((nh, y)) => Some(Recording(h, x.(messages := x.messages[..|x.messages| - 1]), nh, y))
  }

  ghost function ReadReplay(bytes: seq<Byte>): Option<Recording> {
    match HeaderR(bytes, 0)
    case Overrun => None
    case Ok(h, p) =>
      if h.kind != REPLAY_YRPX || h.flags % 2 != REPLAY_COMPRESSED || p > |bytes| || |h.props| != 8 then None
      else
        match LzmaSpec.Decompress(h.props, h.size, bytes[p..])
        case None => None
        case Some(data) => ReadBody(h, data)
  }

  function NestedW(h: Header, y: Yrp): seq<Byte> { [OLD_REPLAY_FORMAT] + HeaderW(h) + YrpW(y) }

  lemma NestedRecovers(h: Header, y: Yrp)
    requires HeaderOK(h) && h.kind == REPLAY_YRP1 && YrpOK(y)
    ensures ReadNested(NestedW(h, y)) == Some((h, y))
  {
    hide HeaderW, HeaderR, YrpW, YrpR, HeaderOK, YrpOK, Holds;
    var m := NestedW(h, y);
    Whole(m);
    HoldsSplit(m, 0, [OLD_REPLAY_FORMAT] + HeaderW(h), YrpW(y));
    HoldsSplit(m, 0, [OLD_REPLAY_FORMAT], HeaderW(h));
    HeaderRecovers(h, m, 1);
    YrpRecovers(y, m, 1 + HEADER_SIZE);
    assert m[0] == OLD_REPLAY_FORMAT;
  }

  lemma Whole(b: seq<Byte>)
    ensures Holds(b, 0, b)
  {
  }

  /** Reading what was compressed and put behind its header. */
  lemma ReplayRecovers(h: Header, packed: seq<Byte>, x: Yrpx, nh: Header, y: Yrp)
    requires HeaderOK(h) && h.kind == REPLAY_YRPX && h.flags % 2 == REPLAY_COMPRESSED && h.props == LZMA_PROPS
    requires HeaderOK(nh) && nh.kind == REPLAY_YRP1 && YrpOK(y)
    requires x.messages != [] && x.messages[|x.messages| - 1] == NestedW(nh, y) && YrpxOK(x)
    requires h.size == |YrpxW(x)| && LzmaSpec.Decompress(LZMA_PROPS, |YrpxW(x)|, packed) == Some(YrpxW(x))
    ensures ReadReplay(HeaderW(h) + packed) == Some(Recording(h, x.(messages := x.messages[..|x.messages| - 1]), nh, y))
  {
    hide HeaderW, HeaderR, YrpW, YrpR, YrpxW, YrpxR, HeaderOK, YrpOK, YrpxOK, Holds, NestedW, ReadNested, LzmaSpec.Decompress;
    var bytes := HeaderW(h) + packed;
    Whole(bytes);
    HoldsSplit(bytes, 0, HeaderW(h), packed);
    HeaderRecovers(h, bytes, 0);
    assert bytes[HEADER_SIZE..] == packed;
    Whole(YrpxW(x));
    YrpxRecovers(x, YrpxW(x), 0);
    NestedRecovers(nh, y);
  }

  /** Level 5 announces byte 93 and sixteen megabytes. */
  lemma PropsOfLevel5(props: seq<Byte>)
    requires |props| == 5 && props[0] == 93 && LzmaSpec.DictSize(props) == DICTIONARY
    ensures props + [0, 0, 0] == LZMA_PROPS
  {
    assert props[4] == 1 && props[3] == 0 && props[2] == 0 && props[1] == 0;
  }

  lemma FourBytes(v: nat)
    ensures LE(v, 4) == [v % 256, v / 256 % 256, v / 256 / 256 % 256, v / 256 / 256 / 256 % 256]
  {
    assert LE(v / 256 / 256, 2) == [v / 256 / 256 % 256] + LE(v / 256 / 256 / 256, 1);
  }

  lemma EightBytes(v: nat)
    requires v < WORD
    ensures LE(v, 8) == LE(v, 4) + [0, 0, 0, 0]
  {
    FourBytes(v);
    var w := v / 256 / 256 / 256 / 256;
    assert w == 0;
    FourBytes(w);
    assert LE(v / 256 / 256 / 256, 5) == [v / 256 / 256 / 256 % 256] + LE(w, 4);
    assert LE(v / 256 / 256, 6) == [v / 256 / 256 % 256] + LE(v / 256 / 256 / 256, 5);
    assert LE(v / 256, 7) == [v / 256 % 256] + LE(v / 256 / 256, 6);
  }

  lemma FourSeeds(seed: seq<nat>)
    requires |seed| == 4
    ensures WriteAll(SeedW, seed) == LE(seed[0], 8) + LE(seed[1], 8) + LE(seed[2], 8) + LE(seed[3], 8)
  {
    hide LE;
    assert seed[1..][1..][1..] == [seed[3]];
    assert WriteAll(SeedW, [seed[3]]) == LE(seed[3], 8) + [];
    assert WriteAll(SeedW, seed[1..][1..]) == LE(seed[2], 8) + WriteAll(SeedW, seed[1..][1..][1..]);
    assert WriteAll(SeedW, seed[1..]) == LE(seed[1], 8) + WriteAll(SeedW, seed[1..][1..]);
  }

  lemma NoSeed()
    ensures WriteAll(SeedW, [0, 0, 0, 0]) == seq(32, _ => 0)
  {
    hide WriteAll, LE;
    FourSeeds([0, 0, 0, 0]);
    EightBytes(0);
    FourBytes(0);
  }

  class Replay {
    const unixTimestamp: nat
    const seed: seq<nat>
    const startingLP: nat
    const startingDrawCount: nat
    const drawCountPerTurn: nat
    const duelFlags: nat
    const extraCards: seq<nat>

    var team0: map<nat, Duelist>
    var team1: map<nat, Duelist>
    var messages: seq<seq<Byte>>
    var responses: seq<seq<Byte>>
    var bytes: seq<Byte>

    constructor (unixTimestamp: nat, seed: seq<nat>, startingLP: nat, startingDrawCount: nat, drawCountPerTurn: nat,
                 duelFlags: nat, extraCards: seq<nat>)
      ensures messages == [] && responses == [] && team0 == team1 == map[]
      ensures this.unixTimestamp == unixTimestamp && this.seed == seed && this.startingLP == startingLP
      ensures this.startingDrawCount == startingDrawCount && this.drawCountPerTurn == drawCountPerTurn
      ensures this.duelFlags == duelFlags && this.extraCards == extraCards
    {
      this.unixTimestamp, this.seed, this.startingLP := unixTimestamp, seed, startingLP;
      this.startingDrawCount, this.drawCountPerTurn := startingDrawCount, drawCountPerTurn;
      this.duelFlags, this.extraCards := duelFlags, extraCards;
      team0, team1, messages, responses, bytes := map[], map[], [], [], [];
    }

    method AddDuelist(team: nat, pos: nat, duelist: Duelist)
      requires team <= 1
      modifies this`team0, this`team1
      ensures team0 == if team == 0 then old(team0)[pos := duelist] else old(team0)
      ensures team1 == if team == 1 then old(team1)[pos := duelist] else old(team1)
    {
      if team == 0 {
        team0 := team0[pos := duelist];
      } else {
        team1 := team1[pos := duelist];
      }
    }

    /** Questions are not recorded, save those for a card by filter; nor are the
      * hints meant for one player. */
    method RecordMsg(msg: seq<Byte>)
      requires |msg| > 0 && (msg[0] == Messages.MSG_HINT ==> |msg| > 1)
      modifies this`messages
      ensures messages == old(messages) + if Recorded(msg) then [msg] else []
    {
      if msg[0] == Messages.MSG_HINT {
        if msg[1] in {1, 2, 3, 5} {
          return;
        }
      } else if msg[0] in {10, 11, 12, 13, 14, 16, 18, 24, 19, 22, 23, 25, 21, 132, 140, 141, 142, 143, 15, 20, 26} {
        return;
      }
      messages := messages + [msg];
    }

    method RecordResponse(response: seq<Byte>)
      modifies this`responses
      ensures responses == old(responses) + [response]
    {
      responses := responses + [response];
    }

    /** A wrong answer is taken back. */
    method PopBackResponse()
      requires responses != []
      modifies this`responses
      ensures exists last :: old(responses) == responses + [last]
    {
      assert responses == responses[..|responses| - 1] + [responses[|responses| - 1]];
      responses := responses[..|responses| - 1];
    }

    ghost function YrpOf(): Yrp
      reads this`team0, this`team1, this`responses
    {
      Yrp(Names(Ordered(team0)), Names(Ordered(team1)), startingLP, startingDrawCount, drawCountPerTurn, duelFlags,
          Decks(Ordered(team0)) + Decks(Ordered(team1)), extraCards, responses)
    }

    ghost function YrpxOf(ms: seq<seq<Byte>>): Yrpx
      reads this`team0, this`team1
    {
      Yrpx(Names(Ordered(team0)), Names(Ordered(team1)), duelFlags, ms)
    }

    ghost function NestedHeader(): Header
      reads this`team0, this`team1, this`responses
    {
      Header(REPLAY_YRP1, SERVER_VERSION, HEADER_FLAGS, 0, |YrpW(YrpOf())|, NO_PROPS, seed)
    }

    ghost function FinalHeader(size: nat): Header
    {
      Header(REPLAY_YRPX, SERVER_VERSION, HEADER_FLAGS + REPLAY_COMPRESSED, unixTimestamp, size, LZMA_PROPS, [0, 0, 0, 0])
    }

    /** The header of the file, byte by byte: "yrpX", the version, the flags of a
      * compressed new replay with an extended header, the time, the size of the
      * body, properties byte 93 with a dictionary of sixteen megabytes, no seed. */
    lemma FileHeaderBytes(size: nat)
      ensures HeaderW(FinalHeader(size))
           == [0x79, 0x72, 0x70, 0x58] + [41, 0, 11, 0] + [0x31, 0x03, 0, 0] + LE(unixTimestamp, 4) + LE(size, 4) + [0, 0, 0, 0]
              + [93, 0, 0, 0, 1, 0, 0, 0] + [1, 0, 0, 0, 0, 0, 0, 0]
              + seq(32, _ => 0)
    {
      hide LE, WriteAll;
      FourBytes(REPLAY_YRPX);
      FourBytes(SERVER_VERSION);
      FourBytes(HEADER_FLAGS + REPLAY_COMPRESSED);
      FourBytes(0);
      EightBytes(CURRENT_VERSION);
      FourBytes(CURRENT_VERSION);
      NoSeed();
      assert LE(REPLAY_YRPX, 4) == [0x79, 0x72, 0x70, 0x58];
      assert LE(SERVER_VERSION, 4) == [41, 0, 11, 0];
      assert LE(HEADER_FLAGS + REPLAY_COMPRESSED, 4) == [0x31, 0x03, 0, 0];
      assert LE(CURRENT_VERSION, 8) == [1, 0, 0, 0, 0, 0, 0, 0];
    }

    /** Message 231 holds the older format: "yrp1", not compressed, and the seed. */
    lemma NestedBytes()
      requires |seed| == 4
      ensures NestedW(NestedHeader(), YrpOf())
           == [231]
              + ([0x79, 0x72, 0x70, 0x31] + [41, 0, 11, 0] + [0x30, 0x03, 0, 0] + [0, 0, 0, 0] + LE(|YrpW(YrpOf())|, 4) + [0, 0, 0, 0]
                 + [0, 0, 0, 0, 0, 0, 0, 0] + [1, 0, 0, 0, 0, 0, 0, 0]
                 + (LE(seed[0], 8) + LE(seed[1], 8) + LE(seed[2], 8) + LE(seed[3], 8)))
              + YrpW(YrpOf())
    {
      hide LE, WriteAll, YrpW;
      FourBytes(REPLAY_YRP1);
      FourBytes(SERVER_VERSION);
      FourBytes(HEADER_FLAGS);
      FourBytes(0);
      EightBytes(CURRENT_VERSION);
      FourBytes(CURRENT_VERSION);
      FourSeeds(seed);
      assert LE(REPLAY_YRP1, 4) == [0x79, 0x72, 0x70, 0x31];
      assert LE(SERVER_VERSION, 4) == [41, 0, 11, 0];
      assert LE(HEADER_FLAGS, 4) == [0x30, 0x03, 0, 0];
      assert LE(CURRENT_VERSION, 8) == [1, 0, 0, 0, 0, 0, 0, 0];
    }

    /** Everything fits the fields it is written to. */
    ghost predicate Fits()
      reads this
    {
      && KeysFit(team0) && KeysFit(team1) && YrpOK(YrpOf())
      && unixTimestamp < WORD && |seed| == 4 && (forall i :: 0 <= i < 4 ==> seed[i] < WORD * WORD)
      && (forall i :: 0 <= i < |messages| ==> MsgOK(messages[i]))
      && |NestedW(NestedHeader(), YrpOf())| <= WORD
      && |YrpxW(YrpxOf(messages + [NestedW(NestedHeader(), YrpOf())]))| < WORD
    }

    method YRPPastHeaderSize() returns (size: nat)
      requires Fits()
      ensures size == |YrpW(YrpOf())|
    {
      OrderedSize(team0);
      OrderedSize(team1);
      var decks := Decks(Ordered(team0)) + Decks(Ordered(team1));
      size := 8 + 8 + 12 + 40 * (|team0| + |team1|);
      var d := DecksSize(decks);
      var r := ResponsesSize(responses);
      size := size + d + 4 + 4 * |extraCards| + r;
      YrpWidth(YrpOf());
    }

    method YRPXPastHeaderSize() returns (size: nat)
      requires KeysFit(team0) && KeysFit(team1) && NamesOK(Names(Ordered(team0))) && NamesOK(Names(Ordered(team1)))
      requires forall i :: 0 <= i < |messages| ==> messages[i] != []
      ensures size == |YrpxW(YrpxOf(messages))|
    {
      OrderedSize(team0);
      OrderedSize(team1);
      size := 8 + 8 + 40 * (|team0| + |team1|);
      var v := MessagesSize(messages);
      size := size + v;
      TeamsWidth(Names(Ordered(team0)), Names(Ordered(team1)));
    }

    /** The YRP replay as a message. */
    method NestedMessage() returns (vec: array<Byte>)
      requires Fits()
      ensures fresh(vec) && vec[..] == NestedW(NestedHeader(), YrpOf())
    {
      hide HeaderW, YrpW, Wrote, YrpOK, HeaderOK, ZeroFrom;
      var past := YRPPastHeaderSize();
      ghost var y, h := YrpOf(), NestedHeader();
      NestedHeaderOK();
      HeaderWidth(h);
      var header := Header(REPLAY_YRP1, SERVER_VERSION, HEADER_FLAGS, 0, past, NO_PROPS, seed);
      vec := new Byte[1 + HEADER_SIZE + past](_ => 0);
      AllZero(vec[..]);
      ghost var b0 := vec[..];
      var ptr := WriteBytes(vec, 0, [OLD_REPLAY_FORMAT]);
      ghost var b1 := vec[..];
      ZeroBehind(b0, b1, 0, [OLD_REPLAY_FORMAT]);
      ptr := WriteHeader(vec, ptr, header);
      ghost var b2 := vec[..];
      ZeroBehind(b1, b2, 1, HeaderW(h));
      WroteBoth(b0, b1, b2, 0, [OLD_REPLAY_FORMAT], HeaderW(h));
      ptr := WriteYrp(vec, ptr);
      WroteBoth(b0, b2, vec[..], 0, [OLD_REPLAY_FORMAT] + HeaderW(h), YrpW(y));
      WroteAll(b0, vec[..], NestedW(h, y));
    }

    lemma NestedHeaderOK()
      requires Fits()
      ensures HeaderOK(NestedHeader())
    {
      hide YrpW, HeaderW;
    }

    /** The duelists and the core's options. */
    method WriteYrpOptions(buf: array<Byte>, start: nat) returns (ptr: nat)
      requires Fits() && start + |YrpOptions()| <= buf.Length && ZeroFrom(buf[..], start)
      modifies buf
      ensures ptr == start + |YrpOptions()| && Wrote(old(buf[..]), buf[..], start, YrpOptions())
    {
      hide Wrote, TeamsW, LE, YrpOK, ZeroFrom, Fits, Ordered, Names, NumbersW;
      var names0, names1 := Names(Ordered(team0)), Names(Ordered(team1));
      FitsNames();
      NamesShort();
      ghost var b0 := buf[..];
      ptr := WriteDuelists(buf, start, names0, names1);
      ghost var b1 := buf[..];
      ptr := WriteNumbers(buf, ptr, startingLP, startingDrawCount, drawCountPerTurn, duelFlags);
      WroteBoth(b0, b1, buf[..], start, TeamsW(names0, names1),
                NumbersW(startingLP, startingDrawCount, drawCountPerTurn, duelFlags));
    }

    lemma FitsNames()
      requires Fits()
      ensures NamesOK(Names(Ordered(team0))) && NamesOK(Names(Ordered(team1)))
    {
    }

    lemma NamesShort()
      requires NamesOK(Names(Ordered(team0))) && NamesOK(Names(Ordered(team1)))
      ensures forall i :: 0 <= i < |Names(Ordered(team0))| ==> |Names(Ordered(team0))[i]| <= NAME_UNITS
      ensures forall i :: 0 <= i < |Names(Ordered(team1))| ==> |Names(Ordered(team1))[i]| <= NAME_UNITS
    {
    }

    ghost function YrpOptions(): seq<Byte>
      reads this`team0, this`team1
    {
      TeamsW(Names(Ordered(team0)), Names(Ordered(team1)))
      + NumbersW(startingLP, startingDrawCount, drawCountPerTurn, duelFlags)
    }

    method WriteYrp(buf: array<Byte>, start: nat) returns (ptr: nat)
      requires Fits() && start + |YrpW(YrpOf())| <= buf.Length && ZeroFrom(buf[..], start)
      modifies buf
      ensures ptr == start + |YrpW(YrpOf())| && Wrote(old(buf[..]), buf[..], start, YrpW(YrpOf()))
    {
      hide Wrote, LE, WriteAll, CountedW, YrpOK, ZeroFrom, YrpOptions, YrpW, Fits, Ordered;
      YrpParts();
      ghost var b0 := buf[..];
      ptr := WriteYrpOptions(buf, start);
      ghost var b1 := buf[..];
      ptr := WriteLists(buf, ptr, Decks(Ordered(team0)) + Decks(Ordered(team1)), extraCards, responses);
      WroteBoth(b0, b1, buf[..], start, YrpOptions(), ListsW(YrpOf().decks, extraCards, responses));
    }

    lemma YrpParts()
      ensures YrpW(YrpOf()) == YrpOptions() + ListsW(YrpOf().decks, extraCards, responses)
    {
      hide LE, TeamsW, WriteAll, CountedW;
      RegroupLists(YrpOptions(), WriteAll(DeckW, YrpOf().decks), CountedW(CodeW, extraCards), WriteAll(ResponseW, responses));
      var a, b, c, d, e := TeamsW(Names(Ordered(team0)), Names(Ordered(team1))), LE(startingLP, 4),
                           LE(startingDrawCount, 4), LE(drawCountPerTurn, 4), LE(duelFlags, 8);
      Regroup(a, b, c, d, e);
    }

    /** What is behind the header of the YRPX replay. */
    method PastHeader() returns (vec: array<Byte>)
      requires KeysFit(team0) && KeysFit(team1) && NamesOK(Names(Ordered(team0))) && NamesOK(Names(Ordered(team1)))
      requires forall i :: 0 <= i < |messages| ==> messages[i] != []
      ensures fresh(vec) && vec[..] == YrpxW(YrpxOf(messages))
    {
      hide Wrote, TeamsW, LE, WriteAll, ZeroFrom, Ordered, Names, NamesOK;
      var size := YRPXPastHeaderSize();
      vec := new Byte[size](_ => 0);
      AllZero(vec[..]);
      var names0, names1 := Names(Ordered(team0)), Names(Ordered(team1));
      NamesShort();
      ghost var b0 := vec[..];
      var ptr := WriteDuelists(vec, 0, names0, names1);
      ghost var b1, w1 := vec[..], TeamsW(names0, names1);
      ptr := Write(vec, ptr, duelFlags, 8);
      ghost var b2, w2 := vec[..], w1 + LE(duelFlags, 8);
      WroteBoth(b0, b1, b2, 0, w1, LE(duelFlags, 8));
      ptr := WriteMessages(vec, ptr, messages);
      WroteBoth(b0, b2, vec[..], 0, w2, WriteAll(MsgW, messages));
      WroteAll(b0, vec[..], YrpxW(YrpxOf(messages)));
    }

    /** Everything behind the header compressed, and the header before it. */
    method Compressed(parse: seq<Byte> -> seq<LzmaStream.Packet>) returns (file: seq<Byte>, ghost packed: seq<Byte>)
      requires YrpxOK(YrpxOf(messages)) && KeysFit(team0) && KeysFit(team1) && unixTimestamp < WORD
      requires |YrpxW(YrpxOf(messages))| < WORD
      requires LzmaStream.ValidParse(LzmaStream.LZ_START, YrpxW(YrpxOf(messages)), DICTIONARY,
                                     parse(YrpxW(YrpxOf(messages))))
      ensures file == HeaderW(FinalHeader(|YrpxW(YrpxOf(messages))|)) + packed
      ensures LzmaSpec.Decompress(LZMA_PROPS, |YrpxW(YrpxOf(messages))|, packed)
           == Some(YrpxW(YrpxOf(messages)))
    {
      hide YrpxW, LzmaSpec.Decompress, LzmaStream.ValidParse;
      ghost var x := YrpxOf(messages);
      NonEmpty(x);
      var pthData := PastHeader();
      var header := Header(REPLAY_YRPX, SERVER_VERSION, HEADER_FLAGS, unixTimestamp, pthData.Length, NO_PROPS, [0, 0, 0, 0]);
      var compData := LzmaStream.Encode(pthData, parse(pthData[..]), DICTIONARY, LZMA_PROPS);
      var props := LzmaStream.WriteProperties(DICTIONARY);
      PropsOfLevel5(props);
      header := header.(props := props + NO_PROPS[5..], flags := header.flags + REPLAY_COMPRESSED);
      file := WriteFile(header, compData);
      packed := compData;
    }

    /** `Serialize`: the YRP replay becomes the last message for as long as it
      * takes, the whole is compressed, and reading the file gives everything
      * back. `parse` is the encoder's choice of packets for a given input. */
    method Serialize(parse: seq<Byte> -> seq<LzmaStream.Packet>)
      requires Fits()
      requires forall data :: LzmaStream.ValidParse(LzmaStream.LZ_START, data, DICTIONARY, parse(data))
      modifies this`messages, this`bytes
      ensures messages == old(messages)
      ensures ReadReplay(bytes)
           == Some(Recording(FinalHeader(|YrpxW(YrpxOf(messages + [NestedW(NestedHeader(), YrpOf())]))|),
                             YrpxOf(messages), NestedHeader(), YrpOf()))
    {
      hide YrpW, YrpxW, YrpOK, YrpxOK, LzmaStream.ValidParse, ReadReplay, NestedW, HeaderW, HeaderOK, Fits;
      NestedFits();
      NestedHeaderOK();
      var nested := NestedMessage();
      messages := messages + [nested[..]];
      bytes := SerializeAll(parse, old(messages));
      messages := messages[..|messages| - 1];
    }

    /** The file for the messages together with the nested replay. */
    method SerializeAll(parse: seq<Byte> -> seq<LzmaStream.Packet>, ghost ms: seq<seq<Byte>>) returns (file: seq<Byte>)
      requires messages == ms + [NestedW(NestedHeader(), YrpOf())]
      requires YrpxOK(YrpxOf(messages)) && KeysFit(team0) && KeysFit(team1) && unixTimestamp < WORD
      requires |YrpxW(YrpxOf(messages))| < WORD && YrpOK(YrpOf()) && HeaderOK(NestedHeader())
      requires forall data :: LzmaStream.ValidParse(LzmaStream.LZ_START, data, DICTIONARY, parse(data))
      ensures ReadReplay(file) == Some(Recording(FinalHeader(|YrpxW(YrpxOf(messages))|), YrpxOf(ms), NestedHeader(), YrpOf()))
    {
      hide YrpW, YrpxW, YrpOK, YrpxOK, LzmaSpec.Decompress, LzmaStream.ValidParse, ReadReplay, NestedW, HeaderW, HeaderOK;
      ghost var x := YrpxOf(messages);
      ghost var packed;
      file, packed := Compressed(parse);
      FinalHeaderOK(|YrpxW(x)|);
      ReplayRecovers(FinalHeader(|YrpxW(x)|), packed, x, NestedHeader(), YrpOf());
      assert x.messages[..|x.messages| - 1] == ms;
    }

    lemma FinalHeaderOK(size: nat)
      requires size < WORD && unixTimestamp < WORD
      ensures HeaderOK(FinalHeader(size))
    {
    }

    /** With the nested replay added, the messages still fit. */
    lemma NestedFits()
      requires Fits()
      ensures YrpxOK(YrpxOf(messages + [NestedW(NestedHeader(), YrpOf())])) && KeysFit(team0) && KeysFit(team1)
      ensures |YrpxW(YrpxOf(messages + [NestedW(NestedHeader(), YrpOf())]))| < WORD && unixTimestamp < WORD && YrpOK(YrpOf())
    {
      MessagesOK(messages, NestedW(NestedHeader(), YrpOf()), YrpxOf(messages + [NestedW(NestedHeader(), YrpOf())]));
    }
  }

  lemma NonEmpty(x: Yrpx)
    requires YrpxOK(x)
    ensures NamesOK(x.team0) && NamesOK(x.team1) && forall i :: 0 <= i < |x.messages| ==> x.messages[i] != []
  {
  }

  ghost function NumbersW(a: nat, b: nat, c: nat, d: nat): (s: seq<Byte>)
    ensures |s| == 20
  {
    LE(a, 4) + LE(b, 4) + LE(c, 4) + LE(d, 8)
  }

  ghost function ListsW(decks: seq<DeckList>, extraCards: seq<nat>, responses: seq<seq<Byte>>): seq<Byte> {
    WriteAll(DeckW, decks) + CountedW(CodeW, extraCards) + WriteAll(ResponseW, responses)
  }

  lemma RegroupLists(a: seq<Byte>, b: seq<Byte>, c: seq<Byte>, d: seq<Byte>)
    ensures a + b + c + d == a + (b + c + d)
  {
  }

  method WriteLists(buf: array<Byte>, start: nat, decks: seq<DeckList>, extraCards: seq<nat>, responses: seq<seq<Byte>>)
    returns (ptr: nat)
    requires start + |ListsW(decks, extraCards, responses)| <= buf.Length
    modifies buf
    ensures ptr == start + |ListsW(decks, extraCards, responses)|
    ensures Wrote(old(buf[..]), buf[..], start, ListsW(decks, extraCards, responses))
  {
    hide Wrote, WriteAll, CountedW;
    ghost var b0 := buf[..];
    ptr := WriteDecks(buf, start, decks);
    ghost var b1 := buf[..];
    ptr := WriteCodeVector(buf, ptr, extraCards);
    ghost var b2 := buf[..];
    WroteBoth(b0, b1, b2, start, WriteAll(DeckW, decks), CountedW(CodeW, extraCards));
    ptr := WriteResponses(buf, ptr, responses);
    WroteBoth(b0, b2, buf[..], start, WriteAll(DeckW, decks) + CountedW(CodeW, extraCards), WriteAll(ResponseW, responses));
  }

  lemma Regroup(a: seq<Byte>, b: seq<Byte>, c: seq<Byte>, d: seq<Byte>, e: seq<Byte>)
    ensures a + b + c + d + e == a + (b + c + d + e)
  {
  }

  method WriteNumbers(buf: array<Byte>, start: nat, a: nat, b: nat, c: nat, d: nat) returns (ptr: nat)
    requires start + 20 <= buf.Length
    modifies buf
    ensures ptr == start + 20 == start + |NumbersW(a, b, c, d)| && Wrote(old(buf[..]), buf[..], start, NumbersW(a, b, c, d))
  {
    hide Wrote, LE;
    ghost var b0 := buf[..];
    ptr := Write(buf, start, a, 4);
    ghost var b1 := buf[..];
    ptr := Write(buf, ptr, b, 4);
    ghost var b2 := buf[..];
    WroteBoth(b0, b1, b2, start, LE(a, 4), LE(b, 4));
    ptr := Write(buf, ptr, c, 4);
    ghost var b3 := buf[..];
    WroteBoth(b0, b2, b3, start, LE(a, 4) + LE(b, 4), LE(c, 4));
    ptr := Write(buf, ptr, d, 8);
    WroteBoth(b0, b3, buf[..], start, LE(a, 4) + LE(b, 4) + LE(c, 4), LE(d, 8));
  }

  /** The final binary: the header, and the compressed data behind it. */
  method WriteFile(header: Header, compData: seq<Byte>) returns (file: seq<Byte>)
    requires HeaderOK(header)
    ensures file == HeaderW(header) + compData
  {
    hide HeaderW, HeaderOK, Wrote;
    HeaderWidth(header);
    var buf := new Byte[HEADER_SIZE + |compData|](_ => 0);
    ghost var b0 := buf[..];
    var ptr := WriteHeader(buf, 0, header);
    ghost var b1 := buf[..];
    ptr := WriteBytes(buf, ptr, compData);
    WroteBoth(b0, b1, buf[..], 0, HeaderW(header), compData);
    WroteAll(b0, buf[..], HeaderW(header) + compData);
    file := buf[..];
  }

  /** Recorded for the replay. */
  predicate Recorded(msg: seq<Byte>)
    requires |msg| > 0 && (msg[0] == Messages.MSG_HINT ==> |msg| > 1)
  {
    && !(msg[0] == Messages.MSG_HINT && msg[1] in {1, 2, 3, 5})
    && (Messages.DoesMessageRequireAnswer(msg[0]) ==> msg[0] == ANNOUNCE_CARD_FILTER)
  }

  const ANNOUNCE_CARD_FILTER: Byte := 144

  lemma MessagesOK(ms: seq<seq<Byte>>, nested: seq<Byte>, x: Yrpx)
    requires (forall i :: 0 <= i < |ms| ==> MsgOK(ms[i])) && 1 <= |nested| <= WORD
    requires x.messages == ms + [nested] && NamesOK(x.team0) && NamesOK(x.team1) && x.duelFlags < WORD * WORD
    ensures YrpxOK(x) && forall i :: 0 <= i < |x.messages| ==> x.messages[i] != []
  {
  }

  lemma YrpWidth(y: Yrp)
    requires YrpOK(y)
    ensures |YrpW(y)| == 28 + 40 * (|y.team0| + |y.team1|) + |WriteAll(DeckW, y.decks)| + 4 + 4 * |y.extraCards|
                       + |WriteAll(ResponseW, y.responses)|
  {
    TeamsWidth(y.team0, y.team1);
    WidthAll(CodeW, y.extraCards, 4);
  }

  lemma HeaderWidth(h: Header)
    requires HeaderOK(h)
    ensures |HeaderW(h)| == HEADER_SIZE
  {
    hide LE, WriteAll;
    WidthAll(SeedW, h.seed, 8);
  }

  lemma AllZero(b: seq<Byte>)
    requires forall k :: 0 <= k < |b| ==> b[k] == 0
    ensures ZeroFrom(b, 0)
  {
  }

  lemma WroteAll(a: seq<Byte>, b: seq<Byte>, s: seq<Byte>)
    requires Wrote(a, b, 0, s) && |a| == |s|
    ensures b == s
  {
  }
}
