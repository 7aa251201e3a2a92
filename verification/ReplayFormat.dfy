/** The replay formats documented in Replay.cpp: YRPX, and YRP inside its last
  * message. First the bytes, then a reader written from the documented layout,
  * then that it reads back what was written. */
module ReplayFormat {
  import opened Arith
  import opened Words
  import opened ByteIO

  // ---------------------------------------------------------- lists of things

  type Writer<!T> = T -> seq<Byte>
  type Reader<!T> = (seq<Byte>, nat) -> Parsed<T>

  function WriteAll<T>(w: Writer<T>, xs: seq<T>): seq<Byte> {
    if xs == [] then [] else w(xs[0]) + WriteAll(w, xs[1..])
  }

  /** As many as announced. */
  function ReadMany<T>(r: Reader<T>, b: seq<Byte>, pos: nat, n: nat): Parsed<seq<T>>
    decreases n
  {
    if n == 0 then Ok([], pos)
    else
      match r(b, pos)
      case Overrun => Overrun
      case Ok(x, p) =>
        match ReadMany(r, b, p, n - 1)
        case Overrun => Overrun
        case Ok(xs, q) => Ok([x] + xs, q)
  }

  /** As many as there are before an end. */
  function ReadUntil<T>(r: Reader<T>, b: seq<Byte>, pos: nat, end: nat): Parsed<seq<T>>
    decreases end - pos
  {
    if pos == end then Ok([], pos)
    else
      match r(b, pos)
      case Overrun => Overrun
      case Ok(x, p) =>
        if !(pos < p <= end) then Overrun
        else
          match ReadUntil(r, b, p, end)
          case Overrun => Overrun
          case Ok(xs, q) => Ok([x] + xs, q)
  }

  /** The reader gets a thing back from where the writer put it. */
  ghost predicate Recovers<T(!new)>(w: Writer<T>, r: Reader<T>, x: T) {
    forall b, pos: nat :: Holds(b, pos, w(x)) ==> r(b, pos) == Ok(x, pos + |w(x)|)
  }

  ghost predicate AllRecover<T(!new)>(w: Writer<T>, r: Reader<T>, xs: seq<T>) {
    forall i :: 0 <= i < |xs| ==> Recovers(w, r, xs[i])
  }

  lemma {:induction false} ManyRecover<T(!new)>(w: Writer<T>, r: Reader<T>, xs: seq<T>, b: seq<Byte>, pos: nat)
    requires AllRecover(w, r, xs) && Holds(b, pos, WriteAll(w, xs))
    ensures ReadMany(r, b, pos, |xs|) == Ok(xs, pos + |WriteAll(w, xs)|)
    decreases |xs|
  {
    hide Holds;
    if xs != [] {
      HoldsSplit(b, pos, w(xs[0]), WriteAll(w, xs[1..]));
      ManyRecover(w, r, xs[1..], b, pos + |w(xs[0])|);
      assert Recovers(w, r, xs[0]);
      assert [xs[0]] + xs[1..] == xs;
    }
  }

  lemma {:induction false} UntilRecover<T(!new)>(w: Writer<T>, r: Reader<T>, xs: seq<T>, b: seq<Byte>, pos: nat)
    requires AllRecover(w, r, xs) && Holds(b, pos, WriteAll(w, xs)) && forall i :: 0 <= i < |xs| ==> w(xs[i]) != []
    ensures ReadUntil(r, b, pos, pos + |WriteAll(w, xs)|) == Ok(xs, pos + |WriteAll(w, xs)|)
    decreases |xs|
  {
    hide Holds;
    if xs != [] {
      HoldsSplit(b, pos, w(xs[0]), WriteAll(w, xs[1..]));
      UntilRecover(w, r, xs[1..], b, pos + |w(xs[0])|);
      assert Recovers(w, r, xs[0]);
      assert [xs[0]] + xs[1..] == xs;
    }
  }

  // ------------------------------------------------------------- small things

  type Text = seq<nat> // UTF-16 units

  function CodeW(c: nat): seq<Byte> { LE(c, 4) }

  function CodeR(b: seq<Byte>, pos: nat): Parsed<nat> {
    if pos + 4 > |b| then Overrun else Ok(ReadAt(b, pos, 4), pos + 4)
  }

  function UnitW(u: nat): seq<Byte> { LE(u, 2) }

  function UnitR(b: seq<Byte>, pos: nat): Parsed<nat> {
    if pos + 2 > |b| then Overrun else Ok(ReadAt(b, pos, 2), pos + 2)
  }

  lemma CodeRecovers(c: nat)
    requires c < WORD
    ensures Recovers(CodeW, CodeR, c)
  {
    Widths();
    forall b: seq<Byte>, pos: nat | Holds(b, pos, CodeW(c)) ensures CodeR(b, pos) == Ok(c, pos + 4) {
      ReadHeld(b, pos, c, 4);
    }
  }

  lemma UnitRecovers(u: nat)
    requires u < 0x1_0000
    ensures Recovers(UnitW, UnitR, u)
  {
    Widths();
    forall b: seq<Byte>, pos: nat | Holds(b, pos, UnitW(u)) ensures UnitR(b, pos) == Ok(u, pos + 2) {
      ReadHeld(b, pos, u, 2);
    }
  }

  /** A list behind its length. */
  function CountedW<T>(w: Writer<T>, xs: seq<T>): seq<Byte> { LE(|xs| % WORD, 4) + WriteAll(w, xs) }

  function CountedR<T>(r: Reader<T>, b: seq<Byte>, pos: nat): Parsed<seq<T>> {
    match CodeR(b, pos)
    case Overrun => Overrun
    case Ok(n, p) => ReadMany(r, b, p, n)
  }

  lemma CountedRecovers<T(!new)>(w: Writer<T>, r: Reader<T>, xs: seq<T>, b: seq<Byte>, pos: nat)
    requires AllRecover(w, r, xs) && |xs| < WORD && Holds(b, pos, CountedW(w, xs))
    ensures CountedR(r, b, pos) == Ok(xs, pos + |CountedW(w, xs)|)
  {
    hide Holds, AllRecover, WriteAll, ReadMany;
    HoldsSplit(b, pos, LE(|xs|, 4), WriteAll(w, xs));
    CodeRecovers(|xs|);
    assert CodeW(|xs|) == LE(|xs|, 4);
    ManyRecover(w, r, xs, b, pos + 4);
  }

  // -------------------------------------------------------------------- names

  const NAME_UNITS := 20

  function Padded(name: Text): Text {
    if |name| <= NAME_UNITS then name + seq(NAME_UNITS - |name|, _ => 0) else name
  }

  function UpToZero(us: Text): Text {
    if us == [] || us[0] == 0 then [] else [us[0]] + UpToZero(us[1..])
  }

  function NameW(name: Text): seq<Byte> { WriteAll(UnitW, Padded(name)) }

  function NameR(b: seq<Byte>, pos: nat): Parsed<Text> {
    match ReadMany(UnitR, b, pos, NAME_UNITS)
    case Overrun => Overrun
    case Ok(us, p) => Ok(UpToZero(us), p)
  }

  ghost predicate NameOK(name: Text) {
    |name| <= NAME_UNITS && forall i :: 0 <= i < |name| ==> 0 < name[i] < 0x1_0000
  }

  lemma {:induction false} PaddingDropped(name: Text, zeros: Text)
    requires (forall i :: 0 <= i < |name| ==> name[i] > 0) && (zeros != [] ==> zeros[0] == 0)
    ensures UpToZero(name + zeros) == name
    decreases |name|
  {
    if name == [] {
      assert name + zeros == zeros;
    } else {
      assert (name + zeros)[0] == name[0] && (name + zeros)[1..] == name[1..] + zeros;
      PaddingDropped(name[1..], zeros);
    }
  }

  lemma {:induction false} WidthAll<T>(w: Writer<T>, xs: seq<T>, k: nat)
    requires forall i :: 0 <= i < |xs| ==> |w(xs[i])| == k
    ensures |WriteAll(w, xs)| == k * |xs|
    decreases |xs|
  {
    if xs != [] {
      WidthAll(w, xs[1..], k);
      assert k * |xs| == k + k * |xs[1..]|;
    }
  }

  lemma NameWidth(name: Text)
    requires |name| <= NAME_UNITS
    ensures |NameW(name)| == 40
  {
    WidthAll(UnitW, Padded(name), 2);
  }

  lemma NameRecovers(name: Text)
    requires NameOK(name)
    ensures Recovers(NameW, NameR, name)
  {
    var us := Padded(name);
    forall i | 0 <= i < |us| ensures Recovers(UnitW, UnitR, us[i]) {
      UnitRecovers(us[i]);
    }
    PaddingDropped(name, us[|name|..]);
    assert us == name + us[|name|..];
    forall b: seq<Byte>, pos: nat | Holds(b, pos, NameW(name)) ensures NameR(b, pos) == Ok(name, pos + |NameW(name)|) {
      hide Holds, Recovers, ReadMany, WriteAll, UpToZero;
      ManyRecover(UnitW, UnitR, us, b, pos);
    }
  }

  // -------------------------------------------------------------------- decks

  datatype DeckList = DeckList(main: seq<nat>, extra: seq<nat>)

  ghost predicate CodesOK(cs: seq<nat>) {
    |cs| < WORD && forall i :: 0 <= i < |cs| ==> cs[i] < WORD
  }

  lemma CodesRecover(cs: seq<nat>, b: seq<Byte>, pos: nat)
    requires CodesOK(cs) && Holds(b, pos, CountedW(CodeW, cs))
    ensures CountedR(CodeR, b, pos) == Ok(cs, pos + |CountedW(CodeW, cs)|)
  {
    forall i | 0 <= i < |cs| ensures Recovers(CodeW, CodeR, cs[i]) {
      CodeRecovers(cs[i]);
    }
    CountedRecovers(CodeW, CodeR, cs, b, pos);
  }

  function DeckW(d: DeckList): seq<Byte> { CountedW(CodeW, d.main) + CountedW(CodeW, d.extra) }

  function DeckR(b: seq<Byte>, pos: nat): Parsed<DeckList> {
    match CountedR(CodeR, b, pos)
    case Overrun => Overrun
    case Ok(main, p) =>
      match CountedR(CodeR, b, p)
      case Overrun => Overrun
      case Ok(extra, q) => Ok(DeckList(main, extra), q)
  }

  lemma DeckRecovers(d: DeckList)
    requires CodesOK(d.main) && CodesOK(d.extra)
    ensures Recovers(DeckW, DeckR, d)
  {
    forall b: seq<Byte>, pos: nat | Holds(b, pos, DeckW(d)) ensures DeckR(b, pos) == Ok(d, pos + |DeckW(d)|) {
      hide Holds, CountedW, CountedR, CodesOK;
      HoldsSplit(b, pos, CountedW(CodeW, d.main), CountedW(CodeW, d.extra));
      CodesRecover(d.main, b, pos);
      CodesRecover(d.extra, b, pos + |CountedW(CodeW, d.main)|);
    }
  }

  // ----------------------------------------------------- messages and responses

  /** A message as type, length of the body, body. */
  function BodyW(t: Byte, body: seq<Byte>): seq<Byte> { [t] + LE(|body| % WORD, 4) + body }

  function MsgW(m: seq<Byte>): seq<Byte> {
    if m == [] then [] else BodyW(m[0], m[1..])
  }

  function MsgR(b: seq<Byte>, pos: nat): Parsed<seq<Byte>> {
    if pos + 5 > |b| then Overrun
    else
      var n := ReadAt(b, pos + 1, 4);
      if pos + 5 + n > |b| then Overrun else Ok([b[pos]] + b[pos + 5..pos + 5 + n], pos + 5 + n)
  }

  ghost predicate MsgOK(m: seq<Byte>) { 1 <= |m| <= WORD }

  lemma BodyRecoversAt(t: Byte, body: seq<Byte>, b: seq<Byte>, pos: nat)
    requires |body| < WORD && Holds(b, pos, BodyW(t, body))
    ensures MsgR(b, pos) == Ok([t] + body, pos + |BodyW(t, body)|)
  {
    hide LE, ReadAt, Holds;
    Widths();
    HoldsSplit(b, pos, [t] + LE(|body|, 4), body);
    HoldsSplit(b, pos, [t], LE(|body|, 4));
    ReadHeld(b, pos + 1, |body|, 4);
    HeldSlice(b, pos, [t]);
    HeldSlice(b, pos + 5, body);
  }

  lemma HeldSlice(b: seq<Byte>, pos: nat, s: seq<Byte>)
    requires Holds(b, pos, s)
    ensures pos + |s| <= |b| && b[pos..pos + |s|] == s
    ensures forall i :: 0 <= i < |s| ==> b[pos + i] == s[i]
  {
    forall i | 0 <= i < |s| ensures b[pos + i] == s[i] {
      assert b[pos..pos + |s|][i] == b[pos + i];
    }
  }

  lemma MsgRecovers(m: seq<Byte>)
    requires MsgOK(m)
    ensures Recovers(MsgW, MsgR, m)
  {
    forall b: seq<Byte>, pos: nat | Holds(b, pos, MsgW(m)) ensures MsgR(b, pos) == Ok(m, pos + |MsgW(m)|) {
      hide Holds, BodyW, MsgR;
      BodyRecoversAt(m[0], m[1..], b, pos);
      assert [m[0]] + m[1..] == m;
    }
  }

  /** A response behind its length of one byte. */
  function ResponseW(r: seq<Byte>): seq<Byte> { [|r| % 256] + r }

  function ResponseR(b: seq<Byte>, pos: nat): Parsed<seq<Byte>> {
    if pos + 1 > |b| then Overrun
    else if pos + 1 + b[pos] > |b| then Overrun
    else Ok(b[pos + 1..pos + 1 + b[pos]], pos + 1 + b[pos])
  }

  lemma ResponseRecovers(r: seq<Byte>)
    requires |r| < 256
    ensures Recovers(ResponseW, ResponseR, r)
  {
    forall b: seq<Byte>, pos: nat | Holds(b, pos, ResponseW(r)) ensures ResponseR(b, pos) == Ok(r, pos + |ResponseW(r)|) {
      HoldsSplit(b, pos, [|r|], r);
      assert b[pos..pos + 1] == [|r|];
      assert b[pos] == b[pos..pos + 1][0];
    }
  }

  // ------------------------------------------------------------------- bodies

  ghost predicate NamesOK(names: seq<Text>) {
    |names| < WORD && forall i :: 0 <= i < |names| ==> NameOK(names[i])
  }

  lemma NamesRecover(names: seq<Text>, b: seq<Byte>, pos: nat)
    requires NamesOK(names) && Holds(b, pos, CountedW(NameW, names))
    ensures CountedR(NameR, b, pos) == Ok(names, pos + |CountedW(NameW, names)|)
  {
    forall i | 0 <= i < |names| ensures Recovers(NameW, NameR, names[i]) {
      NameRecovers(names[i]);
    }
    CountedRecovers(NameW, NameR, names, b, pos);
  }

  /** Both teams' names. */
  function TeamsW(team0: seq<Text>, team1: seq<Text>): seq<Byte> {
    CountedW(NameW, team0) + CountedW(NameW, team1)
  }

  datatype Yrp = Yrp(team0: seq<Text>, team1: seq<Text>, startingLP: nat, startingDrawCount: nat, drawCountPerTurn: nat,
                     duelFlags: nat, decks: seq<DeckList>, extraCards: seq<nat>, responses: seq<seq<Byte>>)

  datatype Yrpx = Yrpx(team0: seq<Text>, team1: seq<Text>, duelFlags: nat, messages: seq<seq<Byte>>)

  ghost predicate YrpOK(y: Yrp) {
    && NamesOK(y.team0) && NamesOK(y.team1)
    && y.startingLP < WORD && y.startingDrawCount < WORD && y.drawCountPerTurn < WORD && y.duelFlags < WORD * WORD
    && |y.decks| == |y.team0| + |y.team1|
    && (forall i :: 0 <= i < |y.decks| ==> CodesOK(y.decks[i].main) && CodesOK(y.decks[i].extra))
    && CodesOK(y.extraCards)
    && forall i :: 0 <= i < |y.responses| ==> |y.responses[i]| < 256
  }

  function YrpW(y: Yrp): seq<Byte> {
    TeamsW(y.team0, y.team1) + LE(y.startingLP, 4) + LE(y.startingDrawCount, 4) + LE(y.drawCountPerTurn, 4)
    + LE(y.duelFlags, 8) + WriteAll(DeckW, y.decks) + CountedW(CodeW, y.extraCards) + WriteAll(ResponseW, y.responses)
  }

  /** Reads a YRP body that ends at `end`. */
  function YrpR(b: seq<Byte>, pos: nat, end: nat): Parsed<Yrp> {
    match CountedR(NameR, b, pos)
    case Overrun => Overrun
    case Ok(team0, p0) =>
      match CountedR(NameR, b, p0)
      case Overrun => Overrun
      case Ok(team1, p1) =>
        if p1 + 20 > |b| then Overrun
        else
          match ReadMany(DeckR, b, p1 + 20, |team0| + |team1|)
          case Overrun => Overrun
          case Ok(decks, p2) =>
            match CountedR(CodeR, b, p2)
            case Overrun => Overrun
            case Ok(extraCards, p3) =>
              match ReadUntil(ResponseR, b, p3, end)
              case Overrun => Overrun
              case Ok(responses, p4) =>
                Ok(Yrp(team0, team1, ReadAt(b, p1, 4), ReadAt(b, p1 + 4, 4), ReadAt(b, p1 + 8, 4), ReadAt(b, p1 + 12, 8),
                       decks, extraCards, responses), p4)
  }

  lemma TeamsRecover(team0: seq<Text>, team1: seq<Text>, b: seq<Byte>, pos: nat)
    requires NamesOK(team0) && NamesOK(team1) && Holds(b, pos, TeamsW(team0, team1))
    ensures CountedR(NameR, b, pos) == Ok(team0, pos + |CountedW(NameW, team0)|)
    ensures CountedR(NameR, b, pos + |CountedW(NameW, team0)|) == Ok(team1, pos + |TeamsW(team0, team1)|)
  {
    hide Holds, CountedW, CountedR, NamesOK;
    HoldsSplit(b, pos, CountedW(NameW, team0), CountedW(NameW, team1));
    NamesRecover(team0, b, pos);
    NamesRecover(team1, b, pos + |CountedW(NameW, team0)|);
  }

  lemma DecksRecover(decks: seq<DeckList>, b: seq<Byte>, pos: nat)
    requires forall i :: 0 <= i < |decks| ==> CodesOK(decks[i].main) && CodesOK(decks[i].extra)
    requires Holds(b, pos, WriteAll(DeckW, decks))
    ensures ReadMany(DeckR, b, pos, |decks|) == Ok(decks, pos + |WriteAll(DeckW, decks)|)
  {
    forall i | 0 <= i < |decks| ensures Recovers(DeckW, DeckR, decks[i]) {
      DeckRecovers(decks[i]);
    }
    ManyRecover(DeckW, DeckR, decks, b, pos);
  }

  lemma ResponsesRecover(rs: seq<seq<Byte>>, b: seq<Byte>, pos: nat)
    requires forall i :: 0 <= i < |rs| ==> |rs[i]| < 256
    requires Holds(b, pos, WriteAll(ResponseW, rs))
    ensures ReadUntil(ResponseR, b, pos, pos + |WriteAll(ResponseW, rs)|) == Ok(rs, pos + |WriteAll(ResponseW, rs)|)
  {
    forall i | 0 <= i < |rs| ensures Recovers(ResponseW, ResponseR, rs[i]) {
      ResponseRecovers(rs[i]);
    }
    UntilRecover(ResponseW, ResponseR, rs, b, pos);
  }

  lemma NumberHeld(b: seq<Byte>, pos: nat, v: nat, w: nat)
    requires w in {4, 8} && v < (if w == 4 then WORD else WORD * WORD) && Holds(b, pos, LE(v, w))
    ensures pos + w <= |b| && ReadAt(b, pos, w) == v
  {
    Widths();
    ReadHeld(b, pos, v, w);
  }

  lemma YrpRecovers(y: Yrp, b: seq<Byte>, pos: nat)
    requires YrpOK(y) && Holds(b, pos, YrpW(y))
    ensures YrpR(b, pos, pos + |YrpW(y)|) == Ok(y, pos + |YrpW(y)|)
  {
    hide Holds, CountedW, CountedR, NamesOK, CodesOK, TeamsW, WriteAll, ReadMany, ReadUntil, LE, ReadAt;
    var teams := TeamsW(y.team0, y.team1);
    var n1 := teams + LE(y.startingLP, 4);
    var n2 := n1 + LE(y.startingDrawCount, 4);
    var n3 := n2 + LE(y.drawCountPerTurn, 4);
    var n4 := n3 + LE(y.duelFlags, 8);
    var d := n4 + WriteAll(DeckW, y.decks);
    var e := d + CountedW(CodeW, y.extraCards);
    HoldsSplit(b, pos, e, WriteAll(ResponseW, y.responses));
    HoldsSplit(b, pos, d, CountedW(CodeW, y.extraCards));
    HoldsSplit(b, pos, n4, WriteAll(DeckW, y.decks));
    HoldsSplit(b, pos, n3, LE(y.duelFlags, 8));
    HoldsSplit(b, pos, n2, LE(y.drawCountPerTurn, 4));
    HoldsSplit(b, pos, n1, LE(y.startingDrawCount, 4));
    HoldsSplit(b, pos, teams, LE(y.startingLP, 4));
    TeamsRecover(y.team0, y.team1, b, pos);
    NumberHeld(b, pos + |teams|, y.startingLP, 4);
    NumberHeld(b, pos + |n1|, y.startingDrawCount, 4);
    NumberHeld(b, pos + |n2|, y.drawCountPerTurn, 4);
    NumberHeld(b, pos + |n3|, y.duelFlags, 8);
    DecksRecover(y.decks, b, pos + |n4|);
    CodesRecover(y.extraCards, b, pos + |d|);
    ResponsesRecover(y.responses, b, pos + |e|);
  }

  ghost predicate YrpxOK(y: Yrpx) {
    && NamesOK(y.team0) && NamesOK(y.team1) && y.duelFlags < WORD * WORD
    && forall i :: 0 <= i < |y.messages| ==> MsgOK(y.messages[i])
  }

  function YrpxW(y: Yrpx): seq<Byte> {
    TeamsW(y.team0, y.team1) + LE(y.duelFlags, 8) + WriteAll(MsgW, y.messages)
  }

  function YrpxR(b: seq<Byte>, pos: nat, end: nat): Parsed<Yrpx> {
    match CountedR(NameR, b, pos)
    case Overrun => Overrun
    case Ok(team0, p0) =>
      match CountedR(NameR, b, p0)
      case Overrun => Overrun
      case Ok(team1, p1) =>
        if p1 + 8 > |b| then Overrun
        else
          match ReadUntil(MsgR, b, p1 + 8, end)
          case Overrun => Overrun
          case Ok(messages, p2) => Ok(Yrpx(team0, team1, ReadAt(b, p1, 8), messages), p2)
  }

  lemma MsgsRecover(ms: seq<seq<Byte>>, b: seq<Byte>, pos: nat)
    requires forall i :: 0 <= i < |ms| ==> MsgOK(ms[i])
    requires Holds(b, pos, WriteAll(MsgW, ms))
    ensures ReadUntil(MsgR, b, pos, pos + |WriteAll(MsgW, ms)|) == Ok(ms, pos + |WriteAll(MsgW, ms)|)
  {
    hide *;
    AllMsgsRecover(ms);
    UntilRecover(MsgW, MsgR, ms, b, pos);
  }

  lemma AllMsgsRecover(ms: seq<seq<Byte>>)
    requires forall i :: 0 <= i < |ms| ==> MsgOK(ms[i])
    ensures AllRecover(MsgW, MsgR, ms) && forall i :: 0 <= i < |ms| ==> MsgW(ms[i]) != []
  {
    hide Recovers;
    forall i | 0 <= i < |ms| ensures Recovers(MsgW, MsgR, ms[i]) {
      MsgRecovers(ms[i]);
    }
  }

  lemma YrpxRecovers(y: Yrpx, b: seq<Byte>, pos: nat)
    requires YrpxOK(y) && Holds(b, pos, YrpxW(y))
    ensures YrpxR(b, pos, pos + |YrpxW(y)|) == Ok(y, pos + |YrpxW(y)|)
  {
    hide Holds, CountedW, CountedR, NamesOK, TeamsW, WriteAll, ReadUntil, LE, ReadAt, MsgOK;
    var teams := TeamsW(y.team0, y.team1);
    var n1 := teams + LE(y.duelFlags, 8);
    HoldsSplit(b, pos, n1, WriteAll(MsgW, y.messages));
    HoldsSplit(b, pos, teams, LE(y.duelFlags, 8));
    TeamsRecover(y.team0, y.team1, b, pos);
    NumberHeld(b, pos + |teams|, y.duelFlags, 8);
    MsgsRecover(y.messages, b, pos + |n1|);
  }

  // ------------------------------------------------------------------ headers

  const REPLAY_YRP1: nat := 0x31707279
  const REPLAY_YRPX: nat := 0x58707279
  const REPLAY_COMPRESSED: nat := 0x1
  const HEADER_FLAGS: nat := 0x10 + 0x100 + 0x20 + 0x200
  const CURRENT_VERSION: nat := 1
  const HEADER_SIZE := 72

  /** An extended header, `hash` left at zero. */
  datatype Header = Header(kind: nat, version: nat, flags: nat, timestamp: nat, size: nat, props: seq<Byte>, seed: seq<nat>)

  ghost predicate HeaderOK(h: Header) {
    && h.kind < WORD && h.version < WORD && h.flags < WORD && h.timestamp < WORD && h.size < WORD
    && |h.props| == 8 && |h.seed| == 4 && forall i :: 0 <= i < 4 ==> h.seed[i] < WORD * WORD
  }

  function SeedW(v: nat): seq<Byte> { LE(v, 8) }

  function SeedR(b: seq<Byte>, pos: nat): Parsed<nat> {
    if pos + 8 > |b| then Overrun else Ok(ReadAt(b, pos, 8), pos + 8)
  }

  function HeaderW(h: Header): seq<Byte> {
    LE(h.kind, 4) + LE(h.version, 4) + LE(h.flags, 4) + LE(h.timestamp, 4) + LE(h.size, 4) + LE(0, 4) + h.props
    + LE(CURRENT_VERSION, 8) + WriteAll(SeedW, h.seed)
  }

  function HeaderR(b: seq<Byte>, pos: nat): Parsed<Header> {
    if pos + HEADER_SIZE > |b| then Overrun
    else
      match ReadMany(SeedR, b, pos + 40, 4)
      case Overrun => Overrun
      case Ok(seed, p) =>
        Ok(Header(ReadAt(b, pos, 4), ReadAt(b, pos + 4, 4), ReadAt(b, pos + 8, 4), ReadAt(b, pos + 12, 4), ReadAt(b, pos + 16, 4),
                  b[pos + 24..pos + 32], seed), p)
  }

  lemma SeedsRecover(seed: seq<nat>, b: seq<Byte>, pos: nat)
    requires |seed| == 4 && (forall i :: 0 <= i < 4 ==> seed[i] < WORD * WORD) && Holds(b, pos, WriteAll(SeedW, seed))
    ensures ReadMany(SeedR, b, pos, 4) == Ok(seed, pos + 32) && |WriteAll(SeedW, seed)| == 32
  {
    Widths();
    forall i | 0 <= i < 4 ensures Recovers(SeedW, SeedR, seed[i]) {
      forall b: seq<Byte>, pos: nat | Holds(b, pos, SeedW(seed[i])) ensures SeedR(b, pos) == Ok(seed[i], pos + 8) {
        ReadHeld(b, pos, seed[i], 8);
      }
    }
    ManyRecover(SeedW, SeedR, seed, b, pos);
    WidthAll(SeedW, seed, 8);
  }

  lemma HeaderRecovers(h: Header, b: seq<Byte>, pos: nat)
    requires HeaderOK(h) && Holds(b, pos, HeaderW(h))
    ensures HeaderR(b, pos) == Ok(h, pos + HEADER_SIZE) && |HeaderW(h)| == HEADER_SIZE
  {
    hide Holds, WriteAll, ReadMany, LE, ReadAt;
    var a1 := LE(h.kind, 4);
    var a2 := a1 + LE(h.version, 4);
    var a3 := a2 + LE(h.flags, 4);
    var a4 := a3 + LE(h.timestamp, 4);
    var a5 := a4 + LE(h.size, 4);
    var a6 := a5 + LE(0, 4);
    var a7 := a6 + h.props;
    var a8 := a7 + LE(CURRENT_VERSION, 8);
    HoldsSplit(b, pos, a8, WriteAll(SeedW, h.seed));
    HoldsSplit(b, pos, a7, LE(CURRENT_VERSION, 8));
    HoldsSplit(b, pos, a6, h.props);
    HoldsSplit(b, pos, a5, LE(0, 4));
    HoldsSplit(b, pos, a4, LE(h.size, 4));
    HoldsSplit(b, pos, a3, LE(h.timestamp, 4));
    HoldsSplit(b, pos, a2, LE(h.flags, 4));
    HoldsSplit(b, pos, a1, LE(h.version, 4));
    NumberHeld(b, pos, h.kind, 4);
    NumberHeld(b, pos + 4, h.version, 4);
    NumberHeld(b, pos + 8, h.flags, 4);
    NumberHeld(b, pos + 12, h.timestamp, 4);
    NumberHeld(b, pos + 16, h.size, 4);
    HeldSlice(b, pos + 24, h.props);
    SeedsRecover(h.seed, b, pos + 40);
  }
}
