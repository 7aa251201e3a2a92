/** Deck legality (Context::CheckDeck): sizes, legends, and copies counted per
  * alias class by folding a code map in place while it is iterated. */
module Deck {
  import opened Options

  /** What the card database says of a code; zero for codes it does not have. */
  datatype CardData = CardData(alias: nat, types: set<nat>, scope: nat)

  type Database = map<nat, CardData>

  function Data(cdb: Database, code: nat): CardData {
    if code in cdb then cdb[code] else CardData(0, {}, 0)
  }

  // Bit numbers of the type and scope words.
  const MONSTER := 0
  const SPELL := 1
  const TRAP := 2
  const SKILL := 27

  const CODES: nat := 0x1_0000_0000

  datatype Deck = Deck(main: seq<nat>, extra: seq<nat>, side: seq<nat>, error: nat)
  {
    function All(): seq<nat> { main + extra + side }
  }

  ghost predicate CodesOK(d: Deck) {
    forall i :: 0 <= i < |d.All()| ==> d.All()[i] < CODES
  }

  // ------------------------------------------------------------------ aliases

  /** The card a code is an alternative artwork of, or the card itself. */
  function Class(cdb: Database, code: nat): nat {
    if Data(cdb, code).alias != 0 then Data(cdb, code).alias else code
  }

  /** What a code counts as when those below `k` have been folded. */
  function FoldedTo(cdb: Database, code: nat, k: nat): nat {
    if code < k then Class(cdb, code) else code
  }

  /** The codes as they count when those below `k` have been folded. */
  function Mapped(cdb: Database, codes: seq<nat>, k: nat): (r: seq<nat>)
    ensures |r| == |codes|
  {
    seq(|codes|, i requires 0 <= i < |codes| => FoldedTo(cdb, codes[i], k))
  }

  /** An alias is not itself an alias of something else. */
  ghost predicate Flat(cdb: Database, codes: seq<nat>) {
    forall i :: 0 <= i < |codes| && Data(cdb, codes[i]).alias != 0 ==> Data(cdb, Data(cdb, codes[i]).alias).alias == 0
  }

  function CopiesIn(m: map<nat, nat>, code: nat): nat {
    if code in m then m[code] else 0
  }

  /** The map counts what the sequence holds. */
  ghost predicate Counts(m: map<nat, nat>, codes: seq<nat>) {
    forall c :: CopiesIn(m, c) == multiset(codes)[c]
  }

  /** Copies of a card, whichever artwork. */
  ghost function Copies(cdb: Database, codes: seq<nat>, c: nat): nat {
    multiset(Mapped(cdb, codes, CODES))[c]
  }

  lemma MappedCons(cdb: Database, codes: seq<nat>, k: nat)
    requires codes != []
    ensures Mapped(cdb, codes, k) == [FoldedTo(cdb, codes[0], k)] + Mapped(cdb, codes[1..], k)
  {
  }

  /** Folding one aliased code moves its copies to the card it stands for. */
  lemma {:induction false} FoldOne(cdb: Database, codes: seq<nat>, code: nat)
    requires Flat(cdb, codes) && Data(cdb, code).alias != 0 && Data(cdb, Data(cdb, code).alias).alias == 0
    ensures var was, now, a := multiset(Mapped(cdb, codes, code)), multiset(Mapped(cdb, codes, code + 1)), Data(cdb, code).alias;
            && now[code] == 0 && now[a] == was[a] + was[code]
            && forall c :: c != code && c != a ==> now[c] == was[c]
    decreases |codes|
  {
    hide *;
    if codes == [] {
      NothingMapped(cdb, code);
      NothingMapped(cdb, code + 1);
    } else {
      FlatRest(cdb, codes);
      FoldOne(cdb, codes[1..], code);
      MappedCons(cdb, codes, code);
      MappedCons(cdb, codes, code + 1);
      HeadFolds(cdb, codes, code);
      CountCons(FoldedTo(cdb, codes[0], code), Mapped(cdb, codes[1..], code));
      CountCons(FoldedTo(cdb, codes[0], code + 1), Mapped(cdb, codes[1..], code + 1));
    }
  }

  lemma NothingMapped(cdb: Database, k: nat)
    ensures Mapped(cdb, [], k) == []
  {
  }

  lemma FlatRest(cdb: Database, codes: seq<nat>)
    requires Flat(cdb, codes) && codes != []
    ensures Flat(cdb, codes[1..])
  {
  }

  /** Folding a code changes that code and no other, and nothing into it. */
  lemma HeadFolds(cdb: Database, codes: seq<nat>, code: nat)
    requires Flat(cdb, codes) && codes != [] && Data(cdb, code).alias != 0
    ensures var x := codes[0];
            && FoldedTo(cdb, x, code + 1) != code
            && (if x == code then FoldedTo(cdb, x, code) == code && FoldedTo(cdb, x, code + 1) == Data(cdb, code).alias
                else FoldedTo(cdb, x, code + 1) == FoldedTo(cdb, x, code))
  {
  }

  lemma CountCons(x: nat, s: seq<nat>)
    ensures forall c :: multiset([x] + s)[c] == multiset(s)[c] + if c == x then 1 else 0
  {
  }

  /** Codes that stand for themselves, or that nobody has, change nothing. */
  lemma FoldNone(cdb: Database, codes: seq<nat>, k: nat, k': nat)
    requires k <= k'
    requires forall i :: 0 <= i < |codes| && k <= codes[i] < k' ==> Data(cdb, codes[i]).alias == 0
    ensures Mapped(cdb, codes, k) == Mapped(cdb, codes, k')
  {
  }

  lemma MappedNone(cdb: Database, codes: seq<nat>)
    ensures Mapped(cdb, codes, 0) == codes
  {
  }

  /** All copies are accounted for: the fold loses none and adds none. */
  lemma CopiesConserved(cdb: Database, codes: seq<nat>)
    ensures |multiset(Mapped(cdb, codes, CODES))| == |codes|
  {
  }

  // ----------------------------------------------------------------- the maps

  /** `GetCodeMap`. */
  method GetCodeMap(d: Deck) returns (m: map<nat, nat>)
    ensures Counts(m, d.All()) && m.Keys == set c | c in d.All()
  {
    m := map[];
    var all := d.All(); // main, then extra, then side
    for i := 0 to |all|
      invariant Counts(m, all[..i]) && m.Keys == set c | c in all[..i]
    {
      assert all[..i + 1] == all[..i] + [all[i]];
      m := m[all[i] := CopiesIn(m, all[i]) + 1];
    }
    assert all[..|all|] == all;
  }

  /** A directly listed code of a legal deck respects its banlist entry, with
    * all its artworks counted. */
  lemma LegalRespectsBanlist(cdb: Database, r: Rules, d: Deck, code: nat)
    requires Legal(cdb, r, d) && !r.dontCheckContent && r.banlist.Some? && code in d.All() && code in r.banlist.value.dict
    ensures Copies(cdb, d.All(), Class(cdb, code)) <= r.banlist.value.dict[code]
  {
    assert CodeLegal(cdb, r, d, code);
  }

  /** The next entry of an ordered map, from a key on. */
  method LowerBound(m: map<nat, nat>, k: nat) returns (r: Option<nat>)
    ensures r.None? ==> forall c :: c in m ==> c < k
    ensures r.Some? ==> r.value in m && r.value >= k && forall c :: c in m && c >= k ==> r.value <= c
  {
    var rest := m.Keys;
    r := None;
    while rest != {}
      invariant rest <= m.Keys
      invariant r.None? ==> forall c :: c in m && c !in rest ==> c < k
      invariant r.Some? ==> r.value in m && r.value >= k && forall c :: c in m && c !in rest && c >= k ==> r.value <= c
      decreases |rest|
    {
      var c :| c in rest;
      rest := rest - {c};
      if c >= k && (r.None? || c < r.value) {
        r := Some(c);
      }
    }
  }

  /** The fold has passed the keys below `k`. */
  ghost predicate Folding(cdb: Database, codes: seq<nat>, aliased: map<nat, nat>, aliases: map<nat, nat>, k: nat) {
    && Counts(aliased, Mapped(cdb, codes, k)) && k <= CODES
    && (forall c :: c in aliases <==> c in codes && c < k && Data(cdb, c).alias != 0)
    && (forall c :: c in aliases ==> aliases[c] == Data(cdb, c).alias)
    && (forall c :: c in aliased ==> c < CODES && (c in codes || Data(cdb, c).alias == 0))
    && (forall c :: c in codes && c >= k ==> c in aliased)
  }

  ghost predicate WordsOK(cdb: Database, codes: seq<nat>) {
    (forall c :: c in codes ==> c < CODES) && forall c :: Data(cdb, c).alias < CODES
  }

  /** No key between `k` and `code`: the iterator stands at `code`. */
  ghost predicate IteratorAt(m: map<nat, nat>, k: nat, code: nat) {
    code in m && k <= code && forall c :: c in m && c >= k ==> code <= c
  }

  /** The entry of an aliased code is added to that of its alias, and erased. */
  function Erased(cdb: Database, m: map<nat, nat>, code: nat): map<nat, nat>
    requires code in m
  {
    m[Data(cdb, code).alias := CopiesIn(m, Data(cdb, code).alias) + m[code]] - {code}
  }

  /** Why alias tables must be flat: of a chain `a` to `b` to `c`, all copies end
    * at `c` only when `a` comes before `b`; otherwise those of `a` stay at `b`,
    * whose entry has already been passed. */
  lemma ChainsDependOnOrder(cdb: Database, a: nat, b: nat, c: nat, x: nat, y: nat)
    requires a != b && b != c && a != c && Data(cdb, a).alias == b && Data(cdb, b).alias == c
    ensures Erased(cdb, Erased(cdb, map[a := x, b := y], a), b) == map[c := x + y]
    ensures Erased(cdb, Erased(cdb, map[a := x, b := y], b), a) == map[b := x, c := y]
  {
  }

  lemma FoldingErases(cdb: Database, codes: seq<nat>, aliased: map<nat, nat>, aliases: map<nat, nat>, k: nat, code: nat)
    requires Flat(cdb, codes) && WordsOK(cdb, codes) && Folding(cdb, codes, aliased, aliases, k) && IteratorAt(aliased, k, code)
    requires Data(cdb, code).alias != 0
    ensures Folding(cdb, codes, Erased(cdb, aliased, code), aliases[code := Data(cdb, code).alias], code + 1)
  {
    hide Mapped;
    NobodyBetween(cdb, codes, k, code);
    FlatAt(cdb, codes, code);
    FoldOne(cdb, codes, code);
  }

  lemma FlatAt(cdb: Database, codes: seq<nat>, code: nat)
    requires Flat(cdb, codes) && code in codes && Data(cdb, code).alias != 0
    ensures Data(cdb, Data(cdb, code).alias).alias == 0
  {
  }

  lemma FoldingKeeps(cdb: Database, codes: seq<nat>, aliased: map<nat, nat>, aliases: map<nat, nat>, k: nat, code: nat)
    requires WordsOK(cdb, codes) && Folding(cdb, codes, aliased, aliases, k) && IteratorAt(aliased, k, code)
    requires Data(cdb, code).alias == 0
    ensures Folding(cdb, codes, aliased, aliases, code + 1)
  {
    hide Mapped;
    NobodyBetween(cdb, codes, k, code);
    FoldNone(cdb, codes, code, code + 1);
  }

  lemma FoldingEnds(cdb: Database, codes: seq<nat>, aliased: map<nat, nat>, aliases: map<nat, nat>, k: nat)
    requires WordsOK(cdb, codes) && Folding(cdb, codes, aliased, aliases, k) && forall c :: c in aliased ==> c < k
    ensures Folding(cdb, codes, aliased, aliases, CODES)
  {
    hide Mapped;
    NobodyBetween(cdb, codes, k, CODES);
  }

  lemma FoldingStarts(cdb: Database, codes: seq<nat>, counts: map<nat, nat>)
    requires WordsOK(cdb, codes) && Counts(counts, codes) && counts.Keys == set c | c in codes
    ensures Folding(cdb, codes, counts, map[], 0) && forall code :: code in counts ==> code >= 0
  {
    MappedNone(cdb, codes);
  }

  lemma KeysBelow(cdb: Database, codes: seq<nat>, aliased: map<nat, nat>, aliases: map<nat, nat>, k: nat)
    requires Folding(cdb, codes, aliased, aliases, k)
    ensures k <= CODES && forall c :: c in aliased ==> c < CODES
  {
  }

  /** The fold over the ordered code map: every aliased entry is added to the
    * entry of the card it stands for and erased, while the iterator goes on. */
  method FoldAliases(cdb: Database, counts: map<nat, nat>, ghost codes: seq<nat>)
    returns (aliased: map<nat, nat>, aliases: map<nat, nat>)
    requires Flat(cdb, codes) && WordsOK(cdb, codes) && Counts(counts, codes) && counts.Keys == set c | c in codes
    ensures Folding(cdb, codes, aliased, aliases, CODES)
  {
    hide Folding, Mapped, Flat, Counts, WordsOK, Data;
    aliased, aliases := counts, map[];
    ghost var k := 0;
    FoldingStarts(cdb, codes, counts);
    var it := LowerBound(aliased, 0);
    while it.Some?
      invariant Folding(cdb, codes, aliased, aliases, k)
      invariant it.None? ==> forall c :: c in aliased ==> c < k
      invariant it.Some? ==> IteratorAt(aliased, k, it.value)
      decreases CODES - k, it.Some?
    {
      KeysBelow(cdb, codes, aliased, aliases, k);
      var code := it.value;
      var alias := Data(cdb, code).alias;
      if alias != 0 {
        FoldingErases(cdb, codes, aliased, aliases, k, code);
        aliases := aliases[code := alias];
        aliased := aliased[alias := CopiesIn(aliased, alias) + aliased[code]];
        aliased := aliased - {code};
      } else {
        FoldingKeeps(cdb, codes, aliased, aliases, k, code);
      }
      k := code + 1;
      it := LowerBound(aliased, code + 1);
    }
    FoldingEnds(cdb, codes, aliased, aliases, k);
  }

  lemma NobodyBetween(cdb: Database, codes: seq<nat>, k: nat, code: nat)
    requires k <= code && forall c :: c in codes && c >= k ==> code <= c
    ensures Mapped(cdb, codes, k) == Mapped(cdb, codes, code)
  {
    assert forall i :: 0 <= i < |codes| ==> codes[i] in codes;
    FoldNone(cdb, codes, k, code);
  }

  /** `GetTotalCount`: the copies of a card, whichever artwork was listed. */
  method GetTotalCount(aliased: map<nat, nat>, aliases: map<nat, nat>, code: nat, ghost cdb: Database, ghost codes: seq<nat>)
    returns (n: nat)
    requires Folding(cdb, codes, aliased, aliases, CODES) && WordsOK(cdb, codes) && code in codes
    ensures n == Copies(cdb, codes, Class(cdb, code))
  {
    if code in aliases {
      n := CopiesIn(aliased, aliases[code]);
    } else {
      n := CopiesIn(aliased, code);
    }
  }

  // ------------------------------------------------------------ what is legal

  datatype Limit = Limit(min: nat, max: nat)

  datatype Allowed = OcgOnly | TcgOnly | OcgTcg | WithPrerelease | Any

  datatype Banlist = Banlist(whitelist: bool, dict: map<nat, int>)

  datatype Rules = Rules(main: Limit, extra: Limit, side: Limit, dontCheckContent: bool, forb: set<nat>,
                         allowed: Allowed, banlist: Option<Banlist>)

  predicate Within(l: Limit, n: nat) { l.min <= n <= l.max }

  predicate HasBit(x: nat, b: nat)
    requires b > 0
  {
    (x / b) % 2 == 1
  }

  predicate IsOcg(scope: nat) { HasBit(scope, 0x1) }
  predicate IsTcg(scope: nat) { HasBit(scope, 0x2) }
  predicate IsPrerelease(scope: nat) { HasBit(scope, 0x100) }
  predicate IsLegend(scope: nat) { HasBit(scope, 0x400) }

  /** Any bit besides OCG, TCG and pre-release. */
  predicate IsUnofficial(scope: nat) { (scope / 4) % 64 != 0 || scope / 0x200 != 0 }

  predicate ScopeAllowed(scope: nat, allowed: Allowed) {
    match allowed
    case OcgOnly => scope <= 3 && IsOcg(scope)
    case TcgOnly => scope <= 3 && IsTcg(scope)
    case OcgTcg => scope <= 3
    case WithPrerelease => !IsUnofficial(scope) && (IsOcg(scope) || IsTcg(scope) || IsPrerelease(scope))
    case Any => true
  }

  /** Less than ten away, on 32-bit words. */
  predicate IsInArtworkRange(code: nat, alias: nat) {
    alias != 0 && ((alias - code) % CODES < 10 || (code - alias) % CODES < 10)
  }

  /** The banlist entry for a code: its own, or that of the card it stands for
    * where the list lets that count. */
  function Entry(cdb: Database, b: Banlist, code: nat): Option<int> {
    if code in b.dict then Some(b.dict[code])
    else if Data(cdb, code).alias != 0 && (!b.whitelist || IsInArtworkRange(code, Data(cdb, code).alias))
            && Data(cdb, code).alias in b.dict then Some(b.dict[Data(cdb, code).alias])
    else None
  }

  predicate BanlistAllows(cdb: Database, b: Banlist, code: nat, copies: nat) {
    match Entry(cdb, b, code)
    case Some(n) => copies <= n
    case None => !b.whitelist
  }

  function SkillsIn(cdb: Database, codes: seq<nat>): (n: nat)
    ensures n <= |codes|
  {
    if codes == [] then 0
    else SkillsIn(cdb, codes[..|codes| - 1]) + if SKILL in Data(cdb, codes[|codes| - 1]).types then 1 else 0
  }

  /** Monster, spell or trap: the kinds of which there is one legend each. */
  function Kinds(cdb: Database, code: nat): set<nat> {
    Data(cdb, code).types * {MONSTER, SPELL, TRAP}
  }

  ghost predicate OneLegendEach(cdb: Database, codes: seq<nat>) {
    forall i, j :: 0 <= i < j < |codes| && IsLegend(Data(cdb, codes[i]).scope) && IsLegend(Data(cdb, codes[j]).scope) ==>
                     Kinds(cdb, codes[i]) !! Kinds(cdb, codes[j])
  }

  ghost predicate SizesLegal(cdb: Database, r: Rules, d: Deck) {
    Within(r.main, |d.main| - SkillsIn(cdb, d.main)) && Within(r.extra, |d.extra|) && Within(r.side, |d.side|)
  }

  ghost predicate CodeLegal(cdb: Database, r: Rules, d: Deck, code: nat) {
    var copies := Copies(cdb, d.All(), Class(cdb, code));
    && copies <= 3
    && ScopeAllowed(Data(cdb, code).scope, r.allowed)
    && (r.banlist.Some? ==> BanlistAllows(cdb, r.banlist.value, code, copies))
  }

  ghost predicate ContentLegal(cdb: Database, r: Rules, d: Deck) {
    && SkillsIn(cdb, d.main) <= 1
    && OneLegendEach(cdb, d.main + d.extra)
    && (forall code :: code in d.All() ==> Data(cdb, code).types !! r.forb)
    && (forall code :: code in d.All() ==> CodeLegal(cdb, r, d, code))
  }

  ghost predicate Legal(cdb: Database, r: Rules, d: Deck) {
    d.error == 0 && SizesLegal(cdb, r, d) && (r.dontCheckContent || ContentLegal(cdb, r, d))
  }

  datatype DeckError =
    | CardUnknown(code: nat)
    | BadMainCount(got: nat)
    | BadExtraCount(got: nat)
    | BadSideCount(got: nat)
    | TooManySkills
    | TooManyLegends
    | ForbiddenType
    | CardMoreThan3(code: nat)
    | CardUnofficial(code: nat)
    | CardTcgOnly(code: nat)
    | CardOcgOnly(code: nat)
    | CardBanlisted(code: nat)

  /** An error tells the truth about the deck. */
  ghost predicate Justified(cdb: Database, r: Rules, d: Deck, e: DeckError) {
    match e
    case CardUnknown(code) => code == d.error != 0
    case BadMainCount(got) => got == |d.main| - SkillsIn(cdb, d.main) && !Within(r.main, got)
    case BadExtraCount(got) => got == |d.extra| && !Within(r.extra, got)
    case BadSideCount(got) => got == |d.side| && !Within(r.side, got)
    case TooManySkills => SkillsIn(cdb, d.main) > 1
    case TooManyLegends => !OneLegendEach(cdb, d.main + d.extra)
    case ForbiddenType => exists code :: code in d.All() && !(Data(cdb, code).types !! r.forb)
    case CardMoreThan3(code) => code in d.All() && Copies(cdb, d.All(), Class(cdb, code)) > 3
    case CardUnofficial(code) => code in d.All() && !ScopeAllowed(Data(cdb, code).scope, r.allowed)
    case CardTcgOnly(code) => code in d.All() && r.allowed == OcgOnly && !IsOcg(Data(cdb, code).scope)
    case CardOcgOnly(code) => code in d.All() && r.allowed == TcgOnly && !IsTcg(Data(cdb, code).scope)
    case CardBanlisted(code) =>
      && code in d.All() && r.banlist.Some?
      && !BanlistAllows(cdb, r.banlist.value, code, Copies(cdb, d.All(), Class(cdb, code)))
  }

  // ---------------------------------------------------------------- the check

  method CountSkills(cdb: Database, codes: seq<nat>) returns (count: nat)
    ensures count == SkillsIn(cdb, codes)
  {
    count := 0;
    for i := 0 to |codes|
      invariant count == SkillsIn(cdb, codes[..i])
    {
      assert codes[..i + 1][..i] == codes[..i];
      if SKILL in Data(cdb, codes[i]).types {
        count := count + 1;
      }
    }
    assert codes[..|codes|] == codes;
  }

  ghost function LegendKindsOf(cdb: Database, code: nat): set<nat> {
    if IsLegend(Data(cdb, code).scope) then Kinds(cdb, code) else {}
  }

  ghost function LegendKinds(cdb: Database, codes: seq<nat>): set<nat> {
    if codes == [] then {}
    else LegendKinds(cdb, codes[..|codes| - 1]) + LegendKindsOf(cdb, codes[|codes| - 1])
  }

  lemma {:induction false} LegendKindsAre(cdb: Database, codes: seq<nat>, k: nat)
    ensures k in LegendKinds(cdb, codes) <==>
              exists i :: 0 <= i < |codes| && IsLegend(Data(cdb, codes[i]).scope) && k in Kinds(cdb, codes[i])
    decreases |codes|
  {
    if codes != [] {
      var front, last := codes[..|codes| - 1], codes[|codes| - 1];
      LegendKindsAre(cdb, front, k);
      if i :| 0 <= i < |codes| && IsLegend(Data(cdb, codes[i]).scope) && k in Kinds(cdb, codes[i]) {
        if i < |front| {
          assert front[i] == codes[i];
        }
      }
      if i :| 0 <= i < |front| && IsLegend(Data(cdb, front[i]).scope) && k in Kinds(cdb, front[i]) {
        assert codes[i] == front[i];
      }
    }
  }

  lemma OneMore(cdb: Database, codes: seq<nat>, c: nat)
    requires OneLegendEach(cdb, codes)
    ensures OneLegendEach(cdb, codes + [c]) <==>
              !IsLegend(Data(cdb, c).scope) || Kinds(cdb, c) !! LegendKinds(cdb, codes)
  {
    var all := codes + [c];
    forall k ensures k in LegendKinds(cdb, codes) <==>
        exists i :: 0 <= i < |codes| && IsLegend(Data(cdb, codes[i]).scope) && k in Kinds(cdb, codes[i]) {
      LegendKindsAre(cdb, codes, k);
    }
    if IsLegend(Data(cdb, c).scope) && !(Kinds(cdb, c) !! LegendKinds(cdb, codes)) {
      var k :| k in Kinds(cdb, c) && k in LegendKinds(cdb, codes);
      var i :| 0 <= i < |codes| && IsLegend(Data(cdb, codes[i]).scope) && k in Kinds(cdb, codes[i]);
      assert all[i] == codes[i] && all[|codes|] == c;
    }
  }

  lemma PrefixLegends(cdb: Database, codes: seq<nat>, more: seq<nat>)
    ensures OneLegendEach(cdb, codes + more) ==> OneLegendEach(cdb, codes)
  {
    if OneLegendEach(cdb, codes + more) {
      forall i, j | 0 <= i < j < |codes| && IsLegend(Data(cdb, codes[i]).scope) && IsLegend(Data(cdb, codes[j]).scope)
        ensures Kinds(cdb, codes[i]) !! Kinds(cdb, codes[j]) {
        assert (codes + more)[i] == codes[i] && (codes + more)[j] == codes[j];
      }
    }
  }

  /** The next card of a pile either clashes with a legend before it, or is
    * counted in. */
  lemma NextLegend(cdb: Database, before: seq<nat>, pile: seq<nat>, i: nat)
    requires i < |pile| && OneLegendEach(cdb, before + pile[..i])
    ensures var code, kinds := pile[i], LegendKinds(cdb, before + pile[..i]);
            if IsLegend(Data(cdb, code).scope) && !(Kinds(cdb, code) !! kinds) then !OneLegendEach(cdb, before + pile)
            else OneLegendEach(cdb, before + pile[..i + 1])
                 && LegendKinds(cdb, before + pile[..i + 1])
                    == if IsLegend(Data(cdb, code).scope) then kinds + Kinds(cdb, code) else kinds
  {
    hide IsLegend, Kinds, Data, OneLegendEach, LegendKinds;
    var code := pile[i];
    var seen := before + pile[..i];
    assert before + pile[..i + 1] == seen + [code];
    assert before + pile == (seen + [code]) + pile[i + 1..];
    OneMore(cdb, seen, code);
    PrefixLegends(cdb, seen + [code], pile[i + 1..]);
    LegendKindsSnoc(cdb, seen, code);
  }

  lemma LegendKindsSnoc(cdb: Database, codes: seq<nat>, c: nat)
    ensures LegendKinds(cdb, codes + [c])
         == LegendKinds(cdb, codes) + if IsLegend(Data(cdb, c).scope) then Kinds(cdb, c) else {}
  {
    assert (codes + [c])[..|codes|] == codes;
  }

  /** One pile of `CheckLegends`, after others. */
  method CheckLegends(cdb: Database, pile: seq<nat>, ghost before: seq<nat>, current: set<nat>)
    returns (ok: bool, now: set<nat>)
    requires current == LegendKinds(cdb, before) && OneLegendEach(cdb, before)
    ensures ok <==> OneLegendEach(cdb, before + pile)
    ensures ok ==> now == LegendKinds(cdb, before + pile)
  {
    hide *;
    now := current;
    assert before + pile[..0] == before;
    for i := 0 to |pile|
      invariant now == LegendKinds(cdb, before + pile[..i]) && OneLegendEach(cdb, before + pile[..i])
    {
      var code := pile[i];
      NextLegend(cdb, before, pile, i);
      if IsLegend(Data(cdb, code).scope) {
        if !(Kinds(cdb, code) !! now) {
          return false, now;
        }
        now := now + Kinds(cdb, code);
      }
    }
    assert pile[..|pile|] == pile;
    return true, now;
  }

  method CheckSizes(cdb: Database, r: Rules, d: Deck) returns (e: Option<DeckError>)
    ensures e.None? <==> d.error == 0 && SizesLegal(cdb, r, d)
    ensures e.Some? ==> Justified(cdb, r, d, e.value)
  {
    if d.error != 0 {
      return Some(CardUnknown(d.error));
    }
    var skills := CountSkills(cdb, d.main);
    if !Within(r.main, |d.main| - skills) {
      return Some(BadMainCount(|d.main| - skills));
    }
    if !Within(r.extra, |d.extra|) {
      return Some(BadExtraCount(|d.extra|));
    }
    if !Within(r.side, |d.side|) {
      return Some(BadSideCount(|d.side|));
    }
    return None;
  }

  method CheckBanlist(cdb: Database, code: nat, count: nat, bl: Banlist) returns (banned: bool)
    ensures banned <==> !BanlistAllows(cdb, bl, code, count)
  {
    var it := code;
    var found := it in bl.dict;
    var alias := Data(cdb, code).alias;
    if !found && alias != 0 && (!bl.whitelist || IsInArtworkRange(code, alias)) {
      it := alias;
      found := it in bl.dict;
    }
    banned := (found && count > bl.dict[it]) || (!found && bl.whitelist);
  }

  method CheckCode(cdb: Database, r: Rules, code: nat, totalCount: nat, ghost d: Deck) returns (e: Option<DeckError>)
    requires code in d.All() && totalCount == Copies(cdb, d.All(), Class(cdb, code))
    ensures e.None? <==> CodeLegal(cdb, r, d, code)
    ensures e.Some? ==> Justified(cdb, r, d, e.value)
  {
    if totalCount > 3 {
      return Some(CardMoreThan3(code));
    }
    var scope := Data(cdb, code).scope;
    if (r.allowed.OcgOnly? || r.allowed.TcgOnly? || r.allowed.OcgTcg?) && scope > 3 {
      return Some(CardUnofficial(code));
    }
    if r.allowed.WithPrerelease? && IsUnofficial(scope) {
      return Some(CardUnofficial(code));
    }
    if r.allowed.WithPrerelease? && !IsOcg(scope) && !IsTcg(scope) && !IsPrerelease(scope) {
      return Some(CardUnofficial(code));
    }
    if r.allowed.OcgOnly? && !IsOcg(scope) {
      return Some(CardTcgOnly(code));
    }
    if r.allowed.TcgOnly? && !IsTcg(scope) {
      return Some(CardOcgOnly(code));
    }
    if r.banlist.Some? {
      var banned := CheckBanlist(cdb, code, totalCount, r.banlist.value);
      if banned {
        return Some(CardBanlisted(code));
      }
    }
    return None;
  }

  /** `CheckDeck`: no error exactly for the legal decks, and every error is
    * justified. */
  method CheckDeck(cdb: Database, r: Rules, d: Deck) returns (e: Option<DeckError>)
    requires Flat(cdb, d.All()) && WordsOK(cdb, d.All())
    ensures e.None? <==> Legal(cdb, r, d)
    ensures e.Some? ==> Justified(cdb, r, d, e.value)
  {
    hide SizesLegal, ContentLegal, Justified, Flat, WordsOK;
    e := CheckSizes(cdb, r, d);
    if e.Some? || r.dontCheckContent {
      return;
    }
    e := CheckContent(cdb, r, d);
  }

  method CheckContent(cdb: Database, r: Rules, d: Deck) returns (e: Option<DeckError>)
    requires Flat(cdb, d.All()) && WordsOK(cdb, d.All())
    ensures e.None? <==> ContentLegal(cdb, r, d)
    ensures e.Some? ==> Justified(cdb, r, d, e.value)
  {
    hide CodeLegal, OneLegendEach, SkillsIn, LegendKinds, Copies, Flat, WordsOK, BanlistAllows, ScopeAllowed;
    var skills := CountSkills(cdb, d.main);
    if skills > 1 {
      return Some(TooManySkills);
    }
    NoLegends(cdb);
    var ok, kinds := CheckLegends(cdb, d.main, [], {});
    assert [] + d.main == d.main;
    PrefixLegends(cdb, d.main, d.extra);
    if ok {
      ok, kinds := CheckLegends(cdb, d.extra, d.main, kinds);
    }
    if !ok {
      return Some(TooManyLegends);
    }
    e := CheckCodes(cdb, r, d);
  }

  lemma NoLegends(cdb: Database)
    ensures LegendKinds(cdb, []) == {} && OneLegendEach(cdb, [])
  {
  }

  /** The part of the check that looks at every listed code. */
  method CheckCodes(cdb: Database, r: Rules, d: Deck) returns (e: Option<DeckError>)
    requires Flat(cdb, d.All()) && WordsOK(cdb, d.All())
    ensures e.None? <==> (forall code :: code in d.All() ==> Data(cdb, code).types !! r.forb)
                         && (forall code :: code in d.All() ==> CodeLegal(cdb, r, d, code))
    ensures e.Some? ==> Justified(cdb, r, d, e.value)
  {
    var counts := GetCodeMap(d);
    var forbidden := HasForbidden(cdb, r, counts.Keys);
    if forbidden {
      return Some(ForbiddenType);
    }
    var aliased, aliases := FoldAliases(cdb, counts, d.All());
    e := CheckCopies(cdb, r, counts.Keys, aliased, aliases, d);
  }

  method HasForbidden(cdb: Database, r: Rules, codes: set<nat>) returns (b: bool)
    ensures b <==> exists c :: c in codes && !(Data(cdb, c).types !! r.forb)
  {
    var rest := codes;
    while rest != {}
      invariant rest <= codes && forall c :: c in codes && c !in rest ==> Data(cdb, c).types !! r.forb
      decreases |rest|
    {
      var c :| c in rest;
      rest := rest - {c};
      if !(Data(cdb, c).types !! r.forb) {
        return true;
      }
    }
    return false;
  }

  method CheckCopies(cdb: Database, r: Rules, codes: set<nat>, aliased: map<nat, nat>, aliases: map<nat, nat>, ghost d: Deck)
    returns (e: Option<DeckError>)
    requires WordsOK(cdb, d.All()) && Folding(cdb, d.All(), aliased, aliases, CODES)
    requires forall c :: c in codes ==> c in d.All()
    ensures e.None? <==> forall c :: c in codes ==> CodeLegal(cdb, r, d, c)
    ensures e.Some? ==> Justified(cdb, r, d, e.value)
  {
    var rest := codes;
    while rest != {}
      invariant rest <= codes && forall c :: c in codes && c !in rest ==> CodeLegal(cdb, r, d, c)
      decreases |rest|
    {
      hide CodeLegal, Justified, WordsOK, Folding, Copies;
      var c :| c in rest;
      rest := rest - {c};
      var total := GetTotalCount(aliased, aliases, c, cdb, d.All());
      e := CheckCode(cdb, r, c, total, d);
      if e.Some? {
        return;
      }
    }
    return None;
  }
}
