/** What makes a deck legal, in plain numbers: places in the deck, bits and codes
  * of the card database, and the entries of the banlist. */
module DeckRules {
  import opened Options
  import opened Deck

  /** The code of the card, whichever artwork. */
  function CardOf(cdb: Database, code: nat): nat {
    if code in cdb && cdb[code].alias != 0 then cdb[code].alias else code
  }

  /** The places in a pile whose cards have a type (monster 0, spell 1, trap 2,
    * skill 27). */
  function OfType(cdb: Database, pile: seq<nat>, t: nat): set<nat> {
    set i: nat | i < |pile| && pile[i] in cdb && t in cdb[pile[i]].types
  }

  /** The places of legends (scope 0x400). */
  function Legends(cdb: Database, pile: seq<nat>): set<nat> {
    set i: nat | i < |pile| && pile[i] in cdb && cdb[pile[i]].scope / 1024 % 2 == 1
  }

  /** The places of copies of a card. */
  function CopiesOf(cdb: Database, pile: seq<nat>, card: nat): set<nat> {
    set i: nat | i < |pile| && CardOf(cdb, pile[i]) == card
  }

  /** Cards by where they are out: OCG (1), TCG (2), both (3), and pre-releases
    * (0x100). */
  predicate ScopeIn(scope: nat, allowed: Allowed) {
    match allowed
    case OcgOnly => scope in {1, 3}
    case TcgOnly => scope in {2, 3}
    case OcgTcg => scope in {0, 1, 2, 3}
    case WithPrerelease => scope in {1, 2, 3, 0x100, 0x101, 0x102, 0x103}
    case Any => true
  }

  lemma ScopesByNumbers(scope: nat, allowed: Allowed)
    ensures ScopeAllowed(scope, allowed) <==> ScopeIn(scope, allowed)
  {
    if allowed.WithPrerelease? {
      var q, r := scope / 4, scope % 4;
      assert scope == 4 * q + r;
      assert !IsUnofficial(scope) ==> q < 128 && q % 64 == 0;
    }
  }

  function Further(code: nat, k: nat): nat { (code + k) % 0x1_0000_0000 }

  /** Two codes are those of one card's artworks when fewer than ten steps lead from
    * the one to the other, wrapping around. */
  lemma ArtworksAreNear(code: nat, alias: nat)
    requires code < CODES && alias < CODES
    ensures IsInArtworkRange(code, alias) <==>
              alias != 0 && exists k: nat :: k < 10 && (Further(code, k) == alias || Further(alias, k) == code)
  {
    if (alias - code) % CODES < 10 {
      assert Further(code, (alias - code) % CODES) == alias;
    }
    if (code - alias) % CODES < 10 {
      assert Further(alias, (code - alias) % CODES) == code;
    }
  }

  /** The copies the banlist leaves of a card: those of its own code, or of the card
    * it stands for, on a whitelist only if that is near; without an entry none on
    * a whitelist, and any number else. */
  predicate Listed(cdb: Database, b: Banlist, code: nat, copies: nat) {
    var card := CardOf(cdb, code);
    if code in b.dict then copies <= b.dict[code]
    else if card != code && card in b.dict && (!b.whitelist || IsInArtworkRange(code, card)) then copies <= b.dict[card]
    else !b.whitelist
  }

  lemma BanlistMeans(cdb: Database, b: Banlist, code: nat, copies: nat)
    ensures BanlistAllows(cdb, b, code, copies) <==> Listed(cdb, b, code, copies)
  {
    hide IsInArtworkRange;
  }

  /** A deck that may be played. */
  ghost predicate MayPlay(cdb: Database, r: Rules, d: Deck) {
    && d.error == 0
    && r.main.min <= |d.main| - |OfType(cdb, d.main, 27)| <= r.main.max
    && r.extra.min <= |d.extra| <= r.extra.max && r.side.min <= |d.side| <= r.side.max
    && (r.dontCheckContent || ContentMayBePlayed(cdb, r, d))
  }

  ghost predicate ContentMayBePlayed(cdb: Database, r: Rules, d: Deck) {
    var all := d.main + d.extra + d.side;
    && |OfType(cdb, d.main, 27)| <= 1
    && (forall t :: 0 <= t <= 2 ==> NoTwo(Legends(cdb, d.main + d.extra) * OfType(cdb, d.main + d.extra, t)))
    && (forall code :: code in all ==> NoneOf(cdb, code, r.forb))
    && (forall code :: code in all ==> CodeMayPlay(cdb, r, all, code))
  }

  /** A card of none of some types. */
  predicate NoneOf(cdb: Database, code: nat, types: set<nat>) {
    code in cdb ==> forall t :: t in types ==> t !in cdb[code].types
  }

  ghost predicate NoTwo(places: set<nat>) {
    forall i, j :: i in places && j in places ==> i == j
  }

  predicate CodeMayPlay(cdb: Database, r: Rules, all: seq<nat>, code: nat) {
    && |CopiesOf(cdb, all, CardOf(cdb, code))| <= 3
    && ScopeIn(if code in cdb then cdb[code].scope else 0, r.allowed)
    && (r.banlist.Some? ==> Listed(cdb, r.banlist.value, code, |CopiesOf(cdb, all, CardOf(cdb, code))|))
  }

  lemma {:induction false} SkillsAreCounted(cdb: Database, pile: seq<nat>)
    ensures SkillsIn(cdb, pile) == |OfType(cdb, pile, 27)|
    decreases |pile|
  {
    if pile != [] {
      var n := |pile| - 1;
      SkillsAreCounted(cdb, pile[..n]);
      assert OfType(cdb, pile, 27) == OfType(cdb, pile[..n], 27) + if pile[n] in cdb && 27 in cdb[pile[n]].types then {n} else {};
    }
  }

  lemma {:induction false} CopiesAreCounted(cdb: Database, pile: seq<nat>, card: nat)
    requires forall i :: 0 <= i < |pile| ==> pile[i] < CODES
    ensures Copies(cdb, pile, card) == |CopiesOf(cdb, pile, card)|
    decreases |pile|
  {
    hide Copies, CopiesOf;
    if pile != [] {
      CopiesAreCounted(cdb, pile[..|pile| - 1], card);
      LastCopy(cdb, pile, card);
    } else {
      NoCopies(cdb, card);
    }
  }

  lemma NoCopies(cdb: Database, card: nat)
    ensures Copies(cdb, [], card) == 0 && CopiesOf(cdb, [], card) == {}
  {
    assert Mapped(cdb, [], CODES) == [];
  }

  lemma LastCopy(cdb: Database, pile: seq<nat>, card: nat)
    requires pile != [] && pile[|pile| - 1] < CODES
    ensures var n := |pile| - 1;
            var last := if CardOf(cdb, pile[n]) == card then 1 else 0;
            && Copies(cdb, pile, card) == Copies(cdb, pile[..n], card) + last
            && |CopiesOf(cdb, pile, card)| == |CopiesOf(cdb, pile[..n], card)| + last
  {
    var n := |pile| - 1;
    MappedLast(cdb, pile);
    assert CopiesOf(cdb, pile, card) == CopiesOf(cdb, pile[..n], card) + if CardOf(cdb, pile[n]) == card then {n} else {};
  }

  lemma MappedLast(cdb: Database, pile: seq<nat>)
    requires pile != [] && pile[|pile| - 1] < CODES
    ensures Mapped(cdb, pile, CODES) == Mapped(cdb, pile[..|pile| - 1], CODES) + [CardOf(cdb, pile[|pile| - 1])]
  {
  }

  /** One legend of each kind: no two places have legends of a common kind. */
  lemma LegendsByPlaces(cdb: Database, pile: seq<nat>)
    ensures OneLegendEach(cdb, pile) <==> forall t :: 0 <= t <= 2 ==> NoTwo(Legends(cdb, pile) * OfType(cdb, pile, t))
  {
    if OneLegendEach(cdb, pile) {
      forall t, i, j | 0 <= t <= 2 && i in Legends(cdb, pile) * OfType(cdb, pile, t) && j in Legends(cdb, pile) * OfType(cdb, pile, t)
        ensures i == j
      {
        assert t in Kinds(cdb, pile[i]) && t in Kinds(cdb, pile[j]);
        assert !(Kinds(cdb, pile[i]) !! Kinds(cdb, pile[j]));
      }
    } else {
      var i, j :| 0 <= i < j < |pile| && IsLegend(Data(cdb, pile[i]).scope) && IsLegend(Data(cdb, pile[j]).scope)
                  && !(Kinds(cdb, pile[i]) !! Kinds(cdb, pile[j]));
      var t :| t in Kinds(cdb, pile[i]) && t in Kinds(cdb, pile[j]);
      assert i in Legends(cdb, pile) * OfType(cdb, pile, t) && j in Legends(cdb, pile) * OfType(cdb, pile, t);
      assert !NoTwo(Legends(cdb, pile) * OfType(cdb, pile, t));
    }
  }

  lemma CodeByNumbers(cdb: Database, r: Rules, d: Deck, code: nat)
    requires CodesOK(d)
    ensures CodeLegal(cdb, r, d, code) <==> CodeMayPlay(cdb, r, d.All(), code)
  {
    hide ScopeAllowed, ScopeIn, BanlistAllows, Listed, Copies, CopiesOf;
    var scope := if code in cdb then cdb[code].scope else 0;
    assert Class(cdb, code) == CardOf(cdb, code);
    CopiesAreCounted(cdb, d.All(), CardOf(cdb, code));
    ScopesByNumbers(scope, r.allowed);
    if r.banlist.Some? {
      BanlistMeans(cdb, r.banlist.value, code, |CopiesOf(cdb, d.All(), CardOf(cdb, code))|);
    }
  }

  lemma TypesApart(cdb: Database, code: nat, types: set<nat>)
    ensures Data(cdb, code).types !! types <==> NoneOf(cdb, code, types)
  {
  }

  lemma ContentByNumbers(cdb: Database, r: Rules, d: Deck)
    requires CodesOK(d)
    ensures ContentLegal(cdb, r, d) <==> ContentMayBePlayed(cdb, r, d)
  {
    hide CodeLegal, CodeMayPlay, OneLegendEach, SkillsIn, OfType, Legends, NoTwo, Data, NoneOf;
    var all := d.main + d.extra + d.side;
    SkillsAreCounted(cdb, d.main);
    LegendsByPlaces(cdb, d.main + d.extra);
    forall code | code in all ensures Data(cdb, code).types !! r.forb <==> NoneOf(cdb, code, r.forb) {
      TypesApart(cdb, code, r.forb);
    }
    forall code | code in all ensures CodeLegal(cdb, r, d, code) <==> CodeMayPlay(cdb, r, all, code) {
      CodeByNumbers(cdb, r, d, code);
    }
    if ContentLegal(cdb, r, d) {
      assert forall code :: code in all ==> NoneOf(cdb, code, r.forb) && CodeMayPlay(cdb, r, all, code);
    }
  }

  /** The decks that the check lets pass are those that may be played. */
  lemma LegalByNumbers(cdb: Database, r: Rules, d: Deck)
    requires CodesOK(d)
    ensures Legal(cdb, r, d) <==> MayPlay(cdb, r, d)
  {
    hide ContentLegal, ContentMayBePlayed, SkillsIn, OfType;
    SkillsAreCounted(cdb, d.main);
    ContentByNumbers(cdb, r, d);
  }
}
