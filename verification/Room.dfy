/** A room (Room/Context, its states and Instance): seats and spectators, the
  * start of a duel, turn order and tag rotation, and the flow of a match. */
module Room {
  import opened Options
  import opened Seats
  import Arith

  const SPECTATOR: Pos := (255, 255)

  class Client {
    var position: Pos
    var ready: bool

    constructor ()
      ensures position == SPECTATOR && !ready
    {
      position, ready := SPECTATOR, false;
    }
  }

  datatype Reason = DuelWon | Surrendered | TimedOut | WrongResponse | LostConnection | CoreCrashed

  /** How a duel ended; winner 2 is a draw. */
  datatype Finish = Finish(reason: Reason, winner: nat)

  datatype State =
    | Waiting(host: Client?)
    | RockPaperScissor(choices: (nat, nat))
    | ChoosingTurn(turnChooser: Client)
    | Dueling(currentPos: (nat, nat), replier: Client?, retries: (nat, nat), matchKill: bool)
    | Sidedecking(turnChooser: Client, sidedecked: set<Client>)
    | Rematching(turnChooser: Client, answered: set<Client>)
    | Closing
    | Broken // a message was addressed to a place nobody has: undefined in the original

  predicate Started(s: State) {
    s.RockPaperScissor? || s.ChoosingTurn? || s.Dueling? || s.Sidedecking? || s.Rematching?
  }

  /** What the core sends while it processes, as far as seats and the end of the
    * duel go. A player above 1 stands for a draw. */
  datatype CoreMsg = TagSwap(team: nat) | ForDuelist(team: nat, asks: bool) | Retry | MatchKill | Win(player: nat)

  /** The messages of one round of processing, and whether the core broke down
    * after them. */
  datatype CoreRun = CoreRun(msgs: seq<CoreMsg>, crashed: bool)

  predicate MsgOK(msg: CoreMsg) {
    (msg.TagSwap? || msg.ForDuelist?) ==> msg.team <= 1
  }

  predicate Asks(msg: CoreMsg) { msg.ForDuelist? && msg.asks }

  /** The core names teams that exist, and complains about an answer only when
    * it has asked. */
  ghost predicate RunOK(r: CoreRun, asked: bool) {
    && (forall i :: 0 <= i < |r.msgs| ==> MsgOK(r.msgs[i]))
    && (forall i :: 0 <= i < |r.msgs| && r.msgs[i].Retry? ==> asked || exists j :: 0 <= j < i && Asks(r.msgs[j]))
  }

  /** What the analysis of messages goes by: the places whose turn it is, the
    * place asked last, each team's wrong answers, and whether the match ends
    * with this duel. */
  datatype Turns = Turns(pos: (nat, nat), asked: Option<Pos>, retries: (nat, nat), killed: bool)

  /** After some messages: on it goes, the duel is over, or somebody was looked
    * up who is not there. */
  datatype Outcome = Running(turns: Turns) | Over(turns: Turns, finish: Finish) | Lost

  /** How processing ends: a breakdown counts when nothing ended the duel before. */
  function Verdict(o: Outcome, crashed: bool): Option<Finish> {
    match o
    case Running(_) => if crashed then Some(Finish(CoreCrashed, 2)) else None
    case Over(_, f) => Some(f)
    case Lost => None
  }

  function Opponent(team: nat): nat { if team == 0 then 1 else 0 }

  /** The core's team 0 is the one that goes first. */
  function SwappedTeam(team1First: bool, team: nat): nat
    requires team <= 1
  {
    if team1First then 1 - team else team
  }

  /** What the meaning of a message depends on: the size of the teams, the places
    * that are taken, and which team goes first. */
  datatype Table = Table(n0: nat, n1: nat, taken: set<Pos>, team1First: bool) {

    function Swapped(team: nat): nat
      requires team <= 1
    {
      SwappedTeam(team1First, team)
    }

    function NextPlace(pos: (nat, nat), team: nat): (nat, nat)
      requires 1 <= n0 && 1 <= n1
    {
      if team == 0 then ((pos.0 + 1) % n0, pos.1) else (pos.0, (pos.1 + 1) % n1)
    }

    /** What one message does: a tag swap moves the turn of its team on, a
      * message for a duelist looks up the place whose turn it is, the first
      * wrong answer of a team is forgiven, and a second one or a win ends the
      * duel. */
    function Step(t: Turns, msg: CoreMsg): Outcome
      requires 1 <= n0 && 1 <= n1 && MsgOK(msg)
    {
      match msg
      case TagSwap(team) => Running(t.(pos := NextPlace(t.pos, Swapped(team))))
      case ForDuelist(team, asks) =>
        var place := (Swapped(team), At(t.pos, Swapped(team)));
        if place !in taken then Lost
        else if asks then Running(t.(asked := Some(place)))
        else Running(t)
      case Retry =>
        if t.asked.None? then Lost
        else if At(t.retries, t.asked.value.0) < 1 then Running(t.(retries := Scored(t.retries, t.asked.value.0, 1)))
        else Over(t, Finish(WrongResponse, Opponent(t.asked.value.0)))
      case MatchKill => Running(t.(killed := true))
      case Win(player) => Over(t, Finish(DuelWon, if player > 1 then 2 else Swapped(player)))
    }

    /** The messages one after the other, until one ends the duel. */
    ghost function Run(t: Turns, msgs: seq<CoreMsg>): Outcome
      requires 1 <= n0 && 1 <= n1 && AllOK(msgs)
    {
      if msgs == [] then Running(t)
      else
        match Run(t, msgs[..|msgs| - 1])
        case Running(u) => Step(u, msgs[|msgs| - 1])
        case Over(u, f) => Over(u, f)
        case Lost => Lost
    }
  }

  /** The same with the teams counted out. The core's team 0 is the room's, unless
    * the room's team 1 goes first. */
  lemma StepByNumbers(table: Table, t: Turns, msg: CoreMsg)
    requires 1 <= table.n0 && 1 <= table.n1 && MsgOK(msg)
    ensures match msg
            case TagSwap(k) =>
              table.Step(t, msg) == Running(t.(pos := if (k == 0) != table.team1First then ((t.pos.0 + 1) % table.n0, t.pos.1)
                                                      else (t.pos.0, (t.pos.1 + 1) % table.n1)))
            case ForDuelist(k, asks) =>
              var place := if (k == 0) != table.team1First then (0, t.pos.0) else (1, t.pos.1);
              table.Step(t, msg) == if place !in table.taken then Lost else Running(if asks then t.(asked := Some(place)) else t)
            case Retry =>
              table.Step(t, msg)
              == (match t.asked
                  case None => Lost
                  case Some((0, _)) =>
                    if t.retries.0 == 0 then Running(t.(retries := (1, t.retries.1))) else Over(t, Finish(WrongResponse, 1))
                  case Some(_) =>
                    if t.retries.1 == 0 then Running(t.(retries := (t.retries.0, 1))) else Over(t, Finish(WrongResponse, 0)))
            case MatchKill => table.Step(t, msg) == Running(t.(killed := true))
            case Win(player) =>
              table.Step(t, msg)
              == Over(t, Finish(DuelWon, if player >= 2 then 2 else if (player == 0) != table.team1First then 0 else 1))
  {
  }

  ghost predicate AllOK(msgs: seq<CoreMsg>) {
    forall i :: 0 <= i < |msgs| ==> MsgOK(msgs[i])
  }

  /** A room as it can be seen from outside, with everybody's place and readiness. */
  datatype View = View(
    duelists: map<Pos, Client>, spectators: set<Client>, state: State, started: bool, team1First: bool, wins: (nat, nat),
    places: map<Client, Pos>, ready: map<Client, bool>)

  datatype Event =
    | Close
    | ConnectionLost(c: Client)
    | Join(c: Client)
    | ToDuelist(c: Client)
    | ToObserver(c: Client)
    | Ready(c: Client, value: bool, deckOk: bool)
    | TryKick(c: Client, pos: nat)
    | TryStart(c: Client)
    | ChooseRPS(c: Client, choice: nat)
    | ChooseTurn(c: Client, goingFirst: bool, run: CoreRun)
    | UpdateDeck(c: Client, accepted: bool)
    | Response(c: Client, run: CoreRun)
    | Surrender(c: Client)
    | TimerExpired(team: nat)
    | Rematch(c: Client, answer: bool)
    | Chat(c: Client)
  {
    ghost function Subject(): set<Client> {
      match this
      case Close => {}
      case TimerExpired(_) => {}
      case _ => {c}
    }
  }

  class Room {
    const t0Count: nat
    const t1Count: nat
    const relay: bool
    const bestOf: nat

    var duelists: map<Pos, Client>
    var spectators: set<Client>
    var state: State
    var isStarted: bool
    var isTeam1GoingFirst: bool
    var duelsHad: nat
    var wins: (nat, nat)

    /** Everybody who ever joined. */
    ghost var joined: set<Client>

    /** Where each team's turns started in this duel, and its tag swaps since. */
    ghost var start: (nat, nat)
    ghost var swaps: (nat, nat)

    const neededWins := bestOf / 2 + bestOf % 2

    constructor (t0Count: nat, t1Count: nat, relay: bool, bestOf: nat)
      requires 1 <= t0Count <= 3 && 1 <= t1Count <= 3
      ensures Valid() && state == Waiting(null) && duelists == map[] && spectators == {} && joined == {}
      ensures this.t0Count == t0Count && this.t1Count == t1Count && this.relay == relay && this.bestOf == bestOf
      ensures Now() == View(map[], {}, Waiting(null), false, false, (0, 0), map[], map[])
    {
      this.t0Count, this.t1Count, this.relay, this.bestOf := t0Count, t1Count, relay, bestOf;
      duelists, spectators, state := map[], {}, Waiting(null);
      isStarted, isTeam1GoingFirst, duelsHad, wins := false, false, 0, (0, 0);
      joined, start, swaps := {}, (0, 0), (0, 0);
    }

    /** A match is decided by the least number of wins that is half of it or more. */
    lemma WinsNeeded()
      requires bestOf >= 1
      ensures 2 * neededWins >= bestOf > 2 * (neededWins - 1)
    {
    }

    function Count(t: nat): nat {
      if t == 0 then t0Count else t1Count
    }

    /** Seat claims go from the seat to the client. */
    ghost predicate SeatsAgree()
      reads this`duelists, this`spectators, this`joined, joined`position
    {
      && OnSeats(duelists, t0Count, t1Count)
      && (forall p :: p in duelists ==> duelists[p] in joined && duelists[p].position == p)
      && (forall c :: c in spectators ==> c in joined && c.position == SPECTATOR)
      && (forall c :: c in joined ==> c.position == SPECTATOR || IsSeat(c.position, t0Count, t1Count))
    }

    /** The client is really on the seat it believes to have. */
    ghost predicate Seated(c: Client)
      reads this, c
    {
      c.position in duelists && duelists[c.position] == c
    }

    /** Both teams sit on their first places, in full unless the duel is a relay. */
    ghost predicate Compact()
      reads this`duelists
    {
      exists n0: nat, n1: nat ::
        && 1 <= n0 <= t0Count && 1 <= n1 <= t1Count && Tight(duelists, 0, n0) && Tight(duelists, 1, n1)
        && (!relay ==> n0 == t0Count && n1 == t1Count)
    }

    ghost predicate IsLeader(c: Client)
      reads this`duelists
    {
      ((0, 0) in duelists && duelists[(0, 0)] == c) || ((1, 0) in duelists && duelists[(1, 0)] == c)
    }

    /** What holds in a state, before or after it has been entered. */
    ghost predicate StateOK(s: State, entered: bool)
      reads this`duelists, this`spectators, this`isStarted, this`isTeam1GoingFirst, this`wins, this`start, this`swaps
    {
      && (Started(s) ==> isStarted && Compact())
      && (s.Waiting? ==> !isStarted)
      && (s.Closing? && entered ==> duelists == map[] && spectators == {})
      && (s.Broken? ==> relay)
      && (!s.Closing? && bestOf > 1 ==> wins.0 < neededWins && wins.1 < neededWins)
      && match s {
           case RockPaperScissor(ch) => ch.0 <= 3 && ch.1 <= 3
           case ChoosingTurn(c) => IsLeader(c)
           case Dueling(cp, replier, retries, _) =>
             TurnOrderOK(cp) && retries.0 <= 1 && retries.1 <= 1 && (replier != null ==> replier in duelists.Values)
           case Sidedecking(c, _) => IsLeader(c) && bestOf > 1
           case Rematching(c, _) => IsLeader(c) && bestOf <= 1
           case _ => true
         }
    }

    /** The place whose turn it is has moved on from where it started by one for
      * every tag swap. A team that goes second starts with its last place,
      * unless the duel is a relay. */
    ghost predicate TurnOrderOK(cp: (nat, nat))
      reads this`isTeam1GoingFirst, this`start, this`swaps
      requires 1 <= t0Count && 1 <= t1Count
    {
      InOrder(cp, start, swaps, t0Count, t1Count) && start == FirstPlaces(isTeam1GoingFirst)
    }

    function FirstPlaces(team1First: bool): (nat, nat)
      requires 1 <= t0Count && 1 <= t1Count
    {
      if relay then (0, 0) else if team1First then (t0Count - 1, 0) else (0, t1Count - 1)
    }

    ghost predicate Valid()
      reads this, joined
    {
      && 1 <= t0Count <= 3 && 1 <= t1Count <= 3
      && SeatsAgree() && StateOK(state, true)
    }

    /** The room is about to enter `s`. */
    ghost predicate Entering(s: State)
      reads this`duelists, this`spectators, this`isStarted, this`isTeam1GoingFirst, this`wins, this`start, this`swaps, this`joined, joined
    {
      && 1 <= t0Count <= 3 && 1 <= t1Count <= 3
      && SeatsAgree() && StateOK(s, false)
    }

    // --------------------------------------------------- what an event leads to

    ghost function Places(): map<Client, Pos>
      reads this`joined, joined
    {
      map c | c in joined :: c.position
    }

    ghost function Readies(): map<Client, bool>
      reads this`joined, joined
    {
      map c | c in joined :: c.ready
    }

    ghost function Now(): View
      reads this, joined
    {
      View(duelists, spectators, state, isStarted, isTeam1GoingFirst, wins, Places(), Readies())
    }

    /** The room when a handler has asked for a state, before it is entered. */
    ghost function Asked(next: Option<State>): View
      reads this, joined
    {
      if next.Some? then Now().(state := next.value) else Now()
    }

    /** A closed room is emptied when that state is entered. */
    ghost function Entered(v: View): View {
      if v.state.Closing? then v.(duelists := map[], spectators := {}) else v
    }

    ghost predicate Becomes(t: View, u: View, entered: bool) {
      t == if entered then Entered(u) else u
    }

    /** A client who was not there before is at a place now, and not ready yet. */
    ghost predicate Came(s: View, t: View, c: Client, p: Pos) {
      t.places == s.places[c := p] && t.ready == s.ready[c := false]
    }

    /** A client takes the first free seat, from the hint on and around. */
    ghost predicate TakesSeat(d: map<Pos, Client>, hint: Pos, t: View, c: Client) {
      c in t.places && FirstFree(d, hint, t.places[c], t0Count, t1Count)
    }

    /** The host leaving closes the room; anybody else gives up the seat they believe
      * to have, or stops watching. */
    ghost predicate WaitingLoses(c: Client, s: View, t: View, entered: bool) {
      && s.state.Waiting? && c in s.places
      && Becomes(t, if s.state.host == c then s.(state := Closing)
                    else s.(duelists := s.duelists - {s.places[c]}, spectators := s.spectators - {c}), entered)
    }

    /** The first to come is the host; who comes when every seat is taken watches. */
    ghost predicate WaitingGets(c: Client, s: View, t: View) {
      && s.state.Waiting?
      && var host := if s.state.host == null then c else s.state.host;
         if Full(s.duelists, t0Count, t1Count)
         then Came(s, t, c, SPECTATOR)
              && t == s.(state := Waiting(host), spectators := s.spectators + {c}, places := t.places, ready := t.ready)
         else TakesSeat(s.duelists, (0, 0), t, c) && Came(s, t, c, t.places[c])
              && t == s.(state := Waiting(host), duelists := s.duelists[t.places[c] := c], places := t.places, ready := t.ready)
    }

    /** A spectator takes the first free seat there is; a duelist the next free one
      * behind the own, around to the own, and is ready no more when it is another. */
    ghost predicate GoesToSeat(c: Client, s: View, t: View) {
      && c in s.places && c in s.ready
      && var p := s.places[c];
         if p == SPECTATOR then
           if Full(s.duelists, t0Count, t1Count) then t == s
           else
             && TakesSeat(s.duelists, (0, 0), t, c)
             && var q := t.places[c];
                t == s.(duelists := s.duelists[q := c], spectators := s.spectators - {c}, places := s.places[c := q])
         else
           && TakesSeat(s.duelists - {p}, (p.0, p.1 + 1), t, c)
           && var q := t.places[c];
              t == s.(duelists := (s.duelists - {p})[q := c], places := s.places[c := q],
                      ready := s.ready[c := s.ready[c] && q == p])
    }

    ghost predicate GoesToWatch(c: Client, s: View, t: View) {
      && c in s.places
      && var p := s.places[c];
         t == if p == SPECTATOR then s
              else s.(duelists := s.duelists - {p}, spectators := s.spectators + {c}, places := s.places[c := SPECTATOR],
                      ready := s.ready[c := false])
    }

    ghost predicate GetsReady(c: Client, value: bool, deckOk: bool, s: View, t: View) {
      && c in s.places && c in s.ready
      && t == if s.places[c] == SPECTATOR || s.ready[c] == value then s else s.(ready := s.ready[c := value && deckOk])
    }

    /** Seats are numbered through both teams; the host empties any but the own. */
    ghost predicate Kicks(c: Client, pos: nat, s: View, t: View) {
      && s.state.Waiting?
      && var p: Pos := if pos < t0Count then (0, pos) else (1, pos - t0Count);
         t == if s.state.host == c && p in s.duelists && s.duelists[p] != c then s.(duelists := s.duelists - {p}) else s
    }

    ghost predicate MayStart(c: Client, s: View) {
      && s.state.Waiting? && s.state.host == c
      && (forall p :: p in s.duelists ==> s.duelists[p] in s.ready && s.ready[s.duelists[p]])
      && if relay then TeamSeq(s.duelists, 0, t0Count) != [] && TeamSeq(s.duelists, 1, t1Count) != []
         else Full(s.duelists, t0Count, t1Count)
    }

    /** The host starts when all are ready and every seat is taken, or somebody is on
      * both sides of a relay, whose teams then move together. */
    ghost predicate Starts(c: Client, s: View, t: View) {
      if !MayStart(c, s) then t == s
      else if !relay then t == s.(state := RockPaperScissor((0, 0)), started := true)
      else
        && t == s.(state := RockPaperScissor((0, 0)), started := true, duelists := t.duelists, places := t.places)
        && TeamSeq(t.duelists, 0, t0Count) == TeamSeq(s.duelists, 0, t0Count)
        && TeamSeq(t.duelists, 1, t1Count) == TeamSeq(s.duelists, 1, t1Count)
        && Tight(t.duelists, 0, |TeamSeq(s.duelists, 0, t0Count)|) && Tight(t.duelists, 1, |TeamSeq(s.duelists, 1, t1Count)|)
    }

    /** While the room waits for a duel. */
    ghost predicate DoesWaiting(e: Event, s: View, t: View, entered: bool) {
      match e
      case Close => Becomes(t, s.(state := Closing), entered)
      case ConnectionLost(c) => WaitingLoses(c, s, t, entered)
      case Join(c) => WaitingGets(c, s, t)
      case ToDuelist(c) => GoesToSeat(c, s, t)
      case ToObserver(c) => GoesToWatch(c, s, t)
      case Ready(c, value, deckOk) => GetsReady(c, value, deckOk, s, t)
      case TryKick(c, pos) => Kicks(c, pos, s, t)
      case TryStart(c) => Starts(c, s, t)
      case _ => t == s
    }

    /** In a started room a duelist's lost connection closes it; spectators come and
      * go. */
    ghost predicate StartedLoses(c: Client, s: View, t: View, entered: bool) {
      && c in s.places
      && Becomes(t, if s.places[c] == SPECTATOR then s.(spectators := s.spectators - {c}) else s.(state := Closing), entered)
    }

    ghost predicate StartedGets(c: Client, s: View, t: View) {
      Came(s, t, c, SPECTATOR) && t == s.(spectators := s.spectators + {c}, places := t.places, ready := t.ready)
    }

    /** Only leaders choose, and only scissors (1), rock (2), paper (3) or nothing.
      * Each of rock, paper and scissors beats the one before it, going round; the
      * leader of the team that wins decides who goes first. */
    ghost predicate Shows(c: Client, value: nat, s: View, t: View) {
      && c in s.places && s.state.RockPaperScissor?
      && if s.places[c].1 != 0 || value > 3 then t == s
         else
           var a := if s.places[c].0 == 0 then value else s.state.choices.0;
           var b := if s.places[c].0 == 0 then s.state.choices.1 else value;
           if a == 0 || b == 0 then t == s.(state := RockPaperScissor((a, b)))
           else if a == b then t == s.(state := RockPaperScissor((0, 0)))
           else
             && (0, 0) in s.duelists && (1, 0) in s.duelists
             && t == s.(state := ChoosingTurn(s.duelists[if (a - b) % 3 == 1 then (0, 0) else (1, 0)]))
    }

    /** A duel has an end: unless nobody won or the core broke down, a match counts it
      * for the winner, and counts a match kill for the whole. A lost connection and
      * a decided match close the room; otherwise the leader of the team that lost,
      * or of the first team after a draw, decides when all have changed their decks,
      * or, after a single duel, agreed to another. */
    ghost predicate Ends(f: Finish, killed: bool, s: View, t: View, entered: bool) {
      && (0, 0) in s.duelists && (1, 0) in s.duelists
      && var counts := bestOf > 1 && f.winner <= 1 && !f.reason.LostConnection? && !f.reason.CoreCrashed?;
         var points := if !counts then 0 else if killed then neededWins else 1;
         var wins := if f.winner == 0 then (s.wins.0 + points, s.wins.1) else (s.wins.0, s.wins.1 + points);
         var decider := s.duelists[if f.winner == 0 then (1, 0) else (0, 0)];
         Becomes(t, s.(wins := wins,
                       state := if f.reason.LostConnection? || (bestOf > 1 && (wins.0 >= neededWins || wins.1 >= neededWins)) then Closing
                                else if bestOf > 1 then Sidedecking(decider, {})
                                else Rematching(decider, {})), entered)
    }

    /** The core's messages, one after the other, and what they lead to. */
    ghost predicate Processes(run: CoreRun, s: View, t: View, entered: bool) {
      && s.state.Dueling? && 1 <= t0Count && 1 <= t1Count && AllOK(run.msgs)
      && (s.state.replier != null ==> s.state.replier in s.places)
      && var asked := if s.state.replier == null then None else Some(s.places[s.state.replier]);
         var turns := Turns(s.state.currentPos, asked, s.state.retries, s.state.matchKill);
         var o := Table(t0Count, t1Count, s.duelists.Keys, s.team1First).Run(turns, run.msgs);
         match o
         case Lost => t == s.(state := Broken)
         case Over(u, f) => Ends(f, u.killed, s, t, entered)
         case Running(u) =>
           if run.crashed then Ends(Finish(CoreCrashed, 2), u.killed, s, t, entered)
           else
             && (u.asked.Some? ==> u.asked.value in s.duelists)
             && t == s.(state := Dueling(u.pos, if u.asked.None? then null else s.duelists[u.asked.value], u.retries, u.killed))
    }

    /** During a duel: giving up or running out of time is a win of the other team. */
    ghost predicate DoesDueling(e: Event, s: View, t: View, entered: bool) {
      && s.state.Dueling?
      && match e
         case ConnectionLost(c) => StartedLoses(c, s, t, entered)
         case Join(c) => StartedGets(c, s, t)
         case Response(c, run) => if s.state.replier == c then Processes(run, s, t, entered) else t == s
         case Surrender(c) =>
           && c in s.places
           && if s.places[c] == SPECTATOR then t == s.(spectators := s.spectators - {c})
              else Ends(Finish(Surrendered, if s.places[c].0 == 0 then 1 else 0), s.state.matchKill, s, t, entered)
         case TimerExpired(team) =>
           Ends(Finish(TimedOut, if team == 0 then 1 else 0), s.state.matchKill, s, t, entered)
         case _ => t == s
    }

    /** Only the one who may choose does; the duel begins at the first place of the
      * team that goes first and, unless it is a relay, at the last of the other. */
    ghost predicate BeginsDuel(c: Client, goingFirst: bool, run: CoreRun, s: View, t: View, entered: bool) {
      && c in s.places && s.state.ChoosingTurn?
      && if s.state.turnChooser != c then t == s
         else
           && 1 <= t0Count && 1 <= t1Count
           && var team1First := if s.places[c].0 == 1 then goingFirst else !goingFirst;
              var first := if relay then (0, 0) else if team1First then (t0Count - 1, 0) else (0, t1Count - 1);
              var u := s.(team1First := team1First, state := Dueling(first, null, (0, 0), false));
              if entered then Processes(run, u, t, entered) else t == u
    }

    /** As many as there are duelists have answered, or not yet. */
    ghost predicate Answers(all: set<Client>, waiting: State, then_: State, s: View, t: View) {
      t == s.(state := if |all| == |s.duelists| then then_ else waiting)
    }

    ghost predicate ChangesDeck(c: Client, accepted: bool, s: View, t: View) {
      && c in s.places && s.state.Sidedecking?
      && if s.places[c] == SPECTATOR || !accepted || c in s.state.sidedecked then t == s
         else
           var all := s.state.sidedecked + {c};
           Answers(all, Sidedecking(s.state.turnChooser, all), ChoosingTurn(s.state.turnChooser), s, t)
    }

    /** One who does not want another duel closes the room. */
    ghost predicate Agrees(c: Client, answer: bool, s: View, t: View, entered: bool) {
      && c in s.places && s.state.Rematching?
      && if s.places[c] == SPECTATOR || c in s.state.answered then t == s
         else if !answer then Becomes(t, s.(state := Closing), entered)
         else
           var all := s.state.answered + {c};
           Answers(all, Rematching(s.state.turnChooser, all), ChoosingTurn(s.state.turnChooser), s, t)
    }

    /** Between the duels of a started room. */
    ghost predicate DoesAround(e: Event, s: View, t: View, entered: bool) {
      match e
      case ConnectionLost(c) => StartedLoses(c, s, t, entered)
      case Join(c) => StartedGets(c, s, t)
      case ChooseRPS(c, value) => if s.state.RockPaperScissor? then Shows(c, value, s, t) else t == s
      case ChooseTurn(c, goingFirst, run) =>
        if s.state.ChoosingTurn? then BeginsDuel(c, goingFirst, run, s, t, entered) else t == s
      case UpdateDeck(c, accepted) => if s.state.Sidedecking? then ChangesDeck(c, accepted, s, t) else t == s
      case Rematch(c, answer) => if s.state.Rematching? then Agrees(c, answer, s, t, entered) else t == s
      case _ => t == s
    }

    /** What an event does to a room. What a state has no handler for, it ignores; and
      * who comes to a closed room changes nothing in it. */
    ghost predicate Does(e: Event, s: View, t: View, entered: bool) {
      if s.state.Waiting? then DoesWaiting(e, s, t, entered)
      else if s.state.Dueling? then DoesDueling(e, s, t, entered)
      else if Started(s.state) then DoesAround(e, s, t, entered)
      else if e.Join? then Came(s, t, e.c, SPECTATOR) && t == s.(places := t.places, ready := t.ready)
      else t == s
    }

    lemma PlaceOf(c: Client)
      requires c in joined
      ensures c in Places() && Places()[c] == c.position && c in Readies() && Readies()[c] == c.ready
    {
    }

    twostate lemma NobodyMoved()
      requires joined == old(joined) && forall c :: c in joined ==> c.position == old(c.position) && c.ready == old(c.ready)
      ensures Places() == old(Places()) && Readies() == old(Readies())
    {
    }

    twostate lemma SameReadies()
      requires joined == old(joined) && forall c :: c in joined ==> c.ready == old(c.ready)
      ensures Readies() == old(Readies())
    {
    }

    twostate lemma OnlyMoved(c: Client)
      requires joined == old(joined) + {c}
      requires forall o :: o in joined && o != c ==> o.position == old(o.position) && o.ready == old(o.ready)
      ensures Places() == old(Places())[c := c.position] && Readies() == old(Readies())[c := c.ready]
      ensures c.position == old(c.position) && c in old(joined) ==> Places() == old(Places())
      ensures c.ready == old(c.ready) && c in old(joined) ==> Readies() == old(Readies())
    {
    }

    // ----------------------------------------------------------- seat changes

    /** Nobody but `c` moved or lost a seat or a place among the spectators. */
    twostate predicate OthersKept(c: Client)
      reads this, joined
    {
      && joined >= old(joined)
      && (forall o :: o in old(joined) && o != c ==>
            o.position == old(o.position) && o.ready == old(o.ready) && (o in spectators <==> o in old(spectators)))
      && (forall p :: p in old(duelists) && old(duelists[p]) != c ==> p in duelists && duelists[p] == old(duelists[p]))
      && (forall p :: p in duelists && duelists[p] != c ==> p in old(duelists) && duelists[p] == old(duelists[p]))
    }

    /** One loop of `TryEmplaceDuelist` over a team. */
    method EmplaceLoop(client: Client, p: Pos, max: nat) returns (ok: bool)
      modifies this`duelists, client`position
      ensures ok <==> Scan(old(duelists), p.0, p.1, max).Some?
      ensures ok ==> client.position == Scan(old(duelists), p.0, p.1, max).value
                     && duelists == old(duelists)[client.position := client]
      ensures !ok ==> duelists == old(duelists) && client.position == old(client.position)
    {
      var q := p;
      while q.1 < max
        invariant q.0 == p.0 && p.1 <= q.1 && duelists == old(duelists) && client.position == old(client.position)
        invariant Scan(duelists, p.0, p.1, max) == Scan(duelists, p.0, q.1, max)
        decreases max - q.1
      {
        if q !in duelists {
          duelists := duelists[q := client];
          client.position := q;
          return true;
        }
        q := (q.0, q.1 + 1);
      }
      return false;
    }

    /** Takes the first free seat from the hint on and around; fails only when
      * every seat is taken. */
    method TryEmplaceDuelist(client: Client, hint: Pos) returns (ok: bool)
      requires 1 <= t0Count <= 3 && 1 <= t1Count <= 3 && hint.0 <= 1 && hint.1 <= 3
      modifies this`duelists, client`position
      ensures ok <==> !Full(old(duelists), t0Count, t1Count)
      ensures ok ==> FirstFree(old(duelists), hint, client.position, t0Count, t1Count)
                     && duelists == old(duelists)[client.position := client]
      ensures !ok ==> duelists == old(duelists) && client.position == old(client.position)
      decreases hint != (0, 0)
    {
      if hint.0 == 0 {
        ok := EmplaceLoop(client, hint, t0Count);
        if ok { return; }
      }
      var p := hint;
      if hint.0 != 1 {
        p := (p.0, 0);
      }
      p := (1, p.1);
      ok := EmplaceLoop(client, p, t1Count);
      if ok { return; }
      if hint != (0, 0) {
        ok := TryEmplaceDuelist(client, (0, 0));
        return;
      }
      return false;
    }

    // ------------------------------------------------------ waiting for a duel

    /** Leaving or moving takes the seat the client believes to have. */
    ghost predicate TakesNobodysSeat(c: Client)
      reads this, c
    {
      c.position == SPECTATOR || Seated(c) || c.position !in duelists
    }

    method WaitingConnectionLost(c: Client) returns (next: Option<State>)
      requires Valid() && state.Waiting? && c in joined
      modifies this`duelists, this`spectators
      ensures Valid()
      ensures next == if state.host == c then Some(Closing) else None
      ensures next.None? ==> duelists == old(duelists) - {c.position} && spectators == old(spectators) - {c}
      ensures next.None? ==> (OthersKept(c) <==> old(TakesNobodysSeat(c)))
      ensures WaitingLoses(c, old(Now()), Asked(next), false)
    {
      if state.host == c {
        NobodyMoved();
        return Some(Closing);
      }
      if c.position != SPECTATOR {
        duelists := duelists - {c.position};
      } else {
        spectators := spectators - {c};
      }
      next := None;
      NobodyMoved();
    }

    method SetupAsSpectator(c: Client)
      modifies this`spectators, c`position
      ensures spectators == old(spectators) + {c} && c.position == SPECTATOR
    {
      spectators := spectators + {c};
      c.position := SPECTATOR;
    }

    method WaitingJoin(c: Client) returns (next: Option<State>)
      requires Valid() && state.Waiting? && c !in joined && c.position == SPECTATOR && !c.ready
      modifies this`state, this`joined, this`duelists, this`spectators, c
      ensures Valid() && next.None? && joined == old(joined) + {c}
      ensures state == (if old(state.host) == null then Waiting(c) else old(state))
      ensures OthersKept(c)
      ensures old(Full(duelists, t0Count, t1Count)) ==> c in spectators && duelists == old(duelists)
      ensures !old(Full(duelists, t0Count, t1Count)) ==>
                Seated(c) && spectators == old(spectators) && duelists == old(duelists)[c.position := c]
                && FirstFree(old(duelists), (0, 0), c.position, t0Count, t1Count)
      ensures WaitingGets(c, old(Now()), Now())
    {
      joined := joined + {c};
      if state.host == null {
        state := Waiting(c);
      }
      var ok := TryEmplaceDuelist(c, (0, 0));
      if !ok {
        SetupAsSpectator(c);
      }
      next := None;
      OnlyMoved(c);
    }

    /** A seated client goes on to the next free seat, and stays when there is
      * none. */
    method ChangeSeat(c: Client)
      requires Valid() && state.Waiting? && c in joined && c.position != SPECTATOR
      modifies this`duelists, c
      ensures Valid() && Seated(c)
      ensures OthersKept(c) <==> old(TakesNobodysSeat(c))
      ensures old(Seated(c)) ==> (c.position == old(c.position) <==>
                forall q :: IsSeat(q, t0Count, t1Count) && q != old(c.position) ==> q in old(duelists))
      ensures GoesToSeat(c, old(Now()), Now())
    {
      hide *;
      SeatBounds(c);
      var p := c.position;
      FreedNotFull(duelists, p, t0Count, t1Count);
      duelists := duelists - {p};
      var nextPos: Pos := (p.0, p.1 + 1);
      var ok := TryEmplaceDuelist(c, nextPos);
      StaysIff(old(duelists), p, c.position, t0Count, t1Count);
      if ok && c.position != p {
        c.ready := false;
      }
      SeatChanged(c);
      KeptIffNobodysSeat(c);
      OnlyMoved(c);
      SeatWasTaken(c);
    }

    lemma SeatBounds(c: Client)
      requires Valid() && c in joined
      ensures 1 <= t0Count <= 3 && 1 <= t1Count <= 3
      ensures c.position == SPECTATOR || (IsSeat(c.position, t0Count, t1Count) && c.position.0 <= 1 && c.position.1 + 1 <= 3)
    {
    }

    /** `c` gave up the seat it believed to have and took a free one. */
    twostate predicate TookSeat(c: Client)
      reads this, joined, c
    {
      && c in joined && joined == old(joined) && spectators == old(spectators) && state == old(state)
      && isStarted == old(isStarted) && wins == old(wins)
      && IsSeat(c.position, t0Count, t1Count) && c.position !in old(duelists) - {old(c.position)}
      && duelists == (old(duelists) - {old(c.position)})[c.position := c]
      && forall o :: o in joined && o != c ==> o.position == old(o.position) && o.ready == old(o.ready)
    }

    twostate lemma SeatChanged(c: Client)
      requires old(Valid()) && state.Waiting? && old(c.position) != SPECTATOR && TookSeat(c)
      ensures Valid() && Seated(c)
    {
    }

    twostate lemma SeatWasTaken(c: Client)
      requires c in joined && joined == old(joined) && old(c.position) != SPECTATOR
      requires FirstFree(old(duelists) - {old(c.position)}, (old(c.position).0, old(c.position).1 + 1), c.position, t0Count, t1Count)
      requires duelists == (old(duelists) - {old(c.position)})[c.position := c]
      requires c.ready == (old(c.ready) && c.position == old(c.position))
      requires spectators == old(spectators) && state == old(state) && isStarted == old(isStarted)
      requires isTeam1GoingFirst == old(isTeam1GoingFirst) && wins == old(wins)
      requires Places() == old(Places())[c := c.position] && Readies() == old(Readies())[c := c.ready]
      ensures GoesToSeat(c, old(Now()), Now())
    {
      hide FirstFree;
    }

    twostate lemma KeptIffNobodysSeat(c: Client)
      requires old(Valid()) && state.Waiting? && old(c.position) != SPECTATOR && TookSeat(c)
      ensures OthersKept(c) <==> old(TakesNobodysSeat(c))
    {
    }

    /** A spectator takes the first free seat; a duelist goes on to the next free
      * one. */
    method WaitingToDuelist(c: Client) returns (next: Option<State>)
      requires Valid() && state.Waiting? && c in joined
      modifies this`duelists, this`spectators, c
      ensures Valid() && next.None?
      ensures OthersKept(c) <==> old(TakesNobodysSeat(c))
      ensures old(c.position) != SPECTATOR ==> Seated(c) && spectators == old(spectators)
      ensures old(Seated(c)) ==> (c.position == old(c.position) <==>
                forall q :: IsSeat(q, t0Count, t1Count) && q != old(c.position) ==> q in old(duelists))
      ensures old(c.position) == SPECTATOR ==> (Seated(c) <==> !old(Full(duelists, t0Count, t1Count)))
      ensures GoesToSeat(c, old(Now()), Now())
    {
      next := None;
      if c.position == SPECTATOR {
        var ok := TryEmplaceDuelist(c, (0, 0));
        if ok {
          spectators := spectators - {c};
        }
        OnlyMoved(c);
      } else {
        ChangeSeat(c);
      }
    }

    method WaitingToObserver(c: Client) returns (next: Option<State>)
      requires Valid() && state.Waiting? && c in joined
      modifies this`duelists, this`spectators, c
      ensures Valid() && next.None?
      ensures !Seated(c)
      ensures OthersKept(c) <==> old(TakesNobodysSeat(c))
      ensures GoesToWatch(c, old(Now()), Now())
    {
      next := None;
      if c.position == SPECTATOR {
        NobodyMoved();
        return;
      }
      duelists := duelists - {c.position};
      spectators := spectators + {c};
      c.position := SPECTATOR;
      c.ready := false;
      OnlyMoved(c);
    }

    /** `deckOk` is the verdict of `CheckDeck`. */
    method WaitingReady(c: Client, value: bool, deckOk: bool) returns (next: Option<State>)
      requires Valid() && state.Waiting? && c in joined
      modifies c`ready
      ensures Valid() && next.None?
      ensures c.ready && !old(c.ready) ==> deckOk && c.position != SPECTATOR
      ensures GetsReady(c, value, deckOk, old(Now()), Now())
    {
      next := None;
      if c.position == SPECTATOR || c.ready == value {
        NobodyMoved();
        return;
      }
      c.ready := value && deckOk;
      OnlyMoved(c);
    }

    /** Seats are numbered through both teams. */
    function KickedPlace(pos: nat): Pos {
      if pos >= t0Count then (1, pos - t0Count) else (0, pos)
    }

    /** The host, and only the host, frees the named seat, unless it is empty or
      * the host's own. */
    method WaitingTryKick(c: Client, pos: nat) returns (next: Option<State>, kicked: Client?)
      requires Valid() && state.Waiting? && c in joined
      modifies this`duelists
      ensures Valid() && next.None?
      ensures kicked != null <==>
                state.host == c && KickedPlace(pos) in old(duelists) && old(duelists)[KickedPlace(pos)] != state.host
      ensures kicked != null ==> kicked == old(duelists)[KickedPlace(pos)] && kicked.position == KickedPlace(pos)
      ensures duelists == if kicked != null then old(duelists) - {KickedPlace(pos)} else old(duelists)
      ensures Kicks(c, pos, old(Now()), Now())
    {
      NobodyMoved();
      next, kicked := None, null;
      if state.host != c {
        return;
      }
      var p := KickedPlace(pos);
      if p !in duelists || duelists[p] == state.host {
        return;
      }
      kicked := duelists[p];
      duelists := duelists - {p};
    }

    // --------------------------------------------------------- starting a duel

    method GetTeamCounts() returns (n0: nat, n1: nat)
      requires SeatsAgree()
      ensures n0 == |TeamSeq(duelists, 0, t0Count)| && n1 == |TeamSeq(duelists, 1, t1Count)|
    {
      n0, n1 := 0, 0;
      var rest := duelists.Keys;
      ghost var done: set<Pos> := {};
      while rest != {}
        invariant done + rest == duelists.Keys && done !! rest
        invariant n0 == |OfTeam(done, 0)| && n1 == |OfTeam(done, 1)|
        decreases |rest|
      {
        hide OfTeam;
        var kv :| kv in rest;
        OfTeamAdd(done, kv, 0);
        OfTeamAdd(done, kv, 1);
        if kv.0 == 0 {
          n0 := n0 + 1;
        } else {
          n1 := n1 + 1;
        }
        done, rest := done + {kv}, rest - {kv};
      }
      OfTeamCount(duelists, t0Count, t1Count);
      assert done == duelists.Keys;
    }

    /** Nothing but the seats of one team changed. */
    twostate predicate OnlyTeam(team: nat)
      reads this, joined
    {
      && joined == old(joined) && spectators == old(spectators) && state == old(state) && isStarted == old(isStarted)
      && wins == old(wins)
      && (forall p: Pos :: p.0 != team ==> (p in duelists <==> p in old(duelists)))
      && (forall p: Pos :: p.0 != team && p in duelists ==> duelists[p] == old(duelists)[p])
      && (forall c :: c in joined ==> c.ready == old(c.ready))
      && (forall c :: c in joined && c !in old(TeamSeq(duelists, team, Count(team))) ==> c.position == old(c.position))
    }

    /** Moves a team's duelists down to its first places, keeping their order. */
    method TightenTeam(team: nat, max: nat)
      requires 1 <= t0Count <= 3 && 1 <= t1Count <= 3 && team <= 1
      requires SeatsAgree() && max == |TeamSeq(duelists, team, Count(team))|
      modifies this`duelists, joined`position
      ensures SeatsAgree() && Tight(duelists, team, max)
      ensures TeamSeq(duelists, team, Count(team)) == old(TeamSeq(duelists, team, Count(team)))
      ensures OnlyTeam(team)
    {
      hide SeatsAgree, TeamSeq, Tight;
      for i := 0 to max
        invariant SeatsAgree() && OnlyTeam(team)
        invariant TeamSeq(duelists, team, Count(team)) == old(TeamSeq(duelists, team, Count(team)))
        invariant forall j: nat :: j < i ==> (team, j) in duelists
      {
        var full := TightenOnce(team, max, i);
        if full {
          TightWhenFull(team, max);
          return;
        }
      }
      TightWhenFull(team, max);
    }

    /** One round: the first empty place gets the nearest duelist behind it. */
    method TightenOnce(team: nat, max: nat, ghost i: nat) returns (full: bool)
      requires 1 <= t0Count <= 3 && 1 <= t1Count <= 3 && team <= 1
      requires SeatsAgree() && max == |TeamSeq(duelists, team, Count(team))|
      requires i < max && forall j: nat :: j < i ==> (team, j) in duelists
      modifies this`duelists, joined`position
      ensures SeatsAgree() && OnlyTeam(team)
      ensures TeamSeq(duelists, team, Count(team)) == old(TeamSeq(duelists, team, Count(team)))
      ensures forall j: nat :: j < (if full then max else i + 1) ==> (team, j) in duelists
    {
      hide SeatsAgree, TeamSeq;
      var newPos := FindEmpty(team, max);
      if newPos.None? {
        return true;
      }
      AgreeOnSeats();
      var oldPos := FindNearest(team, newPos.value.1, max);
      MoveDuelist(team, oldPos, newPos.value.1);
      return false;
    }

    lemma AgreeOnSeats()
      requires SeatsAgree()
      ensures OnSeats(duelists, t0Count, t1Count)
    {
    }

    lemma TightWhenFull(team: nat, max: nat)
      requires 1 <= t0Count <= 3 && 1 <= t1Count <= 3 && team <= 1
      requires SeatsAgree() && max == |TeamSeq(duelists, team, Count(team))|
      requires forall j: nat :: j < max ==> (team, j) in duelists
      ensures Tight(duelists, team, max)
    {
      NobodyElse(duelists, team, max, Count(team));
    }

    /** The first empty place below `max`. */
    method FindEmpty(team: nat, max: nat) returns (r: Option<Pos>)
      ensures r == Scan(duelists, team, 0, max)
    {
      var p := 0;
      while p < max
        invariant p <= max && Scan(duelists, team, 0, max) == Scan(duelists, team, p, max)
      {
        if (team, p) !in duelists {
          return Some((team, p));
        }
        p := p + 1;
      }
      return None;
    }

    /** The nearest duelist behind an empty place: there is one. */
    method FindNearest(team: nat, from: nat, max: nat) returns (q: nat)
      requires 1 <= t0Count <= 3 && 1 <= t1Count <= 3 && team <= 1 && OnSeats(duelists, t0Count, t1Count)
      requires max == |TeamSeq(duelists, team, Count(team))| && from < max && (team, from) !in duelists
      ensures from < q < Count(team) && (team, q) in duelists
      ensures forall i: nat :: from <= i < q ==> (team, i) !in duelists
    {
      q := from;
      while (team, q) !in duelists
        invariant from <= q < Count(team) && forall i: nat :: from <= i < q ==> (team, i) !in duelists
        decreases Count(team) - q
      {
        if q + 1 == Count(team) {
          SomebodyBehind(duelists, team, from, Count(team));
          assert false;
        }
        q := q + 1;
      }
    }

    method MoveDuelist(team: nat, q: nat, p: nat)
      requires 1 <= t0Count <= 3 && 1 <= t1Count <= 3 && team <= 1 && SeatsAgree()
      requires p < q < Count(team) && (team, q) in duelists && forall i: nat :: p <= i < q ==> (team, i) !in duelists
      modifies this`duelists, joined`position
      ensures SeatsAgree() && OnlyTeam(team)
      ensures TeamSeq(duelists, team, Count(team)) == old(TeamSeq(duelists, team, Count(team)))
      ensures duelists == (old(duelists) - {(team, q)})[(team, p) := old(duelists)[(team, q)]]
    {
      MoveKeepsOrder(duelists, team, p, q, Count(team));
      InTeamSeq(duelists, team, q, Count(team));
      var client := duelists[(team, q)];
      duelists := duelists - {(team, q)};
      client.position := (team, p);
      duelists := duelists[(team, p) := client];
    }

    method AllReady() returns (r: bool)
      requires Valid()
      ensures r <==> forall p :: p in duelists ==> duelists[p].ready
    {
      var rest := duelists.Keys;
      while rest != {}
        invariant rest <= duelists.Keys && forall p :: p in duelists && p !in rest ==> duelists[p].ready
        decreases |rest|
      {
        var kv :| kv in rest;
        if !duelists[kv].ready {
          return false;
        }
        rest := rest - {kv};
      }
      return true;
    }

    /** Both teams moved together, in a relay with somebody on each side. */
    method TightenBoth(n0: nat, n1: nat)
      requires 1 <= t0Count <= 3 && 1 <= t1Count <= 3 && SeatsAgree()
      requires n0 == |TeamSeq(duelists, 0, t0Count)| && n1 == |TeamSeq(duelists, 1, t1Count)|
      modifies this`duelists, joined`position
      ensures SeatsAgree() && Tight(duelists, 0, n0) && Tight(duelists, 1, n1)
      ensures TeamSeq(duelists, 0, t0Count) == old(TeamSeq(duelists, 0, t0Count))
      ensures TeamSeq(duelists, 1, t1Count) == old(TeamSeq(duelists, 1, t1Count))
    {
      hide SeatsAgree, TeamSeq;
      ghost var d0 := duelists;
      TightenTeam(0, n0);
      ghost var d1 := duelists;
      TeamSeqSame(d0, d1, 1, t1Count);
      TightenTeam(1, n1);
      TeamSeqSame(d1, duelists, 0, t0Count);
    }

    method ValidateDuelistsSetup() returns (ok: bool)
      requires Valid() && state.Waiting?
      modifies this`duelists, joined`position
      ensures ok <==> if relay then old(TeamSeq(duelists, 0, t0Count)) != [] && old(TeamSeq(duelists, 1, t1Count)) != []
                      else old(Full(duelists, t0Count, t1Count))
      ensures SeatsAgree() && (ok ==> Compact())
      ensures ok && relay ==> Tight(duelists, 0, |old(TeamSeq(duelists, 0, t0Count))|)
                              && Tight(duelists, 1, |old(TeamSeq(duelists, 1, t1Count))|)
      ensures joined == old(joined) && forall c :: c in joined ==> c.ready == old(c.ready)
      ensures !ok || !relay ==> duelists == old(duelists) && forall o :: o in joined ==> o.position == old(o.position)
      ensures TeamSeq(duelists, 0, t0Count) == old(TeamSeq(duelists, 0, t0Count))
      ensures TeamSeq(duelists, 1, t1Count) == old(TeamSeq(duelists, 1, t1Count))
    {
      if !relay {
        FullByCount(duelists, t0Count, t1Count);
        ok := |duelists| == t0Count + t1Count;
        if ok {
          assert Tight(duelists, 0, t0Count) && Tight(duelists, 1, t1Count);
        }
        return;
      }
      var n0, n1 := GetTeamCounts();
      if n0 == 0 || n1 == 0 {
        return false;
      }
      TightenBoth(n0, n1);
      return true;
    }

    /** The host starts the duel when all are ready and every seat is taken, or,
      * in a relay, when both teams have somebody. */
    method WaitingTryStart(c: Client) returns (next: Option<State>)
      requires Valid() && state.Waiting? && c in joined
      modifies this`duelists, this`isStarted, joined`position
      ensures next.Some? <==>
                && old(state).host == c && old(forall p :: p in duelists ==> duelists[p].ready)
                && (if relay then old(TeamSeq(duelists, 0, t0Count)) != [] && old(TeamSeq(duelists, 1, t1Count)) != []
                    else old(Full(duelists, t0Count, t1Count)))
      ensures next.Some? ==> next.value == RockPaperScissor((0, 0)) && Entering(next.value)
      ensures next.None? || !relay ==> duelists == old(duelists) && forall o :: o in joined ==> o.position == old(o.position)
      ensures next.None? ==> Valid()
      ensures TeamSeq(duelists, 0, t0Count) == old(TeamSeq(duelists, 0, t0Count))
      ensures TeamSeq(duelists, 1, t1Count) == old(TeamSeq(duelists, 1, t1Count))
      ensures Starts(c, old(Now()), Asked(next))
    {
      hide SeatsAgree, Compact, Tight, Full, TeamSeq, Starts;
      next := None;
      var ready := AllReady();
      if state.host == c && ready {
        var ok := ValidateDuelistsSetup();
        if ok {
          isStarted := true;
          next := Some(RockPaperScissor((0, 0)));
        }
      }
      ReadyOrNot(c);
      StartsAs(c, next);
    }

    /** Readiness is looked up in seats or in the whole room alike. */
    twostate lemma ReadyOrNot(c: Client)
      requires old(Valid()) && old(state).Waiting?
      ensures MayStart(c, old(Now())) <==>
                && old(state).host == c && old(forall p :: p in duelists ==> duelists[p].ready)
                && (if relay then old(TeamSeq(duelists, 0, t0Count)) != [] && old(TeamSeq(duelists, 1, t1Count)) != []
                    else old(Full(duelists, t0Count, t1Count)))
    {
      hide Full, TeamSeq;
      assert forall p :: p in old(duelists) ==> old(duelists[p]) in old(joined);
    }

    twostate lemma StartsAs(c: Client, new next: Option<State>)
      requires joined == old(joined) && spectators == old(spectators) && state == old(state) && wins == old(wins)
      requires isTeam1GoingFirst == old(isTeam1GoingFirst) && isStarted == (next.Some? || old(isStarted))
      requires forall o :: o in joined ==> o.ready == old(o.ready)
      requires next.Some? <==> MayStart(c, old(Now()))
      requires next.Some? ==> next.value == RockPaperScissor((0, 0))
      requires next.None? || !relay ==> duelists == old(duelists) && forall o :: o in joined ==> o.position == old(o.position)
      requires TeamSeq(duelists, 0, t0Count) == old(TeamSeq(duelists, 0, t0Count))
      requires TeamSeq(duelists, 1, t1Count) == old(TeamSeq(duelists, 1, t1Count))
      requires next.Some? && relay ==> Tight(duelists, 0, |old(TeamSeq(duelists, 0, t0Count))|)
                                       && Tight(duelists, 1, |old(TeamSeq(duelists, 1, t1Count))|)
      ensures Starts(c, old(Now()), Asked(next))
    {
      hide MayStart, TeamSeq, Tight;
      SameReadies();
      if next.None? || !relay {
        NobodyMoved();
      }
    }

    // --------------------------------------------------------- before the duel

    /** In a started room both first places are taken: leaders are always found. */
    lemma LeadersThere()
      requires 1 <= t0Count && 1 <= t1Count && Compact()
      ensures (0, 0) in duelists && (1, 0) in duelists
    {
      var n0: nat, n1: nat :| 1 <= n0 <= t0Count && 1 <= n1 <= t1Count && Tight(duelists, 0, n0) && Tight(duelists, 1, n1);
      assert (0, 0) in duelists <==> 0 < n0;
      assert (1, 0) in duelists <==> 0 < n1;
    }

    /** Leaving a started room ends it, unless only a spectator leaves. */
    method StartedConnectionLost(c: Client) returns (next: Option<State>)
      requires Valid() && Started(state) && !state.Dueling? && c in joined
      modifies this`spectators
      ensures next == if c.position == SPECTATOR then None else Some(Closing)
      ensures Valid() && spectators == if c.position == SPECTATOR then old(spectators) - {c} else old(spectators)
      ensures StartedLoses(c, old(Now()), Asked(next), false)
    {
      NobodyMoved();
      if c.position == SPECTATOR {
        spectators := spectators - {c};
        return None;
      }
      return Some(Closing);
    }

    method StartedJoin(c: Client) returns (next: Option<State>)
      requires Valid() && Started(state) && c !in joined && c.position == SPECTATOR && !c.ready
      modifies this`spectators, this`joined, c`position
      ensures Valid() && next.None? && joined == old(joined) + {c} && c in spectators && OthersKept(c)
      ensures StartedGets(c, old(Now()), Now())
    {
      joined := joined + {c};
      SetupAsSpectator(c);
      next := None;
      OnlyMoved(c);
    }

    method RPSChoose(c: Client, value: nat) returns (next: Option<State>)
      requires Valid() && state.RockPaperScissor? && c in joined
      modifies this`state
      ensures next.None? ==> Valid()
      ensures next.Some? ==> Entering(next.value) && (next.value.RockPaperScissor? || next.value.ChoosingTurn?)
      ensures state.RockPaperScissor?
      ensures next.None? <==> c.position.1 != 0 || value > 3 || state.choices.0 == 0 || state.choices.1 == 0
      ensures next.Some? && next.value.RockPaperScissor? ==>
                next.value == RockPaperScissor((0, 0)) && state.choices.0 == state.choices.1
      ensures next.Some? && next.value.ChoosingTurn? ==>
                var ch := state.choices;
                || (Beats(ch.0, ch.1) && (0, 0) in duelists && next.value.turnChooser == duelists[(0, 0)])
                || (Beats(ch.1, ch.0) && (1, 0) in duelists && next.value.turnChooser == duelists[(1, 0)])
      ensures state == if c.position.1 != 0 || value > 3 then old(state)
                       else RockPaperScissor(if c.position.0 == 0 then (value, old(state).choices.1)
                                             else (old(state).choices.0, value))
      ensures Shows(c, value, old(Now()), Asked(next))
    {
      hide SeatsAgree, Compact, TurnOrderOK, Shows;
      next := None;
      LeadersThere();
      if c.position.1 == 0 && value <= 3 {
        var ch := if c.position.0 == 0 then (value, state.choices.1) else (state.choices.0, value);
        state := RockPaperScissor(ch);
        if ch.0 != 0 && ch.1 != 0 {
          var second := (ch.1 == ROCK && ch.0 == SCISSOR) || (ch.1 == PAPER && ch.0 == ROCK) || (ch.1 == SCISSOR && ch.0 == PAPER);
          next := Some(if ch.0 == ch.1 then RockPaperScissor((0, 0)) else ChoosingTurn(duelists[if second then (1, 0) else (0, 0)]));
        }
      }
      ShowsAs(c, value, next);
    }

    /** What the handler answers is what the hands lead to. */
    twostate lemma ShowsAs(c: Client, new value: nat, new next: Option<State>)
      requires old(state).RockPaperScissor? && c in joined && OnlyScored() && wins == old(wins)
      requires (0, 0) in duelists && (1, 0) in duelists && old(state).choices.0 <= 3 && old(state).choices.1 <= 3
      requires state == if c.position.1 != 0 || value > 3 then old(state)
                        else RockPaperScissor(if c.position.0 == 0 then (value, old(state).choices.1)
                                              else (old(state).choices.0, value))
      requires next.None? <==> c.position.1 != 0 || value > 3 || state.choices.0 == 0 || state.choices.1 == 0
      requires next.Some? ==>
                 var ch := state.choices;
                 if ch.0 == ch.1 then next.value == RockPaperScissor((0, 0))
                 else next.value == ChoosingTurn(duelists[if Beats(ch.1, ch.0) then (1, 0) else (0, 0)])
      ensures Shows(c, value, old(Now()), Asked(next))
    {
      hide Beats;
      NobodyMoved();
      if next.Some? && state.choices.0 != state.choices.1 {
        WhoBeats(state.choices.0, state.choices.1);
      }
    }

    lemma WhoBeats(a: nat, b: nat)
      requires 1 <= a <= 3 && 1 <= b <= 3 && a != b
      ensures (a - b) % 3 == 1 <==> Beats(a, b)
      ensures Beats(a, b) <==> !Beats(b, a)
    {
    }

    /** The turn chooser decides which team goes first. */
    method ChooseTurn(c: Client, goingFirst: bool) returns (next: Option<State>)
      requires Valid() && state.ChoosingTurn? && c in joined
      modifies this`isTeam1GoingFirst, this`start, this`swaps
      ensures next.Some? <==> old(state).turnChooser == c
      ensures next.None? ==> Valid()
      ensures next.Some? ==> Entering(next.value) && next.value.Dueling?
      ensures next.Some? ==> next.value == Dueling(start, null, (0, 0), false)
      ensures next.Some? ==> (isTeam1GoingFirst <==> (c.position.0 == 1) == goingFirst) && swaps == (0, 0)
      ensures BeginsDuel(c, goingFirst, CoreRun([], false), old(Now()), Asked(next), false)
    {
      hide SeatsAgree, Compact, Tight, BeginsDuel, Places, Readies, InOrder;
      SeatBounds(c);
      next := None;
      if state.turnChooser == c {
        LeaderSits(c);
        isTeam1GoingFirst := (c.position.0 == 0 && !goingFirst) || (c.position.0 == 1 && goingFirst);
        var order := DecidePlayerOrder();
        start, swaps := order, (0, 0);
        StartsInOrder(order, t0Count, t1Count);
        next := Some(Dueling(order, null, (0, 0), false));
      }
      BeginsAs(c, goingFirst, next);
    }

    twostate lemma BeginsAs(c: Client, new goingFirst: bool, new next: Option<State>)
      requires old(state).ChoosingTurn? && c in joined && 1 <= t0Count && 1 <= t1Count
      requires state == old(state) && wins == old(wins) && OnlyButOrder()
      requires next.Some? <==> old(state).turnChooser == c
      requires next.None? ==> isTeam1GoingFirst == old(isTeam1GoingFirst)
      requires next.Some? ==>
                 && isTeam1GoingFirst == ((c.position.0 == 0 && !goingFirst) || (c.position.0 == 1 && goingFirst))
                 && c.position.0 <= 1 && next.value == Dueling(FirstPlaces(isTeam1GoingFirst), null, (0, 0), false)
      ensures BeginsDuel(c, goingFirst, CoreRun([], false), old(Now()), Asked(next), false)
    {
      hide Processes;
      NobodyMoved();
    }

    /** Nothing but the order of the teams changed. */
    twostate predicate OnlyButOrder()
      reads this, joined
    {
      && duelists == old(duelists) && spectators == old(spectators) && isStarted == old(isStarted) && joined == old(joined)
      && forall c :: c in joined ==> c.position == old(c.position) && c.ready == old(c.ready)
    }

    lemma LeaderSits(c: Client)
      requires SeatsAgree() && IsLeader(c)
      ensures c.position == (0, 0) || c.position == (1, 0)
    {
    }

    method DecidePlayerOrder() returns (order: (nat, nat))
      requires 1 <= t0Count <= 3 && 1 <= t1Count <= 3 && SeatsAgree() && Compact()
      ensures order == FirstPlaces(isTeam1GoingFirst) && order.0 < t0Count && order.1 < t1Count
    {
      if relay {
        return (0, 0);
      }
      var n0, n1 := CountsOf();
      return (if isTeam1GoingFirst then n0 - 1 else 0, if isTeam1GoingFirst then 0 else n1 - 1);
    }

    /** In a duel that is no relay the teams are complete. */
    method CountsOf() returns (n0: nat, n1: nat)
      requires 1 <= t0Count <= 3 && 1 <= t1Count <= 3 && SeatsAgree() && Compact() && !relay
      ensures n0 == t0Count && n1 == t1Count
    {
      n0, n1 := GetTeamCounts();
      TeamSeqPrefix(duelists, 0, t0Count, t0Count);
      TeamSeqPrefix(duelists, 1, t1Count, t1Count);
    }

    // ---------------------------------------------------------------- the duel

    function Swapped(team: nat): nat
      requires team <= 1
      reads this`isTeam1GoingFirst
    {
      SwappedTeam(isTeam1GoingFirst, team)
    }

    /** The index the core knows a place by: the team that goes second has its
      * places moved on by one (Dueling.cpp:147). */
    ghost function CoreIndex(t: nat, place: nat): nat
      requires 1 <= t0Count && 1 <= t1Count
      reads this`start
    {
      (place + if At(start, t) != 0 then 1 else 0) % Count(t)
    }

    /** In a duel that is no relay the place whose turn it is is taken, and the
      * core knows it by the number of tag swaps so far. */
    lemma TurnIsTaken(t: nat)
      requires Valid() && state.Dueling? && !relay && t <= 1
      ensures (t, At(state.currentPos, t)) in duelists
      ensures CoreIndex(t, At(state.currentPos, t)) == At(swaps, t) % Count(t)
    {
      var n := Count(t);
      var s, k := At(start, t), At(swaps, t);
      assert Tight(duelists, t, n);
      assert s == 0 || s == n - 1;
      if s != 0 {
        assert (n - 1 + k) % n + 1 == if k % n == 0 then n else k % n by {
          PreviousMod(k, n);
        }
      }
    }

    /** The core's places are a renumbering of the seats. The replay is given each
      * deck together with the name found at its new number (Dueling.cpp:162-167),
      * which is the owner's name only in the team that goes first, or alone. */
    lemma ReplayNames(t: nat, place: nat)
      requires Valid() && state.Dueling? && !relay && t <= 1 && place < Count(t)
      ensures (t, place) in duelists && (t, CoreIndex(t, place)) in duelists
      ensures duelists[(t, CoreIndex(t, place))] == duelists[(t, place)] <==> At(start, t) == 0
    {
      var n := Count(t);
      assert Tight(duelists, t, n);
      assert At(start, t) == 0 || At(start, t) == n - 1;
      assert CoreIndex(t, place) < n;
      if At(start, t) != 0 {
        assert CoreIndex(t, place) == if place + 1 < n then place + 1 else 0;
      }
    }

    /** In a relay the turn is with a place that may be empty: it is taken
      * exactly when the swaps, counted round, are fewer than the team. */
    lemma RelayTurnTaken(t: nat, n: nat)
      requires Valid() && state.Dueling? && relay && t <= 1 && Tight(duelists, t, n)
      ensures (t, At(state.currentPos, t)) in duelists <==> At(swaps, t) % Count(t) < n
    {
      assert At(start, t) == 0;
    }

    /** The turns as they are. */
    ghost function TurnsNow(): Turns
      requires state.Dueling?
      reads this, if state.Dueling? && state.replier != null then {state.replier} else {}
    {
      Turns(state.currentPos, if state.replier == null then None else Some(state.replier.position), state.retries,
            state.matchKill)
    }

    /** The table as it is. */
    function Here(): Table
      reads this`isTeam1GoingFirst, this`duelists
    {
      Table(t0Count, t1Count, duelists.Keys, isTeam1GoingFirst)
    }

    /** One message, at the table as it is. */
    ghost function Step(t: Turns, msg: CoreMsg): Outcome
      requires 1 <= t0Count && 1 <= t1Count && MsgOK(msg)
      reads this`isTeam1GoingFirst, this`duelists
    {
      Here().Step(t, msg)
    }

    /** The messages one after the other. */
    ghost function Run(t: Turns, msgs: seq<CoreMsg>): Outcome
      requires 1 <= t0Count && 1 <= t1Count && AllOK(msgs)
      reads this`isTeam1GoingFirst, this`duelists
    {
      Here().Run(t, msgs)
    }

    lemma RunNext(t: Turns, msgs: seq<CoreMsg>, i: nat)
      requires 1 <= t0Count && 1 <= t1Count && AllOK(msgs) && i < |msgs| && Run(t, msgs[..i]).Running?
      ensures Run(t, msgs[..i + 1]) == Step(Run(t, msgs[..i]).turns, msgs[i])
    {
      assert msgs[..i + 1][..i] == msgs[..i];
    }

    /** What has ended stays as it ended. */
    lemma {:induction false} RunStops(t: Turns, msgs: seq<CoreMsg>, i: nat)
      requires 1 <= t0Count && 1 <= t1Count && AllOK(msgs) && i <= |msgs| && !Run(t, msgs[..i]).Running?
      ensures Run(t, msgs) == Run(t, msgs[..i])
      decreases |msgs|
    {
      if i == |msgs| {
        assert msgs[..i] == msgs;
      } else {
        var front := msgs[..|msgs| - 1];
        assert front[..i] == msgs[..i];
        RunStops(t, front, i);
      }
    }

    /** While the duel goes on, the turns have moved by the number of swaps, and
      * the match kill is remembered. */
    lemma {:induction false} TurnsMoved(t: Turns, msgs: seq<CoreMsg>, k: nat)
      requires 1 <= t0Count && 1 <= t1Count && AllOK(msgs) && k <= 1 && Run(t, msgs).Running?
      requires t.pos.0 < t0Count && t.pos.1 < t1Count
      ensures (Swapped(k), At(Run(t, msgs).turns.pos, Swapped(k))) == Addressee(t.pos, msgs, k)
      ensures Run(t, msgs).turns.killed <==> t.killed || MatchKill in msgs
      decreases |msgs|
    {
      if msgs != [] {
        var front, msg := msgs[..|msgs| - 1], msgs[|msgs| - 1];
        TurnsMoved(t, front, k);
        assert MatchKill in msgs <==> MatchKill in front || msg == MatchKill by {
          assert msgs == front + [msg];
        }
        NextMod(At(t.pos, Swapped(k)) + Swaps(front, k), Count(Swapped(k)));
      } else {
        Arith.DivModUnique(At(t.pos, Swapped(k)), Count(Swapped(k)), 0, At(t.pos, Swapped(k)));
      }
    }

    /** The team asked last, if anybody was. */
    ghost function LastAsked(asked: Option<nat>, msgs: seq<CoreMsg>): Option<nat>
      requires AllOK(msgs)
      reads this`isTeam1GoingFirst
    {
      if msgs == [] then asked
      else
        var msg := msgs[|msgs| - 1];
        if Asks(msg) then Some(Swapped(msg.team)) else LastAsked(asked, msgs[..|msgs| - 1])
    }

    /** How many of the messages complain about an answer of team `k`. */
    ghost function WrongAnswers(asked: Option<nat>, msgs: seq<CoreMsg>, k: nat): nat
      requires AllOK(msgs)
      reads this`isTeam1GoingFirst
    {
      if msgs == [] then 0
      else
        var front := msgs[..|msgs| - 1];
        WrongAnswers(asked, front, k) + if msgs[|msgs| - 1].Retry? && LastAsked(asked, front) == Some(k) then 1 else 0
    }

    /** None of the messages ends the duel: nobody wins, and no team gives a
      * second wrong answer. */
    ghost predicate NoneEnds(t: Turns, msgs: seq<CoreMsg>)
      requires AllOK(msgs)
      reads this`isTeam1GoingFirst
    {
      && (forall i :: 0 <= i < |msgs| ==> !msgs[i].Win?)
      && t.retries.0 + WrongAnswers(AskedTeam(t), msgs, 0) <= 1
      && t.retries.1 + WrongAnswers(AskedTeam(t), msgs, 1) <= 1
    }

    ghost function AskedTeam(t: Turns): Option<nat> {
      if t.asked.None? then None else Some(t.asked.value.0)
    }

    /** Message `i` is for a duelist whose place, that of the swaps so far modulo
      * the team limit, nobody has; or it complains to nobody. */
    ghost predicate LooksUpNobody(t: Turns, msgs: seq<CoreMsg>, i: nat)
      requires 1 <= t0Count && 1 <= t1Count && AllOK(msgs) && i < |msgs|
      reads this`isTeam1GoingFirst, this`duelists
    {
      || (msgs[i].ForDuelist? && Addressee(t.pos, msgs[..i], msgs[i].team) !in duelists)
      || (msgs[i].Retry? && LastAsked(AskedTeam(t), msgs[..i]).None?)
    }

    ghost predicate StartOK(t: Turns) {
      && t.pos.0 < t0Count && t.pos.1 < t1Count && t.retries.0 <= 1 && t.retries.1 <= 1
      && (t.asked.Some? ==> t.asked.value.0 <= 1)
    }

    /** The duel goes on as long as no message ends it and nobody is looked up in
      * vain; it then remembers who was asked, and every wrong answer. */
    lemma {:induction false} GoesOnIff(t: Turns, msgs: seq<CoreMsg>)
      requires 1 <= t0Count && 1 <= t1Count && AllOK(msgs) && StartOK(t)
      ensures Run(t, msgs).Running? <==> NoneEnds(t, msgs) && forall i :: 0 <= i < |msgs| ==> !LooksUpNobody(t, msgs, i)
      ensures Run(t, msgs).Running? ==>
                var u := Run(t, msgs).turns;
                && AskedTeam(u) == LastAsked(AskedTeam(t), msgs)
                && u.retries.0 == t.retries.0 + WrongAnswers(AskedTeam(t), msgs, 0)
                && u.retries.1 == t.retries.1 + WrongAnswers(AskedTeam(t), msgs, 1)
                && (u.asked.Some? ==> u.asked.value.0 <= 1)
      decreases |msgs|
    {
      if msgs != [] {
        var n := |msgs| - 1;
        var front, msg := msgs[..n], msgs[n];
        GoesOnIff(t, front);
        SameInFront(t, msgs);
        if Run(t, front).Running? && msg.ForDuelist? {
          TurnsMoved(t, front, msg.team);
        }
      }
    }

    lemma SameInFront(t: Turns, msgs: seq<CoreMsg>)
      requires 1 <= t0Count && 1 <= t1Count && AllOK(msgs) && msgs != []
      ensures var front := msgs[..|msgs| - 1];
              (forall i :: 0 <= i < |msgs| ==> !LooksUpNobody(t, msgs, i))
              <==> (forall i :: 0 <= i < |front| ==> !LooksUpNobody(t, front, i)) && !LooksUpNobody(t, msgs, |front|)
      ensures var front := msgs[..|msgs| - 1];
              (forall i :: 0 <= i < |msgs| ==> !msgs[i].Win?)
              <==> (forall i :: 0 <= i < |front| ==> !front[i].Win?) && !msgs[|front|].Win?
    {
      var n := |msgs| - 1;
      var front := msgs[..n];
      forall i | 0 <= i < n ensures LooksUpNobody(t, front, i) <==> LooksUpNobody(t, msgs, i) {
        assert front[..i] == msgs[..i];
      }
    }

    lemma {:induction false} NoneEndsBefore(t: Turns, msgs: seq<CoreMsg>, i: nat)
      requires AllOK(msgs) && i <= |msgs| && NoneEnds(t, msgs)
      ensures NoneEnds(t, msgs[..i])
      decreases |msgs|
    {
      if i == |msgs| {
        assert msgs[..i] == msgs;
      } else {
        var front := msgs[..|msgs| - 1];
        assert front[..i] == msgs[..i];
        NoneEndsBefore(t, front, i);
      }
    }

    /** Somebody is looked up in vain exactly when a message does so before which
      * none ends the duel. */
    lemma LostWhenMissed(t: Turns, msgs: seq<CoreMsg>)
      requires 1 <= t0Count && 1 <= t1Count && AllOK(msgs) && StartOK(t)
      ensures Run(t, msgs).Lost? <==> exists i :: 0 <= i < |msgs| && NoneEnds(t, msgs[..i]) && LooksUpNobody(t, msgs, i)
    {
      hide Run, NoneEnds, LooksUpNobody, StartOK;
      if Run(t, msgs).Lost? {
        var i := LostMessage(t, msgs);
      } else if i: nat :| i < |msgs| && NoneEnds(t, msgs[..i]) && LooksUpNobody(t, msgs, i) {
        MissedIsLost(t, msgs, i);
      }
    }

    lemma {:induction false} LostMessage(t: Turns, msgs: seq<CoreMsg>) returns (i: nat)
      requires 1 <= t0Count && 1 <= t1Count && AllOK(msgs) && StartOK(t) && Run(t, msgs).Lost?
      ensures i < |msgs| && NoneEnds(t, msgs[..i]) && LooksUpNobody(t, msgs, i)
      decreases |msgs|
    {
      hide Step, NoneEnds, StartOK;
      var front := msgs[..|msgs| - 1];
      i := |front|;
      if Run(t, front).Lost? {
        i := LostMessage(t, front);
        assert front[..i] == msgs[..i];
      } else {
        GoesOnIff(t, front);
        assert msgs[..i + 1] == msgs;
        LostAt(t, msgs, i);
      }
    }

    /** The step over message `i` fails exactly when it looks up nobody. */
    lemma LostAt(t: Turns, msgs: seq<CoreMsg>, i: nat)
      requires 1 <= t0Count && 1 <= t1Count && AllOK(msgs) && StartOK(t) && i < |msgs| && Run(t, msgs[..i]).Running?
      ensures Run(t, msgs[..i + 1]).Lost? <==> LooksUpNobody(t, msgs, i)
    {
      RunNext(t, msgs, i);
      GoesOnIff(t, msgs[..i]);
      if msgs[i].ForDuelist? {
        TurnsMoved(t, msgs[..i], msgs[i].team);
      }
    }

    lemma {:induction false} MissedIsLost(t: Turns, msgs: seq<CoreMsg>, i: nat)
      requires 1 <= t0Count && 1 <= t1Count && AllOK(msgs) && StartOK(t)
      requires i < |msgs| && NoneEnds(t, msgs[..i]) && LooksUpNobody(t, msgs, i)
      ensures Run(t, msgs).Lost?
      decreases i
    {
      GoesOnIff(t, msgs[..i]);
      if Run(t, msgs[..i]).Running? {
        LostAt(t, msgs, i);
        RunStops(t, msgs, i + 1);
      } else {
        var j: nat :| j < i && LooksUpNobody(t, msgs[..i], j);
        NoneEndsBefore(t, msgs[..i], j);
        MissedIsLost(t, msgs[..i], j);
        RunStops(t, msgs, i);
      }
    }

    /** In a duel that is no relay everybody who is addressed is there, and each
      * team has at most one wrong answer forgiven. */
    lemma {:induction false} NobodyLost(t: Turns, msgs: seq<CoreMsg>)
      requires Valid() && state.Dueling? && !relay && t.pos.0 < t0Count && t.pos.1 < t1Count
      requires RunOK(CoreRun(msgs, false), t.asked.Some?)
      ensures !Run(t, msgs).Lost?
      ensures Run(t, msgs).Running? ==>
                (Run(t, msgs).turns.asked.Some? <==> t.asked.Some? || exists j :: 0 <= j < |msgs| && Asks(msgs[j]))
      decreases |msgs|
    {
      hide Valid, SeatsAgree, StateOK, Compact, Tight, RunOK, Asks, Addressee;
      RunIsOK(msgs, t.asked.Some?);
      if msgs != [] {
        var front, msg := msgs[..|msgs| - 1], msgs[|msgs| - 1];
        RunFront(msgs, t.asked.Some?);
        NobodyLost(t, front);
        if Run(t, front).Running? && msg.ForDuelist? {
          TurnsMoved(t, front, msg.team);
          AddresseeThere(t.pos, front, msg.team);
        }
      }
    }

    lemma RunIsOK(msgs: seq<CoreMsg>, asked: bool)
      requires RunOK(CoreRun(msgs, false), asked)
      ensures AllOK(msgs)
    {
    }

    lemma RunFront(msgs: seq<CoreMsg>, asked: bool)
      requires RunOK(CoreRun(msgs, false), asked) && msgs != []
      ensures var front, msg := msgs[..|msgs| - 1], msgs[|msgs| - 1];
              && RunOK(CoreRun(front, false), asked) && MsgOK(msg)
              && (msg.Retry? ==> asked || exists j :: 0 <= j < |front| && Asks(front[j]))
              && (Asks(msg) <==> msg.ForDuelist? && msg.asks)
              && ((exists j :: 0 <= j < |msgs| && Asks(msgs[j]))
                  <==> (exists j :: 0 <= j < |front| && Asks(front[j])) || Asks(msg))
    {
      var front, msg := msgs[..|msgs| - 1], msgs[|msgs| - 1];
      if j :| 0 <= j < |msgs| && Asks(msgs[j]) {
        assert j < |front| ==> Asks(front[j]);
      }
      if j :| 0 <= j < |front| && Asks(front[j]) {
        assert Asks(msgs[j]);
      }
    }

    lemma AddresseeThere(cp: (nat, nat), before: seq<CoreMsg>, t: nat)
      requires Valid() && state.Dueling? && !relay && t <= 1
      ensures Addressee(cp, before, t) in duelists
    {
      assert Tight(duelists, 0, t0Count) && Tight(duelists, 1, t1Count);
    }

    /** The room after processing stands where the messages lead. */
    ghost predicate Stands(o: Outcome)
      reads this, if state.Dueling? && state.replier != null then {state.replier} else {}
    {
      match o
      case Running(t) => state.Dueling? && TurnsNow() == t
      case Over(t, _) => state.Dueling? && TurnsNow() == t
      case Lost => state.Broken?
    }

    /** One message. `Broken` is only reached in relays. */
    method ProcessMsg(msg: CoreMsg) returns (finish: Option<Finish>)
      requires Valid() && state.Dueling? && MsgOK(msg) && (msg.Retry? ==> state.replier != null)
      modifies this`state, this`swaps
      ensures Valid() && Stands(Step(old(TurnsNow()), msg)) && finish == Verdict(Step(old(TurnsNow()), msg), false)
      ensures finish.Some? ==> finish.value.winner <= 2
      ensures SwapsCounted(old(swaps), [msg])
      ensures state.Dueling? ==> (state.replier != null <==> old(state).replier != null || Asks(msg))
    {
      hide SeatsAgree, Compact, InOrder, Tight, Swaps;
      finish := None;
      OneSwap(msg);
      match msg {
        case TagSwap(t) =>
          MoveTurn(Swapped(t));
        case ForDuelist(t, asks) =>
          var place: Pos := (Swapped(t), At(state.currentPos, Swapped(t)));
          if place !in duelists {
            if !relay {
              TurnIsTaken(Swapped(t));
            }
            state := Broken;
          } else if asks {
            SitsThere(place);
            state := state.(replier := duelists[place]);
          }
        case MatchKill =>
          state := state.(matchKill := true);
        case Retry =>
          var team := state.replier.position.0;
          if At(state.retries, team) < 1 {
            state := state.(retries := Scored(state.retries, team, 1));
          } else { // the counter is dropped with the duel
            return Some(Finish(WrongResponse, Opponent(team)));
          }
        case Win(player) =>
          return Some(Finish(DuelWon, if player > 1 then 2 else Swapped(player)));
      }
    }

    /** `Process`, as far as it concerns seats and the end of the duel. */
    method Process(run: CoreRun) returns (finish: Option<Finish>)
      requires Valid() && state.Dueling? && RunOK(run, state.replier != null)
      modifies this`state, this`swaps
      ensures Valid()
      ensures Stands(Run(old(TurnsNow()), run.msgs))
      ensures finish == Verdict(Run(old(TurnsNow()), run.msgs), run.crashed) && (finish.Some? ==> finish.value.winner <= 2)
      ensures Run(old(TurnsNow()), run.msgs).Running? ==> SwapsCounted(old(swaps), run.msgs)
    {
      hide Valid, SeatsAgree, StateOK, Compact, Step, Run, RunOK, Swaps, SwapsCounted, Stands, Verdict, TurnsNow, MsgOK, Asks;
      ghost var t0, sw := TurnsNow(), swaps;
      StartsRunning(run);
      for i := 0 to |run.msgs|
        invariant Valid() && state.Dueling? && 1 <= t0Count && 1 <= t1Count && AllOK(run.msgs)
        invariant Run(t0, run.msgs[..i]) == Running(TurnsNow()) && SwapsCounted(sw, run.msgs[..i])
        invariant RunOK(CoreRun(run.msgs[i..], run.crashed), state.replier != null)
      {
        RunOKNext(CoreRun(run.msgs[i..], run.crashed), state.replier != null);
        assert run.msgs[i..][1..] == run.msgs[i + 1..] && run.msgs[i..][0] == run.msgs[i];
        RunNext(t0, run.msgs, i);
        ghost var before := swaps;
        CountedSoFar(sw, run.msgs[..i]);
        finish := ProcessMsg(run.msgs[i]);
        SwapsNext(sw, before, run.msgs, i);
        StoppedOrNot(Step(Run(t0, run.msgs[..i]).turns, run.msgs[i]));
        if finish.Some? || state.Broken? {
          RunStops(t0, run.msgs, i + 1);
          StopsTheSame(Run(t0, run.msgs), run.crashed);
          return;
        }
      }
      assert run.msgs[..|run.msgs|] == run.msgs;
      finish := if run.crashed then Some(Finish(CoreCrashed, 2)) else None;
      RunsOut(TurnsNow(), run.crashed);
    }

    lemma SitsThere(p: Pos)
      requires SeatsAgree() && p in duelists
      ensures duelists[p].position == p && duelists[p] in duelists.Values
    {
    }

    /** The swaps since `sw` are those of the messages. */
    ghost predicate SwapsCounted(sw: (nat, nat), msgs: seq<CoreMsg>)
      reads this`swaps, this`isTeam1GoingFirst
    {
      && At(swaps, Swapped(0)) == At(sw, Swapped(0)) + Swaps(msgs, 0)
      && At(swaps, Swapped(1)) == At(sw, Swapped(1)) + Swaps(msgs, 1)
    }

    lemma StartsRunning(run: CoreRun)
      requires Valid() && state.Dueling? && RunOK(run, state.replier != null)
      ensures 1 <= t0Count && 1 <= t1Count && AllOK(run.msgs) && SwapsCounted(swaps, run.msgs[..0])
      ensures Run(TurnsNow(), run.msgs[..0]) == Running(TurnsNow()) && run == CoreRun(run.msgs[0..], run.crashed)
    {
    }

    lemma RunOKNext(run: CoreRun, asked: bool)
      requires RunOK(run, asked) && run.msgs != []
      ensures MsgOK(run.msgs[0]) && (run.msgs[0].Retry? ==> asked)
      ensures RunOK(CoreRun(run.msgs[1..], run.crashed), asked || Asks(run.msgs[0]))
    {
      var rest := run.msgs[1..];
      forall i | 0 <= i < |rest| && rest[i].Retry? && !asked && !Asks(run.msgs[0])
        ensures exists j :: 0 <= j < i && Asks(rest[j])
      {
        var j :| 0 <= j < i + 1 && Asks(run.msgs[j]);
        assert Asks(rest[j - 1]);
      }
    }

    lemma CountedSoFar(sw: (nat, nat), msgs: seq<CoreMsg>)
      requires SwapsCounted(sw, msgs)
      ensures At(swaps, Swapped(0)) == At(sw, Swapped(0)) + Swaps(msgs, 0)
      ensures At(swaps, Swapped(1)) == At(sw, Swapped(1)) + Swaps(msgs, 1)
    {
    }

    lemma StoppedOrNot(o: Outcome)
      requires Stands(o)
      ensures state.Dueling? || state.Broken?
      ensures o.Running? <==> state.Dueling? && Verdict(o, false).None?
      ensures o.Running? ==> o == Running(TurnsNow())
      ensures o.Lost? <==> state.Broken?
    {
    }

    lemma StopsTheSame(o: Outcome, crashed: bool)
      requires !o.Running?
      ensures Verdict(o, crashed) == Verdict(o, false)
    {
    }

    lemma RunsOut(t: Turns, crashed: bool)
      requires state.Dueling? && t == TurnsNow()
      ensures Stands(Running(t)) && Verdict(Running(t), crashed) == if crashed then Some(Finish(CoreCrashed, 2)) else None
    {
    }

    lemma OneSwap(msg: CoreMsg)
      ensures forall t :: Swaps([msg], t) == if msg == TagSwap(t) then 1 else 0
    {
      forall t ensures Swaps([msg], t) == if msg == TagSwap(t) then 1 else 0 {
        assert [msg][..0] == [];
      }
    }

    lemma SwapsNext(sw: (nat, nat), before: (nat, nat), msgs: seq<CoreMsg>, i: nat)
      requires i < |msgs| && SwapsCounted(before, [msgs[i]])
      requires At(before, Swapped(0)) == At(sw, Swapped(0)) + Swaps(msgs[..i], 0)
      requires At(before, Swapped(1)) == At(sw, Swapped(1)) + Swaps(msgs[..i], 1)
      ensures SwapsCounted(sw, msgs[..i + 1])
    {
      OneSwap(msgs[i]);
      assert msgs[..i + 1][..i] == msgs[..i];
    }

    method MoveTurn(team: nat)
      requires Valid() && state.Dueling? && team <= 1
      modifies this`state, this`swaps
      ensures Valid() && old(state).Dueling? && state == old(state).(currentPos := old(Here()).NextPlace(old(state).currentPos, team))
      ensures At(swaps, team) == old(At(swaps, team)) + 1 && At(swaps, 1 - team) == old(At(swaps, 1 - team))
    {
      hide InOrder, SeatsAgree, Compact;
      var cp := state.currentPos;
      NextInOrder(cp, start, swaps, t0Count, t1Count, team);
      if team == 0 {
        state := state.(currentPos := ((cp.0 + 1) % t0Count, cp.1));
      } else {
        state := state.(currentPos := (cp.0, (cp.1 + 1) % t1Count));
      }
      swaps := Scored(swaps, team, 1);
    }

    /** The place a message for the core's team `t` goes to after some others. */
    ghost function Addressee(cp: (nat, nat), before: seq<CoreMsg>, t: nat): Pos
      requires 1 <= t0Count && 1 <= t1Count && t <= 1
      reads this`isTeam1GoingFirst
    {
      (Swapped(t), (At(cp, Swapped(t)) + Swaps(before, t)) % Count(Swapped(t)))
    }

    /** What the end of a duel leads to: the score, and who decides what happens
      * next: the leader of the team that lost, or of the first team after a
      * draw. A match kill counts for the whole match, however the duel ends. */
    twostate predicate Finished(f: Finish, new next: State)
      reads this
    {
      && state.Dueling?
      && wins == (if bestOf > 1 && f.winner <= 1 && !(f.reason.LostConnection? || f.reason.CoreCrashed?)
                  then Scored(old(wins), f.winner, if state.matchKill then neededWins else 1) else old(wins))
      && (next.Closing? <==> f.reason.LostConnection? || (bestOf > 1 && (wins.0 >= neededWins || wins.1 >= neededWins)))
      && (next.Closing? || next.Sidedecking? || next.Rematching?)
      && (next.Sidedecking? ==> bestOf > 1 && next.sidedecked == {} && next.turnChooser == TurnDecider(f.winner))
      && (next.Rematching? ==> bestOf <= 1 && next.answered == {} && next.turnChooser == TurnDecider(f.winner))
    }

    /** Nothing but the score and the course of the duel changed. */
    twostate predicate OnlyScored()
      reads this, joined
    {
      && duelists == old(duelists) && spectators == old(spectators) && isStarted == old(isStarted)
      && isTeam1GoingFirst == old(isTeam1GoingFirst) && joined == old(joined)
      && forall c :: c in joined ==> c.position == old(c.position) && c.ready == old(c.ready)
    }

    twostate lemma EndsAsFinished(f: Finish, new next: State)
      requires old(Valid()) && old(state).Dueling? && f.winner <= 2
      requires OnlyScored() && Finished(f, next)
      ensures Ends(f, state.matchKill, old(Now()), Asked(Some(next)), false)
    {
      hide SeatsAgree, TurnOrderOK, Tight;
      LeadersThere();
      NobodyMoved();
    }

    /** The core's messages have been processed, and what they ask for is done. */
    twostate lemma ProcessedAs(run: CoreRun, new o: Outcome, new next: Option<State>)
      requires old(Valid()) && old(state).Dueling? && AllOK(run.msgs)
      requires o == old(Run(TurnsNow(), run.msgs)) && Stands(o) && OnlyScored()
      requires next.Some? <==> Verdict(o, run.crashed).Some?
      requires next.Some? ==> Verdict(o, run.crashed).value.winner <= 2 && Finished(Verdict(o, run.crashed).value, next.value)
      requires next.None? ==> ReplierSits() && wins == old(wins)
      ensures Processes(run, old(Now()), Asked(next), false)
    {
      hide SeatsAgree, TurnOrderOK, Tight, Compact, Finished, Ends;
      NobodyMoved();
      ReplierPlaced();
      if next.Some? {
        EndsAsFinished(Verdict(o, run.crashed).value, next.value);
      }
    }

    lemma VerdictInDuel(o: Outcome, crashed: bool)
      requires Stands(o)
      ensures Verdict(o, crashed).Some? ==> state.Dueling?
    {
    }

    twostate lemma ReplierPlaced()
      requires old(Valid()) && old(state).Dueling?
      ensures old(state).replier != null ==>
                old(state).replier in old(Places()) && old(Places())[old(state).replier] == old(state.replier.position)
    {
    }

    /** Who was asked last sits where they believe to sit. */
    ghost predicate ReplierSits()
      reads this, if state.Dueling? && state.replier != null then {state.replier} else {}
    {
      state.Dueling? && state.replier != null ==>
        state.replier.position in duelists && duelists[state.replier.position] == state.replier
    }

    lemma ReplierHasSeat()
      requires Valid()
      ensures ReplierSits()
    {
    }

    /** `Finish`. */
    method FinishDuel(f: Finish) returns (next: State)
      requires Valid() && state.Dueling? && f.winner <= 2
      modifies this`duelsHad, this`wins
      ensures Entering(next) && Finished(f, next)
    {
      hide SeatsAgree, Compact, InOrder, Tight;
      LeadersThere();
      var turnDecider := if f.winner <= 1 then duelists[(1 - f.winner, 0)] else duelists[(0, 0)];
      match f.reason {
        case LostConnection =>
          return Closing;
        case CoreCrashed =>
          return if bestOf <= 1 then Rematching(turnDecider, {}) else Sidedecking(turnDecider, {});
        case _ =>
          if bestOf <= 1 {
            return Rematching(turnDecider, {});
          }
          duelsHad := duelsHad + 1;
          if f.winner != 2 {
            wins := Scored(wins, f.winner, if state.matchKill then neededWins else 1);
            if At(wins, f.winner) >= neededWins {
              return Closing;
            }
          } else if !IsTiebreaking() && duelsHad >= bestOf {
            return Closing;
          }
          return Sidedecking(turnDecider, {});
      }
    }

    predicate IsTiebreaking() { true }

    ghost function TurnDecider(winner: nat): Client?
      reads this`duelists
    {
      var leader := if winner == 0 then (1, 0) else (0, 0);
      if leader in duelists then duelists[leader] else null
    }

    method DuelConnectionLost(c: Client) returns (next: Option<State>)
      requires Valid() && state.Dueling? && c in joined
      modifies this`spectators, this`duelsHad, this`wins
      ensures next.None? ==> Valid() && spectators == old(spectators) - {c}
      ensures next == if c.position == SPECTATOR then None else Some(Closing)
      ensures next.Some? ==> Entering(next.value) && wins == old(wins)
      ensures StartedLoses(c, old(Now()), Asked(next), false)
    {
      hide Compact, TurnOrderOK, Places, Readies;
      PlaceOf(c);
      NobodyMoved();
      if c.position == SPECTATOR {
        spectators := spectators - {c};
        return None;
      }
      var s := FinishDuel(Finish(LostConnection, 1 - c.position.0));
      return Some(s);
    }

    method DuelSurrender(c: Client) returns (next: Option<State>)
      requires Valid() && state.Dueling? && c in joined
      modifies this`spectators, this`duelsHad, this`wins
      ensures next.None? <==> c.position == SPECTATOR
      ensures next.None? ==> Valid() && spectators == old(spectators) - {c}
      ensures next.Some? ==> Entering(next.value) && !next.value.Dueling?
      ensures next.Some? ==> Finished(Finish(Surrendered, Opponent(c.position.0)), next.value)
      ensures DoesDueling(Surrender(c), old(Now()), Asked(next), false)
    {
      hide Compact, TurnOrderOK, Ends, Places, Readies;
      PlaceOf(c);
      SeatBounds(c);
      NobodyMoved();
      if c.position == SPECTATOR {
        spectators := spectators - {c};
        return None;
      }
      var s := FinishDuel(Finish(Surrendered, 1 - c.position.0));
      EndsAsFinished(Finish(Surrendered, 1 - c.position.0), s);
      return Some(s);
    }

    method DuelTimerExpired(team: nat) returns (next: Option<State>)
      requires Valid() && state.Dueling? && team <= 1
      modifies this`duelsHad, this`wins
      ensures next.Some? && Entering(next.value) && !next.value.Dueling?
      ensures Finished(Finish(TimedOut, Opponent(team)), next.value)
      ensures DoesDueling(TimerExpired(team), old(Now()), Asked(next), false)
    {
      var s := FinishDuel(Finish(TimedOut, 1 - team));
      EndsAsFinished(Finish(TimedOut, 1 - team), s);
      return Some(s);
    }

    /** Only the duelist who was asked can answer. */
    method DuelResponse(c: Client, run: CoreRun) returns (next: Option<State>)
      requires Valid() && state.Dueling? && c in joined && RunOK(run, true)
      modifies this`state, this`swaps, this`duelsHad, this`wins
      ensures old(state).replier != c ==> next.None? && state == old(state)
      ensures old(state).replier == c ==> Stands(Run(old(TurnsNow()), run.msgs))
      ensures old(state).replier == c ==> (next.Some? <==> Verdict(Run(old(TurnsNow()), run.msgs), run.crashed).Some?)
      ensures next.Some? ==> Finished(Verdict(Run(old(TurnsNow()), run.msgs), run.crashed).value, next.value)
      ensures next.None? ==> Valid()
      ensures next.Some? ==> Entering(next.value) && !next.value.Dueling?
      ensures DoesDueling(Response(c, run), old(Now()), Asked(next), false)
    {
      if state.replier != c {
        NobodyMoved();
        return None;
      }
      next := ProcessAndFinish(run);
    }

    method ProcessAndFinish(run: CoreRun) returns (next: Option<State>)
      requires Valid() && state.Dueling? && RunOK(run, state.replier != null)
      modifies this`state, this`swaps, this`duelsHad, this`wins
      ensures next.None? ==> Valid()
      ensures next.Some? ==> Entering(next.value) && !next.value.Dueling?
      ensures Stands(Run(old(TurnsNow()), run.msgs))
      ensures next.Some? <==> Verdict(Run(old(TurnsNow()), run.msgs), run.crashed).Some?
      ensures next.Some? ==> Finished(Verdict(Run(old(TurnsNow()), run.msgs), run.crashed).value, next.value)
      ensures Processes(run, old(Now()), Asked(next), false)
    {
      hide Valid, Entering, Run, RunOK, Verdict, Processes;
      StartsRunning(run);
      ghost var o := Run(TurnsNow(), run.msgs);
      var finish := Process(run);
      VerdictInDuel(o, run.crashed);
      ReplierHasSeat();
      next := None;
      if finish.Some? {
        var s := FinishDuel(finish.value);
        next := Some(s);
      }
      ProcessedAs(run, o, next);
    }

    // ------------------------------------------------------- between the duels

    /** As many answers as there are seats taken: they are everyone's exactly when
      * nobody answered who has no seat. */
    lemma Quorum(answered: set<Client>)
      requires Valid() && |answered| == |duelists|
      ensures answered == duelists.Values <==> forall c :: c in answered ==> Seated(c)
    {
      if forall c :: c in answered ==> Seated(c) {
        ValuesCount(duelists.Keys);
        assert duelists.Values == set p | p in duelists.Keys :: duelists[p];
        assert answered <= duelists.Values;
        SubsetSize(answered, duelists.Values);
      }
    }

    lemma {:induction false} ValuesCount(ps: set<Pos>)
      requires SeatsAgree() && ps <= duelists.Keys
      ensures |set p | p in ps :: duelists[p]| == |ps|
      decreases |ps|
    {
      var cs := set p | p in ps :: duelists[p];
      if ps == {} {
        assert cs == {};
      } else {
        var q :| q in ps;
        ValuesCount(ps - {q});
        assert cs == (set p | p in ps - {q} :: duelists[p]) + {duelists[q]};
      }
    }

    /** `accepted` is the verdict on the side deck. */
    method SideUpdateDeck(c: Client, accepted: bool) returns (next: Option<State>)
      requires Valid() && state.Sidedecking? && c in joined
      modifies this`state
      ensures next.None? ==> Valid()
      ensures next.Some? ==> Entering(next.value) && next.value == ChoosingTurn(old(state).turnChooser)
      ensures state == old(state).(sidedecked := if c.position != SPECTATOR && accepted then old(state).sidedecked + {c}
                                                 else old(state).sidedecked)
      ensures next.Some? <==> state != old(state) && |state.sidedecked| == |duelists|
      ensures next.Some? ==> (state.sidedecked == duelists.Values <==> forall o :: o in state.sidedecked ==> Seated(o))
      ensures ChangesDeck(c, accepted, old(Now()), Asked(next))
    {
      hide SeatsAgree, Compact, TurnOrderOK, Seated, Places, Readies;
      PlaceOf(c);
      NobodyMoved();
      if c.position == SPECTATOR || c in state.sidedecked || !accepted {
        return None;
      }
      state := state.(sidedecked := state.sidedecked + {c});
      if |state.sidedecked| == |duelists| {
        Quorum(state.sidedecked);
        return Some(ChoosingTurn(state.turnChooser));
      }
      return None;
    }

    method RematchAnswer(c: Client, answer: bool) returns (next: Option<State>)
      requires Valid() && state.Rematching? && c in joined
      modifies this`state
      ensures Valid()
      ensures next.Some? ==> Entering(next.value) && next.value in {Closing, ChoosingTurn(old(state).turnChooser)}
      ensures state == old(state).(answered := if c.position != SPECTATOR && answer then old(state).answered + {c}
                                               else old(state).answered)
      ensures next == Some(Closing) <==> c.position != SPECTATOR && c !in old(state).answered && !answer
      ensures next.Some? && next.value.ChoosingTurn? <==> state != old(state) && |state.answered| == |duelists|
      ensures next.Some? && next.value.ChoosingTurn? ==>
                (state.answered == duelists.Values <==> forall o :: o in state.answered ==> Seated(o))
      ensures Agrees(c, answer, old(Now()), Asked(next), false)
    {
      hide SeatsAgree, Compact, TurnOrderOK, Seated, Places, Readies;
      SeatBounds(c);
      PlaceOf(c);
      NobodyMoved();
      if c.position == SPECTATOR || c in state.answered {
        return None;
      }
      if !answer {
        return Some(Closing);
      }
      state := state.(answered := state.answered + {c});
      if |state.answered| == |duelists| {
        Quorum(state.answered);
        return Some(ChoosingTurn(state.turnChooser));
      }
      return None;
    }

    // ------------------------------------------------------------- the machine

    method EnterClosing()
      modifies this`duelists, this`spectators
      ensures duelists == map[] && spectators == {}
    {
      duelists, spectators := map[], {};
    }

    ghost predicate EventOK(e: Event)
      reads this`joined, e.Subject()
    {
      match e
      case Close => true
      case Join(c) => c !in joined && c.position == SPECTATOR && !c.ready
      case TimerExpired(team) => team <= 1
      case ChooseTurn(c, _, run) => c in joined && RunOK(run, false)
      case Response(c, run) => c in joined && RunOK(run, true)
      case _ => e.c in joined
    }

    method HandleWaiting(e: Event) returns (next: Option<State>)
      requires Valid() && EventOK(e) && state.Waiting?
      modifies this`state, this`joined, this`duelists, this`spectators, this`isStarted, joined, e.Subject()
      ensures next.None? ==> Valid() && state.Waiting?
      ensures next.Some? ==> Entering(next.value) && !next.value.Dueling?
      ensures joined == if e.Join? then old(joined) + {e.c} else old(joined)
      ensures DoesWaiting(e, old(Now()), Asked(next), false)
    {
      hide WaitingLoses, WaitingGets, GoesToSeat, GoesToWatch, GetsReady, Kicks, Starts, SeatsAgree, Compact, Places, Readies, Seated, Tight, TeamSeq;
      NobodyMoved();
      next := None;
      match e {
        case Close => next := Some(Closing);
        case ConnectionLost(c) => next := WaitingConnectionLost(c);
        case Join(c) => next := WaitingJoin(c);
        case ToDuelist(c) => next := WaitingToDuelist(c);
        case ToObserver(c) => next := WaitingToObserver(c);
        case Ready(c, value, deckOk) => next := WaitingReady(c, value, deckOk);
        case TryKick(c, pos) =>
          var kicked;
          next, kicked := WaitingTryKick(c, pos);
        case TryStart(c) => next := WaitingTryStart(c);
        case _ =>
      }
    }

    method HandleDueling(e: Event) returns (next: Option<State>)
      requires Valid() && EventOK(e) && state.Dueling?
      modifies this`state, this`joined, this`spectators, this`swaps, this`duelsHad, this`wins, e.Subject()
      ensures next.None? ==> Valid()
      ensures next.Some? ==> Entering(next.value) && !next.value.Dueling?
      ensures joined == if e.Join? then old(joined) + {e.c} else old(joined)
      ensures DoesDueling(e, old(Now()), Asked(next), false)
    {
      hide Processes, Ends, StartedLoses, StartedGets, SeatsAgree, Compact, Finished, Run, Stands;
      NobodyMoved();
      next := None;
      match e {
        case ConnectionLost(c) => next := DuelConnectionLost(c);
        case Response(c, run) => next := DuelResponse(c, run);
        case Surrender(c) => next := DuelSurrender(c);
        case TimerExpired(team) => next := DuelTimerExpired(team);
        case Join(c) => next := StartedJoin(c);
        case _ =>
      }
    }

    method HandleAround(e: Event) returns (next: Option<State>)
      requires Valid() && EventOK(e) && Started(state) && !state.Dueling?
      modifies this`state, this`joined, this`spectators, this`isTeam1GoingFirst, this`start, this`swaps, e.Subject()
      ensures next.None? ==> Valid()
      ensures next.Some? ==> Entering(next.value) && (next.value.Dueling? ==> e.ChooseTurn? && old(state).ChoosingTurn?)
      ensures next.None? && old(state).ChoosingTurn? ==> !state.Dueling?
      ensures joined == if e.Join? then old(joined) + {e.c} else old(joined)
      ensures DoesAround(e, old(Now()), Asked(next), false)
    {
      hide Shows, Answers, StartedLoses, StartedGets, ChangesDeck, Agrees, BeginsDuel, SeatsAgree, Compact, Places, Readies, Seated,
        TurnOrderOK;
      NobodyMoved();
      next := None;
      if e.ConnectionLost? {
        next := StartedConnectionLost(e.c);
        return;
      }
      if e.Join? {
        next := StartedJoin(e.c);
        return;
      }
      match (state, e) {
        case (RockPaperScissor(_), ChooseRPS(c, value)) => next := RPSChoose(c, value);
        case (ChoosingTurn(_), ChooseTurn(c, goingFirst, run)) =>
          next := ChooseTurn(c, goingFirst);
          BeforeProcessing(c, goingFirst, run, old(Now()), Asked(next));
        case (Sidedecking(_, _), UpdateDeck(c, accepted)) => next := SideUpdateDeck(c, accepted);
        case (Rematching(_, _), Rematch(c, answer)) => next := RematchAnswer(c, answer);
        case _ =>
      }
    }

    /** What the core will send makes no difference before the duel is entered. */
    lemma BeforeProcessing(c: Client, goingFirst: bool, run: CoreRun, s: View, t: View)
      requires BeginsDuel(c, goingFirst, CoreRun([], false), s, t, false)
      ensures BeginsDuel(c, goingFirst, run, s, t, false)
    {
      hide Processes;
    }

    /** The handler for the state and the event; what has none is ignored. */
    method Handle(e: Event) returns (next: Option<State>)
      requires Valid() && EventOK(e)
      modifies this, joined, e.Subject()
      ensures next.None? ==> Valid()
      ensures next.Some? ==> Entering(next.value) && (next.value.Dueling? ==> e.ChooseTurn? && old(state).ChoosingTurn?)
      ensures next.None? && old(state).ChoosingTurn? ==> !state.Dueling?
      ensures Does(e, old(Now()), Asked(next), false)
      ensures old(state).Closing? ==> next.None? && state.Closing?
      ensures old(isStarted) ==> isStarted
      ensures old(Started(state)) ==> duelists == old(duelists)
      ensures joined == if e.Join? then old(joined) + {e.c} else old(joined)
    {
      hide DoesWaiting, DoesDueling, DoesAround, Compact;
      next := None;
      NobodyMoved();
      if state.Waiting? {
        next := HandleWaiting(e);
      } else if state.Dueling? {
        next := HandleDueling(e);
      } else if Started(state) {
        next := HandleAround(e);
      } else if e.Join? {
        joined := joined + {e.c};
        OnlyMoved(e.c);
      }
    }

    /** What a state does when it is entered. */
    method Enter(run: CoreRun) returns (next: Option<State>)
      requires Entering(state) && RunOK(run, false)
      modifies this`state, this`swaps, this`duelsHad, this`wins, this`duelists, this`spectators
      ensures next.None? ==> Valid()
      ensures next.Some? ==> Entering(next.value) && !next.value.Dueling? && old(state).Dueling?
      ensures old(state).Closing? ==> state.Closing?
      ensures !old(state).Closing? ==> duelists == old(duelists)
      ensures old(state).Dueling? ==> Processes(run, old(Now()), Asked(next), false)
      ensures !old(state).Dueling? ==> next.None? && Now() == Entered(old(Now()))
    {
      hide Compact, Processes, Run, Stands, Finished;
      NobodyMoved();
      match state {
        case Closing =>
          EnterClosing();
          next := None;
        case RockPaperScissor(_) =>
          LeadersThere(); // both leaders are asked
          next := None;
        case Dueling(_, _, _, _) =>
          next := ProcessAndFinish(run);
        case _ =>
          next := None;
      }
    }

    lemma RunFollows(e: Event, run: CoreRun)
      requires EventOK(e) && run == match e case ChooseTurn(_, _, r) => r case _ => CoreRun([], false)
      ensures RunOK(run, false)
    {
    }

    lemma BrokenOnlyInRelays()
      requires Valid()
      ensures !relay ==> !state.Broken?
    {
    }

    /** What a state does when it is entered completes what the event does. */
    lemma DoesEntered(e: Event, s: View, u: View)
      requires Does(e, s, u, false) && Entered(s) == s && !(u.state.Dueling? && s.state.ChoosingTurn?)
      ensures Does(e, s, Entered(u), true)
    {
      hide DoesWaiting, DoesDueling, DoesAround;
      if s.state.Waiting? {
        EntersFromWaiting(e, s, u);
      } else if s.state.Dueling? {
        EntersFromDueling(e, s, u);
      } else if Started(s.state) {
        EntersFromAround(e, s, u);
      }
    }

    lemma EntersFromWaiting(e: Event, s: View, u: View)
      requires DoesWaiting(e, s, u, false) && s.state.Waiting?
      ensures DoesWaiting(e, s, Entered(u), true)
    {
      hide TakesSeat, Came, Full, TeamSeq, Tight, MayStart;
    }

    lemma EntersFromDueling(e: Event, s: View, u: View)
      requires DoesDueling(e, s, u, false)
      ensures DoesDueling(e, s, Entered(u), true)
    {
      hide Came, Processes;
      if e.Response? && s.state.replier == e.c {
        ProcessesEntered(e.run, s, u);
      }
    }

    lemma EntersFromAround(e: Event, s: View, u: View)
      requires DoesAround(e, s, u, false) && Started(s.state) && !(u.state.Dueling? && s.state.ChoosingTurn?)
      ensures DoesAround(e, s, Entered(u), true)
    {
      hide Came, Processes;
    }

    lemma ProcessesEntered(run: CoreRun, s: View, u: View)
      requires Processes(run, s, u, false)
      ensures Processes(run, s, Entered(u), true)
    {
      hide AllOK;
    }

    lemma BeginsEntered(e: Event, s: View, u: View, t: View)
      requires Does(e, s, u, false) && e.ChooseTurn? && s.state.ChoosingTurn? && u.state.Dueling?
      requires Processes(e.run, u, t, true)
      ensures Does(e, s, t, true)
    {
      hide Processes;
    }

    /** `Instance::Dispatch`: one event, and then the states it leads through.
      * Whatever comes does what it should; the room stays in order; once closed it
      * stays closed and empty; and from the start of the first duel on, nobody's
      * seat changes until then. */
    method Dispatch(e: Event)
      requires Valid() && EventOK(e)
      modifies this, joined, e.Subject()
      ensures Valid()
      ensures Does(e, old(Now()), Now(), true)
      ensures old(state).Closing? ==> state.Closing?
      ensures old(isStarted) ==> isStarted
      ensures old(Started(state)) && !state.Closing? ==> duelists == old(duelists)
      ensures !relay ==> !state.Broken?
      ensures joined == if e.Join? then old(joined) + {e.c} else old(joined)
    {
      hide Valid, Entering, SeatsAgree, StateOK, EventOK, RunOK, Does, Processes, Entered, Places, Readies, Started, Compact;
      var run := match e case ChooseTurn(_, _, r) => r case _ => CoreRun([], false);
      RunFollows(e, run);
      ghost var s := Now();
      ClosedIsEmpty();
      var next := Handle(e);
      ghost var u := Asked(next);
      if next.None? {
        BrokenOnlyInRelays();
        ClosedIsEmpty();
        DoesEntered(e, s, u);
      }
      while next.Some?
        invariant next.None? ==> Valid() && Does(e, s, Now(), true)
        invariant next.Some? ==> Entering(next.value)
        invariant next.Some? ==> Asked(next) == u || (u.state.Dueling? && !next.value.Dueling? && Processes(run, u, Asked(next), false))
        invariant old(state).Closing? ==> next.None? && state.Closing?
        invariant old(isStarted) ==> isStarted
        invariant old(Started(state)) && !(next.None? && state.Closing?) ==> duelists == old(duelists)
        invariant joined == if e.Join? then old(joined) + {e.c} else old(joined)
        invariant next.None? && !relay ==> !state.Broken?
        decreases if next.None? then 0 else if next.value.Dueling? then 2 else 1
      {
        ghost var w := Asked(next);
        state := next.value;
        next := Enter(run);
        if next.None? {
          BrokenOnlyInRelays();
          ClosedIsEmpty();
          if u.state.Dueling? {
            ProcessesEntered(run, u, if w.state.Dueling? then Now() else w);
            BeginsEntered(e, s, u, Now());
          } else {
            DoesEntered(e, s, u);
          }
        }
      }
    }

    lemma ClosedIsEmpty()
      requires Valid()
      ensures Entered(Now()) == Now()
    {
    }
  }

  function Scored(wins: (nat, nat), t: nat, points: nat): (nat, nat) {
    if t == 0 then (wins.0 + points, wins.1) else (wins.0, wins.1 + points)
  }

  function At(p: (nat, nat), t: nat): nat {
    if t == 0 then p.0 else p.1
  }

  /** How often the core's team `t` was swapped. */
  function Swaps(msgs: seq<CoreMsg>, t: nat): nat {
    if msgs == [] then 0
    else Swaps(msgs[..|msgs| - 1], t) + if msgs[|msgs| - 1] == TagSwap(t) then 1 else 0
  }

  /** Each team's place is where it started, moved on by its swaps. */
  predicate InOrder(cp: (nat, nat), start: (nat, nat), swaps: (nat, nat), n0: nat, n1: nat)
    requires 1 <= n0 && 1 <= n1
  {
    cp.0 == (start.0 + swaps.0) % n0 && cp.1 == (start.1 + swaps.1) % n1
  }

  lemma StartsInOrder(cp: (nat, nat), n0: nat, n1: nat)
    requires cp.0 < n0 && cp.1 < n1
    ensures InOrder(cp, cp, (0, 0), n0, n1)
  {
    Arith.DivModUnique(cp.0, n0, 0, cp.0);
    Arith.DivModUnique(cp.1, n1, 0, cp.1);
  }

  lemma NextInOrder(cp: (nat, nat), start: (nat, nat), swaps: (nat, nat), n0: nat, n1: nat, team: nat)
    requires 1 <= n0 && 1 <= n1 && InOrder(cp, start, swaps, n0, n1)
    ensures team == 0 ==> InOrder(((cp.0 + 1) % n0, cp.1), start, Scored(swaps, team, 1), n0, n1)
    ensures team != 0 ==> InOrder((cp.0, (cp.1 + 1) % n1), start, Scored(swaps, team, 1), n0, n1)
  {
    NextMod(start.0 + swaps.0, n0);
    NextMod(start.1 + swaps.1, n1);
  }

  lemma NextMod(x: nat, n: nat)
    requires n > 0
    ensures (x % n + 1) % n == (x + 1) % n
  {
    Arith.DivModUnique(x + 1, n, x / n + (x % n + 1) / n, (x % n + 1) % n);
  }

  lemma PreviousMod(k: nat, n: nat)
    requires n > 0
    ensures (n - 1 + k) % n == if k % n == 0 then n - 1 else k % n - 1
  {
    if k % n == 0 {
      Arith.DivModUnique(n - 1 + k, n, k / n, n - 1);
    } else {
      Arith.DivModUnique(n - 1 + k, n, k / n + 1, k % n - 1);
    }
  }

  const SCISSOR: nat := 1
  const ROCK: nat := 2
  const PAPER: nat := 3

  predicate Beats(a: nat, b: nat) {
    (a == ROCK && b == SCISSOR) || (a == PAPER && b == ROCK) || (a == SCISSOR && b == PAPER)
  }
}
