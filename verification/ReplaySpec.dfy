/** What the counters mean, hand by hand: every query looks back over the events of one hand, and nothing is carried
    from one event to the next. */
module ReplaySpec {
  import opened Prelude
  import opened ReplayEvents

  // ---------------------------------------------------------------------------------------------- cutting a game

  /** The events since the last hand was dealt, or all of them if none was. */
  function CurrentHand(events: seq<Event>): (hand: seq<Event>)
  {
    if events == [] then []
    else
      var n := |events| - 1;
      if events[n].StartKyoku? then [events[n]] else CurrentHand(events[..n]) + [events[n]]
  }

  /** A stream cut at every `start_kyoku`; the first piece is whatever comes before the first hand. */
  function Hands(events: seq<Event>): (hands: seq<seq<Event>>)
    ensures hands != []
  {
    if events == [] then [[]]
    else
      var n := |events| - 1;
      var before := Hands(events[..n]);
      if events[n].StartKyoku? then before + [[events[n]]]
      else before[..|before| - 1] + [before[|before| - 1] + [events[n]]]
  }

  // ----------------------------------------------------------------------------------------- looking back at a hand

  predicate By(actor: Option<nat>, seat: nat)
  {
    actor == Some(seat)
  }

  predicate Declares(event: Event, seat: nat)
  {
    event.ReachAccepted? && By(event.actor, seat)
  }

  /** Whether a seat has declared riichi in the events of a hand. */
  predicate Declared(hand: seq<Event>, seat: nat)
  {
    exists k :: 0 <= k < |hand| && Declares(hand[k], seat)
  }

  /** How many of the first `n` seats have declared. */
  function Declarers(hand: seq<Event>, n: nat): (count: nat)
    ensures count <= n
  {
    if n == 0 then 0 else Declarers(hand, n - 1) + if Declared(hand, n - 1) then 1 else 0
  }

  predicate Calls(event: Event, seat: nat)
  {
    event.Call? && By(event.actor, seat)
  }

  predicate HasCalled(hand: seq<Event>, seat: nat)
  {
    exists k :: 0 <= k < |hand| && Calls(hand[k], seat)
  }

  /** What ends a seat's one-shot window: anyone's call, or its own next discard. */
  predicate Closes(event: Event, seat: nat)
  {
    event.Call? || (event.Dahai? && By(event.actor, seat))
  }

  /** Whether the window of a seat's first declaration is still open. */
  predicate WindowOpen(hand: seq<Event>, seat: nat)
  {
    exists j ::
      && 0 <= j < |hand| && Declares(hand[j], seat) && !Declared(hand[..j], seat)
      && forall k :: j < k < |hand| ==> !Closes(hand[k], seat)
  }

  /** The number of tiles a seat has drawn. */
  function Draws(hand: seq<Event>, seat: nat): nat
  {
    if hand == [] then 0
    else
      var n := |hand| - 1;
      Draws(hand[..n], seat) + if hand[n].Tsumo? && By(hand[n].actor, seat) then 1 else 0
  }

  predicate Dealt(hand: seq<Event>)
  {
    hand != [] && hand[0].StartKyoku?
  }

  /** The sticks on the table when the hand started. */
  function Carried(hand: seq<Event>): int
  {
    if Dealt(hand) then hand[0].kyotaku else 0
  }

  predicate Seated(actor: Option<nat>, seats: nat)
  {
    actor.Some? && actor.value < seats
  }

  /** A win that names its winner. */
  predicate IsWin(event: Event, seats: nat)
  {
    event.Hora? && Seated(event.actor, seats)
  }

  /** The last array of point changes reported in the hand and not yet settled by an `end_kyoku`. */
  function Pending(hand: seq<Event>, seats: nat): Option<seq<int>>
  {
    if hand == [] then None
    else
      var n := |hand| - 1;
      if (IsWin(hand[n], seats) || hand[n].Ryukyoku?) && hand[n].deltas.Some? then hand[n].deltas
      else if hand[n].EndKyoku? && Dealt(hand) then None
      else Pending(hand[..n], seats)
  }

  /** An entry of an array that may be missing or short. */
  function EntryOr(values: Option<seq<int>>, seat: nat, otherwise: int): int
  {
    if values.Some? && seat < |values.value| then values.value[seat] else otherwise
  }

  function Payer(event: Event, seats: nat): nat
    requires IsWin(event, seats)
  {
    if Seated(event.target, seats) then event.target.value else event.actor.value
  }

  function Bit(b: bool): int { if b then 1 else 0 }

  // ------------------------------------------------------------------------------------ what one event is worth

  function StartCredit(event: Event, seat: nat): Tally
    requires event.StartKyoku?
  {
    ZERO.(hands := 1, handsAsDealer := Bit(event.oya == seat))
  }

  /** A seat's first declaration: it comes first or chases, and everyone already declared is chased. */
  function ReachCredit(hand: seq<Event>, event: Event, seats: nat, seat: nat): Tally
    requires event.ReachAccepted?
  {
    if !Seated(event.actor, seats) || Declared(hand, event.actor.value) then ZERO
    else if seat == event.actor.value then
      ZERO.(riichi := 1, riichiTurns := Draws(hand, seat),
            riichiFirst := Bit(Declarers(hand, seats) == 0), riichiChasing := Bit(Declarers(hand, seats) != 0))
    else ZERO.(riichiChased := Bit(Declared(hand, seat)))
  }

  /** The value of a win: the winner's points less every stick it swept up. */
  function WinValue(hand: seq<Event>, event: Event, seats: nat): int
    requires IsWin(event, seats)
  {
    var change := Pending(hand + [event], seats);
    if change.Some? && event.actor.value < |change.value|
    then change.value[event.actor.value] - 1_000 * (Carried(hand) + Declarers(hand, seats))
    else 0
  }

  function WinnerCredit(hand: seq<Event>, event: Event, seats: nat): Tally
    requires IsWin(event, seats)
  {
    var seat := event.actor.value;
    ZERO.(wins := 1, winTurns := Draws(hand, seat), winsTsumo := Bit(Payer(event, seats) == seat),
          calledWins := Bit(HasCalled(hand, seat)),
          riichiWins := Bit(Declared(hand, seat)),
          riichiIppatsu := Bit(Declared(hand, seat) && IsIppatsu(event.win, WindowOpen(hand, seat))),
          riichiUraHits := Bit(Declared(hand, seat) && event.win.uraMarkers != [] && UraHit(event.win)),
          winPoints := WinValue(hand, event, seats),
          yakuman := Bit(event.win.fan.Some? && event.win.yakuman))
  }

  function PayerCredit(hand: seq<Event>, event: Event, seats: nat): Tally
    requires IsWin(event, seats)
  {
    var seat := Payer(event, seats);
    ZERO.(dealIns := 1, riichiDealIns := Bit(Declared(hand, seat)),
          dealInPoints := -EntryOr(Pending(hand + [event], seats), seat, 0))
  }

  function WinCredit(hand: seq<Event>, event: Event, seats: nat, seat: nat): Tally
    requires event.Hora?
  {
    if !IsWin(event, seats) then ZERO
    else if seat == event.actor.value then WinnerCredit(hand, event, seats)
    else if seat == Payer(event, seats) then PayerCredit(hand, event, seats)
    else ZERO
  }

  function DrawCredit(event: Event, seat: nat): Tally
    requires event.Ryukyoku?
  {
    ZERO.(draws := 1,
          drawsTenpai := Bit(event.tenpais.Some? && seat < |event.tenpais.value| && event.tenpais.value[seat]))
  }

  /** What the hand moved a seat by: the pending change, less the stick of its own declaration. */
  function Movement(hand: seq<Event>, seats: nat, seat: nat): int
  {
    EntryOr(Pending(hand, seats), seat, 0) - if Declared(hand, seat) then 1_000 else 0
  }

  function EndCredit(hand: seq<Event>, seats: nat, seat: nat): Tally
  {
    if !Dealt(hand) then ZERO
    else
      ZERO.(netPoints := Movement(hand, seats, seat),
            riichiNet := if Declared(hand, seat) then Movement(hand, seats, seat) else 0,
            called := Bit(HasCalled(hand, seat)))
  }

  /** What an event adds to a seat's counters, given the events of its hand before it. */
  function Credit(hand: seq<Event>, event: Event, seats: nat, seat: nat): Tally
  {
    match event
    case StartKyoku(_, _, _) => StartCredit(event, seat)
    case ReachAccepted(_) => ReachCredit(hand, event, seats, seat)
    case Hora(_, _, _, _, _) => WinCredit(hand, event, seats, seat)
    case Ryukyoku(_, _, _) => DrawCredit(event, seat)
    case EndKyoku => EndCredit(hand, seats, seat)
    case _ => ZERO
  }

  // ---------------------------------------------------------------------------------------------- hands and games

  /** A hand scored on its own. */
  function HandScore(hand: seq<Event>, seats: nat, seat: nat): Tally
  {
    if hand == [] then ZERO
    else
      var n := |hand| - 1;
      Add(HandScore(hand[..n], seats, seat), Credit(hand[..n], hand[n], seats, seat))
  }

  /** A game is its hands added up. */
  function GameScore(hands: seq<seq<Event>>, seats: nat, seat: nat): Tally
  {
    if hands == [] then ZERO
    else
      var n := |hands| - 1;
      Add(GameScore(hands[..n], seats, seat), HandScore(hands[n], seats, seat))
  }

  /** The dealer of every hand, in order. */
  function Dealers(events: seq<Event>): (dealers: seq<nat>)
  {
    if events == [] then []
    else
      var n := |events| - 1;
      Dealers(events[..n]) + if events[n].StartKyoku? then [events[n].oya] else []
  }

  /** Every hand from `from` to `to` was dealt by one seat. */
  predicate DealtBy(dealers: seq<nat>, seat: nat, from: nat, to: nat)
    requires to <= |dealers|
  {
    forall k :: from <= k < to ==> dealers[k] == seat
  }

  /** The length of the run of hands a seat is dealing at the end. */
  function FinalRun(dealers: seq<nat>, seat: nat): (run: nat)
    ensures run <= |dealers| && DealtBy(dealers, seat, |dealers| - run, |dealers|)
    ensures run < |dealers| ==> dealers[|dealers| - run - 1] != seat
  {
    if dealers == [] || dealers[|dealers| - 1] != seat then 0
    else FinalRun(dealers[..|dealers| - 1], seat) + 1
  }

  function LongestRun(dealers: seq<nat>, seat: nat): nat
  {
    if dealers == [] then 0
    else Max(LongestRun(dealers[..|dealers| - 1], seat), FinalRun(dealers, seat))
  }

  /** `LongestRun` is the length of a run of consecutive hands, and no run is longer. */
  lemma {:induction false} LongestRunIsLongest(dealers: seq<nat>, seat: nat)
    ensures exists from, to ::
              0 <= from <= to <= |dealers| && DealtBy(dealers, seat, from, to) && to - from == LongestRun(dealers, seat)
    ensures forall from, to :: 0 <= from <= to <= |dealers| && DealtBy(dealers, seat, from, to) ==>
              to - from <= LongestRun(dealers, seat)
  {
    if dealers == [] {
      assert DealtBy(dealers, seat, 0, 0);
    } else {
      var before := dealers[..|dealers| - 1];
      LongestRunIsLongest(before, seat);
      if LongestRun(dealers, seat) == FinalRun(dealers, seat) {
        assert DealtBy(dealers, seat, |dealers| - FinalRun(dealers, seat), |dealers|);
      } else {
        var from, to :|
          0 <= from <= to <= |before| && DealtBy(before, seat, from, to) && to - from == LongestRun(before, seat);
        assert DealtBy(dealers, seat, from, to);
      }
      forall from, to | 0 <= from <= to <= |dealers| && DealtBy(dealers, seat, from, to)
        ensures to - from <= LongestRun(dealers, seat)
      {
        if to < |dealers| {
          assert DealtBy(before, seat, from, to);
        } else if FinalRun(dealers, seat) < |dealers| {
          assert dealers[|dealers| - FinalRun(dealers, seat) - 1] != seat;
        }
      }
    }
  }

  /** The scores an event reports, when the scorer takes them. */
  function ReportedScores(event: Event, seats: nat): Option<seq<int>>
  {
    match event
    case StartKyoku(_, _, scores) => scores
    case Hora(actor, _, _, scores, _) => if Seated(actor, seats) then scores else None
    case Ryukyoku(_, scores, _) => scores
    case EndGame(scores, _) => if scores.Some? && |scores.value| == seats then scores else None
    case _ => None
  }

  /** The last array of scores reported. */
  function LastScores(events: seq<Event>, seats: nat): (last: Option<seq<int>>)
    ensures last.None? ==> forall k :: 0 <= k < |events| ==> ReportedScores(events[k], seats).None?
    ensures last.Some? ==>
              exists k ::
                && 0 <= k < |events| && ReportedScores(events[k], seats) == last
                && forall j :: k < j < |events| ==> ReportedScores(events[j], seats).None?
  {
    if events == [] then None
    else
      var n := |events| - 1;
      if ReportedScores(events[n], seats).Some? then ReportedScores(events[n], seats)
      else LastScores(events[..n], seats)
  }

  /** The most han a seat won a hand with that was not a yakuman. */
  function MostHan(events: seq<Event>, seats: nat, seat: nat): nat
  {
    if events == [] then 0
    else
      var n := |events| - 1;
      Max(MostHan(events[..n], seats, seat), HanOf(events[n], seats, seat))
  }

  const U16_MAX: nat := 65_535

  function HanOf(event: Event, seats: nat, seat: nat): nat
  {
    if IsWin(event, seats) && event.actor.value == seat && event.win.fan.Some? && !event.win.yakuman
    then Min(event.win.fan.value, U16_MAX) else 0
  }

  /** The game's own settlement of a seat: the last entry for it, in the last `end_game` that reaches that far. */
  function Settled(events: seq<Event>, seat: nat): (int, int)
  {
    if events == [] then (0, 0)
    else
      var n := |events| - 1;
      if events[n].EndGame? && events[n].result.Some? && Reaches(events[n].result.value, seat)
      then ResultOf(events[n].result.value, seat)
      else Settled(events[..n], seat)
  }

  predicate Reaches(results: seq<SeatResult>, seat: nat)
  {
    exists k :: 0 <= k < |results| && seat <= results[k].seat
  }

  /** A list that goes as far as the highest seat of the result does not fit into `room` entries. */
  predicate NoRoomFor(results: seq<SeatResult>, room: nat)
  {
    exists k :: 0 <= k < |results| && results[k].seat >= room
  }

  function ResultOf(results: seq<SeatResult>, seat: nat): (int, int)
  {
    if results == [] then (0, 0)
    else
      var n := |results| - 1;
      if results[n].seat == seat then (results[n].totalPoint, results[n].gradingScore)
      else ResultOf(results[..n], seat)
  }

  /** Whether a record says anything that only detailed records say. */
  predicate IsDetailed(event: Event)
  {
    match event
    case Hora(_, _, _, _, win) => win.yakuIds.Some?
    case Ryukyoku(_, _, tenpais) => tenpais.Some?
    case EndGame(_, result) => result.Some?
    case _ => false
  }

  // -------------------------------------------------------------------------------------------- final standings

  /** A seat finishes ahead of another with more points, or with as many from a lower seat. */
  predicate Ahead(scores: seq<int>, a: nat, b: nat)
    requires a < |scores| && b < |scores|
  {
    scores[a] > scores[b] || (scores[a] == scores[b] && a < b)
  }

  /** How many of the first `n` seats finish ahead of a seat. */
  function AheadOf(scores: seq<int>, seat: nat, n: nat): (count: nat)
    requires seat < |scores| && n <= |scores|
    ensures count <= n
  {
    if n == 0 then 0 else AheadOf(scores, seat, n - 1) + if Ahead(scores, n - 1, seat) then 1 else 0
  }

  function PlacementOf(scores: seq<int>, seat: nat): nat
    requires seat < |scores|
  {
    AheadOf(scores, seat, |scores|) + 1
  }

  // ------------------------------------------------------------------------------------------------ the whole game

  /** Seats and places are stored in one byte each. */
  datatype SeatStats = SeatStats(
    seat: Byte, player: string, levelId: nat,
    placement: Byte, finalScore: int, busted: bool,
    settledPoint: int, gradingScore: int,
    maxDealerStreak: nat, maxHan: nat,
    tally: Tally)

  datatype GameStats = GameStats(seats: Byte, detailed: bool, players: seq<SeatStats>)

  function FinalScores(events: seq<Event>, seats: nat): (scores: seq<int>)
    ensures |scores| == seats
  {
    seq(seats, seat requires seat >= 0 => EntryOr(LastScores(events, seats), seat, 0))
  }

  /** The first `start_game`, if there is one. */
  function FirstStart(events: seq<Event>): Option<Event>
  {
    if events == [] then None
    else if events[0].StartGame? then Some(events[0])
    else FirstStart(events[1..])
  }

  function SeatScore(events: seq<Event>, names: seq<string>, levels: seq<nat>, seat: nat): SeatStats
    requires seat < |names|
  {
    var seats := |names|;
    var scores := FinalScores(events, seats);
    SeatStats(LowByte(seat), names[seat], if seat < |levels| then levels[seat] else 0,
              LowByte(PlacementOf(scores, seat)), scores[seat], scores[seat] < 0,
              Settled(events, seat).0, Settled(events, seat).1,
              LongestRun(Dealers(events), seat), MostHan(events, seats, seat),
              GameScore(Hands(events), seats, seat))
  }

  /** A game scored hand by hand; nothing when the stream is not a game. */
  function Score(events: seq<Event>): Option<GameStats>
  {
    match FirstStart(events)
    case None => None
    case Some(start) =>
      if !start.StartGame? || start.names.None? || |start.names.value| < 2 || Dealers(events) == [] then None
      else
        var names := start.names.value;
        Some(GameStats(LowByte(|names|), exists k :: 0 <= k < |events| && IsDetailed(events[k]),
                       seq(|names|, seat requires 0 <= seat < |names| =>
                                      SeatScore(events, names, start.levels, seat))))
  }
}
