/** Scoring a whole game: the pass over the stream, the final standings, and the proof that the pass is the sum of its
    hands. `src/replay.rs`. */
module ReplayGame {
  import opened Prelude
  import opened ReplayEvents
  import opened ReplaySpec
  import opened ReplayLoop

  // ------------------------------------------------------------------------------------- one pass is all its hands

  lemma AddZero(a: Tally)
    ensures Add(ZERO, a) == a == Add(a, ZERO)
  {
  }

  lemma AddAssociates(a: Tally, b: Tally, c: Tally)
    ensures Add(Add(a, b), c) == Add(a, Add(b, c))
  {
  }

  lemma {:induction false} LastHandIsCurrent(events: seq<Event>)
    ensures Hands(events)[|Hands(events)| - 1] == CurrentHand(events)
  {
    if events != [] {
      LastHandIsCurrent(events[..|events| - 1]);
    }
  }

  /** The counters a single pass keeps are the hands of the stream, each scored on its own, added up. */
  lemma {:induction false} PassIsSumOfHands(events: seq<Event>, seats: nat, seat: nat)
    ensures Running(events, seats, seat) == GameScore(Hands(events), seats, seat)
  {
    hide Add, Credit;
    if events == [] {
      assert Hands(events)[..0] == [];
      AddZero(ZERO);
    } else {
      var n := |events| - 1;
      var before, event := events[..n], events[n];
      PassIsSumOfHands(before, seats, seat);
      var hands := Hands(before);
      if event.StartKyoku? {
        assert (hands + [[event]])[..|hands|] == hands;
        StartAlone(event, CurrentHand(before), seats, seat);
      } else {
        LastHandIsCurrent(before);
        var earlier, last := hands[..|hands| - 1], hands[|hands| - 1];
        assert (earlier + [last + [event]])[..|earlier|] == earlier;
        assert (last + [event])[..|last|] == last;
        AddAssociates(GameScore(earlier, seats, seat), HandScore(last, seats, seat), Credit(last, event, seats, seat));
      }
    }
  }

  lemma StartAlone(event: Event, hand: seq<Event>, seats: nat, seat: nat)
    requires event.StartKyoku?
    ensures HandScore([event], seats, seat) == Credit(hand, event, seats, seat)
  {
    hide *;
    OneEventScore(event, seats, seat);
    StartIsStart([], event, seats, seat);
    StartIsStart(hand, event, seats, seat);
  }

  lemma OneEventScore(event: Event, seats: nat, seat: nat)
    ensures HandScore([event], seats, seat) == Credit([], event, seats, seat)
  {
    hide Add, Credit;
    assert [event][..0] == [];
    AddZero(Credit([], event, seats, seat));
  }

  /** What a deal is worth does not depend on what came before it. */
  lemma StartIsStart(hand: seq<Event>, event: Event, seats: nat, seat: nat)
    requires event.StartKyoku?
    ensures Credit(hand, event, seats, seat) == StartCredit(event, seat)
  {
    hide StartCredit;
  }

  lemma {:induction false} StartedIffDealt(events: seq<Event>)
    ensures Dealt(CurrentHand(events)) <==> Dealers(events) != []
  {
    if events != [] {
      StartedIffDealt(events[..|events| - 1]);
    }
  }

  // ------------------------------------------------------------------------------------------------- the pass

  /** Everything the loop updates. */
  datatype Table = Table(
    players: seq<Player>, streak: seq<nat>, hand: Hand, started: bool, lastScores: Option<seq<int>>)

  ghost predicate TableIs(table: Table, events: seq<Event>, seats: nat)
  {
    && PlayersAre(table.players, events, seats)
    && StreaksAre(table.streak, events, seats)
    && HandIs(table.hand, CurrentHand(events), seats)
    && (table.started <==> Dealers(events) != [])
    && table.lastScores == LastScores(events, seats)
  }

  lemma Snoc(events: seq<Event>, event: Event)
    ensures (events + [event])[..|events|] == events
  {
  }

  lemma CreditsRun(players: seq<Player>, after: seq<Player>, events: seq<Event>, event: Event, seats: nat)
    requires PlayersAre(players, events, seats) && Credited(players, after, CurrentHand(events), event, seats)
    requires forall s :: 0 <= s < seats ==>
               after[s] == PlayerOf(events + [event], seats, s).(tally := after[s].tally)
    ensures PlayersAre(after, events + [event], seats)
  {
    hide Credit, Add;
    Snoc(events, event);
    forall s | 0 <= s < seats
      ensures after[s] == PlayerOf(events + [event], seats, s)
    {
      assert players[s] == PlayerOf(events, seats, s);
    }
  }

  /** What an event that deals nothing, wins nothing and settles nothing leaves of a seat beside its counters. */
  lemma QuietEvent(events: seq<Event>, event: Event, seats: nat)
    requires !event.StartKyoku? && !event.EndGame?
    ensures CurrentHand(events + [event]) == CurrentHand(events) + [event]
    ensures Dealers(events + [event]) == Dealers(events)
    ensures forall s :: 0 <= s < seats ==>
              PlayerOf(events + [event], seats, s)
              == PlayerOf(events, seats, s).(tally := Running(events + [event], seats, s),
                                             maxHan := Max(MostHan(events, seats, s), HanOf(event, seats, s)))
  {
    hide Add, Credit, LongestRun;
    Snoc(events, event);
  }

  /** A win of a seat that has declared, with an indicator that does not split; or a final result with a seat too high
      to make a list for. */
  ghost predicate PanicsAt(hand: seq<Event>, event: Event, seats: nat, room: nat)
  {
    || (event.Hora? && Seated(event.actor, seats) && Declared(hand, event.actor.value) && UraPanics(event.win))
    || (event.EndGame? && event.result.Some? && NoRoomFor(event.result.value, room))
  }

  predicate FacesPanic(table: Table, event: Event, seats: nat)
    requires |table.hand.riichiTurn| == seats
  {
    && event.Hora? && Seated(event.actor, seats) && table.hand.riichiTurn[event.actor.value].Some?
    && UraPanics(event.win)
  }

  lemma FacesPanicIff(table: Table, events: seq<Event>, seats: nat, event: Event)
    requires TableIs(table, events, seats)
    ensures |table.hand.riichiTurn| == seats
    ensures FacesPanic(table, event, seats) <==>
              event.Hora? && PanicsAt(CurrentHand(events), event, seats, 0)
  {
    hide Declared, Draws, WindowOpen, HasCalled, PlayersAre, StreaksAre, UraPanics;
    if event.Hora? && Seated(event.actor, seats) {
      assert ScratchIs(table.hand, CurrentHand(events), event.actor.value);
    }
  }

  /** What one event makes of the table; nothing where the program panics. */
  method OneEvent(table: Table, event: Event, ghost events: seq<Event>, seats: nat, room: nat)
    returns (after: Option<Table>)
    requires TableIs(table, events, seats)
    ensures after.None? <==> PanicsAt(CurrentHand(events), event, seats, room)
    ensures after.Some? ==> TableIs(after.value, events + [event], seats)
  {
    hide NoRoomFor, TableIs;
    if event.EndGame? {
      after := FinishOne(table, event, events, seats, room);
    } else {
      FacesPanicIff(table, events, seats, event);
      if FacesPanic(table, event, seats) {
        return None;
      }
      var next := QuietOne(table, event, events, seats);
      after := Some(next);
    }
  }

  method QuietOne(table: Table, event: Event, ghost events: seq<Event>, seats: nat) returns (next: Table)
    requires !event.EndGame? && TableIs(table, events, seats)
    ensures TableIs(next, events + [event], seats)
  {
    hide Credit, Add, HandIs, LongestRun, FinalRun, MostHan;
    ghost var hand := CurrentHand(events);
    Snoc(events, event);
    StartedIffDealt(events);
    match event
    case StartKyoku(_, _, _) =>
      next := DealOne(table, event, events, seats);
    case Tsumo(_) =>
      QuietEvent(events, event, seats);
      var moved := OnTile(table.hand, event, hand, seats);
      next := table.(hand := moved);
      NothingCredited(table.players, events, event, seats);
    case Dahai(_) =>
      QuietEvent(events, event, seats);
      var moved := OnTile(table.hand, event, hand, seats);
      next := table.(hand := moved);
      NothingCredited(table.players, events, event, seats);
    case Call(_) =>
      QuietEvent(events, event, seats);
      var moved := OnCall(table.hand, event, hand, seats);
      next := table.(hand := moved);
      NothingCredited(table.players, events, event, seats);
    case ReachAccepted(_) =>
      QuietEvent(events, event, seats);
      var players, moved := OnReach(table.players, table.hand, event, hand, seats);
      next := table.(players := players, hand := moved);
      CreditsRun(table.players, players, events, event, seats);
    case Hora(actor, _, _, scores, _) =>
      QuietEvent(events, event, seats);
      var players, moved := OnWin(table.players, table.hand, event, hand, seats);
      next := table.(players := players, hand := moved,
                     lastScores := if Seated(actor, seats) && scores.Some? then scores else table.lastScores);
      CreditsRun(table.players, players, events, event, seats);
    case Ryukyoku(_, scores, _) =>
      QuietEvent(events, event, seats);
      var players, moved := OnDraw(table.players, table.hand, event, hand, seats);
      next := table.(players := players, hand := moved,
                     lastScores := if scores.Some? then scores else table.lastScores);
      CreditsRun(table.players, players, events, event, seats);
    case EndKyoku =>
      QuietEvent(events, event, seats);
      var players, moved := OnEnd(table.players, table.hand, table.started, hand, seats);
      next := table.(players := players, hand := moved);
      CreditsRun(table.players, players, events, event, seats);
    case StartGame(_, _) =>
      next := SkipOne(table, event, events, seats);
    case Other =>
      next := SkipOne(table, event, events, seats);
  }

  predicate CreditsNothing(event: Event)
  {
    event.Tsumo? || event.Dahai? || event.Call? || event.StartGame? || event.Other? || event.EndGame?
  }

  lemma NoCredit(events: seq<Event>, event: Event, seats: nat, s: nat)
    requires CreditsNothing(event)
    ensures Running(events + [event], seats, s) == Running(events, seats, s)
  {
    hide Add, Credit;
    Snoc(events, event);
    ZeroCredit(CurrentHand(events), event, seats, s);
    AddZero(Running(events, seats, s));
  }

  lemma ZeroCredit(hand: seq<Event>, event: Event, seats: nat, s: nat)
    requires CreditsNothing(event)
    ensures Credit(hand, event, seats, s) == ZERO
  {
  }

  lemma NothingCredited(players: seq<Player>, events: seq<Event>, event: Event, seats: nat)
    requires PlayersAre(players, events, seats) && CreditsNothing(event) && !event.EndGame?
    ensures PlayersAre(players, events + [event], seats)
  {
    hide Add, Credit, LongestRun, Running, MostHan;
    QuietEvent(events, event, seats);
    forall s | 0 <= s < seats
      ensures players[s] == PlayerOf(events + [event], seats, s)
    {
      NoCredit(events, event, seats, s);
      assert players[s] == PlayerOf(events, seats, s);
    }
  }

  method SkipOne(table: Table, event: Event, ghost events: seq<Event>, seats: nat) returns (next: Table)
    requires (event.StartGame? || event.Other?) && TableIs(table, events, seats)
    ensures TableIs(next, events + [event], seats)
  {
    hide Credit, Add, LongestRun, FinalRun, MostHan;
    Snoc(events, event);
    QuietEvent(events, event, seats);
    Unmoved(table.hand, CurrentHand(events), event, seats);
    NothingCredited(table.players, events, event, seats);
    next := table;
  }

  /** What dealing a hand changes beside the counters: the run of the dealer, and of everyone else. */
  lemma DealtHand(events: seq<Event>, event: Event, seats: nat, s: nat)
    requires event.StartKyoku?
    ensures CurrentHand(events + [event]) == [event] && Dealers(events + [event]) != []
    ensures FinalRun(Dealers(events + [event]), s) == if event.oya == s then FinalRun(Dealers(events), s) + 1 else 0
    ensures LongestRun(Dealers(events + [event]), s)
         == Max(LongestRun(Dealers(events), s), FinalRun(Dealers(events + [event]), s))
    ensures MostHan(events + [event], seats, s) == MostHan(events, seats, s)
    ensures Settled(events + [event], s) == Settled(events, s)
  {
    Snoc(events, event);
    Snoc2(Dealers(events), event.oya);
  }

  lemma Snoc2<T>(xs: seq<T>, x: T)
    ensures (xs + [x])[..|xs|] == xs
  {
  }

  method DealOne(table: Table, event: Event, ghost events: seq<Event>, seats: nat) returns (next: Table)
    requires event.StartKyoku? && TableIs(table, events, seats)
    ensures TableIs(next, events + [event], seats)
  {
    hide Credit, Add, HandIs, LongestRun, FinalRun, MostHan, Running, Dealers, CurrentHand, Settled;
    Snoc(events, event);
    var players, streak, dealt := OnStart(table.players, table.streak, event, CurrentHand(events), seats);
    next := Table(players, streak, dealt, true,
                  if event.startScores.Some? then event.startScores else table.lastScores);
    DealtHand(events, event, seats, 0);
    forall s | 0 <= s < seats
      ensures players[s] == PlayerOf(events + [event], seats, s).(tally := players[s].tally)
      ensures streak[s] == FinalRun(Dealers(events + [event]), s)
    {
      DealtHand(events, event, seats, s);
      assert table.players[s] == PlayerOf(events, seats, s);
    }
    CreditsRun(table.players, players, events, event, seats);
  }

  lemma MaxHanSame(events: seq<Event>, event: Event, seats: nat, s: nat)
    requires event.EndGame?
    ensures MostHan(events + [event], seats, s) == MostHan(events, seats, s)
    ensures CurrentHand(events + [event]) == CurrentHand(events) + [event]
    ensures Dealers(events + [event]) == Dealers(events)
  {
    Snoc(events, event);
  }

  method FinishOne(table: Table, event: Event, ghost events: seq<Event>, seats: nat, room: nat)
    returns (after: Option<Table>)
    requires event.EndGame? && TableIs(table, events, seats)
    ensures after.None? <==> event.result.Some? && NoRoomFor(event.result.value, room)
    ensures after.Some? ==> TableIs(after.value, events + [event], seats)
  {
    hide Credit, LongestRun, FinalRun, MostHan;
    Snoc(events, event);
    Unmoved(table.hand, CurrentHand(events), event, seats);
    MaxHanSame(events, event, seats, 0);
    var players := table.players;
    ghost var settled := 0;
    if event.result.Some? {
      var listed := Settlement(event.result.value, room);
      if listed.None? {
        return None;
      }
      var out := listed.value;
      settled := |out|;
      for seat := 0 to |out|
        invariant |players| == seats
        invariant forall s :: 0 <= s < seats ==>
                    players[s] == if s < seat then table.players[s].(settledPoint := out[s].0, gradingScore := out[s].1)
                                  else table.players[s]
      {
        if seat < seats {
          players := players[seat := players[seat].(settledPoint := out[seat].0, gradingScore := out[seat].1)];
        }
      }
    }
    after := Some(table.(players := players,
                         lastScores := if event.finalScores.Some? && |event.finalScores.value| == seats
                                       then event.finalScores else table.lastScores));
    forall s | 0 <= s < seats
      ensures players[s] == PlayerOf(events + [event], seats, s)
    {
      assert table.players[s] == PlayerOf(events, seats, s);
      NoCredit(events, event, seats, s);
      MaxHanSame(events, event, seats, s);
      if event.result.Some? {
        assert Reaches(event.result.value, s) <==> s < settled;
      }
    }
  }

  // ------------------------------------------------------------------------------------------- final standings

  /** Every seat once, each ahead of all that follow it. */
  ghost predicate Ranked(order: seq<nat>, scores: seq<int>, n: nat)
    requires n <= |scores|
  {
    && (forall r :: 0 <= r < |order| ==> order[r] < n)
    && (forall s: nat :: s < n ==> s in order)
    && (forall q, r :: 0 <= q < r < |order| ==> Ahead(scores, order[q], order[r]))
  }

  /** The seats by score, highest first; a tie goes to the lower seat. */
  method SortSeats(scores: seq<int>) returns (order: seq<nat>)
    ensures Ranked(order, scores, |scores|)
  {
    order := [];
    for seat := 0 to |scores|
      invariant Ranked(order, scores, seat)
    {
      var at := |order|;
      while at > 0 && scores[order[at - 1]] < scores[seat]
        invariant 0 <= at <= |order|
        invariant forall r :: at <= r < |order| ==> Ahead(scores, seat, order[r])
      {
        at := at - 1;
      }
      ghost var before := order;
      order := order[..at] + [seat] + order[at..];
      InsertedIsRanked(before, at, seat, scores);
    }
  }

  lemma InsertedIsRanked(before: seq<nat>, at: nat, seat: nat, scores: seq<int>)
    requires seat < |scores| && Ranked(before, scores, seat) && at <= |before|
    requires forall r :: at <= r < |before| ==> Ahead(scores, seat, before[r])
    requires at > 0 ==> scores[before[at - 1]] >= scores[seat]
    ensures Ranked(before[..at] + [seat] + before[at..], scores, seat + 1)
  {
    var order := before[..at] + [seat] + before[at..];
    forall s: nat | s < seat + 1
      ensures s in order
    {
      if s < seat {
        assert s in before[..at] + before[at..] by { assert before[..at] + before[at..] == before; }
      }
    }
    forall q, r | 0 <= q < r < |order|
      ensures Ahead(scores, order[q], order[r])
    {
      if r == at && at > 0 {
        assert q < at - 1 ==> Ahead(scores, before[q], before[at - 1]);
      }
    }
  }

  /** The position of a seat in the order is the number of seats ahead of it. */
  lemma RankIsCount(order: seq<nat>, scores: seq<int>, r: nat)
    requires Ranked(order, scores, |scores|) && r < |order|
    ensures AheadOf(scores, order[r], |scores|) == r
  {
    var ahead := set s | 0 <= s < |scores| && Ahead(scores, s, order[r]);
    var before := set q | 0 <= q < r :: order[q];
    forall q | r <= q < |order|
      ensures order[q] !in ahead
    {
      assert q > r ==> Ahead(scores, order[r], order[q]);
    }
    forall s | s in ahead
      ensures s in before
    {
      assert s in order;
    }
    assert ahead == before;
    CountIsCard(scores, order[r], |scores|);
    PrefixCard(order, scores, r);
  }

  lemma {:induction false} CountIsCard(scores: seq<int>, seat: nat, n: nat)
    requires seat < |scores| && n <= |scores|
    ensures AheadOf(scores, seat, n) == |set s | 0 <= s < n && Ahead(scores, s, seat)|
  {
    var all := set s | 0 <= s < n && Ahead(scores, s, seat);
    if n > 0 {
      CountIsCard(scores, seat, n - 1);
      var fewer := set s | 0 <= s < n - 1 && Ahead(scores, s, seat);
      assert all == fewer + if Ahead(scores, n - 1, seat) then {n - 1} else {};
    }
  }

  lemma {:induction false} PrefixCard(order: seq<nat>, scores: seq<int>, r: nat)
    requires Ranked(order, scores, |scores|) && r <= |order|
    ensures |set q | 0 <= q < r :: order[q]| == r
  {
    if r > 0 {
      PrefixCard(order, scores, r - 1);
      var fewer := set q | 0 <= q < r - 1 :: order[q];
      assert order[r - 1] !in fewer by {
        forall q | 0 <= q < r - 1
          ensures order[q] != order[r - 1]
        {
          assert Ahead(scores, order[q], order[r - 1]);
        }
      }
      assert (set q | 0 <= q < r :: order[q]) == fewer + {order[r - 1]};
    }
  }

  method Placements(scores: seq<int>) returns (placements: seq<Byte>)
    ensures |placements| == |scores|
    ensures forall s :: 0 <= s < |scores| ==> placements[s] == LowByte(PlacementOf(scores, s))
  {
    var order := SortSeats(scores);
    placements := Repeat(|scores|, 0);
    for rank := 0 to |order|
      invariant |placements| == |scores|
      invariant forall q :: 0 <= q < rank ==> placements[order[q]] == LowByte(PlacementOf(scores, order[q]))
    {
      RankIsCount(order, scores, rank);
      placements := placements[order[rank] := LowByte(LowByte(rank) + 1)];
      forall q | 0 <= q < rank + 1
        ensures placements[order[q]] == LowByte(PlacementOf(scores, order[q]))
      {
        assert q < rank ==> Ahead(scores, order[q], order[rank]);
      }
    }
    forall s | 0 <= s < |scores|
      ensures placements[s] == LowByte(PlacementOf(scores, s))
    {
      assert s in order;
    }
  }

  // ------------------------------------------------------------------------------------------------ the whole game

  method FindStart(events: seq<Event>) returns (start: Option<Event>)
    ensures start == FirstStart(events)
  {
    for i := 0 to |events|
      invariant FirstStart(events) == FirstStart(events[i..])
    {
      if events[i].StartGame? {
        return Some(events[i]);
      }
    }
    return None;
  }

  method AnyDetailed(events: seq<Event>) returns (detailed: bool)
    ensures detailed <==> exists k :: 0 <= k < |events| && IsDetailed(events[k])
  {
    for i := 0 to |events|
      invariant forall k :: 0 <= k < i ==> !IsDetailed(events[k])
    {
      if IsDetailed(events[i]) {
        return true;
      }
    }
    return false;
  }

  /** A game no result comes back for, when lists are given up to `room` entries. */
  ghost predicate Panics(events: seq<Event>, room: nat)
  {
    var start := FirstStart(events);
    && start.Some? && start.value.StartGame? && start.value.names.Some? && |start.value.names.value| >= 2
    && exists k :: 0 <= k < |events| && PanicsAt(CurrentHand(events[..k]), events[k], |start.value.names.value|, room)
  }

  /** Nothing is left of an indicator that is only a red mark. */
  lemma RedMarkAlonePanics(events: seq<Event>, room: nat)
    requires events == [StartGame(Some(["a", "b"]), []), StartKyoku(0, 0, None), ReachAccepted(Some(0)),
                        Hora(Some(0), None, None, None, Win(None, ["r"], [], None, None, false))]
    ensures Panics(events, room)
  {
    var hand := [events[1], events[2]];
    assert events[..3][..2][..1] == events[..1] && events[..3][..2] == events[..2];
    assert CurrentHand(events[..2]) == [events[1]];
    assert CurrentHand(events[..3]) == [events[1]] + [events[2]] == hand;
    assert Declared(hand, 0) by {
      assert hand[1] == ReachAccepted(Some(0));
    }
    assert !Splits("r") by {
      assert "r"[..0] == "";
    }
    assert UraPanics(events[3].win) by {
      assert !Splits(events[3].win.uraMarkers[0]);
    }
    assert PanicsAt(CurrentHand(events[..3]), events[3], 2, room);
  }

  /** The highest seat a number of 64 bits can name is past every list: no allocation is larger than 2^63 - 1 bytes, so
      a list of the pairs of a result has fewer than 2^60 entries. */
  lemma HugeSeatPanics(events: seq<Event>, room: nat)
    requires room <= 0x0FFF_FFFF_FFFF_FFFF
    requires events == [StartGame(Some(["a", "b"]), []), StartKyoku(0, 0, None),
                        EndGame(None, Some([SeatResult(0xFFFF_FFFF_FFFF_FFFF, 0, 0)]))]
    ensures Panics(events, room) && Score(events).Some?
  {
    assert events[2].result.value[0].seat >= room;
    assert PanicsAt(CurrentHand(events[..2]), events[2], 2, room);
    assert events[..2][..1] == events[..1] && events[..1][..0] == [];
    assert Dealers(events[..2]) != [];
  }

  /** The one pass over the events. */
  method Pass(events: seq<Event>, seats: nat, room: nat) returns (after: Option<Table>)
    ensures after.None? <==> exists k :: 0 <= k < |events| && PanicsAt(CurrentHand(events[..k]), events[k], seats, room)
    ensures after.Some? ==> TableIs(after.value, events, seats)
  {
    hide PanicsAt, TableIs, CurrentHand;
    var table := Table(Repeat(seats, Player(ZERO, 0, 0, 0, 0)), Repeat(seats, 0), NewHand(seats), false, None);
    EmptyTable(table, seats);
    for i := 0 to |events|
      invariant TableIs(table, events[..i], seats)
      invariant forall k :: 0 <= k < i ==> !PanicsAt(CurrentHand(events[..k]), events[k], seats, room)
    {
      assert events[..i + 1] == events[..i] + [events[i]];
      var next := OneEvent(table, events[i], events[..i], seats, room);
      if next.None? {
        return None;
      }
      table := next.value;
    }
    assert events[..|events|] == events;
    return Some(table);
  }

  /** Reads one game: it panics on an indicator that does not split and on a result it has no room for, gives `None`
      when the stream is not a game, and otherwise exactly the hand-by-hand score. */
  method Replay(events: seq<Event>, room: nat) returns (r: Result<Option<GameStats>, ()>)
    ensures r == if Panics(events, room) then Failure(()) else Success(Score(events))
  {
    hide PanicsAt, Credit, Add, HandIs, LongestRun, FinalRun, MostHan, Running, Settled, GameScore;
    var start := FindStart(events);
    if start.None? || !start.value.StartGame? || start.value.names.None? {
      return Success(None);
    }
    var names, levels := start.value.names.value, start.value.levels;
    var seats := |names|;
    if seats < 2 {
      return Success(None);
    }
    var detailed := AnyDetailed(events);
    var passed := Pass(events, seats, room);
    if passed.None? {
      return Failure(());
    }
    var table := passed.value;
    if !table.started {
      return Success(None);
    }
    var players := Finish(table, names, levels, events);
    assert players == seq(seats, seat requires 0 <= seat < seats => SeatScore(events, names, levels, seat));
    return Success(Some(GameStats(LowByte(seats), detailed, players)));
  }

  lemma EmptyTable(table: Table, seats: nat)
    requires table == Table(Repeat(seats, Player(ZERO, 0, 0, 0, 0)), Repeat(seats, 0), NewHand(seats), false, None)
    ensures TableIs(table, [], seats)
  {
    forall s | 0 <= s < seats
      ensures ScratchIs(table.hand, [], s)
    {
    }
  }

  method Finish(table: Table, names: seq<string>, levels: seq<nat>, ghost events: seq<Event>)
    returns (players: seq<SeatStats>)
    requires TableIs(table, events, |names|)
    ensures |players| == |names|
    ensures forall s :: 0 <= s < |names| ==> players[s] == SeatScore(events, names, levels, s)
  {
    hide Credit, Add, HandIs, LongestRun, FinalRun, MostHan, Running, Settled, GameScore, PlacementOf;
    var seats := |names|;
    var scores := seq(seats, seat requires seat >= 0 => EntryOr(table.lastScores, seat, 0));
    assert scores == FinalScores(events, seats);
    var placements := Placements(scores);
    players := [];
    for seat := 0 to seats
      invariant |players| == seat
      invariant forall s :: 0 <= s < seat ==> players[s] == SeatScore(events, names, levels, s)
    {
      var p := table.players[seat];
      assert p == PlayerOf(events, seats, seat);
      PassIsSumOfHands(events, seats, seat);
      players := players + [SeatStats(LowByte(seat), names[seat], if seat < |levels| then levels[seat] else 0,
                                      placements[seat], scores[seat], scores[seat] < 0,
                                      p.settledPoint, p.gradingScore, p.maxDealerStreak, p.maxHan, p.tally)];
    }
  }
}
