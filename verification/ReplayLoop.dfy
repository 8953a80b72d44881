/** The scorer as the program runs it: one pass over the stream with per-hand scratch state, streaks and running
    counters, proved to compute the hand-by-hand specification. `src/replay.rs`. */
module ReplayLoop {
  import opened Prelude
  import opened ReplayEvents
  import opened ReplaySpec

  // ------------------------------------------------------------------------------------ what the loop carries along

  /** Per-hand scratch state. */
  datatype Hand = Hand(
    kyotaku: int,
    turns: seq<nat>,
    riichiTurn: seq<Option<nat>>,
    ippatsu: seq<bool>,
    called: seq<bool>,
    deltas: Option<seq<int>>)

  /** One seat's running statistics. */
  datatype Player = Player(
    tally: Tally, maxDealerStreak: nat, maxHan: nat, settledPoint: int, gradingScore: int)

  function NewHand(seats: nat): Hand
  {
    Hand(0, Repeat(seats, 0), Repeat(seats, None), Repeat(seats, false), Repeat(seats, false), None)
  }

  predicate Sized(hand: Hand, seats: nat)
  {
    |hand.turns| == |hand.riichiTurn| == |hand.ippatsu| == |hand.called| == seats
  }

  /** The scratch state says what looking back over the hand says. */
  ghost predicate HandIs(hand: Hand, events: seq<Event>, seats: nat)
  {
    && Sized(hand, seats)
    && hand.kyotaku == Carried(events)
    && hand.deltas == Pending(events, seats)
    && forall s :: 0 <= s < seats ==> ScratchIs(hand, events, s)
  }

  ghost predicate ScratchIs(hand: Hand, events: seq<Event>, s: nat)
    requires s < |hand.turns| && s < |hand.riichiTurn| && s < |hand.ippatsu| && s < |hand.called|
  {
    && hand.turns[s] == Draws(events, s)
    && hand.riichiTurn[s].Some? == Declared(events, s)
    && hand.ippatsu[s] == WindowOpen(events, s)
    && hand.called[s] == HasCalled(events, s)
  }

  /** The counters after a stream, each event valued against the events of its hand before it. */
  ghost function Running(events: seq<Event>, seats: nat, seat: nat): Tally
  {
    if events == [] then ZERO
    else
      var n := |events| - 1;
      Add(Running(events[..n], seats, seat), Credit(CurrentHand(events[..n]), events[n], seats, seat))
  }

  ghost function PlayerOf(events: seq<Event>, seats: nat, seat: nat): Player
  {
    Player(Running(events, seats, seat), LongestRun(Dealers(events), seat), MostHan(events, seats, seat),
           Settled(events, seat).0, Settled(events, seat).1)
  }

  ghost predicate PlayersAre(players: seq<Player>, events: seq<Event>, seats: nat)
  {
    |players| == seats && forall s :: 0 <= s < seats ==> players[s] == PlayerOf(events, seats, s)
  }

  ghost predicate StreaksAre(streak: seq<nat>, events: seq<Event>, seats: nat)
  {
    |streak| == seats && forall s :: 0 <= s < seats ==> streak[s] == FinalRun(Dealers(events), s)
  }

  // --------------------------------------------------------------------------- how looking back changes by one event

  lemma OneMore(hand: seq<Event>, event: Event, s: nat)
    ensures (hand + [event])[..|hand|] == hand
    ensures Declared(hand + [event], s) <==> Declared(hand, s) || Declares(event, s)
    ensures HasCalled(hand + [event], s) <==> HasCalled(hand, s) || Calls(event, s)
  {
    var more := hand + [event];
    if Declared(hand, s) {
      var k :| 0 <= k < |hand| && Declares(hand[k], s);
      assert Declares(more[k], s);
    }
    if HasCalled(hand, s) {
      var k :| 0 <= k < |hand| && Calls(hand[k], s);
      assert Calls(more[k], s);
    }
    assert more[|hand|] == event;
  }

  lemma WindowOneMore(hand: seq<Event>, event: Event, s: nat)
    ensures WindowOpen(hand + [event], s)
       <==> (WindowOpen(hand, s) && !Closes(event, s)) || (Declares(event, s) && !Declared(hand, s))
  {
    var more := hand + [event];
    if WindowOpen(more, s) {
      var j :| 0 <= j < |more| && Declares(more[j], s) && !Declared(more[..j], s)
               && forall k :: j < k < |more| ==> !Closes(more[k], s);
      if j < |hand| {
        assert more[..j] == hand[..j];
        assert Declares(hand[j], s);
        assert !Closes(more[|hand|], s);
        forall k | j < k < |hand|
          ensures !Closes(hand[k], s)
        {
          assert !Closes(more[k], s);
        }
      } else {
        assert more[..j] == hand;
      }
    }
    if WindowOpen(hand, s) && !Closes(event, s) {
      var j :| 0 <= j < |hand| && Declares(hand[j], s) && !Declared(hand[..j], s)
               && forall k :: j < k < |hand| ==> !Closes(hand[k], s);
      assert more[..j] == hand[..j];
      assert Declares(more[j], s);
    }
    if Declares(event, s) && !Declared(hand, s) {
      assert more[..|hand|] == hand;
      assert Declares(more[|hand|], s);
    }
  }

  /** A window is only ever open after a declaration. */
  lemma WindowNeedsDeclaration(hand: seq<Event>, s: nat)
    ensures WindowOpen(hand, s) ==> Declared(hand, s)
  {
  }

  /** An event no query looks at leaves the scratch state as it is. */
  lemma Unmoved(hand: Hand, events: seq<Event>, event: Event, seats: nat)
    requires HandIs(hand, events, seats)
    requires event.StartGame? || event.EndGame? || event.Other? || (event.Hora? && !IsWin(event, seats))
             || (event.ReachAccepted? && (!Seated(event.actor, seats) || Declared(events, event.actor.value)))
             || ((event.Tsumo? || event.Dahai?) && !Seated(event.actor, seats))
    ensures HandIs(hand, events + [event], seats)
  {
    hide Declared, HasCalled, WindowOpen;
    forall s | 0 <= s < seats
      ensures ScratchIs(hand, events + [event], s)
    {
      assert ScratchIs(hand, events, s);
      OneMore(events, event, s);
      WindowOneMore(events, event, s);
      WindowNeedsDeclaration(events, s);
    }
    OneMore(events, event, 0);
  }

  // -------------------------------------------------------------------------------------------------- the arms

  ghost predicate Credited(before: seq<Player>, after: seq<Player>, hand: seq<Event>, event: Event, seats: nat)
  {
    && |before| == |after| == seats
    && forall s :: 0 <= s < seats ==>
         after[s].tally == Add(before[s].tally, Credit(hand, event, seats, s))
  }

  ghost predicate OnlyTallies(before: seq<Player>, after: seq<Player>)
    requires |before| == |after|
  {
    forall s :: 0 <= s < |before| ==> after[s] == before[s].(tally := after[s].tally)
  }

  method OnStart(players: seq<Player>, streak: seq<nat>, event: Event, ghost hand: seq<Event>, seats: nat)
    returns (after: seq<Player>, streakAfter: seq<nat>, dealt: Hand)
    requires event.StartKyoku? && |players| == |streak| == seats
    ensures Credited(players, after, hand, event, seats)
    ensures |streakAfter| == seats
    ensures forall s :: 0 <= s < seats ==>
              && streakAfter[s] == (if s == event.oya then streak[s] + 1 else 0)
              && after[s] == players[s].(tally := after[s].tally,
                                         maxDealerStreak := Max(players[s].maxDealerStreak, streakAfter[s]))
    ensures HandIs(dealt, [event], seats)
  {
    dealt := NewHand(seats).(kyotaku := event.kyotaku);
    FreshHand(dealt, event, seats);
    after, streakAfter := players, streak;
    for seat := 0 to seats
      invariant |after| == |streakAfter| == seats
      invariant forall s :: seat <= s < seats ==> after[s] == players[s] && streakAfter[s] == streak[s]
      invariant forall s :: 0 <= s < seat ==>
                  && streakAfter[s] == (if s == event.oya then streak[s] + 1 else 0)
                  && after[s] == players[s].(tally := after[s].tally,
                                             maxDealerStreak := Max(players[s].maxDealerStreak, streakAfter[s]))
                  && after[s].tally == Add(players[s].tally, StartCredit(event, s))
    {
      var p := after[seat];
      var t := p.tally.(hands := p.tally.hands + 1);
      var longest := p.maxDealerStreak;
      if seat == event.oya {
        t := t.(handsAsDealer := t.handsAsDealer + 1);
        streakAfter := streakAfter[seat := streakAfter[seat] + 1];
        longest := Max(longest, streakAfter[seat]);
      } else {
        streakAfter := streakAfter[seat := 0];
      }
      after := after[seat := p.(tally := t, maxDealerStreak := longest)];
    }
  }

  lemma FreshHand(dealt: Hand, event: Event, seats: nat)
    requires event.StartKyoku? && dealt == NewHand(seats).(kyotaku := event.kyotaku)
    ensures HandIs(dealt, [event], seats)
  {
    assert [event][..0] == [];
    forall s | 0 <= s < seats
      ensures ScratchIs(dealt, [event], s)
    {
      WindowNeedsDeclaration([event], s);
    }
  }

  lemma ScratchAgrees(hand: Hand, events: seq<Event>, seats: nat)
    requires HandIs(hand, events, seats)
    ensures forall s :: 0 <= s < seats ==> hand.riichiTurn[s].Some? == Declared(events, s)
    ensures forall s :: 0 <= s < seats ==> hand.turns[s] == Draws(events, s)
    ensures forall s :: 0 <= s < seats ==> hand.ippatsu[s] == WindowOpen(events, s)
    ensures forall s :: 0 <= s < seats ==> hand.called[s] == HasCalled(events, s)
  {
    hide Declared, WindowOpen, HasCalled, Draws;
    forall s | 0 <= s < seats
      ensures hand.riichiTurn[s].Some? == Declared(events, s) && hand.turns[s] == Draws(events, s)
      ensures hand.ippatsu[s] == WindowOpen(events, s) && hand.called[s] == HasCalled(events, s)
    {
      assert ScratchIs(hand, events, s);
    }
  }

  /** How many of the seats have declared. */
  method CountDeclared(riichiTurn: seq<Option<nat>>, ghost hand: seq<Event>) returns (count: nat)
    requires forall s :: 0 <= s < |riichiTurn| ==> riichiTurn[s].Some? == Declared(hand, s)
    ensures count == Declarers(hand, |riichiTurn|)
  {
    hide Declared;
    count := 0;
    for seat := 0 to |riichiTurn|
      invariant count == Declarers(hand, seat)
    {
      if riichiTurn[seat].Some? {
        count := count + 1;
      }
    }
  }

  /** A player whose declaration has been chased once more. */
  function Chased(player: Player): Player
  {
    player.(tally := player.tally.(riichiChased := player.tally.riichiChased + 1))
  }

  /** Every other seat that has declared is chased by this declaration. */
  method CreditChased(players: seq<Player>, riichiTurn: seq<Option<nat>>, seat: nat) returns (after: seq<Player>)
    requires |players| == |riichiTurn|
    ensures |after| == |players|
    ensures forall s :: 0 <= s < |players| ==>
              after[s] == if s != seat && riichiTurn[s].Some? then Chased(players[s]) else players[s]
  {
    hide Chased;
    after := players;
    for other := 0 to |players|
      invariant |after| == |players|
      invariant forall s :: other <= s < |players| ==> after[s] == players[s]
      invariant forall s :: 0 <= s < other ==>
                  after[s] == if s != seat && riichiTurn[s].Some? then Chased(players[s]) else players[s]
    {
      if other != seat && riichiTurn[other].Some? {
        after := after[other := Chased(after[other])];
      }
    }
  }

  lemma ChasedCredited(players: seq<Player>, after: seq<Player>, hand: Hand, events: seq<Event>, event: Event,
                       seats: nat, t: Tally)
    requires event.ReachAccepted? && |players| == |after| == seats && HandIs(hand, events, seats)
    requires Seated(event.actor, seats) && hand.riichiTurn[event.actor.value].None? && Declarers(events, seats) > 0
    requires var before := players[event.actor.value].tally;
             t == before.(riichi := before.riichi + 1, riichiTurns := before.riichiTurns + hand.turns[event.actor.value],
                          riichiChasing := before.riichiChasing + 1)
    requires forall s :: 0 <= s < seats ==>
               after[s] == if s == event.actor.value then players[s].(tally := t)
                           else if hand.riichiTurn[s].Some? then Chased(players[s]) else players[s]
    ensures Credited(players, after, events, event, seats) && OnlyTallies(players, after)
  {
    hide Declared, WindowOpen, HasCalled;
    forall s | 0 <= s < seats
      ensures after[s].tally == Add(players[s].tally, ReachCredit(events, event, seats, s))
    {
      assert ScratchIs(hand, events, s) && ScratchIs(hand, events, event.actor.value);
    }
  }

  lemma FirstCredited(players: seq<Player>, after: seq<Player>, hand: Hand, events: seq<Event>, event: Event,
                      seats: nat, t: Tally)
    requires event.ReachAccepted? && |players| == |after| == seats && HandIs(hand, events, seats)
    requires Seated(event.actor, seats) && hand.riichiTurn[event.actor.value].None? && Declarers(events, seats) == 0
    requires var before := players[event.actor.value].tally;
             t == before.(riichi := before.riichi + 1, riichiTurns := before.riichiTurns + hand.turns[event.actor.value],
                          riichiFirst := before.riichiFirst + 1)
    requires after == players[event.actor.value := players[event.actor.value].(tally := t)]
    ensures Credited(players, after, events, event, seats) && OnlyTallies(players, after)
  {
    hide Declared, WindowOpen, HasCalled;
    NoneDeclared(events, seats);
    forall s | 0 <= s < seats
      ensures after[s].tally == Add(players[s].tally, ReachCredit(events, event, seats, s))
    {
      assert ScratchIs(hand, events, s) && ScratchIs(hand, events, event.actor.value);
    }
  }

  method OnReach(players: seq<Player>, hand: Hand, event: Event, ghost events: seq<Event>, seats: nat)
    returns (after: seq<Player>, next: Hand)
    requires event.ReachAccepted? && |players| == seats && HandIs(hand, events, seats)
    ensures Credited(players, after, events, event, seats) && OnlyTallies(players, after)
    ensures HandIs(next, events + [event], seats)
  {
    hide Declared, WindowOpen, HasCalled;
    ScratchAgrees(hand, events, seats);
    after, next := players, hand;
    if !Seated(event.actor, seats) || hand.riichiTurn[event.actor.value].Some? {
      Unmoved(hand, events, event, seats);
      return;
    }
    var seat := event.actor.value;
    var earlier := CountDeclared(hand.riichiTurn, events);
    var t := players[seat].tally;
    t := t.(riichi := t.riichi + 1, riichiTurns := t.riichiTurns + hand.turns[seat]);
    if earlier == 0 {
      t := t.(riichiFirst := t.riichiFirst + 1);
      after := after[seat := players[seat].(tally := t)];
      FirstCredited(players, after, hand, events, event, seats, t);
    } else {
      t := t.(riichiChasing := t.riichiChasing + 1);
      after := CreditChased(players[seat := players[seat].(tally := t)], hand.riichiTurn, seat);
      ChasedCredited(players, after, hand, events, event, seats, t);
    }
    next := hand.(riichiTurn := hand.riichiTurn[seat := Some(hand.turns[seat])], ippatsu := hand.ippatsu[seat := true]);
    ReachMoves(hand, next, events, event, seats);
  }

  lemma NoneDeclared(hand: seq<Event>, n: nat)
    requires Declarers(hand, n) == 0
    ensures forall s :: 0 <= s < n ==> !Declared(hand, s)
  {
  }

  lemma ReachMoves(hand: Hand, next: Hand, events: seq<Event>, event: Event, seats: nat)
    requires event.ReachAccepted? && HandIs(hand, events, seats) && Seated(event.actor, seats)
    requires var seat := event.actor.value;
             && hand.riichiTurn[seat].None?
             && next == hand.(riichiTurn := hand.riichiTurn[seat := Some(hand.turns[seat])],
                              ippatsu := hand.ippatsu[seat := true])
    ensures HandIs(next, events + [event], seats)
  {
    hide Declared, WindowOpen, HasCalled;
    forall s | 0 <= s < seats
      ensures ScratchIs(next, events + [event], s)
    {
      assert ScratchIs(hand, events, s);
      OneMore(events, event, s);
      WindowOneMore(events, event, s);
    }
    OneMore(events, event, 0);
  }

  /** A call kills every live window, the caller's own included. */
  method OnCall(hand: Hand, event: Event, ghost events: seq<Event>, seats: nat) returns (next: Hand)
    requires event.Call? && HandIs(hand, events, seats)
    ensures HandIs(next, events + [event], seats)
  {
    hide Declared, WindowOpen, HasCalled;
    next := hand;
    if Seated(event.actor, seats) {
      next := next.(called := next.called[event.actor.value := true]);
    }
    for seat := 0 to seats
      invariant |next.ippatsu| == seats && next == hand.(called := next.called, ippatsu := next.ippatsu)
      invariant next.called == if Seated(event.actor, seats) then hand.called[event.actor.value := true] else hand.called
      invariant forall s :: 0 <= s < seat ==> !next.ippatsu[s]
    {
      next := next.(ippatsu := next.ippatsu[seat := false]);
    }
    forall s | 0 <= s < seats
      ensures ScratchIs(next, events + [event], s)
    {
      assert ScratchIs(hand, events, s);
      OneMore(events, event, s);
      WindowOneMore(events, event, s);
    }
    OneMore(events, event, 0);
  }

  method OnTile(hand: Hand, event: Event, ghost events: seq<Event>, seats: nat) returns (next: Hand)
    requires (event.Tsumo? || event.Dahai?) && HandIs(hand, events, seats)
    ensures HandIs(next, events + [event], seats)
  {
    hide Declared, WindowOpen, HasCalled;
    next := hand;
    if !Seated(event.actor, seats) {
      Unmoved(hand, events, event, seats);
      return;
    }
    var seat := event.actor.value;
    if event.Tsumo? {
      next := hand.(turns := hand.turns[seat := hand.turns[seat] + 1]);
    } else if hand.riichiTurn[seat].Some? {
      next := hand.(ippatsu := hand.ippatsu[seat := false]);
    }
    forall s | 0 <= s < seats
      ensures ScratchIs(next, events + [event], s)
    {
      assert ScratchIs(hand, events, s);
      OneMore(events, event, s);
      WindowOneMore(events, event, s);
      WindowNeedsDeclaration(events, s);
    }
    OneMore(events, event, 0);
  }

  /** A win: the winner's counters, and the payer's when it is someone else. */
  method OnWin(players: seq<Player>, hand: Hand, event: Event, ghost events: seq<Event>, seats: nat)
    returns (after: seq<Player>, next: Hand)
    requires event.Hora? && |players| == seats && HandIs(hand, events, seats)
    ensures Credited(players, after, events, event, seats)
    ensures |after| == seats
    ensures forall s :: 0 <= s < seats ==>
              after[s] == players[s].(tally := after[s].tally,
                                      maxHan := Max(players[s].maxHan, HanOf(event, seats, s)))
    ensures HandIs(next, events + [event], seats)
  {
    hide Declared, WindowOpen, HasCalled;
    ScratchAgrees(hand, events, seats);
    after, next := players, hand;
    if !Seated(event.actor, seats) {
      Unmoved(hand, events, event, seats);
      return;
    }
    var actor := event.actor.value;
    var target := if Seated(event.target, seats) then event.target.value else actor;
    next := hand.(deltas := if event.deltas.Some? then event.deltas else hand.deltas);
    WinMoves(hand, next, events, event, seats);
    var sticks := CountDeclared(hand.riichiTurn, events);
    var p := WinnerCounts(players[actor], hand, next.deltas, event, actor, target, sticks);
    after := after[actor := p];
    if target != actor {
      after := after[target := PayerCounts(after[target], hand, next.deltas, target)];
    }
    WinIsCredited(players, after, hand, next, event, events, seats, sticks);
  }

  function WinCounts(t: Tally, turns: nat, tsumo: bool, called: bool): Tally
  {
    var t := t.(wins := t.wins + 1, winTurns := t.winTurns + turns);
    var t := if tsumo then t.(winsTsumo := t.winsTsumo + 1) else t;
    if called then t.(calledWins := t.calledWins + 1) else t
  }

  function RiichiCounts(t: Tally, declared: bool, window: bool, win: Win): Tally
  {
    if !declared then t
    else
      var t := t.(riichiWins := t.riichiWins + 1);
      var t := if IsIppatsu(win, window) then t.(riichiIppatsu := t.riichiIppatsu + 1) else t;
      if win.uraMarkers != [] && UraHit(win) then t.(riichiUraHits := t.riichiUraHits + 1) else t
  }

  function PointCounts(t: Tally, deltas: Option<seq<int>>, actor: nat, sticks: int, win: Win): Tally
  {
    var t := if deltas.Some? && actor < |deltas.value|
             then t.(winPoints := t.winPoints + deltas.value[actor] - 1_000 * sticks) else t;
    if win.fan.Some? && win.yakuman then t.(yakuman := t.yakuman + 1) else t
  }

  function WinnerCounts(p: Player, hand: Hand, deltas: Option<seq<int>>, event: Event, actor: nat, target: nat,
                        declared: nat): Player
    requires event.Hora? && actor < |hand.turns| && Sized(hand, |hand.turns|)
  {
    var t := WinCounts(p.tally, hand.turns[actor], target == actor, hand.called[actor]);
    var t := RiichiCounts(t, hand.riichiTurn[actor].Some?, hand.ippatsu[actor], event.win);
    var t := PointCounts(t, deltas, actor, hand.kyotaku + declared, event.win);
    if event.win.fan.Some? && !event.win.yakuman
    then p.(tally := t, maxHan := Max(p.maxHan, Min(event.win.fan.value, U16_MAX)))
    else p.(tally := t)
  }

  lemma WinCountsAre(t: Tally, turns: nat, tsumo: bool, called: bool)
    ensures WinCounts(t, turns, tsumo, called)
         == Add(t, ZERO.(wins := 1, winTurns := turns, winsTsumo := Bit(tsumo), calledWins := Bit(called)))
  {
  }

  lemma RiichiCountsAre(t: Tally, declared: bool, window: bool, win: Win)
    ensures RiichiCounts(t, declared, window, win)
         == Add(t, ZERO.(riichiWins := Bit(declared), riichiIppatsu := Bit(declared && IsIppatsu(win, window)),
                         riichiUraHits := Bit(declared && win.uraMarkers != [] && UraHit(win))))
  {
  }

  lemma PointCountsAre(t: Tally, deltas: Option<seq<int>>, actor: nat, sticks: int, win: Win)
    ensures PointCounts(t, deltas, actor, sticks, win)
         == Add(t, ZERO.(winPoints := if deltas.Some? && actor < |deltas.value|
                                      then deltas.value[actor] - 1_000 * sticks else 0,
                         yakuman := Bit(win.fan.Some? && win.yakuman)))
  {
  }

  function PayerCounts(p: Player, hand: Hand, deltas: Option<seq<int>>, target: nat): Player
    requires target < |hand.turns| && Sized(hand, |hand.turns|)
  {
    var t := p.tally;
    var t := t.(dealIns := t.dealIns + 1);
    var t := if hand.riichiTurn[target].Some? then t.(riichiDealIns := t.riichiDealIns + 1) else t;
    var t := if deltas.Some? && target < |deltas.value|
             then t.(dealInPoints := t.dealInPoints + -deltas.value[target]) else t;
    p.(tally := t)
  }

  lemma WinMoves(hand: Hand, next: Hand, events: seq<Event>, event: Event, seats: nat)
    requires HandIs(hand, events, seats) && IsWin(event, seats)
    requires next == hand.(deltas := if event.deltas.Some? then event.deltas else hand.deltas)
    ensures HandIs(next, events + [event], seats)
  {
    hide Declared, WindowOpen, HasCalled;
    forall s | 0 <= s < seats
      ensures ScratchIs(next, events + [event], s)
    {
      assert ScratchIs(hand, events, s);
      OneMore(events, event, s);
      WindowOneMore(events, event, s);
    }
    OneMore(events, event, 0);
  }

  lemma Unpack(hand: Hand, events: seq<Event>, seats: nat)
    requires HandIs(hand, events, seats)
    ensures Sized(hand, seats) && hand.kyotaku == Carried(events)
    ensures forall s :: 0 <= s < seats ==> ScratchIs(hand, events, s)
  {
  }

  lemma WinnerIsCredited(p: Player, hand: Hand, deltas: Option<seq<int>>, event: Event, events: seq<Event>, seats: nat)
    requires HandIs(hand, events, seats) && IsWin(event, seats) && deltas == Pending(events + [event], seats)
    ensures WinnerCounts(p, hand, deltas, event, event.actor.value, Payer(event, seats), Declarers(events, seats))
         == p.(tally := Add(p.tally, WinnerCredit(events, event, seats)),
               maxHan := Max(p.maxHan, HanOf(event, seats, event.actor.value)))
  {
    hide Declared, WindowOpen, HasCalled, IsIppatsu, UraHit, Declarers, Pending, Draws, HandIs, Carried;
    hide WinCounts, RiichiCounts, PointCounts;
    Unpack(hand, events, seats);
    var actor := event.actor.value;
    assert ScratchIs(hand, events, actor);
    var sticks := hand.kyotaku + Declarers(events, seats);
    WinCountsAre(p.tally, hand.turns[actor], Payer(event, seats) == actor, hand.called[actor]);
    var t := WinCounts(p.tally, hand.turns[actor], Payer(event, seats) == actor, hand.called[actor]);
    RiichiCountsAre(t, hand.riichiTurn[actor].Some?, hand.ippatsu[actor], event.win);
    var u := RiichiCounts(t, hand.riichiTurn[actor].Some?, hand.ippatsu[actor], event.win);
    PointCountsAre(u, deltas, actor, sticks, event.win);
  }

  lemma PayerIsCredited(p: Player, hand: Hand, deltas: Option<seq<int>>, event: Event, events: seq<Event>, seats: nat)
    requires HandIs(hand, events, seats) && IsWin(event, seats) && deltas == Pending(events + [event], seats)
    ensures PayerCounts(p, hand, deltas, Payer(event, seats))
         == p.(tally := Add(p.tally, PayerCredit(events, event, seats)))
  {
    hide Declared, WindowOpen, HasCalled, IsIppatsu, UraHit, Declarers, Pending;
    assert ScratchIs(hand, events, Payer(event, seats));
  }

  lemma WinIsCredited(players: seq<Player>, after: seq<Player>, hand: Hand, next: Hand, event: Event,
                      events: seq<Event>, seats: nat, declared: nat)
    requires |players| == seats && HandIs(hand, events, seats) && IsWin(event, seats)
    requires HandIs(next, events + [event], seats) && declared == Declarers(events, seats)
    requires var actor, target := event.actor.value, Payer(event, seats);
             var winner := WinnerCounts(players[actor], hand, next.deltas, event, actor, target, declared);
             after == if target == actor then players[actor := winner]
                      else players[actor := winner][target := PayerCounts(players[target], hand, next.deltas, target)]
    ensures Credited(players, after, events, event, seats)
    ensures forall s :: 0 <= s < seats ==>
              after[s] == players[s].(tally := after[s].tally,
                                      maxHan := Max(players[s].maxHan, HanOf(event, seats, s)))
  {
    hide ScratchIs, Declarers, Pending, WinnerCounts, PayerCounts, WinnerCredit, PayerCredit;
    WinnerIsCredited(players[event.actor.value], hand, next.deltas, event, events, seats);
    PayerIsCredited(players[Payer(event, seats)], hand, next.deltas, event, events, seats);
  }

  /** A drawn hand. */
  method OnDraw(players: seq<Player>, hand: Hand, event: Event, ghost events: seq<Event>, seats: nat)
    returns (after: seq<Player>, next: Hand)
    requires event.Ryukyoku? && |players| == seats && HandIs(hand, events, seats)
    ensures Credited(players, after, events, event, seats) && OnlyTallies(players, after)
    ensures HandIs(next, events + [event], seats)
  {
    next := hand.(deltas := if event.deltas.Some? then event.deltas else hand.deltas);
    DrawMoves(hand, next, events, event, seats);
    after := players;
    for seat := 0 to seats
      invariant |after| == seats
      invariant forall s :: seat <= s < seats ==> after[s] == players[s]
      invariant forall s :: 0 <= s < seat ==>
                  after[s] == players[s].(tally := Add(players[s].tally, DrawCredit(event, s)))
    {
      var t := after[seat].tally;
      t := t.(draws := t.draws + 1);
      if event.tenpais.Some? && seat < |event.tenpais.value| && event.tenpais.value[seat] {
        t := t.(drawsTenpai := t.drawsTenpai + 1);
      }
      after := after[seat := after[seat].(tally := t)];
    }
  }

  lemma DrawMoves(hand: Hand, next: Hand, events: seq<Event>, event: Event, seats: nat)
    requires HandIs(hand, events, seats) && event.Ryukyoku?
    requires next == hand.(deltas := if event.deltas.Some? then event.deltas else hand.deltas)
    ensures HandIs(next, events + [event], seats)
  {
    hide Declared, WindowOpen, HasCalled;
    forall s | 0 <= s < seats
      ensures ScratchIs(next, events + [event], s)
    {
      assert ScratchIs(hand, events, s);
      OneMore(events, event, s);
      WindowOneMore(events, event, s);
    }
    OneMore(events, event, 0);
  }

  /** The end of a hand settles the pending changes, once however many wins reported them. */
  method OnEnd(players: seq<Player>, hand: Hand, started: bool, ghost events: seq<Event>, seats: nat)
    returns (after: seq<Player>, next: Hand)
    requires |players| == seats && HandIs(hand, events, seats) && started == Dealt(events)
    ensures Credited(players, after, events, EndKyoku, seats) && OnlyTallies(players, after)
    ensures HandIs(next, events + [EndKyoku], seats)
  {
    hide Declared, HasCalled;
    after := players;
    next := if started then hand.(deltas := None) else hand;
    EndMoves(hand, next, events, seats);
    ScratchAgrees(hand, events, seats);
    if !started {
      return;
    }
    for seat := 0 to seats
      invariant |after| == seats
      invariant forall s :: seat <= s < seats ==> after[s] == players[s]
      invariant forall s :: 0 <= s < seat ==>
                  after[s] == players[s].(tally := Add(players[s].tally, EndCredit(events, seats, s)))
    {
      var declared := hand.riichiTurn[seat].Some?;
      var movement := EntryOr(hand.deltas, seat, 0) - if declared then 1_000 else 0;
      var t := after[seat].tally;
      t := t.(netPoints := t.netPoints + movement);
      if declared {
        t := t.(riichiNet := t.riichiNet + movement);
      }
      if hand.called[seat] {
        t := t.(called := t.called + 1);
      }
      after := after[seat := after[seat].(tally := t)];
    }
  }

  lemma EndMoves(hand: Hand, next: Hand, events: seq<Event>, seats: nat)
    requires HandIs(hand, events, seats)
    requires next == if Dealt(events) then hand.(deltas := None) else hand
    ensures HandIs(next, events + [EndKyoku], seats)
  {
    forall s | 0 <= s < seats
      ensures ScratchIs(next, events + [EndKyoku], s)
    {
      ScratchAtEnd(hand, next, events, s);
    }
    hide ScratchIs;
    assert (events + [EndKyoku])[..|events|] == events;
  }

  lemma ScratchAtEnd(hand: Hand, next: Hand, events: seq<Event>, s: nat)
    requires s < |hand.turns| && s < |hand.riichiTurn| && s < |hand.ippatsu| && s < |hand.called|
    requires ScratchIs(hand, events, s) && next.(deltas := hand.deltas) == hand
    ensures ScratchIs(next, events + [EndKyoku], s)
  {
    hide Declared, WindowOpen, HasCalled;
    OneMore(events, EndKyoku, s);
    WindowOneMore(events, EndKyoku, s);
  }

  ghost predicate OutIs(out: seq<(int, int)>, results: seq<SeatResult>)
  {
    && (forall s: nat :: s < |out| <==> Reaches(results, s))
    && (forall s :: 0 <= s < |out| ==> out[s] == ResultOf(results, s))
  }

  /** `(settled point, grading score)` per seat, as far as the highest seat listed; nothing comes back when a seat does
      not fit, a list being given `room` entries at most. */
  method Settlement(results: seq<SeatResult>, room: nat) returns (settled: Option<seq<(int, int)>>)
    ensures settled.None? <==> NoRoomFor(results, room)
    ensures settled.Some? ==> OutIs(settled.value, results)
  {
    var out := [];
    for i := 0 to |results|
      invariant OutIs(out, results[..i]) && |out| <= room
      invariant forall k :: 0 <= k < i ==> results[k].seat < room
    {
      var r := results[i];
      if |out| <= r.seat {
        if r.seat >= room {
          return None;
        }
        out := out + Repeat(r.seat + 1 - |out|, (0, 0));
      }
      out := out[r.seat := (r.totalPoint, r.gradingScore)];
      assert results[..i + 1] == results[..i] + [r];
      forall s: nat | true
        ensures s < |out| <==> Reaches(results[..i] + [r], s)
        ensures s < |out| ==> out[s] == ResultOf(results[..i] + [r], s)
      {
        ReachesOneMore(results[..i], r, s);
      }
    }
    assert results[..|results|] == results;
    return Some(out);
  }

  lemma ReachesOneMore(earlier: seq<SeatResult>, r: SeatResult, s: nat)
    ensures Reaches(earlier + [r], s) <==> Reaches(earlier, s) || s <= r.seat
    ensures ResultOf(earlier + [r], s) == if r.seat == s then (r.totalPoint, r.gradingScore) else ResultOf(earlier, s)
    ensures !Reaches(earlier, s) ==> ResultOf(earlier, s) == (0, 0)
  {
    var more := earlier + [r];
    assert more[..|earlier|] == earlier && more[|earlier|] == r;
    if Reaches(earlier, s) {
      var k :| 0 <= k < |earlier| && s <= earlier[k].seat;
      assert s <= more[k].seat;
    }
    if Reaches(more, s) && s > r.seat {
      var k :| 0 <= k < |more| && s <= more[k].seat;
      assert s <= earlier[k].seat;
    }
    if ResultOf(earlier, s) != (0, 0) {
      ResultIsListed(earlier, s);
    }
  }

  lemma {:induction false} ResultIsListed(results: seq<SeatResult>, s: nat)
    requires ResultOf(results, s) != (0, 0)
    ensures Reaches(results, s)
  {
    var n := |results| - 1;
    if results[n].seat != s {
      ResultIsListed(results[..n], s);
      var k :| 0 <= k < n && s <= results[..n][k].seat;
      assert s <= results[k].seat;
    } else {
      assert s <= results[n].seat;
    }
  }
}
