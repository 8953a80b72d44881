/** Laws the counters of a whole table obey, whatever was played: they follow from the hand-by-hand meaning, so by
    `ReplayGame.Replay` they hold of what the scorer returns, as the last part says. `src/replay.rs`. */
module ReplayLaws {
  import opened Prelude
  import opened ReplayEvents
  import opened ReplaySpec
  import opened ReplayLoop
  import opened ReplayGame

  // ------------------------------------------------------------------------------------------- adding up a table

  /** What one event adds to the first `n` seats together. */
  function TableCredit(hand: seq<Event>, event: Event, seats: nat, n: nat): Tally
  {
    if n == 0 then ZERO else Add(TableCredit(hand, event, seats, n - 1), Credit(hand, event, seats, n - 1))
  }

  /** A hand, and a game, for the first `n` seats together. */
  function TableHand(hand: seq<Event>, seats: nat, n: nat): Tally
  {
    if n == 0 then ZERO else Add(TableHand(hand, seats, n - 1), HandScore(hand, seats, n - 1))
  }

  function TableGame(hands: seq<seq<Event>>, seats: nat, n: nat): Tally
  {
    if n == 0 then ZERO else Add(TableGame(hands, seats, n - 1), GameScore(hands, seats, n - 1))
  }

  lemma AddSwaps(a: Tally, b: Tally, c: Tally, d: Tally)
    ensures Add(Add(a, b), Add(c, d)) == Add(Add(a, c), Add(b, d))
  {
  }

  lemma {:induction false} TableHandGrows(hand: seq<Event>, event: Event, seats: nat, n: nat)
    ensures TableHand(hand + [event], seats, n) == Add(TableHand(hand, seats, n), TableCredit(hand, event, seats, n))
  {
    hide Add, Credit;
    if n == 0 {
      AddZero(ZERO);
    } else {
      TableHandGrows(hand, event, seats, n - 1);
      assert (hand + [event])[..|hand|] == hand;
      AddSwaps(TableHand(hand, seats, n - 1), TableCredit(hand, event, seats, n - 1),
               HandScore(hand, seats, n - 1), Credit(hand, event, seats, n - 1));
    }
  }

  lemma {:induction false} TableGameGrows(hands: seq<seq<Event>>, hand: seq<Event>, seats: nat, n: nat)
    ensures TableGame(hands + [hand], seats, n) == Add(TableGame(hands, seats, n), TableHand(hand, seats, n))
  {
    hide Add;
    if n == 0 {
      AddZero(ZERO);
    } else {
      TableGameGrows(hands, hand, seats, n - 1);
      assert (hands + [hand])[..|hands|] == hands;
      AddSwaps(TableGame(hands, seats, n - 1), TableHand(hand, seats, n - 1),
               GameScore(hands, seats, n - 1), HandScore(hand, seats, n - 1));
    }
  }

  lemma {:induction false} TableOfNothing(seats: nat, n: nat)
    ensures TableHand([], seats, n) == ZERO && TableGame([], seats, n) == ZERO
  {
    hide Add, Credit;
    if n > 0 {
      TableOfNothing(seats, n - 1);
      AddZero(ZERO);
    }
  }

  // ------------------------------------------------------------------------------------------------ declarations

  /** Every declaration is either the first of its hand or chases one. */
  lemma {:induction false} HandRiichiSplits(hand: seq<Event>, seats: nat, seat: nat)
    ensures HandScore(hand, seats, seat).riichi
         == HandScore(hand, seats, seat).riichiFirst + HandScore(hand, seats, seat).riichiChasing
  {
    if hand != [] {
      var n := |hand| - 1;
      HandRiichiSplits(hand[..n], seats, seat);
      CreditRiichiSplits(hand[..n], hand[n], seats, seat);
    }
  }

  lemma CreditRiichiSplits(hand: seq<Event>, event: Event, seats: nat, seat: nat)
    ensures Credit(hand, event, seats, seat).riichi
         == Credit(hand, event, seats, seat).riichiFirst + Credit(hand, event, seats, seat).riichiChasing
  {
    hide Declared, HasCalled, WindowOpen, Declarers, Draws, Pending, IsIppatsu, UraHit;
  }

  lemma {:induction false} RiichiSplits(hands: seq<seq<Event>>, seats: nat, seat: nat)
    ensures GameScore(hands, seats, seat).riichi
         == GameScore(hands, seats, seat).riichiFirst + GameScore(hands, seats, seat).riichiChasing
  {
    if hands != [] {
      var n := |hands| - 1;
      RiichiSplits(hands[..n], seats, seat);
      HandRiichiSplits(hands[n], seats, seat);
    }
  }

  /** Whether an event is a seat's first declaration in its hand. */
  predicate NewRiichi(hand: seq<Event>, event: Event, seats: nat)
  {
    event.ReachAccepted? && Seated(event.actor, seats) && !Declared(hand, event.actor.value)
  }

  lemma {:induction false} DeclarersGrow(hand: seq<Event>, event: Event, seats: nat, n: nat)
    requires n <= seats
    ensures Declarers(hand + [event], n)
         == Declarers(hand, n) + Bit(NewRiichi(hand, event, seats) && event.actor.value < n)
  {
    hide Declared;
    if n > 0 {
      DeclarersGrow(hand, event, seats, n - 1);
      OneMore(hand, event, n - 1);
      if event.ReachAccepted? && Seated(event.actor, seats) {
        OneMore(hand, event, event.actor.value);
      }
    }
  }

  /** A new declaration chases everyone who has declared before it, and nothing else is ever chased. */
  lemma {:induction false} ChasedByOne(hand: seq<Event>, event: Event, seats: nat, n: nat)
    ensures TableCredit(hand, event, seats, n).riichiChased
         == if NewRiichi(hand, event, seats) then Declarers(hand, n) else 0
  {
    hide Declared, HasCalled, WindowOpen, Draws, Pending, IsIppatsu, UraHit;
    if n > 0 {
      ChasedByOne(hand, event, seats, n - 1);
      CreditChased(hand, event, seats, n - 1);
    }
  }

  lemma CreditChased(hand: seq<Event>, event: Event, seats: nat, seat: nat)
    ensures Credit(hand, event, seats, seat).riichiChased
         == Bit(NewRiichi(hand, event, seats) && Declared(hand, seat))
  {
    hide Declared, HasCalled, WindowOpen, Declarers, Draws, Pending, IsIppatsu, UraHit;
  }

  function Pairs(k: nat): nat
  {
    if k == 0 then 0 else Pairs(k - 1) + k - 1
  }

  lemma {:induction false} PairsAre(k: nat)
    ensures 2 * Pairs(k) == k * (k - 1)
  {
    if k > 0 {
      PairsAre(k - 1);
    }
  }

  lemma {:induction false} HandChased(hand: seq<Event>, seats: nat)
    ensures TableHand(hand, seats, seats).riichiChased == Pairs(Declarers(hand, seats))
  {
    hide Declared, Credit;
    if hand == [] {
      TableOfNothing(seats, seats);
      NobodyDeclared(seats);
    } else {
      var n := |hand| - 1;
      assert hand[..n] + [hand[n]] == hand;
      HandChased(hand[..n], seats);
      TableHandGrows(hand[..n], hand[n], seats, seats);
      ChasedByOne(hand[..n], hand[n], seats, seats);
      DeclarersGrow(hand[..n], hand[n], seats, seats);
    }
  }

  lemma {:induction false} NobodyDeclared(n: nat)
    ensures Declarers([], n) == 0
  {
    if n > 0 {
      NobodyDeclared(n - 1);
    }
  }

  /** The pairs of declarations of a whole game. */
  function PairsOfGame(hands: seq<seq<Event>>, seats: nat): nat
  {
    if hands == [] then 0
    else PairsOfGame(hands[..|hands| - 1], seats) + Pairs(Declarers(hands[|hands| - 1], seats))
  }

  /** Over a game, the seats together are chased once for every pair of declarations in one hand: `k * (k - 1) / 2`
      times in a hand with `k` of them. */
  lemma {:induction false} ChasedIsPairs(hands: seq<seq<Event>>, seats: nat)
    ensures TableGame(hands, seats, seats).riichiChased == PairsOfGame(hands, seats)
  {
    hide Credit;
    if hands == [] {
      TableOfNothing(seats, seats);
    } else {
      var n := |hands| - 1;
      assert hands[..n] + [hands[n]] == hands;
      ChasedIsPairs(hands[..n], seats);
      TableGameGrows(hands[..n], hands[n], seats, seats);
      HandChased(hands[n], seats);
    }
  }

  // -------------------------------------------------------------------------------------------------------- wins

  lemma {:induction false} WinsOfOne(hand: seq<Event>, event: Event, seats: nat, n: nat)
    ensures var credit := TableCredit(hand, event, seats, n);
            && credit.wins == Bit(IsWin(event, seats) && event.actor.value < n)
            && credit.winsTsumo == Bit(IsWin(event, seats) && event.actor.value < n
                                       && Payer(event, seats) == event.actor.value)
            && credit.dealIns == Bit(IsWin(event, seats) && Payer(event, seats) < n
                                     && Payer(event, seats) != event.actor.value)
  {
    if n > 0 {
      WinsOfOne(hand, event, seats, n - 1);
      CreditWins(hand, event, seats, n - 1);
    }
  }

  lemma CreditWins(hand: seq<Event>, event: Event, seats: nat, seat: nat)
    ensures var credit := Credit(hand, event, seats, seat);
            && credit.wins == Bit(IsWin(event, seats) && event.actor.value == seat)
            && credit.winsTsumo == Bit(IsWin(event, seats) && event.actor.value == seat
                                       && Payer(event, seats) == event.actor.value)
            && credit.dealIns == Bit(IsWin(event, seats) && Payer(event, seats) == seat
                                     && Payer(event, seats) != event.actor.value)
  {
    hide Declared, HasCalled, WindowOpen, Declarers, Draws, Pending, IsIppatsu, UraHit;
  }

  lemma {:induction false} HandWins(hand: seq<Event>, seats: nat)
    ensures TableHand(hand, seats, seats).wins
         == TableHand(hand, seats, seats).winsTsumo + TableHand(hand, seats, seats).dealIns
  {
    hide Credit;
    if hand == [] {
      TableOfNothing(seats, seats);
    } else {
      var n := |hand| - 1;
      assert hand[..n] + [hand[n]] == hand;
      HandWins(hand[..n], seats);
      TableHandGrows(hand[..n], hand[n], seats, seats);
      WinsOfOne(hand[..n], hand[n], seats, seats);
    }
  }

  /** Over a game, every win was drawn by the winner or dealt in by someone else. */
  lemma {:induction false} WinsAreTsumoOrDealIn(hands: seq<seq<Event>>, seats: nat)
    ensures TableGame(hands, seats, seats).wins
         == TableGame(hands, seats, seats).winsTsumo + TableGame(hands, seats, seats).dealIns
  {
    hide Credit;
    if hands == [] {
      TableOfNothing(seats, seats);
    } else {
      var n := |hands| - 1;
      assert hands[..n] + [hands[n]] == hands;
      WinsAreTsumoOrDealIn(hands[..n], seats);
      TableGameGrows(hands[..n], hands[n], seats, seats);
      HandWins(hands[n], seats);
    }
  }

  // ------------------------------------------------------------------------------------------------------ points

  predicate AnyWin(hand: seq<Event>, seats: nat)
  {
    exists k :: 0 <= k < |hand| && IsWin(hand[k], seats)
  }

  /** A hand that is dealt and ends once, at `end`, having reported a change for every seat: one that sums to nothing
      when the hand was drawn, and to the sticks swept up, carried and declared, when it was won. */
  ghost predicate WellFormed(hand: seq<Event>, seats: nat, end: nat)
  {
    && Dealt(hand) && end < |hand| && hand[end].EndKyoku?
    && (forall k :: 0 <= k < |hand| && k != end ==> !hand[k].EndKyoku?)
    && Pending(hand[..end], seats).Some?
    && |Pending(hand[..end], seats).value| == seats
    && Sum(Pending(hand[..end], seats).value)
       == if AnyWin(hand[..end], seats) then 1_000 * (Carried(hand) + Declarers(hand[..end], seats)) else 0
  }

  /** The sticks a hand leaves on the table. */
  function LeftBehind(hand: seq<Event>, seats: nat, end: nat): int
    requires end <= |hand|
  {
    if AnyWin(hand[..end], seats) then 0 else Carried(hand) + Declarers(hand[..end], seats)
  }

  lemma OnlyEndMoves(hand: seq<Event>, event: Event, seats: nat, seat: nat)
    ensures !event.EndKyoku? || !Dealt(hand) ==> Credit(hand, event, seats, seat).netPoints == 0
    ensures event.EndKyoku? && Dealt(hand) ==> Credit(hand, event, seats, seat).netPoints == Movement(hand, seats, seat)
  {
    hide Declared, HasCalled, WindowOpen, Declarers, Draws, Pending, IsIppatsu, UraHit, Movement;
  }

  lemma {:induction false} TableUnmoved(hand: seq<Event>, event: Event, seats: nat, n: nat)
    requires !event.EndKyoku? || !Dealt(hand)
    ensures TableCredit(hand, event, seats, n).netPoints == 0
  {
    hide Credit;
    if n > 0 {
      TableUnmoved(hand, event, seats, n - 1);
      OnlyEndMoves(hand, event, seats, n - 1);
    }
  }

  lemma {:induction false} TableMoved(hand: seq<Event>, seats: nat, n: nat)
    requires Dealt(hand) && Pending(hand, seats).Some? && n <= |Pending(hand, seats).value|
    ensures TableCredit(hand, EndKyoku, seats, n).netPoints
         == Sum(Pending(hand, seats).value[..n]) - 1_000 * Declarers(hand, n)
  {
    hide Credit, Declared, Pending;
    var change := Pending(hand, seats).value;
    if n > 0 {
      TableMoved(hand, seats, n - 1);
      OnlyEndMoves(hand, EndKyoku, seats, n - 1);
      assert change[..n] == change[..n - 1] + [change[n - 1]];
      SumSnoc(change[..n - 1], change[n - 1]);
    }
  }

  /** What is moved in the first `m` events of a hand. */
  lemma {:induction false} HandMoves(hand: seq<Event>, seats: nat, end: nat, m: nat)
    requires WellFormed(hand, seats, end) && m <= |hand|
    ensures TableHand(hand[..m], seats, seats).netPoints
         == if m <= end then 0 else 1_000 * (Carried(hand) - LeftBehind(hand, seats, end))
  {
    hide Credit, Declared, Pending;
    if m == 0 {
      TableOfNothing(seats, seats);
    } else {
      HandMoves(hand, seats, end, m - 1);
      assert hand[..m] == hand[..m - 1] + [hand[m - 1]];
      TableHandGrows(hand[..m - 1], hand[m - 1], seats, seats);
      if m - 1 == end {
        var change := Pending(hand[..end], seats).value;
        assert change[..seats] == change;
        assert Dealt(hand[..end]) && Carried(hand[..end]) == Carried(hand);
        TableMoved(hand[..end], seats, seats);
      } else {
        TableUnmoved(hand[..m - 1], hand[m - 1], seats, seats);
      }
    }
  }

  lemma {:induction false} UndealtMovesNothing(hand: seq<Event>, seats: nat)
    requires !Dealt(hand)
    ensures TableHand(hand, seats, seats).netPoints == 0
  {
    hide Credit;
    if hand == [] {
      TableOfNothing(seats, seats);
    } else {
      var n := |hand| - 1;
      assert hand[..n] + [hand[n]] == hand;
      UndealtMovesNothing(hand[..n], seats);
      TableHandGrows(hand[..n], hand[n], seats, seats);
      TableUnmoved(hand[..n], hand[n], seats, seats);
    }
  }

  /** A game whose hands are well formed, the `i`th ending at `ends[i]`, each carrying the sticks the one before it
      left; the first piece is what comes before any hand, and the first hand carries none. */
  ghost predicate WellFormedGame(hands: seq<seq<Event>>, seats: nat, ends: seq<nat>)
  {
    && hands != [] && |ends| == |hands| && !Dealt(hands[0])
    && (forall i :: 1 <= i < |hands| ==> WellFormed(hands[i], seats, ends[i]))
    && (forall i :: 1 <= i < |hands| ==>
          Carried(hands[i]) == if i == 1 then 0 else LeftBehind(hands[i - 1], seats, ends[i - 1]))
  }

  /** Points are conserved: over a well-formed game the seats together move by exactly the sticks still on the table
      when it ends. */
  lemma {:induction false} PointsAreConserved(hands: seq<seq<Event>>, seats: nat, ends: seq<nat>)
    requires WellFormedGame(hands, seats, ends)
    ensures TableGame(hands, seats, seats).netPoints
         == if |hands| == 1 then 0
            else -1_000 * LeftBehind(hands[|hands| - 1], seats, ends[|hands| - 1])
  {
    hide WellFormed, LeftBehind, Carried, TableGame, TableHand, GameScore, HandScore;
    var n := |hands| - 1;
    var last := hands[n];
    assert hands[..n] + [last] == hands;
    TableGameGrows(hands[..n], last, seats, seats);
    if n == 0 {
      TableOfNothing(seats, seats);
      UndealtMovesNothing(last, seats);
    } else {
      PointsAreConserved(hands[..n], seats, ends[..n]);
      assert WellFormed(last, seats, ends[n]);
      EndIsInside(last, seats, ends[n]);
      HandMoves(last, seats, ends[n], |last|);
      assert last[..|last|] == last;
    }
  }

  lemma EndIsInside(hand: seq<Event>, seats: nat, end: nat)
    requires WellFormed(hand, seats, end)
    ensures end < |hand|
  {
  }

  /** What everyone but one seat paid. */
  function OthersPaid(change: seq<int>, seat: nat): int
  {
    if change == [] then 0
    else
      var n := |change| - 1;
      OthersPaid(change[..n], seat) - if n == seat then 0 else change[n]
  }

  lemma {:induction false} OthersPaidIs(change: seq<int>, seat: nat)
    ensures OthersPaid(change, seat) == (if seat < |change| then change[seat] else 0) - Sum(change)
  {
    if change != [] {
      OthersPaidIs(change[..|change| - 1], seat);
    }
  }

  lemma CreditWinPoints(hand: seq<Event>, event: Event, seats: nat, seat: nat)
    ensures Credit(hand, event, seats, seat).winPoints
         == if IsWin(event, seats) && event.actor.value == seat then WinValue(hand, event, seats) else 0
  {
    hide Declared, HasCalled, WindowOpen, Declarers, Draws, Pending, IsIppatsu, UraHit, WinValue;
  }

  /** In a hand with one win, at `at`, whose change sums to the sticks swept up, the winner's value is exactly what the
      other seats paid. */
  lemma {:induction false} WinIsWhatOthersPaid(hand: seq<Event>, seats: nat, at: nat, m: nat)
    requires at < |hand| && m <= |hand| && Dealt(hand) && IsWin(hand[at], seats)
    requires forall k :: 0 <= k < |hand| && k != at ==> !IsWin(hand[k], seats)
    requires Pending(hand[..at + 1], seats).Some? && |Pending(hand[..at + 1], seats).value| == seats
    requires Sum(Pending(hand[..at + 1], seats).value) == 1_000 * (Carried(hand) + Declarers(hand[..at], seats))
    ensures HandScore(hand[..m], seats, hand[at].actor.value).winPoints
         == if m <= at then 0 else OthersPaid(Pending(hand[..at + 1], seats).value, hand[at].actor.value)
  {
    hide Credit, Declared, Pending;
    var seat := hand[at].actor.value;
    if m > 0 {
      WinIsWhatOthersPaid(hand, seats, at, m - 1);
      assert hand[..m][..m - 1] == hand[..m - 1] && hand[..m][m - 1] == hand[m - 1];
      CreditWinPoints(hand[..m - 1], hand[m - 1], seats, seat);
      if m - 1 == at {
        assert hand[..at] + [hand[at]] == hand[..at + 1];
        assert Carried(hand[..at]) == Carried(hand);
        OthersPaidIs(Pending(hand[..at + 1], seats).value, seat);
      }
    }
  }

  // -------------------------------------------------------------------------------------------------- placements

  /** Placements number the seats from one up, and follow the scores, ties to the lower seat. */
  lemma PlacementsRank(scores: seq<int>, a: nat, b: nat)
    requires a < |scores| && b < |scores|
    ensures 1 <= PlacementOf(scores, a) <= |scores|
    ensures Ahead(scores, a, b) <==> PlacementOf(scores, a) < PlacementOf(scores, b)
    ensures a != b ==> PlacementOf(scores, a) != PlacementOf(scores, b)
  {
    NotAheadOfItself(scores, a, |scores|);
    if Ahead(scores, a, b) {
      AheadCounts(scores, a, b, |scores|);
    } else if a != b {
      AheadCounts(scores, b, a, |scores|);
    }
  }

  lemma {:induction false} NotAheadOfItself(scores: seq<int>, a: nat, n: nat)
    requires a < |scores| && n <= |scores|
    ensures a < n ==> AheadOf(scores, a, n) < n
  {
    if n > 0 {
      NotAheadOfItself(scores, a, n - 1);
    }
  }

  lemma {:induction false} AheadCounts(scores: seq<int>, a: nat, b: nat, n: nat)
    requires a < |scores| && b < |scores| && n <= |scores| && Ahead(scores, a, b)
    ensures AheadOf(scores, a, n) + Bit(a < n) <= AheadOf(scores, b, n)
  {
    if n > 0 {
      AheadCounts(scores, a, b, n - 1);
    }
  }

  /** Every place is somebody's. */
  lemma PlaceTaken(scores: seq<int>, place: nat) returns (seat: nat)
    requires 1 <= place <= |scores|
    ensures seat < |scores| && PlacementOf(scores, seat) == place
  {
    hide PlacementOf;
    var taken, places := PlacesOf(scores, |scores|), UpTo(|scores|);
    forall s | 0 <= s < |scores|
      ensures PlacementOf(scores, s) in places
    {
      PlacementsRank(scores, s, s);
    }
    ManyPlaces(scores, |scores|);
    if place !in taken {
      SmallerSet(taken, places - {place});
      assert false;
    }
    seat :| seat < |scores| && PlacementOf(scores, seat) == place;
  }

  function PlacesOf(scores: seq<int>, n: nat): set<nat>
    requires n <= |scores|
  {
    set s | 0 <= s < n :: PlacementOf(scores, s)
  }

  lemma {:induction false} ManyPlaces(scores: seq<int>, n: nat)
    requires n <= |scores|
    ensures |PlacesOf(scores, n)| == n
  {
    hide PlacementOf;
    if n > 0 {
      ManyPlaces(scores, n - 1);
      forall s | 0 <= s < n - 1
        ensures PlacementOf(scores, s) != PlacementOf(scores, n - 1)
      {
        PlacementsRank(scores, s, n - 1);
      }
      assert PlacesOf(scores, n) == PlacesOf(scores, n - 1) + {PlacementOf(scores, n - 1)};
    }
  }

  function UpTo(n: nat): (all: set<nat>)
    ensures |all| == n && forall p :: p in all <==> 1 <= p <= n
  {
    if n == 0 then {} else UpTo(n - 1) + {n}
  }

  lemma {:induction false} SmallerSet(a: set<nat>, b: set<nat>)
    requires a <= b
    ensures |a| <= |b|
  {
    if a != {} {
      var x :| x in a;
      SmallerSet(a - {x}, b - {x});
    }
  }

  /** A place kept in one byte tells seats apart exactly up to 256 seats, and orders them exactly up to 255. */
  lemma StoredPlaces(scores: seq<int>)
    ensures |scores| <= 256 <==> StoredApart(scores)
    ensures |scores| <= 255 <==> StoredInOrder(scores)
  {
    hide PlacementOf, Ahead;
    forall a, b | 0 <= a < |scores| && 0 <= b < |scores|
      ensures |scores| <= 255 && Ahead(scores, a, b) ==>
                LowByte(PlacementOf(scores, a)) < LowByte(PlacementOf(scores, b))
      ensures |scores| <= 256 && a != b ==> LowByte(PlacementOf(scores, a)) != LowByte(PlacementOf(scores, b))
    {
      PlacementsRank(scores, a, b);
      PlacementsRank(scores, b, a);
    }
    if |scores| > 256 {
      var first := PlaceTaken(scores, 1);
      var again := PlaceTaken(scores, 257);
    }
    if |scores| > 255 {
      var first := PlaceTaken(scores, 1);
      var last := PlaceTaken(scores, 256);
      PlacementsRank(scores, first, last);
    }
  }

  ghost predicate StoredApart(scores: seq<int>)
  {
    forall a, b :: 0 <= a < |scores| && 0 <= b < |scores| && a != b ==>
      LowByte(PlacementOf(scores, a)) != LowByte(PlacementOf(scores, b))
  }

  ghost predicate StoredInOrder(scores: seq<int>)
  {
    forall a, b :: 0 <= a < |scores| && 0 <= b < |scores| && Ahead(scores, a, b) ==>
      LowByte(PlacementOf(scores, a)) < LowByte(PlacementOf(scores, b))
  }

  // ------------------------------------------------------------------------------------- of what the scorer returns

  /** The counters of all seats together. */
  function Total(players: seq<SeatStats>): Tally
  {
    if players == [] then ZERO else Add(Total(players[..|players| - 1]), players[|players| - 1].tally)
  }

  lemma {:induction false} TotalIsTable(events: seq<Event>, n: nat)
    requires Score(events).Some? && n <= |Score(events).value.players|
    ensures Total(Score(events).value.players[..n]) == TableGame(Hands(events), |Score(events).value.players|, n)
  {
    hide Add, GameScore, Hands;
    if n > 0 {
      var players := Score(events).value.players;
      TotalIsTable(events, n - 1);
      assert players[..n][..n - 1] == players[..n - 1];
    }
  }

  /** Of every game the scorer returns: each seat's declarations are first ones or chases, each pair of declarations in
      one hand is chased once, and every win was drawn or dealt in. */
  lemma ScoredTableLaws(events: seq<Event>)
    requires Score(events).Some?
    ensures var players := Score(events).value.players;
            var total := Total(players);
            && (forall p :: p in players ==> p.tally.riichi == p.tally.riichiFirst + p.tally.riichiChasing)
            && total.riichiChased == PairsOfGame(Hands(events), |players|)
            && total.wins == total.winsTsumo + total.dealIns
  {
    hide Add, GameScore, Hands, TableGame, PlacementOf, PairsOfGame;
    var players := Score(events).value.players;
    assert players[..|players|] == players;
    TotalIsTable(events, |players|);
    ChasedIsPairs(Hands(events), |players|);
    WinsAreTsumoOrDealIn(Hands(events), |players|);
    forall i | 0 <= i < |players|
      ensures players[i].tally.riichi == players[i].tally.riichiFirst + players[i].tally.riichiChasing
    {
      RiichiSplits(Hands(events), |players|, i);
    }
  }

  /** No two seats share a place, exactly when there are no more than 256; and the places are in the order of the final
      scores, ties to the lower seat, exactly when there are no more than 255. */
  lemma ScoredPlaces(events: seq<Event>)
    requires Score(events).Some?
    ensures var players := Score(events).value.players;
            |players| <= 256 <==> forall a, b :: 0 <= a < |players| && 0 <= b < |players| && a != b ==>
                                    players[a].placement != players[b].placement
    ensures var players := Score(events).value.players;
            |players| <= 255 <==> forall a, b :: 0 <= a < |players| && 0 <= b < |players|
                                                 && Before(players, a, b) ==>
                                    players[a].placement < players[b].placement
  {
    hide Score, FinalScores, PlacementOf, LowByte;
    var players := Score(events).value.players;
    var scores := FinalScores(events, |players|);
    StoredPlaces(scores);
    PlayersStore(events);
    assert StoredApart(scores) <==> forall a, b :: 0 <= a < |players| && 0 <= b < |players| && a != b ==>
                                      players[a].placement != players[b].placement;
  }

  lemma PlayersStore(events: seq<Event>)
    requires Score(events).Some?
    ensures var players := Score(events).value.players;
            var scores := FinalScores(events, |players|);
            forall a :: 0 <= a < |players| ==>
              players[a].placement == LowByte(PlacementOf(scores, a)) && players[a].finalScore == scores[a]
  {
    hide Add, GameScore, Hands, PlacementOf, Settled, MostHan, LongestRun, LastScores;
  }

  predicate Before(players: seq<SeatStats>, a: nat, b: nat)
    requires a < |players| && b < |players|
  {
    players[a].finalScore > players[b].finalScore || (players[a].finalScore == players[b].finalScore && a < b)
  }

  /** And when its hands are well formed, what the seats move by is what is left on the table. */
  lemma ScoredPointsAreConserved(events: seq<Event>, ends: seq<nat>)
    requires Score(events).Some? && WellFormedGame(Hands(events), |Score(events).value.players|, ends)
    ensures var hands, seats := Hands(events), |Score(events).value.players|;
            var left := if |hands| == 1 then 0 else LeftBehind(hands[|hands| - 1], seats, ends[|hands| - 1]);
            Total(Score(events).value.players).netPoints == -1_000 * left
  {
    hide Add, GameScore, Hands, TableGame, LeftBehind, WellFormedGame;
    var players := Score(events).value.players;
    assert players[..|players|] == players;
    TotalIsTable(events, |players|);
    PointsAreConserved(Hands(events), |players|, ends);
    assert |Hands(events)| > 0 && |ends| == |Hands(events)| by {
      HandsAndEnds(Hands(events), |players|, ends);
    }
  }

  lemma HandsAndEnds(hands: seq<seq<Event>>, seats: nat, ends: seq<nat>)
    requires WellFormedGame(hands, seats, ends)
    ensures |hands| > 0 && |ends| == |hands|
  {
  }
}
