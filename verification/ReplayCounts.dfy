/** What a hit, a one-shot win and the counters of a returned game are, said of tiles and of the events of the stream
    alone. `src/replay.rs`. */
module ReplayCounts {
  import opened Prelude
  import opened ReplayEvents
  import opened ReplaySpec
  import opened ReplayLoop
  import opened ReplayGame

  // ------------------------------------------------------------------------------------------------------- tiles

  /** The first `k` characters of a tile are all of it but its red marks. */
  predicate Bare(tile: string, k: nat)
  {
    && k <= |tile|
    && (forall i :: k <= i < |tile| ==> tile[i] == 'r')
    && (k > 0 ==> tile[k - 1] != 'r')
  }

  lemma {:induction false} NormaliseIsBare(tile: string)
    ensures Normalise(tile) <= tile && Bare(tile, |Normalise(tile)|)
  {
    if tile != [] && tile[|tile| - 1] == 'r' {
      NormaliseIsBare(tile[..|tile| - 1]);
    }
  }

  lemma BareIsOne(tile: string, j: nat, k: nat)
    requires Bare(tile, j) && Bare(tile, k)
    ensures j == k
  {
  }

  predicate IsDigit(c: char)
  {
    '0' <= c <= '9'
  }

  predicate IsWindOrDragon(marker: string)
  {
    marker in {"E", "S", "W", "N", "P", "F", "C"}
  }

  /** The four winds and the three dragons, each before the one its indicator makes a dora. */
  predicate InCycle(marker: string, tile: string)
  {
    || (marker == "E" && tile == "S") || (marker == "S" && tile == "W")
    || (marker == "W" && tile == "N") || (marker == "N" && tile == "E")
    || (marker == "P" && tile == "F") || (marker == "F" && tile == "C") || (marker == "C" && tile == "P")
  }

  /** One number up in the same suit, and from the nine to the one. */
  predicate NextInSuit(marker: string, tile: string)
  {
    && marker != [] && |tile| == |marker| && tile[1..] == marker[1..]
    && IsDigit(marker[0]) && IsDigit(tile[0])
    && if marker[0] == '9' then tile[0] == '1' else tile[0] as int == marker[0] as int + 1
  }

  /** An indicator points at a tile, red marks aside. */
  ghost predicate PointsAt(marker: string, tile: string)
  {
    exists k: nat :: Bare(tile, k) &&
      if IsWindOrDragon(marker) then InCycle(marker, tile[..k])
      else exists j: nat :: Bare(marker, j) && NextInSuit(marker[..j], tile[..k])
  }

  /** A tile of the winner's hand, or the one it was won with. */
  predicate Holds(win: Win, tile: string)
  {
    tile in win.tehais || win.pai == Some(tile)
  }

  lemma DoraIsNext(marker: string, tile: string)
    ensures DoraFrom(marker) == Some(Normalise(tile)) <==> PointsAt(marker, tile)
  {
    NormaliseIsBare(tile);
    NormaliseIsBare(marker);
    var j, k := |Normalise(marker)|, |Normalise(tile)|;
    assert tile[..k] == Normalise(tile) && marker[..j] == Normalise(marker);
    PointsAtBare(marker, tile, j, k);
    DoraInSuit(marker[..j], tile[..k]);
  }

  lemma PointsAtBare(marker: string, tile: string, j: nat, k: nat)
    requires Bare(marker, j) && Bare(tile, k)
    ensures PointsAt(marker, tile) <==>
              if IsWindOrDragon(marker) then InCycle(marker, tile[..k]) else NextInSuit(marker[..j], tile[..k])
  {
    hide IsWindOrDragon, InCycle, NextInSuit, Bare;
    forall i: nat | Bare(tile, i)
      ensures i == k
    {
      BareIsOne(tile, i, k);
    }
    forall i: nat | Bare(marker, i)
      ensures i == j
    {
      BareIsOne(marker, i, j);
    }
  }

  lemma DoraInSuit(marker: string, tile: string)
    ensures NextInSuit(marker, tile) <==>
              && marker != [] && DigitOf(marker[0]).Some?
              && tile == ['0' + (DigitOf(marker[0]).value % 9 + 1) as char] + marker[1..]
  {
    if tile != [] {
      assert tile == [tile[0]] + tile[1..];
    }
  }

  /** A win has a hit exactly when some indicator points at a tile of the hand or at the winning tile. */
  lemma UraHitIff(win: Win)
    ensures UraHit(win) <==>
              exists m, t :: 0 <= m < |win.uraMarkers| && Holds(win, t) && PointsAt(win.uraMarkers[m], t)
  {
    hide DoraFrom, Normalise, PointsAt;
    forall m | 0 <= m < |win.uraMarkers|
      ensures Hits(win, win.uraMarkers[m]) <==> exists t :: Holds(win, t) && PointsAt(win.uraMarkers[m], t)
    {
      HitsIff(win, win.uraMarkers[m]);
    }
  }

  lemma HitsIff(win: Win, marker: string)
    ensures Hits(win, marker) <==> exists t :: Holds(win, t) && PointsAt(marker, t)
  {
    hide DoraFrom, Normalise, PointsAt;
    forall t
      ensures t in Tiles(win) <==> Holds(win, t)
      ensures DoraFrom(marker) == Some(Normalise(t)) <==> PointsAt(marker, t)
    {
      DoraIsNext(marker, t);
    }
    if Hits(win, marker) {
      var i :| 0 <= i < |Tiles(win)| && DoraFrom(marker) == Some(Normalise(Tiles(win)[i]));
      assert Tiles(win)[i] in Tiles(win);
    }
  }

  /** Looking for a hit panics exactly when, before any indicator that points at a tile, one comes that is neither wind
      nor dragon and that is nothing but red marks, or begins with a character past the ASCII ones. */
  lemma UraPanicsIff(win: Win)
    ensures UraPanics(win) <==>
              exists m ::
                && 0 <= m < |win.uraMarkers| && !IsWindOrDragon(win.uraMarkers[m])
                && ((forall i :: 0 <= i < |win.uraMarkers[m]| ==> win.uraMarkers[m][i] == 'r')
                    || win.uraMarkers[m][0] as int >= 128)
                && forall k, t :: 0 <= k < m && Holds(win, t) ==> !PointsAt(win.uraMarkers[k], t)
  {
    hide DoraFrom, Normalise, PointsAt, Hits;
    forall m | 0 <= m < |win.uraMarkers|
      ensures Hits(win, win.uraMarkers[m]) <==> exists t :: Holds(win, t) && PointsAt(win.uraMarkers[m], t)
      ensures Splits(win.uraMarkers[m]) <==>
                || IsWindOrDragon(win.uraMarkers[m])
                || !((forall i :: 0 <= i < |win.uraMarkers[m]| ==> win.uraMarkers[m][i] == 'r')
                     || win.uraMarkers[m][0] as int >= 128)
    {
      HitsIff(win, win.uraMarkers[m]);
      SplitsIff(win.uraMarkers[m]);
    }
  }

  lemma SplitsIff(marker: string)
    ensures Splits(marker) <==>
              || IsWindOrDragon(marker)
              || !((forall i :: 0 <= i < |marker| ==> marker[i] == 'r') || marker[0] as int >= 128)
  {
    NormaliseIsBare(marker);
  }

  // ------------------------------------------------------------------------------------------------ what is counted

  /** A seat has declared since the last deal. */
  ghost predicate DeclaredSince(before: seq<Event>, seat: nat)
  {
    exists j :: 0 <= j < |before| && before[j] == ReachAccepted(Some(seat)) && NoDealAfter(before, j)
  }

  predicate NoDealAfter(before: seq<Event>, j: nat)
  {
    forall i :: j < i < |before| ==> !before[i].StartKyoku?
  }

  /** The seat's first declaration since the last deal, after which nobody has called and the seat has not discarded. */
  ghost predicate OneShotAt(before: seq<Event>, seat: nat, j: nat)
  {
    && j < |before| && before[j] == ReachAccepted(Some(seat)) && NoDealAfter(before, j)
    && !DeclaredSince(before[..j], seat)
    && forall i :: j < i < |before| ==> !before[i].Call? && before[i] != Dahai(Some(seat))
  }

  ghost predicate OneShot(before: seq<Event>, seat: nat)
  {
    exists j: nat :: OneShotAt(before, seat, j)
  }

  predicate Wins(event: Event, seat: nat)
  {
    event.Hora? && event.actor == Some(seat)
  }

  /** A win after declaring, with a hit. */
  ghost predicate WinsWithHit(before: seq<Event>, event: Event, seat: nat)
  {
    && Wins(event, seat) && DeclaredSince(before, seat)
    && exists m, t ::
         0 <= m < |event.win.uraMarkers| && Holds(event.win, t) && PointsAt(event.win.uraMarkers[m], t)
  }

  /** A one-shot win after declaring: yaku 30 is on the list where there is one, else nothing has come between. */
  ghost predicate WinsAtOnce(before: seq<Event>, event: Event, seat: nat)
  {
    && Wins(event, seat) && DeclaredSince(before, seat)
    && if event.win.yakuIds.Some? then Some(30) in event.win.yakuIds.value else OneShot(before, seat)
  }

  lemma DeclaredIff(before: seq<Event>, seat: nat)
    ensures Declared(CurrentHand(before), seat) <==> DeclaredSince(before, seat)
  {
    var from := HandStarts(before);
    var hand := before[from..];
    if Declared(hand, seat) {
      var k :| 0 <= k < |hand| && Declares(hand[k], seat);
      assert before[from + k] == ReachAccepted(Some(seat));
    }
    if DeclaredSince(before, seat) {
      var j :| 0 <= j < |before| && before[j] == ReachAccepted(Some(seat)) && NoDealAfter(before, j);
      assert j >= from;
      assert Declares(hand[j - from], seat);
    }
  }

  /** Where the current hand starts: at the last deal, or at the beginning. */
  lemma {:induction false} HandStarts(before: seq<Event>) returns (from: nat)
    ensures from <= |before| && CurrentHand(before) == before[from..]
    ensures forall i :: from < i < |before| ==> !before[i].StartKyoku?
    ensures from > 0 ==> from < |before| && before[from].StartKyoku?
  {
    if before == [] {
      from := 0;
    } else {
      var n := |before| - 1;
      if before[n].StartKyoku? {
        from := n;
      } else {
        from := HandStarts(before[..n]);
        assert before[..n][from..] + [before[n]] == before[from..];
      }
    }
  }

  /** The window of a declaration is open: it is the seat's first in the hand, and nothing after it closes it. */
  ghost predicate OpenAt(hand: seq<Event>, seat: nat, j: nat)
  {
    && j < |hand| && Declares(hand[j], seat) && !Declared(hand[..j], seat)
    && forall k :: j < k < |hand| ==> !Closes(hand[k], seat)
  }

  lemma WindowIff(before: seq<Event>, seat: nat)
    ensures WindowOpen(CurrentHand(before), seat) <==> OneShot(before, seat)
  {
    hide WindowOpen, OpenAt, OneShotAt;
    var from := HandStarts(before);
    WindowIsOpenAt(before[from..], seat);
    forall j: nat
      ensures OneShotAt(before, seat, j) <==> j >= from && OpenAt(before[from..], seat, j - from)
    {
      SameWindow(before, from, seat, j);
    }
    if j: nat :| OpenAt(before[from..], seat, j) {
      assert OneShotAt(before, seat, from + j);
    }
  }

  lemma WindowIsOpenAt(hand: seq<Event>, seat: nat)
    ensures WindowOpen(hand, seat) <==> exists j: nat :: OpenAt(hand, seat, j)
  {
    hide Declared, Declares, Closes;
    if j: nat :| OpenAt(hand, seat, j) {
      assert Declares(hand[j], seat) && !Declared(hand[..j], seat);
    }
    if WindowOpen(hand, seat) {
      var j :| 0 <= j < |hand| && Declares(hand[j], seat) && !Declared(hand[..j], seat)
               && forall k :: j < k < |hand| ==> !Closes(hand[k], seat);
      assert OpenAt(hand, seat, j);
    }
  }

  lemma SameWindow(before: seq<Event>, from: nat, seat: nat, j: nat)
    requires from <= |before| && (from > 0 ==> from < |before| && before[from].StartKyoku?)
    requires forall i :: from < i < |before| ==> !before[i].StartKyoku?
    ensures OneShotAt(before, seat, j) <==> j >= from && OpenAt(before[from..], seat, j - from)
  {
    hide Declared, DeclaredSince;
    var hand := before[from..];
    if from <= j < |before| {
      assert forall k :: 0 <= k < |hand| ==> hand[k] == before[from + k];
      assert forall i :: from <= i < |before| ==> before[i] == hand[i - from];
      if before[j] == ReachAccepted(Some(seat)) {
        PrefixOfHand(before, from, j - from);
        DeclaredIff(before[..j], seat);
      }
      assert NoDealAfter(before, j);
    }
    assert j < from < |before| && before[from].StartKyoku? ==> !NoDealAfter(before, j);
  }

  lemma PrefixOfHand(before: seq<Event>, from: nat, j: nat)
    requires from <= |before| && j < |before| - from && (from > 0 ==> before[from].StartKyoku?)
    requires forall i :: from < i < |before| ==> !before[i].StartKyoku?
    requires j > 0 || from == 0
    ensures CurrentHand(before[..from + j]) == before[from..][..j]
  {
    var prefix := before[..from + j];
    var start := HandStarts(prefix);
    assert start == from;
    assert prefix[from..] == before[from..][..j];
  }

  // ------------------------------------------------------------------------------------- of what the scorer returns

  /** The wins of a seat, and of those the one-shot ones and the ones with a hit. */
  ghost function WinsOf(events: seq<Event>, seat: nat): set<nat>
  {
    set k: nat | k < |events| && Wins(events[k], seat)
  }

  ghost function WinsAtOnceOf(events: seq<Event>, seat: nat): set<nat>
  {
    set k: nat | k < |events| && WinsAtOnce(events[..k], events[k], seat)
  }

  ghost function WinsWithHitOf(events: seq<Event>, seat: nat): set<nat>
  {
    set k: nat | k < |events| && WinsWithHit(events[..k], events[k], seat)
  }

  lemma {:induction false} RunningCounts(events: seq<Event>, seats: nat, seat: nat)
    requires seat < seats
    ensures var tally := Running(events, seats, seat);
            && tally.wins == |WinsOf(events, seat)| && tally.riichiIppatsu == |WinsAtOnceOf(events, seat)|
            && tally.riichiUraHits == |WinsWithHitOf(events, seat)|
  {
    hide WinsOf, WinsAtOnceOf, WinsWithHitOf, Wins, WinsAtOnce, WinsWithHit, Credit;
    if events == [] {
      NothingWon(seat);
    } else {
      var n := |events| - 1;
      RunningCounts(events[..n], seats, seat);
      OneMoreWin(events, n, seat);
      OneMoreAtOnce(events, n, seat);
      OneMoreWithHit(events, n, seat);
      WinCounted(events[..n], events[n], seats, seat);
    }
  }

  lemma NothingWon(seat: nat)
    ensures WinsOf([], seat) == {} && WinsAtOnceOf([], seat) == {} && WinsWithHitOf([], seat) == {}
  {
  }

  lemma OneMoreWin(events: seq<Event>, n: nat, seat: nat)
    requires |events| == n + 1
    ensures |WinsOf(events, seat)| == |WinsOf(events[..n], seat)| + Bit(Wins(events[n], seat))
  {
    hide Wins;
    assert forall k :: 0 <= k < n ==> events[..n][k] == events[k];
    assert WinsOf(events, seat) == WinsOf(events[..n], seat) + if Wins(events[n], seat) then {n} else {};
  }

  lemma OneMoreAtOnce(events: seq<Event>, n: nat, seat: nat)
    requires |events| == n + 1
    ensures |WinsAtOnceOf(events, seat)|
         == |WinsAtOnceOf(events[..n], seat)| + Bit(WinsAtOnce(events[..n], events[n], seat))
  {
    hide WinsAtOnce;
    var before := events[..n];
    forall k: nat | k < n
      ensures before[k] == events[k] && before[..k] == events[..k]
    {
    }
    var more := if WinsAtOnce(before, events[n], seat) then {n} else {};
    assert WinsAtOnceOf(events, seat) == WinsAtOnceOf(before, seat) + more;
  }

  lemma OneMoreWithHit(events: seq<Event>, n: nat, seat: nat)
    requires |events| == n + 1
    ensures |WinsWithHitOf(events, seat)|
         == |WinsWithHitOf(events[..n], seat)| + Bit(WinsWithHit(events[..n], events[n], seat))
  {
    hide WinsWithHit;
    var before := events[..n];
    forall k: nat | k < n
      ensures before[k] == events[k] && before[..k] == events[..k]
    {
    }
    var more := if WinsWithHit(before, events[n], seat) then {n} else {};
    assert WinsWithHitOf(events, seat) == WinsWithHitOf(before, seat) + more;
  }

  lemma WinCounted(before: seq<Event>, event: Event, seats: nat, seat: nat)
    requires seat < seats
    ensures var credit := Credit(CurrentHand(before), event, seats, seat);
            && credit.wins == Bit(Wins(event, seat)) && credit.riichiIppatsu == Bit(WinsAtOnce(before, event, seat))
            && credit.riichiUraHits == Bit(WinsWithHit(before, event, seat))
  {
    hide Declared, DeclaredSince, WindowOpen, OneShot, UraHit, Holds, PointsAt, HasCalled, Declarers, Pending, Draws;
    DeclaredIff(before, seat);
    WindowIff(before, seat);
    if event.Hora? {
      UraHitIff(event.win);
    }
  }

  /** Of every game the scorer returns, the counters of a seat count these. */
  lemma ScoredCounts(events: seq<Event>, seat: nat)
    requires Score(events).Some? && seat < |Score(events).value.players|
    ensures var tally := Score(events).value.players[seat].tally;
            && tally.wins == |WinsOf(events, seat)| && tally.riichiIppatsu == |WinsAtOnceOf(events, seat)|
            && tally.riichiUraHits == |WinsWithHitOf(events, seat)|
  {
    hide Running, GameScore, Hands, WinsOf, WinsAtOnceOf, WinsWithHitOf;
    var seats := |Score(events).value.players|;
    PassIsSumOfHands(events, seats, seat);
    RunningCounts(events, seats, seat);
  }

  /** The event is a win of the seat, not a yakuman, worth `han`, which is stored in sixteen bits. */
  predicate WinsWith(event: Event, seat: nat, han: int)
  {
    event.Hora? && event.actor == Some(seat) && !event.win.yakuman && event.win.fan.Some?
    && han == if event.win.fan.value > 65_535 then 65_535 else event.win.fan.value
  }

  lemma {:induction false} MostHanIsMost(events: seq<Event>, seats: nat, seat: nat)
    requires seat < seats
    ensures forall k, han: int :: 0 <= k < |events| && WinsWith(events[k], seat, han) ==>
              han <= MostHan(events, seats, seat)
    ensures MostHan(events, seats, seat) == 0 ||
            exists k :: 0 <= k < |events| && WinsWith(events[k], seat, MostHan(events, seats, seat))
  {
    if events != [] {
      var n := |events| - 1;
      MostHanIsMost(events[..n], seats, seat);
      assert forall k :: 0 <= k < n ==> events[..n][k] == events[k];
      assert forall han :: WinsWith(events[n], seat, han) ==> han == HanOf(events[n], seats, seat);
      assert HanOf(events[n], seats, seat) == 0 || WinsWith(events[n], seat, HanOf(events[n], seats, seat));
    }
  }

  /** Of every game the scorer returns, a seat's most han is the greatest it won with. */
  lemma ScoredMostHan(events: seq<Event>, seat: nat)
    requires Score(events).Some? && seat < |Score(events).value.players|
    ensures var most := Score(events).value.players[seat].maxHan;
            && (forall k, han: int :: 0 <= k < |events| && WinsWith(events[k], seat, han) ==> han <= most)
            && (most == 0 || exists k :: 0 <= k < |events| && WinsWith(events[k], seat, most))
  {
    hide GameScore, Hands, Settled, LongestRun, MostHan, PlacementOf, LastScores;
    MostHanIsMost(events, |Score(events).value.players|, seat);
  }

  /** A returned game is detailed exactly when a win has a list of yaku, a draw says who was tenpai, or the end of the
      game has a result. */
  lemma DetailedIff(events: seq<Event>)
    requires Score(events).Some?
    ensures Score(events).value.detailed <==>
              exists k ::
                && 0 <= k < |events|
                && (|| (events[k].Hora? && events[k].win.yakuIds.Some?)
                    || (events[k].Ryukyoku? && events[k].tenpais.Some?)
                    || (events[k].EndGame? && events[k].result.Some?))
  {
  }

  /** An event takes the scores it reports into account: a deal, a win that names a seat, a draw, or an end of the game
      that has a score for every seat. */
  predicate Takes(event: Event, seats: nat, scores: seq<int>)
  {
    || (event.StartKyoku? && event.startScores == Some(scores))
    || (event.Hora? && event.actor.Some? && event.actor.value < seats && event.scores == Some(scores))
    || (event.Ryukyoku? && event.scores == Some(scores))
    || (event.EndGame? && event.finalScores == Some(scores) && |scores| == seats)
  }

  ghost predicate TakesNone(event: Event, seats: nat)
  {
    forall scores :: !Takes(event, seats, scores)
  }

  /** The final score of a seat is its entry in the last scores taken, or nothing when there are none or it has no
      entry; and a seat is busted when it is below nothing. */
  lemma ScoredFinals(events: seq<Event>, seat: nat)
    requires Score(events).Some? && seat < |Score(events).value.players|
    ensures var stats := Score(events).value;
            var seats, player := |stats.players|, stats.players[seat];
            && player.busted == (player.finalScore < 0)
            && ((forall k :: 0 <= k < |events| ==> TakesNone(events[k], seats)) ==> player.finalScore == 0)
            && forall k, scores :: (&& 0 <= k < |events| && Takes(events[k], seats, scores)
                                    && forall j :: k < j < |events| ==> TakesNone(events[j], seats)) ==>
                 player.finalScore == if seat < |scores| then scores[seat] else 0
  {
    hide GameScore, Hands, Settled, LongestRun, MostHan, PlacementOf;
    var seats := |Score(events).value.players|;
    var last := LastScores(events, seats);
    forall k | 0 <= k < |events|
      ensures ReportedScores(events[k], seats).None? <==> TakesNone(events[k], seats)
      ensures forall scores :: Takes(events[k], seats, scores) <==> ReportedScores(events[k], seats) == Some(scores)
    {
      if ReportedScores(events[k], seats).Some? {
        assert Takes(events[k], seats, ReportedScores(events[k], seats).value);
      }
    }
  }
}
