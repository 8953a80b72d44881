/** The sweep of an outside catalogue of games, page by page along a cursor in time. `src/paipuya.rs`. */
module Sweep {
  import opened Prelude

  /** A game as the site lists it: when it started, in whole seconds. */
  datatype Listed = Listed(uuid: string, players: nat, start: int) {
    /** Times are compared in milliseconds. */
    function At(): int { 1000 * start }

    /** Without a uuid nothing could fetch it, without players nothing could recognise it. */
    predicate Wanted() { uuid != "" && players > 0 }
  }

  // --------------------------------------------------------------------------------------------------------- the site

  predicate Ascending(games: seq<Listed>)
  {
    forall i, j :: 0 <= i < j < |games| ==> games[i].start <= games[j].start
  }

  /** The games of a catalogue between two times. */
  function Between(catalogue: seq<Listed>, from: int, to: int): seq<Listed>
  {
    if catalogue == [] then []
    else
      var last := catalogue[|catalogue| - 1];
      Between(catalogue[..|catalogue| - 1], from, to) + if from <= last.At() <= to then [last] else []
  }

  /** A page: the first `size` of them. */
  function Page(catalogue: seq<Listed>, from: int, to: int, size: nat): seq<Listed>
  {
    var shown := Between(catalogue, from, to);
    if |shown| <= size then shown else shown[..size]
  }

  lemma {:induction false} BetweenFacts(catalogue: seq<Listed>, from: int, to: int)
    requires Ascending(catalogue)
    ensures var shown := Between(catalogue, from, to);
            && Ascending(shown)
            && (forall game :: game in shown <==> game in catalogue && from <= game.At() <= to)
  {
    if catalogue != [] {
      var n := |catalogue| - 1;
      BetweenFacts(catalogue[..n], from, to);
      assert catalogue == catalogue[..n] + [catalogue[n]];
      var shown := Between(catalogue[..n], from, to);
      forall i | 0 <= i < |shown|
        ensures shown[i].start <= catalogue[n].start
      {
        assert shown[i] in catalogue[..n];
      }
    }
  }

  /** The game is among those of its own second that one page can show. */
  predicate Showable(catalogue: seq<Listed>, size: nat, game: Listed)
  {
    game in Page(catalogue, game.At(), game.At(), size)
  }

  // ----------------------------------------------------------------------------------------------- what one page shows

  function Newest(from: int, page: seq<Listed>): (newest: int)
    ensures newest >= from
    ensures forall i :: 0 <= i < |page| ==> page[i].At() <= newest
    ensures newest == from || exists i :: 0 <= i < |page| && page[i].At() == newest
  {
    if page == [] then from
    else
      assert forall i :: 0 <= i < |page| - 1 ==> page[..|page| - 1][i] == page[i];
      Max(Newest(from, page[..|page| - 1]), page[|page| - 1].At())
  }

  /** A page holds every game before its newest second, and every game there is when it is not full. */
  lemma PageHolds(catalogue: seq<Listed>, from: int, to: int, size: nat)
    requires Ascending(catalogue) && size > 0
    ensures var page := Page(catalogue, from, to, size);
            && (forall game :: game in page ==> game in catalogue && from <= game.At() <= to)
            && (forall game :: game in catalogue && from <= game.At() <= to
                               && (|page| < size || game.At() < Newest(from, page))
                  ==> game in page)
  {
    BetweenFacts(catalogue, from, to);
    var shown, page := Between(catalogue, from, to), Page(catalogue, from, to, size);
    assert forall i :: 0 <= i < |page| ==> page[i] == shown[i];
    forall game | game in shown && game !in page
      ensures |page| == size && game.At() >= Newest(from, page)
    {
      var k :| 0 <= k < |shown| && shown[k] == game;
      if Newest(from, page) > from {
        var i :| 0 <= i < |page| && page[i].At() == Newest(from, page);
      } else {
        assert from <= game.At();
      }
    }
  }

  /** Looking at one second of what is shown is looking at it in the catalogue. */
  lemma {:induction false} BetweenNested(catalogue: seq<Listed>, from: int, to: int, at: int)
    requires from <= at <= to
    ensures Between(Between(catalogue, from, to), at, at) == Between(catalogue, at, at)
  {
    if catalogue != [] {
      var n := |catalogue| - 1;
      BetweenNested(catalogue[..n], from, to, at);
      var before := Between(catalogue[..n], from, to);
      if from <= catalogue[n].At() <= to {
        assert (before + [catalogue[n]])[..|before|] == before;
      } else {
        assert before + [] == before;
      }
    }
  }

  lemma {:induction false} BetweenConcat(a: seq<Listed>, b: seq<Listed>, at: int)
    ensures Between(a + b, at, at) == Between(a, at, at) + Between(b, at, at)
  {
    if b == [] {
      assert a + b == a;
    } else {
      assert (a + b)[..|a + b| - 1] == a + b[..|b| - 1];
      BetweenConcat(a, b[..|b| - 1], at);
    }
  }

  lemma {:induction false} BetweenAll(games: seq<Listed>, at: int)
    requires forall i :: 0 <= i < |games| ==> games[i].At() == at
    ensures Between(games, at, at) == games
  {
    if games != [] {
      BetweenAll(games[..|games| - 1], at);
    }
  }

  /** A page of games that all started in one second is what a page can show of that second. */
  lemma OneSecondIsItsPage(catalogue: seq<Listed>, from: int, to: int, size: nat)
    requires from <= to && |Between(catalogue, from, to)| >= size
    requires forall i :: 0 <= i < size ==> Between(catalogue, from, to)[..size][i].At() == from
    ensures Page(catalogue, from, from, size) == Between(catalogue, from, to)[..size]
  {
    hide Between;
    var shown := Between(catalogue, from, to);
    assert shown == shown[..size] + shown[size..];
    BetweenNested(catalogue, from, to, from);
    BetweenConcat(shown[..size], shown[size..], from);
    BetweenAll(shown[..size], from);
  }

  /** A full page that has not moved on is what a page can show of one second, and that second is all there is up to the
      next. */
  lemma FullPageInOneSecond(catalogue: seq<Listed>, from: int, to: int, size: nat)
    requires Ascending(catalogue) && size > 0 && from <= to
    requires |Page(catalogue, from, to, size)| >= size && Newest(from, Page(catalogue, from, to, size)) == from
    ensures Page(catalogue, from, from, size) == Page(catalogue, from, to, size)
    ensures forall game :: game in catalogue && from <= game.At() < from + 1000 ==> game.At() == from
  {
    hide Between, Newest, Ascending;
    PageHolds(catalogue, from, to, size);
    var page := Page(catalogue, from, to, size);
    forall i | 0 <= i < |page|
      ensures page[i].At() == from
    {
      assert page[i] in page;
    }
    assert |page| == size && page == Between(catalogue, from, to)[..size];
    OneSecondIsItsPage(catalogue, from, to, size);
    assert page[0].At() == from;
  }

  lemma {:induction false} BetweenIsPart(games: seq<Listed>, at: int)
    ensures |Between(games, at, at)| <= |games|
    ensures forall game :: game in games && game.At() == at ==> game in Between(games, at, at)
  {
    if games != [] {
      var n := |games| - 1;
      BetweenIsPart(games[..n], at);
      assert games == games[..n] + [games[n]];
    }
  }

  /** No page ever shows a game that a page of its own second could not. */
  lemma ShownIsShowable(catalogue: seq<Listed>, from: int, to: int, size: nat, game: Listed)
    requires from <= game.At() <= to && game in Page(catalogue, from, to, size)
    ensures Showable(catalogue, size, game)
  {
    var shown, page, at := Between(catalogue, from, to), Page(catalogue, from, to, size), game.At();
    assert shown == page + shown[|page|..];
    hide Between;
    BetweenNested(catalogue, from, to, at);
    BetweenConcat(page, shown[|page|..], at);
    BetweenIsPart(page, at);
    var own, first := Between(catalogue, at, at), Between(page, at, at);
    assert own[..|first|] == first;
    var k :| 0 <= k < |first| && first[k] == game;
    assert own[k] == game;
    assert |own| > size ==> own[..size][k] == game;
  }

  // -------------------------------------------------------------------------------------------------------- the sweep

  /** Every game worth keeping that started from `lo` on and before `hi` is kept, but those that no page can show. */
  ghost predicate Covered(catalogue: seq<Listed>, size: nat, kept: set<Listed>, lo: int, hi: int)
  {
    forall game :: game in catalogue && game.uuid != "" && game.players > 0 && lo <= game.At() < hi ==>
      game in kept || !Showable(catalogue, size, game)
  }

  /** The games of a page worth keeping. */
  function Keepable(page: seq<Listed>): set<Listed>
  {
    set game | game in page && game.Wanted()
  }

  /** Sorts a page: the games worth keeping, and how far it reaches. */
  method ReadPage(from: int, page: seq<Listed>) returns (games: seq<Listed>, newest: int)
    ensures newest == Newest(from, page)
    ensures (set game | game in games) == Keepable(page)
  {
    games, newest := [], from;
    for i := 0 to |page|
      invariant newest == Newest(from, page[..i])
      invariant forall game :: game in games <==> game in page[..i] && game.Wanted()
    {
      assert page[..i + 1][..i] == page[..i] && page[..i + 1] == page[..i] + [page[i]];
      newest := Max(newest, page[i].At());
      if page[i].Wanted() {
        games := games + [page[i]];
      }
    }
    assert page[..|page|] == page;
  }

  /** Where a mode's sweep goes on from: its own cursor, but never behind the window. */
  function SweepFrom(cursor: Option<int>, startFrom: int): int
  {
    if cursor.Some? then Max(cursor.value, startFrom) else startFrom
  }

  /** Keeping a page's games covers everything up to where the next page starts, and everything that was asked for when
      the page is not full. */
  lemma PageCovers(catalogue: seq<Listed>, size: nat, kept: set<Listed>, lo: int, from: int, to: int)
    requires Ascending(catalogue) && size > 0 && lo <= from <= to && Covered(catalogue, size, kept, lo, from)
    ensures var page := Page(catalogue, from, to, size);
            var after := kept + Keepable(page);
            var newest := Newest(from, page);
            && newest <= to
            && Covered(catalogue, size, after, lo, newest)
            && (newest == from && |page| >= size ==> Covered(catalogue, size, after, lo, from + 1000))
            && (|page| < size ==> Covered(catalogue, size, after, lo, to + 1))
  {
    PageHolds(catalogue, from, to, size);
    var page := Page(catalogue, from, to, size);
    if Newest(from, page) == from && |page| >= size {
      FullPageInOneSecond(catalogue, from, to, size);
    }
    if Newest(from, page) != from {
      var i :| 0 <= i < |page| && page[i].At() == Newest(from, page);
      assert page[i] in page;
    }
  }

  /** What a sweep of a bounded window that nothing goes wrong in keeps, how far it reaches, and whether it ended on a
      page that was not full, rather than too close to the end to ask again. */
  datatype Swept = Swept(games: set<Listed>, reached: int, short: bool)

  function SweepTo(catalogue: seq<Listed>, size: nat, from: int, to: int): Swept
    requires Ascending(catalogue) && size > 0
    decreases Remaining(catalogue, from)
  {
    if to - from < 10000 then Swept({}, from, false)
    else
      var page := Page(catalogue, from, to, size);
      if |page| < size then Swept(Keepable(page), to + 1, true)
      else
        var next := Next(from, page);
        RemainingShrinks(catalogue, from, to, size, next);
        var rest := SweepTo(catalogue, size, next, to);
        rest.(games := Keepable(page) + rest.games)
  }

  /** Where the page after a full one starts: in the second of its newest game, or past a second that fills it. */
  function Next(from: int, page: seq<Listed>): (next: int)
    ensures next > from
  {
    if Newest(from, page) > from then Newest(from, page) else from + 1000
  }

  /** A bounded sweep that ends on a page that was not full has covered its window to the end; any other has covered it
      up to its cursor, which is within ten seconds of the end. Before that point it keeps exactly what a page can show;
      and it keeps nothing beyond its cursor unless it covered everything. */
  lemma {:induction false} SweptExactly(catalogue: seq<Listed>, size: nat, from: int, to: int)
    requires Ascending(catalogue) && size > 0
    ensures var swept := SweepTo(catalogue, size, from, to);
            && (if swept.short then swept.reached == to + 1 else from <= swept.reached && to - swept.reached < 10000)
            && Covered(catalogue, size, swept.games, from, swept.reached)
            && (forall game :: game in swept.games ==>
                  && game in catalogue && game.uuid != "" && game.players > 0
                  && from <= game.At() <= to && game.At() <= swept.reached
                  && Showable(catalogue, size, game))
    decreases Remaining(catalogue, from)
  {
    if to - from >= 10000 {
      var page := Page(catalogue, from, to, size);
      PageCovers(catalogue, size, {}, from, from, to);
      PageHolds(catalogue, from, to, size);
      forall game | game in page
        ensures from <= game.At() <= to && game.At() <= Newest(from, page) && Showable(catalogue, size, game)
      {
        ShownIsShowable(catalogue, from, to, size, game);
        var i :| 0 <= i < |page| && page[i] == game;
      }
      hide Showable, Page;
      assert {} + Keepable(page) == Keepable(page);
      if |page| >= size {
        var next := Next(from, page);
        RemainingShrinks(catalogue, from, to, size, next);
        SweptExactly(catalogue, size, next, to);
      }
    }
  }

  /** So which games of a bounded window are kept, of those a page can show: all of them when the sweep ended on a page
      that was not full; else those before its cursor, those of its cursor's own second that were on a page, and none
      after it. */
  lemma LastSecondsAreLost(catalogue: seq<Listed>, size: nat, from: int, to: int, game: Listed)
    requires Ascending(catalogue) && size > 0
    requires game in catalogue && game.uuid != "" && game.players > 0
    requires Showable(catalogue, size, game) && from <= game.At() <= to
    ensures var swept := SweepTo(catalogue, size, from, to);
            && (swept.short ==> game in swept.games)
            && (game.At() != swept.reached ==> (game in swept.games <==> game.At() < swept.reached))
  {
    SweptExactly(catalogue, size, from, to);
  }

  /** What the calls of a sweep come back as: the clock, the site, and the two writes, page by page. */
  datatype World = World(now: nat -> int, fetched: nat -> bool, inserts: nat -> Outcome, writes: nat -> Outcome)

  lemma NothingToCover(catalogue: seq<Listed>, size: nat, kept: set<Listed>, at: int)
    ensures Covered(catalogue, size, kept, at, at)
  {
  }

  lemma KeepingMore(catalogue: seq<Listed>, size: nat, kept: set<Listed>, more: set<Listed>, lo: int, hi: int)
    requires Covered(catalogue, size, kept, lo, hi) && kept <= more
    ensures Covered(catalogue, size, more, lo, hi)
  {
  }

  /** One page: read, kept, and where the next one starts, if there is more to ask for. */
  method TakePage(catalogue: seq<Listed>, size: nat, kept: set<Listed>, from: int, to: int, insert: Outcome,
                  ghost lo: int)
    returns (more: set<Listed>, full: bool, next: Option<int>, ok: bool)
    requires Ascending(catalogue) && size > 0 && lo <= from <= to && Covered(catalogue, size, kept, lo, from)
    ensures kept <= more && Covered(catalogue, size, more, lo, from) && (ok <==> insert.Answered())
    ensures ok && next.Some? ==>
              && next.value > from && Covered(catalogue, size, more, lo, next.value)
              && Remaining(catalogue, next.value) < Remaining(catalogue, from)
    ensures ok && (next.None? || !full) ==> Covered(catalogue, size, more, lo, to + 1)
    ensures full <==> |Page(catalogue, from, to, size)| >= size
    ensures full ==> next == Some(Next(from, Page(catalogue, from, to, size)))
    ensures insert.Landed() ==> more == kept + Keepable(Page(catalogue, from, to, size))
  {
    var page := Page(catalogue, from, to, size);
    full := |page| >= size;
    var games, newest := ReadPage(from, page);
    PageCovers(catalogue, size, kept, lo, from, to);
    KeepingMore(catalogue, size, kept, kept + Keepable(page), lo, from);
    hide Covered, Page, Remaining, Showable, Ascending, Between, Keepable;
    more := if insert.Landed() then kept + set game | game in games else kept;
    ok, next := insert.Answered(), None;
    if newest > from {
      next := Some(newest);
    } else if full {
      next := Some(from + 1000);
    }
    if next.Some? {
      RemainingShrinks(catalogue, from, to, size, next.value);
    }
  }

  class Mode {
    const catalogue: seq<Listed>
    const pageSize: nat
    var cursor: Option<int>
    var kept: set<Listed>
    /** Where the stretch the cursor stands at the end of began. */
    ghost var base: int

    ghost predicate Valid()
      reads this
    {
      && Ascending(catalogue) && pageSize > 0
      && (cursor.Some? ==> base <= cursor.value && Covered(catalogue, pageSize, kept, base, cursor.value))
    }

    constructor (catalogue: seq<Listed>, pageSize: nat)
      requires Ascending(catalogue) && pageSize > 0
      ensures Valid() && cursor == None && kept == {} && this.catalogue == catalogue && this.pageSize == pageSize
    {
      this.catalogue, this.pageSize, cursor, kept, base := catalogue, pageSize, None, {}, 0;
    }

    /** Where the stretch a sweep adds to begins. */
    ghost function Begun(startFrom: int): int
      reads this
    {
      if cursor.Some? && cursor.value >= startFrom then base else startFrom
    }

    /** Walks the mode forward. Whichever call fails, the cursor only moves on, and everything listed between the start
        of the stretch and the cursor is kept, crowded seconds excepted. A sweep that comes to an end has covered all
        that was asked for; a bounded one everything but its last ten seconds. */
    method SyncMode(startFrom: int, until: Option<int>, world: World) returns (ok: bool, ghost reached: int)
      requires Valid()
      modifies this`cursor, this`kept, this`base
      ensures Valid() && old(kept) <= kept
      ensures old(cursor.Some?) ==> cursor.Some? && cursor.value >= old(cursor.value)
      ensures cursor != old(cursor) ==> base == old(Begun(startFrom)) && cursor.value > startFrom
      ensures cursor == old(cursor) ==> base == old(base)
      ensures ok ==> Covered(catalogue, pageSize, kept, old(Begun(startFrom)), reached)
      ensures ok && until.Some? ==>
                var swept := SweepTo(catalogue, pageSize, SweepFrom(old(cursor), startFrom), until.value);
                && kept == old(kept) + swept.games && reached == swept.reached
                && (if swept.short then reached == until.value + 1 else until.value - reached < 10000)
      ensures (forall n :: world.fetched(n) && world.inserts(n).Answered() && world.writes(n).Answered()) ==> ok
    {
      var from := SweepFrom(cursor, startFrom);
      hide Covered, Page, Newest, Remaining, Showable, Ascending, Between, Keepable, SweepTo;
      assert Covered(catalogue, pageSize, kept, Begun(startFrom), from) by {
        NothingToCover(catalogue, pageSize, kept, startFrom);
      }
      ghost var begun := Begun(startFrom);
      var n := 0;
      while true
        invariant Valid() && old(kept) <= kept && begun <= from
        invariant Covered(catalogue, pageSize, kept, begun, from)
        invariant until.Some? ==> SweepGoesOn(old(kept), kept, SweepFrom(old(cursor), startFrom), from, until.value)
        invariant cursor == old(cursor) ==> base == old(base) && from == SweepFrom(cursor, startFrom)
        invariant cursor != old(cursor) ==>
                    base == begun && cursor == Some(from) && from > SweepFrom(old(cursor), startFrom)
        decreases Remaining(catalogue, from)
      {
        var to := if until.Some? then until.value else world.now(n);
        if to - from < 10000 {
          if until.Some? {
            SweepEnds(old(kept), kept, SweepFrom(old(cursor), startFrom), from, to);
          }
          return true, from;
        }
        if !world.fetched(n) {
          return false, from;
        }
        var more, full, next, inserted := TakePage(catalogue, pageSize, kept, from, to, world.inserts(n), begun);
        if cursor.Some? {
          KeepingMore(catalogue, pageSize, kept, more, base, cursor.value);
        }
        ghost var before := kept;
        kept := more;
        if !inserted {
          return false, from;
        }
        if until.Some? {
          SweepStep(old(kept), before, SweepFrom(old(cursor), startFrom), from, to);
        }
        if next.None? {
          return true, to + 1;
        }
        from := next.value;
        if world.writes(n).Landed() {
          cursor, base := Some(from), begun;
        }
        if !world.writes(n).Answered() {
          return false, from;
        }
        if !full {
          return true, to + 1;
        }
        n := n + 1;
      }
    }

    /** What has been kept since the sweep started, and what a sweep from here would keep, are what a sweep from the
        start keeps. */
    ghost predicate SweepGoesOn(start: set<Listed>, now: set<Listed>, from: int, cursor: int, to: int)
      requires Ascending(catalogue) && pageSize > 0
    {
      var whole, rest := SweepTo(catalogue, pageSize, from, to), SweepTo(catalogue, pageSize, cursor, to);
      start + whole.games == now + rest.games && whole.reached == rest.reached && whole.short == rest.short
    }

    lemma SweepEnds(start: set<Listed>, now: set<Listed>, from: int, cursor: int, to: int)
      requires Ascending(catalogue) && pageSize > 0 && to - cursor < 10000
      requires SweepGoesOn(start, now, from, cursor, to)
      ensures var swept := SweepTo(catalogue, pageSize, from, to);
              now == start + swept.games && swept.reached == cursor && !swept.short
    {
    }

    lemma SweepStep(start: set<Listed>, now: set<Listed>, from: int, cursor: int, to: int)
      requires Ascending(catalogue) && pageSize > 0 && to - cursor >= 10000
      requires SweepGoesOn(start, now, from, cursor, to)
      ensures var page, swept := Page(catalogue, cursor, to, pageSize), SweepTo(catalogue, pageSize, from, to);
              if |page| < pageSize then
                now + Keepable(page) == start + swept.games && swept.reached == to + 1 && swept.short
              else
                SweepGoesOn(start, now + Keepable(page), from, Next(cursor, page), to)
    {
      hide Page, Newest, Keepable;
      var page := Page(catalogue, cursor, to, pageSize);
      if |page| >= pageSize {
        RemainingShrinks(catalogue, cursor, to, pageSize, Next(cursor, page));
      }
    }
  }

  /** How much of a catalogue is left from a time on. */
  function Remaining(catalogue: seq<Listed>, from: int): nat
  {
    if catalogue == [] || catalogue[|catalogue| - 1].At() < from then 0
    else catalogue[|catalogue| - 1].At() + 1 - from
  }

  lemma RemainingShrinks(catalogue: seq<Listed>, from: int, to: int, size: nat, next: int)
    requires Ascending(catalogue) && size > 0 && next > from
    requires Page(catalogue, from, to, size) != []
    ensures Remaining(catalogue, next) < Remaining(catalogue, from)
  {
    PageHolds(catalogue, from, to, size);
    var game := Page(catalogue, from, to, size)[0];
    assert game in catalogue;
  }

  /** A window of fifteen seconds, pages of one game, and games at the tenth and the twelfth second: the sweep ends with
      its cursor at the tenth. */
  lemma TwoGames(first: Listed, second: Listed)
    requires first.start == 10 && second.start == 12 && first.Wanted()
    ensures var catalogue := [first, second];
            && SweepTo(catalogue, 1, 0, 15_000) == Swept({first}, 10_000, false)
            && Showable(catalogue, 1, second)
  {
    hide Between, Newest, Keepable, SweepTo, Remaining;
    var catalogue := [first, second];
    BetweenTwo(first, second, 0, 15_000);
    BetweenTwo(first, second, 12_000, 12_000);
    NewestOfOne(first);
    AfterFull(catalogue, first);
    EndsNarrow(catalogue, 10_000, 15_000);
    KeepableOfOne(first);
  }

  lemma BetweenTwo(first: Listed, second: Listed, from: int, to: int)
    ensures Between([first, second], from, to)
         == (if from <= first.At() <= to then [first] else []) + (if from <= second.At() <= to then [second] else [])
  {
    assert [first, second][..1] == [first] && [first][..0] == [];
    assert Between([first], from, to) == [] + if from <= first.At() <= to then [first] else [];
  }

  lemma NewestOfOne(game: Listed)
    requires game.At() > 0
    ensures Newest(0, [game]) == game.At()
  {
    assert [game][..0] == [];
  }

  lemma KeepableOfOne(game: Listed)
    requires game.Wanted()
    ensures Keepable([game]) == {game}
  {
  }

  lemma AfterFull(catalogue: seq<Listed>, game: Listed)
    requires Ascending(catalogue) && Page(catalogue, 0, 15_000, 1) == [game] && Newest(0, [game]) == 10_000
    ensures SweepTo(catalogue, 1, 0, 15_000)
         == SweepTo(catalogue, 1, 10_000, 15_000).(
              games := Keepable([game]) + SweepTo(catalogue, 1, 10_000, 15_000).games)
  {
    hide Page, Newest, Keepable, Remaining;
  }

  lemma EndsNarrow(catalogue: seq<Listed>, from: int, to: int)
    requires Ascending(catalogue) && to - from < 10_000
    ensures SweepTo(catalogue, 1, from, to) == Swept({}, from, false)
  {
  }

  /** Such a sweep ends well, and the second game is neither kept nor ever asked for. */
  method LastSecondsUnasked(first: Listed, second: Listed) returns (mode: Mode, ok: bool)
    requires first.start == 10 && second.start == 12 && first.Wanted() && second.Wanted()
    ensures fresh(mode) && ok && mode.catalogue == [first, second] && mode.kept == {first} && second !in mode.kept
    ensures Showable(mode.catalogue, mode.pageSize, second)
  {
    hide Showable, SweepTo;
    mode := new Mode([first, second], 1);
    TwoGames(first, second);
    ghost var reached;
    ok, reached := mode.SyncMode(0, Some(15_000), World(_ => 0, _ => true, _ => Done, _ => Done));
  }
}
