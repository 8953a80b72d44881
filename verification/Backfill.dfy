/** The one-shot pass that rewrites the metadata of every row already in the index, beside live ingest.
    `src/backfill.rs`. */
module Backfill {
  import opened Prelude
  import opened KeysetWalk

  datatype Metadata = Metadata(rule: Option<string>, playedAt: Option<int>)

  datatype Progress = Progress(scanned: nat, rewritten: nat, unreadable: nat, unparsable: nat) {
    predicate IsComplete() { unreadable == 0 }
  }

  /** What the bytes at a location derive to; the bytes a row points at never change. */
  type Derive = nat -> Option<Metadata>

  /** The row to write back, or none when the stored one already says what its bytes say. */
  function Rewritten(row: Content, metadata: Metadata): (after: Option<Content>)
    ensures after.Some? ==>
              && after.value.location == row.location && after.value != row
              && (row.rule.Some? ==> after.value.rule.Some?) && (row.playedAt.Some? ==> after.value.playedAt.Some?)
    ensures var shown := if after.Some? then after.value else row;
            && (if metadata.rule.Some? then shown.rule == metadata.rule else shown.rule == row.rule)
            && (if metadata.playedAt.Some? then shown.playedAt == metadata.playedAt else shown.playedAt == row.playedAt)
  {
    var rule := if metadata.rule.Some? then metadata.rule else row.rule;
    var playedAt := if metadata.playedAt.Some? then metadata.playedAt else row.playedAt;
    if rule == row.rule && playedAt == row.playedAt then None
    else Some(row.(rule := rule, playedAt := playedAt))
  }

  /** The row has the rule and the time of play its bytes derive to, each where they derive to one. Bytes that do not
      parse derive to nothing. */
  predicate Settled(row: Content, derive: Derive)
  {
    var metadata := derive(row.location);
    metadata.Some? ==>
      && (metadata.value.rule.Some? ==> row.rule == metadata.value.rule)
      && (metadata.value.playedAt.Some? ==> row.playedAt == metadata.value.playedAt)
  }

  /** Each column of a row is what it was, or what the bytes of the row derive to; the location is what it was. */
  predicate Refreshed(after: Content, before: Content, derive: Derive)
  {
    var metadata := derive(before.location);
    && after.location == before.location
    && (after.rule == before.rule || (metadata.Some? && metadata.value.rule.Some? && after.rule == metadata.value.rule))
    && (|| after.playedAt == before.playedAt
        || (metadata.Some? && metadata.value.playedAt.Some? && after.playedAt == metadata.value.playedAt))
  }

  /** So a settled row that was refreshed has what was derived where something was, and its own where nothing was. */
  lemma SettledInColumns(after: Content, before: Content, derive: Derive)
    requires Refreshed(after, before, derive) && Settled(after, derive)
    ensures var metadata := derive(before.location);
            && after.location == before.location
            && (metadata.None? ==> after == before)
            && (metadata.Some? ==>
                  && after.rule == (if metadata.value.rule.Some? then metadata.value.rule else before.rule)
                  && after.playedAt
                     == if metadata.value.playedAt.Some? then metadata.value.playedAt else before.playedAt)
  {
  }

  ghost predicate AllSettled(table: Table, derive: Derive)
  {
    forall key :: key in table ==> Settled(table[key], derive)
  }

  /** The same rows at the same locations; only rule and time of play may differ. */
  ghost predicate SameButMetadata(a: Table, b: Table)
  {
    a.Keys == b.Keys && forall key :: key in a ==> a[key].location == b[key].location
  }

  /** The same rows, each refreshed at most. */
  ghost predicate Refreshes(a: Table, b: Table, derive: Derive)
  {
    a.Keys == b.Keys && forall key :: key in a ==> Refreshed(a[key], b[key], derive)
  }

  // ---------------------------------------------------------------------------------------------------------- one page

  /** What a row is written back as, if it is. */
  function RewriteOf(row: Row, readable: Key -> bool, derive: Derive): Option<Content>
  {
    if readable(row.key) && derive(row.content.location).Some?
    then Rewritten(row.content, derive(row.content.location).value)
    else None
  }

  /** Nothing is left to do to a row that was written back, or to one that was read and was not. */
  lemma RewriteSettles(row: Row, readable: Key -> bool, derive: Derive)
    ensures RewriteOf(row, readable, derive).Some? ==>
              && Settled(RewriteOf(row, readable, derive).value, derive) && !Settled(row.content, derive)
              && RewriteOf(row, readable, derive).value.location == row.content.location
              && Refreshed(RewriteOf(row, readable, derive).value, row.content, derive)
    ensures RewriteOf(row, readable, derive).None? && readable(row.key) ==> Settled(row.content, derive)
  {
  }

  function Batch(page: seq<Row>, readable: Key -> bool, derive: Derive): seq<Row>
  {
    if page == [] then []
    else
      var last := page[|page| - 1];
      var after := RewriteOf(last, readable, derive);
      Batch(page[..|page| - 1], readable, derive) + if after.Some? then [Row(last.key, after.value)] else []
  }

  function HowMany(rows: seq<Row>, kind: Row -> bool): nat
  {
    if rows == [] then 0
    else HowMany(rows[..|rows| - 1], kind) + if kind(rows[|rows| - 1]) then 1 else 0
  }

  lemma {:induction false} HowManyTogether(a: seq<Row>, b: seq<Row>, kind: Row -> bool)
    ensures HowMany(a + b, kind) == HowMany(a, kind) + HowMany(b, kind)
  {
    if b == [] {
      assert a + b == a;
    } else {
      var n := |b| - 1;
      HowManyTogether(a, b[..n], kind);
      assert (a + b)[..|a| + n] == a + b[..n];
    }
  }

  function Unread(readable: Key -> bool): Row -> bool
  {
    (row: Row) => !readable(row.key)
  }

  function Unparsed(readable: Key -> bool, derive: Derive): Row -> bool
  {
    (row: Row) => readable(row.key) && derive(row.content.location).None?
  }

  /** The row was read, and does not say what its bytes say. */
  function Stale(readable: Key -> bool, derive: Derive): Row -> bool
  {
    (row: Row) => readable(row.key) && !Settled(row.content, derive)
  }

  /** Reads the rows of a page and gathers the ones to write back. */
  method RewritePage(page: seq<Row>, readable: Key -> bool, derive: Derive)
    returns (batch: seq<Row>, unreadable: nat, unparsable: nat)
    ensures batch == Batch(page, readable, derive)
    ensures unreadable == 0 <==> forall i :: 0 <= i < |page| ==> readable(page[i].key)
    ensures unreadable == HowMany(page, Unread(readable)) && unparsable == HowMany(page, Unparsed(readable, derive))
    ensures |batch| == HowMany(page, Stale(readable, derive))
  {
    batch, unreadable, unparsable := [], 0, 0;
    for i := 0 to |page|
      invariant batch == Batch(page[..i], readable, derive)
      invariant unreadable == 0 <==> forall j :: 0 <= j < i ==> readable(page[j].key)
      invariant unreadable == HowMany(page[..i], Unread(readable))
      invariant unparsable == HowMany(page[..i], Unparsed(readable, derive))
      invariant |batch| == HowMany(page[..i], Stale(readable, derive))
    {
      hide Rewritten, Settled;
      var row := page[i];
      assert page[..i + 1][..i] == page[..i];
      RewriteSettles(row, readable, derive);
      if !readable(row.key) {
        unreadable := unreadable + 1;
        continue;
      }
      var metadata := derive(row.content.location);
      if metadata.None? {
        unparsable := unparsable + 1;
        continue;
      }
      var rewritten := Rewritten(row.content, metadata.value);
      if rewritten.Some? {
        batch := batch + [Row(row.key, rewritten.value)];
      }
    }
    assert page[..|page|] == page;
  }

  /** The index after a batch is inserted. */
  function Inserted(table: Table, batch: seq<Row>): Table
  {
    if batch == [] then table
    else
      var last := batch[|batch| - 1];
      Inserted(table, batch[..|batch| - 1])[last.key := last.content]
  }

  lemma OneMoreRow(table: Table, page: seq<Row>, readable: Key -> bool, derive: Derive)
    requires page != []
    ensures var row, before := page[|page| - 1], Inserted(table, Batch(page[..|page| - 1], readable, derive));
            var after := RewriteOf(row, readable, derive);
            Inserted(table, Batch(page, readable, derive))
            == if after.Some? then before[row.key := after.value] else before
  {
    hide RewriteOf;
    var row, batch := page[|page| - 1], Batch(page[..|page| - 1], readable, derive);
    var after := RewriteOf(row, readable, derive);
    if after.Some? {
      assert (batch + [Row(row.key, after.value)])[..|batch|] == batch;
    } else {
      assert batch + [] == batch;
    }
  }

  ghost predicate LeftAlone(page: seq<Row>, key: Key, readable: Key -> bool, derive: Derive)
  {
    forall i :: 0 <= i < |page| && page[i].key == key ==> RewriteOf(page[i], readable, derive).None?
  }

  /** Inserting the batch of a page leaves every other row of the index as it was. */
  lemma {:induction false} OthersStay(table: Table, page: seq<Row>, key: Key, readable: Key -> bool, derive: Derive)
    requires LeftAlone(page, key, readable, derive)
    ensures var after := Inserted(table, Batch(page, readable, derive));
            (key in after <==> key in table) && (key in table ==> after[key] == table[key])
  {
    if page != [] {
      hide RewriteOf;
      var n := |page| - 1;
      assert forall i :: 0 <= i < n ==> page[..n][i] == page[i];
      OthersStay(table, page[..n], key, readable, derive);
      OneMoreRow(table, page, readable, derive);
    }
  }

  /** A row to write back is what the index shows in its place afterwards. */
  lemma {:induction false} RewriteShows(table: Table, page: seq<Row>, i: nat, readable: Key -> bool, derive: Derive)
    requires Descending(page) && i < |page| && RewriteOf(page[i], readable, derive).Some?
    ensures var after := Inserted(table, Batch(page, readable, derive));
            page[i].key in after && after[page[i].key] == RewriteOf(page[i], readable, derive).value
    decreases |page|
  {
    hide RewriteOf;
    var n := |page| - 1;
    if i < n {
      RewriteShows(table, page[..n], i, readable, derive);
      assert page[i].key != page[n].key;
    }
    OneMoreRow(table, page, readable, derive);
  }

  // ---------------------------------------------------------------------------------------------------------- the walk

  /** The positions still ahead of the walk. */
  ghost function Ahead(universe: set<Key>, cursor: Option<Position>): set<Key>
  {
    set key | key in universe && Qualifies(key.pos, cursor)
  }

  lemma AheadShrinks(universe: set<Key>, cursor: Option<Position>, next: Position)
    requires exists key :: key in universe && key.pos == next
    requires Qualifies(next, cursor)
    ensures Ahead(universe, Some(next)) < Ahead(universe, cursor)
  {
    var key :| key in universe && key.pos == next;
    assert key in Ahead(universe, cursor) && key !in Ahead(universe, Some(next));
  }

  lemma SmallerSet<T>(a: set<T>, b: set<T>)
    requires a < b
    ensures |a| < |b|
  {
    assert b == a + (b - a);
    assert b - a != {};
  }

  /** What other writers do while a page is worked on: before its query and before its insert. */
  datatype Others = Others(before: Table, during: Table)

  /** What surrounds the pass: the database, which answers the nth page query or does not, the object store, and the
      other writers. */
  datatype World = World(query: Query, asks: nat -> bool, derive: Derive, readable: nat -> Key -> bool,
                         others: nat -> Others, insert: nat -> Outcome, limit: nat)

  /** The database answers as asked; a record has one row; only rows the new parser made are written by others, and
      only finitely many. */
  ghost predicate Fair(world: World, universe: set<Key>)
  {
    && Lawful(world.query) && world.limit > 0
    && OneRowPerPosition(universe)
    && (forall n :: world.others(n).before.Keys <= universe && world.others(n).during.Keys <= universe)
    && (forall n :: AllSettled(world.others(n).before, world.derive) && AllSettled(world.others(n).during, world.derive))
  }

  /** What the walk has seen: newest first, nothing at or above the cursor missing, nothing below it seen yet. */
  ghost predicate Seen(visited: seq<Row>, start: set<Key>, cursor: Option<Position>)
  {
    && Descending(visited)
    && (forall i :: 0 <= i < |visited| ==> !Qualifies(visited[i].key.pos, cursor))
    && (forall key :: key in start && !Qualifies(key.pos, cursor) ==> Holds(visited, key))
  }

  /** One more page of the walk: it continues where the last one ended. */
  lemma SeenGrows(visited: seq<Row>, start: set<Key>, cursor: Option<Position>, page: seq<Row>, next: Option<Position>,
                  table: Table)
    requires Seen(visited, start, cursor) && start <= table.Keys && IsPage(table, cursor, page, next)
    ensures Descending(visited + page)
    ensures next.Some? ==> Seen(visited + page, start, next)
    ensures next.None? ==> forall key :: key in start ==> Holds(visited + page, key)
  {
    var all := visited + page;
    forall key | Holds(visited, key) || Holds(page, key)
      ensures Holds(all, key)
    {
      if i :| 0 <= i < |visited| && visited[i].key == key {
        assert all[i].key == key;
      } else {
        var i :| 0 <= i < |page| && page[i].key == key;
        assert all[|visited| + i].key == key;
      }
    }
  }

  /** Of two writers of a page's rows the one that inserts last shows. When every row of the page could be read, all of
      them are settled afterwards; and the locations are the ones other writers left exactly when no row that was
      rewritten had been given another location since the page was asked for. */
  lemma PageWritten(asked: Table, during: Table, page: seq<Row>, readable: Key -> bool, derive: Derive)
    requires Descending(page) && AllSettled(during, derive)
    requires forall i :: 0 <= i < |page| ==> page[i].key in asked && asked[page[i].key] == page[i].content
    ensures var before := asked + during;
            var after := Inserted(before, Batch(page, readable, derive));
            && after.Keys == before.Keys
            && ((forall i :: 0 <= i < |page| ==> readable(page[i].key)) ==>
                  forall key :: key in after && (Holds(page, key) || Settled(before[key], derive)) ==>
                    Settled(after[key], derive))
            && (SameButMetadata(after, before) <==>
                  forall i :: 0 <= i < |page| && page[i].key in during && RewriteOf(page[i], readable, derive).Some? ==>
                    during[page[i].key].location == page[i].content.location)
  {
    var before := asked + during;
    var after := Inserted(before, Batch(page, readable, derive));
    forall key
      ensures key in after <==> key in before
      ensures key in after && LeftAlone(page, key, readable, derive) ==> after[key] == before[key]
      ensures key in after && !LeftAlone(page, key, readable, derive) ==> Rewrote(page, key, after[key], readable, derive)
    {
      if LeftAlone(page, key, readable, derive) {
        OthersStay(before, page, key, readable, derive);
      } else {
        var i :| 0 <= i < |page| && page[i].key == key && RewriteOf(page[i], readable, derive).Some?;
        RewriteShows(before, page, i, readable, derive);
      }
    }
    assert Written(before, after, page, readable, derive);
    hide Inserted, Batch, Written;
    if forall i :: 0 <= i < |page| ==> readable(page[i].key) {
      SettledAfter(asked, during, after, page, readable, derive);
    }
    LocationsAfter(asked, during, after, page, readable, derive);
  }

  /** The row a re-index wrote at location 1 after the page was asked for is pointed back at location 0, where the old
      row had no rule: the rewrite of the old row is inserted last. */
  lemma StaleRewriteHidesReindex(key: Key, rule: string, derive: Derive)
    requires derive(0) == Some(Metadata(Some(rule), None))
    ensures var asked, during := map[key := Content(0, None, None)], map[key := Content(1, Some(rule), None)];
            var after := Inserted(asked + during, Batch([Row(key, asked[key])], _ => true, derive));
            PageOf([Row(key, asked[key])], asked) && key in after && after[key] == Content(0, Some(rule), None)
  {
    var asked, during := map[key := Content(0, None, None)], map[key := Content(1, Some(rule), None)];
    var page := [Row(key, asked[key])];
    assert RewriteOf(page[0], _ => true, derive) == Some(Content(0, Some(rule), None));
    hide RewriteOf, Inserted, Batch;
    RewriteShows(asked + during, page, 0, _ => true, derive);
  }

  ghost predicate Rewrote(page: seq<Row>, key: Key, content: Content, readable: Key -> bool, derive: Derive)
  {
    exists i :: 0 <= i < |page| && page[i].key == key && RewriteOf(page[i], readable, derive) == Some(content)
  }

  /** Every row is either left alone or shows what it was rewritten to. */
  ghost predicate Written(before: Table, after: Table, page: seq<Row>, readable: Key -> bool, derive: Derive)
  {
    && after.Keys == before.Keys
    && (forall key :: key in after && LeftAlone(page, key, readable, derive) ==> after[key] == before[key])
    && (forall key :: key in after && !LeftAlone(page, key, readable, derive) ==>
          Rewrote(page, key, after[key], readable, derive))
  }

  lemma SettledAfter(asked: Table, during: Table, after: Table, page: seq<Row>, readable: Key -> bool, derive: Derive)
    requires Written(asked + during, after, page, readable, derive) && AllSettled(during, derive)
    requires forall i :: 0 <= i < |page| ==> page[i].key in asked && asked[page[i].key] == page[i].content
    requires forall i :: 0 <= i < |page| ==> readable(page[i].key)
    ensures forall key :: key in after && (Holds(page, key) || Settled((asked + during)[key], derive)) ==>
              Settled(after[key], derive)
  {
    forall key | key in after && (Holds(page, key) || Settled((asked + during)[key], derive))
      ensures Settled(after[key], derive)
    {
      if Rewrote(page, key, after[key], readable, derive) {
        var i :| 0 <= i < |page| && page[i].key == key && RewriteOf(page[i], readable, derive) == Some(after[key]);
        RewriteSettles(page[i], readable, derive);
      } else if key !in during && Holds(page, key) {
        var i :| 0 <= i < |page| && page[i].key == key;
        RewriteSettles(page[i], readable, derive);
      }
    }
  }

  lemma LocationsAfter(asked: Table, during: Table, after: Table, page: seq<Row>, readable: Key -> bool, derive: Derive)
    requires Descending(page) && Written(asked + during, after, page, readable, derive)
    requires forall i :: 0 <= i < |page| ==> page[i].key in asked && asked[page[i].key] == page[i].content
    ensures SameButMetadata(after, asked + during) <==>
              forall i :: 0 <= i < |page| && page[i].key in during && RewriteOf(page[i], readable, derive).Some? ==>
                during[page[i].key].location == page[i].content.location
  {
    var before := asked + during;
    forall i | 0 <= i < |page|
      ensures RewriteOf(page[i], readable, derive).Some? ==>
                after[page[i].key].location == page[i].content.location
    {
      var key := page[i].key;
      if RewriteOf(page[i], readable, derive).Some? {
        assert !LeftAlone(page, key, readable, derive);
        var j :| 0 <= j < |page| && page[j].key == key && RewriteOf(page[j], readable, derive) == Some(after[key]);
        RewriteSettles(page[j], readable, derive);
      }
    }
  }

  lemma {:induction false} SettledNeedsNothing(page: seq<Row>, readable: Key -> bool, derive: Derive)
    requires forall i :: 0 <= i < |page| ==> Settled(page[i].content, derive)
    ensures Batch(page, readable, derive) == []
  {
    if page != [] {
      var n := |page| - 1;
      assert forall i :: 0 <= i < n ==> page[..n][i] == page[i];
      SettledNeedsNothing(page[..n], readable, derive);
      RewriteSettles(page[n], readable, derive);
    }
  }

  // ---------------------------------------------------------------------------------------------------------- the pass

  /** What the index would hold after `n` pages had there been no pass. */
  ghost function Live(start: Table, others: nat -> Others, n: nat): Table
  {
    if n == 0 then start else Live(start, others, n - 1) + others(n - 1).before + others(n - 1).during
  }

  /** No other writer replaces an indexed row between the query of a page and its insert. */
  ghost predicate Undisturbed(start: Table, others: nat -> Others, pages: nat)
  {
    forall n :: 0 <= n < pages ==> others(n).during.Keys !! (Live(start, others, n) + others(n).before).Keys
  }

  /** A page of the pass as it was asked for. */
  ghost predicate PageOf(page: seq<Row>, asked: Table)
  {
    Descending(page) && forall i :: 0 <= i < |page| ==> page[i].key in asked && asked[page[i].key] == page[i].content
  }

  /** The index after a page: the other writers' rows, then the batch. */
  ghost function AfterPage(table: Table, others: Others, page: seq<Row>, readable: Key -> bool, derive: Derive): Table
  {
    Inserted(table + others.before + others.during, Batch(page, readable, derive))
  }

  lemma PageKeepsKeys(start: Table, world: World, n: nat, table: Table, page: seq<Row>, readable: Key -> bool)
    requires AllSettled(world.others(n).during, world.derive) && PageOf(page, table + world.others(n).before)
    requires table.Keys == Live(start, world.others, n).Keys
    ensures AfterPage(table, world.others(n), page, readable, world.derive).Keys == Live(start, world.others, n + 1).Keys
    ensures (table + world.others(n).before + world.others(n).during).Keys == Live(start, world.others, n + 1).Keys
  {
    hide AllSettled, Inserted, Batch;
    PageWritten(table + world.others(n).before, world.others(n).during, page, readable, world.derive);
  }

  lemma RefreshesMerged(a: Table, b: Table, more: Table, derive: Derive)
    requires Refreshes(a, b, derive)
    ensures Refreshes(a + more, b + more, derive)
  {
    assert (a + more).Keys == (b + more).Keys;
  }

  lemma RefreshesChained(a: Table, b: Table, c: Table, derive: Derive)
    requires Refreshes(a, b, derive) && Refreshes(b, c, derive)
    ensures Refreshes(a, c, derive)
  {
  }

  /** Where no other writer has replaced a row of the page, inserting its batch refreshes rows and does nothing else. */
  lemma PageRefreshes(asked: Table, during: Table, page: seq<Row>, readable: Key -> bool, derive: Derive)
    requires PageOf(page, asked) && AllSettled(during, derive)
    requires forall i :: 0 <= i < |page| ==> page[i].key !in during
    ensures Refreshes(Inserted(asked + during, Batch(page, readable, derive)), asked + during, derive)
  {
    var before := asked + during;
    var after := Inserted(before, Batch(page, readable, derive));
    hide Batch, AllSettled;
    forall key
      ensures key in after <==> key in before
      ensures key in after ==> Refreshed(after[key], before[key], derive)
    {
      if LeftAlone(page, key, readable, derive) {
        OthersStay(before, page, key, readable, derive);
      } else {
        var i :| 0 <= i < |page| && page[i].key == key && RewriteOf(page[i], readable, derive).Some?;
        RewriteShows(before, page, i, readable, derive);
        RewriteSettles(page[i], readable, derive);
      }
    }
  }

  lemma PageKeepsRows(start: Table, world: World, n: nat, table: Table, page: seq<Row>, readable: Key -> bool)
    requires AllSettled(world.others(n).during, world.derive) && PageOf(page, table + world.others(n).before)
    requires Refreshes(table, Live(start, world.others, n), world.derive)
    requires Undisturbed(start, world.others, n + 1)
    ensures Refreshes(AfterPage(table, world.others(n), page, readable, world.derive),
                      Live(start, world.others, n + 1), world.derive)
    ensures Refreshes(table + world.others(n).before + world.others(n).during, Live(start, world.others, n + 1),
                      world.derive)
  {
    var before, during := world.others(n).before, world.others(n).during;
    var asked, live := table + before, Live(start, world.others, n) + before;
    RefreshesMerged(table, Live(start, world.others, n), before, world.derive);
    RefreshesMerged(asked, live, during, world.derive);
    assert during.Keys !! asked.Keys;
    assert forall i :: 0 <= i < |page| ==> page[i].key in asked.Keys && page[i].key !in during.Keys;
    hide Refreshes, AllSettled, Inserted, Batch, Undisturbed;
    PageRefreshes(asked, during, page, readable, world.derive);
    RefreshesChained(AfterPage(table, world.others(n), page, readable, world.derive), asked + during, live + during,
                     world.derive);
  }

  /** A page of an index with nothing left to rewrite is left as it is. */
  lemma PageWithNothingToDo(start: Table, world: World, n: nat, page: seq<Row>, readable: Key -> bool)
    requires AllSettled(world.others(n).before, world.derive) && AllSettled(world.others(n).during, world.derive)
    requires PageOf(page, Live(start, world.others, n) + world.others(n).before)
    requires AllSettled(Live(start, world.others, n), world.derive)
    ensures Batch(page, readable, world.derive) == []
    ensures AfterPage(Live(start, world.others, n), world.others(n), page, readable, world.derive)
         == Live(start, world.others, n + 1)
    ensures AllSettled(Live(start, world.others, n + 1), world.derive)
  {
    assert forall i :: 0 <= i < |page| ==> Settled(page[i].content, world.derive);
    SettledNeedsNothing(page, readable, world.derive);
  }

  ghost predicate AllReadable(world: World)
  {
    forall n, key :: world.readable(n)(key)
  }

  /** What the pass keeps from page to page. */
  ghost predicate Going(start: Table, world: World, universe: set<Key>, n: nat, table: Table, cursor: Option<Position>,
                        visited: seq<Row>, progress: Progress)
  {
    && table.Keys == Live(start, world.others, n).Keys && start.Keys <= table.Keys <= universe
    && |visited| == progress.scanned && Descending(visited)
    && (AllReadable(world) ==> progress.unreadable == 0)
    && (progress.unreadable == 0 ==> forall key :: key in table ==>
          Settled(table[key], world.derive) || (key in start && !Holds(visited, key)))
    && (Undisturbed(start, world.others, n) ==> Refreshes(table, Live(start, world.others, n), world.derive))
    && (AllSettled(start, world.derive) ==>
          && table == Live(start, world.others, n) && AllSettled(table, world.derive) && progress.rewritten == 0)
  }

  /** The progress after a page. */
  function Onward(progress: Progress, page: seq<Row>, batch: seq<Row>, unreadable: nat, unparsable: nat): Progress
  {
    Progress(progress.scanned + |page|, progress.rewritten + |batch|, progress.unreadable + unreadable,
             progress.unparsable + unparsable)
  }

  lemma PageKeepsGoing(start: Table, world: World, universe: set<Key>, n: nat, table: Table, cursor: Option<Position>,
                       visited: seq<Row>, progress: Progress, page: seq<Row>, readable: Key -> bool, unreadable: nat,
                       unparsable: nat)
    requires Fair(world, universe) && Going(start, world, universe, n, table, cursor, visited, progress)
    requires PageOf(page, table + world.others(n).before) && Descending(visited + page)
    requires unreadable == 0 <==> forall i :: 0 <= i < |page| ==> readable(page[i].key)
    requires AllReadable(world) ==> unreadable == 0
    ensures Going(start, world, universe, n + 1, AfterPage(table, world.others(n), page, readable, world.derive), cursor,
                  visited + page, Onward(progress, page, Batch(page, readable, world.derive), unreadable, unparsable))
  {
    var asked, during := table + world.others(n).before, world.others(n).during;
    var after := AfterPage(table, world.others(n), page, readable, world.derive);
    hide Lawful, OneRowPerPosition, Refreshes, Inserted, Batch, Settled, Holds, Descending;
    PageKeepsKeys(start, world, n, table, page, readable);
    if Undisturbed(start, world.others, n + 1) {
      PageKeepsRows(start, world, n, table, page, readable);
    }
    if AllSettled(start, world.derive) {
      PageWithNothingToDo(start, world, n, page, readable);
    }
    if progress.unreadable + unreadable == 0 {
      PageSettles(start, world, n, table, visited, page, readable);
    }
  }

  /** A page that was read in full leaves unsettled only rows that are still ahead. */
  lemma PageSettles(start: Table, world: World, n: nat, table: Table, visited: seq<Row>, page: seq<Row>,
                    readable: Key -> bool)
    requires AllSettled(world.others(n).before, world.derive) && AllSettled(world.others(n).during, world.derive)
    requires PageOf(page, table + world.others(n).before)
    requires forall key :: key in table ==> Settled(table[key], world.derive) || (key in start && !Holds(visited, key))
    requires forall i :: 0 <= i < |page| ==> readable(page[i].key)
    ensures forall key :: key in AfterPage(table, world.others(n), page, readable, world.derive) ==>
              || Settled(AfterPage(table, world.others(n), page, readable, world.derive)[key], world.derive)
              || (key in start && !Holds(visited + page, key))
  {
    var asked, during := table + world.others(n).before, world.others(n).during;
    var after := AfterPage(table, world.others(n), page, readable, world.derive);
    PageWritten(asked, during, page, readable, world.derive);
    hide AfterPage, Inserted, Batch, Settled, Refreshes;
    forall key | key in after
      ensures Settled(after[key], world.derive) || (key in start && !Holds(visited + page, key))
    {
      HeldInEither(visited, page, key);
      if !Settled(after[key], world.derive) {
        assert !Settled((asked + during)[key], world.derive);
      }
    }
  }

  lemma HeldInEither(visited: seq<Row>, page: seq<Row>, key: Key)
    ensures Holds(visited + page, key) <==> Holds(visited, key) || Holds(page, key)
  {
    var all := visited + page;
    assert forall i :: 0 <= i < |visited| ==> all[i] == visited[i];
    assert forall i :: 0 <= i < |page| ==> all[|visited| + i] == page[i];
  }

  lemma GoingOn(start: Table, world: World, universe: set<Key>, n: nat, table: Table, cursor: Option<Position>,
                visited: seq<Row>, progress: Progress)
    requires Fair(world, universe) && Going(start, world, universe, n, table, cursor, visited, progress)
    ensures start.Keys <= (table + world.others(n).before).Keys <= universe
    ensures OneRowPerPosition((table + world.others(n).before).Keys)
    ensures Lawful(world.query) && world.limit > 0
  {
    hide Lawful, AllSettled, Refreshes, Undisturbed, Descending;
  }

  /** The index after some pages, beside what it would be without the pass. */
  ghost predicate Beside(start: Table, world: World, pages: nat, table: Table)
  {
    && table.Keys == Live(start, world.others, pages).Keys
    && (Undisturbed(start, world.others, pages) ==> Refreshes(table, Live(start, world.others, pages), world.derive))
    && (AllSettled(start, world.derive) ==> table == Live(start, world.others, pages))
  }

  /** The counts a pass reports, where every row could be read: rows that did not parse, and rows that did not say what
      their bytes say. */
  ghost predicate Counted(visited: seq<Row>, world: World, progress: Progress)
  {
    var always := (key: Key) => true;
    AllReadable(world) ==>
      && progress.unreadable == 0
      && progress.unparsable == HowMany(visited, Unparsed(always, world.derive))
      && progress.rewritten == HowMany(visited, Stale(always, world.derive))
  }

  lemma CountedOn(visited: seq<Row>, world: World, progress: Progress, page: seq<Row>, batch: seq<Row>, n: nat,
                  unreadable: nat, unparsable: nat)
    requires Counted(visited, world, progress)
    requires unreadable == HowMany(page, Unread(world.readable(n)))
    requires unparsable == HowMany(page, Unparsed(world.readable(n), world.derive))
    requires |batch| == HowMany(page, Stale(world.readable(n), world.derive))
    requires AllReadable(world) ==> unreadable == 0
    ensures Counted(visited + page, world, Onward(progress, page, batch, unreadable, unparsable))
  {
    hide Settled, HowMany;
    if AllReadable(world) {
      var always := (key: Key) => true;
      HowManyTogether(visited, page, Unparsed(always, world.derive));
      HowManyTogether(visited, page, Stale(always, world.derive));
      forall row: Row
        ensures Unparsed(always, world.derive)(row) == Unparsed(world.readable(n), world.derive)(row)
        ensures Stale(always, world.derive)(row) == Stale(world.readable(n), world.derive)(row)
      {
        assert world.readable(n)(row.key);
      }
      SameCount(page, Unparsed(always, world.derive), Unparsed(world.readable(n), world.derive));
      SameCount(page, Stale(always, world.derive), Stale(world.readable(n), world.derive));
    }
  }

  lemma {:induction false} SameCount(rows: seq<Row>, one: Row -> bool, other: Row -> bool)
    requires forall row :: one(row) == other(row)
    ensures HowMany(rows, one) == HowMany(rows, other)
  {
    if rows != [] {
      SameCount(rows[..|rows| - 1], one, other);
    }
  }

  /** What a pass leaves that has seen every row it started with. */
  ghost predicate Finished(start: Table, world: World, table: Table, visited: seq<Row>, progress: Progress)
  {
    && |visited| == progress.scanned
    && (forall key :: key in start ==> Holds(visited, key))
    && (AllReadable(world) ==> progress.IsComplete())
    && (progress.IsComplete() ==> AllSettled(table, world.derive))
    && (AllSettled(start, world.derive) ==> progress.rewritten == 0)
  }

  /** After a pass that read every row each row has the derived rule where its bytes derive to one and the derived time
      where they derive to one; and, where no row was replaced while its page was worked on, for the rest exactly what
      it would have without the pass. */
  lemma CompletePass(start: Table, world: World, table: Table, visited: seq<Row>, progress: Progress, pages: nat,
                     key: Key)
    requires Beside(start, world, pages, table) && Finished(start, world, table, visited, progress)
    requires progress.unreadable == 0 && key in table
    ensures var metadata := world.derive(table[key].location);
            metadata.Some? ==>
              && (metadata.value.rule.Some? ==> table[key].rule == metadata.value.rule)
              && (metadata.value.playedAt.Some? ==> table[key].playedAt == metadata.value.playedAt)
    ensures Undisturbed(start, world.others, pages) ==>
              var live := Live(start, world.others, pages);
              && key in live
              && var metadata := world.derive(live[key].location);
                 && table[key].location == live[key].location
                 && (metadata.None? ==> table[key] == live[key])
                 && (metadata.Some? ==>
                       && (metadata.value.rule.None? ==> table[key].rule == live[key].rule)
                       && (metadata.value.playedAt.None? ==> table[key].playedAt == live[key].playedAt))
  {
    hide Undisturbed, Live, Holds;
    if Undisturbed(start, world.others, pages) {
      SettledInColumns(table[key], Live(start, world.others, pages)[key], world.derive);
    }
  }

  /** One page of the pass: whether its insert fails or lands, and whether or not there is a next page. */
  lemma OnePage(start: Table, world: World, universe: set<Key>, n: nat, table: Table, cursor: Option<Position>,
                visited: seq<Row>, progress: Progress, page: seq<Row>, next: Option<Position>, readable: Key -> bool,
                unreadable: nat, unparsable: nat)
    requires Fair(world, universe) && Going(start, world, universe, n, table, cursor, visited, progress)
    requires Seen(visited, start.Keys, cursor) && IsPage(table + world.others(n).before, cursor, page, next)
    requires unreadable == 0 <==> forall i :: 0 <= i < |page| ==> readable(page[i].key)
    requires AllReadable(world) ==> unreadable == 0
    ensures Descending(visited + page)
    ensures Beside(start, world, n + 1, table + world.others(n).before + world.others(n).during)
    ensures var after := AfterPage(table, world.others(n), page, readable, world.derive);
            var onward := Onward(progress, page, Batch(page, readable, world.derive), unreadable, unparsable);
            && Beside(start, world, n + 1, after)
            && (next.Some? ==>
                  && Going(start, world, universe, n + 1, after, next, visited + page, onward)
                  && Seen(visited + page, start.Keys, next)
                  && |Ahead(universe, next)| < |Ahead(universe, cursor)|)
            && (next.None? ==> Finished(start, world, after, visited + page, onward))
  {
    hide Ahead, AfterPage, Onward, Batch, Inserted, Descending, Fair, Live, Less, Seen, Going, IsPage, Beside, Finished;
    var asked := table + world.others(n).before;
    GoingOn(start, world, universe, n, table, cursor, visited, progress);
    AsPageOf(asked, cursor, page, next);
    SeenGrows(visited, start.Keys, cursor, page, next, asked);
    PageKeepsGoing(start, world, universe, n, table, cursor, visited, progress, page, readable, unreadable, unparsable);
    BesideEitherWay(start, world, universe, n, table, cursor, visited, progress, page, readable);
    var onward := Onward(progress, page, Batch(page, readable, world.derive), unreadable, unparsable);
    var after := AfterPage(table, world.others(n), page, readable, world.derive);
    if next.Some? {
      CursorMoves(start, world, universe, n + 1, after, cursor, next, visited + page, onward);
      PageEndsAhead(universe, cursor, page, next, asked);
    } else {
      AllSeen(start, world, universe, n + 1, after, cursor, visited + page, onward);
    }
  }

  lemma AsPageOf(asked: Table, cursor: Option<Position>, page: seq<Row>, next: Option<Position>)
    requires IsPage(asked, cursor, page, next)
    ensures PageOf(page, asked)
  {
  }

  lemma BesideEitherWay(start: Table, world: World, universe: set<Key>, n: nat, table: Table, cursor: Option<Position>,
                        visited: seq<Row>, progress: Progress, page: seq<Row>, readable: Key -> bool)
    requires Fair(world, universe) && Going(start, world, universe, n, table, cursor, visited, progress)
    requires PageOf(page, table + world.others(n).before)
    ensures Beside(start, world, n + 1, table + world.others(n).before + world.others(n).during)
    ensures Beside(start, world, n + 1, AfterPage(table, world.others(n), page, readable, world.derive))
  {
    hide Lawful, OneRowPerPosition, Settled, Refreshes, Inserted, Batch;
    PageKeepsKeys(start, world, n, table, page, readable);
    if Undisturbed(start, world.others, n + 1) {
      PageKeepsRows(start, world, n, table, page, readable);
    }
    if AllSettled(start, world.derive) {
      PageWithNothingToDo(start, world, n, page, readable);
    }
  }

  /** `Going` says nothing of where the cursor is. */
  lemma CursorMoves(start: Table, world: World, universe: set<Key>, n: nat, table: Table, cursor: Option<Position>,
                    next: Option<Position>, visited: seq<Row>, progress: Progress)
    requires Going(start, world, universe, n, table, cursor, visited, progress)
    ensures Going(start, world, universe, n, table, next, visited, progress)
  {
    hide AllSettled, Refreshes, Undisturbed, Live;
  }

  lemma PageEndsAhead(universe: set<Key>, cursor: Option<Position>, page: seq<Row>, next: Option<Position>, asked: Table)
    requires IsPage(asked, cursor, page, next) && asked.Keys <= universe && next.Some?
    ensures |Ahead(universe, next)| < |Ahead(universe, cursor)|
  {
    var last := page[|page| - 1];
    assert last.key in asked.Keys;
    hide Ahead, IsPage, Less;
    AheadShrinks(universe, cursor, next.value);
    SmallerSet(Ahead(universe, next), Ahead(universe, cursor));
  }

  /** Each of the first `n` pages was answered, and so was its insert. */
  predicate Served(world: World, n: nat)
  {
    forall k :: 0 <= k < n ==> world.asks(k) && world.insert(k).Answered()
  }

  lemma ServedOnce(world: World, n: nat)
    ensures Served(world, 0)
    ensures Served(world, n + 1) <==> Served(world, n) && world.asks(n) && world.insert(n).Answered()
  {
  }

  lemma NoPage(start: Table, world: World, universe: set<Key>, n: nat, table: Table, cursor: Option<Position>,
               visited: seq<Row>, progress: Progress)
    requires Going(start, world, universe, n, table, cursor, visited, progress) && Seen(visited, start.Keys, cursor)
    ensures Descending(visited) && Beside(start, world, n, table)
  {
    hide Undisturbed, Live, Holds, Settled;
  }

  lemma AllSeen(start: Table, world: World, universe: set<Key>, n: nat, table: Table, cursor: Option<Position>,
                visited: seq<Row>, progress: Progress)
    requires Going(start, world, universe, n, table, cursor, visited, progress)
    requires forall key :: key in start.Keys ==> Holds(visited, key)
    ensures Finished(start, world, table, visited, progress)
  {
    hide Refreshes, Undisturbed, Live, Holds, Settled;
  }

  /** Asks for a page, reads its rows and inserts the ones to write back, while other writers go on. */
  method RunPage(world: World, n: nat, table: Table, cursor: Option<Position>, progress: Progress, ghost start: Table,
                 ghost universe: set<Key>, ghost visited: seq<Row>)
    returns (after: Table, next: Option<Position>, onward: Progress, ok: bool, ghost seen: seq<Row>)
    requires Fair(world, universe) && Going(start, world, universe, n, table, cursor, visited, progress)
    requires Seen(visited, start.Keys, cursor)
    ensures Descending(seen) && Beside(start, world, n + 1, after) && (ok <==> world.insert(n).Answered())
    ensures ok && next.Some? ==>
              && Going(start, world, universe, n + 1, after, next, seen, onward) && Seen(seen, start.Keys, next)
              && |Ahead(universe, next)| < |Ahead(universe, cursor)|
    ensures ok && next.None? ==> Finished(start, world, after, seen, onward)
    ensures Counted(visited, world, progress) ==> Counted(seen, world, onward)
  {
    hide Going, Seen, Ahead, Fair, IsPage, Live, Beside, Finished, Descending, Lawful, OneRowPerPosition;
    GoingOn(start, world, universe, n, table, cursor, visited, progress);
    var asked := table + world.others(n).before;
    var page;
    page, next := Page(asked, world.query, cursor, world.limit);
    var batch, unreadable, unparsable := RewritePage(page, world.readable(n), world.derive);
    assert AllReadable(world) ==> unreadable == 0;
    hide AllReadable, Counted, HowMany;
    if Counted(visited, world, progress) {
      CountedOn(visited, world, progress, page, batch, n, unreadable, unparsable);
    }
    OnePage(start, world, universe, n, table, cursor, visited, progress, page, next, world.readable(n), unreadable,
            unparsable);
    onward, seen := Onward(progress, page, batch, unreadable, unparsable), visited + page;
    after, ok := asked + world.others(n).during, world.insert(n).Answered();
    if world.insert(n).Landed() {
      after := Inserted(after, batch);
    }
  }

  class Catalog {
    var table: Table
    var marked: bool

    /** Walks the whole index newest row first. However other writers interleave, no row the pass started with is
        missed or read twice, no row is added under a new key, and a pass that read everything leaves every row saying
        what its bytes say. Unless another writer replaces a row between a page's query and its insert, every row keeps
        the location the other writers gave it. Where nothing was left to rewrite, nothing is. */
    method Scan(world: World, ghost universe: set<Key>)
      returns (result: Result<Progress, ()>, ghost visited: seq<Row>, ghost pages: nat)
      requires Fair(world, universe) && table.Keys <= universe
      modifies this`table
      ensures Descending(visited) && Beside(old(table), world, pages, table)
      ensures result.Success? ==>
                Finished(old(table), world, table, visited, result.value) && Counted(visited, world, result.value)
      ensures result.Success? ==> Served(world, pages)
      ensures result.Failure? ==> !world.asks(pages) || !Served(world, pages)
    {
      ghost var start := table;
      var progress := Progress(0, 0, 0, 0);
      var cursor: Option<Position> := None;
      var n := 0;
      visited, pages := [], 0;
      Undertaken(start, world, universe);
      ServedOnce(world, 0);
      hide *;
      while true
        invariant pages == n && Going(start, world, universe, n, table, cursor, visited, progress)
        invariant Seen(visited, start.Keys, cursor) && Counted(visited, world, progress)
        invariant Served(world, n)
        decreases |Ahead(universe, cursor)|
      {
        if !world.asks(n) {
          NoPage(start, world, universe, n, table, cursor, visited, progress);
          return Failure(()), visited, pages;
        }
        var next, ok;
        table, next, progress, ok, visited := RunPage(world, n, table, cursor, progress, start, universe, visited);
        pages := n + 1;
        ServedOnce(world, n);
        if !ok {
          return Failure(()), visited, pages;
        }
        if next.None? {
          return Success(progress), visited, pages;
        }
        cursor := next;
        n := n + 1;
      }
    }

    /** The metadata pass as a process runs it when it starts: not when it is known to be done or cannot tell, and
        marked done only by a pass that read every row. So a mark written here means that the index says what its bytes
        say. */
    method RewriteRecordMetadata(world: World, ghost universe: set<Key>, done: Result<bool, ()>, mark: Outcome)
      requires Fair(world, universe) && table.Keys <= universe
      requires done.Success? ==> done.value == marked
      modifies this
      ensures old(marked) ==> marked && table == old(table)
      ensures done.Failure? ==> marked == old(marked) && table == old(table)
      ensures marked && !old(marked) ==> AllSettled(table, world.derive) && old(table).Keys <= table.Keys
      ensures done == Success(false) && AllReadable(world)
              && (forall n :: world.asks(n) && world.insert(n).Answered()) ==>
                (mark.Landed() ==> marked)
    {
      if done.Failure? || done.value || marked {
        return;
      }
      var result, visited, pages := Scan(world, universe);
      LiveGrows(old(table), world.others, pages);
      if result.Success? && result.value.IsComplete() && mark.Landed() {
        marked := true;
      }
    }
  }

  lemma {:induction false} LiveGrows(start: Table, others: nat -> Others, n: nat)
    ensures start.Keys <= Live(start, others, n).Keys
  {
    if n > 0 {
      LiveGrows(start, others, n - 1);
    }
  }

  lemma Undertaken(start: Table, world: World, universe: set<Key>)
    requires Fair(world, universe) && start.Keys <= universe
    ensures Going(start, world, universe, 0, start, None, [], Progress(0, 0, 0, 0))
    ensures Seen([], start.Keys, None) && Counted([], world, Progress(0, 0, 0, 0))
  {
  }
}
