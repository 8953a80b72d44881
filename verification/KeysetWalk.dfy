/** Walking the whole index a page at a time, and the pass that rewrites old rows as it goes.
    `src/catalog.rs`, `src/backfill.rs`. */
module KeysetWalk {
  import opened Prelude

  // --------------------------------------------------------------------------------------------------------- the index

  /** Where a row stands in a page: by time received, then by id in the order the index gives ids. */
  datatype Position = Position(at: int, id: nat)

  /** The sorting key; the day it starts with is a function of the time. */
  datatype Key = Key(pos: Position, source: string)

  datatype Content = Content(location: nat, rule: Option<string>, playedAt: Option<int>)

  datatype Row = Row(key: Key, content: Content)

  /** The rows the index shows: for each sorting key the one inserted last. */
  type Table = map<Key, Content>

  predicate Less(a: Position, b: Position)
  {
    a.at < b.at || (a.at == b.at && a.id < b.id)
  }

  /** The condition a page adds for its cursor: a bound on the time for the sake of the sorting key, then the pair. The
      bound shuts nothing out that the pair lets in. */
  predicate Qualifies(pos: Position, cursor: Option<Position>): (qualifies: bool)
    ensures qualifies <==> cursor.None? || Less(pos, cursor.value)
  {
    cursor.Some? ==> pos.at <= cursor.value.at && Less(pos, cursor.value)
  }

  /** What the database answers to a page query: the first `n` rows that qualify, newest first. */
  ghost predicate IsAnswer(table: Table, cursor: Option<Position>, n: nat, rows: seq<Row>)
  {
    && |rows| <= n
    && (forall i :: 0 <= i < |rows| ==>
          rows[i].key in table && table[rows[i].key] == rows[i].content && Qualifies(rows[i].key.pos, cursor))
    && (forall i, j :: 0 <= i < j < |rows| ==>
          !Less(rows[i].key.pos, rows[j].key.pos) && rows[i].key != rows[j].key)
    && (forall key :: key in table && Qualifies(key.pos, cursor) && !Holds(rows, key) ==>
          |rows| == n && NoneOlder(rows, key.pos))
  }

  ghost predicate Holds(rows: seq<Row>, key: Key)
  {
    exists i :: 0 <= i < |rows| && rows[i].key == key
  }

  ghost predicate NoneOlder(rows: seq<Row>, pos: Position)
  {
    forall i :: 0 <= i < |rows| ==> !Less(rows[i].key.pos, pos)
  }

  type Query = (Table, Option<Position>, nat) -> seq<Row>

  ghost predicate Lawful(query: Query)
  {
    forall table, cursor, n :: IsAnswer(table, cursor, n, query(table, cursor, n))
  }

  /** A record's id fixes its source, so two rows never stand in one position. */
  ghost predicate OneRowPerPosition(keys: set<Key>)
  {
    forall a, b :: a in keys && b in keys && a.pos == b.pos ==> a == b
  }

  // ---------------------------------------------------------------------------------------------------------- one page

  ghost predicate Descending(rows: seq<Row>)
  {
    forall i, j :: 0 <= i < j < |rows| ==> Less(rows[j].key.pos, rows[i].key.pos)
  }

  /** `page` is what comes next in the walk, and `next` says where it goes on when there is more. */
  ghost predicate IsPage(table: Table, cursor: Option<Position>, page: seq<Row>, next: Option<Position>)
  {
    && Descending(page)
    && (forall i :: 0 <= i < |page| ==>
          page[i].key in table && table[page[i].key] == page[i].content && Qualifies(page[i].key.pos, cursor))
    && (next.Some? ==> page != [] && next.value == page[|page| - 1].key.pos)
    && (forall key :: key in table && Qualifies(key.pos, cursor) ==>
          Holds(page, key) || (next.Some? && Less(key.pos, next.value)))
  }

  /** A page: asks for one row more than it hands out, and that row only says whether there is a next page. */
  method Page(table: Table, query: Query, cursor: Option<Position>, limit: nat)
    returns (page: seq<Row>, next: Option<Position>)
    requires limit > 0 && Lawful(query) && OneRowPerPosition(table.Keys)
    ensures |page| <= limit && IsPage(table, cursor, page, next)
    ensures forall i, j :: 0 <= i < j < |page| ==>
              var earlier, later := page[i].key.pos, page[j].key.pos;
              later.at < earlier.at || (later.at == earlier.at && later.id < earlier.id)
    ensures next.Some? ==> |page| == limit
    ensures next.Some? ==> exists key :: key in table && Less(key.pos, next.value)
  {
    var rows := query(table, cursor, limit + 1);
    assert IsAnswer(table, cursor, limit + 1, rows);
    hide IsAnswer, Lawful, Less, Holds, OneRowPerPosition, Descending, Qualifies;
    PageFacts(table, cursor, limit, rows);
    if |rows| > limit {
      page := rows[..limit];
      next := Some(page[limit - 1].key.pos);
      assert rows[limit].key in table;
    } else {
      page, next := rows, None;
    }
  }

  lemma PageFacts(table: Table, cursor: Option<Position>, limit: nat, rows: seq<Row>)
    requires limit > 0 && OneRowPerPosition(table.Keys)
    requires IsAnswer(table, cursor, limit + 1, rows)
    ensures Descending(rows) && |rows| <= limit + 1
    ensures forall i :: 0 <= i < |rows| ==>
              rows[i].key in table && table[rows[i].key] == rows[i].content && Qualifies(rows[i].key.pos, cursor)
    ensures |rows| <= limit ==> forall key :: key in table && Qualifies(key.pos, cursor) ==> Holds(rows, key)
    ensures |rows| > limit ==> forall key :: key in table && Qualifies(key.pos, cursor) ==>
              Holds(rows[..limit], key) || Less(key.pos, rows[limit - 1].key.pos)
    ensures |rows| > limit ==>
              Descending(rows[..limit]) && Less(rows[limit].key.pos, rows[limit - 1].key.pos)
  {
    forall i, j | 0 <= i < j < |rows|
      ensures Less(rows[j].key.pos, rows[i].key.pos)
    {
      assert rows[i].key in table.Keys && rows[j].key in table.Keys;
    }
    if |rows| > limit {
      forall key | key in table && Qualifies(key.pos, cursor)
        ensures Holds(rows[..limit], key) || Less(key.pos, rows[limit - 1].key.pos)
      {
        if i :| 0 <= i < |rows| && rows[i].key == key {
          if i < limit {
            assert rows[..limit][i].key == key;
          }
        } else {
          assert key in table.Keys && rows[limit - 1].key in table.Keys && rows[limit - 1].key != key;
        }
      }
    }
  }

  // ------------------------------------------------------------------------------------------ there is such a database

  /** The newest of some rows, or one of them. */
  lemma {:induction false} NewestOf(keys: set<Key>) returns (newest: Key)
    requires keys != {}
    ensures newest in keys && forall key :: key in keys ==> !Less(newest.pos, key.pos)
    decreases |keys|
  {
    newest :| newest in keys;
    var rest := keys - {newest};
    if rest != {} {
      var best := NewestOf(rest);
      if Less(newest.pos, best.pos) {
        newest := best;
      }
    }
  }

  ghost function Qualifying(table: Table, cursor: Option<Position>): set<Key>
  {
    set key | key in table && Qualifies(key.pos, cursor)
  }

  ghost predicate IsNewest(keys: set<Key>, newest: Key)
  {
    newest in keys && forall key :: key in keys ==> !Less(newest.pos, key.pos)
  }

  /** Picks the newest row that qualifies, and goes on without it. */
  ghost function Answer(table: Table, cursor: Option<Position>, n: nat): seq<Row>
    decreases n
  {
    if n == 0 || !exists key :: IsNewest(Qualifying(table, cursor), key) then []
    else
      var key :| IsNewest(Qualifying(table, cursor), key);
      [Row(key, table[key])] + Answer(table - {key}, cursor, n - 1)
  }

  lemma {:induction false} AnswerIsOne(table: Table, cursor: Option<Position>, n: nat)
    ensures IsAnswer(table, cursor, n, Answer(table, cursor, n))
    decreases n
  {
    hide IsAnswer, IsNewest, Follows;
    var keys := Qualifying(table, cursor);
    if n > 0 && exists key :: IsNewest(keys, key) {
      var rows := Answer(table, cursor, n);
      var first := rows[0];
      NewestIsRow(table, cursor, first.key);
      AnswerIsOne(table - {first.key}, cursor, n - 1);
      RestFollows(table, cursor, n - 1, first.key, rows[1..]);
      OneRowFirst(table, cursor, n - 1, first, rows[1..]);
      assert rows == [first] + rows[1..];
    } else {
      NoRowsLeft(table, cursor, n);
    }
  }

  lemma NewestIsRow(table: Table, cursor: Option<Position>, key: Key)
    requires IsNewest(Qualifying(table, cursor), key)
    ensures key in table
  {
  }

  lemma NoRowsLeft(table: Table, cursor: Option<Position>, n: nat)
    requires n == 0 || forall key :: !IsNewest(Qualifying(table, cursor), key)
    ensures IsAnswer(table, cursor, n, [])
  {
    if n > 0 && Qualifying(table, cursor) != {} {
      var some := NewestOf(Qualifying(table, cursor));
      assert IsNewest(Qualifying(table, cursor), some);
    }
    assert n > 0 ==> forall key :: key in table && Qualifies(key.pos, cursor) ==> key in Qualifying(table, cursor);
  }

  /** The rest follows the first: none of it is newer, and neither is anything that is left out. */
  ghost predicate Follows(table: Table, cursor: Option<Position>, n: nat, first: Key, rest: seq<Row>)
  {
    && |rest| <= n
    && (forall j :: 0 <= j < |rest| ==>
          && rest[j].key in table && table[rest[j].key] == rest[j].content && Qualifies(rest[j].key.pos, cursor)
          && rest[j].key != first && !Less(first.pos, rest[j].key.pos))
    && (forall i, j :: 0 <= i < j < |rest| ==>
          !Less(rest[i].key.pos, rest[j].key.pos) && rest[i].key != rest[j].key)
    && (forall key :: key in table && Qualifies(key.pos, cursor) && key != first && !Holds(rest, key) ==>
          |rest| == n && !Less(first.pos, key.pos) && NoneOlder(rest, key.pos))
  }

  lemma RestFollows(table: Table, cursor: Option<Position>, n: nat, first: Key, rest: seq<Row>)
    requires IsNewest(Qualifying(table, cursor), first) && IsAnswer(table - {first}, cursor, n, rest)
    ensures first in table && Qualifies(first.pos, cursor) && Follows(table, cursor, n, first, rest)
  {
    hide Qualifies, Less, Holds, NoneOlder;
    forall j | 0 <= j < |rest|
      ensures rest[j].key in Qualifying(table, cursor)
    {
      assert rest[j].key in table - {first};
    }
    assert forall key :: key in table && Qualifies(key.pos, cursor) ==> key in Qualifying(table, cursor);
  }

  lemma HoldsOneMore(first: Row, rest: seq<Row>, pos: Position)
    ensures forall key :: Holds([first] + rest, key) <==> first.key == key || Holds(rest, key)
    ensures NoneOlder([first] + rest, pos) <==> !Less(first.key.pos, pos) && NoneOlder(rest, pos)
  {
    var rows := [first] + rest;
    assert rows[0] == first && forall j :: 0 <= j < |rest| ==> rest[j] == rows[j + 1];
    assert forall i :: 0 < i < |rows| ==> rows[i] == rest[i - 1];
  }

  lemma OneRowFirst(table: Table, cursor: Option<Position>, n: nat, first: Row, rest: seq<Row>)
    requires first.key in table && table[first.key] == first.content && Qualifies(first.key.pos, cursor)
    requires Follows(table, cursor, n, first.key, rest)
    ensures IsAnswer(table, cursor, n + 1, [first] + rest)
  {
    hide Qualifies, Less, Holds, NoneOlder;
    forall key | key in table && Qualifies(key.pos, cursor) && !Holds([first] + rest, key)
      ensures |rest| == n && NoneOlder([first] + rest, key.pos)
    {
      HoldsOneMore(first, rest, key.pos);
    }
  }

  /** What is asked of the database can be had. */
  lemma SomeQueryIsLawful() returns (query: Query)
    ensures Lawful(query)
  {
    query := Answer;
    forall table, cursor, n
      ensures IsAnswer(table, cursor, n, query(table, cursor, n))
    {
      AnswerIsOne(table, cursor, n);
    }
  }
}
