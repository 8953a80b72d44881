/** The one-shot pass that converts every record again whose protobuf was kept, and produces what comes out.
    `src/backfill.rs`. */
module Reconvert {
  import opened Prelude
  import opened KeysetWalk
  import opened Backfill

  /** The stored columns of a record's protobuf. */
  datatype Protobuf = Protobuf(offset: nat, size: nat) {
    /** All zero is no protobuf, and a real one never starts a pack. */
    predicate Located() { size > 0 && offset > 0 }
  }

  /** A re-index message: the record it replaces, and its new bytes. */
  datatype Message = Message(key: Key, bytes: nat)

  /** What surrounds the pass: the database, which answers the nth page query or does not, the object store, and the
      topic. Each row is read once, so that a read fails is a matter of the row alone; the reads of a page are under way
      together, and `finish` is the order they end in. */
  datatype Surroundings = Surroundings(
    query: Query,
    asks: nat -> bool,
    limit: nat,
    finish: (nat, seq<Row>) -> seq<Row>,
    protobuf: Content -> Protobuf,
    readable: Key -> bool,
    convert: Content -> Option<nat>,
    parses: nat -> bool,
    produce: Key -> Outcome,
    others: nat -> Table)

  /** What becomes of a row: it names no protobuf after all; one of its two frames could not be read; it has no header
      or does not convert; or it converts. */
  datatype Verdict = Skipped | Unread | Unconvertible | Converts(bytes: nat)

  function Judge(row: Row, world: Surroundings): Verdict
  {
    if !world.protobuf(row.content).Located() then Skipped
    else if !world.readable(row.key) then Unread
    else
      match world.convert(row.content)
      case None => Unconvertible
      case Some(bytes) => Converts(bytes)
  }

  /** The messages of the rows that convert, in order. */
  function Messages(rows: seq<Row>, world: Surroundings): seq<Message>
  {
    if rows == [] then []
    else
      var last := rows[|rows| - 1];
      var verdict := Judge(last, world);
      Messages(rows[..|rows| - 1], world) + if verdict.Converts? then [Message(last.key, verdict.bytes)] else []
  }

  function CountUnread(rows: seq<Row>, world: Surroundings): nat
  {
    if rows == [] then 0
    else CountUnread(rows[..|rows| - 1], world) + if Judge(rows[|rows| - 1], world).Unread? then 1 else 0
  }

  function CountUnparsable(rows: seq<Row>, world: Surroundings): nat
  {
    if rows == [] then 0
    else
      CountUnparsable(rows[..|rows| - 1], world)
      + if Judge(rows[|rows| - 1], world).Unconvertible? then 1 else 0
  }

  /** Every row that names a protobuf was read, both frames. */
  predicate AllRead(rows: seq<Row>, world: Surroundings)
  {
    forall i :: 0 <= i < |rows| && world.protobuf(rows[i].content).Located() ==> world.readable(rows[i].key)
  }

  lemma {:induction false} CountIsNone(rows: seq<Row>, world: Surroundings)
    ensures CountUnread(rows, world) == 0 <==> AllRead(rows, world)
  {
    if rows != [] {
      var n := |rows| - 1;
      CountIsNone(rows[..n], world);
      assert forall i :: 0 <= i < n ==> rows[..n][i] == rows[i];
    }
  }

  lemma {:induction false} PagesAdd(rows: seq<Row>, page: seq<Row>, world: Surroundings)
    ensures Messages(rows + page, world) == Messages(rows, world) + Messages(page, world)
    ensures CountUnread(rows + page, world) == CountUnread(rows, world) + CountUnread(page, world)
    ensures CountUnparsable(rows + page, world) == CountUnparsable(rows, world) + CountUnparsable(page, world)
  {
    hide Judge;
    if page == [] {
      assert rows + page == rows;
    } else {
      PagesAdd(rows, page[..|page| - 1], world);
      assert (rows + page)[..|rows + page| - 1] == rows + page[..|page| - 1];
    }
  }

  /** Producing the message of a row comes back as it should, or there is none. */
  predicate Goes(row: Row, world: Surroundings)
  {
    Judge(row, world).Converts? ==> world.parses(Judge(row, world).bytes) && world.produce(row.key).Answered()
  }

  predicate AllGo(rows: seq<Row>, world: Surroundings)
  {
    forall i :: 0 <= i < |rows| ==> Goes(rows[i], world)
  }

  /** In whatever order rows are handled, the messages are the same, and so is the count of unread ones. */
  lemma {:induction false} OrderIsNoMatter(rows: seq<Row>, again: seq<Row>, world: Surroundings)
    requires multiset(rows) == multiset(again)
    ensures multiset(Messages(rows, world)) == multiset(Messages(again, world))
    ensures CountUnread(rows, world) == CountUnread(again, world)
    ensures CountUnparsable(rows, world) == CountUnparsable(again, world)
  {
    hide Messages, CountUnread, CountUnparsable;
    if rows == [] {
      assert |multiset(again)| == 0;
      assert again == [];
    } else {
      var n := |rows| - 1;
      var i := Without(rows, again);
      OrderIsNoMatter(rows[..n], again[..i] + again[i + 1..], world);
      assert rows == rows[..n] + [rows[n]] && again == again[..i] + [rows[n]] + again[i + 1..];
      PagesAdd(rows[..n], [rows[n]], world);
      PagesAdd(again[..i] + [rows[n]], again[i + 1..], world);
      PagesAdd(again[..i], [rows[n]], world);
      PagesAdd(again[..i], again[i + 1..], world);
    }
  }

  /** Where the last of some rows is in another order of them, and that the rest is the same without it. */
  lemma Without(rows: seq<Row>, again: seq<Row>) returns (i: nat)
    requires rows != [] && multiset(rows) == multiset(again)
    ensures i < |again| && again[i] == rows[|rows| - 1]
    ensures multiset(rows[..|rows| - 1]) == multiset(again[..i] + again[i + 1..])
  {
    var n := |rows| - 1;
    assert rows == rows[..n] + [rows[n]];
    assert rows[n] in multiset(again);
    i :| 0 <= i < |again| && again[i] == rows[n];
    assert again == again[..i] + [rows[n]] + again[i + 1..];
    var kept, before, behind := multiset(rows[..n]), multiset(again[..i]), multiset(again[i + 1..]);
    assert multiset(rows) == kept + multiset{rows[n]} && multiset(again) == before + multiset{rows[n]} + behind;
    assert kept == kept + multiset{rows[n]} - multiset{rows[n]};
    assert before + behind == before + multiset{rows[n]} + behind - multiset{rows[n]};
  }

  lemma SameRows(rows: seq<Row>, again: seq<Row>, world: Surroundings)
    requires multiset(rows) == multiset(again)
    ensures |rows| == |again| && (AllRead(rows, world) <==> AllRead(again, world))
    ensures AllGo(rows, world) <==> AllGo(again, world)
  {
    hide Goes;
    assert |multiset(rows)| == |rows| && |multiset(again)| == |again|;
    forall i | 0 <= i < |rows|
      ensures rows[i] in again
    {
      assert rows[i] in multiset(again);
    }
    forall i | 0 <= i < |again|
      ensures again[i] in rows
    {
      assert again[i] in multiset(rows);
    }
  }

  // ---------------------------------------------------------------------------------------------------------- one page

  /** Converts and produces the rows of a page, in the order their reads ended, and stops at the first that cannot be
      produced. */
  method ConvertPage(page: seq<Row>, world: Surroundings, topic: seq<Message>)
    returns (after: seq<Message>, rewritten: nat, unreadable: nat, unparsable: nat, ok: bool)
    ensures ok <==> AllGo(page, world)
    ensures ok ==> after == topic + Messages(page, world) && rewritten == |Messages(page, world)|
    ensures ok ==> unreadable == CountUnread(page, world) && unparsable == CountUnparsable(page, world)
    ensures topic <= after <= topic + Messages(page, world)
  {
    hide Messages, CountUnread, CountUnparsable;
    after, rewritten, unreadable, unparsable := topic, 0, 0, 0;
    NothingYet(page, world);
    for i := 0 to |page|
      invariant forall j :: 0 <= j < i ==> Goes(page[j], world)
      invariant after == topic + Messages(page[..i], world) && rewritten == |Messages(page[..i], world)|
      invariant unreadable == CountUnread(page[..i], world) && unparsable == CountUnparsable(page[..i], world)
    {
      var row := page[i];
      PrefixMessages(page, i, world);
      PrefixMessages(page, i + 1, world);
      NextRow(page, i, world);
      var protobuf := world.protobuf(row.content);
      if protobuf.size == 0 || protobuf.offset == 0 {
        continue;
      }
      if !world.readable(row.key) {
        unreadable := unreadable + 1;
        continue;
      }
      var converted := world.convert(row.content);
      if converted.None? {
        unparsable := unparsable + 1;
        continue;
      }
      if !world.parses(converted.value) {
        return after, rewritten, unreadable, unparsable, false;
      }
      if world.produce(row.key).Landed() {
        after := after + [Message(row.key, converted.value)];
      }
      if !world.produce(row.key).Answered() {
        return after, rewritten, unreadable, unparsable, false;
      }
      rewritten := rewritten + 1;
    }
    assert page[..|page|] == page;
    ok := true;
  }

  lemma NextRow(page: seq<Row>, i: nat, world: Surroundings)
    requires i < |page|
    ensures var verdict := Judge(page[i], world);
            && Messages(page[..i + 1], world)
               == Messages(page[..i], world) + (if verdict.Converts? then [Message(page[i].key, verdict.bytes)] else [])
            && CountUnread(page[..i + 1], world) == CountUnread(page[..i], world) + (if verdict.Unread? then 1 else 0)
            && CountUnparsable(page[..i + 1], world)
               == CountUnparsable(page[..i], world) + if verdict.Unconvertible? then 1 else 0
  {
    hide Judge;
    assert page[..i + 1][..i] == page[..i];
  }

  lemma NothingYet(page: seq<Row>, world: Surroundings)
    ensures Messages(page[..0], world) == [] && CountUnread(page[..0], world) == 0
    ensures CountUnparsable(page[..0], world) == 0
  {
  }

  lemma {:induction false} PrefixMessages(page: seq<Row>, i: nat, world: Surroundings)
    requires i <= |page|
    ensures Messages(page[..i], world) <= Messages(page, world)
    decreases |page|
  {
    hide Judge;
    if i == |page| {
      assert page[..i] == page;
    } else {
      assert page[..|page| - 1][..i] == page[..i];
      PrefixMessages(page[..|page| - 1], i, world);
    }
  }

  // ---------------------------------------------------------------------------------------------------------- the walk

  /** The rows the walk asks for: those with a protobuf. */
  function WithProtobuf(table: Table, protobuf: Content -> Protobuf): Table
  {
    map key | key in table && protobuf(table[key]).size > 0 :: table[key]
  }

  /** The index at the nth page; the pass itself writes nothing to it. */
  function TableAt(start: Table, others: nat -> Table, n: nat): Table
  {
    if n == 0 then start + others(0) else TableAt(start, others, n - 1) + others(n)
  }

  /** The rows that had a protobuf at each of the first `n` pages. */
  ghost function Steady(start: Table, world: Surroundings, universe: set<Key>, n: nat): set<Key>
  {
    if n == 0 then universe
    else Steady(start, world, universe, n - 1)
         * WithProtobuf(TableAt(start, world.others, n - 1), world.protobuf).Keys
  }

  ghost predicate Orderly(world: Surroundings, universe: set<Key>)
  {
    && Lawful(world.query) && world.limit > 0 && OneRowPerPosition(universe)
    && (forall n :: world.others(n).Keys <= universe)
    && forall n, page :: multiset(world.finish(n, page)) == multiset(page)
  }

  lemma {:induction false} WithinUniverse(start: Table, world: Surroundings, universe: set<Key>, n: nat)
    requires Orderly(world, universe) && start.Keys <= universe
    ensures TableAt(start, world.others, n).Keys <= universe
  {
    hide Lawful, OneRowPerPosition;
    if n > 0 {
      WithinUniverse(start, world, universe, n - 1);
    }
  }

  lemma SeenOfFewer(visited: seq<Row>, start: set<Key>, fewer: set<Key>, cursor: Option<Position>)
    requires Seen(visited, start, cursor) && fewer <= start
    ensures Seen(visited, fewer, cursor)
  {
  }

  lemma PageEnds(universe: set<Key>, cursor: Option<Position>, page: seq<Row>, next: Position, table: Table)
    requires IsPage(table, cursor, page, Some(next)) && table.Keys <= universe
    ensures |Ahead(universe, Some(next))| < |Ahead(universe, cursor)|
  {
    PageEndsAhead(universe, cursor, page, Some(next), table);
  }

  lemma PageWithin(table: Table, cursor: Option<Position>, page: seq<Row>, next: Option<Position>, universe: set<Key>)
    requires IsPage(table, cursor, page, next) && table.Keys <= universe
    ensures forall i :: 0 <= i < |page| ==> page[i].key in universe
  {
  }

  /** The index once `n` pages were answered. */
  function After(start: Table, others: nat -> Table, n: nat): Table
  {
    if n == 0 then start else TableAt(start, others, n - 1)
  }

  /** Each of the first `n` page queries is answered. */
  predicate Asked(world: Surroundings, n: nat)
  {
    forall k :: 0 <= k < n ==> world.asks(k)
  }

  /** What handling one more page adds, in the order of the walk and in the order it is handled. */
  lemma Handled(visited: seq<Row>, handled: seq<Row>, page: seq<Row>, finished: seq<Row>, n: nat, world: Surroundings,
                universe: set<Key>)
    requires Orderly(world, universe) && finished == world.finish(n, page) && multiset(handled) == multiset(visited)
    ensures multiset(handled + finished) == multiset(visited + page)
    ensures Messages(handled + finished, world) == Messages(handled, world) + Messages(finished, world)
    ensures CountUnread(handled + finished, world) == CountUnread(handled, world) + CountUnread(finished, world)
    ensures CountUnparsable(handled + finished, world)
         == CountUnparsable(handled, world) + CountUnparsable(finished, world)
    ensures AllGo(visited + page, world) <==> AllGo(visited, world) && AllGo(finished, world)
    ensures Asked(world, n) && world.asks(n) ==> Asked(world, n + 1)
  {
    hide Messages, CountUnread, CountUnparsable, Goes, Lawful, OneRowPerPosition;
    PagesAdd(handled, finished, world);
    SameRows(page, finished, world);
    forall i | 0 <= i < |page|
      ensures (visited + page)[|visited| + i] == page[i]
    {
    }
    assert AllGo(visited + page, world) ==> AllGo(visited, world) && AllGo(page, world) by {
      if AllGo(visited + page, world) {
        assert forall i :: 0 <= i < |visited| ==> (visited + page)[i] == visited[i];
      }
    }
  }

  lemma PageSeen(start: Table, world: Surroundings, universe: set<Key>, n: nat, visited: seq<Row>,
                 cursor: Option<Position>, page: seq<Row>, next: Option<Position>, table: Table)
    requires Orderly(world, universe) && start.Keys <= universe && table == TableAt(start, world.others, n)
    requires Descending(visited) && Seen(visited, Steady(start, world, universe, n), cursor)
    requires IsPage(WithProtobuf(table, world.protobuf), cursor, page, next)
    requires forall i :: 0 <= i < |visited| ==> visited[i].key in universe
    ensures Descending(visited + page)
    ensures forall i :: 0 <= i < |visited + page| ==> (visited + page)[i].key in universe
    ensures next.Some? ==>
              && Seen(visited + page, Steady(start, world, universe, n + 1), next)
              && |Ahead(universe, next)| < |Ahead(universe, cursor)|
    ensures next.None? ==> forall key :: key in Steady(start, world, universe, n + 1) ==> Holds(visited + page, key)
  {
    hide Orderly, Seen, Ahead, IsPage, WithProtobuf, Steady, TableAt;
    var shown := WithProtobuf(table, world.protobuf);
    OnTo(start, world, universe, n);
    PageWithin(shown, cursor, page, next, universe);
    SeenOfFewer(visited, Steady(start, world, universe, n), Steady(start, world, universe, n + 1), cursor);
    SeenGrows(visited, Steady(start, world, universe, n + 1), cursor, page, next, shown);
    if next.Some? {
      PageEnds(universe, cursor, page, next.value, shown);
    }
  }

  // ----------------------------------------------------------------------------------------- what is sent, and counted

  /** A row with a protobuf, both of whose frames are read, and which converts to these bytes. */
  predicate Yields(row: Row, world: Surroundings, bytes: nat)
  {
    && world.protobuf(row.content).size > 0 && world.protobuf(row.content).offset > 0
    && world.readable(row.key) && world.convert(row.content) == Some(bytes)
  }

  predicate IsMessageOf(row: Row, world: Surroundings, message: Message)
  {
    row.key == message.key && Yields(row, world, message.bytes)
  }

  ghost predicate HasMessage(rows: seq<Row>, world: Surroundings, message: Message)
  {
    exists i :: 0 <= i < |rows| && IsMessageOf(rows[i], world, message)
  }

  /** The message of each row that yields one, once, and nothing else; or some of these. */
  ghost predicate Sends(rows: seq<Row>, world: Surroundings, sent: seq<Message>)
  {
    forall message :: multiset(sent)[message] == if HasMessage(rows, world, message) then 1 else 0
  }

  ghost predicate SendsSome(rows: seq<Row>, world: Surroundings, sent: seq<Message>)
  {
    forall message :: multiset(sent)[message] <= if HasMessage(rows, world, message) then 1 else 0
  }

  /** A row with a protobuf that could not be read, and one that could and does not convert. */
  predicate IsUnreadable(row: Row, world: Surroundings)
  {
    world.protobuf(row.content).size > 0 && world.protobuf(row.content).offset > 0 && !world.readable(row.key)
  }

  predicate IsUnparsable(row: Row, world: Surroundings)
  {
    && world.protobuf(row.content).size > 0 && world.protobuf(row.content).offset > 0
    && world.readable(row.key) && world.convert(row.content).None?
  }

  ghost function Unreadable(rows: seq<Row>, world: Surroundings): set<nat>
  {
    set i: nat | i < |rows| && IsUnreadable(rows[i], world)
  }

  ghost function Unparsable(rows: seq<Row>, world: Surroundings): set<nat>
  {
    set i: nat | i < |rows| && IsUnparsable(rows[i], world)
  }

  lemma JudgeIs(row: Row, world: Surroundings)
    ensures Judge(row, world).Unread? <==> IsUnreadable(row, world)
    ensures Judge(row, world).Unconvertible? <==> IsUnparsable(row, world)
    ensures forall bytes :: Judge(row, world) == Converts(bytes) <==> Yields(row, world, bytes)
  {
  }

  lemma {:induction false} MessageIsSent(rows: seq<Row>, world: Surroundings, message: Message)
    requires Descending(rows)
    ensures multiset(Messages(rows, world))[message] == if HasMessage(rows, world, message) then 1 else 0
  {
    hide Judge, Yields;
    if rows != [] {
      var n := |rows| - 1;
      var earlier := rows[..n];
      MessageIsSent(earlier, world, message);
      JudgeIs(rows[n], world);
      assert forall i :: 0 <= i < n ==> earlier[i] == rows[i];
      assert HasMessage(rows, world, message) <==>
               HasMessage(earlier, world, message) || IsMessageOf(rows[n], world, message) by {
        if i :| 0 <= i < n && IsMessageOf(earlier[i], world, message) {
          assert IsMessageOf(rows[i], world, message);
        }
      }
      if i :| 0 <= i < n && IsMessageOf(earlier[i], world, message) {
        assert rows[i].key != rows[n].key;
      }
    }
  }

  lemma MessagesAreSent(rows: seq<Row>, world: Surroundings)
    requires Descending(rows)
    ensures Sends(rows, world, Messages(rows, world))
  {
    hide Messages, HasMessage;
    forall message
      ensures multiset(Messages(rows, world))[message] == if HasMessage(rows, world, message) then 1 else 0
    {
      MessageIsSent(rows, world, message);
    }
  }

  lemma SentAll(visited: seq<Row>, handled: seq<Row>, world: Surroundings)
    requires Descending(visited) && multiset(handled) == multiset(visited)
    ensures Sends(visited, world, Messages(handled, world))
  {
    OrderIsNoMatter(handled, visited, world);
    MessagesAreSent(visited, world);
  }

  lemma SentSome(visited: seq<Row>, handled: seq<Row>, world: Surroundings, sent: seq<Message>)
    requires Descending(visited) && multiset(handled) == multiset(visited) && sent <= Messages(handled, world)
    ensures SendsSome(visited, world, sent)
  {
    SentAll(visited, handled, world);
    var all := Messages(handled, world);
    assert all == sent + all[|sent|..];
    assert multiset(sent) <= multiset(all);
  }

  lemma {:induction false} CountsAre(rows: seq<Row>, world: Surroundings)
    ensures CountUnread(rows, world) == |Unreadable(rows, world)|
    ensures CountUnparsable(rows, world) == |Unparsable(rows, world)|
  {
    hide Judge, IsUnreadable, IsUnparsable, Unreadable, Unparsable;
    if rows == [] {
      NoneCounted(world);
    } else {
      var n := |rows| - 1;
      CountsAre(rows[..n], world);
      JudgeIs(rows[n], world);
      OneMoreUnreadable(rows, n, world);
      OneMoreUnparsable(rows, n, world);
    }
  }

  lemma OneMoreUnreadable(rows: seq<Row>, n: nat, world: Surroundings)
    requires |rows| == n + 1
    ensures |Unreadable(rows, world)|
         == |Unreadable(rows[..n], world)| + if IsUnreadable(rows[n], world) then 1 else 0
  {
    hide IsUnreadable;
    assert forall i :: 0 <= i < n ==> rows[..n][i] == rows[i];
    assert Unreadable(rows, world) == Unreadable(rows[..n], world) + if IsUnreadable(rows[n], world) then {n} else {};
  }

  lemma OneMoreUnparsable(rows: seq<Row>, n: nat, world: Surroundings)
    requires |rows| == n + 1
    ensures |Unparsable(rows, world)|
         == |Unparsable(rows[..n], world)| + if IsUnparsable(rows[n], world) then 1 else 0
  {
    hide IsUnparsable;
    assert forall i :: 0 <= i < n ==> rows[..n][i] == rows[i];
    assert Unparsable(rows, world) == Unparsable(rows[..n], world) + if IsUnparsable(rows[n], world) then {n} else {};
  }

  lemma NoneCounted(world: Surroundings)
    ensures Unreadable([], world) == {} && Unparsable([], world) == {}
  {
  }

  /** Every message goes exactly when what each row yields parses and its produce is answered. */
  lemma AllGoIff(rows: seq<Row>, world: Surroundings)
    ensures AllGo(rows, world) <==>
              forall i, bytes :: 0 <= i < |rows| && Yields(rows[i], world, bytes) ==>
                world.parses(bytes) && world.produce(rows[i].key) == Done
  {
    forall i | 0 <= i < |rows|
      ensures Goes(rows[i], world) <==>
                forall bytes :: Yields(rows[i], world, bytes) ==>
                  world.parses(bytes) && world.produce(rows[i].key) == Done
    {
      if Judge(rows[i], world).Converts? {
        assert Yields(rows[i], world, Judge(rows[i], world).bytes);
      }
    }
  }

  /** The row was there with a protobuf when the `k`th page was asked for. */
  predicate HadProtobuf(start: Table, world: Surroundings, key: Key, k: nat)
  {
    var table := TableAt(start, world.others, k);
    key in table && world.protobuf(table[key]).size > 0
  }

  /** The rows a walk promises to visit had a protobuf whenever a page was asked for. */
  lemma {:induction false} SteadyIs(start: Table, world: Surroundings, universe: set<Key>, n: nat, key: Key)
    ensures key in Steady(start, world, universe, n) <==>
              key in universe && forall k: nat :: k < n ==> HadProtobuf(start, world, key, k)
  {
    hide HadProtobuf, WithProtobuf, TableAt;
    if n > 0 {
      SteadyIs(start, world, universe, n - 1, key);
      ShownIs(start, world, key, n - 1);
    }
  }

  lemma ShownIs(start: Table, world: Surroundings, key: Key, k: nat)
    ensures key in WithProtobuf(TableAt(start, world.others, k), world.protobuf).Keys <==>
              HadProtobuf(start, world, key, k)
  {
    hide TableAt;
  }

  class Corpus {
    var table: Table
    var topic: seq<Message>
    var marked: bool

    constructor (table: Table)
      ensures this.table == table && topic == [] && !marked
    {
      this.table, topic, marked := table, [], false;
    }

    /** Walks the rows with a protobuf and produces what they convert to. A walk that gets to its end has visited every
        row that had a protobuf throughout, once, newest first; it has sent, once each, exactly the messages of those
        that convert, carrying what they convert to; and it has counted those that could not be read and those that do
        not convert. One that does not get there has sent some of them. `handled` is the same rows in the order they
        were handled. */
    method Walk(world: Surroundings, ghost universe: set<Key>)
      returns (result: Result<Progress, ()>, ghost visited: seq<Row>, ghost handled: seq<Row>, ghost pages: nat)
      requires Orderly(world, universe) && table.Keys <= universe
      modifies this`table, this`topic
      ensures table == After(old(table), world.others, pages)
      ensures forall i :: 0 <= i < |visited| ==> visited[i].key in universe
      ensures Descending(visited) && multiset(handled) == multiset(visited)
      ensures old(topic) <= topic <= old(topic) + Messages(handled, world)
      ensures result.Success? ==> Asked(world, pages) && AllGo(visited, world)
      ensures result.Failure? ==> !world.asks(pages) || !AllGo(visited, world)
      ensures SendsSome(visited, world, topic[|old(topic)|..])
      ensures result.Success? ==>
                && Sends(visited, world, topic[|old(topic)|..]) && result.value.rewritten == |topic| - |old(topic)|
                && result.value.unreadable == |Unreadable(visited, world)|
                && result.value.unparsable == |Unparsable(visited, world)|
      ensures result.Success? ==>
                && topic == old(topic) + Messages(handled, world)
                && |visited| == result.value.scanned && result.value.unreadable == CountUnread(visited, world)
                && forall key :: key in Steady(old(table), world, universe, pages) ==> Holds(visited, key)
    {
      hide *;
      ghost var start, sent := table, topic;
      var progress := Progress(0, 0, 0, 0);
      var cursor: Option<Position> := None;
      var n := 0;
      visited, handled, pages := [], [], 0;
      NothingSeenYet(start, world, universe);
      assert topic + [] == topic;
      while true
        invariant pages == n && table == After(start, world.others, n)
        invariant Descending(visited) && Seen(visited, Steady(start, world, universe, n), cursor)
        invariant multiset(handled) == multiset(visited) && topic == sent + Messages(handled, world)
        invariant |visited| == progress.scanned && progress.rewritten == |Messages(handled, world)|
        invariant progress.unreadable == CountUnread(handled, world)
        invariant progress.unparsable == CountUnparsable(handled, world)
        invariant Asked(world, n) && AllGo(visited, world)
        invariant forall i :: 0 <= i < |visited| ==> visited[i].key in universe
        decreases |Ahead(universe, cursor)|
      {
        if !world.asks(n) {
          assert topic[|sent|..] == Messages(handled, world);
          SentSome(visited, handled, world, topic[|sent|..]);
          return Failure(()), visited, handled, pages;
        }
        ghost var before := topic;
        table := table + world.others(n);
        pages := n + 1;
        OnTo(start, world, universe, n);
        var page, next := Page(WithProtobuf(table, world.protobuf), world.query, cursor, world.limit);
        var finished := world.finish(n, page);
        Handled(visited, handled, page, finished, n, world, universe);
        PageSeen(start, world, universe, n, visited, cursor, page, next, table);
        var rewritten, unreadable, unparsable, ok;
        topic, rewritten, unreadable, unparsable, ok := ConvertPage(finished, world, topic);
        assert sent + (Messages(handled, world) + Messages(finished, world)) == before + Messages(finished, world);
        visited, handled := visited + page, handled + finished;
        assert topic[|sent|..] <= Messages(handled, world);
        if !ok {
          SentSome(visited, handled, world, topic[|sent|..]);
          return Failure(()), visited, handled, pages;
        }
        progress := Progress(progress.scanned + |page|, progress.rewritten + rewritten,
                             progress.unreadable + unreadable, progress.unparsable + unparsable);
        if next.None? {
          OrderIsNoMatter(handled, visited, world);
          assert topic[|sent|..] == Messages(handled, world);
          SentSome(visited, handled, world, topic[|sent|..]);
          SentAll(visited, handled, world);
          CountsAre(visited, world);
          return Success(progress), visited, handled, pages;
        }
        cursor := next;
        n := n + 1;
      }
    }

    /** The pass as a process runs it when it starts. It is marked done by any walk that gets to its end, whatever it
        could not read: such a walk has read every row exactly when its count of unreadable rows, which nothing looks
        at, is zero. */
    method ReconvertStoredRecords(world: Surroundings, ghost universe: set<Key>, done: Result<bool, ()>, mark: Outcome)
      returns (result: Option<Result<Progress, ()>>, ghost visited: seq<Row>, ghost handled: seq<Row>,
               ghost pages: nat)
      requires Orderly(world, universe) && table.Keys <= universe
      requires done.Success? ==> done.value == marked
      modifies this
      ensures result.None? <==> done.Failure? || old(marked)
      ensures result.None? ==> table == old(table) && topic == old(topic) && marked == old(marked)
      ensures result.Some? ==>
                && table == After(old(table), world.others, pages)
                && Descending(visited) && (forall i :: 0 <= i < |visited| ==> visited[i].key in universe)
                && multiset(handled) == multiset(visited)
                && old(topic) <= topic <= old(topic) + Messages(handled, world)
                && (result.value.Success? ==> Asked(world, pages) && AllGo(visited, world))
                && (result.value.Failure? ==> !world.asks(pages) || !AllGo(visited, world))
                && (marked <==> result.value.Success? && mark.Landed())
      ensures result.Some? && result.value.Success? ==>
                && topic == old(topic) + Messages(handled, world) && |visited| == result.value.value.scanned
                && result.value.value.unreadable == CountUnread(visited, world)
                && (forall key :: key in Steady(old(table), world, universe, pages) ==> Holds(visited, key))
                && (result.value.value.IsComplete() <==> AllRead(visited, world))
                && Sends(visited, world, topic[|old(topic)|..])
    {
      visited, handled, pages := [], [], 0;
      if done.Failure? || done.value {
        return None, visited, handled, pages;
      }
      hide Orderly, Seen, Judge, Messages, CountUnread, AllGo, Asked, Steady, After, AllRead, Sends, SendsSome;
      var walked;
      walked, visited, handled, pages := Walk(world, universe);
      if walked.Success? {
        CountIsNone(visited, world);
        if mark.Landed() {
          marked := true;
        }
      }
      result := Some(walked);
    }
  }

  lemma {:induction false} NothingChanges(start: Table, world: Surroundings, universe: set<Key>, key: Key, n: nat)
    requires key in start && key in universe && world.protobuf(start[key]).size > 0
    requires forall i :: world.others(i) == map[]
    ensures TableAt(start, world.others, n) == start && key in Steady(start, world, universe, n)
  {
    if n > 0 {
      NothingChanges(start, world, universe, key, n - 1);
    }
  }

  /** A corpus of one record whose bytes cannot be read is marked done with the record unread. */
  method MarkedUnread(query: Query, key: Key) returns (corpus: Corpus, progress: Progress)
    requires Lawful(query)
    ensures fresh(corpus) && corpus.marked && corpus.topic == []
    ensures progress.scanned == 1 && progress.unreadable == 1 && !progress.IsComplete()
  {
    hide Lawful, Steady, Messages;
    var content := Content(0, None, None);
    var world := Surroundings(query, _ => true, 1_000, (n, page) => page, _ => Protobuf(8, 1), _ => false,
                              _ => Some(0), _ => true, _ => Done, _ => map[]);
    assert Orderly(world, {key});
    corpus := new Corpus(map[key := content]);
    var result, visited, handled, pages := corpus.ReconvertStoredRecords(world, {key}, Success(false), Done);
    NothingChanges(map[key := content], world, {key}, key, pages);
    assert forall i :: 0 <= i < |visited| ==> Judge(visited[i], world) == Unread && visited[i].key == key;
    assert Holds(visited, key);
    OneRow(visited, key);
    OneUnread(visited, world);
    SameRows(visited, handled, world);
    assert handled[0] in multiset(visited);
    OneUnread(handled, world);
    progress := result.value.value;
  }

  lemma OneRow(visited: seq<Row>, key: Key)
    requires Descending(visited) && Holds(visited, key) && forall i :: 0 <= i < |visited| ==> visited[i].key == key
    ensures |visited| == 1
  {
    assert |visited| > 1 ==> Less(visited[1].key.pos, visited[0].key.pos);
  }

  lemma OneUnread(rows: seq<Row>, world: Surroundings)
    requires |rows| == 1 && Judge(rows[0], world).Unread?
    ensures Messages(rows, world) == [] && CountUnread(rows, world) == 1
  {
    assert rows[..0] == [];
  }

  lemma NothingSeenYet(start: Table, world: Surroundings, universe: set<Key>)
    ensures Seen([], Steady(start, world, universe, 0), None)
    ensures Messages([], world) == [] && CountUnread([], world) == 0
    ensures CountUnparsable([], world) == 0
    ensures After(start, world.others, 0) == start && Asked(world, 0) && AllGo([], world)
  {
  }

  /** What the next page is asked of. */
  lemma OnTo(start: Table, world: Surroundings, universe: set<Key>, n: nat)
    requires Orderly(world, universe) && start.Keys <= universe
    ensures var table := After(start, world.others, n) + world.others(n);
            var shown := WithProtobuf(table, world.protobuf);
            && table == TableAt(start, world.others, n) == After(start, world.others, n + 1)
            && shown.Keys <= universe && OneRowPerPosition(shown.Keys)
            && Steady(start, world, universe, n + 1) <= shown.Keys
            && Steady(start, world, universe, n + 1) <= Steady(start, world, universe, n)
    ensures Lawful(world.query) && world.limit > 0
  {
    WithinUniverse(start, world, universe, n);
  }
}
