/** How a batch becomes produce requests: routed to partitions, then split into chunks the broker takes.
    `src/kafka.rs`. */
module ProduceChunks {
  import opened Prelude

  /** A record of the batch: which it is, where it goes, and its size on the wire. */
  datatype Record = Record(id: nat, size: nat)

  function BytesOf(records: seq<Record>): nat
  {
    if records == [] then 0 else BytesOf(records[..|records| - 1]) + records[|records| - 1].size
  }

  lemma {:induction false} BytesOfConcat(a: seq<Record>, b: seq<Record>)
    ensures BytesOf(a + b) == BytesOf(a) + BytesOf(b)
  {
    if b == [] {
      assert a + b == a;
    } else {
      assert (a + b)[..|a + b| - 1] == a + b[..|b| - 1];
      BytesOfConcat(a, b[..|b| - 1]);
    }
  }

  predicate Sendable(chunk: seq<Record>)
  {
    chunk != [] && (|chunk| == 1 || BytesOf(chunk) <= 786_432)
  }

  ghost predicate AllSendable(chunks: seq<seq<Record>>)
  {
    forall i :: 0 <= i < |chunks| ==> Sendable(chunks[i])
  }

  /** A chunk could not have taken the first record of the next one. */
  predicate NoRoom(chunk: seq<Record>, next: seq<Record>)
  {
    next != [] && BytesOf(chunk) + next[0].size > 786_432
  }

  ghost predicate Full(chunks: seq<seq<Record>>)
  {
    forall i, j :: 0 <= i < j < |chunks| && j == i + 1 ==> NoRoom(chunks[i], chunks[j])
  }

  /** `chunks` is `records` in order, each chunk can be sent, and each was filled as far as it would go. */
  ghost predicate GreedySplit(chunks: seq<seq<Record>>, records: seq<Record>)
  {
    Flatten(chunks) == records && AllSendable(chunks) && Full(chunks)
  }

  lemma NothingToSplit()
    ensures GreedySplit([], [])
  {
  }

  lemma ExtendLast(chunks: seq<seq<Record>>, current: seq<Record>, record: Record, records: seq<Record>)
    requires GreedySplit(chunks + [current], records) && current != []
    requires BytesOf(current) + record.size <= MAX_PRODUCE_BATCH_BYTES
    ensures GreedySplit(chunks + [current + [record]], records + [record])
    ensures BytesOf(current + [record]) == BytesOf(current) + record.size
  {
    FlattenSnoc(chunks, current);
    FlattenSnoc(chunks, current + [record]);
    assert (current + [record])[..|current|] == current;
    hide Flatten, BytesOf;
    var before, after := chunks + [current], chunks + [current + [record]];
    forall i, j | 0 <= i < j < |after| && j == i + 1
      ensures NoRoom(after[i], after[j])
    {
      assert NoRoom(before[i], before[j]);
    }
    assert AllSendable(after) by {
      assert forall i :: 0 <= i < |chunks| ==> after[i] == before[i];
    }
  }

  lemma StartNext(chunks: seq<seq<Record>>, record: Record, records: seq<Record>)
    requires GreedySplit(chunks, records)
    requires chunks != [] ==> BytesOf(chunks[|chunks| - 1]) + record.size > MAX_PRODUCE_BATCH_BYTES
    ensures GreedySplit(chunks + [[record]], records + [record])
    ensures BytesOf([record]) == record.size
  {
    FlattenSnoc(chunks, [record]);
    assert [record][..0] == [] && BytesOf([]) == 0;
    hide Flatten, BytesOf;
    var after := chunks + [[record]];
    forall i, j | 0 <= i < j < |after| && j == i + 1
      ensures NoRoom(after[i], after[j])
    {
      if j < |chunks| {
        assert NoRoom(chunks[i], chunks[j]);
      }
    }
  }

  method Chunk(records: seq<Record>) returns (chunks: seq<seq<Record>>)
    ensures GreedySplit(chunks, records)
  {
    chunks := [];
    var current: seq<Record> := [];
    var currentBytes := 0;
    for i := 0 to |records|
      invariant currentBytes == BytesOf(current)
      invariant i == 0 ==> chunks == [] && current == []
      invariant i > 0 ==> current != [] && GreedySplit(chunks + [current], records[..i])
    {
      hide GreedySplit, BytesOf;
      var record := records[i];
      assert records[..i + 1] == records[..i] + [record];
      if current != [] && currentBytes + record.size > MAX_PRODUCE_BATCH_BYTES {
        chunks := chunks + [current];
        current := [];
        currentBytes := 0;
      }
      if current == [] {
        NothingToSplit();
        StartNext(chunks, record, records[..i]);
        assert [] + [record] == [record];
      } else {
        ExtendLast(chunks, current, record, records[..i]);
      }
      currentBytes := currentBytes + record.size;
      current := current + [record];
    }
    assert records[..|records|] == records;
    if current != [] {
      chunks := chunks + [current];
    }
  }

  // ---------------------------------------------------------------------------------------------- fewest requests

  /** How many records the first `n` parts hold. */
  function Reach(parts: seq<seq<Record>>, n: nat): nat
    requires n <= |parts|
  {
    |Flatten(parts[..n])|
  }

  lemma ReachStep(parts: seq<seq<Record>>, n: nat)
    requires n < |parts|
    ensures Reach(parts, n + 1) == Reach(parts, n) + |parts[n]|
    ensures Flatten(parts[..n + 1]) == Flatten(parts[..n]) + parts[n]
  {
    assert parts[..n + 1] == parts[..n] + [parts[n]];
    FlattenSnoc(parts[..n], parts[n]);
  }

  /** The first parts of a split are a prefix of the whole. */
  lemma {:induction false} PartsArePrefix(parts: seq<seq<Record>>, n: nat)
    requires n <= |parts|
    ensures Flatten(parts[..n]) <= Flatten(parts)
    decreases |parts| - n
  {
    if n == |parts| {
      assert parts[..n] == parts;
    } else {
      ReachStep(parts, n);
      PartsArePrefix(parts, n + 1);
    }
  }

  /** A part of a split is the stretch of the whole between where it starts and where it ends. */
  lemma PartIsSlice(parts: seq<seq<Record>>, whole: seq<Record>, n: nat)
    requires Flatten(parts) == whole && n < |parts|
    ensures Reach(parts, n) + |parts[n]| == Reach(parts, n + 1) <= |whole|
    ensures whole[Reach(parts, n)..Reach(parts, n + 1)] == parts[n]
  {
    ReachStep(parts, n);
    PartsArePrefix(parts, n + 1);
    var before, after := Flatten(parts[..n]), Flatten(parts[..n + 1]);
    assert whole[..|after|] == after == before + parts[n];
    assert whole[|before|..|after|] == after[|before|..];
  }

  /** More records are at least as many bytes. */
  lemma BytesOfSlice(whole: seq<Record>, a: nat, b: nat, c: nat, d: nat)
    requires a <= b <= c <= d <= |whole|
    ensures BytesOf(whole[b..c]) <= BytesOf(whole[a..d])
  {
    assert whole[a..d] == whole[a..b] + whole[b..c] + whole[c..d];
    BytesOfConcat(whole[a..b] + whole[b..c], whole[c..d]);
    BytesOfConcat(whole[a..b], whole[b..c]);
  }

  /** A part of `other` that starts no later than a full chunk and ends beyond it holds that chunk and one record
      more, which is too much. */
  lemma TooMuch(whole: seq<Record>, from: nat, start: nat, end: nat, to: nat)
    requires from <= start < end < to <= |whole|
    requires BytesOf(whole[start..end]) + whole[end].size > MAX_PRODUCE_BATCH_BYTES
    ensures !Sendable(whole[from..to])
  {
    assert whole[start..end + 1] == whole[start..end] + [whole[end]];
    BytesOfConcat(whole[start..end], [whole[end]]);
    assert [whole[end]][..0] == [] && BytesOf([whole[end]]) == whole[end].size;
    BytesOfSlice(whole, from, start, end + 1, to);
  }

  /** After any number of chunks, a greedy split has covered at least as much as any other has with as many parts. */
  lemma {:induction false} GreedyStaysAhead(greedy: seq<seq<Record>>, other: seq<seq<Record>>, whole: seq<Record>, n: nat)
    requires GreedySplit(greedy, whole) && Flatten(other) == whole && AllSendable(other)
    requires n <= |greedy| && n <= |other|
    ensures Reach(greedy, n) >= Reach(other, n)
  {
    if n > 0 {
      GreedyStaysAhead(greedy, other, whole, n - 1);
      Overtaken(greedy, other, whole, n - 1);
    }
  }

  /** A chunk before the last could not have taken the record that follows it. */
  lemma NextRecord(greedy: seq<seq<Record>>, whole: seq<Record>, n: nat)
    requires GreedySplit(greedy, whole) && n + 1 < |greedy|
    ensures Reach(greedy, n) < Reach(greedy, n + 1) < |whole|
    ensures BytesOf(whole[Reach(greedy, n)..Reach(greedy, n + 1)]) + whole[Reach(greedy, n + 1)].size
          > MAX_PRODUCE_BATCH_BYTES
  {
    assert NoRoom(greedy[n], greedy[n + 1]) && Sendable(greedy[n]) && Sendable(greedy[n + 1]);
    hide BytesOf, Flatten, Reach, AllSendable, Full;
    PartIsSlice(greedy, whole, n);
    PartIsSlice(greedy, whole, n + 1);
    FirstOfSlice(whole, Reach(greedy, n + 1), Reach(greedy, n + 2));
  }

  lemma FirstOfSlice(whole: seq<Record>, from: nat, to: nat)
    requires from < to <= |whole|
    ensures whole[from..to][0] == whole[from]
  {
  }

  lemma Overtaken(greedy: seq<seq<Record>>, other: seq<seq<Record>>, whole: seq<Record>, n: nat)
    requires GreedySplit(greedy, whole) && Flatten(other) == whole && AllSendable(other)
    requires n < |greedy| && n < |other|
    requires Reach(greedy, n) >= Reach(other, n)
    ensures Reach(greedy, n + 1) >= Reach(other, n + 1)
  {
    hide *;
    PartIsSlice(other, whole, n);
    SplitIsWhole(greedy, whole);
    SendableAt(other, n);
    if n + 1 < |greedy| {
      NextRecord(greedy, whole, n);
      if Reach(other, n + 1) > Reach(greedy, n + 1) {
        TooMuch(whole, Reach(other, n), Reach(greedy, n), Reach(greedy, n + 1), Reach(other, n + 1));
      }
    } else {
      ReachAll(greedy);
    }
  }

  lemma SplitIsWhole(greedy: seq<seq<Record>>, whole: seq<Record>)
    requires GreedySplit(greedy, whole)
    ensures Flatten(greedy) == whole
  {
  }

  lemma SendableAt(chunks: seq<seq<Record>>, n: nat)
    requires AllSendable(chunks) && n < |chunks|
    ensures Sendable(chunks[n])
  {
  }

  lemma ReachAll(parts: seq<seq<Record>>)
    ensures Reach(parts, |parts|) == |Flatten(parts)|
  {
    assert parts[..|parts|] == parts;
  }

  /** No other split that keeps the order and the rule uses fewer requests. */
  lemma FewestChunks(greedy: seq<seq<Record>>, other: seq<seq<Record>>, records: seq<Record>)
    requires GreedySplit(greedy, records) && Flatten(other) == records && AllSendable(other)
    ensures |greedy| <= |other|
  {
    hide BytesOf, Flatten, Reach;
    if |greedy| > |other| {
      assert Sendable(greedy[|other|]);
      ReachAll(other);
      PartIsSlice(greedy, records, |other|);
      GreedyStaysAhead(greedy, other, records, |other|);
    }
  }

  // -------------------------------------------------------------------------------------------------------- routing

  /** The records of a batch that belong to one of `partitions` partitions, in order. */
  function RoutedTo(records: seq<Record>, partitions: nat, part: nat): seq<Record>
    requires partitions > 0
  {
    if records == [] then []
    else
      var n := |records| - 1;
      RoutedTo(records[..n], partitions, part)
      + if records[n].id % partitions == part then [records[n]] else []
  }

  method Route(records: seq<Record>, partitions: nat) returns (routed: seq<seq<Record>>)
    requires partitions > 0
    ensures |routed| == partitions
    ensures forall p :: 0 <= p < partitions ==> routed[p] == RoutedTo(records, partitions, p)
  {
    routed := seq(partitions, _ => []);
    for i := 0 to |records|
      invariant |routed| == partitions
      invariant forall p :: 0 <= p < partitions ==> routed[p] == RoutedTo(records[..i], partitions, p)
    {
      assert records[..i + 1][..i] == records[..i];
      var part := records[i].id % partitions;
      routed := routed[part := routed[part] + [records[i]]];
    }
    assert records[..|records|] == records;
  }

  /** The first `n` partitions together hold exactly the records that belong to one of them. */
  lemma {:induction false} RoutedBelow(records: seq<Record>, partitions: nat, routed: seq<seq<Record>>)
    requires partitions > 0 && |routed| <= partitions
    requires forall p :: 0 <= p < |routed| ==> routed[p] == RoutedTo(records, partitions, p)
    ensures multiset(Flatten(routed)) == multiset(Below(records, partitions, |routed|))
  {
    if routed == [] {
      BelowNone(records, partitions);
    } else {
      var n := |routed| - 1;
      RoutedBelow(records, partitions, routed[..n]);
      BelowSplits(records, partitions, n);
    }
  }

  /** Routing loses nothing and invents nothing. */
  lemma RoutingLosesNothing(records: seq<Record>, routed: seq<seq<Record>>)
    requires routed != [] && forall p :: 0 <= p < |routed| ==> routed[p] == RoutedTo(records, |routed|, p)
    ensures multiset(Flatten(routed)) == multiset(records)
  {
    RoutedBelow(records, |routed|, routed);
    BelowAll(records, |routed|);
  }

  /** `first` stands somewhere before `second`. */
  ghost predicate InOrder(share: seq<Record>, first: Record, second: Record)
  {
    exists a, b :: 0 <= a < b < |share| && share[a] == first && share[b] == second
  }

  lemma InOrderGrows(share: seq<Record>, more: seq<Record>, first: Record, second: Record)
    ensures InOrder(share, first, second) ==> InOrder(share + more, first, second)
    ensures first in share ==> InOrder(share + [second], first, second)
  {
    if InOrder(share, first, second) {
      var a, b :| 0 <= a < b < |share| && share[a] == first && share[b] == second;
      assert (share + more)[a] == first && (share + more)[b] == second;
    }
    if first in share {
      var a :| 0 <= a < |share| && share[a] == first;
      assert (share + [second])[a] == first && (share + [second])[|share|] == second;
    }
  }

  /** Two messages of one record land in one partition, in the order they were handed over. */
  lemma {:induction false} RoutingKeepsOrder(records: seq<Record>, partitions: nat, i: nat, j: nat)
    requires partitions > 0 && i < j < |records| && records[i].id == records[j].id
    ensures InOrder(RoutedTo(records, partitions, records[i].id % partitions), records[i], records[j])
    decreases |records|
  {
    hide InOrder;
    var n := |records| - 1;
    var part := records[i].id % partitions;
    var before := RoutedTo(records[..n], partitions, part);
    if j < n {
      RoutingKeepsOrder(records[..n], partitions, i, j);
      InOrderGrows(before, if records[n].id % partitions == part then [records[n]] else [], records[i], records[j]);
    } else {
      RoutedHolds(records[..n], partitions, i);
      InOrderGrows(before, [], records[i], records[j]);
    }
  }

  lemma {:induction false} RoutedHolds(records: seq<Record>, partitions: nat, i: nat)
    requires partitions > 0 && i < |records|
    ensures records[i] in RoutedTo(records, partitions, records[i].id % partitions)
    decreases |records|
  {
    if i < |records| - 1 {
      RoutedHolds(records[..|records| - 1], partitions, i);
    }
  }

  /** The records that belong to the first `n` partitions. */
  function Below(records: seq<Record>, partitions: nat, n: nat): seq<Record>
    requires partitions > 0
  {
    if records == [] then []
    else
      var m := |records| - 1;
      Below(records[..m], partitions, n) + if records[m].id % partitions < n then [records[m]] else []
  }

  lemma {:induction false} BelowNone(records: seq<Record>, partitions: nat)
    requires partitions > 0
    ensures Below(records, partitions, 0) == []
  {
    if records != [] {
      BelowNone(records[..|records| - 1], partitions);
    }
  }

  lemma {:induction false} BelowAll(records: seq<Record>, partitions: nat)
    requires partitions > 0
    ensures Below(records, partitions, partitions) == records
  {
    if records != [] {
      BelowAll(records[..|records| - 1], partitions);
    }
  }

  lemma {:induction false} BelowSplits(records: seq<Record>, partitions: nat, n: nat)
    requires partitions > 0
    ensures multiset(Below(records, partitions, n + 1))
         == multiset(Below(records, partitions, n)) + multiset(RoutedTo(records, partitions, n))
  {
    if records != [] {
      BelowSplits(records[..|records| - 1], partitions, n);
    }
  }

  // ------------------------------------------------------------------------------------------------------ producing

  /** `after` is `before` with the first records of `share` added, or all of them. */
  predicate GrewBy(before: seq<Record>, after: seq<Record>, share: seq<Record>)
  {
    before <= after && after[|before|..] <= share
  }

  /** The topic: one log for each partition. */
  class Topic {
    var logs: seq<seq<Record>>

    /** Sends the chunks of one partition one after another and stops at the first request that is not answered. */
    method SendChunks(p: nat, chunks: seq<seq<Record>>, reply: nat -> Outcome) returns (ok: bool)
      requires p < |logs|
      modifies this
      ensures |logs| == old(|logs|) && forall q :: 0 <= q < |logs| && q != p ==> logs[q] == old(logs[q])
      ensures GrewBy(old(logs[p]), logs[p], Flatten(chunks))
      ensures ok ==> logs[p] == old(logs[p]) + Flatten(chunks)
      ensures ok <==> forall i: nat :: i < |chunks| ==> reply(i).Answered()
    {
      assert Flatten(chunks[..0]) == [];
      for i := 0 to |chunks|
        invariant |logs| == old(|logs|) && forall q :: 0 <= q < |logs| && q != p ==> logs[q] == old(logs[q])
        invariant logs[p] == old(logs[p]) + Flatten(chunks[..i])
        invariant forall j: nat :: j < i ==> reply(j).Answered()
      {
        ReachStep(chunks, i);
        PartsArePrefix(chunks, i);
        PartsArePrefix(chunks, i + 1);
        if reply(i).Landed() {
          logs := logs[p := logs[p] + chunks[i]];
        }
        if !reply(i).Answered() {
          return false;
        }
      }
      assert chunks[..|chunks|] == chunks;
      return true;
    }

    /** Produces a batch: routed to partitions, each partition's share in chunks. When it succeeds every partition has
        gained exactly its share, in order; when it fails part-way each has gained the first records of its share, so a
        record of the batch may be there and the caller cannot tell. */
    method ProduceBatch(records: seq<Record>, reply: (nat, nat) -> Outcome) returns (ok: bool)
      requires logs != []
      modifies this
      ensures |logs| == old(|logs|)
      ensures forall q :: 0 <= q < |logs| ==> GrewBy(old(logs[q]), logs[q], RoutedTo(records, |logs|, q))
      ensures ok ==> forall q :: 0 <= q < |logs| ==> logs[q] == old(logs[q]) + RoutedTo(records, |logs|, q)
      ensures (forall p, i :: reply(p, i).Answered()) ==> ok
    {
      var partitions := |logs|;
      var routed := Route(records, partitions);
      for p := 0 to partitions
        invariant |logs| == partitions
        invariant forall q :: 0 <= q < p ==> logs[q] == old(logs[q]) + routed[q]
        invariant forall q :: p <= q < partitions ==> logs[q] == old(logs[q])
      {
        var chunks := Chunk(routed[p]);
        var sent := SendChunks(p, chunks, (i: nat) => reply(p, i));
        if !sent {
          return false;
        }
      }
      return true;
    }
  }
}
