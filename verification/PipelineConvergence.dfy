/** Whether replays converge: what the last-inserted-wins view of the index shows for a record that was produced, and
    re-indexed, any number of times. */
module PipelineConvergence {
  import opened Prelude
  import opened PackFormat
  import opened Pipeline
  import opened PipelineSafety
  import opened PipelineInvariant

  // ------------------------------------------------------------------------------------------------ last of an id

  predicate IsFor(env: Env, entry: Entry, id: RecordId)
  {
    Parses(env, entry) && entry.message.id == id
  }

  /** The offset of the last parseable message of a record. */
  function LastMessage(env: Env, log: seq<Entry>, id: RecordId): (last: Option<nat>)
    ensures last.None? ==> forall o :: 0 <= o < |log| ==> !IsFor(env, log[o], id)
    ensures last.Some? ==>
              && last.value < |log| && IsFor(env, log[last.value], id)
              && forall o :: last.value < o < |log| ==> !IsFor(env, log[o], id)
  {
    if log == [] then None
    else
      var n := |log| - 1;
      if IsFor(env, log[n], id) then Some(n) else LastMessage(env, log[..n], id)
  }

  /** The position of the last row inserted for a record. */
  function LastRow(rows: seq<Stored>, id: RecordId): (last: Option<nat>)
    ensures last.None? ==> forall i :: 0 <= i < |rows| ==> rows[i].row.id != id
    ensures last.Some? ==>
              && last.value < |rows| && rows[last.value].row.id == id
              && forall i :: last.value < i < |rows| ==> rows[i].row.id != id
  {
    if rows == [] then None
    else
      var n := |rows| - 1;
      if rows[n].row.id == id then Some(n) else LastRow(rows[..n], id)
  }

  /** The last row inserted for a record is tagged with the given offset, or neither exists. */
  predicate Agrees(rows: seq<Stored>, id: RecordId, part: nat, last: Option<nat>)
  {
    match last
    case None => LastRow(rows, id).None?
    case Some(o) =>
      LastRow(rows, id).Some? && rows[LastRow(rows, id).value].part == part
      && rows[LastRow(rows, id).value].offset == o
  }

  lemma AgreesAfter(rows: seq<Stored>, more: seq<Stored>, id: RecordId, part: nat, o: Option<nat>)
    ensures LastRow(more, id).None? && Agrees(rows, id, part, o) ==> Agrees(rows + more, id, part, o)
    ensures LastRow(more, id).Some? && Agrees(more, id, part, o) ==> Agrees(rows + more, id, part, o)
  {
    var all := rows + more;
    if LastRow(more, id).Some? {
      assert all[|rows| + LastRow(more, id).value].row.id == id;
      LastRowIs(all, id, |rows| + LastRow(more, id).value);
    } else if LastRow(rows, id).Some? {
      assert all[LastRow(rows, id).value].row.id == id;
      LastRowIs(all, id, LastRow(rows, id).value);
    } else {
      assert forall i :: 0 <= i < |all| ==> all[i].row.id != id;
    }
  }

  lemma LastRowIs(rows: seq<Stored>, id: RecordId, i: nat)
    requires i < |rows| && rows[i].row.id == id && forall j :: i < j < |rows| ==> rows[j].row.id != id
    ensures LastRow(rows, id) == Some(i)
  {
  }

  /** Within one batch the last row of a record is that of its last message. */
  lemma {:induction false} BatchAgrees(env: Env, key: string, part: nat, base: nat, entries: seq<Entry>, id: RecordId)
    requires AllEntriesFit(env, entries)
    ensures var last := LastMessage(env, entries, id);
            Agrees(AppendAll(env, key, part, base, EMPTY_BATCH, entries).rows, id, part,
                   if last.Some? then Some(base + last.value) else None)
  {
    if entries != [] {
      hide LastRow, RowFor, Frames, EntryFits, Agrees;
      var n := |entries| - 1;
      BatchAgrees(env, key, part, base, entries[..n], id);
      var before := AppendAll(env, key, part, base, EMPTY_BATCH, entries[..n]);
      if Parses(env, entries[n]) {
        var row := Stored(RowFor(env, key, |before.bytes|, entries[n].message), part, base + n);
        RowIsFor(env, key, |before.bytes|, entries[n].message);
        var last := LastMessage(env, entries[..n], id);
        OneRowAgrees(before.rows, row, id, if last.Some? then Some(base + last.value) else None);
      }
    } else {
      assert Agrees([], id, part, None);
    }
  }

  lemma RowIsFor(env: Env, key: string, size: nat, m: Message)
    requires env.parse(m.raw).Some? && Fits(env.codec, m.raw)
    ensures RowFor(env, key, size, m).id == m.id
  {
  }

  lemma OneRowAgrees(rows: seq<Stored>, row: Stored, id: RecordId, last: Option<nat>)
    requires Agrees(rows, id, row.part, last)
    ensures Agrees(rows + [row], id, row.part, if row.row.id == id then Some(row.offset) else last)
  {
    AgreesAfter(rows, [row], id, row.part, if row.row.id == id then Some(row.offset) else last);
  }

  // ---------------------------------------------------------------------------------------------------- the log

  /** Messages are routed by their id, and all messages of one record carry one source and one ingest time: the
      constructors and the router leave no other way to produce one. */
  ghost predicate LogOk(env: Env, log: seq<seq<Entry>>)
    requires env.partitions > 0
  {
    && (forall p, o :: 0 <= p < |log| && 0 <= o < |log[p]| && log[p][o].Readable? ==>
          PartitionFor(env, log[p][o].message.id) == p)
    && (forall p, o, o' ::
          (&& 0 <= p < |log| && 0 <= o < |log[p]| && 0 <= o' < |log[p]|
           && log[p][o].Readable? && log[p][o'].Readable? && log[p][o].message.id == log[p][o'].message.id)
          ==> SameKey(log[p][o].message, log[p][o'].message))
  }

  predicate SameKey(m: Message, n: Message)
  {
    m.source == n.source && m.receivedAt == n.receivedAt
  }

  ghost predicate KeyAgrees(log: seq<Entry>, m: Message)
  {
    forall o :: 0 <= o < |log| && log[o].Readable? && log[o].message.id == m.id ==> SameKey(log[o].message, m)
  }

  lemma LoggedKeepsLogOk(env: Env, sh: Shared, m: Message)
    requires env.partitions > 0 && |sh.log| == env.partitions && LogOk(env, sh.log)
    requires KeyAgrees(sh.log[PartitionFor(env, m.id)], m)
    ensures LogOk(env, Logged(sh, PartitionFor(env, m.id), Readable(m)).log)
  {
    hide PartitionFor;
  }

  lemma ActionKeepsLogOk(env: Env, s: State, a: Action)
    requires Shaped(env, s) && Inv(env, s) && LogOk(env, s.sh.log) && Legal(env, s, a)
    ensures LogOk(env, Apply(env, s, a).sh.log)
  {
    hide PartitionFor, WorkerOk, Committed;
    match a
    case Produce(m) => LoggedKeepsLogOk(env, s.sh, m);
    case Reindex(m, at) =>
      assert Described(env, s.sh, s.sh.index[at]);
      LoggedKeepsLogOk(env, s.sh, m);
    case Redeliver(p, o) => LoggedKeepsLogOk(env, s.sh, s.sh.log[p][o].message);
    case _ =>
  }

  // -------------------------------------------------------------------------------------------------- settledness

  /** If all of a record's messages lie below `limit`, the last row inserted for it is that of its last message. */
  ghost predicate SettledFor(env: Env, log: seq<Entry>, index: seq<Stored>, part: nat, limit: nat, id: RecordId)
  {
    var last := LastMessage(env, log, id);
    (last.None? || last.value < limit) ==> Agrees(index, id, part, last)
  }

  ghost predicate Settled(env: Env, log: seq<Entry>, index: seq<Stored>, part: nat, limit: nat)
    requires env.partitions > 0
  {
    forall id: RecordId :: PartitionFor(env, id) == part ==> SettledFor(env, log, index, part, limit, id)
  }

  ghost predicate Converging(env: Env, part: nat, sh: Shared, w: Worker)
    requires env.partitions > 0 && part < |sh.log| && part < |sh.durable| && part < |sh.replayEnd|
  {
    && Settled(env, sh.log[part], sh.index, part, w.committed)
    && (sh.durable[part] <= sh.replayEnd[part] ==> Settled(env, sh.log[part], sh.index, part, sh.durable[part]))
    && (AtLeast(w.phase, Inserted) ==>
          Settled(env, sh.log[part], sh.index, part, w.cursor) && sh.replayEnd[part] == w.cursor)
  }

  lemma SettledBelow(env: Env, log: seq<Entry>, index: seq<Stored>, part: nat, limit: nat, lower: nat)
    requires env.partitions > 0 && Settled(env, log, index, part, limit) && lower <= limit
    ensures Settled(env, log, index, part, lower)
  {
    hide PartitionFor, Agrees, LastMessage;
    forall id: RecordId | PartitionFor(env, id) == part
      ensures SettledFor(env, log, index, part, lower, id)
    {
      assert SettledFor(env, log, index, part, limit, id);
    }
  }

  /** New messages only ever lie at or above a limit within the log. */
  lemma SettledAsLogGrows(env: Env, log: seq<Entry>, entry: Entry, index: seq<Stored>, part: nat, limit: nat)
    requires env.partitions > 0 && Settled(env, log, index, part, limit) && limit <= |log|
    ensures Settled(env, log + [entry], index, part, limit)
  {
    hide PartitionFor, Agrees;
    forall id: RecordId | PartitionFor(env, id) == part
      ensures SettledFor(env, log + [entry], index, part, limit, id)
    {
      assert SettledFor(env, log, index, part, limit, id);
      assert (log + [entry])[..|log|] == log;
    }
  }

  /** Inserting what lies between `from` and `to` settles everything below `to`. */
  lemma InsertSettles(env: Env, log: seq<Entry>, index: seq<Stored>, key: string, part: nat, from: nat, to: nat)
    requires env.partitions > 0 && from <= to <= |log| && AllEntriesFit(env, log[from..to])
    requires Settled(env, log, index, part, from)
    ensures Settled(env, log, index + AppendAll(env, key, part, from, EMPTY_BATCH, log[from..to]).rows, part, to)
  {
    hide PartitionFor, AppendAll;
    var rows := AppendAll(env, key, part, from, EMPTY_BATCH, log[from..to]).rows;
    forall id: RecordId | PartitionFor(env, id) == part
      ensures SettledFor(env, log, index + rows, part, to, id)
    {
      assert SettledFor(env, log, index, part, from, id);
      var last := LastMessage(env, log, id);
      BatchAgrees(env, key, part, from, log[from..to], id);
      if last.Some? && from <= last.value < to {
        LastMessageOfSlice(env, log, from, to, id);
        AgreesAfter(index, rows, id, part, last);
      } else if last.None? || last.value < from {
        assert forall o :: 0 <= o < to - from ==> log[from..to][o] == log[from + o];
        AgreesAfter(index, rows, id, part, last);
      }
    }
  }

  lemma LastMessageOfSlice(env: Env, log: seq<Entry>, from: nat, to: nat, id: RecordId)
    requires from <= to <= |log|
    requires LastMessage(env, log, id).Some? && from <= LastMessage(env, log, id).value < to
    ensures LastMessage(env, log[from..to], id) == Some(LastMessage(env, log, id).value - from)
  {
    var last := LastMessage(env, log, id).value;
    assert log[from..to][last - from] == log[last];
    assert forall o :: last - from < o < to - from ==> log[from..to][o] == log[from + o];
  }

  /** Rows of other records change nothing. */
  lemma SettledDespite(env: Env, log: seq<Entry>, index: seq<Stored>, more: seq<Stored>, part: nat, limit: nat)
    requires env.partitions > 0 && Settled(env, log, index, part, limit)
    requires forall i :: 0 <= i < |more| ==> PartitionFor(env, more[i].row.id) != part
    ensures Settled(env, log, index + more, part, limit)
  {
    hide PartitionFor;
    forall id: RecordId | PartitionFor(env, id) == part
      ensures SettledFor(env, log, index + more, part, limit, id)
    {
      assert SettledFor(env, log, index, part, limit, id);
      AgreesAfter(index, more, id, part, LastMessage(env, log, id));
    }
  }

  // ---------------------------------------------------------------------------------------------- step by step

  /** A crash between the insert of a replay and its commit, when the replay ended short of an offset that an earlier
      commit had already made durable. */
  predicate CutsReplayShort(s: State, a: Action)
  {
    a.Work? && a.step.Crash? && a.part < |s.sh.replayEnd| && a.part < |s.sh.durable|
    && s.sh.replayEnd[a.part] < s.sh.durable[a.part]
  }

  lemma OwnStepConverges(env: Env, part: nat, sh: Shared, w: Worker, step: WorkerStep)
    requires env.partitions > 0 && part < |sh.log| && part < |sh.durable| && part < |sh.replayEnd|
    requires WorkerOk(env, part, sh, w) && WorkerLegal(env, part, sh, w, step)
    requires Converging(env, part, sh, w)
    requires step.Crash? ==> sh.durable[part] <= sh.replayEnd[part]
    ensures var (later, after) := WorkerApply(env, part, sh, w, step);
            Converging(env, part, later, after)
  {
    hide Settled, AppendAll, Covers, Parses;
    var log := sh.log[part];
    if step.InsertRows? && step.insert.Landed() {
      var index := sh.index + w.rows;
      InsertSettles(env, log, sh.index, w.pack.value.key, part, w.committed, w.cursor);
      SettledBelow(env, log, index, part, w.cursor, w.committed);
      if sh.durable[part] <= w.cursor {
        SettledBelow(env, log, index, part, w.cursor, sh.durable[part]);
      }
    }
  }

  lemma InsertedIdsRouted(env: Env, part: nat, sh: Shared, w: Worker)
    requires GoodEnv(env) && part < |sh.log| && part < |sh.durable| && WorkerOk(env, part, sh, w)
    requires LogOk(env, sh.log) && w.pack.Some?
    ensures forall i :: 0 <= i < |w.rows| ==> PartitionFor(env, w.rows[i].row.id) == part
  {
    hide PartitionFor, AppendAll, Covers, ReadsBack;
    BatchIsSound(env, w.pack.value.key, part, w.committed, InHand(sh.log[part], w));
    forall i | 0 <= i < |w.rows|
      ensures PartitionFor(env, w.rows[i].row.id) == part
    {
      assert RowOfBatch(env, w.pack.value.key, part, w.committed, w.pack.value.bytes, InHand(sh.log[part], w), w.rows[i]);
      assert InHand(sh.log[part], w)[w.rows[i].offset - w.committed] == sh.log[part][w.rows[i].offset];
    }
  }

  lemma OtherStepConverges(env: Env, s: State, part: nat, step: WorkerStep, other: nat)
    requires GoodEnv(env) && Shaped(env, s) && Inv(env, s) && LogOk(env, s.sh.log)
    requires Legal(env, s, Work(part, step)) && other < |s.workers| && other != part
    requires Converging(env, other, s.sh, s.workers[other])
    ensures Converging(env, other, WorkerApply(env, part, s.sh, s.workers[part], step).0, s.workers[other])
  {
    hide Settled, AppendAll, WorkerOk, PartitionFor;
    var w, v := s.workers[part], s.workers[other];
    assert WorkerOk(env, part, s.sh, w);
    if step.InsertRows? && step.insert.Landed() {
      InsertedIdsRouted(env, part, s.sh, w);
      var log := s.sh.log[other];
      SettledDespite(env, log, s.sh.index, w.rows, other, v.committed);
      if s.sh.durable[other] <= s.sh.replayEnd[other] {
        SettledDespite(env, log, s.sh.index, w.rows, other, s.sh.durable[other]);
      }
      if AtLeast(v.phase, Inserted) {
        SettledDespite(env, log, s.sh.index, w.rows, other, v.cursor);
      }
    }
  }

  lemma LogGrowthConverges(env: Env, s: State, part: nat, entry: Entry, p: nat)
    requires Shaped(env, s) && Inv(env, s) && part < |s.sh.log| && p < |s.workers|
    requires Converging(env, p, s.sh, s.workers[p])
    ensures Converging(env, p, Logged(s.sh, part, entry), s.workers[p])
  {
    hide Settled, AppendAll, Covers;
    var w, log := s.workers[p], s.sh.log[p];
    assert WorkerOk(env, p, s.sh, w);
    if p == part {
      SettledAsLogGrows(env, log, entry, s.sh.index, p, w.committed);
      if s.sh.durable[p] <= s.sh.replayEnd[p] {
        SettledAsLogGrows(env, log, entry, s.sh.index, p, s.sh.durable[p]);
      }
      if AtLeast(w.phase, Inserted) {
        SettledAsLogGrows(env, log, entry, s.sh.index, p, w.cursor);
      }
    }
  }

  ghost predicate AllConverging(env: Env, s: State)
    requires Shaped(env, s)
  {
    forall p :: 0 <= p < |s.workers| ==> Converging(env, p, s.sh, s.workers[p])
  }

  lemma ActionConverges(env: Env, s: State, a: Action)
    requires GoodEnv(env) && Shaped(env, s) && Inv(env, s) && LogOk(env, s.sh.log) && AllConverging(env, s)
    requires Legal(env, s, a) && !CutsReplayShort(s, a)
    ensures AllConverging(env, Apply(env, s, a))
  {
    hide Converging, WorkerOk, PartitionFor;
    var t := Apply(env, s, a);
    forall p | 0 <= p < |t.workers|
      ensures Converging(env, p, t.sh, t.workers[p])
    {
      assert Converging(env, p, s.sh, s.workers[p]);
      match a
      case Produce(m) => LogGrowthConverges(env, s, PartitionFor(env, m.id), Readable(m), p);
      case Reindex(m, _) => LogGrowthConverges(env, s, PartitionFor(env, m.id), Readable(m), p);
      case Redeliver(q, o) => LogGrowthConverges(env, s, q, s.sh.log[q][o], p);
      case Foreign(q) => LogGrowthConverges(env, s, q, Unreadable, p);
      case Work(q, step) =>
        if p == q {
          OwnStepConverges(env, p, s.sh, s.workers[p], step);
        } else {
          OtherStepConverges(env, s, q, step, p);
        }
      case Tick(_) => ConvergingSame(env, p, s.sh, t.sh, s.workers[p]);
      case Delete(_) => ConvergingSame(env, p, s.sh, t.sh, s.workers[p]);
      case _ =>
    }
  }

  lemma ConvergingSame(env: Env, p: nat, sh: Shared, later: Shared, w: Worker)
    requires env.partitions > 0 && p < |sh.log| && p < |sh.durable| && p < |sh.replayEnd|
    requires Converging(env, p, sh, w) && later == sh.(now := later.now, bucket := later.bucket)
    ensures Converging(env, p, later, w)
  {
    hide Settled;
  }

  /** No step of the run cut a replay short. */
  ghost predicate NoShortReplay(env: Env, actions: seq<Action>)
    requires env.partitions > 0
  {
    forall n :: 0 <= n < |actions| && Run(env, actions[..n]).Some? ==>
      !CutsReplayShort(Run(env, actions[..n]).value, actions[n])
  }

  lemma {:induction false} RunConverges(env: Env, actions: seq<Action>)
    requires GoodEnv(env) && Run(env, actions).Some? && NoShortReplay(env, actions)
    ensures LogOk(env, Run(env, actions).value.sh.log) && AllConverging(env, Run(env, actions).value)
  {
    if actions == [] {
      assert forall p :: 0 <= p < env.partitions ==> Settled(env, [], [], p, 0);
    } else {
      var n := |actions| - 1;
      forall k | 0 <= k < n && Run(env, actions[..n][..k]).Some?
        ensures !CutsReplayShort(Run(env, actions[..n][..k]).value, actions[..n][k])
      {
        assert actions[..n][..k] == actions[..k];
      }
      RunConverges(env, actions[..n]);
      RunKeeps(env, actions[..n]);
      var s := Run(env, actions[..n]).value;
      ActionKeepsLogOk(env, s, actions[n]);
      ActionConverges(env, s, actions[n]);
    }
  }

  // ------------------------------------------------------------------------------------------------ main results

  /** The `FINAL` view holds exactly one row for the record, and it describes the message at the given offset. */
  ghost predicate ViewShows(env: Env, sh: Shared, id: RecordId, part: nat, offset: nat)
    requires part < |sh.log| && offset < |sh.log[part]| && sh.log[part][offset].Readable?
  {
    exists i ::
      && 0 <= i < |sh.index| && sh.index[i].row.id == id && IsFinal(sh.index, i)
      && RowMatches(env, sh.index[i].row, sh.log[part][offset].message)
      && sh.index[i].row.storage.packKey in sh.archive
      && ReadsBack(env, sh.archive[sh.index[i].row.storage.packKey].bytes, sh.index[i].row,
                   sh.log[part][offset].message)
      && forall j :: 0 <= j < |sh.index| && j != i && sh.index[j].row.id == id ==> !IsFinal(sh.index, j)
  }

  /** If all of a record's messages lie below the committed offset of its partition, the view shows its last one. */
  ghost predicate Converged(env: Env, s: State, id: RecordId)
    requires Shaped(env, s)
  {
    var part := PartitionFor(env, id);
    var last := LastMessage(env, s.sh.log[part], id);
    last.Some? && last.value < s.sh.durable[part] ==> ViewShows(env, s.sh, id, part, last.value)
  }

  lemma SettledShows(env: Env, s: State, id: RecordId)
    requires Shaped(env, s) && Inv(env, s) && LogOk(env, s.sh.log)
    requires var part := PartitionFor(env, id);
             Settled(env, s.sh.log[part], s.sh.index, part, s.sh.durable[part])
    ensures Converged(env, s, id)
  {
    hide PartitionFor, ReadsBack;
    var part := PartitionFor(env, id);
    var index := s.sh.index;
    assert SettledFor(env, s.sh.log[part], index, part, s.sh.durable[part], id);
    var last := LastMessage(env, s.sh.log[part], id);
    if last.Some? && last.value < s.sh.durable[part] {
      var i := LastRow(index, id).value;
      assert Described(env, s.sh, index[i]);
      forall j | 0 <= j < |index| && j != i && index[j].row.id == id
        ensures !IsFinal(index, j)
      {
        assert Described(env, s.sh, index[j]);
        assert SameKey(s.sh.log[part][index[j].offset].message, s.sh.log[part][index[i].offset].message);
        assert SortKey(index[j].row) == SortKey(index[i].row);
      }
    }
  }

  /** In every run no step of which cut a replay short, and in every state of it that is not in the middle of a short
      replay, whatever crashed and whatever was delivered again: a record all of whose messages are committed is shown
      by exactly one row, that of its last message. */
  lemma ReplayConverges(env: Env, actions: seq<Action>, id: RecordId)
    requires GoodEnv(env) && Run(env, actions).Some? && NoShortReplay(env, actions)
    requires var sh := Run(env, actions).value.sh;
             sh.durable[PartitionFor(env, id)] <= sh.replayEnd[PartitionFor(env, id)]
    ensures Converged(env, Run(env, actions).value, id)
  {
    hide PartitionFor;
    RunConverges(env, actions);
    RunKeeps(env, actions);
    var s := Run(env, actions).value;
    assert Converging(env, PartitionFor(env, id), s.sh, s.workers[PartitionFor(env, id)]);
    SettledShows(env, s, id);
  }

  // ------------------------------------------------------------------------------- when commit replies always arrive

  /** The worker's committed offset is the durable one, and no replay is ever short of it. */
  ghost predicate InStep(s: State)
    requires |s.sh.durable| == |s.sh.replayEnd| == |s.workers|
  {
    forall p :: 0 <= p < |s.workers| ==>
      && s.workers[p].committed == s.sh.durable[p] <= s.sh.replayEnd[p]
      && (AtLeast(s.workers[p].phase, Inserted) ==> s.sh.replayEnd[p] == s.workers[p].cursor)
  }

  /** What a step does to the offsets of its own partition, and of another. */
  lemma StepOffsets(env: Env, part: nat, sh: Shared, w: Worker, step: WorkerStep, other: nat)
    requires part < |sh.log| && part < |sh.durable| == |sh.replayEnd| && part < |sh.replayEnd| && other < |sh.durable|
    requires !env.commitReplyLost && WorkerOk(env, part, sh, w) && WorkerLegal(env, part, sh, w, step)
    requires w.committed == sh.durable[part] <= sh.replayEnd[part]
    requires AtLeast(w.phase, Inserted) ==> sh.replayEnd[part] == w.cursor
    ensures var (later, after) := WorkerApply(env, part, sh, w, step);
            && |later.durable| == |later.replayEnd| == |sh.durable|
            && after.committed == later.durable[part] <= later.replayEnd[part]
            && (AtLeast(after.phase, Inserted) ==> later.replayEnd[part] == after.cursor)
            && (other != part ==>
                  later.durable[other] == sh.durable[other] && later.replayEnd[other] == sh.replayEnd[other])
  {
    hide AppendAll, AllCovered, PackOk, AnyReadable, Fetched, AllEntriesFit, EndsWith, Parses;
  }

  lemma ActionKeepsInStep(env: Env, s: State, a: Action)
    requires !env.commitReplyLost && Shaped(env, s) && Inv(env, s) && InStep(s) && Legal(env, s, a)
    ensures InStep(Apply(env, s, a))
  {
    hide WorkerOk, WorkerApply, WorkerLegal, PartitionFor, AllDescribed, Committed, IsOrphan;
    if a.Work? {
      forall p | 0 <= p < |s.workers| {
        StepOffsets(env, a.part, s.sh, s.workers[a.part], a.step, p);
      }
    }
  }

  lemma InStepCutsNothing(s: State, a: Action)
    requires |s.sh.durable| == |s.sh.replayEnd| == |s.workers| && InStep(s)
    ensures !CutsReplayShort(s, a)
  {
  }

  lemma NoShortReplayGrows(env: Env, actions: seq<Action>)
    requires env.partitions > 0 && actions != [] && NoShortReplay(env, actions[..|actions| - 1])
    requires Run(env, actions[..|actions| - 1]).Some? ==>
               !CutsReplayShort(Run(env, actions[..|actions| - 1]).value, actions[|actions| - 1])
    ensures NoShortReplay(env, actions)
  {
    hide Run, CutsReplayShort;
    var before := actions[..|actions| - 1];
    forall k | 0 <= k < |actions| && Run(env, actions[..k]).Some?
      ensures !CutsReplayShort(Run(env, actions[..k]).value, actions[k])
    {
      if k < |before| {
        assert before[..k] == actions[..k] && before[k] == actions[k];
      }
    }
  }

  lemma {:induction false} RunInStep(env: Env, actions: seq<Action>)
    requires GoodEnv(env) && !env.commitReplyLost && Run(env, actions).Some?
    ensures InStep(Run(env, actions).value) && NoShortReplay(env, actions)
  {
    if actions != [] {
      hide InStep, Inv, Legal, Apply, CutsReplayShort, NoShortReplay;
      var n := |actions| - 1;
      RunInStep(env, actions[..n]);
      RunKeeps(env, actions[..n]);
      ActionKeepsInStep(env, Run(env, actions[..n]).value, actions[n]);
      InStepCutsNothing(Run(env, actions[..n]).value, actions[n]);
      NoShortReplayGrows(env, actions);
    }
  }

  /** As long as no commit loses its reply, every state of every run has converged. */
  lemma ConvergesWhenRepliesArrive(env: Env, actions: seq<Action>, id: RecordId)
    requires GoodEnv(env) && !env.commitReplyLost && Run(env, actions).Some?
    ensures Converged(env, Run(env, actions).value, id)
  {
    hide PartitionFor;
    RunInStep(env, actions);
    ReplayConverges(env, actions, id);
  }
}
