/** Runs of the pipeline built step by step, for the results that say what can go wrong. */
module Scenarios {
  import opened Prelude
  import opened PackFormat
  import opened Pipeline
  import opened PipelineSafety
  import opened PipelineInvariant

  lemma Extend(env: Env, actions: seq<Action>, a: Action)
    requires env.partitions > 0 && Run(env, actions).Some? && Legal(env, Run(env, actions).value, a)
    ensures Run(env, actions + [a]) == Some(Apply(env, Run(env, actions).value, a))
  {
    assert (actions + [a])[..|actions|] == actions;
  }

  /** A worker with nothing in hand. */
  predicate Empty(w: Worker)
  {
    w.phase == Filling && w.pack.None? && w.rows == [] && w.cursor == w.committed
  }

  /** What an undisturbed pass over `count` messages starts from. */
  ghost predicate Ready(env: Env, s: State, p: nat, count: nat, key: string)
    requires Shaped(env, s) && p < env.partitions
  {
    var w, log := s.workers[p], s.sh.log[p];
    && Empty(w) && count > 0 && w.cursor + count <= |log|
    && AllEntriesFit(env, log[w.cursor..w.cursor + count])
    && (forall i :: w.cursor <= i < w.cursor + count ==> log[i].Readable?)
    && key !in s.sh.keys && EndsWith(key, PACK_SUFFIX)
  }

  lemma FillAndSeal(env: Env, actions: seq<Action>, p: nat, count: nat, key: string) returns (longer: seq<Action>)
    requires GoodEnv(env) && Run(env, actions).Some? && p < env.partitions
    requires Ready(env, Run(env, actions).value, p, count, key)
    ensures Run(env, longer).Some?
    ensures var s, t := Run(env, actions).value, Run(env, longer).value;
            var w, log := s.workers[p], s.sh.log[p];
            var batch := AppendAll(env, key, p, w.cursor, EMPTY_BATCH, log[w.cursor..w.cursor + count]);
            && t.sh == s.sh.(keys := s.sh.keys + {key}) && t.gc == s.gc
            && t.workers[p] == Worker(w.cursor + count, w.cursor, Sealed, Some(OpenPack(key, batch.bytes)), batch.rows)
  {
    hide AppendAll, PartitionFor;
    var s := Run(env, actions).value;
    var entries := Fetched(s.sh, p, s.workers[p], count);
    assert entries[0].Readable?;
    Extend(env, actions, Work(p, Fetch(count, key)));
    longer := actions + [Work(p, Fetch(count, key))];
    Extend(env, longer, Work(p, Seal));
    longer := longer + [Work(p, Seal)];
  }

  /** Uploads the sealed pack whole, stamped `modified`, and checks its size. */
  lemma UploadAndCheck(env: Env, actions: seq<Action>, p: nat, modified: int) returns (longer: seq<Action>)
    requires GoodEnv(env) && Run(env, actions).Some? && p < env.partitions
    requires var s := Run(env, actions).value;
             && s.workers[p].phase == Sealed && s.workers[p].pack.Some?
             && s.sh.now - env.skew <= modified <= s.sh.now + env.skew
    ensures Run(env, longer).Some?
    ensures var s, t := Run(env, actions).value, Run(env, longer).value;
            var w := s.workers[p];
            var blob := Object(w.pack.value.bytes, modified, s.sh.now);
            && t.sh == s.sh.(bucket := s.sh.bucket[w.pack.value.key := blob],
                             archive := s.sh.archive[w.pack.value.key := blob])
            && t.gc == s.gc && t.workers[p] == w.(phase := Checked)
  {
    hide AppendAll, PartitionFor;
    var bytes := Run(env, actions).value.workers[p].pack.value.bytes;
    assert bytes[..|bytes|] == bytes;
    Extend(env, actions, Work(p, PutObject(|bytes|, modified, Done)));
    longer := actions + [Work(p, PutObject(|bytes|, modified, Done))];
    Extend(env, longer, Work(p, HeadObject));
    longer := longer + [Work(p, HeadObject)];
  }

  /** Inserts the rows in hand. */
  lemma InsertAll(env: Env, actions: seq<Action>, p: nat) returns (longer: seq<Action>)
    requires GoodEnv(env) && Run(env, actions).Some? && p < env.partitions
    requires Legal(env, Run(env, actions).value, Work(p, InsertRows(Done)))
    ensures Run(env, longer).Some?
    ensures var s, t := Run(env, actions).value, Run(env, longer).value;
            var w := s.workers[p];
            && t.sh == s.sh.(index := s.sh.index + w.rows, replayEnd := s.sh.replayEnd[p := w.cursor])
            && t.gc == s.gc && t.workers[p] == w.(phase := Inserted)
  {
    hide AppendAll, PartitionFor;
    Extend(env, actions, Work(p, InsertRows(Done)));
    longer := actions + [Work(p, InsertRows(Done))];
  }

  /** One undisturbed pass, up to and including the insert of its rows. */
  lemma PassRuns(env: Env, actions: seq<Action>, p: nat, count: nat, key: string, rows: seq<Stored>)
    returns (longer: seq<Action>)
    requires GoodEnv(env) && Run(env, actions).Some? && p < env.partitions
    requires Ready(env, Run(env, actions).value, p, count, key)
    requires var s := Run(env, actions).value;
             var from := s.workers[p].cursor;
             AppendAll(env, key, p, from, EMPTY_BATCH, s.sh.log[p][from..from + count]).rows == rows
    ensures Run(env, longer).Some?
    ensures var s, t := Run(env, actions).value, Run(env, longer).value;
            && t.sh.log == s.sh.log && t.sh.durable == s.sh.durable && t.sh.keys == s.sh.keys + {key}
            && t.sh.now == s.sh.now && t.gc == s.gc
            && t.sh.replayEnd == s.sh.replayEnd[p := s.workers[p].cursor + count]
            && t.sh.index == s.sh.index + rows
            && t.workers[p].phase == Inserted && t.workers[p].committed == s.workers[p].cursor
            && t.workers[p].cursor == s.workers[p].cursor + count && t.workers[p].pack.Some?
  {
    hide AppendAll, PartitionFor, WorkerApply, Apply, IsFinal;
    longer := FillAndSeal(env, actions, p, count, key);
    longer := UploadAndCheck(env, longer, p, Run(env, longer).value.sh.now);
    longer := InsertAll(env, longer, p);
  }

  const FIRST_KEY: string := "1.mjpack"
  const SECOND_KEY: string := "2.mjpack"

  lemma RowsOfOne(env: Env, key: string, p: nat, base: nat, m: Message)
    requires EntryFits(env, Readable(m)) && env.parse(m.raw).Some?
    ensures AllEntriesFit(env, [Readable(m)])
    ensures AppendAll(env, key, p, base, EMPTY_BATCH, [Readable(m)]).rows
         == [Stored(RowFor(env, key, |MAGIC|, m), p, base)]
  {
    assert [Readable(m)][..0] == [];
  }

  lemma RowsOfTwo(env: Env, key: string, p: nat, base: nat, m: Message, n: Message)
    requires EntryFits(env, Readable(m)) && env.parse(m.raw).Some?
    requires EntryFits(env, Readable(n)) && env.parse(n.raw).Some?
    ensures AllEntriesFit(env, [Readable(m), Readable(n)])
    ensures AppendAll(env, key, p, base, EMPTY_BATCH, [Readable(m), Readable(n)]).rows
         == [Stored(RowFor(env, key, |MAGIC|, m), p, base),
             Stored(RowFor(env, key, |MAGIC + Frames(env, m)|, n), p, base + 1)]
  {
    RowsOfOne(env, key, p, base, m);
    assert [Readable(m), Readable(n)][..1] == [Readable(m)];
  }

  /** The messages of the run: an original, and a re-index of it that says something else. */
  function Original(id: RecordId, raw: Bytes): Message
  {
    Message(id, "source", 0, Some(0), raw, None)
  }

  function Reindexed(id: RecordId, raw: Bytes): Message
  {
    Original(id, raw).(playedAt := Some(1))
  }

  predicate Usable(env: Env, raw: Bytes)
  {
    env.parse(raw).Some? && Fits(env.codec, raw)
  }

  ghost predicate AllRowsOf(index: seq<Stored>, m: Message)
  {
    forall i :: 0 <= i < |index| ==> SortKey(index[i].row) == (m.source, m.receivedAt, m.id)
  }

  /** The original is indexed but not committed; then it is re-indexed. */
  lemma FirstPass(env: Env, id: RecordId, raw: Bytes) returns (actions: seq<Action>)
    requires GoodEnv(env) && Usable(env, raw)
    ensures Run(env, actions).Some?
    ensures var s, p := Run(env, actions).value, PartitionFor(env, id);
            && s.sh.log[p] == [Readable(Original(id, raw)), Readable(Reindexed(id, raw))]
            && Empty(s.workers[p]) && s.workers[p].cursor == 0
            && s.sh.keys == {FIRST_KEY} && AllRowsOf(s.sh.index, Original(id, raw))
            && s.gc == Idle && s.sh.now == 0
            && |s.sh.index| == 1 && s.sh.index[0].row.storage.packKey == FIRST_KEY
  {
    hide AppendAll, PartitionFor;
    var p := PartitionFor(env, id);
    var original := Original(id, raw);
    Extend(env, [], Produce(original));
    actions := [] + [Produce(original)];
    RowsOfOne(env, FIRST_KEY, p, 0, original);
    var s := Run(env, actions).value;
    assert s.sh.log[p] == [Readable(original)] == s.sh.log[p][0..1];
    actions := PassRuns(env, actions, p, 1, FIRST_KEY, [Stored(RowFor(env, FIRST_KEY, |MAGIC|, original), p, 0)]);
    Extend(env, actions, Work(p, Discard));
    actions := actions + [Work(p, Discard)];
    assert SortKey(Run(env, actions).value.sh.index[0].row) == (original.source, original.receivedAt, id);
    Extend(env, actions, Reindex(Reindexed(id, raw), 0));
    actions := actions + [Reindex(Reindexed(id, raw), 0)];
  }
}
