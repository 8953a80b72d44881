/** What every step of the pipeline keeps, and what it adds up to: nothing below a committed offset is missing. */
module PipelineInvariant {
  import opened Prelude
  import opened PackFormat
  import opened Pipeline
  import opened PipelineSafety

  /** The entries a worker has read but not committed. */
  function InHand(log: seq<Entry>, w: Worker): seq<Entry>
    requires w.committed <= w.cursor <= |log|
  {
    log[w.committed..w.cursor]
  }

  /** The key of the pack a worker is filling or handing over. */
  predicate Holds(w: Worker, key: string)
  {
    w.pack.Some? && w.pack.value.key == key
  }

  predicate AtLeast(phase: Phase, least: Phase)
  {
    match least
    case Filling => true
    case Sealed => !phase.Filling?
    case Put => phase.Put? || phase.Checked? || phase.Inserted? || phase.Scored?
    case Checked => phase.Checked? || phase.Inserted? || phase.Scored?
    case Inserted => phase.Inserted? || phase.Scored?
    case Scored => phase.Scored?
  }

  ghost predicate AllCovered(env: Env, log: seq<Entry>, rows: seq<Stored>, part: nat, lo: nat, hi: nat)
    requires hi <= |log|
  {
    forall o :: lo <= o < hi && Parses(env, log[o]) ==> Covers(rows, part, o)
  }

  /** The rows and the pack in hand are exactly what appending the entries between the committed offset and the cursor
      makes, and each phase of the hand-over has what the phases before it put in place. */
  ghost predicate WorkerOk(env: Env, part: nat, sh: Shared, w: Worker)
    requires part < |sh.log| && part < |sh.durable|
  {
    && w.committed <= sh.durable[part] <= |sh.log[part]|
    && w.committed <= w.cursor <= |sh.log[part]|
    && AllEntriesFit(env, InHand(sh.log[part], w))
    && (w.pack.None? ==> w.phase == Filling && w.rows == [] && !AnyReadable(InHand(sh.log[part], w)))
    && (w.pack.Some? ==> PackOk(env, part, sh, w, w.pack.value))
  }

  ghost predicate PackOk(env: Env, part: nat, sh: Shared, w: Worker, open: OpenPack)
    requires part < |sh.log| && w.committed <= w.cursor <= |sh.log[part]|
    requires AllEntriesFit(env, InHand(sh.log[part], w))
  {
    && Batch(open.bytes, w.rows)
       == AppendAll(env, open.key, part, w.committed, EMPTY_BATCH, InHand(sh.log[part], w))
    && open.key in sh.keys && EndsWith(open.key, PACK_SUFFIX)
    && (AtLeast(w.phase, Put) <==> open.key in sh.archive)
    && (w.phase == Put ==> sh.archive[open.key].bytes <= open.bytes)
    && (AtLeast(w.phase, Checked) ==> sh.archive[open.key].bytes == open.bytes)
    && (AtLeast(w.phase, Inserted) ==> AllCovered(env, sh.log[part], sh.index, part, w.committed, w.cursor))
    && (AtLeast(w.phase, Scored) ==> AllCovered(env, sh.log[part], sh.scored, part, w.committed, w.cursor))
  }

  /** A stored row was built from the log entry it is tagged with, and reads back from the object it names. */
  ghost predicate Described(env: Env, sh: Shared, st: Stored)
  {
    && st.part < |sh.log| && st.offset < |sh.log[st.part]|
    && Parses(env, sh.log[st.part][st.offset])
    && RowMatches(env, st.row, sh.log[st.part][st.offset].message)
    && st.row.storage.packKey in sh.archive
    && ReadsBack(env, sh.archive[st.row.storage.packKey].bytes, st.row, sh.log[st.part][st.offset].message)
  }

  ghost predicate AllDescribed(env: Env, sh: Shared)
  {
    forall i :: 0 <= i < |sh.index| ==> Described(env, sh, sh.index[i])
  }

  ghost predicate ObjectsOk(sh: Shared)
  {
    && sh.archive.Keys <= sh.keys
    && (forall k :: k in sh.bucket ==> k in sh.archive && sh.bucket[k] == sh.archive[k])
  }

  /** Nothing below the committed offset of a partition is missing. */
  ghost predicate Committed(env: Env, sh: Shared, part: nat)
    requires part < |sh.log| && part < |sh.durable|
  {
    && sh.durable[part] <= |sh.log[part]|
    && AllCovered(env, sh.log[part], sh.index, part, 0, sh.durable[part])
    && AllCovered(env, sh.log[part], sh.scored, part, 0, sh.durable[part])
  }

  ghost predicate KeysApart(workers: seq<Worker>)
  {
    forall p, q :: 0 <= p < |workers| && 0 <= q < |workers| && p != q && workers[p].pack.Some? ==>
      !Holds(workers[q], workers[p].pack.value.key)
  }

  ghost predicate Inv(env: Env, s: State)
    requires Shaped(env, s)
  {
    && AllDescribed(env, s.sh)
    && ObjectsOk(s.sh)
    && KeysApart(s.workers)
    && (forall p :: 0 <= p < |s.workers| ==> WorkerOk(env, p, s.sh, s.workers[p]))
    && (forall p :: 0 <= p < |s.workers| ==> Committed(env, s.sh, p))
  }

  // ------------------------------------------------------------------------------------ what does not disturb it

  /** One shared state extends another as far as a worker of `part` can tell: the log, the rows and the archive only
      grew, and no object of the worker's own key appeared. */
  ghost predicate Extends(sh: Shared, later: Shared, part: nat, own: Option<string>)
    requires part < |sh.log| == |later.log| && part < |sh.durable| == |later.durable|
  {
    && sh.log[part] <= later.log[part]
    && sh.durable[part] == later.durable[part]
    && sh.index <= later.index && sh.scored <= later.scored
    && sh.keys <= later.keys
    && (forall k :: k in sh.archive ==> k in later.archive && later.archive[k] == sh.archive[k])
    && (own.Some? && own.value in later.archive ==> own.value in sh.archive)
  }

  function KeyOf(w: Worker): Option<string>
  {
    if w.pack.Some? then Some(w.pack.value.key) else None
  }

  lemma CoveredStays(env: Env, log: seq<Entry>, longer: seq<Entry>, rows: seq<Stored>, more: seq<Stored>,
                     part: nat, lo: nat, hi: nat)
    requires hi <= |log| && log <= longer && rows <= more && AllCovered(env, log, rows, part, lo, hi)
    ensures AllCovered(env, longer, more, part, lo, hi)
  {
    forall o | lo <= o < hi && Parses(env, longer[o])
      ensures Covers(more, part, o)
    {
      assert Parses(env, log[o]);
      CoversMore(rows, more[|rows|..], part, o);
      assert rows + more[|rows|..] == more;
    }
  }

  lemma WorkerStays(env: Env, part: nat, sh: Shared, later: Shared, w: Worker)
    requires part < |sh.log| == |later.log| && part < |sh.durable| == |later.durable|
    requires WorkerOk(env, part, sh, w) && Extends(sh, later, part, KeyOf(w))
    ensures WorkerOk(env, part, later, w)
  {
    hide AppendAll, Covers;
    assert InHand(later.log[part], w) == InHand(sh.log[part], w);
    if AtLeast(w.phase, Inserted) {
      CoveredStays(env, sh.log[part], later.log[part], sh.index, later.index, part, w.committed, w.cursor);
    }
    if AtLeast(w.phase, Scored) {
      CoveredStays(env, sh.log[part], later.log[part], sh.scored, later.scored, part, w.committed, w.cursor);
    }
  }

  lemma CommittedStays(env: Env, part: nat, sh: Shared, later: Shared)
    requires part < |sh.log| == |later.log| && part < |sh.durable| == |later.durable|
    requires Committed(env, sh, part)
    requires sh.log[part] <= later.log[part] && sh.durable[part] == later.durable[part]
    requires sh.index <= later.index && sh.scored <= later.scored
    ensures Committed(env, later, part)
  {
    CoveredStays(env, sh.log[part], later.log[part], sh.index, later.index, part, 0, sh.durable[part]);
    CoveredStays(env, sh.log[part], later.log[part], sh.scored, later.scored, part, 0, sh.durable[part]);
  }

  lemma DescribedStays(env: Env, sh: Shared, later: Shared)
    requires |sh.log| == |later.log| && AllDescribed(env, sh)
    requires forall p :: 0 <= p < |sh.log| ==> sh.log[p] <= later.log[p]
    requires forall k :: k in sh.archive ==> k in later.archive && later.archive[k] == sh.archive[k]
    requires later.index == sh.index
    ensures AllDescribed(env, later)
  {
    hide RowMatches, ReadsBack, Parses;
    forall i | 0 <= i < |later.index|
      ensures Described(env, later, later.index[i])
    {
      assert Described(env, sh, sh.index[i]);
    }
  }

  // ----------------------------------------------------------------------------------------- growth of the log

  lemma LogGrows(env: Env, s: State, part: nat, entry: Entry)
    requires Shaped(env, s) && Inv(env, s) && part < |s.sh.log|
    ensures Shaped(env, s.(sh := Logged(s.sh, part, entry))) && Inv(env, s.(sh := Logged(s.sh, part, entry)))
  {
    var later := Logged(s.sh, part, entry);
    DescribedStays(env, s.sh, later);
    forall p | 0 <= p < |s.workers|
      ensures WorkerOk(env, p, later, s.workers[p]) && Committed(env, later, p)
    {
      WorkerStays(env, p, s.sh, later, s.workers[p]);
      CommittedStays(env, p, s.sh, later);
    }
  }

  // ---------------------------------------------------------------------------------------------- worker steps

  lemma DiscardedOk(env: Env, part: nat, sh: Shared, w: Worker)
    requires part < |sh.log| && part < |sh.durable|
    requires w.committed <= sh.durable[part] <= |sh.log[part]|
    ensures WorkerOk(env, part, sh, Discarded(w))
    ensures WorkerOk(env, part, sh, Started(sh.durable[part]))
  {
    assert InHand(sh.log[part], Discarded(w)) == [];
    assert InHand(sh.log[part], Started(sh.durable[part])) == [];
  }

  lemma NoneReadable(first: seq<Entry>, second: seq<Entry>)
    requires !AnyReadable(first) && !AnyReadable(second)
    ensures !AnyReadable(first + second)
  {
    forall i | 0 <= i < |first + second|
      ensures !(first + second)[i].Readable?
    {
      if i < |first| {
        assert !first[i].Readable?;
      } else {
        assert !second[i - |first|].Readable?;
      }
    }
  }

  lemma FetchKeeps(env: Env, part: nat, sh: Shared, w: Worker, count: nat, key: string)
    requires part < |sh.log| && part < |sh.durable| && part < |sh.replayEnd|
    requires WorkerOk(env, part, sh, w) && WorkerLegal(env, part, sh, w, Fetch(count, key))
    requires sh.archive.Keys <= sh.keys
    ensures var (later, after) := WorkerApply(env, part, sh, w, Fetch(count, key));
            WorkerOk(env, part, later, after)
  {
    hide Fits, Parses;
    var log := sh.log[part];
    var (later, after) := WorkerApply(env, part, sh, w, Fetch(count, key));
    var before, fetched := InHand(log, w), Fetched(sh, part, w, count);
    var together := InHand(log, after);
    assert together == before + fetched;
    forall i | 0 <= i < |together|
      ensures EntryFits(env, together[i])
    {
      if i < |before| {
        assert EntryFits(env, before[i]);
      } else {
        assert EntryFits(env, fetched[i - |before|]);
      }
    }
    var open := if w.pack.Some? then w.pack.value else OpenPack(key, MAGIC);
    if w.pack.None? {
      UnreadableAddNothing(env, open.key, part, w.committed, EMPTY_BATCH, before);
    }
    AppendAllSplits(env, open.key, part, w.committed, EMPTY_BATCH, before, fetched);
    if !AnyReadable(fetched) {
      UnreadableAddNothing(env, open.key, part, w.cursor, Batch(open.bytes, w.rows), fetched);
      if w.pack.None? {
        NoneReadable(before, fetched);
      }
    }
  }

  lemma PutKeeps(env: Env, part: nat, sh: Shared, w: Worker, stored: nat, modified: int, put: Outcome)
    requires part < |sh.log| && part < |sh.durable| && part < |sh.replayEnd|
    requires WorkerOk(env, part, sh, w) && WorkerLegal(env, part, sh, w, PutObject(stored, modified, put))
    ensures var (later, after) := WorkerApply(env, part, sh, w, PutObject(stored, modified, put));
            WorkerOk(env, part, later, after)
  {
    hide AppendAll;
    DiscardedOk(env, part, sh, w);
  }

  lemma HeadKeeps(env: Env, part: nat, sh: Shared, w: Worker)
    requires part < |sh.log| && part < |sh.durable| && part < |sh.replayEnd|
    requires WorkerOk(env, part, sh, w) && WorkerLegal(env, part, sh, w, HeadObject) && ObjectsOk(sh)
    ensures var (later, after) := WorkerApply(env, part, sh, w, HeadObject);
            WorkerOk(env, part, later, after)
  {
    hide AppendAll;
  }

  /** The rows in hand cover what is in hand. */
  lemma InHandCovered(env: Env, part: nat, sh: Shared, w: Worker, rows: seq<Stored>)
    requires part < |sh.log| && part < |sh.durable|
    requires WorkerOk(env, part, sh, w) && w.pack.Some?
    ensures AllCovered(env, sh.log[part], rows + w.rows, part, w.committed, w.cursor)
  {
    forall o | w.committed <= o < w.cursor && Parses(env, sh.log[part][o])
      ensures Covers(rows + w.rows, part, o)
    {
      var entries := InHand(sh.log[part], w);
      BatchIsComplete(env, w.pack.value.key, part, w.committed, entries, o - w.committed);
      CoversMore(rows, w.rows, part, o);
    }
  }

  lemma InsertKeeps(env: Env, part: nat, sh: Shared, w: Worker, insert: Outcome)
    requires part < |sh.log| && part < |sh.durable| && part < |sh.replayEnd|
    requires WorkerOk(env, part, sh, w) && WorkerLegal(env, part, sh, w, InsertRows(insert))
    ensures var (later, after) := WorkerApply(env, part, sh, w, InsertRows(insert));
            WorkerOk(env, part, later, after)
  {
    hide AppendAll, Covers;
    DiscardedOk(env, part, sh, w);
    InHandCovered(env, part, sh, w, sh.index);
  }

  lemma InsertGamesKeeps(env: Env, part: nat, sh: Shared, w: Worker, score: Outcome)
    requires part < |sh.log| && part < |sh.durable| && part < |sh.replayEnd|
    requires WorkerOk(env, part, sh, w) && WorkerLegal(env, part, sh, w, InsertGames(score))
    ensures var (later, after) := WorkerApply(env, part, sh, w, InsertGames(score));
            WorkerOk(env, part, later, after)
  {
    hide AppendAll, Covers;
    DiscardedOk(env, part, sh, w);
    InHandCovered(env, part, sh, w, sh.scored);
  }

  /** Once the rows of everything in hand are inserted, the offset can move to the cursor. */
  lemma CommitKeeps(env: Env, part: nat, sh: Shared, w: Worker, commit: Outcome)
    requires part < |sh.log| && part < |sh.durable| && part < |sh.replayEnd|
    requires WorkerOk(env, part, sh, w) && WorkerLegal(env, part, sh, w, Commit(commit)) && Committed(env, sh, part)
    ensures var (later, after) := WorkerApply(env, part, sh, w, Commit(commit));
            WorkerOk(env, part, later, after) && Committed(env, later, part)
  {
    hide AppendAll, Covers;
    var (later, after) := WorkerApply(env, part, sh, w, Commit(commit));
    DiscardedOk(env, part, later, w);
    assert AllCovered(env, sh.log[part], sh.index, part, 0, w.cursor);
    assert AllCovered(env, sh.log[part], sh.scored, part, 0, w.cursor);
  }

  lemma WorkerStepKeeps(env: Env, part: nat, sh: Shared, w: Worker, step: WorkerStep)
    requires part < |sh.log| && part < |sh.durable| && part < |sh.replayEnd|
    requires WorkerOk(env, part, sh, w) && WorkerLegal(env, part, sh, w, step)
    requires ObjectsOk(sh) && Committed(env, sh, part)
    ensures var (later, after) := WorkerApply(env, part, sh, w, step);
            WorkerOk(env, part, later, after) && Committed(env, later, part)
  {
    hide AppendAll, Covers;
    match step
    case Fetch(count, key) => FetchKeeps(env, part, sh, w, count, key);
    case Seal =>
    case PutObject(stored, modified, put) => PutKeeps(env, part, sh, w, stored, modified, put);
    case HeadObject => HeadKeeps(env, part, sh, w);
    case InsertRows(insert) =>
      InsertKeeps(env, part, sh, w, insert);
      CommittedStays(env, part, sh, WorkerApply(env, part, sh, w, step).0);
    case InsertGames(score) =>
      InsertGamesKeeps(env, part, sh, w, score);
      CommittedStays(env, part, sh, WorkerApply(env, part, sh, w, step).0);
    case Commit(commit) => CommitKeeps(env, part, sh, w, commit);
    case Discard => DiscardedOk(env, part, sh, w);
    case Crash => DiscardedOk(env, part, sh, w);
  }

  // ------------------------------------------------------------------------------------------- the whole system

  /** What a step of one worker does to what it shares: logs, rows and objects only grow, the only object it may add is
      its own, and a pack it opens has a new key. */
  lemma StepGrows(env: Env, part: nat, sh: Shared, w: Worker, step: WorkerStep, other: nat)
    requires part < |sh.log| && part < |sh.durable| && part < |sh.replayEnd| && other < |sh.durable|
    requires WorkerOk(env, part, sh, w) && WorkerLegal(env, part, sh, w, step)
    ensures var (later, after) := WorkerApply(env, part, sh, w, step);
            && later.log == sh.log && |later.durable| == |sh.durable|
            && (other != part ==> later.durable[other] == sh.durable[other])
            && sh.index <= later.index && sh.scored <= later.scored && sh.keys <= later.keys
            && (forall k :: k in sh.archive ==> k in later.archive && later.archive[k] == sh.archive[k])
            && (forall k :: k in later.archive ==> k in sh.archive || Holds(w, k))
            && (after.pack.Some? ==> Holds(w, after.pack.value.key) || after.pack.value.key !in sh.keys)
  {
    hide AppendAll, Parses, Covers, AllCovered, AnyReadable, Fetched, AllEntriesFit, EndsWith;
    assert w.phase == Sealed && w.pack.Some? ==> w.pack.value.key !in sh.archive;
  }

  lemma StepKeepsObjects(env: Env, part: nat, sh: Shared, w: Worker, step: WorkerStep)
    requires part < |sh.log| && part < |sh.durable| && part < |sh.replayEnd|
    requires WorkerOk(env, part, sh, w) && WorkerLegal(env, part, sh, w, step) && ObjectsOk(sh)
    ensures ObjectsOk(WorkerApply(env, part, sh, w, step).0)
  {
    hide AppendAll, Parses, Covers, AllCovered, AnyReadable, Fetched, AllEntriesFit, EndsWith;
    assert w.phase == Sealed && w.pack.Some? ==> w.pack.value.key in sh.keys;
  }

  /** What a step of one worker looks like to the others. */
  lemma OthersSeeGrowth(env: Env, s: State, part: nat, step: WorkerStep, other: nat)
    requires Shaped(env, s) && Inv(env, s) && Legal(env, s, Work(part, step))
    requires other < |s.workers| && other != part
    ensures var (later, after) := WorkerApply(env, part, s.sh, s.workers[part], step);
            Extends(s.sh, later, other, KeyOf(s.workers[other]))
  {
    hide WorkerOk, WorkerApply, AllDescribed, Committed, ObjectsOk;
    StepGrows(env, part, s.sh, s.workers[part], step, other);
    if s.workers[other].pack.Some? {
      assert !Holds(s.workers[part], s.workers[other].pack.value.key);
    }
  }

  /** The rows a worker inserts describe log entries and read back from the object it uploaded. */
  lemma InsertedRowsDescribed(env: Env, part: nat, sh: Shared, w: Worker, i: nat)
    requires Lawful(env.codec) && part < |sh.log| && part < |sh.durable|
    requires WorkerOk(env, part, sh, w) && w.phase == Checked && w.pack.Some? && i < |w.rows|
    ensures Described(env, sh, w.rows[i])
  {
    hide RowMatches, ReadsBack, Parses, Covers;
    BatchIsSound(env, w.pack.value.key, part, w.committed, InHand(sh.log[part], w));
    assert RowOfBatch(env, w.pack.value.key, part, w.committed, w.pack.value.bytes, InHand(sh.log[part], w), w.rows[i]);
  }

  lemma RowsStayDescribed(env: Env, s: State, part: nat, step: WorkerStep)
    requires GoodEnv(env) && Shaped(env, s) && Inv(env, s) && Legal(env, s, Work(part, step))
    ensures AllDescribed(env, WorkerApply(env, part, s.sh, s.workers[part], step).0)
  {
    hide RowMatches, ReadsBack, Parses, AppendAll, Covers;
    var w := s.workers[part];
    assert WorkerOk(env, part, s.sh, w);
    var later := WorkerApply(env, part, s.sh, w, step).0;
    forall i | 0 <= i < |later.index|
      ensures Described(env, later, later.index[i])
    {
      if i < |s.sh.index| {
        assert Described(env, s.sh, s.sh.index[i]);
      } else {
        InsertedRowsDescribed(env, part, s.sh, w, i - |s.sh.index|);
      }
    }
  }

  lemma KeyIsKnown(env: Env, part: nat, sh: Shared, w: Worker)
    requires part < |sh.log| && part < |sh.durable| && WorkerOk(env, part, sh, w) && w.pack.Some?
    ensures w.pack.value.key in sh.keys
  {
    hide AppendAll, AllCovered;
  }

  lemma KeysStayApart(env: Env, s: State, part: nat, step: WorkerStep)
    requires Shaped(env, s) && Inv(env, s) && Legal(env, s, Work(part, step))
    ensures KeysApart(Apply(env, s, Work(part, step)).workers)
    ensures ObjectsOk(WorkerApply(env, part, s.sh, s.workers[part], step).0)
  {
    hide WorkerOk, WorkerApply, AllDescribed, Committed, ObjectsOk;
    var t := Apply(env, s, Work(part, step));
    StepGrows(env, part, s.sh, s.workers[part], step, part);
    StepKeepsObjects(env, part, s.sh, s.workers[part], step);
    forall p, q | 0 <= p < |t.workers| && 0 <= q < |t.workers| && p != q && t.workers[p].pack.Some?
      ensures !Holds(t.workers[q], t.workers[p].pack.value.key)
    {
      if s.workers[p].pack.Some? {
        KeyIsKnown(env, p, s.sh, s.workers[p]);
      }
      if s.workers[q].pack.Some? {
        KeyIsKnown(env, q, s.sh, s.workers[q]);
      }
    }
  }

  lemma WorkKeeps(env: Env, s: State, part: nat, step: WorkerStep)
    requires GoodEnv(env) && Shaped(env, s) && Inv(env, s) && Legal(env, s, Work(part, step))
    ensures Inv(env, Apply(env, s, Work(part, step)))
  {
    hide AppendAll, Covers, Described, Parses;
    var (later, after) := WorkerApply(env, part, s.sh, s.workers[part], step);
    var t := Apply(env, s, Work(part, step));
    assert WorkerOk(env, part, s.sh, s.workers[part]);
    RowsStayDescribed(env, s, part, step);
    forall p | 0 <= p < |t.workers|
      ensures WorkerOk(env, p, later, t.workers[p]) && Committed(env, later, p)
    {
      if p == part {
        WorkerStepKeeps(env, part, s.sh, s.workers[part], step);
      } else {
        OthersSeeGrowth(env, s, part, step, p);
        WorkerStays(env, p, s.sh, later, s.workers[p]);
        CommittedStays(env, p, s.sh, later);
      }
    }
    KeysStayApart(env, s, part, step);
  }

  lemma ActionKeeps(env: Env, s: State, a: Action)
    requires GoodEnv(env) && Shaped(env, s) && Inv(env, s) && Legal(env, s, a)
    ensures Inv(env, Apply(env, s, a))
  {
    hide WorkerOk, Described, AllCovered;
    match a
    case Produce(m) => LogGrows(env, s, PartitionFor(env, m.id), Readable(m));
    case Reindex(m, _) => LogGrows(env, s, PartitionFor(env, m.id), Readable(m));
    case Redeliver(p, o) => LogGrows(env, s, p, s.sh.log[p][o]);
    case Foreign(p) => LogGrows(env, s, p, Unreadable);
    case Work(p, step) => WorkKeeps(env, s, p, step);
    case Tick(_) => SharedSame(env, s, Apply(env, s, a));
    case QueryKeys(_) =>
    case ListPage(_) =>
    case Decide =>
    case Delete(_) => SharedSame(env, s, Apply(env, s, a));
    case Abort =>
  }

  /** Neither the clock nor a deletion touches what the invariant speaks of. */
  lemma SharedSame(env: Env, s: State, t: State)
    requires Shaped(env, s) && Shaped(env, t) && Inv(env, s) && t.workers == s.workers && ObjectsOk(t.sh)
    requires t.sh == s.sh.(now := t.sh.now, bucket := t.sh.bucket)
    ensures Inv(env, t)
  {
    DescribedStays(env, s.sh, t.sh);
    forall p | 0 <= p < |s.workers|
      ensures WorkerOk(env, p, t.sh, t.workers[p]) && Committed(env, t.sh, p)
    {
      WorkerStays(env, p, s.sh, t.sh, s.workers[p]);
      CommittedStays(env, p, s.sh, t.sh);
    }
  }

  /** Every reachable state satisfies the invariant. */
  lemma {:induction false} RunKeeps(env: Env, actions: seq<Action>)
    requires GoodEnv(env) && Run(env, actions).Some?
    ensures Inv(env, Run(env, actions).value)
  {
    if actions == [] {
      var s := Init(env);
      forall p | 0 <= p < |s.workers|
        ensures WorkerOk(env, p, s.sh, s.workers[p])
      {
        assert InHand(s.sh.log[p], s.workers[p]) == [];
      }
    } else {
      var n := |actions| - 1;
      RunKeeps(env, actions[..n]);
      ActionKeeps(env, Run(env, actions[..n]).value, actions[n]);
    }
  }

  // ------------------------------------------------------------------------------------------------- main results

  /** In every run, each parseable message below the committed offset of its partition has an index row, under its own
      sorting key, with its own columns, whose location reads back exactly its raw bytes and its non-empty protobuf
      from an object that was uploaded whole; and its seat rows were inserted too. */
  lemma NothingCommittedIsMissing(env: Env, actions: seq<Action>, part: nat, offset: nat)
    requires GoodEnv(env) && Run(env, actions).Some?
    requires part < env.partitions
    requires var sh := Run(env, actions).value.sh;
             && offset < sh.durable[part] && offset < |sh.log[part]|
             && sh.log[part][offset].Readable? && env.parse(sh.log[part][offset].message.raw).Some?
    ensures var sh := Run(env, actions).value.sh;
            && (exists i :: 0 <= i < |sh.index| && sh.index[i].part == part && sh.index[i].offset == offset
                  && Described(env, sh, sh.index[i]))
            && Covers(sh.scored, part, offset)
  {
    RunKeeps(env, actions);
    var sh := Run(env, actions).value.sh;
    assert Committed(env, sh, part);
    assert Covers(sh.index, part, offset);
    var i :| 0 <= i < |sh.index| && sh.index[i].part == part && sh.index[i].offset == offset;
    assert Described(env, sh, sh.index[i]);
  }

  /** Conversely the index holds nothing else: every row ever inserted describes a message of the log. */
  lemma NoRowIsInvented(env: Env, actions: seq<Action>, i: nat)
    requires GoodEnv(env) && Run(env, actions).Some?
    requires i < |Run(env, actions).value.sh.index|
    ensures var sh := Run(env, actions).value.sh;
            Described(env, sh, sh.index[i])
  {
    RunKeeps(env, actions);
  }

  /** What a worker holds but has not committed is exactly the parseable messages between its committed offset and its
      cursor: each of them has its row in hand, and each row in hand is one of them. */
  lemma RowsInHandAreExact(env: Env, actions: seq<Action>, part: nat)
    requires GoodEnv(env) && Run(env, actions).Some? && part < env.partitions
    ensures var s := Run(env, actions).value;
            var w, log := s.workers[part], s.sh.log[part];
            && w.committed <= w.cursor <= |log|
            && AllCovered(env, log, w.rows, part, w.committed, w.cursor)
            && forall r :: 0 <= r < |w.rows| ==>
                 && w.rows[r].part == part && w.committed <= w.rows[r].offset < w.cursor
                 && Parses(env, log[w.rows[r].offset])
                 && RowMatches(env, w.rows[r].row, log[w.rows[r].offset].message)
  {
    hide AppendAll, RowMatches, ReadsBack, Covers, Run;
    RunKeeps(env, actions);
    var s := Run(env, actions).value;
    var w, log := s.workers[part], s.sh.log[part];
    assert WorkerOk(env, part, s.sh, w);
    if w.pack.Some? {
      InHandCovered(env, part, s.sh, w, []);
      assert [] + w.rows == w.rows;
      BatchIsSound(env, w.pack.value.key, part, w.committed, InHand(log, w));
      forall r | 0 <= r < |w.rows|
        ensures w.rows[r].part == part && w.committed <= w.rows[r].offset < w.cursor
        ensures Parses(env, log[w.rows[r].offset]) && RowMatches(env, w.rows[r].row, log[w.rows[r].offset].message)
      {
        assert RowOfBatch(env, w.pack.value.key, part, w.committed, w.pack.value.bytes, InHand(log, w), w.rows[r]);
      }
    } else {
      forall o | w.committed <= o < w.cursor
        ensures !Parses(env, log[o])
      {
        assert !InHand(log, w)[o - w.committed].Readable?;
      }
    }
  }
}
