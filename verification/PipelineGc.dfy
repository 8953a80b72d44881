/** The collector of unreferenced objects, interleaved with the workers: when it can delete something a reader still
    needs, and when it cannot. `src/gc.rs`. */
module PipelineGc {
  import opened Prelude
  import opened PackFormat
  import opened Pipeline
  import opened PipelineSafety
  import opened PipelineInvariant
  import opened Scenarios

  /** An upload is too old for the rows of its pack to be inserted still. */
  predicate Expired(env: Env, sh: Shared, key: string)
    requires key in sh.archive
  {
    sh.now > sh.archive[key].putAt + env.insertDelay
  }

  /** Every row the `FINAL` view shows names an object that is in the bucket. */
  ghost predicate ShownArePresent(sh: Shared)
  {
    FinalKeys(sh.index) <= sh.bucket.Keys
  }

  ghost predicate StampsOk(env: Env, sh: Shared)
  {
    forall k :: k in sh.archive ==>
      && sh.archive[k].putAt <= sh.now
      && sh.archive[k].putAt - env.skew <= sh.archive[k].modified
  }

  ghost predicate CollectorOk(env: Env, sh: Shared, gc: Collector)
  {
    match gc
    case Idle => true
    case Listing(referenced, at, listed) =>
      && at <= sh.now
      && (forall k :: k in listed ==> k in sh.archive && listed[k] == sh.archive[k].modified)
      && (forall k :: k in FinalKeys(sh.index) && k !in referenced ==>
            k in sh.archive && sh.archive[k].putAt + env.insertDelay >= at)
    case Deleting(todo) =>
      forall k :: k in todo ==> k in sh.archive && Expired(env, sh, k) && k !in FinalKeys(sh.index)
  }

  /** A pack about to be inserted is still in the bucket, or is too late to be inserted at all. */
  ghost predicate WorkerPresent(env: Env, sh: Shared, w: Worker)
  {
    w.phase == Checked && w.pack.Some? && w.pack.value.key in sh.archive && w.pack.value.key !in sh.bucket ==>
      Expired(env, sh, w.pack.value.key)
  }

  ghost predicate GcInv(env: Env, s: State)
  {
    && StampsOk(env, s.sh) && CollectorOk(env, s.sh, s.gc) && ShownArePresent(s.sh)
    && forall p :: 0 <= p < |s.workers| ==> WorkerPresent(env, s.sh, s.workers[p])
  }

  /** Inserting rows can only take keys out of the view or add the inserted ones. */
  lemma FinalKeysAfterInsert(index: seq<Stored>, rows: seq<Stored>)
    ensures FinalKeys(index + rows) <= FinalKeys(index) + AllKeys(rows)
  {
    var all := index + rows;
    forall i | 0 <= i < |all| && IsFinal(all, i)
      ensures all[i].row.storage.packKey in FinalKeys(index) + AllKeys(rows)
    {
      if i < |index| {
        forall j | i < j < |index|
          ensures SortKey(index[j].row) != SortKey(index[i].row)
        {
          assert all[j] == index[j];
        }
        assert IsFinal(index, i);
      } else {
        assert all[i] == rows[i - |index|];
      }
    }
  }

  /** All rows in hand name the pack in hand. */
  lemma RowsNamePack(env: Env, part: nat, sh: Shared, w: Worker)
    requires Lawful(env.codec) && part < |sh.log| && part < |sh.durable|
    requires WorkerOk(env, part, sh, w) && w.pack.Some?
    ensures AllKeys(w.rows) <= {w.pack.value.key}
  {
    hide AppendAll, RowMatches, ReadsBack, AllCovered, Parses;
    BatchIsSound(env, w.pack.value.key, part, w.committed, InHand(sh.log[part], w));
    forall i | 0 <= i < |w.rows|
      ensures w.rows[i].row.storage.packKey == w.pack.value.key
    {
      assert RowOfBatch(env, w.pack.value.key, part, w.committed, w.pack.value.bytes, InHand(sh.log[part], w), w.rows[i]);
    }
  }

  lemma InsertKeepsGc(env: Env, s: State, part: nat, insert: Outcome)
    requires GoodEnv(env) && Shaped(env, s) && Inv(env, s) && GcInv(env, s)
    requires Legal(env, s, Work(part, InsertRows(insert)))
    ensures GcInv(env, Apply(env, s, Work(part, InsertRows(insert))))
  {
    hide AppendAll, Described, AllCovered, FinalKeys, AllKeys;
    var w := s.workers[part];
    assert WorkerOk(env, part, s.sh, w);
    assert WorkerPresent(env, s.sh, w);
    var t := Apply(env, s, Work(part, InsertRows(insert)));
    if insert.Landed() {
      RowsNamePack(env, part, s.sh, w);
      FinalKeysAfterInsert(s.sh.index, w.rows);
    }
  }

  /** An upload lands under a key that was never used before. */
  lemma PutKeepsGc(env: Env, s: State, part: nat, step: WorkerStep)
    requires GoodEnv(env) && Shaped(env, s) && Inv(env, s) && GcInv(env, s)
    requires Legal(env, s, Work(part, step)) && step.PutObject?
    ensures GcInv(env, Apply(env, s, Work(part, step)))
  {
    hide AppendAll, Described, AllCovered, FinalKeys;
    assert WorkerOk(env, part, s.sh, s.workers[part]);
    var t := Apply(env, s, Work(part, step));
    forall p | 0 <= p < |t.workers|
      ensures WorkerPresent(env, t.sh, t.workers[p])
    {
      assert WorkerPresent(env, s.sh, s.workers[p]) && WorkerOk(env, p, s.sh, s.workers[p]);
    }
  }

  lemma WorkKeepsGc(env: Env, s: State, part: nat, step: WorkerStep)
    requires GoodEnv(env) && Shaped(env, s) && Inv(env, s) && GcInv(env, s)
    requires Legal(env, s, Work(part, step))
    ensures GcInv(env, Apply(env, s, Work(part, step)))
  {
    hide AppendAll, Described, AllCovered, FinalKeys;
    assert WorkerOk(env, part, s.sh, s.workers[part]);
    if step.InsertRows? {
      InsertKeepsGc(env, s, part, step.insert);
    } else if step.PutObject? {
      PutKeepsGc(env, s, part, step);
    }
  }

  /** The longest an object can wait for its rows, the time the collector takes from asking for the referenced keys to
      reading its clock, and the most the bucket's clock is off, together stay below the grace period. */
  predicate GraceCovers(env: Env)
  {
    env.insertDelay + env.queryGap + env.skew < env.grace
  }

  lemma DecideKeepsGc(env: Env, s: State)
    requires GraceCovers(env) && Shaped(env, s) && Inv(env, s) && GcInv(env, s) && Legal(env, s, Decide)
    ensures GcInv(env, Apply(env, s, Decide))
  {
    hide FinalKeys, WorkerOk, Described;
  }

  lemma ActionKeepsGc(env: Env, s: State, a: Action)
    requires GoodEnv(env) && GraceCovers(env)
    requires Shaped(env, s) && Inv(env, s) && GcInv(env, s) && Legal(env, s, a)
    ensures GcInv(env, Apply(env, s, a))
  {
    hide FinalKeys, WorkerOk, Described, PartitionFor, Committed;
    match a
    case Work(p, step) => WorkKeepsGc(env, s, p, step);
    case Decide => DecideKeepsGc(env, s);
    case _ =>
  }

  lemma {:induction false} RunKeepsGc(env: Env, actions: seq<Action>)
    requires GoodEnv(env) && GraceCovers(env) && Run(env, actions).Some?
    ensures GcInv(env, Run(env, actions).value)
  {
    if actions != [] {
      var n := |actions| - 1;
      RunKeepsGc(env, actions[..n]);
      RunKeeps(env, actions[..n]);
      ActionKeepsGc(env, Run(env, actions[..n]).value, actions[n]);
    }
  }

  // ------------------------------------------------------------------------------------------------ main results

  /** Over all interleavings of the workers and the collector, every row the view shows reads back, from an object the
      bucket still has, exactly the message it was built from. */
  lemma ShownRowsReadBack(env: Env, actions: seq<Action>, i: nat)
    requires GoodEnv(env) && GraceCovers(env) && Run(env, actions).Some?
    requires i < |Run(env, actions).value.sh.index| && IsFinal(Run(env, actions).value.sh.index, i)
    ensures var sh := Run(env, actions).value.sh;
            var st := sh.index[i];
            && st.row.storage.packKey in sh.bucket
            && st.part < |sh.log| && st.offset < |sh.log[st.part]| && sh.log[st.part][st.offset].Readable?
            && ReadsBack(env, sh.bucket[st.row.storage.packKey].bytes, st.row, sh.log[st.part][st.offset].message)
  {
    RunKeeps(env, actions);
    RunKeepsGc(env, actions);
    var sh := Run(env, actions).value.sh;
    assert Described(env, sh, sh.index[i]);
    assert sh.index[i].row.storage.packKey in FinalKeys(sh.index);
  }

  /** A second pack is uploaded, stamped as early as the bucket's clock allows, and not inserted yet. */
  lemma SecondUploaded(env: Env, id: RecordId, raw: Bytes) returns (actions: seq<Action>)
    requires GoodEnv(env) && Usable(env, raw)
    ensures Run(env, actions).Some?
    ensures var s, p := Run(env, actions).value, PartitionFor(env, id);
            && s.sh.now == 0 && s.gc == Idle
            && |s.sh.index| == 1 && s.sh.index[0].row.storage.packKey == FIRST_KEY
            && s.workers[p].phase == Checked && s.workers[p].pack.Some? && s.workers[p].pack.value.key == SECOND_KEY
            && s.workers[p].rows != []
            && s.workers[p].rows[|s.workers[p].rows| - 1].row.storage.packKey == SECOND_KEY
            && SECOND_KEY in s.sh.archive && s.sh.archive[SECOND_KEY].putAt == 0
            && SECOND_KEY in s.sh.bucket && s.sh.bucket[SECOND_KEY].modified == -(env.skew as int)
  {
    hide AppendAll, PartitionFor, IsFinal, Run, WorkerApply, WorkerLegal;
    var p := PartitionFor(env, id);
    actions := FirstPass(env, id, raw);
    RowsOfTwo(env, SECOND_KEY, p, 0, Original(id, raw), Reindexed(id, raw));
    var s := Run(env, actions).value;
    assert s.sh.log[p][0..2] == s.sh.log[p];
    actions := FillAndSeal(env, actions, p, 2, SECOND_KEY);
    actions := UploadAndCheck(env, actions, p, 0 - env.skew);
  }

  /** The collector asks for the referenced keys and lists the second pack. */
  lemma CollectorReads(env: Env, actions: seq<Action>) returns (longer: seq<Action>)
    requires GoodEnv(env) && Run(env, actions).Some?
    requires var s := Run(env, actions).value;
             s.gc == Idle && FinalKeys(s.sh.index) == {FIRST_KEY} == AllKeys(s.sh.index) && SECOND_KEY in s.sh.bucket
    ensures Run(env, longer).Some?
    ensures var s, t := Run(env, actions).value, Run(env, longer).value;
            && t.sh == s.sh && t.workers == s.workers
            && t.gc == Listing({FIRST_KEY}, s.sh.now, map[SECOND_KEY := s.sh.bucket[SECOND_KEY].modified])
  {
    hide PartitionFor, FinalKeys, AllKeys, WorkerApply, WorkerLegal;
    Extend(env, actions, QueryKeys({FIRST_KEY}));
    longer := actions + [QueryKeys({FIRST_KEY})];
    Extend(env, longer, ListPage({SECOND_KEY}));
    longer := longer + [ListPage({SECOND_KEY})];
  }

  lemma SecondReadThenLate(env: Env, id: RecordId, raw: Bytes) returns (actions: seq<Action>)
    requires GoodEnv(env) && Usable(env, raw)
    ensures Run(env, actions).Some?
    ensures var s := Run(env, actions).value;
            && s.sh.now == env.insertDelay
            && s.gc == Listing({FIRST_KEY}, env.insertDelay, map[SECOND_KEY := -(env.skew as int)])
            && Legal(env, s, Work(PartitionFor(env, id), InsertRows(Done)))
            && var rows := s.workers[PartitionFor(env, id)].rows;
               rows != [] && rows[|rows| - 1].row.storage.packKey == SECOND_KEY
  {
    hide PartitionFor, FinalKeys, AllKeys, WorkerApply, Run;
    actions := SecondUploaded(env, id, raw);
    OneShown(Run(env, actions).value.sh.index);
    Extend(env, actions, Tick(env.insertDelay));
    actions := actions + [Tick(env.insertDelay)];
    actions := CollectorReads(env, actions);
  }

  /** When the grace period is any shorter, there is a run that deletes an object the view names: it is uploaded, the
      referenced keys are read, its rows are inserted at the last moment allowed, and the collector judges by what it
      read. */
  lemma ShortGraceDeletesShown(env: Env, id: RecordId, raw: Bytes) returns (actions: seq<Action>)
    requires GoodEnv(env) && !GraceCovers(env) && Usable(env, raw)
    ensures Run(env, actions).Some? && !ShownArePresent(Run(env, actions).value.sh)
  {
    hide PartitionFor, FinalKeys, AllKeys, WorkerApply, WorkerLegal, Apply, Legal;
    actions := SecondReadThenLate(env, id, raw);
    actions := InsertAll(env, actions, PartitionFor(env, id));
    actions := CollectSecond(env, actions);
  }

  lemma OneShown(index: seq<Stored>)
    requires |index| == 1
    ensures FinalKeys(index) == {index[0].row.storage.packKey} == AllKeys(index)
  {
    assert IsFinal(index, 0);
  }

  lemma LastIsShown(index: seq<Stored>)
    requires index != []
    ensures index[|index| - 1].row.storage.packKey in FinalKeys(index)
  {
    assert IsFinal(index, |index| - 1);
  }

  lemma CollectSecond(env: Env, actions: seq<Action>) returns (longer: seq<Action>)
    requires GoodEnv(env) && !GraceCovers(env) && Run(env, actions).Some?
    requires var s := Run(env, actions).value;
             && s.gc == Listing({FIRST_KEY}, env.insertDelay, map[SECOND_KEY := -(env.skew as int)])
             && s.sh.now == env.insertDelay
             && s.sh.index != [] && s.sh.index[|s.sh.index| - 1].row.storage.packKey == SECOND_KEY
    ensures Run(env, longer).Some? && !ShownArePresent(Run(env, longer).value.sh)
  {
    hide PartitionFor, IsFinal, FinalKeys, Run, WorkerApply, WorkerLegal;
    Extend(env, actions, Tick(env.insertDelay + env.queryGap));
    longer := actions + [Tick(env.insertDelay + env.queryGap)];
    Extend(env, longer, Decide);
    longer := longer + [Decide];
    Extend(env, longer, Delete(SECOND_KEY));
    longer := longer + [Delete(SECOND_KEY)];
    LastIsShown(Run(env, longer).value.sh.index);
  }

  /** So the collector is safe in every run exactly when the grace period covers those delays. */
  lemma CollectorIsSafeIffGraceCovers(env: Env, raw: Bytes)
    requires GoodEnv(env) && Usable(env, raw)
    ensures (forall actions: seq<Action> ::
               Run(env, actions).Some? ==> ShownArePresent(Run(env, actions).value.sh))
            <==> GraceCovers(env)
  {
    if GraceCovers(env) {
      forall actions: seq<Action> | Run(env, actions).Some?
        ensures ShownArePresent(Run(env, actions).value.sh)
      {
        RunKeepsGc(env, actions);
      }
    } else {
      var actions := ShortGraceDeletesShown(env, NIL_ID, raw);
    }
  }
}
