/** The worker as the program runs it: an object whose methods drive the services in order and fall back to the last
    committed offset on any failure. Each method is proved to do nothing but steps of `Pipeline`, so that every result
    about the step system is a result about it. `src/indexer.rs`. */
module PackWorkers {
  import opened Prelude
  import opened PackFormat
  import opened Pipeline
  import opened PipelineSafety

  // ---------------------------------------------------------------------------------------------- step sequences

  /** Where a sequence of steps of one worker leads, if each of them is possible. */
  function Follow(env: Env, part: nat, sh: Shared, w: Worker, steps: seq<WorkerStep>): (end: Option<(Shared, Worker)>)
    requires part < |sh.log| && part < |sh.durable| && part < |sh.replayEnd|
    ensures end.Some? ==>
              && |end.value.0.log| == |sh.log| && |end.value.0.durable| == |sh.durable|
              && |end.value.0.replayEnd| == |sh.replayEnd|
  {
    if steps == [] then Some((sh, w))
    else
      var n := |steps| - 1;
      match Follow(env, part, sh, w, steps[..n])
      case None => None
      case Some((sh', w')) =>
        if WorkerLegal(env, part, sh', w', steps[n]) then Some(WorkerApply(env, part, sh', w', steps[n])) else None
  }

  lemma FollowMore(env: Env, part: nat, sh: Shared, w: Worker, steps: seq<WorkerStep>, step: WorkerStep)
    requires part < |sh.log| && part < |sh.durable| && part < |sh.replayEnd|
    requires Follow(env, part, sh, w, steps).Some?
    requires var (sh', w') := Follow(env, part, sh, w, steps).value; WorkerLegal(env, part, sh', w', step)
    ensures var (sh', w') := Follow(env, part, sh, w, steps).value;
            Follow(env, part, sh, w, steps + [step]) == Some(WorkerApply(env, part, sh', w', step))
  {
    assert (steps + [step])[..|steps|] == steps;
  }

  /** Whatever one worker does between two states of a run is itself a run. */
  lemma {:induction false} FollowIsRun(env: Env, actions: seq<Action>, part: nat, steps: seq<WorkerStep>)
    returns (longer: seq<Action>)
    requires env.partitions > 0 && Run(env, actions).Some? && part < env.partitions
    requires var s := Run(env, actions).value; Follow(env, part, s.sh, s.workers[part], steps).Some?
    ensures Run(env, longer).Some?
    ensures var s := Run(env, actions).value;
            var (sh, w) := Follow(env, part, s.sh, s.workers[part], steps).value;
            Run(env, longer).value == s.(sh := sh, workers := s.workers[part := w])
  {
    hide WorkerApply, WorkerLegal;
    var s := Run(env, actions).value;
    if steps == [] {
      assert s.workers[part := s.workers[part]] == s.workers;
      longer := actions;
    } else {
      var n := |steps| - 1;
      var before := FollowIsRun(env, actions, part, steps[..n]);
      longer := before + [Work(part, steps[n])];
      assert longer[..|before|] == before;
      var (sh, w) := Follow(env, part, s.sh, s.workers[part], steps[..n]).value;
      assert s.workers[part := w][part] == w;
    }
  }

  // -------------------------------------------------------------------------------------------------- services

  /** How the calls of one hand-over come back: whether the staged file syncs and reads back, how many bytes at the end
      of the object the bucket loses and how it stamps it, and the outcome of each call. */
  datatype Script = Script(
    staged: bool,
    put: Outcome, lost: nat, modified: int,
    headAnswered: bool,
    insert: Outcome, score: Outcome, commit: Outcome)
  {
    function StoredOf(size: nat): (stored: nat)
      ensures stored <= size
    {
      if lost <= size then size - lost else 0
    }

    predicate AllDone()
    {
      staged && put == Done && lost == 0 && headAnswered && insert == Done && score == Done && commit == Done
    }
  }

  /** The calls of an upload: the put, and the check when it was answered. */
  ghost function UploadSteps(script: Script, size: nat): seq<WorkerStep>
  {
    [PutObject(script.StoredOf(size), script.modified, script.put)]
    + if !script.put.Answered() then []
      else if script.headAnswered && script.StoredOf(size) == size then [HeadObject] else [Discard]
  }

  /** The calls that follow: rows, seat rows, offset, each once the one before it was answered. */
  ghost function IndexSteps(script: Script): seq<WorkerStep>
  {
    [InsertRows(script.insert)]
    + if !script.insert.Answered() then []
      else [InsertGames(script.score)] + if script.score.Answered() then [Commit(script.commit)] else []
  }

  ghost function DeliverySteps(script: Script, size: nat): seq<WorkerStep>
  {
    UploadSteps(script, size)
    + if script.put.Answered() && script.headAnswered && script.StoredOf(size) == size then IndexSteps(script) else []
  }

  /** A whole hand-over, as far as it gets. */
  ghost function HandOverSteps(script: Script, size: nat): seq<WorkerStep>
  {
    [WorkerStep.Seal] + if script.staged then DeliverySteps(script, size) else [Discard]
  }

  /** When a pack is sealed: it is full, or old, or idle while nothing is left to consume. */
  predicate ShouldSeal(size: nat, target: nat, age: nat, maxAge: nat, idleAge: nat, atEndOfLog: bool)
  {
    size >= target || age >= maxAge || (atEndOfLog && age >= idleAge)
  }

  const U32_MAX: nat := 0xFFFF_FFFF

  /** How many bytes a log entry takes in a pack. */
  ghost function FrameSize(env: Env, entry: Entry): nat
    requires EntryFits(env, entry)
  {
    if Parses(env, entry) then |Frames(env, entry.message)| else 0
  }

  ghost function FrameSizes(env: Env, entries: seq<Entry>): nat
    requires AllEntriesFit(env, entries)
  {
    if entries == [] then 0
    else FrameSizes(env, entries[..|entries| - 1]) + FrameSize(env, entries[|entries| - 1])
  }

  lemma NoEntryYet(env: Env, key: string, part: nat, base: nat, batch: Batch, entries: seq<Entry>)
    ensures AllEntriesFit(env, entries[..0]) && FrameSizes(env, entries[..0]) == 0
    ensures AppendAll(env, key, part, base, batch, entries[..0]) == batch
  {
  }

  /** What one more entry of a batch adds. */
  lemma OneEntryMore(env: Env, key: string, part: nat, base: nat, batch: Batch, entries: seq<Entry>, i: nat)
    requires i < |entries| && AllEntriesFit(env, entries[..i])
    ensures AllEntriesFit(env, entries) ==>
              && EntryFits(env, entries[i]) && AllEntriesFit(env, entries[..i + 1])
              && FrameSizes(env, entries[..i + 1]) <= FrameSizes(env, entries)
    ensures EntryFits(env, entries[i]) ==>
              && AllEntriesFit(env, entries[..i + 1])
              && FrameSizes(env, entries[..i + 1]) == FrameSizes(env, entries[..i]) + FrameSize(env, entries[i])
              && AppendAll(env, key, part, base, batch, entries[..i + 1])
                 == AppendEntry(env, key, part, base + i,
                                AppendAll(env, key, part, base, batch, entries[..i]), entries[i])
  {
    hide EntryFits, AppendEntry, FrameSize;
    assert entries[..i + 1][..i] == entries[..i];
    if AllEntriesFit(env, entries) {
      SizesGrow(env, entries, i + 1);
    }
  }

  lemma {:induction false} SizesGrow(env: Env, entries: seq<Entry>, n: nat)
    requires AllEntriesFit(env, entries) && n <= |entries|
    ensures FrameSizes(env, entries[..n]) <= FrameSizes(env, entries)
    decreases |entries|
  {
    if n == |entries| {
      assert entries[..n] == entries;
    } else {
      assert entries[..|entries| - 1][..n] == entries[..n];
      SizesGrow(env, entries[..|entries| - 1], n);
    }
  }

  datatype Config = Config(target: nat, maxAge: nat, idleAge: nat)

  /** The services outside the process, as one worker sees them. */
  class Services {
    const env: Env
    var log: seq<seq<Entry>>
    var durable: seq<nat>
    var bucket: map<string, Object>
    var index: seq<Stored>
    var scored: seq<Stored>
    var now: int
    ghost var replayEnd: seq<nat>
    ghost var archive: map<string, Object>
    ghost var keys: set<string>

    constructor (env: Env)
      ensures this.env == env && View() == Init(env).sh
    {
      this.env := env;
      log, durable := Repeat(env.partitions, []), Repeat(env.partitions, 0);
      bucket, index, scored, now := map[], [], [], 0;
      replayEnd, archive, keys := Repeat(env.partitions, 0), map[], {};
    }

    ghost function View(): Shared
      reads this
    {
      Shared(log, durable, replayEnd, bucket, archive, index, scored, keys, now)
    }

    /** The bucket holds nothing but what was put there, under keys that were used. */
    ghost predicate Consistent()
      reads this
    {
      && archive.Keys <= keys
      && forall k :: k in bucket ==> k in archive && bucket[k] == archive[k]
    }

    ghost predicate HasPartition(part: nat)
      reads this
    {
      part < |log| && part < |durable| && part < |replayEnd|
    }
  }

  // -------------------------------------------------------------------------------------------------- the worker

  class PackWorker {
    const part: nat
    const services: Services
    var cursor: nat
    var committed: nat
    var atEndOfLog: bool
    var sealFailures: nat
    var open: PackWriter?
    var rows: seq<Stored>
    /** How far the pack taken out of `open` has come, while it is being handed over. */
    ghost var phase: Phase
    ghost var handed: Option<OpenPack>

    ghost function View(): Worker
      reads this, open
    {
      Worker(cursor, committed, phase, if open != null then Some(OpenPack(open.key, open.file)) else handed, rows)
    }

    /** Between two calls: nothing is being handed over, and an open pack is whole. */
    ghost predicate Valid()
      reads this, open, services
    {
      && services.HasPartition(part)
      && phase == Filling && handed.None?
      && (open != null ==> open.Valid() && open.codec == services.env.codec && open.key in services.keys)
    }

    /** The open pack has never been uploaded. */
    ghost predicate NotUploaded()
      reads this, open, services
    {
      open != null ==> open.key !in services.archive
    }

    constructor (services: Services, part: nat)
      requires services.HasPartition(part)
      ensures Valid() && this.services == services && this.part == part
      ensures View() == Started(services.durable[part])
    {
      this.services := services;
      this.part := part;
      cursor, committed := services.durable[part], services.durable[part];
      atEndOfLog, sealFailures := false, 0;
      open, rows := null, [];
      phase, handed := Filling, None;
    }

    /** Throws away everything not yet committed and goes back to the last committed offset. */
    method ThrowAway() returns (ghost steps: seq<WorkerStep>)
      requires services.HasPartition(part)
      modifies this
      ensures Valid() && open == null && View() == Discarded(old(View()))
      ensures sealFailures == old(sealFailures) && atEndOfLog == old(atEndOfLog) && steps == [Discard]
    {
      open, rows := null, [];
      cursor := committed;
      phase, handed := Filling, None;
      steps := [Discard];
    }

    /** Appends a fetched batch to the pack, opening one under a fresh key if none is open. `disk` is how many more
        bytes the disk takes. Success does what one fetch step does, short of moving the cursor; after a failure only
        `ThrowAway` may follow. */
    method Append(entries: seq<Entry>, key: string, disk: nat) returns (ok: bool)
      requires Valid() && entries != []
      requires cursor + |entries| <= |services.log[part]|
      requires entries == services.log[part][cursor..cursor + |entries|]
      requires open == null ==> key !in services.keys && EndsWith(key, PACK_SUFFIX)
      modifies this, open, services`keys
      ensures cursor == old(cursor) && committed == old(committed) && sealFailures == old(sealFailures)
      ensures atEndOfLog == old(atEndOfLog)
      ensures open == old(open) || (fresh(open) && open.key == key)
      ensures (forall i :: 0 <= i < |entries| ==> !entries[i].Readable?) ==> ok && open == old(open)
      ensures ok && open == null ==> forall i :: 0 <= i < |entries| ==> !entries[i].Readable?
      ensures services.View().(keys := {}) == old(services.View().(keys := {})) && old(services.keys) <= services.keys
      ensures !ok ==> services.View() == old(services.View())
      ensures AllEntriesFit(services.env, entries) && disk >= FrameSizes(services.env, entries) ==> ok
      ensures ok ==> Valid() && old(WorkerLegal(services.env, part, services.View(), View(), Fetch(|entries|, key)))
      ensures ok ==> (services.View(), View().(cursor := cursor + |entries|))
                     == old(WorkerApply(services.env, part, services.View(), View(), Fetch(|entries|, key)))
    {
      hide AppendAll;
      var env := services.env;
      ghost var sh0, w0 := services.View(), View();
      assert Fetched(sh0, part, w0, |entries|) == entries;
      if !AnyReadable(entries) {
        NothingToFit(env, entries);
        return true;
      }
      if open == null {
        open := new PackWriter(env.codec, key);
        services.keys := services.keys + {key};
      }
      ghost var started := OpenPack(open.key, open.file);
      ok := AppendBatch(entries, disk);
      if ok {
        FetchIs(env, part, sh0, w0, entries, key, started);
        assert services.keys == sh0.keys + {open.key};
      } else {
        services.keys := sh0.keys;
      }
    }

    /** The loop over one batch: what cannot be parsed is dropped, everything else goes to the pack, its protobuf
        straight after it, and gets its row. */
    method AppendBatch(entries: seq<Entry>, disk: nat) returns (ok: bool)
      requires Valid() && open != null
      modifies this`rows, open
      ensures ok ==> Valid() && AllEntriesFit(services.env, entries)
      ensures AllEntriesFit(services.env, entries) && disk >= FrameSizes(services.env, entries) ==> ok
      ensures ok ==> Batch(open.file, rows)
                     == AppendAll(services.env, open.key, part, cursor, old(Batch(open.file, rows)), entries)
    {
      hide AppendAll, AppendEntry, AllEntriesFit, EntryFits, FrameSizes, FrameSize;
      var env := services.env;
      var room := disk;
      ghost var before := Batch(open.file, rows);
      NoEntryYet(env, open.key, part, cursor, before, entries);
      for i := 0 to |entries|
        invariant Valid() && AllEntriesFit(env, entries[..i])
        invariant room == disk - FrameSizes(env, entries[..i])
        invariant Batch(open.file, rows) == AppendAll(env, open.key, part, cursor, before, entries[..i])
      {
        OneEntryMore(env, open.key, part, cursor, before, entries, i);
        ok, room := AppendMessage(entries[i], cursor + i, room);
        if !ok {
          return;
        }
      }
      assert entries[..|entries|] == entries;
      ok := true;
    }

    /** One turn of that loop. */
    method AppendMessage(entry: Entry, offset: nat, disk: nat) returns (ok: bool, room: nat)
      requires Valid() && open != null
      modifies this`rows, open
      ensures ok ==> Valid() && EntryFits(services.env, entry)
      ensures EntryFits(services.env, entry) && disk >= FrameSize(services.env, entry) ==> ok
      ensures ok ==> room == disk - FrameSize(services.env, entry)
      ensures ok ==> Batch(open.file, rows)
                     == AppendEntry(services.env, open.key, part, offset, old(Batch(open.file, rows)), entry)
    {
      hide EntryBytes, PackBytes;
      var env := services.env;
      if !Parses(env, entry) {
        return true, disk;
      }
      var m := entry.message;
      var size := open.size;
      ok, room := AppendFrame(m.id, m.raw, disk);
      if !ok {
        return;
      }
      if m.pb.Some? {
        ok, room := AppendFrame(m.id, m.pb.value, room);
        if !ok {
          return;
        }
      }
      rows := rows + [Stored(RowFor(env, open.key, size, m), part, offset)];
    }

    /** Appends one frame to the open pack. */
    method AppendFrame(id: RecordId, raw: Bytes, disk: nat) returns (ok: bool, room: nat)
      requires Valid() && open != null
      modifies open
      ensures ok <==> Fits(services.env.codec, raw) && disk >= |EntryBytes(services.env.codec, id, raw)|
      ensures ok ==> Valid() && open.file == old(open.file) + EntryBytes(services.env.codec, id, raw)
      ensures ok ==> open.size == |open.file| && room == disk - |EntryBytes(services.env.codec, id, raw)|
    {
      AppendGrowsIfFits(services.env.codec, open.key, open.records, id, raw);
      var r := open.Append(services.env.codec, id, raw, disk);
      ok := r.Success?;
      room := if ok then disk - |EntryBytes(services.env.codec, id, raw)| else 0;
    }

    /** Seals the open pack, reads it back, uploads it, checks its size, inserts its rows and its seat rows, and commits
        the cursor: in that order, stopping at the first call that does not come back. */
    method Seal(script: Script) returns (ok: bool, ghost steps: seq<WorkerStep>)
      requires Valid() && open != null
      requires services.Consistent() && NotUploaded()
      requires services.now - services.env.skew <= script.modified <= services.now + services.env.skew
      requires script.commit == ReplyLost ==> services.env.commitReplyLost
      modifies this, services
      ensures services.HasPartition(part) && services.Consistent()
      ensures sealFailures == old(sealFailures) && atEndOfLog == old(atEndOfLog)
      ensures Follow(services.env, part, old(services.View()), old(View()), steps)
              == Some((services.View(), if ok then View() else Discarded(View())))
      ensures steps == HandOverSteps(script, old(|open.file|))
      ensures ok ==> Valid() && open == null && cursor == committed == old(cursor) && rows == []
      ensures ok ==> services.durable[part] == old(cursor) && services.index == old(services.index) + old(rows)
      ensures ok <==> script.AllDone()
      ensures !ok ==> committed == old(committed)
    {
      var env := services.env;
      hide AppendAll, AllEntriesFit, Follow, WorkerApply, WorkerLegal, DeliverySteps, PackBytes, EntryBytes;
      ghost var sh0, w0 := services.View(), View();
      EmptyFollow(env, part, sh0, w0);
      var writer := open;
      var key, bytes := writer.key, writer.file;
      ok := false;
      steps := Took(sh0, w0, []);
      open := null;
      if !script.staged {
        FollowMore(env, part, sh0, w0, steps, WorkerStep.Discard);
        return false, steps + [WorkerStep.Discard];
      }
      ok, steps := Deliver(script, key, bytes, sh0, w0, steps);
    }

    /** All of a hand-over that goes beyond the disk. */
    method Deliver(script: Script, key: string, bytes: Bytes, ghost sh0: Shared, ghost w0: Worker,
                   ghost before: seq<WorkerStep>)
      returns (ok: bool, ghost steps: seq<WorkerStep>)
      requires services.HasPartition(part) && open == null && phase == Sealed
      requires handed == Some(OpenPack(key, bytes)) && services.Consistent() && key in services.keys
      requires bytes != []
      requires services.now - services.env.skew <= script.modified <= services.now + services.env.skew
      requires script.commit == ReplyLost ==> services.env.commitReplyLost
      requires part < |sh0.log| && part < |sh0.durable| && part < |sh0.replayEnd|
      requires Follow(services.env, part, sh0, w0, before) == Some((services.View(), View()))
      modifies this`phase, this`handed, this`committed, this`rows
      modifies services`bucket, services`archive, services`index, services`scored, services`durable, services`replayEnd
      ensures services.HasPartition(part) && services.Consistent()
      ensures Follow(services.env, part, sh0, w0, steps)
              == Some((services.View(), if ok then View() else Discarded(View())))
      ensures steps == before + DeliverySteps(script, |bytes|)
      ensures ok ==> phase == Filling && handed.None? && cursor == committed == old(cursor) && rows == []
      ensures ok ==> services.durable[part] == old(cursor) && services.index == old(services.index) + old(rows)
      ensures ok <==> script.(staged := true).AllDone()
      ensures !ok ==> committed == old(committed)
    {
      hide AppendAll, AllEntriesFit, Follow, WorkerApply, WorkerLegal, UploadSteps, IndexSteps;
      ok, steps := Upload(script, key, bytes, sh0, w0, before);
      if ok {
        ok, steps := IndexAndCommit(script, sh0, w0, steps);
      }
    }

    /** The first half of a hand-over: the upload, and the check of what the bucket made of it. */
    method Upload(script: Script, key: string, bytes: Bytes, ghost sh0: Shared, ghost w0: Worker,
                  ghost before: seq<WorkerStep>)
      returns (ok: bool, ghost steps: seq<WorkerStep>)
      requires services.HasPartition(part) && open == null && phase == Sealed
      requires handed == Some(OpenPack(key, bytes)) && services.Consistent() && key in services.keys
      requires services.now - services.env.skew <= script.modified <= services.now + services.env.skew
      requires part < |sh0.log| && part < |sh0.durable| && part < |sh0.replayEnd|
      requires Follow(services.env, part, sh0, w0, before) == Some((services.View(), View()))
      modifies this`phase, services`bucket, services`archive
      ensures Follow(services.env, part, sh0, w0, steps)
              == Some((services.View(), if ok then View() else Discarded(View())))
      ensures services.Consistent() && steps == before + UploadSteps(script, |bytes|)
      ensures ok ==> phase == Checked && key in services.archive && services.archive[key].putAt == services.now
      ensures ok <==> script.put == Done && script.headAnswered && script.StoredOf(|bytes|) == |bytes|
    {
      hide AppendAll, AllEntriesFit, Follow;
      var env := services.env;
      FollowMore(env, part, sh0, w0, before, PutObject(script.StoredOf(|bytes|), script.modified, script.put));
      steps := before + [PutObject(script.StoredOf(|bytes|), script.modified, script.put)];
      if script.put.Landed() {
        var blob := Object(bytes[..script.StoredOf(|bytes|)], script.modified, services.now);
        services.bucket := services.bucket[key := blob];
        services.archive := services.archive[key := blob];
      }
      if !script.put.Answered() {
        return false, steps;
      }
      phase := Put;
      if !script.headAnswered || |services.bucket[key].bytes| != |bytes| {
        FollowMore(env, part, sh0, w0, steps, WorkerStep.Discard);
        return false, steps + [WorkerStep.Discard];
      }
      FollowMore(env, part, sh0, w0, steps, HeadObject);
      phase := Checked;
      return true, steps + [HeadObject];
    }

    /** The second half of a hand-over: the pack is in the bucket, whole; its rows, its seat rows and the offset
        follow. */
    method IndexAndCommit(script: Script, ghost sh0: Shared, ghost w0: Worker, ghost before: seq<WorkerStep>)
      returns (ok: bool, ghost steps: seq<WorkerStep>)
      requires services.HasPartition(part) && open == null && phase == Checked && handed.Some?
      requires part < |sh0.log| && part < |sh0.durable| && part < |sh0.replayEnd|
      requires Follow(services.env, part, sh0, w0, before) == Some((services.View(), View()))
      requires handed.value.key in services.archive && services.archive[handed.value.key].putAt == services.now
      requires script.commit == ReplyLost ==> services.env.commitReplyLost
      modifies this`phase, this`handed, this`committed, this`rows
      modifies services`index, services`scored, services`durable, services`replayEnd
      ensures services.HasPartition(part)
      ensures Follow(services.env, part, sh0, w0, steps)
              == Some((services.View(), if ok then View() else Discarded(View())))
      ensures (ok ==> phase == Filling && handed.None?) && steps == before + IndexSteps(script)
      ensures ok ==> cursor == committed == old(cursor) && rows == []
      ensures ok ==> services.durable[part] == old(cursor) && services.index == old(services.index) + old(rows)
      ensures ok <==> script.insert == Done && script.score == Done && script.commit == Done
      ensures !ok ==> committed == old(committed)
    {
      hide Follow, AppendAll, AllEntriesFit, UploadSteps;
      var env := services.env;
      ok, steps := false, before;
      FollowMore(env, part, sh0, w0, steps, InsertRows(script.insert));
      steps := steps + [InsertRows(script.insert)];
      if script.insert.Landed() {
        services.index := services.index + rows;
        services.replayEnd := services.replayEnd[part := cursor];
      }
      if !script.insert.Answered() {
        return;
      }
      phase := Inserted;
      ok, steps := ScoreAndCommit(script, sh0, w0, steps);
    }

    /** The seat rows, then the offset. */
    method ScoreAndCommit(script: Script, ghost sh0: Shared, ghost w0: Worker, ghost before: seq<WorkerStep>)
      returns (ok: bool, ghost steps: seq<WorkerStep>)
      requires services.HasPartition(part) && open == null && phase == Inserted && handed.Some?
      requires part < |sh0.log| && part < |sh0.durable| && part < |sh0.replayEnd|
      requires Follow(services.env, part, sh0, w0, before) == Some((services.View(), View()))
      requires script.commit == ReplyLost ==> services.env.commitReplyLost
      modifies this`phase, this`handed, this`committed, this`rows, services`scored, services`durable
      ensures services.HasPartition(part)
      ensures Follow(services.env, part, sh0, w0, steps)
              == Some((services.View(), if ok then View() else Discarded(View())))
      ensures ok ==> phase == Filling && handed.None?
      ensures steps == before + [InsertGames(script.score)]
                     + if script.score.Answered() then [Commit(script.commit)] else []
      ensures ok ==> cursor == committed && rows == [] && services.durable[part] == cursor
      ensures ok <==> script.score == Done && script.commit == Done
      ensures !ok ==> committed == old(committed)
    {
      hide Follow, AppendAll, AllEntriesFit;
      FollowMore(services.env, part, sh0, w0, before, InsertGames(script.score));
      ok, steps := false, before + [InsertGames(script.score)];
      if script.score.Landed() {
        services.scored := services.scored + rows;
      }
      if !script.score.Answered() {
        return;
      }
      phase := Scored;
      ok, steps := CommitCursor(script.commit, sh0, w0, steps);
    }

    /** The last call: moves the committed offset to the cursor. */
    method CommitCursor(commit: Outcome, ghost sh0: Shared, ghost w0: Worker, ghost before: seq<WorkerStep>)
      returns (ok: bool, ghost steps: seq<WorkerStep>)
      requires services.HasPartition(part) && open == null && phase == Scored && handed.Some?
      requires part < |sh0.log| && part < |sh0.durable| && part < |sh0.replayEnd|
      requires Follow(services.env, part, sh0, w0, before) == Some((services.View(), View()))
      requires commit == ReplyLost ==> services.env.commitReplyLost
      modifies this`phase, this`handed, this`committed, this`rows, services`durable
      ensures services.HasPartition(part)
      ensures Follow(services.env, part, sh0, w0, steps)
              == Some((services.View(), if ok then View() else Discarded(View())))
      ensures (ok ==> phase == Filling && handed.None?) && steps == before + [Commit(commit)]
      ensures ok ==> cursor == committed == old(cursor) && rows == [] && services.durable[part] == old(cursor)
      ensures ok <==> commit == Done
      ensures !ok ==> committed == old(committed)
    {
      hide Follow;
      FollowMore(services.env, part, sh0, w0, before, Commit(commit));
      steps := before + [Commit(commit)];
      if commit.Landed() {
        services.durable := services.durable[part := cursor];
      }
      ok := commit.Answered();
      if ok {
        committed := cursor;
        rows := [];
        phase, handed := Filling, None;
      }
    }

    predicate PackIsReady(config: Config, age: nat)
      reads this, open
    {
      open != null && open.touched && ShouldSeal(open.size, config.target, age, config.maxAge, config.idleAge, atEndOfLog)
    }

    /** The step a turn begins with: what the fetch returned, if anything. */
    static ghost function FetchSteps(fetched: Option<nat>, key: string): seq<WorkerStep>
    {
      if fetched.Some? && fetched.value > 0 then [Fetch(fetched.value, key)] else []
    }

    /** Whether a worker hands its pack over: there is one, and the process stops, or something is in it and it is full,
        old, or idle at the end of the log. */
    static ghost predicate HandsOver(w: Worker, stopping: bool, config: Config, age: nat, atEndOfLog: bool)
    {
      && w.pack.Some?
      && (stopping || (|w.pack.value.bytes| > |MAGIC| &&
            ShouldSeal(|w.pack.value.bytes|, config.target, age, config.maxAge, config.idleAge, atEndOfLog)))
    }

    /** One turn of the loop: what a fetch returned (`None` when it failed or was abandoned) is appended, and the pack
        is sealed and handed over exactly when it is time, every call in order as far as it gets. A batch that cannot be
        appended throws away what is in hand instead, and only one that does not fit or that the disk will not take.
        So no pack with an entry in it stays open that has reached its target or its greatest age, or its idle age while
        there is nothing left to consume, and none at all when the process stops; and a turn hands over no other. */
    method Turn(fetched: Option<nat>, key: string, disk: nat, stopping: bool, config: Config, age: nat, script: Script)
      returns (ghost steps: seq<WorkerStep>)
      requires Valid()
      requires fetched.Some? ==> cursor + fetched.value <= |services.log[part]|
      requires key !in services.keys && EndsWith(key, PACK_SUFFIX)
      requires services.Consistent() && NotUploaded()
      requires services.now - services.env.skew <= script.modified <= services.now + services.env.skew
      requires script.commit == ReplyLost ==> services.env.commitReplyLost
      modifies this, open, services
      ensures Valid() && services.Consistent() && NotUploaded()
      ensures Follow(services.env, part, old(services.View()), old(View()), steps) == Some((services.View(), View()))
      ensures if steps == [Discard] then
                && fetched.Some? && fetched.value > 0
                && old(var batch := services.log[part][cursor..cursor + fetched.value];
                       AllEntriesFit(services.env, batch) ==> disk < FrameSizes(services.env, batch))
              else
                var after := Follow(services.env, part, old(services.View()), old(View()), FetchSteps(fetched, key));
                && after.Some?
                && steps == FetchSteps(fetched, key)
                          + if HandsOver(after.value.1, stopping, config, age, atEndOfLog)
                            then HandOverSteps(script, |after.value.1.pack.value.bytes|) else []
      ensures fetched.Some? ==> atEndOfLog == (fetched.value == 0)
      ensures fetched.None? ==> atEndOfLog == old(atEndOfLog)
      ensures open != null && |open.file| > 8 ==>
                |open.file| < config.target && age < config.maxAge && (atEndOfLog ==> age < config.idleAge)
      ensures stopping ==> open == null
      ensures WorkerStep.Seal in steps && !stopping ==>
                var after := Follow(services.env, part, old(services.View()), old(View()), FetchSteps(fetched, key));
                && after.Some? && after.value.1.pack.Some?
                && var size := |after.value.1.pack.value.bytes|;
                   size > 8 && (size >= config.target || age >= config.maxAge || (atEndOfLog && age >= config.idleAge))
    {
      hide AppendAll, AllEntriesFit, Follow, WorkerApply, WorkerLegal, HandOverSteps, FrameSizes;
      ghost var sh0, w0 := services.View(), View();
      var ok;
      ok, steps := TakeFetch(fetched, key, disk);
      if !ok {
        return;
      }
      if open != null {
        TouchedIsLonger();
      }
      if (stopping || PackIsReady(config, age)) && open != null {
        NotADiscard(steps, script, |open.file|);
        steps := SealOrThrowAway(script, sh0, w0, steps);
      }
    }

    /** The first half of a turn: appends what a fetch returned, or throws everything away. */
    method TakeFetch(fetched: Option<nat>, key: string, disk: nat) returns (ok: bool, ghost steps: seq<WorkerStep>)
      requires Valid()
      requires fetched.Some? ==> cursor + fetched.value <= |services.log[part]|
      requires key !in services.keys && EndsWith(key, PACK_SUFFIX)
      requires services.Consistent() && NotUploaded()
      modifies this, open, services`keys
      ensures Valid() && services.Consistent() && NotUploaded() && sealFailures == old(sealFailures)
      ensures atEndOfLog == if fetched.Some? then fetched.value == 0 else old(atEndOfLog)
      ensures Follow(services.env, part, old(services.View()), old(View()), steps) == Some((services.View(), View()))
      ensures steps == if ok then FetchSteps(fetched, key) else [Discard]
      ensures open == old(open) || open == null || fresh(open)
      ensures !ok ==>
                && open == null && fetched.Some? && fetched.value > 0
                && old(var batch := services.log[part][cursor..cursor + fetched.value];
                       AllEntriesFit(services.env, batch) ==> disk < FrameSizes(services.env, batch))
    {
      hide AppendAll, AllEntriesFit, Follow, WorkerApply, WorkerLegal, FrameSizes;
      ghost var sh0, w0 := services.View(), View();
      EmptyFollow(services.env, part, sh0, w0);
      ok, steps := true, [];
      if fetched.Some? {
        var count := fetched.value;
        atEndOfLog := count == 0;
        if count > 0 {
          ok := Append(services.log[part][cursor..cursor + count], key, disk);
          if !ok {
            steps := ThrowAway();
            FollowDiscard(services.env, part, sh0, w0);
            return;
          }
          cursor := cursor + count;
          steps := [Fetch(count, key)];
          FollowFetch(services.env, part, sh0, w0, count, key, (services.View(), View()));
        }
      }
    }

    /** A pack has been touched when it is longer than its magic. */
    lemma TouchedIsLonger()
      requires Valid() && open != null
      ensures open.touched <==> |open.file| > |MAGIC|
      ensures open.size == |open.file|
    {
      hide EntryBytes;
      PackIsLonger(open.codec, open.records);
    }

    /** Hands the open pack over, or throws it away and counts the failure. */
    method SealOrThrowAway(script: Script, ghost sh0: Shared, ghost w0: Worker, ghost before: seq<WorkerStep>)
      returns (ghost steps: seq<WorkerStep>)
      requires Valid() && open != null
      requires part < |sh0.log| && part < |sh0.durable| && part < |sh0.replayEnd|
      requires Follow(services.env, part, sh0, w0, before) == Some((services.View(), View()))
      requires services.Consistent() && NotUploaded()
      requires services.now - services.env.skew <= script.modified <= services.now + services.env.skew
      requires script.commit == ReplyLost ==> services.env.commitReplyLost
      modifies this, services
      ensures Valid() && services.Consistent() && open == null && rows == [] && cursor == committed
      ensures atEndOfLog == old(atEndOfLog)
      ensures Follow(services.env, part, sh0, w0, steps) == Some((services.View(), View()))
      ensures steps == before + HandOverSteps(script, old(|open.file|))
      ensures sealFailures == 0 <==> committed == old(cursor) && services.durable[part] == old(cursor)
                                      && script.AllDone()
      ensures sealFailures != 0 ==>
                committed == old(committed) && sealFailures == Min(old(sealFailures) + 1, 4_294_967_295)
    {
      hide AppendAll, AllEntriesFit, Follow, WorkerApply, WorkerLegal;
      ghost var sh1, w1 := services.View(), View();
      var ok, more := Seal(script);
      FollowConcat(services.env, part, sh0, w0, before, more);
      steps := before + more;
      if ok {
        sealFailures := 0;
      } else {
        var _ := ThrowAway();
        sealFailures := if sealFailures < U32_MAX then sealFailures + 1 else U32_MAX;
      }
    }

    /** Takes the pack out of `open`. */
    ghost method Took(sh0: Shared, w0: Worker, steps: seq<WorkerStep>) returns (more: seq<WorkerStep>)
      requires Valid() && open != null
      requires part < |sh0.log| && part < |sh0.durable| && part < |sh0.replayEnd|
      requires Follow(services.env, part, sh0, w0, steps) == Some((services.View(), View()))
      modifies this`phase, this`handed
      ensures phase == Sealed && handed == Some(OpenPack(open.key, open.file)) && more == steps + [WorkerStep.Seal]
      ensures Follow(services.env, part, sh0, w0, more) == Some((services.View(), View()))
    {
      hide Follow;
      FollowMore(services.env, part, sh0, w0, steps, WorkerStep.Seal);
      more := steps + [WorkerStep.Seal];
      phase, handed := Sealed, Some(OpenPack(open.key, open.file));
    }
  }

  lemma FollowFetch(env: Env, part: nat, sh: Shared, w: Worker, count: nat, key: string, after: (Shared, Worker))
    requires part < |sh.log| && part < |sh.durable| && part < |sh.replayEnd|
    requires WorkerLegal(env, part, sh, w, Fetch(count, key)) && WorkerApply(env, part, sh, w, Fetch(count, key)) == after
    ensures Follow(env, part, sh, w, [Fetch(count, key)]) == Some(after)
  {
    EmptyFollow(env, part, sh, w);
    FollowMore(env, part, sh, w, [], Fetch(count, key));
    assert [] + [Fetch(count, key)] == [Fetch(count, key)];
  }

  lemma FollowDiscard(env: Env, part: nat, sh: Shared, w: Worker)
    requires part < |sh.log| && part < |sh.durable| && part < |sh.replayEnd|
    ensures Follow(env, part, sh, w, [WorkerStep.Discard]) == Some((sh, Discarded(w)))
  {
    EmptyFollow(env, part, sh, w);
    FollowMore(env, part, sh, w, [], WorkerStep.Discard);
    assert [] + [WorkerStep.Discard] == [WorkerStep.Discard];
  }

  lemma NothingToFit(env: Env, entries: seq<Entry>)
    requires !AnyReadable(entries)
    ensures AllEntriesFit(env, entries)
  {
    forall i | 0 <= i < |entries|
      ensures EntryFits(env, entries[i])
    {
      assert !entries[i].Readable?;
    }
  }

  lemma FetchIs(env: Env, part: nat, sh: Shared, w: Worker, entries: seq<Entry>, key: string, open: OpenPack)
    requires part < |sh.log| && part < |sh.durable| && part < |sh.replayEnd|
    requires w.phase == Filling && AnyReadable(entries) && AllEntriesFit(env, entries)
    requires w.cursor + |entries| <= |sh.log[part]| && Fetched(sh, part, w, |entries|) == entries
    requires open == if w.pack.Some? then w.pack.value else OpenPack(key, MAGIC)
    requires w.pack.None? ==> key !in sh.keys && EndsWith(key, PACK_SUFFIX)
    ensures WorkerLegal(env, part, sh, w, Fetch(|entries|, key))
    ensures var batch := AppendAll(env, open.key, part, w.cursor, Batch(open.bytes, w.rows), entries);
            WorkerApply(env, part, sh, w, Fetch(|entries|, key))
            == (sh.(keys := sh.keys + {open.key}),
                w.(cursor := w.cursor + |entries|, pack := Some(OpenPack(open.key, batch.bytes)), rows := batch.rows))
  {
    hide AppendAll;
  }

  /** Steps after steps are steps. */
  lemma {:induction false} FollowConcat(env: Env, part: nat, sh: Shared, w: Worker,
                                        first: seq<WorkerStep>, second: seq<WorkerStep>)
    requires part < |sh.log| && part < |sh.durable| && part < |sh.replayEnd|
    requires Follow(env, part, sh, w, first).Some?
    ensures var (sh', w') := Follow(env, part, sh, w, first).value;
            Follow(env, part, sh', w', second).Some? ==>
              Follow(env, part, sh, w, first + second) == Follow(env, part, sh', w', second)
  {
    hide WorkerApply, WorkerLegal;
    if second == [] {
      assert first + second == first;
    } else {
      var n := |second| - 1;
      FollowConcat(env, part, sh, w, first, second[..n]);
      assert (first + second)[..|first| + n] == first + second[..n];
    }
  }

  lemma EmptyFollow(env: Env, part: nat, sh: Shared, w: Worker)
    requires part < |sh.log| && part < |sh.durable| && part < |sh.replayEnd|
    ensures Follow(env, part, sh, w, []) == Some((sh, w))
  {
  }

  lemma AppendGrowsIfFits(codec: Codec, key: string, records: seq<Appended>, id: RecordId, raw: Bytes)
    requires AllFit(codec, records)
    ensures Fits(codec, raw) ==>
              && AllFit(codec, records + [Appended(id, raw)])
              && PackBytes(codec, records + [Appended(id, raw)]) == PackBytes(codec, records) + EntryBytes(codec, id, raw)
  {
    if Fits(codec, raw) {
      AppendGrows(codec, key, records, id, raw);
    }
  }

  lemma NotADiscard(before: seq<WorkerStep>, script: Script, size: nat)
    ensures before + HandOverSteps(script, size) != [Discard]
  {
    hide DeliverySteps;
    assert WorkerStep.Seal in HandOverSteps(script, size);
    assert WorkerStep.Seal in before + HandOverSteps(script, size);
  }

  lemma PackIsLonger(codec: Codec, records: seq<Appended>)
    requires AllFit(codec, records)
    ensures records != [] <==> |PackBytes(codec, records)| > |MAGIC|
  {
    hide HeaderBytes;
  }
}
