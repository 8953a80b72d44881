/** The record pipeline as a step system: a partitioned log, one pack worker per partition, the bucket, the index, the
    offset store and the collector of unreferenced objects. `src/kafka.rs`, `src/indexer.rs`, `src/catalog.rs`,
    `src/gc.rs`.

    Every call to a service outside the process can succeed, fail, or land with its reply lost (`Outcome`), and a
    worker can crash between any two of its steps. */
module Pipeline {
  import opened Prelude
  import opened PackFormat

  // ------------------------------------------------------------------------------------------------- values

  /** One record on its way to the worker. Times are milliseconds, the resolution both the message timestamp and the
      index columns have. */
  datatype Message = Message(
    id: RecordId,
    source: string,
    receivedAt: int,
    playedAt: Option<int>,
    raw: Bytes,
    pb: Option<Bytes>)

  /** What sits at an offset of the log: a message of ours, or something `from_record` refuses. */
  datatype Entry = Unreadable | Readable(message: Message)

  datatype Metadata = Metadata(playedAt: Option<int>, players: seq<string>, rule: Option<string>, eventCount: nat)

  /** One row of the record table. */
  datatype Row = Row(
    id: RecordId,
    source: string,
    receivedAt: int,
    sha256: Bytes,
    metadata: Metadata,
    storage: PackLocation,
    pbOffset: nat,
    pbCompressedSize: nat,
    pbSize: nat)

  /** The sorting key; its first column, `toDate(received_at)`, is a function of the third. */
  function SortKey(row: Row): (string, int, RecordId)
  {
    (row.source, row.receivedAt, row.id)
  }

  /** The protobuf location the stored columns are read back as: all zero means that there is none. */
  function PbFromColumns(row: Row): Option<PackLocation>
  {
    if row.pbSize > 0 && row.pbOffset > 0
    then Some(PackLocation(row.storage.packKey, row.pbOffset, row.pbCompressedSize, row.pbSize))
    else None
  }

  /** A row together with the log position it was built from. */
  datatype Stored = Stored(row: Row, part: nat, offset: nat)

  /** An object of the bucket. `modified` is the stamp the bucket gives it and `putAt` is when it was put. */
  datatype Object = Object(bytes: Bytes, modified: int, putAt: int)

  const PACK_SUFFIX: string := ".mjpack"

  predicate EndsWith(text: string, suffix: string)
  {
    |suffix| <= |text| && text[|text| - |suffix|..] == suffix
  }

  /** Everything the steps are parameterised by: libraries the model cannot see into, and the timing of the
      deployment. `commitReplyLost` says whether the offset store can apply a commit and lose the reply. */
  datatype Env = Env(
    codec: Codec,
    parse: Bytes -> Option<Metadata>,
    sha256: Bytes -> Bytes,
    partitions: nat,
    grace: nat,
    insertDelay: nat,
    queryGap: nat,
    skew: nat,
    commitReplyLost: bool)

  ghost predicate GoodEnv(env: Env)
  {
    Lawful(env.codec) && env.partitions > 0
  }

  /** A record id as the 128 bit number routing divides. */
  function AsNumber(id: Bytes): nat
  {
    if id == [] then 0 else AsNumber(id[..|id| - 1]) * 256 + id[|id| - 1] as int
  }

  function PartitionFor(env: Env, id: RecordId): (part: nat)
    requires env.partitions > 0
    ensures part < env.partitions
  {
    AsNumber(id) % env.partitions
  }

  function Pow256(n: nat): nat
  {
    if n == 0 then 1 else 256 * Pow256(n - 1)
  }

  /** The number bytes spell, most significant first: each byte times the weight of its place. */
  function Weighted(id: Bytes): nat
  {
    if id == [] then 0 else id[0] as int * Pow256(|id| - 1) + Weighted(id[1..])
  }

  lemma {:induction false} WeightedMore(id: Bytes, low: Byte)
    ensures Weighted(id + [low]) == Weighted(id) * 256 + low as int
  {
    if id == [] {
      assert id + [low] == [low];
      assert Weighted([low]) == low as int * Pow256(0) + Weighted([low][1..]);
    } else {
      WeightedMore(id[1..], low);
      assert (id + [low])[1..] == id[1..] + [low];
      assert id[0] as int * (256 * Pow256(|id| - 1)) == id[0] as int * Pow256(|id| - 1) * 256;
    }
  }

  lemma {:induction false} AsNumberIsWeighted(id: Bytes)
    ensures AsNumber(id) == Weighted(id)
  {
    if id != [] {
      AsNumberIsWeighted(id[..|id| - 1]);
      WeightedMore(id[..|id| - 1], id[|id| - 1]);
      assert id == id[..|id| - 1] + [id[|id| - 1]];
    }
  }

  /** A record's partition is what is left of its id, read as a big endian number, when the partitions divide it. */
  lemma RoutedByNumber(env: Env, id: RecordId)
    requires env.partitions > 0
    ensures exists quotient: nat :: Weighted(id) == env.partitions * quotient + PartitionFor(env, id)
  {
    AsNumberIsWeighted(id);
    assert AsNumber(id) == env.partitions * (AsNumber(id) / env.partitions) + AsNumber(id) % env.partitions;
  }

  // -------------------------------------------------------------------------------------- building a batch

  /** A pack being filled and the rows that point into it. */
  datatype Batch = Batch(bytes: Bytes, rows: seq<Stored>)

  const EMPTY_BATCH: Batch := Batch(MAGIC, [])

  predicate Parses(env: Env, entry: Entry)
  {
    entry.Readable? && env.parse(entry.message.raw).Some?
  }

  /** Whether the pack format can hold an entry. */
  predicate EntryFits(env: Env, entry: Entry)
  {
    Parses(env, entry) ==>
      Fits(env.codec, entry.message.raw) && (entry.message.pb.Some? ==> Fits(env.codec, entry.message.pb.value))
  }

  predicate AllEntriesFit(env: Env, entries: seq<Entry>)
  {
    forall i :: 0 <= i < |entries| ==> EntryFits(env, entries[i])
  }

  /** The row for a message whose raw frame starts `size` bytes into the pack. */
  function RowFor(env: Env, key: string, size: nat, m: Message): Row
    requires env.parse(m.raw).Some? && Fits(env.codec, m.raw)
  {
    var metadata := env.parse(m.raw).value;
    var afterRaw := size + |EntryBytes(env.codec, m.id, m.raw)|;
    Row(m.id, m.source, m.receivedAt, env.sha256(m.raw),
        metadata.(playedAt := if m.playedAt.Some? then m.playedAt else metadata.playedAt),
        LocationAt(env.codec, key, size, m.raw),
        if m.pb.Some? then afterRaw + ENTRY_HEADER_LEN else 0,
        if m.pb.Some? then |env.codec.compress(m.pb.value)| else 0,
        if m.pb.Some? then |m.pb.value| else 0)
  }

  /** Both frames of a message, in the order they are appended. */
  function Frames(env: Env, m: Message): Bytes
    requires Fits(env.codec, m.raw) && (m.pb.Some? ==> Fits(env.codec, m.pb.value))
  {
    EntryBytes(env.codec, m.id, m.raw)
    + if m.pb.Some? then EntryBytes(env.codec, m.id, m.pb.value) else []
  }

  /** Appends one log entry; what cannot be parsed is dropped. */
  function AppendEntry(env: Env, key: string, part: nat, offset: nat, batch: Batch, entry: Entry): Batch
    requires EntryFits(env, entry)
  {
    if !Parses(env, entry) then batch
    else
      Batch(batch.bytes + Frames(env, entry.message),
            batch.rows + [Stored(RowFor(env, key, |batch.bytes|, entry.message), part, offset)])
  }

  /** Appends consecutive log entries, the first of which sits at `base`. */
  function AppendAll(env: Env, key: string, part: nat, base: nat, batch: Batch, entries: seq<Entry>): Batch
    requires AllEntriesFit(env, entries)
  {
    if entries == [] then batch
    else
      var n := |entries| - 1;
      AppendEntry(env, key, part, base + n, AppendAll(env, key, part, base, batch, entries[..n]), entries[n])
  }

  // -------------------------------------------------------------------------------------------------- state

  datatype Phase = Filling | Sealed | Put | Checked | Inserted | Scored

  datatype OpenPack = OpenPack(key: string, bytes: Bytes)

  /** What one worker holds in memory. */
  datatype Worker = Worker(cursor: nat, committed: nat, phase: Phase, pack: Option<OpenPack>, rows: seq<Stored>)

  /** What outlives every process. `archive` is every object ever put, whether or not it was deleted since; `index` and
      `scored` are the rows of the record table and of the seat table in insertion order; `replayEnd` is where the
      last insert of a partition ended. */
  datatype Shared = Shared(
    log: seq<seq<Entry>>,
    durable: seq<nat>,
    replayEnd: seq<nat>,
    bucket: map<string, Object>,
    archive: map<string, Object>,
    index: seq<Stored>,
    scored: seq<Stored>,
    keys: set<string>,
    now: int)

  datatype Collector =
    | Idle
    | Listing(referenced: set<string>, at: int, listed: map<string, int>)
    | Deleting(todo: set<string>)

  datatype State = State(sh: Shared, workers: seq<Worker>, gc: Collector)

  function Init(env: Env): State
  {
    State(Shared(Repeat(env.partitions, []), Repeat(env.partitions, 0), Repeat(env.partitions, 0),
                 map[], map[], [], [], {}, 0),
          Repeat(env.partitions, Started(0)),
          Idle)
  }

  /** A worker as it starts, at the offset it loads. */
  function Started(offset: nat): Worker
  {
    Worker(offset, offset, Filling, None, [])
  }

  /** Throws away what is in hand and goes back to the last offset this worker knows to be committed. */
  function Discarded(w: Worker): Worker
  {
    Worker(w.committed, w.committed, Filling, None, [])
  }

  // ------------------------------------------------------------------------------------------- worker steps

  datatype WorkerStep =
    | Fetch(count: nat, key: string)
    | Seal
    | PutObject(stored: nat, modified: int, put: Outcome)
    | HeadObject
    | InsertRows(insert: Outcome)
    | InsertGames(score: Outcome)
    | Commit(commit: Outcome)
    | Discard
    | Crash

  /** The entries a fetch of `count` returns. */
  function Fetched(sh: Shared, part: nat, w: Worker, count: nat): seq<Entry>
    requires part < |sh.log| && w.cursor + count <= |sh.log[part]|
  {
    sh.log[part][w.cursor..w.cursor + count]
  }

  predicate AnyReadable(entries: seq<Entry>)
  {
    exists i :: 0 <= i < |entries| && entries[i].Readable?
  }

  predicate WorkerLegal(env: Env, part: nat, sh: Shared, w: Worker, step: WorkerStep)
    requires part < |sh.log| && part < |sh.durable| && part < |sh.replayEnd|
  {
    match step
    case Fetch(count, key) =>
      && w.phase == Filling && count > 0 && w.cursor + count <= |sh.log[part]|
      && AllEntriesFit(env, Fetched(sh, part, w, count))
      && (w.pack.None? ==> key !in sh.keys && EndsWith(key, PACK_SUFFIX))
    case Seal => w.phase == Filling && w.pack.Some?
    case PutObject(stored, modified, put) =>
      && w.phase == Sealed && w.pack.Some? && stored <= |w.pack.value.bytes|
      && sh.now - env.skew <= modified <= sh.now + env.skew
    case HeadObject =>
      && w.phase == Put && w.pack.Some? && w.pack.value.key in sh.bucket
      && |sh.bucket[w.pack.value.key].bytes| == |w.pack.value.bytes|
    case InsertRows(insert) =>
      && w.phase == Checked && w.pack.Some? && w.pack.value.key in sh.archive
      && (insert.Landed() ==> sh.now - sh.archive[w.pack.value.key].putAt <= env.insertDelay)
    case InsertGames(_) => w.phase == Inserted && w.pack.Some?
    case Commit(commit) => w.phase == Scored && w.pack.Some? && (commit == ReplyLost ==> env.commitReplyLost)
    case Discard => true
    case Crash => true
  }

  function WorkerApply(env: Env, part: nat, sh: Shared, w: Worker, step: WorkerStep): (after: (Shared, Worker))
    requires part < |sh.log| && part < |sh.durable| && part < |sh.replayEnd|
    requires WorkerLegal(env, part, sh, w, step)
    ensures |after.0.log| == |sh.log| && |after.0.durable| == |sh.durable| && |after.0.replayEnd| == |sh.replayEnd|
  {
    match step
    case Fetch(count, key) =>
      var entries := Fetched(sh, part, w, count);
      if !AnyReadable(entries) then (sh, w.(cursor := w.cursor + count))
      else
        var open := if w.pack.Some? then w.pack.value else OpenPack(key, MAGIC);
        var batch := AppendAll(env, open.key, part, w.cursor, Batch(open.bytes, w.rows), entries);
        (sh.(keys := sh.keys + {open.key}),
         w.(cursor := w.cursor + count, pack := Some(OpenPack(open.key, batch.bytes)), rows := batch.rows))
    case Seal => (sh, w.(phase := Sealed))
    case PutObject(stored, modified, put) =>
      var key := w.pack.value.key;
      var blob := Object(w.pack.value.bytes[..stored], modified, sh.now);
      (if put.Landed() then sh.(bucket := sh.bucket[key := blob], archive := sh.archive[key := blob]) else sh,
       if put.Answered() then w.(phase := Put) else Discarded(w))
    case HeadObject => (sh, w.(phase := Checked))
    case InsertRows(insert) =>
      (if insert.Landed() then sh.(index := sh.index + w.rows, replayEnd := sh.replayEnd[part := w.cursor]) else sh,
       if insert.Answered() then w.(phase := Inserted) else Discarded(w))
    case InsertGames(score) =>
      (if score.Landed() then sh.(scored := sh.scored + w.rows) else sh,
       if score.Answered() then w.(phase := Scored) else Discarded(w))
    case Commit(commit) =>
      (if commit.Landed() then sh.(durable := sh.durable[part := w.cursor]) else sh,
       if commit.Answered() then Started(w.cursor) else Discarded(w))
    case Discard => (sh, Discarded(w))
    case Crash => (sh, Started(sh.durable[part]))
  }

  // ------------------------------------------------------------------------------------------- whole system

  datatype Action =
    | Produce(message: Message)
    | Reindex(message: Message, at: nat)
    | Redeliver(part: nat, offset: nat)
    | Foreign(part: nat)
    | Work(part: nat, step: WorkerStep)
    | Tick(to: int)
    | QueryKeys(keys: set<string>)
    | ListPage(page: set<string>)
    | Decide
    | Delete(key: string)
    | Abort

  ghost predicate IdIsFresh(sh: Shared, id: RecordId)
  {
    forall p, o :: 0 <= p < |sh.log| && 0 <= o < |sh.log[p]| && sh.log[p][o].Readable? ==>
      sh.log[p][o].message.id != id
  }

  /** Whether the row at a position of the insertion order is the one the `FINAL` view shows for its key. */
  predicate IsFinal(index: seq<Stored>, i: nat)
    requires i < |index|
  {
    forall j :: i < j < |index| ==> SortKey(index[j].row) != SortKey(index[i].row)
  }

  /** The pack keys of the rows `FINAL` shows, which no background merge drops. */
  function FinalKeys(index: seq<Stored>): set<string>
  {
    set i | 0 <= i < |index| && IsFinal(index, i) :: index[i].row.storage.packKey
  }

  function AllKeys(index: seq<Stored>): set<string>
  {
    set i | 0 <= i < |index| :: index[i].row.storage.packKey
  }

  /** The collector's verdict on one listed object. */
  predicate IsOrphan(key: string, modified: int, referenced: set<string>, now: int, grace: nat)
  {
    referenced != {} && EndsWith(key, PACK_SUFFIX) && key !in referenced && now - modified >= grace
  }

  predicate Shaped(env: Env, s: State)
  {
    && env.partitions == |s.sh.log| == |s.sh.durable| == |s.sh.replayEnd| == |s.workers|
    && env.partitions > 0
  }

  ghost predicate Legal(env: Env, s: State, a: Action)
    requires Shaped(env, s)
  {
    match a
    // `IngestMessage::new`: a fresh id, stamped and routed here.
    case Produce(m) => IdIsFresh(s.sh, m.id)
    // `IngestMessage::reindex`: the three columns of the sorting key come off a stored row.
    case Reindex(m, at) => at < |s.sh.index| && SortKey(s.sh.index[at].row) == (m.source, m.receivedAt, m.id)
    // The client's retry of a produce whose acknowledgement was lost.
    case Redeliver(p, o) => p < |s.sh.log| && o < |s.sh.log[p]| && s.sh.log[p][o].Readable?
    case Foreign(p) => p < |s.sh.log|
    case Work(p, step) => p < |s.workers| && WorkerLegal(env, p, s.sh, s.workers[p], step)
    case Tick(to) => s.sh.now <= to
    case QueryKeys(keys) => s.gc.Idle? && FinalKeys(s.sh.index) <= keys <= AllKeys(s.sh.index)
    case ListPage(page) => s.gc.Listing? && page <= s.sh.bucket.Keys
    case Decide => s.gc.Listing? && s.sh.now - s.gc.at <= env.queryGap
    case Delete(key) => s.gc.Deleting? && key in s.gc.todo
    case Abort => true
  }

  function Logged(sh: Shared, part: nat, entry: Entry): Shared
    requires part < |sh.log|
  {
    sh.(log := sh.log[part := sh.log[part] + [entry]])
  }

  ghost function Apply(env: Env, s: State, a: Action): (after: State)
    requires Shaped(env, s) && Legal(env, s, a)
    ensures Shaped(env, after)
  {
    match a
    case Produce(m) => s.(sh := Logged(s.sh, PartitionFor(env, m.id), Readable(m)))
    case Reindex(m, _) => s.(sh := Logged(s.sh, PartitionFor(env, m.id), Readable(m)))
    case Redeliver(p, o) => s.(sh := Logged(s.sh, p, s.sh.log[p][o]))
    case Foreign(p) => s.(sh := Logged(s.sh, p, Unreadable))
    case Work(p, step) =>
      var (sh, w) := WorkerApply(env, p, s.sh, s.workers[p], step);
      s.(sh := sh, workers := s.workers[p := w])
    case Tick(to) => s.(sh := s.sh.(now := to))
    case QueryKeys(keys) => if keys == {} then s else s.(gc := Listing(keys, s.sh.now, map[]))
    case ListPage(page) =>
      s.(gc := s.gc.(listed := s.gc.listed + map k | k in page :: s.sh.bucket[k].modified))
    case Decide =>
      s.(gc := Deleting(set k | k in s.gc.listed
                               && IsOrphan(k, s.gc.listed[k], s.gc.referenced, s.sh.now, env.grace)))
    case Delete(key) => s.(sh := s.sh.(bucket := s.sh.bucket - {key}), gc := Deleting(s.gc.todo - {key}))
    case Abort => s.(gc := Idle)
  }

  /** The state a run ends in, if every action of it was possible. */
  ghost function Run(env: Env, actions: seq<Action>): (end: Option<State>)
    requires env.partitions > 0
    ensures end.Some? ==> Shaped(env, end.value)
  {
    if actions == [] then Some(Init(env))
    else
      var n := |actions| - 1;
      match Run(env, actions[..n])
      case None => None
      case Some(s) => if Legal(env, s, actions[n]) then Some(Apply(env, s, actions[n])) else None
  }
}
