/** A batch import: one walk over the members of an archive that claims, collects, flushes in bounded chunks, and on
    every way out releases what it claimed and did not produce. `src/api.rs`, `src/indexer.rs`. */
module BatchImport {
  import opened Prelude
  import opened Claims

  // ------------------------------------------------------------------------------------------------------ values

  /** What reading a member gives: whether it parses, the game it says it is, and its content. */
  datatype Payload = Payload(parses: bool, uuid: Option<string>, sha256: nat, rawLen: nat)

  /** A member of the archive as the walk meets it. A file whose bytes cannot be read, or do not inflate, has no
      payload. */
  datatype Member =
    | BadEntry
    | NotAFile
    | BadPath
    | File(path: string, size: nat, payload: Option<Payload>)

  /** How the store answers a claim: as it should; or not at all; or, when the key is free, in a race with a request
      that has it at the insert and gives it back before the lookup. Or it is never asked, the topic being backed up. */
  datatype Reply = Answers | Raced | Down | Backlogged

  /** How a produce comes back: acknowledged, or failed with some of its records landed. */
  datatype Flush = Acknowledged | Lost(landed: set<nat>)

  /** A claimed record waiting to be produced; a duplicate carries no message. */
  datatype Claimed = Claimed(id: nat, key: string, scope: Scope, rawLen: nat, message: bool)

  datatype IngestError = Malformed | Busy | ConflictError | PendingError | StoreError

  datatype BatchError = TooManyRecords | InvalidArchive | Internal

  datatype Response = Response(accepted: nat, duplicates: nat, rejected: nat)

  function PairOf(c: Claimed): Pair
  {
    Pair(c.key, c.id, c.scope)
  }

  /** The pairs of the records that carry a message. */
  function PairsOf(claimed: seq<Claimed>): set<Pair>
  {
    set i | 0 <= i < |claimed| && claimed[i].message :: PairOf(claimed[i])
  }

  function BytesOf(claimed: seq<Claimed>): nat
  {
    if claimed == [] then 0 else BytesOf(claimed[..|claimed| - 1]) + claimed[|claimed| - 1].rawLen
  }

  /** What is left of a table when the claims of some pairs are released, by compare and delete. */
  ghost function Without(claims: map<string, Claim>, pairs: set<Pair>): map<string, Claim>
  {
    map k | k in claims && !InTopic(pairs, k, claims[k].id) :: claims[k]
  }

  lemma WithoutOneMore(claims: map<string, Claim>, pairs: set<Pair>, p: Pair)
    ensures Released(Without(claims, pairs), p.key, p.id) == Without(claims, pairs + {p})
    ensures Without(claims, {}) == claims
  {
    var left, less := Released(Without(claims, pairs), p.key, p.id), Without(claims, pairs + {p});
    forall k | k in claims
      ensures k in left <==> k in less
    {
      if InTopic(pairs, k, claims[k].id) {
        var q :| q in pairs && q.key == k && q.id == claims[k].id;
        assert q in pairs + {p};
      }
      if p.key == k && p.id == claims[k].id {
        assert p in pairs + {p};
      }
    }
  }

  lemma PairsOneMore(claimed: seq<Claimed>, c: Claimed)
    ensures PairsOf(claimed + [c]) == PairsOf(claimed) + if c.message then {PairOf(c)} else {}
    ensures BytesOf(claimed + [c]) == BytesOf(claimed) + c.rawLen
  {
    var more := claimed + [c];
    assert more[..|claimed|] == claimed;
    forall p | p in PairsOf(claimed)
      ensures p in PairsOf(more)
    {
      var i :| 0 <= i < |claimed| && claimed[i].message && PairOf(claimed[i]) == p;
      assert more[i] == claimed[i];
    }
    if c.message {
      assert more[|claimed|] == c;
    }
  }

  // --------------------------------------------------------------------------------------------------- the store

  /** The claim table and the topic. */
  class Store {
    var claims: map<string, Claim>
    var topic: set<Pair>
    var nextId: nat
    var now: int

    ghost predicate Valid()
      reads this
    {
      && (forall k :: k in claims ==> claims[k].id < nextId)
      && (forall p :: p in topic ==> p.id < nextId)
    }

    constructor ()
      ensures Valid() && claims == map[] && topic == {}
    {
      claims, topic, nextId, now := map[], {}, 0, 0;
    }

    /** Check and set. The insert gets its row back exactly when nobody has the key; otherwise the lookup decides, and
        finds nothing when whoever had the key gave it back in between. */
    method Claim(key: string, id: nat, sha256: nat, scope: Scope, raced: bool)
      returns (r: Result<IdempotencyClaim, ClaimError>)
      requires Valid() && id < nextId
      modifies this`claims
      ensures Valid()
      ensures claims == if r == Success(New) then old(claims)[key := Claims.Claim(id, sha256, scope == Caller, now)]
                        else old(claims)
      ensures r == Success(New) <==> key !in old(claims) && !raced
      ensures r == Failure(Pending) <==> key !in old(claims) && raced
      ensures r == Failure(Conflict) <==>
                key in old(claims) && scope == Caller && old(claims)[key].sha256 != sha256
      ensures r.Success? && r.value.Existing? ==> key in old(claims) && r.value.id == old(claims)[key].id
    {
      if key !in claims && !raced {
        claims := claims[key := Claims.Claim(id, sha256, scope.Expires(), now)];
        return Success(New);
      }
      if key !in claims {
        return Failure(Pending);
      }
      if scope.ContentMustMatch() && claims[key].sha256 != sha256 {
        return Failure(Conflict);
      }
      return Success(Existing(claims[key].id));
    }

    method AbandonClaim(key: string, id: nat)
      requires Valid()
      modifies this`claims
      ensures Valid() && claims == Released(old(claims), key, id)
    {
      if key in claims && claims[key].id == id {
        claims := claims - {key};
      }
    }

    /** Releases the claims of records that will never be produced; a duplicate's claim is not ours to release. */
    method AbandonClaimed(claimed: seq<Claimed>)
      requires Valid()
      modifies this`claims
      ensures Valid() && claims == Without(old(claims), PairsOf(claimed))
    {
      WithoutOneMore(claims, {}, Pair("", 0, Game));
      for i := 0 to |claimed|
        invariant Valid() && claims == Without(old(claims), PairsOf(claimed[..i]))
      {
        assert claimed[..i + 1] == claimed[..i] + [claimed[i]];
        PairsOneMore(claimed[..i], claimed[i]);
        if !claimed[i].message {
          continue;
        }
        WithoutOneMore(old(claims), PairsOf(claimed[..i]), PairOf(claimed[i]));
        AbandonClaim(claimed[i].key, claimed[i].id);
      }
      assert claimed[..|claimed|] == claimed;
    }

    static method Messages(claimed: seq<Claimed>) returns (messages: seq<Claimed>)
      ensures PairsOf(messages) == PairsOf(claimed)
      ensures forall j :: 0 <= j < |messages| ==> messages[j].message && messages[j] in claimed
    {
      messages := [];
      for i := 0 to |claimed|
        invariant PairsOf(messages) == PairsOf(claimed[..i])
        invariant forall j :: 0 <= j < |messages| ==> messages[j].message && messages[j] in claimed
      {
        assert claimed[..i + 1] == claimed[..i] + [claimed[i]];
        PairsOneMore(claimed[..i], claimed[i]);
        PairsOneMore(messages, claimed[i]);
        if claimed[i].message {
          messages := messages + [claimed[i]];
        }
      }
      assert claimed[..|claimed|] == claimed;
    }

    /** Produces what carries a message. When the produce fails every claim of it is released, whatever landed. */
    method ProduceClaimed(claimed: seq<Claimed>, flush: Flush) returns (ok: bool)
      requires Valid() && forall i :: 0 <= i < |claimed| ==> claimed[i].id < nextId
      modifies this`claims, this`topic
      ensures Valid()
      ensures ok <==> PairsOf(claimed) == {} || flush.Acknowledged?
      ensures ok ==> claims == old(claims) && topic == old(topic) + PairsOf(claimed)
      ensures !ok ==> claims == Without(old(claims), PairsOf(claimed))
      ensures old(topic) <= topic <= old(topic) + PairsOf(claimed)
    {
      var messages := Messages(claimed);
      if messages == [] {
        return true;
      }
      assert PairOf(messages[0]) in PairsOf(messages);
      match flush
      case Acknowledged =>
        topic := topic + PairsOf(messages);
        return true;
      case Lost(landed) =>
        topic := topic + set p | p in PairsOf(messages) && p.id in landed;
        AbandonClaimed(messages);
        return false;
    }

    /** Validates and claims one record: new exactly when it parses, the store answers and nobody has its key; a
        duplicate exactly when somebody has, and no promise about the content is broken. */
    method ClaimRecord(payload: Payload, source: string, key: string, reply: Reply)
      returns (r: Result<Claimed, IngestError>)
      requires Valid()
      modifies this`claims, this`nextId
      ensures Valid() && old(nextId) <= nextId
      ensures r.Success? <==>
                var k := KeyFor(payload.uuid, source, key).0;
                && payload.parses && (reply.Answers? || (reply.Raced? && k in old(claims)))
                && (k in old(claims) && payload.uuid.None? ==> old(claims)[k].sha256 == payload.sha256)
      ensures r.Success? ==> (r.value.key, r.value.scope) == KeyFor(payload.uuid, source, key)
      ensures r.Success? ==>
                r.value.key == match payload.uuid
                               case Some(uuid) => "majsoul-watch\0" + uuid
                               case None => source + "\0" + key
      ensures r.Success? ==> (r.value.message <==> r.value.key !in old(claims))
      ensures r.Success? && r.value.message ==>
                && old(nextId) <= r.value.id < nextId && r.value.rawLen == payload.rawLen
                && var claim := Claims.Claim(r.value.id, payload.sha256, payload.uuid.None?, now);
                   claims == old(claims)[r.value.key := claim]
      ensures r.Success? && !r.value.message ==> r.value.id == old(claims)[r.value.key].id
      ensures !(r.Success? && r.value.message) ==> claims == old(claims)
      ensures r.Failure? ==> (r.error.Busy? <==> reply.Backlogged?)
      ensures r.Failure? ==> (r.error.Malformed? <==> !payload.parses && !reply.Backlogged?)
      ensures r.Failure? ==> (r.error.StoreError? <==> payload.parses && reply.Down?)
      ensures r.Failure? && r.error.PendingError? ==> reply.Raced?
      ensures r.Failure? && r.error.ConflictError? ==> payload.uuid.None?
    {
      if reply.Backlogged? {
        return Failure(Busy);
      }
      if !payload.parses {
        return Failure(Malformed);
      }
      var (scoped, scope) := KeyFor(payload.uuid, source, key);
      var id := nextId;
      nextId := nextId + 1;
      if reply.Down? {
        return Failure(StoreError);
      }
      var claim := Claim(scoped, id, payload.sha256, scope, reply.Raced?);
      match claim
      case Failure(Conflict) => return Failure(ConflictError);
      case Failure(Pending) => return Failure(PendingError);
      case Success(New) => return Success(Claimed(id, scoped, scope, payload.rawLen, true));
      case Success(Existing(first)) => return Success(Claimed(first, scoped, scope, 0, false));
    }
  }

  /** Releasing a new claim leaves what was there before it. */
  lemma TakenBack(claims: map<string, Claim>, claim: Claim, pairs: set<Pair>, p: Pair)
    requires p.key !in claims && claim.id == p.id
    ensures Without(claims[p.key := claim], pairs + {p}) == Without(claims, pairs)
    ensures Without(claims[p.key := claim], {p}) == claims
    ensures Without(Without(claims[p.key := claim], pairs), {p}) == Without(claims, pairs)
  {
    var more := claims[p.key := claim];
    WithoutOneMore(more, pairs, p);
    WithoutOneMore(Without(more, pairs), {}, p);
    WithoutOneMore(more, {}, p);
    assert {} + {p} == {p};
    forall k | k in claims
      ensures InTopic(pairs + {p}, k, claims[k].id) == InTopic(pairs, k, claims[k].id)
    {
      if InTopic(pairs, k, claims[k].id) {
        var q :| q in pairs && q.key == k && q.id == claims[k].id;
        assert q in pairs + {p};
      }
    }
    assert InTopic(pairs + {p}, p.key, claim.id) by {
      assert p in pairs + {p};
    }
  }

  lemma {:induction false} SomeBytes(claimed: seq<Claimed>)
    requires claimed != [] && forall i :: 0 <= i < |claimed| ==> claimed[i].rawLen > 0
    ensures BytesOf(claimed) > 0
  {
  }

  // ---------------------------------------------------------------------------------------------- what a walk keeps

  /** The table holds the claim of a pair. */
  predicate IsClaimed(claims: map<string, Claim>, p: Pair)
  {
    p.key in claims && claims[p.key].id == p.id
  }

  /** Of everything a walk has claimed: some was acknowledged, some is waiting, and the claims of the rest have been
      released. The claims there were before the walk are untouched, and there are no others. */
  ghost predicate WalkOk(before: map<string, Claim>, claims: map<string, Claim>,
                         all: set<Pair>, acked: set<Pair>, waiting: set<Pair>)
  {
    && acked <= all && waiting <= all && acked !! waiting
    && (forall k :: k in before ==> k in claims && claims[k] == before[k])
    && (forall k :: k in claims && k !in before ==> InTopic(acked + waiting, k, claims[k].id))
    && (forall p :: p in acked + waiting ==> IsClaimed(claims, p) && p.key !in before)
    && (forall p, q :: p in acked + waiting && q in acked + waiting && p.key == q.key ==> p == q)
    && (forall p :: p in all ==> p in acked + waiting || !IsClaimed(claims, p))
  }

  lemma AckedOk(before: map<string, Claim>, claims: map<string, Claim>, all: set<Pair>, acked: set<Pair>,
                chunk: set<Pair>, rest: set<Pair>)
    requires WalkOk(before, claims, all, acked, chunk + rest) && chunk !! rest
    ensures WalkOk(before, claims, all, acked + chunk, rest)
  {
    assert acked + (chunk + rest) == (acked + chunk) + rest;
  }

  lemma ReleasedOk(before: map<string, Claim>, claims: map<string, Claim>, all: set<Pair>, acked: set<Pair>,
                   chunk: set<Pair>, rest: set<Pair>)
    requires WalkOk(before, claims, all, acked, chunk + rest) && chunk !! rest
    ensures WalkOk(before, Without(claims, chunk), all, acked, rest)
  {
    var left := Without(claims, chunk);
    forall p | p in acked + rest
      ensures IsClaimed(left, p)
    {
      assert p in acked + (chunk + rest);
      forall q | q in chunk
        ensures q.key != p.key
      {
        assert q in acked + (chunk + rest);
      }
    }
    forall k | k in left && k !in before
      ensures InTopic(acked + rest, k, left[k].id)
    {
      var p :| p in acked + (chunk + rest) && p.key == k && p.id == claims[k].id;
      assert p !in chunk;
    }
    forall p | p in all && p !in acked + rest
      ensures !IsClaimed(left, p)
    {
      if p in chunk && p.key in claims {
        assert InTopic(chunk, p.key, p.id);
      }
    }
    forall k | k in before
      ensures k in left && left[k] == before[k]
    {
      forall q | q in chunk
        ensures q.key != k
      {
        assert q in acked + (chunk + rest);
      }
    }
  }

  lemma ClaimedOk(before: map<string, Claim>, claims: map<string, Claim>, claim: Claim, all: set<Pair>, acked: set<Pair>,
                  waiting: set<Pair>, p: Pair)
    requires WalkOk(before, claims, all, acked, waiting)
    requires p.key !in claims && claim.id == p.id && forall q :: q in all ==> q.id != p.id
    ensures WalkOk(before, claims[p.key := claim], all + {p}, acked, waiting + {p})
  {
    var more := claims[p.key := claim];
    forall k | k in more && k !in before
      ensures InTopic(acked + (waiting + {p}), k, more[k].id)
    {
      if k == p.key {
        assert p in acked + (waiting + {p});
      } else {
        var q :| q in acked + waiting && q.key == k && q.id == claims[k].id;
        assert q in acked + (waiting + {p});
      }
    }
    forall q | q in acked + waiting
      ensures q.key != p.key
    {
      assert IsClaimed(claims, q);
    }
  }

  // ---------------------------------------------------------------------------------------------------- the walk

  datatype Config = Config(maxBatchRecords: nat, maxRecordBytes: nat)

  /** What becomes of a member. */
  datatype Verdict = Ignored | Accepted | Duplicate | Rejected

  /** One import, with everything that is answered on the way. Below, `base` is the content that was claimed under each
      key before it. */
  datatype Job = Job(config: Config, members: seq<Member>, source: string, batchKey: string,
                     replies: nat -> Reply, flushes: nat -> Flush)
  {
    /** A file whose content is there and within the bounds, stored and inflated. */
    predicate Readable(i: nat)
      requires i < |members|
    {
      var m := members[i];
      && m.File? && 0 < m.size <= config.maxRecordBytes
      && m.payload.Some? && 0 < m.payload.value.rawLen <= config.maxRecordBytes
    }

    predicate Good(i: nat)
      requires i < |members|
    {
      Readable(i) && members[i].payload.value.parses
    }

    /** Good, and the store answers the claim. */
    predicate Offered(i: nat)
      requires i < |members|
    {
      Good(i) && replies(i).Answers?
    }

    function KeyAndScope(i: nat): (string, Scope)
      requires i < |members| && Readable(i)
    {
      KeyFor(members[i].payload.value.uuid, source, batchKey + "/" + members[i].path)
    }

    function Key(i: nat): string
      requires i < |members| && Readable(i)
    {
      KeyAndScope(i).0
    }

    function Sha(i: nat): nat
      requires i < |members| && Readable(i)
    {
      members[i].payload.value.sha256
    }

    /** The content claimed under each key once `n` members have been walked. */
    function Held(base: map<string, nat>, n: nat): map<string, nat>
      requires n <= |members|
      decreases n, 0
    {
      if n == 0 then base
      else if Takes(base, n - 1) then Held(base, n - 1)[Key(n - 1) := Sha(n - 1)]
      else Held(base, n - 1)
    }

    predicate Takes(base: map<string, nat>, i: nat)
      requires i < |members|
      decreases i, 1
    {
      Offered(i) && Key(i) !in Held(base, i)
    }

    predicate Repeats(base: map<string, nat>, i: nat)
      requires i < |members|
    {
      && Good(i) && (replies(i).Answers? || replies(i).Raced?)
      && Key(i) in Held(base, i)
      && (KeyAndScope(i).1.ContentMustMatch() ==> Held(base, i)[Key(i)] == Sha(i))
    }

    function VerdictOn(base: map<string, nat>, i: nat): Verdict
      requires i < |members|
    {
      if !members[i].File? then Ignored
      else if Takes(base, i) then Accepted
      else if Repeats(base, i) then Duplicate
      else Rejected
    }

    function Count(base: map<string, nat>, n: nat, verdict: Verdict): nat
      requires n <= |members|
    {
      if n == 0 then 0 else Count(base, n - 1, verdict) + if VerdictOn(base, n - 1) == verdict then 1 else 0
    }

    function Tally(base: map<string, nat>, n: nat): Response
      requires n <= |members|
    {
      Response(Count(base, n, Accepted), Count(base, n, Duplicate), Count(base, n, Rejected))
    }

    /** The bytes that wait to be produced after `n` members, and whether the next record would overflow them. */
    function Waiting(base: map<string, nat>, n: nat): nat
      requires n <= |members|
      decreases n, 0
    {
      if n == 0 then 0
      else if !Takes(base, n - 1) then Waiting(base, n - 1)
      else (if Overflows(base, n - 1) then 0 else Waiting(base, n - 1)) + members[n - 1].payload.value.rawLen
    }

    predicate Overflows(base: map<string, nat>, i: nat)
      requires i < |members|
      decreases i, 1
    {
      Takes(base, i) && Waiting(base, i) + members[i].payload.value.rawLen > MAX_PRODUCE_BATCH_BYTES
    }

    /** How many members everything handed to the topic so far came from. */
    function Produced(base: map<string, nat>, n: nat): (m: nat)
      requires n <= |members|
      ensures m <= n
    {
      if n == 0 then 0 else if Overflows(base, n - 1) then n - 1 else Produced(base, n - 1)
    }

    /** What ends the import at member `i`, or once the members are through. */
    function StopAt(base: map<string, nat>, i: nat): Option<BatchError>
      requires i <= |members|
    {
      if i == |members| then if Waiting(base, i) > 0 && !flushes(i).Acknowledged? then Some(Internal) else None
      else if i >= config.maxBatchRecords then Some(TooManyRecords)
      else if Broken(members[i]) then Some(InvalidArchive)
      else if Readable(i) && (replies(i).Backlogged? || (Good(i) && replies(i).Down?)) then Some(Internal)
      else if Overflows(base, i) && Waiting(base, i) > 0 && !flushes(i).Acknowledged? then Some(Internal)
      else None
    }

    /** Where the import ends: at the first member that stops it, or past the last. */
    function EndFrom(base: map<string, nat>, i: nat): (end: nat)
      requires i <= |members|
      ensures i <= end <= |members| + 1
      ensures forall j :: i <= j < end && j <= |members| ==> StopAt(base, j).None?
      ensures end <= |members| ==> StopAt(base, end).Some?
      decreases |members| - i
    {
      if StopAt(base, i).Some? then i else if i == |members| then i + 1 else EndFrom(base, i + 1)
    }

    /** The walk gets past member `i`, and this is what becomes of it. */
    predicate Becomes(base: map<string, nat>, i: nat, verdict: Verdict)
    {
      i < |members| && i < EndFrom(base, 0) && VerdictOn(base, i) == verdict
    }

    /** Whose claims stand when it has ended: those of every member, or of what had been produced by then. */
    function Kept(base: map<string, nat>): (m: nat)
      ensures m <= |members|
    {
      var end := EndFrom(base, 0);
      if end > |members| then |members| else Produced(base, end)
    }
  }

  function OneMore(response: Response, verdict: Verdict): Response
  {
    match verdict
    case Ignored => response
    case Accepted => response.(accepted := response.accepted + 1)
    case Duplicate => response.(duplicates := response.duplicates + 1)
    case Rejected => response.(rejected := response.rejected + 1)
  }

  lemma NextMember(job: Job, base: map<string, nat>, i: nat)
    requires i < |job.members|
    ensures job.Tally(base, i + 1) == OneMore(job.Tally(base, i), job.VerdictOn(base, i))
    ensures !job.Takes(base, i) ==>
              && job.Held(base, i + 1) == job.Held(base, i) && job.Waiting(base, i + 1) == job.Waiting(base, i)
              && job.Produced(base, i + 1) == job.Produced(base, i)
  {
  }

  lemma OnlyTaken(job: Job, base: map<string, nat>, i: nat)
    requires i < |job.members|
    ensures job.Overflows(base, i) ==> job.Takes(base, i)
  {
  }

  lemma TakenIn(job: Job, base: map<string, nat>, i: nat)
    requires i < |job.members| && job.Takes(base, i)
    ensures job.Held(base, i + 1) == job.Held(base, i)[job.Key(i) := job.Sha(i)]
    ensures var len := job.members[i].payload.value.rawLen;
            && len > 0 && (job.Overflows(base, i) <==> job.Waiting(base, i) + len > MAX_PRODUCE_BATCH_BYTES)
            && job.Waiting(base, i + 1) == (if job.Overflows(base, i) then 0 else job.Waiting(base, i)) + len
            && job.Produced(base, i + 1) == if job.Overflows(base, i) then i else job.Produced(base, i)
  {
  }

  /** A member is accepted exactly when it is the first good one of a key nobody had; and what is claimed in the end is
      what was, and the keys of the good ones. */
  lemma {:induction false} HeldIs(job: Job, base: map<string, nat>, n: nat)
    requires n <= |job.members|
    ensures forall k :: k in job.Held(base, n) <==>
                          k in base || exists j :: 0 <= j < n && job.Offered(j) && job.Key(j) == k
    ensures forall k :: k in base ==> k in job.Held(base, n) && job.Held(base, n)[k] == base[k]
    ensures forall j :: 0 <= j < n && job.Takes(base, j) ==>
                          job.Key(j) in job.Held(base, n) && job.Held(base, n)[job.Key(j)] == job.Sha(j)
  {
    hide Job.Key, Job.Sha, Job.KeyAndScope;
    if n > 0 {
      HeldIs(job, base, n - 1);
    }
  }

  lemma FirstOfItsKey(job: Job, base: map<string, nat>, i: nat)
    requires i < |job.members|
    ensures job.Becomes(base, i, Accepted) <==>
              && i < job.EndFrom(base, 0)
              && job.Offered(i) && job.Key(i) !in base
              && forall j :: 0 <= j < i && job.Offered(j) ==> job.Key(j) != job.Key(i)
  {
    HeldIs(job, base, i);
  }

  /** A file whose content is there, of a size in bounds as it is stored and as it inflates, and parses. */
  predicate IsRecord(job: Job, i: nat)
    requires i < |job.members|
  {
    match job.members[i]
    case File(_, size, Some(payload)) =>
      && size > 0 && size <= job.config.maxRecordBytes
      && payload.rawLen > 0 && payload.rawLen <= job.config.maxRecordBytes && payload.parses
    case _ => false
  }

  /** What a record is claimed as: its game, or for one without a game its path in the batch of its source. */
  function Identity(job: Job, i: nat): string
    requires i < |job.members| && IsRecord(job, i)
  {
    var member := job.members[i];
    match member.payload.value.uuid
    case Some(uuid) => "majsoul-watch\0" + uuid
    case None => job.source + "\0" + job.batchKey + "/" + member.path
  }

  lemma KeyIsIdentity(job: Job, i: nat)
    requires i < |job.members|
    ensures job.Good(i) <==> IsRecord(job, i)
    ensures job.Good(i) ==> job.Key(i) == Identity(job, i)
    ensures job.Good(i) ==> (job.KeyAndScope(i).1.ContentMustMatch() <==> job.members[i].payload.value.uuid.None?)
  {
    if job.Good(i) {
      var member := job.members[i];
      WhatKeysPromise(member.payload.value.uuid, job.source, job.batchKey + "/" + member.path);
      assert job.source + "\0" + (job.batchKey + "/" + member.path)
          == job.source + "\0" + job.batchKey + "/" + member.path;
    }
  }

  /** Two records of an archive are one exactly when they are of one game, or, neither having a game, at one path. A
      record of a game is one with a record without only when the live collector's own source names a path by that uuid.
      */
  lemma SameIdentity(job: Job, i: nat, j: nat)
    requires i < |job.members| && j < |job.members| && IsRecord(job, i) && IsRecord(job, j)
    ensures var a, b := job.members[i], job.members[j];
            var u, v := a.payload.value.uuid, b.payload.value.uuid;
            && (u.Some? && v.Some? ==> (Identity(job, i) == Identity(job, j) <==> u.value == v.value))
            && (u.None? && v.None? ==> (Identity(job, i) == Identity(job, j) <==> a.path == b.path))
            && (u.None? && v.Some? && '\0' !in job.source ==>
                  (Identity(job, i) == Identity(job, j)
                   <==> job.source == "majsoul-watch" && v.value == job.batchKey + "/" + a.path))
  {
    var a, b := job.members[i], job.members[j];
    var u, v := a.payload.value.uuid, b.payload.value.uuid;
    KeyIsIdentity(job, i);
    KeyIsIdentity(job, j);
    if u.Some? && v.Some? {
      assert ("majsoul-watch\0" + u.value)[14..] == u.value && ("majsoul-watch\0" + v.value)[14..] == v.value;
    } else if u.None? && v.None? {
      var prefix := job.source + "\0" + job.batchKey + "/";
      assert (prefix + a.path)[|prefix|..] == a.path && (prefix + b.path)[|prefix|..] == b.path;
    } else if u.None? && '\0' !in job.source {
      CallerKeyIsNoGame(job.source, job.batchKey + "/" + a.path, v.value);
    }
  }

  /** A member is accepted exactly when the walk gets past it, it is a record, the store answers, nobody had what it is
      claimed as, and no record the store answered for comes before it that is claimed as the same. */
  lemma TakesTheFirst(job: Job, base: map<string, nat>, i: nat)
    requires i < |job.members|
    ensures job.Becomes(base, i, Accepted) <==>
              && i < job.EndFrom(base, 0)
              && IsRecord(job, i) && job.replies(i).Answers? && Identity(job, i) !in base
              && forall j :: 0 <= j < i && IsRecord(job, j) && job.replies(j).Answers? ==>
                   Identity(job, j) != Identity(job, i)
  {
    HeldIs(job, base, i);
    KeyIsIdentity(job, i);
    forall j | 0 <= j < i
      ensures job.Good(j) <==> IsRecord(job, j)
      ensures job.Good(j) ==> job.Key(j) == Identity(job, j)
    {
      KeyIsIdentity(job, j);
    }
    hide Job.Good, IsRecord, Identity, Job.Key, Job.EndFrom;
  }

  /** And it is a duplicate exactly when the walk gets past it, it is a record, and somebody has what it is claimed as:
      had it before, or was accepted earlier in the archive; with the same content, unless it is of a game. */
  lemma RepeatsWhatIsHeld(job: Job, base: map<string, nat>, i: nat)
    requires i < |job.members|
    ensures job.Becomes(base, i, Duplicate) <==>
              && i < job.EndFrom(base, 0)
              && IsRecord(job, i) && (job.replies(i).Answers? || job.replies(i).Raced?)
              && var payload := job.members[i].payload.value;
                 (|| (&& Identity(job, i) in base
                      && (payload.uuid.None? ==> base[Identity(job, i)] == payload.sha256))
                  || exists j :: && 0 <= j < i && IsRecord(job, j) && job.Becomes(base, j, Accepted)
                                 && Identity(job, j) == Identity(job, i)
                                 && (payload.uuid.None? ==> job.members[j].payload.value.sha256 == payload.sha256))
  {
    HeldIs(job, base, i);
    KeyIsIdentity(job, i);
    forall j | 0 <= j < i
      ensures job.Takes(base, j) ==> IsRecord(job, j) && job.Key(j) == Identity(job, j)
      ensures i < job.EndFrom(base, 0) ==> (job.Becomes(base, j, Accepted) <==> job.Takes(base, j))
    {
      KeyIsIdentity(job, j);
    }
    if job.Good(i) {
      HolderOf(job, base, i, job.Key(i));
    }
  }

  /** What is held under a key is what was, or came with the one member that was accepted for it. */
  lemma {:induction false} HolderOf(job: Job, base: map<string, nat>, n: nat, key: string)
    requires n <= |job.members|
    ensures key in job.Held(base, n) ==>
              || (key in base && job.Held(base, n)[key] == base[key])
              || exists j :: && 0 <= j < n && job.Takes(base, j) && job.Key(j) == key
                             && job.Held(base, n)[key] == job.Sha(j)
    ensures forall j :: 0 <= j < n && job.Takes(base, j) && job.Key(j) == key ==>
              key !in base && key in job.Held(base, n) && job.Held(base, n)[key] == job.Sha(j)
  {
    if n > 0 {
      HolderOf(job, base, n - 1, key);
      HeldIs(job, base, n - 1);
    }
  }

  /** The key of a good member among the first `n`. */
  ghost predicate GoodKey(job: Job, n: nat, key: string)
    requires n <= |job.members|
  {
    exists j :: 0 <= j < n && job.Good(j) && job.Key(j) == key
  }

  /** Importing the same archive again. Of the members it gets past, what was produced the first time is a duplicate,
      and accepted is the first good one of each key that was not. What is claimed when it ends is what was claimed, and
      the keys of the good members up to what it had produced by then: those of all of them when it goes through. */
  lemma RetrySendsTheRest(job: Job, retry: Job, base: map<string, nat>)
    requires retry == job.(replies := retry.replies, flushes := retry.flushes)
    requires forall i :: retry.replies(i).Answers?
    ensures var left := job.Held(base, job.Kept(base));
            var end, kept := retry.EndFrom(left, 0), retry.Kept(left);
            && (forall i :: 0 <= i < job.Kept(base) && i < end && job.Takes(base, i) ==>
                  retry.Becomes(left, i, Duplicate))
            && (forall i :: 0 <= i < |job.members| ==>
                  (retry.Becomes(left, i, Accepted) <==>
                     && i < end && job.Good(i) && job.Key(i) !in left
                     && forall j :: 0 <= j < i && job.Good(j) ==> job.Key(j) != job.Key(i)))
            && (forall k :: k in retry.Held(left, kept) <==> k in left || GoodKey(job, kept, k))
            && (end > |job.members| ==>
                  forall k :: k in retry.Held(left, kept) <==> k in base || GoodKey(job, |job.members|, k))
  {
    var m := job.Kept(base);
    var left := job.Held(base, m);
    var kept := retry.Kept(left);
    HeldIs(job, base, m);
    HeldIs(retry, left, kept);
    forall i | 0 <= i < |job.members|
      ensures retry.Good(i) == job.Good(i) && retry.Offered(i) == job.Good(i)
      ensures job.Good(i) ==> retry.Key(i) == job.Key(i)
    {
    }
    hide Job.EndFrom, Job.VerdictOn, Job.Held;
    forall i | 0 <= i < |job.members|
      ensures retry.Becomes(left, i, Accepted) <==>
                && i < retry.EndFrom(left, 0) && job.Good(i) && job.Key(i) !in left
                && forall j :: 0 <= j < i && job.Good(j) ==> job.Key(j) != job.Key(i)
    {
      FirstOfItsKey(retry, left, i);
    }
    forall i | 0 <= i < m && job.Takes(base, i)
      ensures retry.VerdictOn(left, i) == Duplicate
    {
      KeptIsRepeated(job, retry, base, i);
    }
  }

  lemma KeptIsRepeated(job: Job, retry: Job, base: map<string, nat>, i: nat)
    requires retry == job.(replies := retry.replies, flushes := retry.flushes)
    requires i < job.Kept(base) && job.Takes(base, i) && retry.replies(i).Answers?
    ensures retry.VerdictOn(job.Held(base, job.Kept(base)), i) == Duplicate
  {
    HeldIs(job, base, job.Kept(base));
    HeldIs(retry, job.Held(base, job.Kept(base)), i);
  }

  lemma {:induction false} EndsAt(job: Job, base: map<string, nat>, i: nat, end: nat)
    requires i <= end <= |job.members| && forall j :: i <= j < end ==> job.StopAt(base, j).None?
    ensures job.EndFrom(base, i) == if job.StopAt(base, end).Some? then end else job.EndFrom(base, end)
    decreases end - i
  {
    if i < end {
      EndsAt(job, base, i + 1, end);
    }
  }

  /** It goes through exactly when there are not too many members, none is broken, the store answers (or merely loses a
      race) wherever it is asked, and each produce of a chunk that is not empty is acknowledged. */
  lemma SucceedsIff(job: Job, base: map<string, nat>)
    ensures var n := |job.members|;
            job.EndFrom(base, 0) > n <==>
              && n <= job.config.maxBatchRecords
              && (forall i :: 0 <= i < n ==> !Broken(job.members[i]))
              && (forall i :: 0 <= i < n && job.Readable(i) ==> !job.replies(i).Backlogged?)
              && (forall i :: 0 <= i < n && job.Good(i) ==> !job.replies(i).Down?)
              && (forall i :: 0 <= i < n && job.Overflows(base, i) && job.Waiting(base, i) > 0 ==>
                    job.flushes(i).Acknowledged?)
              && (job.Waiting(base, n) > 0 ==> job.flushes(n).Acknowledged?)
  {
    hide Job.Overflows, Job.Waiting;
    var n, max := |job.members|, job.config.maxBatchRecords;
    if job.EndFrom(base, 0) > n {
      assert max < n ==> job.StopAt(base, max).Some?;
      assert job.StopAt(base, n).None?;
      forall i | 0 <= i < n
        ensures !Broken(job.members[i])
        ensures job.Readable(i) ==> !job.replies(i).Backlogged?
        ensures job.Good(i) ==> !job.replies(i).Down?
        ensures job.Overflows(base, i) && job.Waiting(base, i) > 0 ==> job.flushes(i).Acknowledged?
      {
        assert job.StopAt(base, i).None?;
      }
    }
  }

  lemma OnlyFilesCount(job: Job, base: map<string, nat>, i: nat)
    requires i < |job.members|
    ensures job.VerdictOn(base, i) == Ignored <==> !job.members[i].File?
  {
  }

  lemma NothingCounts(job: Job, base: map<string, nat>)
    ensures job.Tally(base, 0) == Response(0, 0, 0)
  {
  }

  lemma {:induction false} TallyAddsUp(job: Job, base: map<string, nat>, n: nat)
    requires n <= |job.members|
    ensures Walked(job.Tally(base, n)) == Files(job.members[..n])
  {
    hide Job.VerdictOn, Job.Count, Job.Tally;
    if n > 0 {
      TallyAddsUp(job, base, n - 1);
      assert job.members[..n][..n - 1] == job.members[..n - 1];
      NextMember(job, base, n - 1);
      OnlyFilesCount(job, base, n - 1);
    } else {
      NothingCounts(job, base);
    }
  }

  ghost predicate Bounded(chunk: seq<Claimed>)
  {
    |chunk| <= 1 || BytesOf(chunk) <= 786_432
  }

  /** The content each key is claimed with. */
  function Shas(claims: map<string, Claim>): map<string, nat>
  {
    map k | k in claims :: claims[k].sha256
  }

  lemma ShasOneMore(claims: map<string, Claim>, key: string, claim: Claim)
    ensures Shas(claims[key := claim]) == Shas(claims)[key := claim.sha256]
  {
  }

  /** The verdict on a readable file, read off the table. */
  lemma VerdictIs(job: Job, base: map<string, nat>, i: nat, claims: map<string, Claim>)
    requires i < |job.members| && job.Readable(i) && Shas(claims) == job.Held(base, i)
    ensures var (key, scope) := job.KeyAndScope(i);
            var asked := job.Good(i) && (job.replies(i).Answers? || job.replies(i).Raced?);
            && (job.Takes(base, i) <==> job.Good(i) && job.replies(i).Answers? && key !in claims)
            && job.VerdictOn(base, i)
            == if job.Takes(base, i) then Accepted
               else if && asked && key in claims
                       && (scope.ContentMustMatch() ==> claims[key].sha256 == job.Sha(i)) then Duplicate
               else Rejected
  {
    assert forall k :: k in claims <==> k in Shas(claims);
  }

  lemma Nothing(p: Pair)
    ensures PairsOf([]) == {} && {} + {p} == {p} && BytesOf([]) == 0
  {
  }

  /** The variables of one walk. */
  class Import {
    const store: Store
    const job: Job
    var pending: seq<Claimed>
    var pendingBytes: nat
    var response: Response
    /** The claims there were before the walk; every pair the walk claimed; those the topic acknowledged; and the
        chunks handed to it. */
    ghost const before: map<string, Claim>
    ghost var all: set<Pair>
    ghost var acked: set<Pair>
    ghost var chunks: seq<seq<Claimed>>

    ghost predicate Chunked()
      reads this`pending, this`pendingBytes, this`chunks
    {
      && pendingBytes == BytesOf(pending) && Bounded(pending)
      && (forall i :: 0 <= i < |chunks| ==> Bounded(chunks[i]))
      && (forall i :: 0 <= i < |pending| ==> pending[i].message && pending[i].rawLen > 0)
    }

    /** With `inHand` claimed but not in the pending chunk yet. */
    ghost predicate Valid(inHand: set<Pair>)
      reads this`pending, this`pendingBytes, this`chunks, this`all, this`acked, store
    {
      && store.Valid() && Chunked()
      && acked <= store.topic
      && (forall p :: p in all ==> p.id < store.nextId)
      && PairsOf(pending) !! inHand
      && WalkOk(before, store.claims, all, acked, PairsOf(pending) + inHand)
    }

    /** The table and the chunk are what the first `n` members make of them; and the counters too. */
    ghost predicate Holds(n: nat)
      reads this`pending, this`pendingBytes, store`claims
    {
      var base := Shas(before);
      && n <= |job.members|
      && Shas(store.claims) == job.Held(base, n)
      && pendingBytes == job.Waiting(base, n)
      && Standing() == job.Held(base, job.Produced(base, n))
    }

    ghost predicate At(n: nat)
      reads this`pending, this`pendingBytes, this`response, store`claims
    {
      Holds(n) && response == job.Tally(Shas(before), n)
    }

    /** The content that stays claimed when what is pending is released. */
    ghost function Standing(): map<string, nat>
      reads this`pending, store`claims
    {
      Shas(Without(store.claims, PairsOf(pending)))
    }

    constructor (store: Store, job: Job)
      requires store.Valid()
      ensures Valid({}) && this.store == store && this.job == job && before == store.claims
      ensures pending == [] && all == {} && acked == {} && chunks == [] && response == Response(0, 0, 0)
      ensures At(0) && Clean()
    {
      this.store := store;
      this.job := job;
      pending, pendingBytes, response := [], 0, Response(0, 0, 0);
      before := store.claims;
      all, acked, chunks := {}, {}, [];
      new;
      assert PairsOf([]) == {};
      WithoutOneMore(store.claims, {}, Pair("", 0, Game));
    }

    lemma PendingIds(inHand: set<Pair>)
      requires Valid(inHand)
      ensures forall i :: 0 <= i < |pending| ==> pending[i].id < store.nextId
    {
      forall i | 0 <= i < |pending|
        ensures pending[i].id < store.nextId
      {
        assert PairOf(pending[i]) in PairsOf(pending);
      }
    }

    /** Hands one chunk of claimed records to the topic; a failure has released their claims. */
    method ProduceBatchChunk(flush: Flush, ghost inHand: set<Pair>) returns (ok: bool)
      requires Valid(inHand)
      modifies this`pending, this`pendingBytes, this`acked, this`chunks, store`claims, store`topic
      ensures Valid(inHand) && pending == []
      ensures acked == old(acked) + (if ok then PairsOf(old(pending)) else {})
      ensures ok <==> old(pending) == [] || flush.Acknowledged?
      ensures store.claims == if ok then old(store.claims) else Without(old(store.claims), PairsOf(old(pending)))
      ensures chunks == old(chunks) + [old(pending)]
    {
      hide WalkOk;
      PendingIds(inHand);
      var chunk := pending;
      ghost var claims0 := store.claims;
      pending, pendingBytes := [], 0;
      chunks := chunks + [chunk];
      ok := store.ProduceClaimed(chunk, flush);
      assert PairsOf([]) == {} && PairsOf([]) + inHand == inHand;
      assert chunk != [] ==> PairOf(chunk[0]) in PairsOf(chunk);
      if ok {
        AckedOk(before, store.claims, all, acked, PairsOf(chunk), inHand);
        acked := acked + PairsOf(chunk);
      } else {
        ReleasedOk(before, claims0, all, acked, PairsOf(chunk), inHand);
      }
    }

    /** Releases the claims of records in hand. */
    method Drop(claimed: seq<Claimed>, ghost rest: set<Pair>)
      requires PairsOf(claimed) !! rest && pending == [] && Valid(PairsOf(claimed) + rest)
      modifies store`claims
      ensures Valid(rest) && store.claims == Without(old(store.claims), PairsOf(claimed))
    {
      hide WalkOk;
      ghost var claims0 := store.claims;
      store.AbandonClaimed(claimed);
      assert PairsOf(pending) == {};
      assert PairsOf(pending) + (PairsOf(claimed) + rest) == PairsOf(claimed) + rest;
      assert PairsOf(pending) + rest == rest;
      ReleasedOk(before, claims0, all, acked, PairsOf(claimed), rest);
    }

    /** The release every early way out of the walk passes through. */
    method Forget(claimed: seq<Claimed>)
      requires Valid({}) && claimed == pending
      modifies this`pending, this`pendingBytes, store`claims
      ensures Valid({}) && pending == [] && store.claims == Without(old(store.claims), PairsOf(claimed))
    {
      hide WalkOk;
      pending, pendingBytes := [], 0;
      assert PairsOf(pending) == {} && {} + (PairsOf(claimed) + {}) == PairsOf(claimed) + {};
      Drop(claimed, {});
    }

    /** One claimed record joins the chunk, after the chunk has been flushed if the record would push it past its
        bound. When that flush fails the record's own claim is released too. */
    method Collect(claimed: Claimed, flush: Flush) returns (ok: bool)
      requires claimed.message && claimed.rawLen > 0 && Valid({PairOf(claimed)})
      modifies this`pending, this`pendingBytes, this`acked, this`chunks, store`claims, store`topic
      ensures Valid({}) && old(acked) <= acked
      ensures ok <==>
                || old(pending) == [] || old(pendingBytes) + claimed.rawLen <= MAX_PRODUCE_BATCH_BYTES
                || flush.Acknowledged?
      ensures ok ==> Ours() == old(Ours()) + {PairOf(claimed)} && store.claims == old(store.claims)
      ensures ok ==> pending == if old(pendingBytes) + claimed.rawLen > MAX_PRODUCE_BATCH_BYTES then [claimed]
                                else old(pending) + [claimed]
      ensures !ok ==>
                && pending == []
                && store.claims == Without(Without(old(store.claims), old(PairsOf(pending))), {PairOf(claimed)})
    {
      hide WalkOk;
      ghost var hand := {PairOf(claimed)};
      PairsOneMore([], claimed);
      assert [] + [claimed] == [claimed] && PairsOf([]) == {} && PairsOf([claimed]) == hand == hand + {};
      ok := true;
      if pendingBytes + claimed.rawLen > MAX_PRODUCE_BATCH_BYTES {
        ok := ProduceBatchChunk(flush, hand);
        if !ok {
          Drop([claimed], {});
          return;
        }
        assert [] + [claimed] == [claimed];
      }
      Push(claimed);
    }

    method Push(claimed: Claimed)
      requires claimed.message && claimed.rawLen > 0 && Valid({PairOf(claimed)})
      requires pending == [] || pendingBytes + claimed.rawLen <= MAX_PRODUCE_BATCH_BYTES
      modifies this`pending, this`pendingBytes
      ensures Valid({}) && pending == old(pending) + [claimed]
      ensures PairsOf(pending) == old(PairsOf(pending)) + {PairOf(claimed)}
    {
      hide WalkOk;
      PairsOneMore(pending, claimed);
      pendingBytes := pendingBytes + claimed.rawLen;
      pending := pending + [claimed];
      assert PairsOf(pending) + {} == PairsOf(pending);
    }

    /** What we have claimed and not released: acknowledged already, or waiting. */
    ghost function Ours(): set<Pair>
      reads this`pending, this`acked
    {
      acked + PairsOf(pending)
    }

    /** Nothing claimed has been lost so far, and the counter says how much that is. */
    ghost predicate Clean()
      reads this
    {
      all == Ours() && response.accepted == |all|
    }

    /** The walk, up to its end or to what stops it. */
    method Walk() returns (stop: Option<BatchError>, ghost end: nat)
      requires Valid({}) && Clean() && At(0)
      modifies this`pending, this`pendingBytes, this`response, this`all, this`acked, this`chunks, store
      ensures Valid({}) && end <= |job.members|
      ensures forall i :: 0 <= i < end ==> job.StopAt(Shas(before), i).None?
      ensures stop.None? ==> end == |job.members| && At(end) && Clean()
      ensures stop.Some? ==>
                && end < |job.members| && stop == job.StopAt(Shas(before), end)
                && Standing() == job.Held(Shas(before), job.Produced(Shas(before), end))
    {
      hide *;
      for i := 0 to |job.members|
        invariant Valid({}) && Clean() && At(i)
        invariant forall j :: 0 <= j < i ==> job.StopAt(Shas(before), j).None?
      {
        stop := Visit(i);
        if stop.Some? {
          return stop, i;
        }
      }
      return None, |job.members|;
    }

    /** The end of the walk: what is pending is flushed, or, if something stopped the walk, released. */
    method Settle(stopped: Option<BatchError>, flush: Flush) returns (stop: Option<BatchError>)
      requires Valid({})
      modifies this`pending, this`pendingBytes, this`acked, this`chunks, store`claims, store`topic
      ensures Valid({}) && pending == []
      ensures stop == if stopped.Some? then stopped
                      else if old(pending) == [] || flush.Acknowledged? then None else Some(Internal)
      ensures stop.None? ==> acked == old(Ours()) && store.claims == old(store.claims)
      ensures stop.Some? ==> Shas(store.claims) == old(Standing())
    {
      hide WalkOk;
      if stopped.Some? {
        Forget(pending);
        return stopped;
      }
      var ok := ProduceBatchChunk(flush, {});
      stop := if ok then None else Some(Internal);
    }

    /** One member of the archive: nothing, a rejection, a duplicate, or a claim; or the end of the walk. */
    method Visit(i: nat) returns (stop: Option<BatchError>)
      requires Valid({}) && Clean() && i < |job.members| && At(i)
      modifies this`pending, this`pendingBytes, this`response, this`all, this`acked, this`chunks, store
      ensures Valid({}) && old(acked) <= acked
      ensures stop == job.StopAt(Shas(before), i)
      ensures stop.None? ==> Clean() && At(i + 1)
      ensures stop.Some? ==> Standing() == job.Held(Shas(before), job.Produced(Shas(before), i))
    {
      hide WalkOk, Valid;
      if i >= job.config.maxBatchRecords {
        return Some(TooManyRecords);
      }
      match job.members[i]
      case BadEntry => return Some(InvalidArchive);
      case NotAFile =>
        NextMember(job, Shas(before), i);
        return None;
      case BadPath => return Some(InvalidArchive);
      case File(path, size, payload) =>
        if size == 0 || size > job.config.maxRecordBytes || payload.None?
           || payload.value.rawLen == 0 || payload.value.rawLen > job.config.maxRecordBytes {
          NextMember(job, Shas(before), i);
          response := response.(rejected := response.rejected + 1);
          return None;
        }
        stop := Take(i, payload.value, job.batchKey + "/" + path);
    }

    method Take(i: nat, payload: Payload, key: string) returns (stop: Option<BatchError>)
      requires Valid({}) && Clean() && i < |job.members| && At(i)
      requires i < job.config.maxBatchRecords && job.Readable(i)
      requires payload == job.members[i].payload.value && key == job.batchKey + "/" + job.members[i].path
      modifies this`pending, this`pendingBytes, this`response, this`all, this`acked, this`chunks, store
      ensures Valid({}) && old(acked) <= acked
      ensures stop == job.StopAt(Shas(before), i)
      ensures stop.None? ==> Clean() && At(i + 1)
      ensures stop.Some? ==> Standing() == job.Held(Shas(before), job.Produced(Shas(before), i))
    {
      hide WalkOk, Valid, Chunked, Store.Valid, Without, Shas, PairsOf, KeyFor;
      hide Job.Held, Job.Takes, Job.Waiting, Job.Overflows, Job.Produced, Job.Tally, Job.VerdictOn;
      VerdictIs(job, Shas(before), i, store.claims);
      NextMember(job, Shas(before), i);
      OnlyTaken(job, Shas(before), i);
      ghost var claims0 := store.claims;
      var r := ClaimMember(payload, job.source, key, job.replies(i));
      if r.Failure? {
        if r.error.Busy? || r.error.StoreError? {
          return Some(Internal);
        }
        response := response.(rejected := response.rejected + 1);
        return None;
      }
      if !r.value.message {
        response := response.(duplicates := response.duplicates + 1);
        return None;
      }
      response := response.(accepted := response.accepted + 1);
      stop := Keep(i, r.value, claims0);
    }

    /** The claim of member `i` is in hand: it joins the chunk, or is released with it. */
    method Keep(i: nat, claimed: Claimed, ghost claims0: map<string, Claim>) returns (stop: Option<BatchError>)
      requires claimed.message && Valid({PairOf(claimed)}) && i < |job.members| && job.Takes(Shas(before), i)
      requires claimed.rawLen == job.members[i].payload.value.rawLen && claimed.key == job.Key(i)
      requires claimed.key !in claims0 && IsClaimed(store.claims, PairOf(claimed))
      requires store.claims == claims0[claimed.key := store.claims[claimed.key]]
      requires store.claims[claimed.key].sha256 == job.Sha(i)
      requires var base := Shas(before);
               && Shas(claims0) == job.Held(base, i) && pendingBytes == job.Waiting(base, i)
               && Shas(Without(claims0, PairsOf(pending))) == job.Held(base, job.Produced(base, i))
      modifies this`pending, this`pendingBytes, this`acked, this`chunks, store`claims, store`topic
      ensures Valid({}) && old(acked) <= acked
      ensures var base := Shas(before);
              && (stop.None? <==> (job.Overflows(base, i) && job.Waiting(base, i) > 0 ==> job.flushes(i).Acknowledged?))
              && (stop.None? ==> Holds(i + 1) && Ours() == old(Ours()) + {PairOf(claimed)})
              && (stop.Some? ==> stop == Some(Internal) && Standing() == job.Held(base, job.Produced(base, i)))
    {
      hide WalkOk, Valid, Without, Shas, PairsOf, BytesOf, KeyFor, IsClaimed;
      hide Job.Held, Job.Takes, Job.Waiting, Job.Overflows, Job.Produced;
      ghost var base, p := Shas(before), PairOf(claimed);
      PendingBytes({p});
      TakenIn(job, base, i);
      TakenBack(claims0, ClaimOf(p), PairsOf(pending), p);
      ShasOneMore(claims0, claimed.key, ClaimOf(p));
      PairsOneMore(pending, claimed);
      PairsOneMore([], claimed);
      assert [] + [claimed] == [claimed] && PairsOf([]) == {} && {} + {p} == {p} && BytesOf([]) == 0 by {
        Nothing(p);
      }
      var ok := Collect(claimed, job.flushes(i));
      PendingBytes({});
      WithoutOneMore(store.claims, {}, p);
      stop := if ok then None else Some(Internal);
    }

    /** The claim that is in the table for a pair. */
    ghost function ClaimOf(p: Pair): Claim
      requires IsClaimed(store.claims, p)
      reads store`claims
      ensures ClaimOf(p) == store.claims[p.key] && ClaimOf(p).id == p.id
    {
      store.claims[p.key]
    }

    lemma PendingBytes(inHand: set<Pair>)
      requires Valid(inHand)
      ensures pendingBytes == BytesOf(pending) && (pending == [] <==> pendingBytes == 0)
    {
      if pending != [] {
        SomeBytes(pending);
      }
    }

    /** Claims one record; a new claim is in hand, everything else leaves the walk as it was. */
    method ClaimMember(payload: Payload, source: string, key: string, reply: Reply)
      returns (r: Result<Claimed, IngestError>)
      requires Valid({})
      modifies this`all, store`claims, store`nextId
      ensures r.Success? && r.value.message ==> Valid({PairOf(r.value)})
      ensures r.Success? && r.value.message ==> PairOf(r.value) !in old(all) && all == old(all) + {PairOf(r.value)}
      ensures !(r.Success? && r.value.message) ==> Valid({}) && all == old(all) && store.claims == old(store.claims)
      ensures r.Success? && r.value.message ==>
                && payload.parses && reply.Answers? && r.value.rawLen == payload.rawLen
                && r.value.key == KeyFor(payload.uuid, source, key).0 && r.value.key !in old(store.claims)
                && r.value.key in store.claims && store.claims[r.value.key].id == r.value.id
                && store.claims[r.value.key].sha256 == payload.sha256
                && store.claims == old(store.claims)[r.value.key := store.claims[r.value.key]]
      ensures r.Success? && !r.value.message <==>
                var (k, scope) := KeyFor(payload.uuid, source, key);
                && payload.parses && (reply.Answers? || reply.Raced?) && k in old(store.claims)
                && (scope.ContentMustMatch() ==> old(store.claims)[k].sha256 == payload.sha256)
      ensures r.Failure? ==>
                !(payload.parses && reply.Answers? && KeyFor(payload.uuid, source, key).0 !in old(store.claims))
      ensures r.Failure? ==>
                (r.error.Busy? || r.error.StoreError? <==> reply.Backlogged? || (payload.parses && reply.Down?))
    {
      hide WalkOk;
      ghost var claims0, all0 := store.claims, all;
      r := store.ClaimRecord(payload, source, key, reply);
      if r.Success? && r.value.message {
        ghost var pair := PairOf(r.value);
        NewPair(claims0, all0, pair);
        all := all + {pair};
      }
    }

    /** What is left once nothing is pending. */
    lemma Accounts()
      requires Valid({}) && pending == []
      ensures store.Valid() && acked <= all && acked <= store.topic
      ensures forall p :: p in all ==> (p in acked <==> IsClaimed(store.claims, p))
      ensures forall k :: k in before ==> k in store.claims && store.claims[k] == before[k]
      ensures forall k :: k in store.claims && k !in before ==> InTopic(acked, k, store.claims[k].id)
      ensures forall i :: 0 <= i < |chunks| ==> Bounded(chunks[i])
    {
      hide WalkOk;
      assert PairsOf([]) == {};
      AllAccounted(before, store.claims, all, acked);
    }

    lemma NewPair(claims0: map<string, Claim>, all0: set<Pair>, p: Pair)
      requires WalkOk(before, claims0, all0, acked, PairsOf(pending) + {})
      requires p.key !in claims0 && p.key in store.claims && store.claims[p.key].id == p.id
      requires store.claims == claims0[p.key := store.claims[p.key]]
      requires forall q :: q in all0 ==> q.id != p.id
      ensures WalkOk(before, store.claims, all0 + {p}, acked, PairsOf(pending) + {p})
      ensures p !in Ours() && PairsOf(pending) !! {p}
    {
      assert PairsOf(pending) + {} == PairsOf(pending);
      ClaimedOk(before, claims0, store.claims[p.key], all0, acked, PairsOf(pending), p);
      assert forall q :: q in Ours() ==> q in all0;
    }
  }

  /** An entry that cannot be read, or a member whose path cannot. */
  predicate Broken(member: Member)
  {
    member.BadEntry? || member.BadPath?
  }

  function Walked(r: Response): nat
  {
    r.accepted + r.duplicates + r.rejected
  }

  /** The file members of an archive. */
  function Files(members: seq<Member>): nat
  {
    if members == [] then 0
    else Files(members[..|members| - 1]) + if members[|members| - 1].File? then 1 else 0
  }

  /** The whole import. On every way out each pair the walk claimed is either acknowledged by the topic, its claim
      standing, or has had its claim released; the claims there were before are untouched; and every chunk of more than
      one record that was handed over is within the bound. It ends where the first member stops it, and what is claimed
      then, with which content, and how many members were accepted, duplicates and rejected, is what `Job` says. */
  method ProcessBatchArchive(store: Store, job: Job)
    returns (r: Result<Response, BatchError>, ghost all: set<Pair>, ghost acked: set<Pair>,
             ghost chunks: seq<seq<Claimed>>)
    requires store.Valid()
    modifies store
    ensures store.Valid() && acked <= all && acked <= store.topic
    ensures forall p :: p in all ==> (p in acked <==> IsClaimed(store.claims, p))
    ensures forall k :: k in old(store.claims) ==> k in store.claims && store.claims[k] == old(store.claims)[k]
    ensures forall k :: k in store.claims && k !in old(store.claims) ==> InTopic(acked, k, store.claims[k].id)
    ensures forall i :: 0 <= i < |chunks| ==> Bounded(chunks[i])
    ensures r.Success? ==> acked == all && r.value.accepted == |all| && Walked(r.value) == Files(job.members)
    ensures var base := Shas(old(store.claims));
            var end := job.EndFrom(base, 0);
            && r == (if end > |job.members| then Success(job.Tally(base, |job.members|))
                     else Failure(job.StopAt(base, end).value))
            && Shas(store.claims) == job.Held(base, job.Kept(base))
  {
    hide WalkOk, Import.Valid, Job.Held, Job.Takes, Job.Tally, Job.Produced, Job.Waiting, Job.Overflows, Shas, Without;
    hide PairsOf, BytesOf, Bounded, IsClaimed, InTopic, Files;
    var walk := new Import(store, job);
    ghost var base := Shas(store.claims);
    ghost var end;
    var stop;
    stop, end := walk.Walk();
    walk.PendingBytes({});
    stop := walk.Settle(stop, job.flushes(|job.members|));
    all, acked, chunks := walk.all, walk.acked, walk.chunks;
    walk.Accounts();
    TallyAddsUp(job, base, |job.members|);
    assert job.members[..|job.members|] == job.members;
    EndsAt(job, base, 0, end);
    r := match stop case None => Success(walk.response) case Some(e) => Failure(e);
  }

  lemma AllAccounted(before: map<string, Claim>, claims: map<string, Claim>, all: set<Pair>, acked: set<Pair>)
    requires WalkOk(before, claims, all, acked, {} + {})
    ensures acked <= all
    ensures forall p :: p in all ==> (p in acked <==> IsClaimed(claims, p))
    ensures forall k :: k in before ==> k in claims && claims[k] == before[k]
    ensures forall k :: k in claims && k !in before ==> InTopic(acked, k, claims[k].id)
  {
    assert acked + ({} + {}) == acked;
  }
}
