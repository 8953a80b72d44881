/** The live collector's two queues, the file they are kept in, and what happens to a game that has ended.
    `src/managed_watch.rs`. */
module WatchQueue {
  import opened Prelude

  const SETTLE_SECS: nat := 120
  const GIVE_UP_SECS: nat := 10800

  datatype Game = Game(uuid: string, queuedAt: Option<nat>)

  type Games = map<string, Game>

  datatype Saved = Saved(tracked: Games, pending: Games) {
    function Games(): set<string> { tracked.Keys + pending.Keys }
  }

  /** What became of one try to fetch, convert and ingest a game: something that ends the session, a refusal, a failure
      past the fetch, or an ingest, which may still fail to be reported. */
  datatype Attempt = EndsSession | Refused | Unconverted | Landed(reported: bool)
  {
    predicate Fails() { Refused? || Unconverted? }
  }

  /** What happened, in order. */
  datatype Event =
    | Queued(uuid: string, at: nat)
    | Attempted(uuid: string, at: nat, queuedAt: Option<nat>, attempt: Attempt)
    | Ingested(uuid: string)
    | GaveUp(uuid: string, at: nat, since: nat)

  // ------------------------------------------------------------------------------------------------ a history in order

  /** What must have happened before an event may. */
  ghost predicate Follows(before: seq<Event>, event: Event)
  {
    match event
    case Queued(_, _) => true
    case Attempted(uuid, at, queuedAt, _) =>
      queuedAt.Some? && at >= queuedAt.value + SETTLE_SECS && Queued(uuid, queuedAt.value) in before
    case Ingested(uuid) =>
      before != [] && before[|before| - 1].Attempted? && before[|before| - 1].uuid == uuid
      && before[|before| - 1].attempt.Landed?
    case GaveUp(uuid, at, since) =>
      && at > since + GIVE_UP_SECS && Queued(uuid, since) in before
      && before != [] && before[|before| - 1].Attempted? && before[|before| - 1].uuid == uuid
      && before[|before| - 1].at == at && before[|before| - 1].attempt.Fails()
  }

  ghost predicate InOrder(log: seq<Event>)
  {
    log == [] || (InOrder(log[..|log| - 1]) && Follows(log[..|log| - 1], log[|log| - 1]))
  }

  lemma InOrderSnoc(log: seq<Event>, event: Event)
    ensures InOrder(log + [event]) <==> InOrder(log) && Follows(log, event)
  {
    assert (log + [event])[..|log|] == log;
  }

  /** In a history in order every event comes after what it needs. */
  lemma {:induction false} EventFollows(log: seq<Event>, j: nat)
    requires InOrder(log) && j < |log|
    ensures Follows(log[..j], log[j])
  {
    if j < |log| - 1 {
      EventFollows(log[..|log| - 1], j);
      assert log[..|log| - 1][..j] == log[..j];
    }
  }

  /** A game is given up only right after a failed try, more than three hours after it was queued. */
  lemma GivenUpLate(log: seq<Event>, j: nat)
    requires InOrder(log) && j < |log| && log[j].GaveUp?
    ensures j > 0 && log[j - 1].Attempted? && log[j - 1].uuid == log[j].uuid && log[j - 1].attempt.Fails()
    ensures exists i :: 0 <= i < j && log[i] == Queued(log[j].uuid, log[j].since)
                        && log[j].at > log[i].at + 10800
  {
    EventFollows(log, j);
    assert log[..j][j - 1] == log[j - 1];
    var i :| 0 <= i < j && log[..j][i] == Queued(log[j].uuid, log[j].since);
    assert log[i] == log[..j][i];
  }

  /** The game was given up here, right after a failed try and more than three hours after it was queued. */
  ghost predicate GivenUpAt(log: seq<Event>, uuid: string, j: nat)
    requires 0 < j < |log|
  {
    && log[j].GaveUp? && log[j].uuid == uuid
    && log[j - 1].Attempted? && log[j - 1].uuid == uuid && log[j - 1].attempt.Fails()
    && exists i :: 0 <= i < j && log[i].Queued? && log[i].uuid == uuid && log[j].at > log[i].at + 10800
  }

  /** A game is not fetched before it has been queued for two minutes. */
  lemma FetchedSettled(log: seq<Event>, j: nat)
    requires InOrder(log) && j < |log| && log[j].Attempted?
    ensures exists i :: 0 <= i < j && log[i].Queued? && log[i].uuid == log[j].uuid && log[j].at >= log[i].at + 120
  {
    EventFollows(log, j);
    var i :| 0 <= i < j && log[..j][i] == Queued(log[j].uuid, log[j].queuedAt.value);
    assert log[i] == log[..j][i];
  }

  /** The games that are over and done with. */
  ghost function Closed(log: seq<Event>): set<string>
  {
    set event | event in log && (event.Ingested? || event.GaveUp?) :: event.uuid
  }

  /** Those that were closed after the first `at` events. */
  ghost function ClosedSince(log: seq<Event>, at: nat): set<string>
  {
    if at <= |log| then Closed(log[at..]) else {}
  }

  lemma ClosedBoth(log: seq<Event>, more: seq<Event>)
    ensures Closed(log + more) == Closed(log) + Closed(more)
  {
    forall uuid
      ensures uuid in Closed(log + more) <==> uuid in Closed(log) || uuid in Closed(more)
    {
      assert forall event :: event in log + more <==> event in log || event in more;
    }
  }

  lemma ClosedLater(log: seq<Event>, longer: seq<Event>, at: nat)
    requires log <= longer && at <= |log|
    ensures ClosedSince(longer, at) == ClosedSince(log, at) + ClosedSince(longer, |log|)
  {
    hide Closed;
    assert longer[at..] == log[at..] + longer[|log|..];
    ClosedBoth(log[at..], longer[|log|..]);
  }

  // -------------------------------------------------------------------------------------------------------- the queues

  /** Every pending game was queued at the time it carries. */
  ghost predicate Timed(pending: Games, log: seq<Event>)
  {
    forall uuid :: uuid in pending ==>
      && pending[uuid].uuid == uuid && pending[uuid].queuedAt.Some?
      && Queued(uuid, pending[uuid].queuedAt.value) in log
  }

  lemma TimedSnoc(pending: Games, log: seq<Event>, event: Event)
    requires Timed(pending, log)
    ensures Timed(pending, log + [event])
  {
  }

  /** Whatever of the games that ended is not in `todo` is pending; pending games keep their time. */
  ghost predicate Enqueued(tracked: Games, pending: Games, live: Games, now: nat, todo: set<string>, after: Games)
  {
    && (forall uuid :: uuid in pending ==> uuid in after && after[uuid] == pending[uuid])
    && (forall uuid :: uuid in after && uuid !in pending ==>
          uuid in tracked && uuid !in live && after[uuid].queuedAt == Some(now))
    && (forall uuid :: uuid in tracked && uuid !in live ==> uuid in todo || uuid in after)
  }

  lemma EnqueueOne(pending: Games, log: seq<Event>, game: Game, now: nat)
    requires InOrder(log) && Timed(pending, log)
    ensures InOrder(log + [Queued(game.uuid, now)])
    ensures Timed(pending[game.uuid := game.(queuedAt := Some(now))], log + [Queued(game.uuid, now)])
  {
    InOrderSnoc(log, Queued(game.uuid, now));
    TimedSnoc(pending, log, Queued(game.uuid, now));
  }

  lemma EnqueuedStep(tracked: Games, pending: Games, live: Games, now: nat, todo: set<string>, after: Games, uuid: string)
    requires Enqueued(tracked, pending, live, now, todo, after) && uuid in todo && todo <= tracked.Keys - live.Keys
    ensures Enqueued(tracked, pending, live, now, tracked.Keys, after)
    ensures if uuid in after then Enqueued(tracked, pending, live, now, todo - {uuid}, after)
            else Enqueued(tracked, pending, live, now, todo - {uuid},
                          after[uuid := tracked[uuid].(queuedAt := Some(now))])
  {
  }

  lemma EnqueuedKeeps(tracked: Games, pending: Games, live: Games, now: nat, todo: set<string>, after: Games)
    requires Enqueued(tracked, pending, live, now, todo, after)
    ensures pending.Keys <= after.Keys && forall uuid :: uuid in pending ==> after[uuid] == pending[uuid]
    ensures todo == {} ==> tracked.Keys <= live.Keys + after.Keys
  {
  }

  lemma TimedLonger(pending: Games, log: seq<Event>, longer: seq<Event>)
    requires Timed(pending, log) && log <= longer
    ensures Timed(pending, longer)
  {
  }

  /** Each of these games is tracked or pending. */
  ghost predicate Accounted(all: set<string>, tracked: set<string>, pending: set<string>)
  {
    all <= tracked + pending
  }

  lemma Grown(all: set<string>, tracked: set<string>, fewer: set<string>, more: set<string>)
    requires Accounted(all, tracked, fewer) && fewer <= more
    ensures Accounted(all, tracked, more)
  {
  }

  lemma NoneClosedYet(log: seq<Event>)
    ensures ClosedSince(log, |log|) == {}
  {
  }

  lemma QueuedClosesNone(log: seq<Event>, uuid: string, at: nat)
    ensures ClosedSince(log + [Queued(uuid, at)], |log|) == {}
  {
    assert (log + [Queued(uuid, at)])[|log|..] == [Queued(uuid, at)];
  }

  method EnqueueGames(tracked: Games, pending: Games, live: Games, now: nat, published: string -> bool,
                      ghost log: seq<Event>)
    returns (after: Games, ok: bool, ghost longer: seq<Event>)
    requires InOrder(log) && Timed(pending, log)
    requires forall uuid :: uuid in tracked ==> tracked[uuid].uuid == uuid
    ensures InOrder(longer) && Timed(after, longer) && log <= longer && ClosedSince(longer, |log|) == {}
    ensures Enqueued(tracked, pending, live, now, if ok then {} else tracked.Keys, after)
    ensures (forall uuid :: published(uuid)) ==> ok
  {
    hide Closed, InOrder, Timed, ClosedSince;
    NoneClosedYet(log);
    after, longer := pending, log;
    var todo := tracked.Keys - live.Keys;
    assert Enqueued(tracked, pending, live, now, todo, after);
    hide Enqueued;
    while todo != {}
      invariant todo <= tracked.Keys - live.Keys
      invariant InOrder(longer) && Timed(after, longer) && log <= longer && ClosedSince(longer, |log|) == {}
      invariant Enqueued(tracked, pending, live, now, todo, after)
      decreases |todo|
    {
      var uuid :| uuid in todo;
      EnqueuedStep(tracked, pending, live, now, todo, after, uuid);
      todo := todo - {uuid};
      if !published(uuid) {
        return after, false, longer;
      }
      if uuid !in after {
        EnqueueOne(after, longer, tracked[uuid], now);
        ClosedLater(longer, longer + [Queued(uuid, now)], |log|);
        QueuedClosesNone(longer, uuid, now);
        longer := longer + [Queued(uuid, now)];
        after := after[uuid := tracked[uuid].(queuedAt := Some(now))];
      }
    }
    return after, true, longer;
  }

  /** The game was tried with this outcome, or has not been queued for long enough. */
  ghost predicate TriedOrYoung(game: Game, uuid: string, now: nat, attempt: Attempt, log: seq<Event>)
  {
    game.queuedAt.Some?
    && (now < game.queuedAt.value + 120 || Attempted(uuid, now, game.queuedAt, attempt) in log)
  }

  lemma StaysTried(game: Game, uuid: string, now: nat, attempt: Attempt, log: seq<Event>, longer: seq<Event>)
    requires TriedOrYoung(game, uuid, now, attempt, log) && log <= longer
    ensures TriedOrYoung(game, uuid, now, attempt, longer)
  {
  }

  /** Neither the try nor the write after it ends the session. */
  predicate Smooth(attempt: Attempt, write: Outcome)
  {
    attempt != EndsSession && attempt != Landed(false) && write.Answered()
  }

  /** No pending game but those in `todo` has waited longer than it may. */
  ghost predicate WithinWait(pending: Games, todo: set<string>, now: nat)
  {
    forall uuid :: uuid in pending && uuid !in todo ==>
      pending[uuid].queuedAt.Some? && now <= pending[uuid].queuedAt.value + 10800
  }

  /** A version of the file, and how much of the history came before it was written. */
  datatype Version = Version(saved: Saved, at: nat)

  /** The games that a version of the file holds and that have not been closed since it was written. */
  ghost function Owed(files: seq<Version>, log: seq<Event>): set<string>
  {
    if files == [] then {}
    else
      var last := files[|files| - 1];
      Owed(files[..|files| - 1], log) + (last.saved.Games() - ClosedSince(log, last.at))
  }

  ghost predicate Written(files: seq<Version>, log: seq<Event>)
  {
    forall i :: 0 <= i < |files| ==> files[i].at <= |log|
  }

  lemma OwedSnoc(files: seq<Version>, saved: Saved, log: seq<Event>)
    ensures Owed(files + [Version(saved, |log|)], log) == Owed(files, log) + saved.Games()
  {
    assert (files + [Version(saved, |log|)])[..|files|] == files;
  }

  lemma {:induction false} OwedLater(files: seq<Version>, log: seq<Event>, longer: seq<Event>)
    requires log <= longer && Written(files, log)
    ensures Owed(files, longer) == Owed(files, log) - ClosedSince(longer, |log|)
  {
    hide ClosedSince;
    if files != [] {
      var n := |files| - 1;
      OwedLater(files[..n], log, longer);
      ClosedLater(log, longer, files[n].at);
    }
  }

  /** A game of any one version is owed, or has been closed since. */
  lemma {:induction false} OwedHas(files: seq<Version>, i: nat, log: seq<Event>)
    requires i < |files|
    ensures files[i].saved.Games() <= Owed(files, log) + ClosedSince(log, files[i].at)
  {
    if i < |files| - 1 {
      OwedHas(files[..|files| - 1], i, log);
    }
  }

  /** A round of one session, or the death of the process at any point of one: what a round does before it dies is what
      it does up to a call that fails. */
  datatype Step =
    | Poll(live: Option<Games>, now: nat, published: string -> bool, attempts: string -> Attempt,
           writes: string -> Outcome)
    | Crash
  {
    ghost predicate Named() {
      Poll? && live.Some? ==> forall uuid :: uuid in live.value ==> live.value[uuid].uuid == uuid
    }

    /** Nothing the round asks for fails. */
    ghost predicate Goes() {
      Poll? && live.Some? && (forall uuid :: published(uuid)) && forall uuid :: Smooth(attempts(uuid), writes(uuid))
    }
  }

  class Watcher {
    var tracked: Games
    var pending: Games
    var file: Saved
    ghost var log: seq<Event>
    /** Every version of the file, the one there is now last; a missing file reads as an empty one. */
    ghost var files: seq<Version>

    /** No game of any version of the file is lost, in memory or in the file, unless it was closed after that
        version. */
    ghost predicate Valid()
      reads this
    {
      && InOrder(log) && Timed(pending, log) && Timed(file.pending, log)
      && (forall uuid :: uuid in tracked ==> tracked[uuid].uuid == uuid)
      && (forall uuid :: uuid in file.tracked ==> file.tracked[uuid].uuid == uuid)
      && files != [] && file == files[|files| - 1].saved && Written(files, log)
      && Accounted(Owed(files, log), tracked.Keys, pending.Keys)
      && Accounted(Owed(files, log), file.tracked.Keys, file.pending.Keys)
    }

    constructor ()
      ensures Valid() && log == [] && files == [Version(Saved(map[], map[]), 0)]
    {
      tracked, pending, file, log, files := map[], map[], Saved(map[], map[]), [], [Version(Saved(map[], map[]), 0)];
      new;
      OwedSnoc([], file, []);
      assert [] + [Version(file, 0)] == files;
    }

    /** The process died at any point; a new one reads the file. */
    method Restart()
      requires Valid()
      modifies this`tracked, this`pending
      ensures Valid() && tracked == file.tracked && pending == file.pending
    {
      tracked, pending := file.tracked, file.pending;
    }

    /** Writes both queues through a rename, so the file is the old one or the new one. */
    method PersistState(write: Outcome) returns (ok: bool)
      requires Valid()
      modifies this`file, this`files
      ensures Valid()
      ensures files == if write.Landed() then old(files) + [Version(Saved(tracked, pending), |log|)] else old(files)
      ensures file == if write.Landed() then Saved(tracked, pending) else old(file)
      ensures ok <==> write.Answered()
    {
      if write.Landed() {
        file := Saved(tracked, pending);
        OwedSnoc(files, file, log);
        files := files + [Version(file, |log|)];
      }
      ok := write.Answered();
    }

    /** Files every tracked game that is no longer live as pending; one that already is keeps the time it was queued.
        Stops where an event cannot be published. */
    method Enqueue(live: Games, now: nat, published: string -> bool) returns (ok: bool)
      requires Valid()
      modifies this`pending, this`log
      ensures Valid() && old(log) <= log && ClosedSince(log, |old(log)|) == {}
      ensures Enqueued(tracked, old(pending), live, now, if ok then {} else tracked.Keys, pending)
      ensures forall uuid :: uuid in old(pending) ==> uuid in pending && pending[uuid] == old(pending)[uuid]
      ensures old(pending).Keys <= pending.Keys && (ok ==> tracked.Keys <= live.Keys + pending.Keys)
      ensures (forall uuid :: published(uuid)) ==> ok
    {
      hide Closed, ClosedSince, InOrder, Timed, Owed, Enqueued, Accounted;
      pending, ok, log := EnqueueGames(tracked, pending, live, now, published, log);
      EnqueuedKeeps(tracked, old(pending), live, now, if ok then {} else tracked.Keys, pending);
      TimedLonger(file.pending, old(log), log);
      OwedLater(files, old(log), log);
      assert Owed(files, log) == Owed(files, old(log));
      Grown(Owed(files, log), tracked.Keys, old(pending).Keys, pending.Keys);
    }

    /** One try at a pending game. It leaves the queue when it is ingested and that was reported, or when the try failed
        and it has waited too long; `save` says whether the queue has to be written. */
    method TryGame(uuid: string, now: nat, attempt: Attempt) returns (goOn: bool, save: bool)
      requires Valid() && uuid in pending
      modifies this`pending, this`log
      ensures Valid()
      ensures var since := old(pending)[uuid].queuedAt.value;
              if now < since + 120 then
                goOn && !save && pending == old(pending) && log == old(log)
              else
                && (goOn <==> attempt != EndsSession && attempt != Landed(false))
                && (uuid in pending <==> !(attempt == Landed(true) || (attempt.Fails() && now > since + 10800)))
                && pending == (if uuid in pending then old(pending) else old(pending) - {uuid})
                && (goOn && uuid !in pending ==> save)
                && log == old(log) + Notes(uuid, now, since, attempt)
      ensures old(log) <= log && (uuid !in pending ==> uuid in ClosedSince(log, |old(log)|))
    {
      var queuedAt := pending[uuid].queuedAt;
      if queuedAt.Some? && Monus(now, queuedAt.value) < SETTLE_SECS {
        return true, false;
      }
      NoteTry(uuid, now, attempt);
      hide Notes, ClosedSince, Valid;
      match attempt {
        case EndsSession =>
          return false, false;
        case Landed(reported) =>
          if !reported {
            return false, false;
          }
          Drop(uuid);
          return true, true;
        case _ =>
          if queuedAt.Some? && Monus(now, queuedAt.value) > GIVE_UP_SECS {
            Drop(uuid);
            return true, true;
          }
          return true, attempt == Unconverted;
      }
    }

    ghost method NoteTry(uuid: string, now: nat, attempt: Attempt)
      requires Valid() && uuid in pending && pending[uuid].queuedAt.Some?
      requires now >= pending[uuid].queuedAt.value + SETTLE_SECS
      modifies this`log
      ensures Valid() && log == old(log) + Notes(uuid, now, pending[uuid].queuedAt.value, attempt)
      ensures attempt.Landed? || (attempt.Fails() && now > pending[uuid].queuedAt.value + GIVE_UP_SECS) ==>
                uuid in ClosedSince(log, |old(log)|) && uuid !in Owed(files, log)
    {
      hide Notes, Closed, ClosedSince, InOrder, Timed, Owed;
      TryNotes(pending, file.pending, log, uuid, now, attempt);
      OwedLater(files, log, log + Notes(uuid, now, pending[uuid].queuedAt.value, attempt));
      log := log + Notes(uuid, now, pending[uuid].queuedAt.value, attempt);
    }

    method Drop(uuid: string)
      requires Valid() && uuid !in Owed(files, log)
      modifies this`pending
      ensures Valid() && pending == old(pending) - {uuid}
    {
      hide Owed, InOrder;
      pending := pending - {uuid};
    }

    /** One try, and the file written where the queue changed. */
    method TryAndSave(uuid: string, now: nat, attempt: Attempt, write: Outcome) returns (ok: bool)
      requires Valid() && file == Saved(tracked, pending) && uuid in pending
      modifies this`pending, this`log, this`file, this`files
      ensures Valid() && old(files) <= files
      ensures || pending == old(pending)
              || (pending == old(pending) - {uuid} && uuid in ClosedSince(log, |old(log)|))
      ensures ok ==> file == Saved(tracked, pending)
      ensures ok && uuid in pending ==>
                pending[uuid].queuedAt.Some? && now <= pending[uuid].queuedAt.value + 10800
      ensures old(log) <= log && TriedOrYoung(old(pending)[uuid], uuid, now, attempt, log)
      ensures attempt != EndsSession && attempt != Landed(false) && write.Answered() ==> ok
    {
      hide ClosedSince, Valid;
      HasTime();
      var goOn, save := TryGame(uuid, now, attempt);
      if !goOn {
        return false;
      }
      ok := true;
      if save {
        ok := PersistState(write);
      }
    }

    /** Tries the pending games one after another, writing the queues after each change, until something ends the
        session. A game that was pending is still pending or is closed, and one that went through a whole sweep and is
        still pending has not waited too long. */
    method TryAll(now: nat, attempts: string -> Attempt, writes: string -> Outcome) returns (ok: bool)
      requires Valid() && file == Saved(tracked, pending)
      modifies this`pending, this`log, this`file, this`files
      ensures Valid() && old(log) <= log && old(files) <= files
      ensures pending.Keys <= old(pending).Keys <= pending.Keys + ClosedSince(log, |old(log)|)
      ensures ok ==> file == Saved(tracked, pending)
      ensures ok ==> WithinWait(pending, {}, now)
      ensures ok ==> forall uuid :: uuid in old(pending) ==>
                TriedOrYoung(old(pending)[uuid], uuid, now, attempts(uuid), log)
      ensures (forall uuid :: Smooth(attempts(uuid), writes(uuid))) ==> ok
    {
      hide ClosedSince, Valid, TriedOrYoung;
      var todo := pending.Keys;
      while todo != {}
        invariant old(log) <= log && old(files) <= files
        invariant forall uuid :: uuid in old(pending) && uuid !in todo ==>
                    TriedOrYoung(old(pending)[uuid], uuid, now, attempts(uuid), log)
        invariant Valid() && file == Saved(tracked, pending)
        invariant todo <= pending.Keys <= old(pending).Keys <= pending.Keys + ClosedSince(log, |old(log)|)
        invariant forall uuid :: uuid in todo ==> pending[uuid] == old(pending)[uuid]
        invariant WithinWait(pending, todo, now)
        decreases |todo|
      {
        var uuid :| uuid in todo;
        todo := todo - {uuid};
        ghost var before := log;
        ok := TryAndSave(uuid, now, attempts(uuid), writes(uuid));
        ClosedLater(before, log, |old(log)|);
        if !ok {
          return;
        }
        forall u | u in old(pending) && u !in todo
          ensures TriedOrYoung(old(pending)[u], u, now, attempts(u), log)
        {
          if u != uuid {
            StaysTried(old(pending)[u], u, now, attempts(u), before, log);
          }
        }
      }
      return true;
    }

    lemma HasTime()
      requires Valid()
      ensures forall uuid :: uuid in pending ==> pending[uuid].queuedAt.Some?
    {
    }

    /** One round: the live lists, the games that ended, the tries. Whatever fails in it, a game that was tracked or
        pending still is, or is closed. After a round that goes through, the file holds exactly what is in memory. */
    method Round(live: Option<Games>, now: nat, published: string -> bool, attempts: string -> Attempt,
                 writes: string -> Outcome) returns (ok: bool)
      requires Valid()
      requires live.Some? ==> forall uuid :: uuid in live.value ==> live.value[uuid].uuid == uuid
      modifies this
      ensures Valid() && old(log) <= log && old(files) <= files
      ensures old(tracked).Keys + old(pending).Keys <= tracked.Keys + pending.Keys + ClosedSince(log, |old(log)|)
      ensures ok ==> live.Some? && tracked == live.value && file == Saved(tracked, pending)
      ensures ok ==> WithinWait(pending, {}, now)
      ensures ok ==> forall uuid :: uuid in old(pending) ==>
                TriedOrYoung(old(pending)[uuid], uuid, now, attempts(uuid), log)
      ensures live.Some? && (forall uuid :: published(uuid)) ==>
                ((forall uuid :: Smooth(attempts(uuid), writes(uuid))) ==> ok)
    {
      hide ClosedSince, Valid, InOrder, WithinWait, TriedOrYoung;
      if live.None? {
        return false;
      }
      assert Smooth(attempts(""), writes("")) ==> writes("").Answered();
      hide Smooth;
      ok := StartRound(live.value, now, published, writes(""));
      if ok {
        ghost var before := log;
        ok := TryAll(now, attempts, writes);
        ClosedLater(before, log, |old(log)|);
      }
    }

    /** The first half of a round: the games that ended are queued, the live ones tracked, and both written down. */
    method StartRound(live: Games, now: nat, published: string -> bool, write: Outcome) returns (ok: bool)
      requires Valid() && forall uuid :: uuid in live ==> live[uuid].uuid == uuid
      modifies this
      ensures Valid() && old(log) <= log && old(files) <= files
      ensures old(tracked).Keys + old(pending).Keys <= tracked.Keys + pending.Keys
      ensures forall uuid :: uuid in old(pending) ==> uuid in pending && pending[uuid] == old(pending)[uuid]
      ensures ok ==> tracked == live && file == Saved(tracked, pending)
      ensures (forall uuid :: published(uuid)) && write.Answered() ==> ok
    {
      hide ClosedSince, Valid, InOrder, Enqueued;
      ok := Enqueue(live, now, published);
      if ok {
        Track(live);
        ok := PersistState(write);
      }
    }

    /** Rounds, reconnects and crashes, in any order and number. Every game that any version of the file held, before or
        since, is tracked or pending, in memory and in the file a new process would read, unless the history has it
        closed after that version was written. */
    method Live(steps: seq<Step>) returns (oks: seq<bool>)
      requires Valid() && forall i :: 0 <= i < |steps| ==> steps[i].Named()
      modifies this
      ensures Valid() && old(log) <= log && old(files) <= files && |oks| == |steps|
      ensures forall i, uuid :: 0 <= i < |files| && uuid in files[i].saved.Games() ==>
                (uuid in tracked.Keys + pending.Keys && uuid in file.Games()) || uuid in ClosedSince(log, files[i].at)
      ensures forall i :: 0 <= i < |steps| && steps[i].Goes() ==> oks[i]
      ensures steps != [] && steps[|steps| - 1].Crash? ==> Saved(tracked, pending) == file
      ensures steps != [] && steps[|steps| - 1].Poll? && oks[|oks| - 1] ==>
                Some(tracked) == steps[|steps| - 1].live && Saved(tracked, pending) == file
    {
      hide Valid, ClosedSince, Step.Goes, Step.Named;
      oks := [];
      for i := 0 to |steps|
        invariant Valid() && old(log) <= log && old(files) <= files && |oks| == i
        invariant forall j :: 0 <= j < i && steps[j].Goes() ==> oks[j]
        invariant i > 0 && steps[i - 1].Crash? ==> Saved(tracked, pending) == file
        invariant i > 0 && steps[i - 1].Poll? && oks[i - 1] ==>
                    Some(tracked) == steps[i - 1].live && Saved(tracked, pending) == file
      {
        var ok := Follow(steps[i]);
        oks := oks + [ok];
      }
      NothingIsLost();
    }

    method Follow(step: Step) returns (ok: bool)
      requires Valid() && step.Named()
      modifies this
      ensures Valid() && old(log) <= log && old(files) <= files && (step.Goes() ==> ok)
      ensures step.Crash? ==> Saved(tracked, pending) == file
      ensures step.Poll? && ok ==> Some(tracked) == step.live && Saved(tracked, pending) == file
    {
      hide Valid, ClosedSince, InOrder, TriedOrYoung, WithinWait, Smooth;
      match step {
        case Crash =>
          Restart();
          ok := true;
        case Poll(live, now, published, attempts, writes) =>
          ok := Round(live, now, published, attempts, writes);
      }
    }

    lemma NothingIsLost()
      requires Valid()
      ensures forall i, uuid :: 0 <= i < |files| && uuid in files[i].saved.Games() ==>
                (uuid in tracked.Keys + pending.Keys && uuid in file.Games()) || uuid in ClosedSince(log, files[i].at)
    {
      forall i, uuid | 0 <= i < |files| && uuid in files[i].saved.Games()
        ensures (uuid in tracked.Keys + pending.Keys && uuid in file.Games()) || uuid in ClosedSince(log, files[i].at)
      {
        OneIsKept(i, uuid);
      }
    }

    lemma OneIsKept(i: nat, uuid: string)
      requires Valid() && i < |files| && uuid in files[i].saved.Games()
      ensures (uuid in tracked.Keys + pending.Keys && uuid in file.Games()) || uuid in ClosedSince(log, files[i].at)
    {
      hide ClosedSince, InOrder, Timed, Owed;
      OwedHas(files, i, log);
    }

    /** So a game of any version of the file that is in no queue was, after that version was written, ingested or given
        up: right after a failed try, more than three hours after it was queued. */
    lemma LeftTheQueuesFor(i: nat, uuid: string)
      requires Valid() && i < |files| && uuid in files[i].saved.Games() && uuid !in tracked && uuid !in pending
      ensures exists j :: files[i].at <= j < |log|
                          && (log[j] == Ingested(uuid) || (j > 0 && GivenUpAt(log, uuid, j)))
    {
      OneIsKept(i, uuid);
      assert files[i].at <= |log|;
      var since := log[files[i].at..];
      var event :| event in since && (event.Ingested? || event.GaveUp?) && event.uuid == uuid;
      var k :| 0 <= k < |since| && since[k] == event;
      var j := files[i].at + k;
      assert log[j] == event;
      if event.GaveUp? {
        hide Valid, Closed, InOrder, Owed, Timed;
        GivenUpLate(log, j);
        assert GivenUpAt(log, uuid, j);
      }
    }

    method Track(live: Games)
      requires Valid() && forall uuid :: uuid in live ==> live[uuid].uuid == uuid
      requires tracked.Keys <= live.Keys + pending.Keys
      modifies this`tracked
      ensures Valid() && tracked == live
    {
      tracked := live;
    }
  }

  /** What one try adds to the history. */
  ghost function Notes(uuid: string, now: nat, since: nat, attempt: Attempt): seq<Event>
  {
    [Attempted(uuid, now, Some(since), attempt)]
    + if attempt.Landed? then [Ingested(uuid)]
      else if attempt.Fails() && now > since + GIVE_UP_SECS then [GaveUp(uuid, now, since)] else []
  }

  lemma TryNotes(pending: Games, stored: Games, log: seq<Event>, uuid: string, now: nat, attempt: Attempt)
    requires InOrder(log) && Timed(pending, log) && Timed(stored, log) && uuid in pending
    requires now >= pending[uuid].queuedAt.value + SETTLE_SECS
    ensures var since := pending[uuid].queuedAt.value;
            var after := log + Notes(uuid, now, since, attempt);
            && InOrder(after) && Timed(pending, after) && Timed(pending - {uuid}, after) && Timed(stored, after)
            && (attempt.Landed? || (attempt.Fails() && now > since + GIVE_UP_SECS) ==>
                  uuid in ClosedSince(after, |log|))
  {
    hide ClosedSince, InOrder;
    var since := pending[uuid].queuedAt.value;
    var first := Attempted(uuid, now, Some(since), attempt);
    var notes := Notes(uuid, now, since, attempt);
    var tried := log + [first];
    InOrderSnoc(log, first);
    if |notes| > 1 {
      assert log + notes == tried + [notes[1]];
      assert Follows(tried, notes[1]);
      InOrderSnoc(tried, notes[1]);
      NotesClose(log, uuid, now, since, attempt);
    } else {
      assert notes == [first];
    }
    TimedLonger(pending, log, log + notes);
    TimedLonger(stored, log, log + notes);
  }

  lemma NotesClose(log: seq<Event>, uuid: string, now: nat, since: nat, attempt: Attempt)
    requires |Notes(uuid, now, since, attempt)| > 1
    ensures uuid in ClosedSince(log + Notes(uuid, now, since, attempt), |log|)
  {
    var notes := Notes(uuid, now, since, attempt);
    assert (log + notes)[|log|..] == notes;
    assert notes[1] in notes;
  }

  /** Subtraction that stops at zero. */
  function Monus(a: nat, b: nat): nat
  {
    if a < b then 0 else a - b
  }
}
