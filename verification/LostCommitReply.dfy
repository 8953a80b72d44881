/** What a lost commit reply costs. The worker goes on from the offset it last knew to be committed, replays part of
    what is already durable, and a crash between that insert and its commit leaves an original on top of the
    re-index that replaced it, for good. */
module LostCommitReply {
  import opened Prelude
  import opened PackFormat
  import opened Pipeline
  import opened PipelineSafety
  import opened PipelineInvariant
  import opened PipelineConvergence
  import opened Scenarios

  const THIRD_KEY: string := "3.mjpack"

  /** Both are replayed and committed, and the reply of that commit is lost. */
  lemma SecondPass(env: Env, id: RecordId, raw: Bytes) returns (actions: seq<Action>)
    requires GoodEnv(env) && Usable(env, raw) && env.commitReplyLost
    ensures Run(env, actions).Some?
    ensures var s, p := Run(env, actions).value, PartitionFor(env, id);
            && s.sh.log[p] == [Readable(Original(id, raw)), Readable(Reindexed(id, raw))] && s.sh.durable[p] == 2
            && Empty(s.workers[p]) && s.workers[p].cursor == 0
            && s.sh.keys == {FIRST_KEY, SECOND_KEY} && AllRowsOf(s.sh.index, Original(id, raw))
  {
    hide AppendAll, PartitionFor, Run;
    var p := PartitionFor(env, id);
    actions := FirstPass(env, id, raw);
    RowsOfTwo(env, SECOND_KEY, p, 0, Original(id, raw), Reindexed(id, raw));
    var s := Run(env, actions).value;
    assert s.sh.log[p][0..2] == s.sh.log[p];
    actions := PassRuns(env, actions, p, 2, SECOND_KEY,
                        AppendAll(env, SECOND_KEY, p, 0, EMPTY_BATCH, s.sh.log[p]).rows);
    Extend(env, actions, Work(p, InsertGames(Done)));
    actions := actions + [Work(p, InsertGames(Done))];
    Extend(env, actions, Work(p, Commit(ReplyLost)));
    actions := actions + [Work(p, Commit(ReplyLost))];
  }

  /** The original alone is replayed, and the worker crashes before it commits again. */
  lemma LostReplyHidesReindex(env: Env, id: RecordId, raw: Bytes) returns (actions: seq<Action>)
    requires GoodEnv(env) && Usable(env, raw) && env.commitReplyLost
    ensures Run(env, actions).Some? && !Converged(env, Run(env, actions).value, id)
    // The worker is back at the end of the log with nothing in hand: nothing is left that would put it right.
    ensures var s, p := Run(env, actions).value, PartitionFor(env, id);
            Empty(s.workers[p]) && s.workers[p].cursor == s.sh.durable[p] == |s.sh.log[p]|
  {
    hide AppendAll, PartitionFor, Run, Converged;
    var p := PartitionFor(env, id);
    var original := Original(id, raw);
    actions := SecondPass(env, id, raw);
    RowsOfOne(env, THIRD_KEY, p, 0, original);
    assert Run(env, actions).value.sh.log[p][0..1] == [Readable(original)];
    actions := PassRuns(env, actions, p, 1, THIRD_KEY, [Stored(RowFor(env, THIRD_KEY, |MAGIC|, original), p, 0)]);
    Extend(env, actions, Work(p, Crash));
    actions := actions + [Work(p, Crash)];
    OriginalOnTop(env, Run(env, actions).value, id, original, Reindexed(id, raw));
  }

  lemma OriginalOnTop(env: Env, s: State, id: RecordId, original: Message, reindexed: Message)
    requires Shaped(env, s)
    requires original.id == id && original.playedAt == Some(0) && reindexed == original.(playedAt := Some(1))
    requires env.parse(original.raw).Some? && Fits(env.codec, original.raw)
    requires var p := PartitionFor(env, id);
             s.sh.log[p] == [Readable(original), Readable(reindexed)] && s.sh.durable[p] == 2
    requires var n := |s.sh.index|;
             && n > 0 && s.sh.index[n - 1].row.metadata.playedAt == Some(0)
             && (forall i :: 0 <= i < n ==> SortKey(s.sh.index[i].row) == SortKey(s.sh.index[n - 1].row))
    ensures !Converged(env, s, id)
  {
    hide PartitionFor, ReadsBack;
    var p, n := PartitionFor(env, id), |s.sh.index|;
    assert IsFor(env, s.sh.log[p][1], id);
    assert LastMessage(env, s.sh.log[p], id) == Some(1);
    forall i | 0 <= i < n && IsFinal(s.sh.index, i)
      ensures !RowMatches(env, s.sh.index[i].row, reindexed)
    {
      assert i == n - 1;
    }
  }

  /** Replays converge in every run exactly when the offset store never applies a commit and loses the reply. */
  lemma ConvergesIffRepliesArrive(env: Env, raw: Bytes)
    requires GoodEnv(env)
    requires Usable(env, raw)
    ensures (forall actions: seq<Action>, id: RecordId ::
               Run(env, actions).Some? ==> Converged(env, Run(env, actions).value, id))
            <==> !env.commitReplyLost
  {
    if env.commitReplyLost {
      var actions := LostReplyHidesReindex(env, NIL_ID, raw);
    } else {
      forall actions: seq<Action>, id: RecordId | Run(env, actions).Some?
        ensures Converged(env, Run(env, actions).value, id)
      {
        ConvergesWhenRepliesArrive(env, actions, id);
      }
    }
  }
}
