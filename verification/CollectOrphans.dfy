/** Deleting the pack objects nothing points at. `src/gc.rs`. */
module CollectOrphans {
  import opened Prelude
  import Listing
  import opened Pipeline
  import opened PipelineSafety
  import opened PipelineInvariant
  import opened PipelineGc
  import opened Scenarios

  /** The listed keys that may go: nothing at all when the index names nothing. */
  function Orphans(listed: seq<Listing.Entry>, referenced: set<string>, now: int, grace: nat): seq<string>
  {
    if listed == [] then []
    else
      var last := listed[|listed| - 1];
      Orphans(listed[..|listed| - 1], referenced, now, grace)
      + if IsOrphan(last.key, last.modified, referenced, now, grace) then [last.key] else []
  }

  /** Exactly the listed pack objects that no row names and that are old enough; an object stamped in the future is not,
      and neither is anything when the index is empty. */
  lemma {:induction false} OrphansExact(listed: seq<Listing.Entry>, referenced: set<string>, now: int, grace: nat,
                                        key: string)
    ensures key in Orphans(listed, referenced, now, grace) <==>
              && referenced != {} && |key| >= 7 && key[|key| - 7..] == ".mjpack" && key !in referenced
              && exists entry :: entry in listed && entry.key == key && entry.modified + grace <= now
  {
    if listed != [] {
      var n := |listed| - 1;
      OrphansExact(listed[..n], referenced, now, grace, key);
      assert listed == listed[..n] + [listed[n]];
      assert listed[n] in listed;
      assert forall entry :: entry in listed <==> entry in listed[..n] || entry == listed[n];
    }
  }

  lemma {:induction false} NoneOfNothing(listed: seq<Listing.Entry>, now: int, grace: nat)
    ensures Orphans(listed, {}, now, grace) == []
  {
    if listed != [] {
      NoneOfNothing(listed[..|listed| - 1], now, grace);
    }
  }

  /** How many deletes are answered before the first that is not. */
  function LeadingAnswered(orphans: seq<string>, deletes: string -> Outcome): (n: nat)
    ensures n <= |orphans| && (forall i :: 0 <= i < n ==> deletes(orphans[i]).Answered())
    ensures n < |orphans| ==> !deletes(orphans[n]).Answered()
  {
    if orphans == [] || !deletes(orphans[0]).Answered() then 0 else 1 + LeadingAnswered(orphans[1..], deletes)
  }

  /** What those deletes take away: all that were answered, and the one after them when only its reply was lost. */
  function Taken(orphans: seq<string>, deletes: string -> Outcome): seq<string>
  {
    var n := LeadingAnswered(orphans, deletes);
    if n < |orphans| && deletes(orphans[n]).Landed() then orphans[..n + 1] else orphans[..n]
  }

  function KeysOf(keys: seq<string>): set<string>
  {
    set key | key in keys
  }

  lemma AnsweredSoFar(orphans: seq<string>, deletes: string -> Outcome, i: nat)
    requires i <= |orphans| && forall j :: 0 <= j < i ==> deletes(orphans[j]).Answered()
    ensures LeadingAnswered(orphans, deletes) >= i
    ensures i < |orphans| && !deletes(orphans[i]).Answered() ==> LeadingAnswered(orphans, deletes) == i
  {
    assert LeadingAnswered(orphans, deletes) > i ==> deletes(orphans[i]).Answered();
  }

  lemma TakenHas(orphans: seq<string>, deletes: string -> Outcome, key: string)
    requires key in Taken(orphans, deletes)
    ensures key in orphans
  {
    var taken := Taken(orphans, deletes);
    var i :| 0 <= i < |taken| && taken[i] == key;
    assert orphans[i] == key;
  }

  class Bucket {
    /** The keys of the objects that are there. */
    var keys: set<string>

    constructor (keys: set<string>)
      ensures this.keys == keys
    {
      this.keys := keys;
    }

    /** Deletes one orphan after another and stops where a delete fails. Deleting a key that is gone succeeds. */
    method DeleteAll(orphans: seq<string>, deletes: string -> Outcome) returns (deleted: nat, ok: bool)
      modifies this
      ensures keys == old(keys) - KeysOf(Taken(orphans, deletes))
      ensures deleted == LeadingAnswered(orphans, deletes) && (ok <==> deleted == |orphans|)
    {
      deleted := 0;
      for i := 0 to |orphans|
        invariant deleted == i && keys == old(keys) - KeysOf(orphans[..i])
        invariant forall j :: 0 <= j < i ==> deletes(orphans[j]).Answered()
      {
        var key := orphans[i];
        AnsweredSoFar(orphans, deletes, i);
        assert orphans[..i + 1] == orphans[..i] + [key];
        assert KeysOf(orphans[..i + 1]) == KeysOf(orphans[..i]) + {key};
        if deletes(key).Landed() {
          keys := keys - {key};
        }
        if !deletes(key).Answered() {
          return deleted, false;
        }
        deleted := deleted + 1;
      }
      AnsweredSoFar(orphans, deletes, |orphans|);
      return deleted, true;
    }

    /** One run of the collector, over what the index and the listing said. It deletes nothing unless both answered and
        the index named something. Then what is gone is exactly the orphans up to the first delete that was not
        answered, and that one too if only its reply was lost; so a run that fails leaves the bucket as it was exactly
        when none of those was there. */
    method Collect(indexed: Option<set<string>>, listed: Option<seq<Listing.Entry>>, now: int, grace: nat,
                   deletes: string -> Outcome)
      returns (result: Result<nat, ()>)
      modifies this
      ensures indexed == Some({}) ==> result == Success(0)
      ensures indexed.None? || listed.None? || indexed.value == {} ==>
                keys == old(keys) && (result.Success? <==> indexed == Some({}))
      ensures indexed.Some? && listed.Some? ==>
                var orphans := Orphans(listed.value, indexed.value, now, grace);
                && keys == old(keys) - KeysOf(Taken(orphans, deletes))
                && result == (if LeadingAnswered(orphans, deletes) == |orphans| then Success(|orphans|)
                              else Failure(()))
                && (keys == old(keys) <==> forall key :: key in Taken(orphans, deletes) ==> key !in old(keys))
      ensures forall key :: key in old(keys) - keys ==>
                && indexed.Some? && listed.Some? && key !in indexed.value && EndsWith(key, PACK_SUFFIX)
                && exists entry :: entry in listed.value && entry.key == key && entry.modified + grace <= now
    {
      if indexed.None? {
        return Failure(());
      }
      if indexed.value == {} {
        if listed.Some? {
          NoneOfNothing(listed.value, now, grace);
          assert KeysOf([]) == {};
        }
        return Success(0);
      }
      if listed.None? {
        return Failure(());
      }
      var orphans := Orphans(listed.value, indexed.value, now, grace);
      forall key | key in Taken(orphans, deletes)
        ensures EndsWith(key, PACK_SUFFIX) && key !in indexed.value
        ensures exists entry :: entry in listed.value && entry.key == key && entry.modified + grace <= now
      {
        TakenHas(orphans, deletes, key);
        OrphansExact(listed.value, indexed.value, now, grace, key);
      }
      hide Orphans, EndsWith, Taken, LeadingAnswered;
      var deleted, ok := DeleteAll(orphans, deletes);
      if !ok {
        return Failure(());
      }
      return Success(deleted);
    }
  }

  /** The second of two deletes is refused: the run fails, and the first orphan is gone. */
  method FailedRunDeletes(first: string, second: string) returns (bucket: Bucket, result: Result<nat, ()>)
    requires first != second && EndsWith(first, PACK_SUFFIX) && EndsWith(second, PACK_SUFFIX)
    requires first != "" && second != ""
    ensures fresh(bucket) && result.Failure? && bucket.keys == {second}
  {
    var listed := [Listing.Entry(first, 1, 0), Listing.Entry(second, 1, 0)];
    var deletes := (key: string) => if key == first then Done else Failed;
    assert listed[..1] == [listed[0]] && listed[..1][..0] == [];
    assert Orphans(listed[..1], {""}, 0, 0) == [] + [first];
    assert Orphans(listed, {""}, 0, 0) == [first] + [second];
    assert [first, second][1..] == [second];
    assert LeadingAnswered([first, second], deletes) == 1 && Taken([first, second], deletes) == [first];
    hide Orphans, LeadingAnswered, Taken, EndsWith;
    bucket := new Bucket({first, second});
    result := bucket.Collect(Some({""}), Some(listed), 0, 0, deletes);
  }

  // ------------------------------------------------------------------------------ as actions of the whole system

  predicate Distinct(keys: seq<string>)
  {
    forall i, j :: 0 <= i < j < |keys| ==> keys[i] != keys[j]
  }

  function ListedKeys(listed: seq<Listing.Entry>): (keys: seq<string>)
    ensures |keys| == |listed| && forall i :: 0 <= i < |listed| ==> keys[i] == listed[i].key
  {
    seq(|listed|, i requires 0 <= i < |listed| => listed[i].key)
  }

  lemma {:induction false} OrphansDistinct(listed: seq<Listing.Entry>, referenced: set<string>, now: int, grace: nat)
    requires Distinct(ListedKeys(listed))
    ensures Distinct(Orphans(listed, referenced, now, grace))
    ensures forall key :: key in Orphans(listed, referenced, now, grace) ==> key in ListedKeys(listed)
  {
    if listed != [] {
      hide IsOrphan;
      var n := |listed| - 1;
      assert ListedKeys(listed) == ListedKeys(listed[..n]) + [listed[n].key];
      assert Distinct(ListedKeys(listed[..n])) by {
        assert forall i :: 0 <= i < n ==> ListedKeys(listed[..n])[i] == ListedKeys(listed)[i];
      }
      OrphansDistinct(listed[..n], referenced, now, grace);
      var before, all := Orphans(listed[..n], referenced, now, grace), Orphans(listed, referenced, now, grace);
      assert listed[n].key !in before by {
        assert forall i :: 0 <= i < n ==> ListedKeys(listed)[i] != ListedKeys(listed)[n];
      }
      assert all == before || all == before + [listed[n].key];
      assert listed[n].key == ListedKeys(listed)[n];
    }
  }

  // ---------------------------------------------------------------------------------- what others do in the meantime

  predicate IsOthers(a: Action)
  {
    !(a.QueryKeys? || a.ListPage? || a.Decide? || a.Delete? || a.Abort?)
  }

  /** Where what producers, workers and the clock do leads, if each of it is possible. */
  ghost function Meanwhile(env: Env, s: State, block: seq<Action>): (end: Option<State>)
    requires Shaped(env, s)
    ensures end.Some? ==> Shaped(env, end.value)
  {
    if block == [] then Some(s)
    else
      var n := |block| - 1;
      match Meanwhile(env, s, block[..n])
      case None => None
      case Some(t) => if IsOthers(block[n]) && Legal(env, t, block[n]) then Some(Apply(env, t, block[n])) else None
  }

  /** Two states that differ in how far the collector is, at most. */
  ghost predicate Alike(s: State, t: State)
  {
    s.sh == t.sh && s.workers == t.workers
  }

  lemma OthersDoNotCare(env: Env, s: State, t: State, a: Action)
    requires Shaped(env, s) && Shaped(env, t) && Alike(s, t) && IsOthers(a)
    ensures Legal(env, s, a) <==> Legal(env, t, a)
    ensures Legal(env, s, a) ==> Alike(Apply(env, s, a), Apply(env, t, a)) && Apply(env, t, a).gc == t.gc
  {
    hide WorkerApply, WorkerLegal, IdIsFresh, PartitionFor;
  }

  /** What others do is a part of a run, however far the collector is. */
  lemma {:induction false} OthersRun(env: Env, actions: seq<Action>, s: State, block: seq<Action>)
    requires env.partitions > 0 && Shaped(env, s)
    requires Run(env, actions).Some? && Alike(s, Run(env, actions).value) && Meanwhile(env, s, block).Some?
    ensures var longer := Run(env, actions + block);
            && longer.Some? && longer.value.gc == Run(env, actions).value.gc
            && Alike(Meanwhile(env, s, block).value, longer.value)
  {
    hide Run, Legal, Apply;
    if block == [] {
      assert actions + block == actions;
    } else {
      var n := |block| - 1;
      OthersRun(env, actions, s, block[..n]);
      var t, r := Meanwhile(env, s, block[..n]).value, Run(env, actions + block[..n]).value;
      OthersDoNotCare(env, t, r, block[n]);
      Extend(env, actions + block[..n], block[n]);
      assert actions + block[..n] + [block[n]] == actions + block;
    }
  }

  /** Each object of a page of the listing is there, with its stamp. */
  ghost predicate Shows(s: State, page: seq<Listing.Entry>)
  {
    forall i :: 0 <= i < |page| ==> page[i].key in s.sh.bucket && s.sh.bucket[page[i].key].modified == page[i].modified
  }

  function Without(s: State, key: string): State
  {
    s.(sh := s.sh.(bucket := s.sh.bucket - {key}))
  }

  /** One run of the collector's code while others act: the query, the pages of the listing, the verdict on all of them
      at one reading of the clock, and the deletes that land. Where the listing fails part of the way there are fewer
      pages and no verdict. `others(i)` is what others do after the code's `i`th call. */
  datatype Collection = Collection(referenced: set<string>, pages: seq<seq<Listing.Entry>>, whole: bool,
                                   deletes: string -> Outcome, others: nat -> seq<Action>)
  {
    /** After the query and the first `n` pages. */
    ghost function Listed(env: Env, s: State, n: nat): (end: Option<State>)
      requires Shaped(env, s) && n <= |pages|
      ensures end.Some? ==> Shaped(env, end.value)
    {
      if n == 0 then Meanwhile(env, s, others(0))
      else
        match Listed(env, s, n - 1)
        case None => None
        case Some(t) => if Shows(t, pages[n - 1]) then Meanwhile(env, t, others(n)) else None
    }

    /** What the code takes away, going by the state the verdict is given in. */
    ghost function Gone(env: Env, judged: State): seq<string>
    {
      if whole then Taken(Orphans(Flatten(pages), referenced, judged.sh.now, env.grace), deletes) else []
    }

    /** After the first `n` deletes that land. */
    ghost function Emptied(env: Env, s: State, keys: seq<string>): (end: Option<State>)
      requires Shaped(env, s)
      ensures end.Some? ==> Shaped(env, end.value)
    {
      if keys == [] then Meanwhile(env, s, others(|pages| + 1))
      else
        var n := |keys| - 1;
        match Emptied(env, s, keys[..n])
        case None => None
        case Some(t) => Meanwhile(env, Without(t, keys[n]), others(|pages| + 2 + n))
    }

    ghost function End(env: Env, s: State): Option<State>
      requires Shaped(env, s)
    {
      match Listed(env, s, |pages|)
      case None => None
      case Some(judged) => Emptied(env, judged, Gone(env, judged))
    }

    /** What the index may answer the query with. */
    ghost predicate MayStart(s: State)
    {
      referenced != {} && FinalKeys(s.sh.index) <= referenced <= AllKeys(s.sh.index)
    }

    /** A listing shows no key twice, and one that comes to its end does so within the time allowed for it. */
    ghost predicate Orderly(env: Env, s: State)
      requires Shaped(env, s)
    {
      && Distinct(ListedKeys(Flatten(pages)))
      && (whole && Listed(env, s, |pages|).Some? ==>
            Listed(env, s, |pages|).value.sh.now - s.sh.now <= env.queryGap)
    }
  }

  // ------------------------------------------------------------------------------------------------- is part of a run

  /** The stamps the collector keeps are those of the listing so far. */
  ghost predicate Records(listed: map<string, int>, entries: seq<Listing.Entry>)
  {
    && listed.Keys == KeysOf(ListedKeys(entries))
    && forall i :: 0 <= i < |entries| ==> listed[ListedKeys(entries)[i]] == entries[i].modified
  }

  lemma PageRecorded(s: State, listed: map<string, int>, entries: seq<Listing.Entry>, page: seq<Listing.Entry>)
    requires Records(listed, entries) && Shows(s, page) && Distinct(ListedKeys(entries + page))
    ensures KeysOf(ListedKeys(page)) <= s.sh.bucket.Keys
    ensures Records(listed + map k | k in KeysOf(ListedKeys(page)) :: s.sh.bucket[k].modified, entries + page)
  {
    var all := entries + page;
    assert ListedKeys(all) == ListedKeys(entries) + ListedKeys(page);
    forall i | 0 <= i < |page|
      ensures ListedKeys(page)[i] in s.sh.bucket
    {
    }
    forall i, j | 0 <= i < |entries| && 0 <= j < |page|
      ensures ListedKeys(entries)[i] != ListedKeys(page)[j]
    {
      assert ListedKeys(all)[i] != ListedKeys(all)[|entries| + j];
    }
  }

  lemma TodoIsOrphans(listed: map<string, int>, entries: seq<Listing.Entry>, referenced: set<string>, now: int,
                      grace: nat)
    requires Records(listed, entries)
    ensures (set k | k in listed && IsOrphan(k, listed[k], referenced, now, grace))
         == KeysOf(Orphans(entries, referenced, now, grace))
  {
    forall key
      ensures key in Orphans(entries, referenced, now, grace) <==>
                key in listed && IsOrphan(key, listed[key], referenced, now, grace)
    {
      OrphansExact(entries, referenced, now, grace, key);
      if key in listed {
        assert key in ListedKeys(entries);
      }
    }
  }

  lemma {:induction false} ListingIsRun(env: Env, actions: seq<Action>, c: Collection, s: State, n: nat)
    returns (longer: seq<Action>)
    requires env.partitions > 0 && Run(env, actions).Some? && Run(env, actions).value == s && s.gc == Idle
    requires c.MayStart(s) && n <= |c.pages| && c.Listed(env, s, n).Some?
    requires Distinct(ListedKeys(Flatten(c.pages[..n])))
    ensures actions <= longer
    ensures Run(env, longer).Some? && Alike(c.Listed(env, s, n).value, Run(env, longer).value)
    ensures var gc := Run(env, longer).value.gc;
            && gc.Listing? && gc.referenced == c.referenced && gc.at == s.sh.now
            && Records(gc.listed, Flatten(c.pages[..n]))
  {
    hide Run, FinalKeys, AllKeys, Meanwhile;
    if n == 0 {
      Extend(env, actions, QueryKeys(c.referenced));
      longer := actions + [QueryKeys(c.referenced)];
      OthersRun(env, longer, s, c.others(0));
      longer := longer + c.others(0);
    } else {
      var before, page := Flatten(c.pages[..n - 1]), c.pages[n - 1];
      assert c.pages[..n] == c.pages[..n - 1] + [page];
      FlattenSnoc(c.pages[..n - 1], page);
      FirstDistinct(before, page);
      longer := ListingIsRun(env, actions, c, s, n - 1);
      var t := Run(env, longer).value;
      PageRecorded(t, t.gc.listed, before, page);
      Extend(env, longer, ListPage(KeysOf(ListedKeys(page))));
      longer := longer + [ListPage(KeysOf(ListedKeys(page)))];
      OthersRun(env, longer, c.Listed(env, s, n - 1).value, c.others(n));
      longer := longer + c.others(n);
    }
  }

  lemma FirstDistinct(entries: seq<Listing.Entry>, page: seq<Listing.Entry>)
    requires Distinct(ListedKeys(entries + page))
    ensures Distinct(ListedKeys(entries))
  {
    assert ListedKeys(entries + page) == ListedKeys(entries) + ListedKeys(page);
    assert forall i :: 0 <= i < |entries| ==> ListedKeys(entries)[i] == ListedKeys(entries + page)[i];
  }

  /** Deletes of keys still to be deleted, one after another, others acting in between. */
  lemma {:induction false} DeletesAreRun(env: Env, actions: seq<Action>, c: Collection, s: State, keys: seq<string>)
    returns (longer: seq<Action>)
    requires env.partitions > 0 && Run(env, actions).Some? && Shaped(env, s) && Alike(s, Run(env, actions).value)
    requires c.Emptied(env, s, keys).Some? && Distinct(keys)
    requires var gc := Run(env, actions).value.gc; gc.Deleting? && KeysOf(keys) <= gc.todo
    ensures actions <= longer
    ensures Run(env, longer).Some? && Alike(c.Emptied(env, s, keys).value, Run(env, longer).value)
    ensures Run(env, longer).value.gc == Deleting(Run(env, actions).value.gc.todo - KeysOf(keys))
  {
    hide Run, Meanwhile;
    if keys == [] {
      OthersRun(env, actions, s, c.others(|c.pages| + 1));
      longer := actions + c.others(|c.pages| + 1);
      assert KeysOf([]) == {};
    } else {
      var n := |keys| - 1;
      assert keys == keys[..n] + [keys[n]];
      assert KeysOf(keys) == KeysOf(keys[..n]) + {keys[n]};
      assert keys[n] !in KeysOf(keys[..n]);
      longer := DeletesAreRun(env, actions, c, s, keys[..n]);
      Extend(env, longer, Delete(keys[n]));
      longer := longer + [Delete(keys[n])];
      OthersRun(env, longer, Without(c.Emptied(env, s, keys[..n]).value, keys[n]), c.others(|c.pages| + 2 + n));
      longer := longer + c.others(|c.pages| + 2 + n);
    }
  }

  /** What a run of the collector's code does to the bucket, while producers, workers and the clock go on between any
      two of its calls, is what the collector of the whole system does among them: it asks for the keys, lists, decides,
      and deletes what it took away. So what holds of every run of the system holds of it. */
  lemma CollectIsRun(env: Env, actions: seq<Action>, c: Collection) returns (longer: seq<Action>)
    requires env.partitions > 0 && Run(env, actions).Some? && Run(env, actions).value.gc == Idle
    requires var s := Run(env, actions).value; c.MayStart(s) && c.End(env, s).Some? && c.Orderly(env, s)
    ensures actions <= longer && Run(env, longer).Some? && Run(env, longer).value.gc == Idle
    ensures Alike(c.End(env, Run(env, actions).value).value, Run(env, longer).value)
  {
    hide Run, Orphans, IsOrphan, LeadingAnswered, Meanwhile;
    var s := Run(env, actions).value;
    var n := |c.pages|;
    assert c.pages[..n] == c.pages;
    longer := ListingIsRun(env, actions, c, s, n);
    var judged, listing := c.Listed(env, s, n).value, Run(env, longer).value;
    if c.whole {
      Extend(env, longer, Decide);
      longer := longer + [Decide];
      TodoIsOrphans(listing.gc.listed, Flatten(c.pages), c.referenced, judged.sh.now, env.grace);
      OrphansDistinct(Flatten(c.pages), c.referenced, judged.sh.now, env.grace);
      GoneFromOrphans(Orphans(Flatten(c.pages), c.referenced, judged.sh.now, env.grace), c.deletes);
      longer := DeletesAreRun(env, longer, c, judged, c.Gone(env, judged));
    } else {
      OthersRun(env, longer, judged, c.others(n + 1));
      longer := longer + c.others(n + 1);
    }
    Extend(env, longer, Abort);
    longer := longer + [Abort];
  }

  /** When the grace period covers the delays, every row the view shows after such a run reads back its message from an
      object that the code has left in the bucket. */
  lemma CollectKeepsShown(env: Env, actions: seq<Action>, c: Collection, i: nat)
    requires GoodEnv(env) && GraceCovers(env) && Run(env, actions).Some? && Run(env, actions).value.gc == Idle
    requires var s := Run(env, actions).value; c.MayStart(s) && c.End(env, s).Some? && c.Orderly(env, s)
    requires var sh := c.End(env, Run(env, actions).value).value.sh; i < |sh.index| && IsFinal(sh.index, i)
    ensures var sh := c.End(env, Run(env, actions).value).value.sh;
            var st := sh.index[i];
            && st.row.storage.packKey in sh.bucket
            && st.part < |sh.log| && st.offset < |sh.log[st.part]| && sh.log[st.part][st.offset].Readable?
            && ReadsBack(env, sh.bucket[st.row.storage.packKey].bytes, st.row, sh.log[st.part][st.offset].message)
  {
    hide Run, IsFinal, ReadsBack, GraceCovers;
    var longer := CollectIsRun(env, actions, c);
    ShownRowsReadBack(env, longer, i);
  }

  lemma GoneFromOrphans(orphans: seq<string>, deletes: string -> Outcome)
    requires Distinct(orphans)
    ensures Distinct(Taken(orphans, deletes)) && KeysOf(Taken(orphans, deletes)) <= KeysOf(orphans)
  {
    var taken := Taken(orphans, deletes);
    assert taken == orphans[..|taken|];
    forall key | key in taken
      ensures key in orphans
    {
      TakenHas(orphans, deletes, key);
    }
  }
}
