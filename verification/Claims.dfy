/** Idempotency claims: any number of requests claim keys, produce the records they claimed, and release the claims of
    what they could not produce, while expired claims are pruned. `src/indexer.rs`, `src/catalog.rs`. */
module Claims {
  import opened Prelude

  // ------------------------------------------------------------------------------------------------------- keys

  /** Where a key came from: the game's own uuid, or the caller. */
  datatype Scope = Game | Caller {
    predicate ContentMustMatch() { this == Caller }
    predicate Expires() { this == Caller }
  }

  /** The key of a game, and that of a record which has no identity of its own. The NUL separates. */
  function GameScopeKey(uuid: string): string
  {
    "majsoul-watch" + ['\0'] + uuid
  }

  function CallerKey(source: string, key: string): string
  {
    source + ['\0'] + key
  }

  /** Which key a record is claimed under. */
  function KeyFor(uuid: Option<string>, source: string, key: string): (string, Scope)
  {
    match uuid
    case Some(u) => (GameScopeKey(u), Game)
    case None => (CallerKey(source, key), Caller)
  }

  lemma GameKeysDiffer(u: string, v: string)
    requires GameScopeKey(u) == GameScopeKey(v)
    ensures u == v
  {
    var prefix := "majsoul-watch" + ['\0'];
    assert (prefix + u)[|prefix|..] == u && (prefix + v)[|prefix|..] == v;
  }

  /** Where a source has no NUL in it, a caller's key says which source and which key it was made of. */
  lemma CallerKeysDiffer(source: string, key: string, other: string, otherKey: string)
    requires '\0' !in source && '\0' !in other
    ensures CallerKey(source, key) == CallerKey(other, otherKey) <==> source == other && key == otherKey
  {
    SplitAtNul(source, key);
    SplitAtNul(other, otherKey);
  }

  /** A caller's key is a game's only from the live collector's own source, for a key that is the game's uuid. */
  lemma CallerKeyIsNoGame(source: string, key: string, uuid: string)
    requires '\0' !in source
    ensures CallerKey(source, key) == GameScopeKey(uuid) <==> source == "majsoul-watch" && key == uuid
  {
    SplitAtNul(source, key);
    SplitAtNul("majsoul-watch", uuid);
  }

  /** The first NUL of a caller's key is the one that separates. */
  lemma SplitAtNul(source: string, key: string)
    requires '\0' !in source
    ensures var whole := CallerKey(source, key);
            && |source| < |whole| && whole[|source|] == '\0' && whole[..|source|] == source
            && whole[|source| + 1..] == key && forall i :: 0 <= i < |whole| && whole[i] == '\0' ==> i >= |source|
  {
    var whole := CallerKey(source, key);
    forall i | 0 <= i < |source|
      ensures whole[i] != '\0'
    {
      assert whole[i] == source[i] && source[i] in source;
    }
  }

  /** A game's claim promises nothing about bytes and never expires; a caller's key does both. */
  lemma WhatKeysPromise(uuid: Option<string>, source: string, key: string)
    ensures var (text, scope) := KeyFor(uuid, source, key);
            && (uuid.Some? ==> text == "majsoul-watch" + "\0" + uuid.value)
            && (uuid.None? ==> text == source + "\0" + key)
            && (scope.ContentMustMatch() <==> uuid.None?) && (scope.Expires() <==> uuid.None?)
  {
  }

  // -------------------------------------------------------------------------------------------------- the table

  datatype Claim = Claim(id: nat, sha256: nat, expires: bool, createdAt: int)

  datatype ClaimError = Conflict | Pending

  datatype IdempotencyClaim = New | Existing(id: nat)

  /** Claims last thirty days, in milliseconds, when they expire at all. */
  const RETENTION: int := 30 * 86_400_000

  function Pruned(claims: map<string, Claim>, now: int): map<string, Claim>
  {
    map k | k in claims && !(claims[k].expires && claims[k].createdAt < now - RETENTION) :: claims[k]
  }

  /** Compare and delete: a claim is only released by the id that made it. */
  function Released(claims: map<string, Claim>, key: string, id: nat): map<string, Claim>
  {
    if key in claims && claims[key].id == id then claims - {key} else claims
  }

  // ------------------------------------------------------------------------------------------------ the step system

  /** A record on its way: the key it was claimed under, its id, and the scope of the key. */
  datatype Pair = Pair(key: string, id: nat, scope: Scope)

  /** A request in flight: what it has claimed and not produced, and what it has still to release. */
  datatype Request = Request(held: set<Pair>, releasing: set<Pair>)

  datatype State = State(
    claims: map<string, Claim>, topic: set<Pair>, requests: map<nat, Request>, ids: set<nat>, now: int)

  /** What can go wrong: a produce that fails can have landed all the same, in part or whole; the insert of a claim can
      land and lose its reply; the delete of a claim can fail; a process can die with requests in flight. */
  datatype Faults = Faults(produceLands: bool, claimReplyLost: bool, releaseFails: bool, processDies: bool)

  datatype Action =
    | Begin(request: nat)
    | TryClaim(request: nat, key: string, scope: Scope, sha256: nat, id: nat, replied: bool)
    | Produce(request: nat, batch: set<Pair>, landed: set<Pair>, acknowledged: bool)
    | GiveUp(request: nat)
    | Release(request: nat, pair: Pair, done: bool)
    | End(request: nat)
    | Die(request: nat)
    | Prune
    | Tick(to: int)

  function Start(): State { State(map[], {}, map[], {}, 0) }

  predicate Legal(faults: Faults, s: State, a: Action)
  {
    match a
    case Begin(r) => r !in s.requests
    // `INSERT ... ON CONFLICT DO NOTHING` got its row back: the id is fresh and the key was free.
    case TryClaim(r, key, _, _, id, replied) =>
      r in s.requests && key !in s.claims && id !in s.ids && (replied || faults.claimReplyLost)
    // Everything handed over is acknowledged, or the produce fails, having landed some of it or not.
    case Produce(r, batch, landed, acknowledged) =>
      && r in s.requests && batch <= s.requests[r].held && landed <= batch
      && (acknowledged ==> landed == batch)
      && (!acknowledged && !faults.produceLands ==> landed == {})
    case GiveUp(r) => r in s.requests
    case Release(r, pair, done) =>
      r in s.requests && pair in s.requests[r].releasing && (done || faults.releaseFails)
    case End(r) => r in s.requests && s.requests[r] == Request({}, {})
    case Die(r) => r in s.requests && faults.processDies
    case Prune => true
    case Tick(to) => s.now <= to
  }

  function Apply(faults: Faults, s: State, a: Action): State
    requires Legal(faults, s, a)
  {
    match a
    case Begin(r) => s.(requests := s.requests[r := Request({}, {})])
    case TryClaim(r, key, scope, sha256, id, replied) =>
      var q := s.requests[r];
      var pair := Pair(key, id, scope);
      s.(claims := s.claims[key := Claim(id, sha256, scope.Expires(), s.now)], ids := s.ids + {id},
         requests := s.requests[r := if replied then q.(held := q.held + {pair}) else q])
    case Produce(r, batch, landed, acknowledged) =>
      var q := s.requests[r];
      var left := q.(held := q.held - batch);
      s.(topic := s.topic + landed,
         requests := s.requests[r := if acknowledged then left else left.(releasing := q.releasing + batch)])
    case GiveUp(r) =>
      var q := s.requests[r];
      s.(requests := s.requests[r := Request({}, q.releasing + q.held)])
    case Release(r, pair, done) =>
      var q := s.requests[r];
      s.(claims := if done then Released(s.claims, pair.key, pair.id) else s.claims,
         requests := s.requests[r := q.(releasing := q.releasing - {pair})])
    case End(r) => s.(requests := s.requests - {r})
    case Die(r) => s.(requests := s.requests - {r})
    case Prune => s.(claims := Pruned(s.claims, s.now))
    case Tick(to) => s.(now := to)
  }

  /** A claim stays what it is until it goes, and it goes only by being released under its own id or, when it can
      expire, by being more than thirty days old. */
  lemma ClaimGoesIff(faults: Faults, s: State, a: Action, key: string)
    requires Legal(faults, s, a) && key in s.claims
    ensures var after, claim := Apply(faults, s, a).claims, s.claims[key];
            && (key in after ==> after[key] == claim)
            && (key !in after <==>
                  || (a.Release? && a.done && a.pair.key == key && a.pair.id == claim.id)
                  || (a.Prune? && claim.expires && claim.createdAt + 2_592_000_000 < s.now))
  {
  }

  /** A claim is new only where the insert found its key free: with the id, the content and the time of that insert, and
      able to expire exactly when it is for a caller's own key. */
  lemma ClaimMadeIff(faults: Faults, s: State, a: Action, key: string)
    requires Legal(faults, s, a) && key !in s.claims
    ensures var after := Apply(faults, s, a).claims;
            && (key in after <==> a.TryClaim? && a.key == key)
            && (key in after ==> after[key] == Claim(a.id, a.sha256, a.scope == Caller, s.now))
  {
  }

  function Run(faults: Faults, actions: seq<Action>): Option<State>
  {
    if actions == [] then Some(Start())
    else
      var n := |actions| - 1;
      match Run(faults, actions[..n])
      case None => None
      case Some(s) => if Legal(faults, s, actions[n]) then Some(Apply(faults, s, actions[n])) else None
  }

  // ---------------------------------------------------------------------------------------- no claim without a record

  ghost predicate Owns(q: Request, key: string, id: nat)
  {
    exists p :: p in q.held + q.releasing && p.key == key && p.id == id
  }

  /** A request in flight answers for the claim. */
  ghost predicate InFlight(s: State, key: string)
    requires key in s.claims
  {
    exists r :: r in s.requests && Owns(s.requests[r], key, s.claims[key].id)
  }

  ghost predicate InTopic(topic: set<Pair>, key: string, id: nat)
  {
    exists p :: p in topic && p.key == key && p.id == id
  }

  /** Every claim that no request in flight answers for has its record in the topic. */
  ghost predicate NoDanglingClaim(s: State)
  {
    forall k :: k in s.claims ==> InFlight(s, k) || InTopic(s.topic, k, s.claims[k].id)
  }

  predicate ClaimsAreSafe(faults: Faults)
  {
    !faults.claimReplyLost && !faults.releaseFails && !faults.processDies
  }

  /** A claim answered for stays answered for, as long as the pair stays with some request or reached the topic. */
  lemma StillAnswered(s: State, t: State, k: string)
    requires k in s.claims && k in t.claims && t.claims[k].id == s.claims[k].id
    requires InFlight(s, k) || InTopic(s.topic, k, s.claims[k].id)
    requires s.topic <= t.topic
    requires forall r, p ::
               (&& r in s.requests && p in s.requests[r].held + s.requests[r].releasing
                && p.key == k && p.id == s.claims[k].id)
               ==> p in t.topic || (r in t.requests && p in t.requests[r].held + t.requests[r].releasing)
    ensures InFlight(t, k) || InTopic(t.topic, k, t.claims[k].id)
  {
    if InFlight(s, k) {
      var r :| r in s.requests && Owns(s.requests[r], k, s.claims[k].id);
      var p :| p in s.requests[r].held + s.requests[r].releasing && p.key == k && p.id == s.claims[k].id;
      if p !in t.topic {
        assert Owns(t.requests[r], k, t.claims[k].id);
      }
    }
  }

  lemma ActionKeepsAnswered(faults: Faults, s: State, a: Action)
    requires ClaimsAreSafe(faults) && NoDanglingClaim(s) && Legal(faults, s, a)
    ensures NoDanglingClaim(Apply(faults, s, a))
  {
    var t := Apply(faults, s, a);
    forall k | k in t.claims
      ensures InFlight(t, k) || InTopic(t.topic, k, t.claims[k].id)
    {
      if a.TryClaim? && k == a.key {
        assert Pair(a.key, a.id, a.scope) in t.requests[a.request].held + t.requests[a.request].releasing;
        assert Owns(t.requests[a.request], k, t.claims[k].id);
      } else {
        StillAnswered(s, t, k);
      }
    }
  }

  /** Over all interleavings of any number of requests and prunes, and however produces fail, a claim outlives its
      request only if its record is in the topic. */
  lemma {:induction false} NoClaimDangles(faults: Faults, actions: seq<Action>)
    requires ClaimsAreSafe(faults) && Run(faults, actions).Some?
    ensures NoDanglingClaim(Run(faults, actions).value)
  {
    if actions != [] {
      var n := |actions| - 1;
      NoClaimDangles(faults, actions[..n]);
      ActionKeepsAnswered(faults, Run(faults, actions[..n]).value, actions[n]);
    }
  }

  // ------------------------------------------------------------------------------------------- one game, one record

  ghost predicate OneRecordPerGame(topic: set<Pair>)
  {
    forall p, q :: p in topic && q in topic && p.scope == Game && q.scope == Game && p.key == q.key ==> p.id == q.id
  }

  /** A game's pair has a permanent claim that carries its id. */
  predicate Backed(claims: map<string, Claim>, p: Pair)
  {
    p.scope == Game ==> p.key in claims && claims[p.key].id == p.id && !claims[p.key].expires
  }

  ghost predicate TopicBacked(s: State)
  {
    forall p :: p in s.topic ==> Backed(s.claims, p)
  }

  ghost predicate HeldBacked(s: State)
  {
    forall r, p :: r in s.requests && p in s.requests[r].held ==> Backed(s.claims, p)
  }

  ghost predicate Has(s: State, r: nat, p: Pair)
  {
    r in s.requests && (p in s.requests[r].held || p in s.requests[r].releasing)
  }

  /** What a request still answers for never reached the topic. */
  ghost predicate NotYetThere(s: State)
  {
    && (forall r, p :: Has(s, r, p) ==> p.id in s.ids)
    && (forall q :: q in s.topic ==> q.id in s.ids)
    && (forall r, p, q :: Has(s, r, p) && q in s.topic ==> q.id != p.id)
  }

  /** No id is used twice, and nothing is both held and being released. */
  ghost predicate IdsApart(s: State)
  {
    && (forall r, p, r', p' :: Has(s, r, p) && Has(s, r', p') && p.id == p'.id ==> r == r' && p == p')
    && (forall r :: r in s.requests ==> s.requests[r].held !! s.requests[r].releasing)
  }

  /** What keeps a game's records one: its claim is permanent and carries the id of every record of it that is in the
      topic or about to be, what is being released never got there, and no id is ever used twice. */
  ghost predicate GamesOk(s: State)
  {
    TopicBacked(s) && HeldBacked(s) && NotYetThere(s) && IdsApart(s)
  }

  lemma HasAfter(faults: Faults, s: State, a: Action, r: nat, p: Pair)
    requires Legal(faults, s, a) && Has(Apply(faults, s, a), r, p)
    ensures Has(s, r, p) || (a.TryClaim? && r == a.request && p == Pair(a.key, a.id, a.scope))
  {
  }

  lemma KeepsIdsApart(faults: Faults, s: State, a: Action)
    requires GamesOk(s) && Legal(faults, s, a)
    ensures IdsApart(Apply(faults, s, a))
  {
    hide TopicBacked, HeldBacked, Legal;
    var t := Apply(faults, s, a);
    forall r, p, r', p' | Has(t, r, p) && Has(t, r', p') && p.id == p'.id
      ensures r == r' && p == p'
    {
      HasAfter(faults, s, a, r, p);
      HasAfter(faults, s, a, r', p');
      if a.TryClaim? {
        FreshId(faults, s, a);
      }
    }
    KeepsApart(faults, s, a);
  }

  lemma KeepsApart(faults: Faults, s: State, a: Action)
    requires GamesOk(s) && Legal(faults, s, a)
    ensures var t := Apply(faults, s, a);
            forall r :: r in t.requests ==> t.requests[r].held !! t.requests[r].releasing
  {
    hide TopicBacked, HeldBacked;
    var t := Apply(faults, s, a);
    forall r | r in t.requests
      ensures t.requests[r].held !! t.requests[r].releasing
    {
      if r in s.requests {
        assert s.requests[r].held !! s.requests[r].releasing;
      }
      if a.TryClaim? && r == a.request {
        assert !Has(s, r, Pair(a.key, a.id, a.scope));
      }
    }
  }

  lemma FreshId(faults: Faults, s: State, a: Action)
    requires Legal(faults, s, a) && a.TryClaim?
    ensures a.id !in s.ids && a.request in s.requests && a.key !in s.claims
  {
  }

  lemma KeepsNotYetThere(faults: Faults, s: State, a: Action)
    requires !faults.produceLands && GamesOk(s) && Legal(faults, s, a)
    ensures NotYetThere(Apply(faults, s, a))
  {
    hide TopicBacked, HeldBacked;
    var t := Apply(faults, s, a);
    forall r, p | Has(t, r, p)
      ensures p.id in t.ids
    {
      HasAfter(faults, s, a, r, p);
    }
    forall q | q in t.topic
      ensures q.id in t.ids
    {
      if q !in s.topic {
        assert Has(s, a.request, q);
      }
    }
    forall r, p, q | Has(t, r, p) && q in t.topic
      ensures q.id != p.id
    {
      HasAfter(faults, s, a, r, p);
      if q !in s.topic {
        assert Has(s, a.request, q) && Has(s, r, p);
        assert s.requests[a.request].held !! s.requests[a.request].releasing;
      }
    }
  }

  /** Nothing but the request that answers for it ever takes a game's claim away. */
  lemma StaysBacked(faults: Faults, s: State, a: Action, p: Pair)
    requires GamesOk(s) && Legal(faults, s, a) && Backed(s.claims, p)
    requires a.Release? ==> a.pair.id != p.id
    ensures Backed(Apply(faults, s, a).claims, p)
  {
    hide TopicBacked, HeldBacked, NotYetThere, IdsApart;
  }

  lemma KeepsBacked(faults: Faults, s: State, a: Action)
    requires !faults.produceLands && GamesOk(s) && Legal(faults, s, a)
    ensures TopicBacked(Apply(faults, s, a)) && HeldBacked(Apply(faults, s, a))
  {
    hide Backed;
    var t := Apply(faults, s, a);
    if a.Release? {
      assert Has(s, a.request, a.pair);
    }
    forall p | p in t.topic
      ensures Backed(t.claims, p)
    {
      StaysBacked(faults, s, a, p);
    }
    forall r, p | r in t.requests && p in t.requests[r].held
      ensures Backed(t.claims, p)
    {
      if a.TryClaim? && p == Pair(a.key, a.id, a.scope) {
        NewIsBacked(faults, s, a);
      } else {
        HeldStays(faults, s, a, r, p);
        StaysBacked(faults, s, a, p);
      }
    }
  }

  lemma NewIsBacked(faults: Faults, s: State, a: Action)
    requires Legal(faults, s, a) && a.TryClaim?
    ensures Backed(Apply(faults, s, a).claims, Pair(a.key, a.id, a.scope))
  {
  }

  lemma HeldStays(faults: Faults, s: State, a: Action, r: nat, p: Pair)
    requires GamesOk(s) && Legal(faults, s, a)
    requires r in Apply(faults, s, a).requests && p in Apply(faults, s, a).requests[r].held
    requires !(a.TryClaim? && p == Pair(a.key, a.id, a.scope))
    ensures r in s.requests && p in s.requests[r].held && Backed(s.claims, p)
    ensures a.Release? ==> a.pair.id != p.id
  {
    hide Backed;
    assert r in s.requests && p in s.requests[r].held;
    assert Has(s, r, p);
    assert s.requests[r].held !! s.requests[r].releasing;
    if a.Release? {
      assert Has(s, a.request, a.pair);
    }
  }

  lemma {:induction false} RunKeepsGames(faults: Faults, actions: seq<Action>)
    requires !faults.produceLands && Run(faults, actions).Some?
    ensures GamesOk(Run(faults, actions).value)
  {
    hide IdsApart, NotYetThere, TopicBacked, HeldBacked;
    if actions == [] {
      StartIsOk();
    } else {
      var n := |actions| - 1;
      RunKeepsGames(faults, actions[..n]);
      var s := Run(faults, actions[..n]).value;
      KeepsIdsApart(faults, s, actions[n]);
      KeepsNotYetThere(faults, s, actions[n]);
      KeepsBacked(faults, s, actions[n]);
    }
  }

  lemma StartIsOk()
    ensures GamesOk(Start())
  {
  }

  // ------------------------------------------------------------------------------------------------ main results

  lemma Extend(faults: Faults, actions: seq<Action>, a: Action)
    requires Run(faults, actions).Some? && Legal(faults, Run(faults, actions).value, a)
    ensures Run(faults, actions + [a]) == Some(Apply(faults, Run(faults, actions).value, a))
  {
    assert (actions + [a])[..|actions|] == actions;
  }

  /** A request claims a key. */
  lemma OneClaim(faults: Faults, actions: seq<Action>, request: nat, key: string, id: nat) returns (longer: seq<Action>)
    requires Run(faults, actions).Some?
    requires var s := Run(faults, actions).value; request !in s.requests && key !in s.claims && id !in s.ids
    ensures Run(faults, longer).Some?
    ensures var s, t := Run(faults, actions).value, Run(faults, longer).value;
            t == State(s.claims[key := Claim(id, 0, false, s.now)], s.topic,
                       s.requests[request := Request({Pair(key, id, Game)}, {})], s.ids + {id}, s.now)
  {
    Extend(faults, actions, Begin(request));
    longer := actions + [Begin(request)];
    Extend(faults, longer, TryClaim(request, key, Game, 0, id, true));
    longer := longer + [TryClaim(request, key, Game, 0, id, true)];
    assert {} + {Pair(key, id, Game)} == {Pair(key, id, Game)};
    assert Run(faults, longer).value.requests
        == Run(faults, actions).value.requests[request := Request({Pair(key, id, Game)}, {})];
  }

  /** Claims never dangle, in any run, exactly when the insert of a claim always reports back, the delete of one always
      works, and no process dies with requests in flight. */
  lemma NoClaimDanglesIff(faults: Faults)
    ensures (forall actions: seq<Action> ::
               Run(faults, actions).Some? ==> NoDanglingClaim(Run(faults, actions).value))
            <==> ClaimsAreSafe(faults)
  {
    if ClaimsAreSafe(faults) {
      forall actions: seq<Action> | Run(faults, actions).Some?
        ensures NoDanglingClaim(Run(faults, actions).value)
      {
        NoClaimDangles(faults, actions);
      }
    } else {
      var actions := DanglingClaim(faults);
    }
  }

  lemma DanglingClaim(faults: Faults) returns (actions: seq<Action>)
    requires !ClaimsAreSafe(faults)
    ensures Run(faults, actions).Some? && !NoDanglingClaim(Run(faults, actions).value)
  {
    var key := GameScopeKey("u");
    if faults.claimReplyLost {
      Extend(faults, [], Begin(0));
      actions := [] + [Begin(0)];
      Extend(faults, actions, TryClaim(0, key, Game, 0, 0, false));
      actions := actions + [TryClaim(0, key, Game, 0, 0, false)];
    } else {
      actions := OneClaim(faults, [], 0, key, 0);
      var pair := Pair(key, 0, Game);
      if faults.processDies {
        Extend(faults, actions, Die(0));
        actions := actions + [Die(0)];
      } else {
        Extend(faults, actions, GiveUp(0));
        actions := actions + [GiveUp(0)];
        assert pair in Run(faults, actions).value.requests[0].releasing;
        Extend(faults, actions, Release(0, pair, false));
        actions := actions + [Release(0, pair, false)];
        assert Run(faults, actions).value.requests[0] == Request({}, {});
      }
    }
    Dangles(Run(faults, actions).value, key);
  }

  lemma Dangles(s: State, key: string)
    requires key in s.claims && s.topic == {}
    requires forall r :: r in s.requests ==> s.requests[r] == Request({}, {})
    ensures !NoDanglingClaim(s)
  {
    assert !InFlight(s, key);
  }

  /** Each game reaches the topic under one record id, in any run, exactly when a produce that fails lands nothing. */
  lemma OneRecordPerGameIff(faults: Faults)
    ensures (forall actions: seq<Action> ::
               Run(faults, actions).Some? ==> OneRecordPerGame(Run(faults, actions).value.topic))
            <==> !faults.produceLands
  {
    if faults.produceLands {
      var actions := TwoRecords(faults);
    } else {
      forall actions: seq<Action> | Run(faults, actions).Some?
        ensures OneRecordPerGame(Run(faults, actions).value.topic)
      {
        RunKeepsGames(faults, actions);
      }
    }
  }

  /** The acknowledgement of a produce is lost, the claim is released, and the retry produces a second copy. */
  lemma TwoRecords(faults: Faults) returns (actions: seq<Action>)
    requires faults.produceLands
    ensures Run(faults, actions).Some? && !OneRecordPerGame(Run(faults, actions).value.topic)
  {
    var key := GameScopeKey("u");
    var first, second := Pair(key, 0, Game), Pair(key, 1, Game);
    actions := OneClaim(faults, [], 0, key, 0);
    Extend(faults, actions, Produce(0, {first}, {first}, false));
    actions := actions + [Produce(0, {first}, {first}, false)];
    assert first in Run(faults, actions).value.requests[0].releasing;
    Extend(faults, actions, Release(0, first, true));
    actions := actions + [Release(0, first, true)];
    actions := OneClaim(faults, actions, 1, key, 1);
    Extend(faults, actions, Produce(1, {second}, {second}, true));
    actions := actions + [Produce(1, {second}, {second}, true)];
    assert {first, second} <= Run(faults, actions).value.topic;
  }
}
