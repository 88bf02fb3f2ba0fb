/**
 What every sequence of dispatcher calls keeps (abi/src/engine_api_dispatch.cpp): nothing is
 destroyed twice, nothing outlives its engine handle, public media players belong to live
 handles, and a decided backend is final.
 */
module DispatchOwnership {
  import opened Common
  import opened EngineDispatch

  // ---------------------------------------------------------------- what every call keeps

  /** The resource was created for this engine handle. */
  predicate MadeFor(l: Ledger, r: Resource, id: int) { r in l.owner && l.owner[r] == id }

  /** The dispatcher still has the resource, in the record of the handle it was created for or as a public player. */
  predicate Held(s: State, r: Resource) {
    r in s.ledger.owner &&
    var id := s.ledger.owner[r];
    match r
    case Runtime(x) => id in s.handles && s.handles[id].runtime == Some(x)
    case Legacy(x) => id in s.handles && s.handles[id].legacy == Some(x)
    case Media(x) => x in s.media || (id in s.handles && x in s.handles[id].media)
  }

  /** A public player belongs to a live handle, which opened it. */
  predicate PublicPlayer(s: State, m: int) {
    m in s.media ==> s.media[m] in s.handles && MadeFor(s.ledger, Media(m), s.media[m])
  }

  predicate OwnPlayer(s: State, id: int, m: int)
    requires id in s.handles
  {
    m in s.handles[id].media ==> MadeFor(s.ledger, Media(m), id) && m !in s.media
  }

  /** A handle has only what was created for it, and a runtime exactly if a provider was chosen. */
  ghost predicate Record(s: State, id: int) {
    id in s.handles ==>
      var h := s.handles[id];
      (h.runtime.Some? ==> h.provider.Some? && MadeFor(s.ledger, Runtime(h.runtime.value), id)) &&
      (h.legacy.Some? ==> MadeFor(s.ledger, Legacy(h.legacy.value), id)) &&
      (forall m :: OwnPlayer(s, id, m)) &&
      (h.backend.ProviderBackend? <==> h.runtime.Some?)
  }

  /** Once created, a resource has been destroyed once if it is no longer held and not at all if it is. */
  predicate Settled(s: State, r: Resource) {
    s.ledger.released[r] == if r in s.ledger.owner && !Held(s, r) then 1 else 0
  }

  ghost predicate Inv(s: State) {
    (forall m :: PublicPlayer(s, m)) && (forall id :: Record(s, id)) && (forall r :: Settled(s, r))
  }

  /** The ids in a call are new. */
  predicate FreshHost(owner: map<Resource, int>, c: HostCall) {
    c.HostOpen? ==>
      (c.legacy.Some? ==> Legacy(c.legacy.value) !in owner) && (c.media.Some? ==> Media(c.media.value) !in owner)
  }

  predicate FreshHosts(l: Local, id: int, calls: seq<HostCall>) {
    forall i | 0 <= i < |calls| :: FreshHost(HostSteps(l, id, calls[..i]).ledger.owner, calls[i])
  }

  predicate Fresh(s: State, c: Call) {
    match c
    case Create(id) => true
    case Destroy(id, callbacks) => id in s.handles ==> FreshHosts(s.At(id), id, callbacks)
    case Select(_, ChooseLegacy(made)) => made.Some? ==> Legacy(made.value) !in s.ledger.owner
    case Select(_, ChooseProvider(_, _, runtime, _)) => runtime.Some? ==> Runtime(runtime.value) !in s.ledger.owner
    case Select(_, _) => true
    case EnsureLegacy(_, made) => made.Some? ==> Legacy(made.value) !in s.ledger.owner
    case MediaOpen(_, made, m) =>
      (made.Some? ==> Legacy(made.value) !in s.ledger.owner) && (m.Some? ==> Media(m.value) !in s.ledger.owner)
    case MediaDestroy(_) => true
    case Host(_, call) => FreshHost(s.ledger.owner, call)
  }

  // ---------------------------------------------------------------- steps

  lemma AcquireLegacyKeepsInv(s: State, id: int, x: int, s': State)
    requires Inv(s) && id in s.handles && s.handles[id].legacy == None && Legacy(x) !in s.ledger.owner
    requires s' == s.With(id, Local(s.handles[id].(legacy := Some(x)), s.ledger.Acquire(Legacy(x), id)))
    ensures Inv(s')
  {
    forall m ensures PublicPlayer(s', m) {
      assert PublicPlayer(s, m);
    }
    forall i ensures Record(s', i) {
      assert Record(s, i);
      if i in s'.handles {
        forall m ensures OwnPlayer(s', i, m) {
          assert OwnPlayer(s, i, m);
        }
      }
    }
    forall r ensures Settled(s', r) {
      assert Settled(s, r);
    }
  }

  lemma EnsuredKeepsInv(s: State, id: int, made: Option<int>)
    requires Inv(s) && id in s.handles && (made.Some? ==> Legacy(made.value) !in s.ledger.owner)
    ensures Inv(s.With(id, Ensured(s.At(id), id, made)))
  {
    if s.handles[id].legacy.Some? || made.None? {
      assert s.With(id, s.At(id)) == s;
    } else {
      AcquireLegacyKeepsInv(s, id, made.value, s.With(id, Ensured(s.At(id), id, made)));
    }
  }

  /** Changes of a record that touch nothing it holds. */
  lemma RelabelKeepsInv(s: State, id: int, backend: Backend, provider: Option<int>)
    requires Inv(s) && id in s.handles && s.handles[id].backend == Undecided && backend != ProviderBackend
    ensures Inv(s.With(id, Local(s.handles[id].(backend := backend, provider := provider), s.ledger)))
  {
    assert Record(s, id);
    var s' := s.With(id, Local(s.handles[id].(backend := backend, provider := provider), s.ledger));
    forall m ensures PublicPlayer(s', m) {
      assert PublicPlayer(s, m);
    }
    forall i ensures Record(s', i) {
      assert Record(s, i);
      if i in s'.handles {
        forall m ensures OwnPlayer(s', i, m) {
          assert OwnPlayer(s, i, m);
        }
      }
    }
    forall r ensures Settled(s', r) {
      assert Settled(s, r);
    }
  }

  lemma ChooseProviderKeepsInv(s: State, id: int, provider: int, x: int, ok: bool, replayed: bool)
    requires Inv(s) && id in s.handles && s.handles[id].backend == Undecided && Runtime(x) !in s.ledger.owner
    ensures Inv(s.With(id, Selected(s.At(id), id, ChooseProvider(provider, ok, Some(x), replayed))))
  {
    assert Record(s, id) && Settled(s, Runtime(x));
    var s' := s.With(id, Selected(s.At(id), id, ChooseProvider(provider, ok, Some(x), replayed)));
    forall m ensures PublicPlayer(s', m) {
      assert PublicPlayer(s, m);
    }
    forall i ensures Record(s', i) {
      assert Record(s, i);
      if i in s'.handles {
        forall m ensures OwnPlayer(s', i, m) {
          assert OwnPlayer(s, i, m);
        }
      }
    }
    forall r ensures Settled(s', r) {
      assert Settled(s, r);
    }
  }

  lemma SelectedKeepsInv(s: State, id: int, outcome: Selection)
    requires Inv(s) && id in s.handles && Fresh(s, Select(id, outcome))
    ensures Inv(s.With(id, Selected(s.At(id), id, outcome)))
  {
    if s.handles[id].backend != Undecided || outcome.NotRegistered? {
      assert s.With(id, s.At(id)) == s;
    } else if outcome.ChooseLegacy? {
      RelabelKeepsInv(s, id, LegacyBackend, s.handles[id].provider);
      var s1 := s.With(id, Local(s.handles[id].(backend := LegacyBackend), s.ledger));
      EnsuredKeepsInv(s1, id, outcome.legacy);
      assert s1.With(id, Ensured(s1.At(id), id, outcome.legacy)) == s.With(id, Selected(s.At(id), id, outcome));
    } else if outcome.runtime.None? {
      assert Record(s, id);
      RelabelKeepsInv(s, id, Undecided, Some(outcome.provider));
    } else {
      ChooseProviderKeepsInv(s, id, outcome.provider, outcome.runtime.value, outcome.ok, outcome.replayed);
    }
  }

  lemma GainPlayerKeepsInv(s: State, id: int, x: int, s': State)
    requires Inv(s) && id in s.handles && Media(x) !in s.ledger.owner
    requires s' == s.With(id, Local(s.handles[id].(media := s.handles[id].media + {x}), s.ledger.Acquire(Media(x), id)))
          || s' == State(s.handles, s.media[x := id], s.ledger.Acquire(Media(x), id))
    ensures Inv(s')
  {
    assert PublicPlayer(s, x) && Settled(s, Media(x));
    forall m ensures PublicPlayer(s', m) {
      assert PublicPlayer(s, m);
    }
    forall i ensures Record(s', i) {
      assert Record(s, i);
      if i in s'.handles {
        forall m ensures OwnPlayer(s', i, m) {
          assert OwnPlayer(s, i, m);
        }
      }
    }
    forall r ensures Settled(s', r) {
      assert Settled(s, r);
    }
  }

  lemma LosePlayerKeepsInv(s: State, id: int, x: int, s': State)
    requires Inv(s) && id in s.handles
    requires (x in s.handles[id].media
              && s' == s.With(id, Local(s.handles[id].(media := s.handles[id].media - {x}), s.ledger.Release({Media(x)}))))
          || (x in s.media && s' == State(s.handles, s.media - {x}, s.ledger.Release({Media(x)})))
    ensures Inv(s')
  {
    assert PublicPlayer(s, x) && Settled(s, Media(x)) && Record(s, id) && OwnPlayer(s, id, x);
    forall m ensures PublicPlayer(s', m) {
      assert PublicPlayer(s, m);
    }
    forall i ensures Record(s', i) {
      assert Record(s, i);
      if i in s'.handles {
        forall m ensures OwnPlayer(s', i, m) {
          assert OwnPlayer(s, i, m);
        }
      }
    }
    if x in s.media {
      assert Record(s, s.media[x]) && OwnPlayer(s, s.media[x], x);
    }
    forall r ensures Settled(s', r) {
      assert Settled(s, r);
    }
  }

  lemma HostStepKeepsInv(s: State, id: int, c: HostCall)
    requires Inv(s) && id in s.handles && FreshHost(s.ledger.owner, c)
    ensures Inv(s.With(id, HostStep(s.At(id), id, c)))
  {
    var s' := s.With(id, HostStep(s.At(id), id, c));
    match c
    case HostOpen(legacy, media) =>
      EnsuredKeepsInv(s, id, legacy);
      var s1 := s.With(id, Ensured(s.At(id), id, legacy));
      if s1.handles[id].legacy.Some? && media.Some? {
        GainPlayerKeepsInv(s1, id, media.value, s');
      }
    case HostClose(m) =>
      if m in s.handles[id].media {
        LosePlayerKeepsInv(s, id, m, s');
      } else {
        assert s' == s;
      }
  }

  lemma FreshPrefix(l: Local, id: int, calls: seq<HostCall>, k: nat)
    requires k < |calls| && FreshHosts(l, id, calls)
    ensures FreshHosts(l, id, calls[..k]) && FreshHost(HostSteps(l, id, calls[..k]).ledger.owner, calls[k])
  {
    forall i | 0 <= i < k ensures FreshHost(HostSteps(l, id, calls[..k][..i]).ledger.owner, calls[..k][i]) {
      assert calls[..k][..i] == calls[..i];
    }
  }

  lemma HostStepsUnfold(s: State, id: int, calls: seq<HostCall>)
    requires id in s.handles && calls != []
    ensures
      var s1 := s.With(id, HostSteps(s.At(id), id, calls[..|calls| - 1]));
      s1.With(id, HostStep(s1.At(id), id, calls[|calls| - 1])) == s.With(id, HostSteps(s.At(id), id, calls))
  {
  }

  lemma HostStepKeepsRuntime(l: Local, id: int, c: HostCall)
    ensures HostStep(l, id, c).h.runtime == l.h.runtime && HostStep(l, id, c).h.provider == l.h.provider
  {
  }

  lemma {:induction false} HostStepsKeepRuntime(l: Local, id: int, calls: seq<HostCall>)
    ensures HostSteps(l, id, calls).h.runtime == l.h.runtime && HostSteps(l, id, calls).h.provider == l.h.provider
    decreases |calls|
  {
    if calls != [] {
      HostStepsKeepRuntime(l, id, calls[..|calls| - 1]);
      HostStepKeepsRuntime(HostSteps(l, id, calls[..|calls| - 1]), id, calls[|calls| - 1]);
    }
  }

  lemma OpeningKeepsInv(s: State, id: int, made: Option<int>, m: Option<int>)
    requires Inv(s) && id in s.handles && Fresh(s, MediaOpen(id, made, m))
    ensures Inv(s.Apply(MediaOpen(id, made, m)))
  {
    hide Inv;
    EnsuredKeepsInv(s, id, made);
    var ready := s.With(id, Ensured(s.At(id), id, made));
    if ready.handles[id].legacy.Some? && m.Some? {
      NewPlayerIsNotPublic(s, m.value);
      GainPlayerKeepsInv(ready, id, m.value, s.Apply(MediaOpen(id, made, m)));
    }
  }

  lemma NewPlayerIsNotPublic(s: State, m: int)
    requires Inv(s) && Media(m) !in s.ledger.owner
    ensures m !in s.media
  {
    assert PublicPlayer(s, m);
  }

  lemma {:induction false} HostStepsKeepInv(s: State, id: int, calls: seq<HostCall>)
    requires Inv(s) && id in s.handles && FreshHosts(s.At(id), id, calls)
    ensures Inv(s.With(id, HostSteps(s.At(id), id, calls)))
    decreases |calls|
  {
    hide Inv, FreshHosts, FreshHost, HostStep;
    if calls == [] {
      assert s.With(id, s.At(id)) == s;
    } else {
      var k := |calls| - 1;
      FreshPrefix(s.At(id), id, calls, k);
      HostStepsKeepInv(s, id, calls[..k]);
      HostStepKeepsInv(s.With(id, HostSteps(s.At(id), id, calls[..k])), id, calls[k]);
      HostStepsUnfold(s, id, calls);
    }
  }

  lemma ReleaseCounts(l: Ledger, rs: set<Resource>, r: Resource)
    ensures l.Release(rs).owner == l.owner && l.Release(rs).released[r] == l.released[r] + if r in rs then 1 else 0
  {
  }

  /** Everything a handle and its public players held goes at once. */
  lemma RemovalKeepsInv(s: State, id: int, s': State)
    requires Inv(s) && id in s.handles
    requires
      var h := s.handles[id];
      s' == State(s.handles - {id}, s.media - s.OwnedBy(id),
                  s.ledger.Release(RuntimeOf(h)).Release(Players(h.media)).Release(Players(s.OwnedBy(id))).Release(LegacyOf(h)))
    ensures Inv(s')
  {
    forall m ensures PublicPlayer(s', m) {
      assert PublicPlayer(s, m);
    }
    forall i ensures Record(s', i) {
      assert Record(s, i);
      if i in s'.handles {
        forall m ensures OwnPlayer(s', i, m) {
          assert OwnPlayer(s, i, m);
        }
      }
    }
    forall r ensures Settled(s', r) {
      RemovalSettles(s, id, s', r);
    }
  }

  lemma RemovalSettles(s: State, id: int, s': State, r: Resource)
    requires Inv(s) && id in s.handles
    requires
      var h := s.handles[id];
      s' == State(s.handles - {id}, s.media - s.OwnedBy(id),
                  s.ledger.Release(RuntimeOf(h)).Release(Players(h.media)).Release(Players(s.OwnedBy(id))).Release(LegacyOf(h)))
    ensures Settled(s', r)
  {
    hide Ledger.Release;
    var l := s.ledger.Release(RuntimeOf(s.handles[id]));
    var l1 := l.Release(Players(s.handles[id].media));
    ReleaseCounts(s.ledger, RuntimeOf(s.handles[id]), r);
    ReleaseCounts(l, Players(s.handles[id].media), r);
    ReleaseCounts(l1, Players(s.OwnedBy(id)), r);
    ReleaseCounts(l1.Release(Players(s.OwnedBy(id))), LegacyOf(s.handles[id]), r);
    assert Settled(s, r) && Record(s, id);
    if r.Media? {
      assert PublicPlayer(s, r.id) && OwnPlayer(s, id, r.id);
    }
  }

  lemma CreationKeepsInv(s: State, id: int)
    requires Inv(s) && id !in s.handles
    ensures Inv(s.Apply(Create(id)))
  {
    var s' := s.Apply(Create(id));
    forall m ensures PublicPlayer(s', m) {
      assert PublicPlayer(s, m);
    }
    forall i ensures Record(s', i) {
      assert Record(s, i);
      if i in s'.handles {
        forall m ensures OwnPlayer(s', i, m) {
          assert i in s.handles ==> OwnPlayer(s, i, m);
        }
      }
    }
    forall r ensures Settled(s', r) {
      assert Settled(s, r);
    }
  }

  lemma DestructionKeepsInv(s: State, id: int, callbacks: seq<HostCall>)
    requires Inv(s) && id in s.handles && FreshHosts(s.At(id), id, callbacks)
    ensures Inv(s.Destroyed(id, callbacks))
  {
    hide Inv, FreshHosts, HostSteps;
    HostStepsKeepInv(s, id, callbacks);
    HostStepsKeepRuntime(s.At(id), id, callbacks);
    var s1 := s.With(id, HostSteps(s.At(id), id, callbacks));
    assert s1.OwnedBy(id) == s.OwnedBy(id);
    assert s1.handles - {id} == s.handles - {id};
    RemovalKeepsInv(s1, id, s.Destroyed(id, callbacks));
  }

  /** No call breaks the invariant, in whatever order the calls come and however they turn out. */
  lemma ApplyKeepsInv(s: State, c: Call)
    requires Inv(s) && Fresh(s, c)
    ensures Inv(s.Apply(c))
  {
    hide Inv, FreshHosts, HostSteps;
    match c
    case Create(id) =>
      if id !in s.handles { CreationKeepsInv(s, id); }
    case Destroy(id, callbacks) =>
      if id in s.handles { DestructionKeepsInv(s, id, callbacks); }
    case Select(id, outcome) =>
      if id in s.handles { SelectedKeepsInv(s, id, outcome); }
    case EnsureLegacy(id, made) =>
      if id in s.handles { EnsuredKeepsInv(s, id, made); }
    case MediaOpen(id, made, m) =>
      if id in s.handles { OpeningKeepsInv(s, id, made, m); }
    case MediaDestroy(m) =>
      if m in s.media && s.media[m] in s.handles { LosePlayerKeepsInv(s, s.media[m], m, s.Apply(c)); }
    case Host(id, call) =>
      if id in s.handles { HostStepKeepsInv(s, id, call); }
  }

  // ---------------------------------------------------------------- runs

  function Run(s: State, calls: seq<Call>): State
    decreases |calls|
  {
    if calls == [] then s else Run(s, calls[..|calls| - 1]).Apply(calls[|calls| - 1])
  }

  predicate FreshRun(s: State, calls: seq<Call>) {
    forall i | 0 <= i < |calls| :: Fresh(Run(s, calls[..i]), calls[i])
  }

  lemma {:induction false} RunKeepsInv(s: State, calls: seq<Call>)
    requires Inv(s) && FreshRun(s, calls)
    ensures Inv(Run(s, calls))
    decreases |calls|
  {
    hide Inv, Fresh, State.Apply;
    if calls != [] {
      var k := |calls| - 1;
      forall i | 0 <= i < k ensures Fresh(Run(s, calls[..k][..i]), calls[..k][i]) {
        assert calls[..k][..i] == calls[..i];
      }
      RunKeepsInv(s, calls[..k]);
      ApplyKeepsInv(Run(s, calls[..k]), calls[k]);
    }
  }

  lemma EmptyKeepsInv()
    ensures Inv(EMPTY)
  {
  }

  /**
   However the calls of a session are ordered and turn out, nothing is destroyed twice, and what
   was created for an engine handle that is gone has been destroyed.
   */
  lemma DestroyedExactlyOnce(calls: seq<Call>, r: Resource)
    requires FreshRun(EMPTY, calls)
    ensures
      var s := Run(EMPTY, calls);
      s.ledger.released[r] <= (if r in s.ledger.owner then 1 else 0) &&
      (r in s.ledger.owner && s.ledger.owner[r] !in s.handles ==> s.ledger.released[r] == 1)
  {
    hide Run, FreshRun;
    EmptyKeepsInv();
    RunKeepsInv(EMPTY, calls);
    HeldOrDestroyed(Run(EMPTY, calls), r);
  }

  lemma HeldOrDestroyed(s: State, r: Resource)
    requires Inv(s)
    ensures s.ledger.released[r] <= (if r in s.ledger.owner then 1 else 0)
    ensures r in s.ledger.owner && s.ledger.owner[r] !in s.handles ==> s.ledger.released[r] == 1
  {
    assert Settled(s, r);
    if r.Media? && r.id in s.media {
      assert PublicPlayer(s, r.id);
    }
  }

  /** `engine_destroy` leaves nothing behind: runtime, backend handle and players of the handle are all destroyed, once. */
  lemma DestroyReleasesAll(calls: seq<Call>, id: int, callbacks: seq<HostCall>, r: Resource)
    requires FreshRun(EMPTY, calls + [Destroy(id, callbacks)])
    ensures
      var s := Run(EMPTY, calls + [Destroy(id, callbacks)]);
      MadeFor(s.ledger, r, id) ==> s.ledger.released[r] == 1
  {
    var all := calls + [Destroy(id, callbacks)];
    assert all[..|all| - 1] == calls;
    DestroyedExactlyOnce(all, r);
  }

  /** A public player's owner is a live handle, and the player has not been destroyed. */
  lemma KnownPlayerIsReachable(calls: seq<Call>, m: int)
    requires FreshRun(EMPTY, calls) && m in Run(EMPTY, calls).media
    ensures
      var s := Run(EMPTY, calls);
      s.media[m] in s.handles && MadeFor(s.ledger, Media(m), s.media[m]) && s.ledger.released[Media(m)] == 0
  {
    hide Run, FreshRun;
    EmptyKeepsInv();
    RunKeepsInv(EMPTY, calls);
    PlayerIsReachable(Run(EMPTY, calls), m);
  }

  lemma PlayerIsReachable(s: State, m: int)
    requires Inv(s) && m in s.media
    ensures s.media[m] in s.handles && MadeFor(s.ledger, Media(m), s.media[m]) && s.ledger.released[Media(m)] == 0
  {
    assert PublicPlayer(s, m) && Settled(s, Media(m));
  }

  /**
   A call on a public player in a state any session can be in: a known player is always reached, and
   a destroyed one never.
   */
  method RouteInSession(dispatcher: Dispatcher, m: int, ghost calls: seq<Call>) returns (reached: bool)
    requires FreshRun(EMPTY, calls) && dispatcher.View() == Run(EMPTY, calls)
    ensures reached <==> m in dispatcher.mediaHandles
    ensures reached ==> dispatcher.ledger.released[Media(m)] == 0
  {
    hide Run, FreshRun;
    var known;
    known, reached := dispatcher.RouteMedia(m);
    if known {
      KnownPlayerIsReachable(calls, m);
    }
  }

  /** What a live handle refers to has not been destroyed, and it has a runtime exactly if it chose a provider. */
  lemma LiveHandleIsIntact(calls: seq<Call>, id: int)
    requires FreshRun(EMPTY, calls) && id in Run(EMPTY, calls).handles
    ensures
      var s := Run(EMPTY, calls);
      var h := s.handles[id];
      (h.backend.ProviderBackend? <==> h.runtime.Some?) &&
      (forall r | r in RuntimeOf(h) + LegacyOf(h) + Players(h.media) :: s.ledger.released[r] == 0)
  {
    hide Run, FreshRun;
    EmptyKeepsInv();
    RunKeepsInv(EMPTY, calls);
    var s := Run(EMPTY, calls);
    assert Record(s, id);
    forall r | r in RuntimeOf(s.handles[id]) + LegacyOf(s.handles[id]) + Players(s.handles[id].media)
      ensures s.ledger.released[r] == 0
    {
      assert Settled(s, r);
      if r.Media? {
        assert OwnPlayer(s, id, r.id);
      }
    }
  }

  // ---------------------------------------------------------------- single calls

  /** The handle a call is about. */
  function Subject(s: State, c: Call): Option<int> {
    match c
    case Create(id) => Some(id)
    case Destroy(id, _) => Some(id)
    case Select(id, _) => Some(id)
    case EnsureLegacy(id, _) => Some(id)
    case MediaOpen(id, _, _) => Some(id)
    case MediaDestroy(m) => if m in s.media then Some(s.media[m]) else None
    case Host(id, _) => Some(id)
  }

  /** A call leaves all other handles, their public players and their resources alone. */
  lemma OthersUntouched(s: State, c: Call, id: int)
    requires Inv(s) && Fresh(s, c) && Subject(s, c) != Some(id)
    ensures var s' := s.Apply(c);
            (id in s'.handles <==> id in s.handles) && (id in s.handles ==> s'.handles[id] == s.handles[id]) &&
            s'.OwnedBy(id) == s.OwnedBy(id)
  {
    hide Inv, FreshHosts, HostSteps, HostStep, Selected, Ensured;
    if c.MediaOpen? && c.media.Some? {
      NewPlayerIsNotPublic(s, c.media.value);
    }
  }

  /** Which backend a selection ends with: the only decisions are the legacy backend and a provider that started. */
  lemma SelectionOutcome(s: State, id: int, outcome: Selection)
    requires id in s.handles && s.handles[id].backend == Undecided
    ensures var h, h' := s.handles[id], s.Apply(Select(id, outcome)).handles[id];
            h'.media == h.media &&
            match outcome
            case NotRegistered => h' == h
            case ChooseLegacy(made) =>
              h'.backend == LegacyBackend && h'.provider == h.provider && h'.runtime == h.runtime &&
              h'.legacy == if h.legacy == None then made else h.legacy
            case ChooseProvider(provider, ok, runtime, _) =>
              h'.provider == Some(provider) && h'.legacy == h.legacy &&
              if ok && runtime != None then h'.backend == ProviderBackend && h'.runtime == runtime
              else h'.backend == Undecided && h'.runtime == None
  {
  }

  /** A new handle has decided nothing and holds nothing; a handle that exists is not made anew. */
  lemma CreationOutcome(s: State, id: int)
    ensures s.Apply(Create(id)) ==
              if id in s.handles then s else s.(handles := s.handles[id := Handle(Undecided, None, None, None, {})])
  {
  }

  /** What a provider does with the media services it is given: its players are its own, behind the handle's backend. */
  lemma HostOutcome(s: State, id: int, made: Option<int>, m: int)
    requires id in s.handles
    ensures var h, h' := s.handles[id], s.Apply(Host(id, HostOpen(made, Some(m)))).handles[id];
            h'.legacy == (if h.legacy == None then made else h.legacy) &&
            h'.media == (if h'.legacy == None then h.media else h.media + {m}) && h'.backend == h.backend
    ensures var h, h' := s.handles[id], s.Apply(Host(id, HostClose(m))).handles[id];
            h' == h.(media := h.media - {m})
  {
  }

  /** Opening a public player needs a backend handle, made at once if there is none; then the player is its handle's. */
  lemma OpeningOutcome(s: State, id: int, made: Option<int>, m: int)
    requires Inv(s) && id in s.handles && Fresh(s, MediaOpen(id, made, Some(m)))
    ensures var s' := s.Apply(MediaOpen(id, made, Some(m)));
            s'.handles[id] == s.handles[id].(legacy := if s.handles[id].legacy == None then made else s.handles[id].legacy) &&
            s'.media == (if s'.handles[id].legacy == None then s.media else s.media[m := id]) &&
            (MadeFor(s'.ledger, Media(m), id) <==> s'.handles[id].legacy != None)
  {
    NewPlayerIsNotPublic(s, m);
  }

  /** Closing one takes it out of the registry and destroys it, and nothing else. */
  lemma ClosingOutcome(s: State, m: int)
    requires Inv(s) && m in s.media
    ensures var s' := s.Apply(MediaDestroy(m));
            s'.handles == s.handles && s'.media == s.media - {m} &&
            s'.ledger.owner == s.ledger.owner && s'.ledger.released == s.ledger.released + multiset{Media(m)}
  {
    assert PublicPlayer(s, m);
  }

  /** Once decided, a handle's backend, provider and runtime stay until the handle is destroyed. */
  lemma {:induction false} BackendIsFinal(s: State, calls: seq<Call>, id: int)
    requires id in s.handles && s.handles[id].backend != Undecided
    requires forall i | 0 <= i < |calls| :: !(calls[i].Destroy? && calls[i].handle == id)
    ensures
      var s' := Run(s, calls);
      id in s'.handles && s'.handles[id].backend == s.handles[id].backend && s'.handles[id].runtime == s.handles[id].runtime &&
      s'.handles[id].provider == s.handles[id].provider
    decreases |calls|
  {
    hide State.Apply;
    if calls != [] {
      BackendIsFinal(s, calls[..|calls| - 1], id);
      ApplyKeepsBackend(Run(s, calls[..|calls| - 1]), calls[|calls| - 1], id);
    }
  }

  /**
   A provider that fails to start leaves its pointer in the record, which stays undecided: a later
   selection decides anew, and destroying the handle calls no provider unless that one succeeds.
   */
  lemma FailedStartIsRetried(l: Local, id: int, provider: int, runtime: Option<int>, replayed: bool, later: Selection)
    requires l.h.backend == Undecided && l.h.runtime == None
    ensures
      var failed := Selected(l, id, ChooseProvider(provider, false, runtime, replayed));
      failed.h == l.h.(provider := Some(provider)) && RuntimeOf(failed.h) == {} &&
      (Selected(failed, id, later).h.backend != Undecided <==> Selected(l, id, later).h.backend != Undecided) &&
      (RuntimeOf(Selected(failed, id, later).h) != {} <==> later.ChooseProvider? && later.ok && later.runtime.Some?)
  {
  }

  lemma ApplyKeepsBackend(s: State, c: Call, id: int)
    requires id in s.handles && s.handles[id].backend != Undecided && !(c.Destroy? && c.handle == id)
    ensures
      var s' := s.Apply(c);
      id in s'.handles && s'.handles[id].backend == s.handles[id].backend && s'.handles[id].runtime == s.handles[id].runtime &&
      s'.handles[id].provider == s.handles[id].provider
  {
  }
}
