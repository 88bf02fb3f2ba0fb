/**
 Ownership in the engine dispatcher (abi/src/engine_api_dispatch.cpp): which runtimes, backend
 handles and media players exist on behalf of an engine handle, and that each of them is
 destroyed exactly once. Every locked call is one step; what the backends answer is part of
 the call, and the ids they hand out are new ones.
 */
module EngineDispatch {
  import opened Common

  /** What a backend or provider has created and the dispatcher must have destroyed. */
  datatype Resource = Runtime(id: int) | Media(id: int) | Legacy(id: int)

  datatype Backend = Undecided | LegacyBackend | ProviderBackend

  /** The record behind an engine handle; `media` are the players its provider opened. */
  datatype Handle = Handle(backend: Backend, provider: Option<int>, runtime: Option<int>, legacy: Option<int>, media: set<int>)

  const NEW_HANDLE := Handle(Undecided, None, None, None, {})

  /** A provider's use of the media services it is given. */
  datatype HostCall = HostOpen(legacy: Option<int>, media: Option<int>) | HostClose(player: int)

  /**
   How backend selection turns out; `ok` is the answer of the provider's constructor and `replayed`
   that of the options and the surface size set afterwards.
   */
  datatype Selection =
    | NotRegistered
    | ChooseLegacy(legacy: Option<int>)
    | ChooseProvider(provider: int, ok: bool, runtime: Option<int>, replayed: bool)

  datatype Call =
    | Create(handle: int)
    | Destroy(handle: int, callbacks: seq<HostCall>)   // calls the provider makes while it is being destroyed
    | Select(handle: int, outcome: Selection)
    | EnsureLegacy(handle: int, legacy: Option<int>)
    | MediaOpen(handle: int, legacy: Option<int>, media: Option<int>)
    | MediaDestroy(player: int)
    | Host(handle: int, call: HostCall)

  /** The history of resources: for whom each one was created, and how often it was destroyed. */
  datatype Ledger = Ledger(owner: map<Resource, int>, released: multiset<Resource>) {
    function Acquire(r: Resource, handle: int): Ledger { this.(owner := owner[r := handle]) }
    function Release(rs: set<Resource>): Ledger { this.(released := released + multiset(rs)) }
  }

  // ---------------------------------------------------------------- one handle

  /** A handle record together with the ledger. */
  datatype Local = Local(h: Handle, ledger: Ledger)

  /** The backend is created on first use; `made` is what its constructor returns. */
  function Ensured(l: Local, id: int, made: Option<int>): Local {
    if l.h.legacy.Some? || made.None? then l
    else Local(l.h.(legacy := made), l.ledger.Acquire(Legacy(made.value), id))
  }

  function HostStep(l: Local, id: int, c: HostCall): Local {
    match c
    case HostOpen(legacy, media) =>
      var ready := Ensured(l, id, legacy);
      if ready.h.legacy.None? || media.None? then ready
      else Local(ready.h.(media := ready.h.media + {media.value}), ready.ledger.Acquire(Media(media.value), id))
    case HostClose(m) =>
      if m !in l.h.media then l
      else Local(l.h.(media := l.h.media - {m}), l.ledger.Release({Media(m)}))
  }

  function HostSteps(l: Local, id: int, calls: seq<HostCall>): Local
    decreases |calls|
  {
    if calls == [] then l else HostStep(HostSteps(l, id, calls[..|calls| - 1]), id, calls[|calls| - 1])
  }

  function Selected(l: Local, id: int, outcome: Selection): Local {
    if l.h.backend != Undecided then l
    else match outcome
      case NotRegistered => l
      case ChooseLegacy(made) => Ensured(Local(l.h.(backend := LegacyBackend), l.ledger), id, made)
      case ChooseProvider(provider, ok, runtime, _) =>
        var chosen := l.h.(provider := Some(provider), runtime := None);
        if runtime.None? then Local(chosen, l.ledger)
        else
          var made := l.ledger.Acquire(Runtime(runtime.value), id);
          if ok then Local(chosen.(backend := ProviderBackend, runtime := runtime), made)
          else Local(chosen, made.Release({Runtime(runtime.value)}))
  }

  /** What destroying the handle hands back to its provider. */
  function RuntimeOf(h: Handle): set<Resource> {
    if h.provider.Some? && h.runtime.Some? then {Runtime(h.runtime.value)} else {}
  }

  function LegacyOf(h: Handle): set<Resource> { if h.legacy.Some? then {Legacy(h.legacy.value)} else {} }

  function Players(media: set<int>): set<Resource> { set m | m in media :: Media(m) }

  // ---------------------------------------------------------------- all handles

  datatype State = State(handles: map<int, Handle>, media: map<int, int>, ledger: Ledger) {

    function At(id: int): Local
      requires id in handles
    {
      Local(handles[id], ledger)
    }

    function With(id: int, l: Local): State { State(handles[id := l.h], media, l.ledger) }

    /** Players opened through the public interface for a handle. */
    function OwnedBy(id: int): set<int> { set m | m in media && media[m] == id }

    /** A player that is already registered keeps its owner. */
    function Emplaced(m: int, id: int): map<int, int> { if m in media then media else media[m := id] }

    function Destroyed(id: int, callbacks: seq<HostCall>): State
      requires id in handles
    {
      var owned := OwnedBy(id);
      var l := HostSteps(At(id), id, callbacks);
      State(handles - {id}, media - owned,
            l.ledger.Release(RuntimeOf(handles[id])).Release(Players(l.h.media)).Release(Players(owned)).Release(LegacyOf(l.h)))
    }

    function Apply(c: Call): State {
      match c
      case Create(id) => if id in handles then this else State(handles[id := NEW_HANDLE], media, ledger)
      case Destroy(id, callbacks) => if id in handles then Destroyed(id, callbacks) else this
      case Select(id, outcome) => if id in handles then With(id, Selected(At(id), id, outcome)) else this
      case EnsureLegacy(id, made) => if id in handles then With(id, Ensured(At(id), id, made)) else this
      case MediaOpen(id, made, m) =>
        if id !in handles then this
        else
          var ready := Ensured(At(id), id, made);
          if ready.h.legacy.None? || m.None? then With(id, ready)
          else State(handles[id := ready.h], Emplaced(m.value, id), ready.ledger.Acquire(Media(m.value), id))
      case MediaDestroy(m) =>
        if m !in media || media[m] !in handles then this
        else State(handles, media - {m}, ledger.Release({Media(m)}))
      case Host(id, call) => if id in handles then With(id, HostStep(At(id), id, call)) else this
    }
  }

  const EMPTY := State(map[], map[], Ledger(map[], multiset{}))

  method AnyOf<T>(s: set<T>) returns (x: T)
    requires s != {}
    ensures x in s
  {
    x :| x in s;
  }

  class Dispatcher {
    var handles: map<int, Handle>
    var mediaHandles: map<int, int>
    ghost var ledger: Ledger

    constructor ()
      ensures View() == EMPTY
    {
      handles, mediaHandles, ledger := map[], map[], Ledger(map[], multiset{});
    }

    ghost function View(): State
      reads this
    {
      State(handles, mediaHandles, ledger)
    }

    method EngineCreate(id: int)
      requires id !in handles
      modifies this
      ensures View() == old(View()).Apply(Create(id))
    {
      handles := handles[id := NEW_HANDLE];
    }

    method EnsureLegacyLocked(id: int, made: Option<int>) returns (ok: bool)
      requires id in handles
      modifies this
      ensures View() == old(View()).Apply(EnsureLegacy(id, made))
      ensures ok <==> handles[id].legacy.Some?
    {
      var h := handles[id];
      if h.legacy.Some? {
        return true;
      }
      if made.None? {
        handles := handles[id := h];
        return false;
      }
      handles := handles[id := h.(legacy := made)];
      ledger := ledger.Acquire(Legacy(made.value), id);
      ok := true;
    }

    method SelectBackendLocked(id: int, outcome: Selection) returns (ok: bool)
      requires id in handles
      modifies this
      ensures View() == old(View()).Apply(Select(id, outcome))
      ensures ok <==> old(handles)[id].backend != Undecided ||
                      (outcome.ChooseLegacy? && handles[id].legacy.Some?) ||
                      (outcome.ChooseProvider? && outcome.ok && outcome.runtime.Some? && outcome.replayed)
      ensures ok ==> handles[id].backend != Undecided
    {
      var h := handles[id];
      if h.backend != Undecided {
        return true;
      }
      match outcome
      case NotRegistered =>
        ok := false;
      case ChooseLegacy(made) =>
        handles := handles[id := h.(backend := LegacyBackend)];
        ok := EnsureLegacyLocked(id, made);
      case ChooseProvider(provider, created, runtime, replayed) =>
        h := h.(provider := Some(provider), runtime := runtime);
        if runtime.Some? {
          ledger := ledger.Acquire(Runtime(runtime.value), id);
        }
        if !created || runtime.None? {
          if runtime.Some? {
            ledger := ledger.Release({Runtime(runtime.value)});
          }
          handles := handles[id := h.(runtime := None)];
          return false;
        }
        handles := handles[id := h.(backend := ProviderBackend)];
        ok := replayed;
    }

    method EngineMediaOpen(id: int, made: Option<int>, media: Option<int>) returns (ok: bool)
      modifies this
      ensures View() == old(View()).Apply(MediaOpen(id, made, media))
      ensures ok <==> id in old(handles) && handles[id].legacy.Some? && media.Some?
      ensures ok ==> media.value in mediaHandles
      ensures ok && media.value !in old(mediaHandles) ==> mediaHandles[media.value] == id
    {
      if id !in handles {
        return false;
      }
      var ready := EnsureLegacyLocked(id, made);
      if !ready || media.None? {
        return false;
      }
      if media.value !in mediaHandles {
        mediaHandles := mediaHandles[media.value := id];
      }
      ledger := ledger.Acquire(Media(media.value), id);
      ok := true;
    }

    method EngineMediaDestroy(m: int) returns (ok: bool)
      modifies this
      ensures View() == old(View()).Apply(MediaDestroy(m))
      ensures ok <==> m in old(mediaHandles) && old(mediaHandles)[m] in handles
    {
      if m !in mediaHandles || mediaHandles[m] !in handles {
        return false;
      }
      ledger := ledger.Release({Media(m)});
      mediaHandles := mediaHandles - {m};
      ok := true;
    }

    method HostMediaOpen(id: int, made: Option<int>, media: Option<int>) returns (ok: bool)
      requires id in handles
      modifies this
      ensures View() == old(View()).Apply(Host(id, HostOpen(made, media)))
      ensures ok <==> (old(handles)[id].legacy.Some? || made.Some?) && media.Some?
      ensures ok ==> handles[id].media == old(handles)[id].media + {media.value}
    {
      var ready := EnsureLegacyLocked(id, made);
      if !ready || media.None? {
        return false;
      }
      handles := handles[id := handles[id].(media := handles[id].media + {media.value})];
      ledger := ledger.Acquire(Media(media.value), id);
      ok := true;
    }

    method HostMediaDestroy(id: int, m: int) returns (ok: bool)
      requires id in handles
      modifies this
      ensures View() == old(View()).Apply(Host(id, HostClose(m)))
      ensures ok <==> m in old(handles)[id].media
      ensures m !in handles[id].media
    {
      if m !in handles[id].media {
        return false;
      }
      handles := handles[id := handles[id].(media := handles[id].media - {m})];
      ledger := ledger.Release({Media(m)});
      ok := true;
    }

    /** The handle leaves the registry first; its provider may still call back while it goes. */
    method EngineDestroy(id: int, callbacks: seq<HostCall>) returns (ok: bool)
      modifies this
      ensures View() == old(View()).Apply(Destroy(id, callbacks))
      ensures ok <==> id in old(handles)
      ensures handles == old(handles) - {id}
    {
      if id !in handles {
        assert handles - {id} == handles;
        return false;
      }
      var owned := PlayersOf(mediaHandles, id);
      mediaHandles := mediaHandles - owned;
      var handle := handles[id];
      handles := handles - {id};
      ghost var l := HostSteps(Local(handle, ledger), id, callbacks);
      ghost var runtime := RuntimeOf(handle);
      handle := AfterCallbacks(handle, id, callbacks, ledger);
      ledger := l.ledger.Release(runtime);
      DestroyPlayers(handle.media);
      DestroyPlayers(owned);
      ledger := ledger.Release(LegacyOf(handle));
      ok := true;
    }

    static method PlayersOf(media: map<int, int>, id: int) returns (owned: set<int>)
      ensures owned == set m | m in media && media[m] == id
    {
      owned := {};
      var rest := media.Keys;
      while rest != {}
        invariant rest <= media.Keys
        invariant owned == set m | m in media && m !in rest && media[m] == id
        decreases rest
      {
        var m := AnyOf(rest);
        if media[m] == id {
          owned := owned + {m};
        }
        rest := rest - {m};
      }
    }

    static method AfterCallbacks(handle: Handle, id: int, callbacks: seq<HostCall>, ghost ledger: Ledger) returns (h: Handle)
      ensures h == HostSteps(Local(handle, ledger), id, callbacks).h
    {
      h := handle;
      ghost var l := Local(handle, ledger);
      for i := 0 to |callbacks|
        invariant l == HostSteps(Local(handle, ledger), id, callbacks[..i]) && l.h == h
      {
        assert callbacks[..i + 1][..i] == callbacks[..i];
        match callbacks[i] {
          case HostOpen(legacy, media) =>
            h := if h.legacy.None? then h.(legacy := legacy) else h;
            h := if h.legacy.Some? && media.Some? then h.(media := h.media + {media.value}) else h;
          case HostClose(m) =>
            h := h.(media := h.media - {m});
        }
        l := HostStep(l, id, callbacks[i]);
      }
      assert callbacks[..|callbacks|] == callbacks;
    }

    method DestroyPlayers(media: set<int>)
      modifies this`ledger
      ensures ledger == old(ledger).Release(Players(media))
    {
      var rest := media;
      while rest != {}
        invariant rest <= media
        invariant ledger == old(ledger).Release(Players(media - rest))
        decreases rest
      {
        var m := AnyOf(rest);
        assert Players(media - (rest - {m})) == Players(media - rest) + {Media(m)};
        ledger := ledger.Release({Media(m)});
        rest := rest - {m};
      }
      assert media - {} == media;
    }

    /** Calls on a public media handle: whether it is known, and whether the backend was called. */
    method RouteMedia(m: int) returns (known: bool, reached: bool)
      ensures reached <==> m in mediaHandles && mediaHandles[m] in handles
      ensures known <==> m in mediaHandles
    {
      known := m in mediaHandles;
      if !known {
        return known, false;
      }
      var owner := mediaHandles[m];
      reached := owner in handles;
    }
  }
}
