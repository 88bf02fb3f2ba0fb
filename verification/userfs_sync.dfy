/**
 The scheduler that writes user files back to browser storage (scripts/web_export_range_fs.js).
 Its three variables are driven by file changes, a timer, page events and sync completions. The
 file system is a version number, raised by every change.
 */
module UserFsSync {
  import opened Common

  /** `timer` is the number of a new timer, `fails` that `syncfs` throws, `ok` that it completes without an error. */
  datatype Event =
    | Mutation(timer: nat)
    | Timeout(fired: nat, fails: bool)
    | ManualFlush(fails: bool)
    | LifecycleFlush(fails: bool)
    | Completion(timer: nat, ok: bool)

  /**
   `armed` are the timers the browser has not fired or cleared, `inFlight` the syncs it has not
   completed; `started` is the version at the last sync attempt, `stored` the one that has reached
   storage, and `failed` says how the last attempt ended.
   */
  datatype State = State(timer: nat, running: bool, queued: bool,
                         armed: set<nat>, inFlight: nat, version: nat, started: nat, stored: nat, failed: bool) {

    function Flush(fails: bool): State {
      if running then this.(queued := true)
      else if fails then this.(started := version, failed := true)
      else this.(running := true, inFlight := inFlight + 1, started := version)
    }

    function Schedule(id: nat): State { this.(timer := id, armed := armed - {timer} + {id}) }

    function ClearTimer(): State { this.(timer := 0, armed := armed - {timer}) }

    function Completed(id: nat, ok: bool): State
      requires inFlight > 0
    {
      var done := this.(running := false, inFlight := inFlight - 1, stored := if ok then started else stored, failed := !ok);
      if queued then done.(queued := false).Schedule(id) else done
    }

    /** What the browser can do next. A new timer has a number of its own. */
    predicate Enabled(e: Event) {
      match e
      case Mutation(id) => id > 0 && id !in armed
      case Timeout(id, _) => id in armed
      case Completion(id, _) => inFlight > 0 && id > 0 && id !in armed
      case _ => true
    }

    function Apply(e: Event): State
      requires Enabled(e)
    {
      match e
      case Mutation(id) => this.(version := version + 1).Schedule(id)
      case Timeout(id, fails) => this.(timer := 0, armed := armed - {id}).Flush(fails)
      case ManualFlush(fails) => (if timer != 0 then ClearTimer() else this).Flush(fails)
      case LifecycleFlush(fails) => Flush(fails)
      case Completion(id, ok) => Completed(id, ok)
    }
  }

  /** The path with every backslash turned into a slash. */
  function Slashed(path: string): (s: string)
    ensures |s| == |path|
  {
    seq(|path|, i requires 0 <= i < |path| => if path[i] == '\\' then '/' else path[i])
  }

  predicate IsUserFsPath(path: string) { "/userfs/" <= Slashed(path) || path == "/userfs" }

  predicate IsSlash(c: char) { c == '/' || c == '\\' }

  lemma SlashedPrefix(path: string)
    ensures "/userfs/" <= Slashed(path) <==> |path| >= 8 && IsSlash(path[0]) && path[1..7] == "userfs" && IsSlash(path[7])
  {
    var s := Slashed(path);
    if |path| >= 8 {
      assert "/userfs/" <= s <==> s[..8] == "/userfs/";
      assert s[..8] == "/userfs/" <==>
        s[0] == '/' && s[1] == 'u' && s[2] == 's' && s[3] == 'e' && s[4] == 'r' && s[5] == 'f' && s[6] == 's' && s[7] == '/';
      var name := path[1..7];
      assert name == "userfs" <==>
        name[0] == 'u' && name[1] == 's' && name[2] == 'e' && name[3] == 'r' && name[4] == 'f' && name[5] == 's';
    }
  }

  /** Below the directory, with either slash at its ends; the directory itself only as it is spelled here. */
  lemma UserPathIff(path: string)
    ensures IsUserFsPath(path) <==>
              path == "/userfs" || (|path| >= 8 && IsSlash(path[0]) && path[1..7] == "userfs" && IsSlash(path[7]))
  {
    hide Slashed;
    SlashedPrefix(path);
  }

  const IDLE := State(0, false, false, {}, 0, 0, 0, 0, false)

  class UserFs {
    var userFsSyncTimer: nat
    var userFsSyncRunning: bool
    var userFsSyncQueued: bool
    ghost var armed: set<nat>
    ghost var inFlight: nat
    ghost var version: nat
    ghost var started: nat
    ghost var stored: nat
    ghost var failed: bool

    constructor ()
      ensures View() == IDLE
    {
      userFsSyncTimer, userFsSyncRunning, userFsSyncQueued := 0, false, false;
      armed, inFlight, version, started, stored, failed := {}, 0, 0, 0, 0, false;
    }

    ghost function View(): State
      reads this
    {
      State(userFsSyncTimer, userFsSyncRunning, userFsSyncQueued, armed, inFlight, version, started, stored, failed)
    }

    method FlushUserFs(fails: bool)
      modifies this
      ensures View() == old(View()).Flush(fails)
    {
      if userFsSyncRunning {
        userFsSyncQueued := true;
        return;
      }
      userFsSyncRunning := true;
      started := version;
      if fails {
        failed := true;
        userFsSyncRunning := false;
      } else {
        inFlight := inFlight + 1;
      }
    }

    method ScheduleUserFsSync(id: nat)
      requires userFsSyncTimer == 0 ==> 0 !in armed
      modifies this
      ensures View() == old(View()).Schedule(id)
    {
      if userFsSyncTimer != 0 {
        armed := armed - {userFsSyncTimer};
      }
      userFsSyncTimer := id;
      armed := armed + {id};
    }

    /** A wrapped file operation has succeeded on some paths, two for a rename. */
    method OnOperation(paths: seq<string>, id: nat) returns (scheduled: bool)
      requires Inv(View()) && View().Enabled(Mutation(id))
      modifies this
      ensures scheduled <==> exists i :: 0 <= i < |paths| && IsUserFsPath(paths[i])
      ensures View() == if scheduled then old(View()).Apply(Mutation(id)) else old(View())
    {
      scheduled := exists i :: 0 <= i < |paths| && IsUserFsPath(paths[i]);
      if scheduled {
        version := version + 1;
        ScheduleUserFsSync(id);
      }
    }

    method OnTimeout(id: nat, fails: bool)
      requires id in armed
      modifies this
      ensures View() == old(View()).Apply(Timeout(id, fails))
    {
      armed := armed - {id};
      userFsSyncTimer := 0;
      FlushUserFs(fails);
    }

    method OnSynced(id: nat, ok: bool)
      requires Inv(View()) && View().Enabled(Completion(id, ok))
      modifies this
      ensures View() == old(View()).Apply(Completion(id, ok))
    {
      inFlight, stored, failed := inFlight - 1, if ok then started else stored, !ok;
      userFsSyncRunning := false;
      if userFsSyncQueued {
        userFsSyncQueued := false;
        ScheduleUserFsSync(id);
      }
    }

    method AetherKiriSyncUserFs(fails: bool) returns (running: bool)
      modifies this
      ensures View() == old(View()).Apply(ManualFlush(fails))
      ensures running == userFsSyncRunning
    {
      if userFsSyncTimer != 0 {
        armed := armed - {userFsSyncTimer};
        userFsSyncTimer := 0;
      }
      FlushUserFs(fails);
      running := userFsSyncRunning;
    }

    method OnPageHidden(fails: bool)
      modifies this
      ensures View() == old(View()).Apply(LifecycleFlush(fails))
    {
      FlushUserFs(fails);
    }
  }

  // ---------------------------------------------------------------- every interleaving

  predicate Inv(s: State) {
    // one timer and one sync at a time
    && s.armed == (if s.timer == 0 then {} else {s.timer})
    && s.inFlight == (if s.running then 1 else 0)
    && (s.queued ==> s.running)
    // a change since the last attempt has a timer, or a flush queued behind the running sync
    && s.stored <= s.started <= s.version
    && (s.started < s.version ==> s.timer != 0 || (s.running && s.queued))
    // the last attempt has reached storage, unless it is under way or failed
    && (!s.running && !s.failed ==> s.stored == s.started)
  }

  lemma ApplyKeepsInv(s: State, e: Event)
    requires Inv(s) && s.Enabled(e)
    ensures Inv(s.Apply(e))
  {
  }

  predicate Legal(s: State, events: seq<Event>)
    decreases |events|
  {
    events == [] || (s.Enabled(events[0]) && Legal(s.Apply(events[0]), events[1..]))
  }

  function Run(s: State, events: seq<Event>): State
    requires Legal(s, events)
    decreases |events|
  {
    if events == [] then s else Run(s.Apply(events[0]), events[1..])
  }

  lemma {:induction false} RunKeepsInv(s: State, events: seq<Event>)
    requires Inv(s) && Legal(s, events)
    ensures Inv(Run(s, events))
    decreases |events|
  {
    if events != [] {
      ApplyKeepsInv(s, events[0]);
      RunKeepsInv(s.Apply(events[0]), events[1..]);
    }
  }

  predicate AtRest(s: State) { s.timer == 0 && !s.running }

  /**
   In every interleaving at most one sync runs and at most one timer is armed, a flush is queued
   only behind a running sync, and a change made since the last attempt will be picked up.
   */
  lemma NoUpdateIsForgotten(events: seq<Event>)
    requires Legal(IDLE, events)
    ensures
      var s := Run(IDLE, events);
      s.inFlight <= 1 && |s.armed| <= 1 && (s.queued ==> s.running) &&
      (s.started < s.version ==> s.timer in s.armed || (s.running && s.queued))
  {
    RunKeepsInv(IDLE, events);
  }

  /** When the scheduler comes to rest, the last attempt was made after the last change; if it did not fail, everything is stored. */
  lemma RestMeansStored(events: seq<Event>)
    requires Legal(IDLE, events) && AtRest(Run(IDLE, events))
    ensures
      var s := Run(IDLE, events);
      s.started == s.version && (s.stored == s.version <== !s.failed)
  {
    RunKeepsInv(IDLE, events);
  }

  /** Some sync that was started at version `v` has completed without an error. */
  predicate Landed(s: State, events: seq<Event>, v: nat)
    requires Legal(s, events)
    decreases |events|
  {
    events != [] &&
    ((events[0].Completion? && events[0].ok && s.started == v) || Landed(s.Apply(events[0]), events[1..], v))
  }

  /** Exactly what is in storage: the latest version, if and only if it was there or a sync of it has come through. */
  lemma {:induction false} StoredIffLanded(s: State, events: seq<Event>)
    requires Inv(s) && Legal(s, events)
    ensures
      var v := Run(s, events).version;
      v >= s.version && (Run(s, events).stored == v <==> s.stored == v || Landed(s, events, v))
    decreases |events|
  {
    if events != [] {
      ApplyKeepsInv(s, events[0]);
      StoredIffLanded(s.Apply(events[0]), events[1..]);
    }
  }

  /** A change arms a timer of its own in place of the last one, and starts nothing. */
  lemma ChangeOutcome(s: State, id: nat)
    requires Inv(s) && s.Enabled(Mutation(id))
    ensures s.Apply(Mutation(id)) == s.(version := s.version + 1, timer := id, armed := {id})
  {
  }

  /**
   A timer that fires, a manual flush and a page event attempt a sync, or queue one behind the sync that
   runs; a page event leaves the timer.
   */
  lemma AttemptOutcome(s: State, e: Event)
    requires Inv(s) && s.Enabled(e) && (e.Timeout? || e.ManualFlush? || e.LifecycleFlush?)
    ensures var s' := s.Apply(e);
            s'.timer == (if e.LifecycleFlush? then s.timer else 0) && s'.version == s.version && s'.stored == s.stored &&
            s'.running == (s.running || !e.fails) && s'.queued == s.running &&
            s'.started == (if s.running then s.started else s.version) &&
            s'.failed == (if s.running then s.failed else e.fails || s.failed)
  {
  }

  predicate Fails(e: Event) {
    match e
    case Mutation(_) => false
    case Timeout(_, fails) => fails
    case ManualFlush(fails) => fails
    case LifecycleFlush(fails) => fails
    case Completion(_, ok) => !ok
  }

  /**
   Whether anything is left to happen after a sync that failed: after a completion, failed or not, exactly
   if a flush was queued or a timer armed, after a throw only if another sync was running already.
   A manual flush has cleared the timer, a timeout has used it up; a page event leaves it.
   */
  lemma RetriedIff(s: State, e: Event)
    requires Inv(s) && s.Enabled(e) && (Fails(e) || e.Completion?)
    ensures !AtRest(s.Apply(e)) <==>
              if e.Completion? then s.queued || s.timer != 0
              else s.running || (e.LifecycleFlush? && s.timer != 0)
  {
  }

  lemma {:induction false} NothingFailed(s: State, events: seq<Event>)
    requires !s.failed && Legal(s, events) && (forall i | 0 <= i < |events| :: !Fails(events[i]))
    ensures !Run(s, events).failed
    decreases |events|
  {
    if events != [] {
      NothingFailed(s.Apply(events[0]), events[1..]);
    }
  }

  /** With no failing sync, whatever the interleaving, everything written is in storage when the scheduler is at rest. */
  lemma NoUpdateIsLost(events: seq<Event>)
    requires Legal(IDLE, events) && AtRest(Run(IDLE, events)) && (forall i | 0 <= i < |events| :: !Fails(events[i]))
    ensures Run(IDLE, events).stored == Run(IDLE, events).version
  {
    NothingFailed(IDLE, events);
    RestMeansStored(events);
  }

  /** Both ways a failure can end: with the change not stored, and with nothing lost after all. */
  lemma FailureIsNotRetried()
    ensures
      var lost := [Mutation(1), Timeout(1, false), Completion(2, false)];
      Legal(IDLE, lost) && AtRest(Run(IDLE, lost)) && Run(IDLE, lost).stored < Run(IDLE, lost).version
    ensures
      var kept := [Mutation(1), Timeout(1, false), Completion(2, true), ManualFlush(true)];
      Legal(IDLE, kept) && AtRest(Run(IDLE, kept)) && Run(IDLE, kept).failed && Run(IDLE, kept).stored == Run(IDLE, kept).version
  {
    var s2 := IDLE.Apply(Mutation(1)).Apply(Timeout(1, false));
    One(s2.Apply(Completion(2, true)), ManualFlush(true));
    One(s2, Completion(2, false));
    More(s2, Completion(2, true), [ManualFlush(true)]);
    More(IDLE.Apply(Mutation(1)), Timeout(1, false), [Completion(2, true), ManualFlush(true)]);
    More(IDLE.Apply(Mutation(1)), Timeout(1, false), [Completion(2, false)]);
    More(IDLE, Mutation(1), [Timeout(1, false), Completion(2, true), ManualFlush(true)]);
    More(IDLE, Mutation(1), [Timeout(1, false), Completion(2, false)]);
    assert [Mutation(1)] + ([Timeout(1, false)] + ([Completion(2, true)] + [ManualFlush(true)]))
        == [Mutation(1), Timeout(1, false), Completion(2, true), ManualFlush(true)];
  }

  lemma One(s: State, e: Event)
    requires s.Enabled(e)
    ensures Legal(s, [e]) && Run(s, [e]) == s.Apply(e)
  {
    assert [e][1..] == [];
  }

  lemma More(s: State, e: Event, rest: seq<Event>)
    requires s.Enabled(e) && Legal(s.Apply(e), rest)
    ensures Legal(s, [e] + rest) && Run(s, [e] + rest) == Run(s.Apply(e), rest)
  {
    assert ([e] + rest)[1..] == rest;
  }

  // ---------------------------------------------------------------- coming to rest

  predicate Callback(e: Event) { e.Timeout? || e.Completion? }

  /** How many callbacks can still come if nothing new happens. */
  function Remaining(s: State): nat {
    if s.running then (if s.timer != 0 then 4 else if s.queued then 3 else 1)
    else if s.timer != 0 then 2 else 0
  }

  lemma CallbackMakesProgress(s: State, e: Event)
    requires Inv(s) && s.Enabled(e) && Callback(e)
    ensures Remaining(s.Apply(e)) < Remaining(s)
  {
  }

  /** Short of rest, the browser always has a timer to fire or a sync to complete. */
  lemma NotStuck(s: State)
    requires Inv(s) && !AtRest(s)
    ensures exists e :: Callback(e) && s.Enabled(e)
  {
    if s.running {
      assert s.Enabled(Completion(s.timer + 1, true));
    } else {
      assert s.Enabled(Timeout(s.timer, false));
    }
  }

  /** Once changes and flushes stop, at most four callbacks are left, however they interleave; when none is, the scheduler is at rest. */
  lemma {:induction false} ComesToRest(s: State, events: seq<Event>)
    requires Inv(s) && Legal(s, events) && (forall i | 0 <= i < |events| :: Callback(events[i]))
    ensures |events| <= Remaining(s) <= 4
    ensures (forall e :: Callback(e) ==> !Run(s, events).Enabled(e)) ==> AtRest(Run(s, events))
    decreases |events|
  {
    if events == [] {
      if !AtRest(s) {
        NotStuck(s);
      }
    } else {
      ApplyKeepsInv(s, events[0]);
      CallbackMakesProgress(s, events[0]);
      ComesToRest(s.Apply(events[0]), events[1..]);
    }
  }
}
