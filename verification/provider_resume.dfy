/**
 Pausing and resuming a runtime provider (abi/src/engine_api_dispatch.cpp). A resume that arrives
 while the host's audio session cannot be activated is put off to a later tick. What the audio
 session and the provider answer is part of each call.
 */
module ProviderResume {
  import opened Common

  type Code = int
  const OK: Code := 0
  const NOT_SUPPORTED: Code := -3

  /** Which optional entry points the provider implements. */
  datatype Provider = Provider(hasPause: bool, hasResume: bool)

  datatype Call =
    | Tick(audioReady: bool, resumeAnswer: Code, tickAnswer: Code)
    | Pause(pauseAnswer: Code)
    | Resume(audioReady: bool, resumeAnswer: Code)

  /** What a call answers to the host, what the provider's resume answered if it was called, and whether the provider ticked. */
  datatype Event = Event(call: Call, result: Code, resumed: Option<Code>, ticked: bool)

  datatype State = State(pending: bool, log: seq<Event>) {

    function Say(pending: bool, e: Event): State { State(pending, log + [e]) }

    function Apply(p: Provider, c: Call): State {
      match c
      case Tick(audioReady, resumeAnswer, tickAnswer) =>
        if !pending then Say(false, Event(c, tickAnswer, None, true))
        else if !audioReady then Say(true, Event(c, OK, None, false))
        else if !p.hasResume then Say(true, Event(c, NOT_SUPPORTED, None, false))
        else if resumeAnswer != OK then Say(true, Event(c, resumeAnswer, Some(resumeAnswer), false))
        else Say(false, Event(c, tickAnswer, Some(OK), true))
      case Pause(pauseAnswer) =>
        Say(false, Event(c, if p.hasPause then pauseAnswer else NOT_SUPPORTED, None, false))
      case Resume(audioReady, resumeAnswer) =>
        if !p.hasResume then Say(pending, Event(c, NOT_SUPPORTED, None, false))
        else if !audioReady then Say(true, Event(c, OK, None, false))
        else Say(pending && resumeAnswer != OK, Event(c, resumeAnswer, Some(resumeAnswer), false))
    }
  }

  class DispatchHandle {
    const provider: Provider
    var providerResumePending: bool
    ghost var log: seq<Event>

    constructor (provider: Provider)
      ensures this.provider == provider && View() == State(false, [])
    {
      this.provider, providerResumePending, log := provider, false, [];
    }

    ghost function View(): State
      reads this
    {
      State(providerResumePending, log)
    }

    method EngineTick(audioReady: bool, resumeAnswer: Code, tickAnswer: Code) returns (result: Code)
      modifies this
      ensures View() == old(View()).Apply(provider, Tick(audioReady, resumeAnswer, tickAnswer))
      ensures result == log[|log| - 1].result
    {
      ghost var call := Tick(audioReady, resumeAnswer, tickAnswer);
      ghost var resumed: Option<Code> := None;
      if providerResumePending {
        if !audioReady {
          log := log + [Event(call, OK, None, false)];
          return OK;
        }
        if !provider.hasResume {
          log := log + [Event(call, NOT_SUPPORTED, None, false)];
          return NOT_SUPPORTED;
        }
        resumed := Some(resumeAnswer);
        if resumeAnswer != OK {
          log := log + [Event(call, resumeAnswer, resumed, false)];
          return resumeAnswer;
        }
        providerResumePending := false;
      }
      result := tickAnswer;
      log := log + [Event(call, result, resumed, true)];
    }

    method EnginePause(pauseAnswer: Code) returns (result: Code)
      modifies this
      ensures View() == old(View()).Apply(provider, Pause(pauseAnswer))
      ensures result == log[|log| - 1].result
    {
      providerResumePending := false;
      result := if provider.hasPause then pauseAnswer else NOT_SUPPORTED;
      log := log + [Event(Pause(pauseAnswer), result, None, false)];
    }

    method EngineResume(audioReady: bool, resumeAnswer: Code) returns (result: Code)
      modifies this
      ensures View() == old(View()).Apply(provider, Resume(audioReady, resumeAnswer))
      ensures result == log[|log| - 1].result
    {
      ghost var call := Resume(audioReady, resumeAnswer);
      if !provider.hasResume {
        log := log + [Event(call, NOT_SUPPORTED, None, false)];
        return NOT_SUPPORTED;
      }
      if !audioReady {
        providerResumePending := true;
        log := log + [Event(call, OK, None, false)];
        return OK;
      }
      result := resumeAnswer;
      if result == OK {
        providerResumePending := false;
      }
      log := log + [Event(call, result, Some(result), false)];
    }
  }

  // ---------------------------------------------------------------- runs

  function Run(p: Provider, calls: seq<Call>): (s: State)
    ensures |s.log| == |calls|
    decreases |calls|
  {
    if calls == [] then State(false, []) else Run(p, calls[..|calls| - 1]).Apply(p, calls[|calls| - 1])
  }

  /** A host resume that was answered with success without the provider having been resumed. */
  predicate Deferred(e: Event) { e.call.Resume? && e.result == OK && e.resumed.None? }

  /** The provider has been resumed, or the host has paused. */
  predicate Settles(e: Event) { e.resumed == Some(OK) || e.call.Pause? }

  predicate SettledAfter(log: seq<Event>, i: nat) { exists k | i < k < |log| :: Settles(log[k]) }

  /** Some deferred resume has been neither made up for nor paused away. */
  predicate Waiting(log: seq<Event>) { exists i | 0 <= i < |log| :: Deferred(log[i]) && !SettledAfter(log, i) }

  lemma WaitingStep(log: seq<Event>, e: Event)
    ensures Waiting(log + [e]) <==> Deferred(e) || (Waiting(log) && !Settles(e))
  {
    var log' := log + [e];
    if Deferred(e) {
      assert log'[|log|] == e && !SettledAfter(log', |log|);
    } else if Waiting(log) && !Settles(e) {
      var i :| 0 <= i < |log| && Deferred(log[i]) && !SettledAfter(log, i);
      assert log'[i] == log[i] && !SettledAfter(log', i);
    }
    if Waiting(log') && !Deferred(e) {
      var i :| 0 <= i < |log'| && Deferred(log'[i]) && !SettledAfter(log', i);
      assert log'[|log|] == e && log'[i] == log[i];
      forall k | i < k < |log| ensures !Settles(log[k]) {
        assert log'[k] == log[k];
      }
    }
  }

  /** In every run the flag is set exactly while a deferred resume is waiting. */
  lemma {:induction false} PendingIsWaiting(p: Provider, calls: seq<Call>)
    ensures Run(p, calls).pending <==> Waiting(Run(p, calls).log)
    decreases |calls|
  {
    if calls != [] {
      var s := Run(p, calls[..|calls| - 1]);
      PendingIsWaiting(p, calls[..|calls| - 1]);
      var s' := s.Apply(p, calls[|calls| - 1]);
      WaitingStep(s.log, s'.log[|s.log|]);
      assert s'.log == s.log + [s'.log[|s.log|]];
    }
  }

  /** The log of a run begins with the logs of its prefixes. */
  lemma {:induction false} LogGrows(p: Provider, calls: seq<Call>, k: nat)
    requires k <= |calls|
    ensures Run(p, calls[..k]).log == Run(p, calls).log[..k]
    decreases |calls|
  {
    if k == |calls| {
      assert calls[..k] == calls;
    } else {
      LogGrows(p, calls[..|calls| - 1], k);
      assert calls[..|calls| - 1][..k] == calls[..k];
    }
  }

  lemma EventOf(p: Provider, calls: seq<Call>, j: nat)
    requires j < |calls|
    ensures Run(p, calls).log[j] == Run(p, calls[..j]).Apply(p, calls[j]).log[j]
  {
    LogGrows(p, calls, j + 1);
    assert calls[..j + 1][..j] == calls[..j];
  }

  lemma CallIsLogged(p: Provider, calls: seq<Call>, j: nat)
    requires j < |calls|
    ensures Run(p, calls).log[j].call == calls[j]
  {
    EventOf(p, calls, j);
  }

  /**
   What every entry of a run says, the codes being 0 for success and -3 for a provider that cannot: a call that
   reaches the provider is answered with the provider's answer, one that is put off with success.
   */
  lemma EntryMeaning(p: Provider, calls: seq<Call>, j: nat)
    requires j < |calls|
    ensures
      var e := Run(p, calls).log[j];
      e.call == calls[j] &&
      match calls[j]
      case Tick(audioReady, resumeAnswer, tickAnswer) =>
        (e.resumed.Some? ==> e.resumed.value == resumeAnswer) &&
        e.result == (if e.ticked then tickAnswer else if !audioReady then 0 else if !p.hasResume then -3 else resumeAnswer)
      case Pause(pauseAnswer) =>
        !e.ticked && e.resumed == None && e.result == (if p.hasPause then pauseAnswer else -3)
      case Resume(audioReady, resumeAnswer) =>
        !e.ticked && e.resumed == (if p.hasResume && audioReady then Some(resumeAnswer) else None) &&
        e.result == (if !p.hasResume then -3 else if !audioReady then 0 else resumeAnswer)
  {
    EventOf(p, calls, j);
  }

  /**
   After a host resume was answered with success, the provider does not tick until one of its own
   resumes has succeeded, unless the host pauses in between.
   */
  lemma NoTickBeforeResume(p: Provider, calls: seq<Call>, i: nat, j: nat)
    requires i < j < |calls|
    requires calls[i].Resume? && Run(p, calls).log[i].result == OK
    requires Run(p, calls).log[j].ticked
    requires forall k | i < k < j :: !calls[k].Pause?
    ensures exists k | i <= k <= j :: Run(p, calls).log[k].resumed == Some(OK)
  {
    var log := Run(p, calls).log;
    EventOf(p, calls, i);
    EventOf(p, calls, j);
    if log[i].resumed.None? && log[j].resumed != Some(OK) {
      PendingIsWaiting(p, calls[..j]);
      LogGrows(p, calls, j);
      assert !Waiting(log[..j]) && Deferred(log[..j][i]);
      var k :| i < k < j && Settles(log[..j][k]);
      EventOf(p, calls, k);
      assert log[k].resumed == Some(OK);
    }
  }

  /** A tick calls the provider's resume exactly if a deferred resume is waiting and can now go ahead. */
  lemma TickResumesIffWaiting(p: Provider, calls: seq<Call>, j: nat)
    requires j < |calls| && calls[j].Tick?
    ensures
      var log := Run(p, calls).log;
      (log[j].resumed.Some? <==> Waiting(log[..j]) && calls[j].audioReady && p.hasResume) &&
      (log[j].ticked <==> !Waiting(log[..j]) || log[j].resumed == Some(OK))
  {
    EventOf(p, calls, j);
    PendingIsWaiting(p, calls[..j]);
    LogGrows(p, calls, j);
  }

  /** A pause cancels a deferred resume: with no new host resume, later ticks go straight to the provider. */
  lemma PauseCancels(p: Provider, calls: seq<Call>, i: nat, j: nat)
    requires i < j < |calls| && calls[i].Pause? && calls[j].Tick?
    requires forall k | i < k < j :: !calls[k].Resume?
    ensures Run(p, calls).log[j].ticked && Run(p, calls).log[j].resumed == None
  {
    hide Run, State.Apply;
    var log := Run(p, calls).log;
    TickResumesIffWaiting(p, calls, j);
    CallIsLogged(p, calls, i);
    assert Settles(log[..j][i]);
    if Waiting(log[..j]) {
      var d :| 0 <= d < j && Deferred(log[..j][d]) && !SettledAfter(log[..j], d);
      CallIsLogged(p, calls, d);
    }
  }
}
