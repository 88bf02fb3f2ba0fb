/**
 Whole runs of the ONScripter host queue: what is delivered, in what order, and with the
 cursor where it was when the event was pushed.
 */
module OnscripterQueueRuns {
  import opened Common
  import opened OnscripterEvents

  // ---------------------------------------------------------------- bookkeeping

  /** `a` is `b` with some elements left out. */
  predicate Sub<T(==)>(a: seq<T>, b: seq<T>)
    decreases |b|
  {
    if a == [] then true
    else if b == [] then false
    else (a[0] == b[0] && Sub(a[1..], b[1..])) || Sub(a, b[1..])
  }

  /** Of `all` items, those in `taken` left out of turn and the `rest` keeps its order. */
  predicate Accounts<T(==)>(rest: seq<T>, taken: seq<T>, all: seq<T>) {
    Sub(rest, all) && multiset(rest) + multiset(taken) == multiset(all) && (taken == [] ==> rest == all)
  }

  lemma {:induction false} SubAppend<T>(a: seq<T>, b: seq<T>, x: T)
    requires Sub(a, b)
    ensures Sub(a + [x], b + [x])
    decreases |b|
  {
    if b == [] {
      assert a + [x] == [x] && b + [x] == [x];
    } else {
      assert (b + [x])[1..] == b[1..] + [x];
      if a != [] && a[0] == b[0] && Sub(a[1..], b[1..]) {
        SubAppend(a[1..], b[1..], x);
        assert (a + [x])[1..] == a[1..] + [x];
      } else {
        SubAppend(a, b[1..], x);
      }
    }
  }

  lemma {:induction false} SubRemove<T>(a: seq<T>, b: seq<T>, k: nat)
    requires Sub(a, b) && k < |a|
    ensures Sub(a[..k] + a[k + 1..], b)
    decreases |b|
  {
    var less := a[..k] + a[k + 1..];
    if a[0] == b[0] && Sub(a[1..], b[1..]) {
      if k == 0 {
        assert less == a[1..];
        SubDrop(a[1..], b);
      } else {
        SubRemove(a[1..], b[1..], k - 1);
        assert less[1..] == a[1..][..k - 1] + a[1..][k..];
      }
    } else {
      SubRemove(a, b[1..], k);
      SubDrop(less, b);
    }
  }

  lemma SubDrop<T>(a: seq<T>, b: seq<T>)
    requires b != [] && Sub(a, b[1..])
    ensures Sub(a, b)
  {
  }

  lemma AccountsForPush<T>(rest: seq<T>, taken: seq<T>, all: seq<T>, x: T)
    requires Accounts(rest, taken, all)
    ensures Accounts(rest + [x], taken, all + [x])
  {
    SubAppend(rest, all, x);
  }

  lemma AccountsForTake<T>(rest: seq<T>, taken: seq<T>, all: seq<T>, k: nat)
    requires Accounts(rest, taken, all) && k < |rest|
    ensures Accounts(rest[..k] + rest[k + 1..], taken + [rest[k]], all)
  {
    SubRemove(rest, all, k);
    assert rest == (rest[..k] + [rest[k]]) + rest[k + 1..];
  }

  // ---------------------------------------------------------------- runs

  datatype Op = Push(event: HostEvent) | Pop | PopRelease

  /**
   The queue, the cursor position last delivered by `PopHostEvent`, and the history: all
   events pushed, the non-motion events delivered in turn and released out of turn, and
   whether a push evicted anything or lost an event that is not a motion.
   */
  datatype Bridge = Bridge(q: seq<HostEvent>, cursor: Pos, pushed: seq<HostEvent>,
                           delivered: seq<Sight>, released: seq<Sight>, evicted: bool, lost: bool) {
    function Apply(op: Op): Bridge {
      match op
      case Push(e) => Bridge(Pushed(q, e), cursor, pushed + [e], delivered, released, evicted || Evicts(q, e), lost || Loses(q, e))
      case Pop =>
        if q == [] then this
        else if q[0].Motion? then this.(q := q[1..], cursor := q[0].at)
        else this.(q := q[1..], delivered := delivered + [(q[0], cursor)])
      case PopRelease =>
        if !HasRelease(q) then this
        else this.(q := WithoutFirstRelease(q), released := released + [(FirstRelease(q), ReleaseCursor(cursor, q))])
    }
  }

  function Start(at: Pos): Bridge { Bridge([], at, [], [], [], false, false) }

  function Run(at: Pos, ops: seq<Op>): Bridge
    decreases |ops|
  {
    if ops == [] then Start(at) else Run(at, ops[..|ops| - 1]).Apply(ops[|ops| - 1])
  }

  function Events(sights: seq<Sight>): (events: seq<HostEvent>)
    ensures |events| == |sights|
  {
    seq(|sights|, i requires 0 <= i < |sights| => sights[i].0)
  }

  lemma EventsOneMore(sights: seq<Sight>, s: Sight)
    ensures Events(sights + [s]) == Events(sights) + [s.0]
  {
  }

  lemma SolidOne(e: HostEvent, q: seq<HostEvent>)
    ensures Solid(q) + Solid([e]) == if e.Motion? then Solid(q) else Solid(q) + [e]
  {
    assert [e] + [] == [e];
  }

  /** Nothing was evicted: the run is one of an unbounded queue that merges nothing. */
  predicate Faithful(b: Bridge, at: Pos) {
    Watch(b.cursor, b.q).cursor == Watch(at, b.pushed).cursor &&
    Accounts(b.delivered + Watch(b.cursor, b.q).sights, b.released, Watch(at, b.pushed).sights)
  }

  /** Only motions were evicted: every other event is delivered, released or waiting, in order. */
  predicate Complete(b: Bridge) {
    Accounts(Events(b.delivered) + Solid(b.q), Events(b.released), Solid(b.pushed))
  }

  predicate Inv(b: Bridge, at: Pos) {
    |b.q| <= 256 && (!b.evicted ==> Faithful(b, at)) && (!b.lost ==> Complete(b))
  }

  lemma PushIsFaithful(b: Bridge, at: Pos, e: HostEvent)
    requires Faithful(b, at) && !Evicts(b.q, e)
    ensures Faithful(b.Apply(Push(e)), at)
  {
    var w := Watch(b.cursor, b.q);
    WatchPushed(b.cursor, b.q, e);
    WatchPush(at, b.pushed, e);
    hide Watch, Accounts, Pushed, Evicts, Loses, Merges;
    if !e.Motion? {
      AccountsForPush(b.delivered + w.sights, b.released, Watch(at, b.pushed).sights, (e, w.cursor));
      Regroup(b.delivered, w.sights, [(e, w.cursor)]);
    }
  }

  lemma PushIsComplete(b: Bridge, e: HostEvent)
    requires |b.q| <= 256 && Complete(b) && !Loses(b.q, e)
    ensures Complete(b.Apply(Push(e)))
  {
    hide Solid, Accounts, Pushed, Loses, Events;
    LosesIffFull(b.q, e);
    SolidOfConcat(b.pushed, [e]);
    SolidOne(e, b.q);
    SolidOne(e, b.pushed);
    if !e.Motion? {
      AccountsForPush(Events(b.delivered) + Solid(b.q), Events(b.released), Solid(b.pushed), e);
      Regroup(Events(b.delivered), Solid(b.q), [e]);
    }
  }

  lemma PopIsFaithful(b: Bridge, at: Pos)
    requires Faithful(b, at)
    ensures Faithful(b.Apply(Pop), at)
  {
    hide Watch, Accounts;
    if b.q != [] {
      WatchPop(b.cursor, b.q);
      if !b.q[0].Motion? {
        Regroup(b.delivered, [(b.q[0], b.cursor)], Watch(b.cursor, b.q[1..]).sights);
      }
    }
  }

  lemma PopIsComplete(b: Bridge)
    requires Complete(b)
    ensures Complete(b.Apply(Pop))
  {
    hide Solid, Accounts, Events;
    if b.q != [] {
      SolidPop(b.q);
      EventsOneMore(b.delivered, (b.q[0], b.cursor));
      Regroup(Events(b.delivered), [b.q[0]], Solid(b.q[1..]));
    }
  }

  lemma SolidPop(q: seq<HostEvent>)
    requires q != []
    ensures Solid(q) == if q[0].Motion? then Solid(q[1..]) else [q[0]] + Solid(q[1..])
  {
  }

  lemma ReleaseIsFaithful(b: Bridge, at: Pos)
    requires Faithful(b, at)
    ensures Faithful(b.Apply(PopRelease), at)
  {
    hide Watch, Accounts;
    if HasRelease(b.q) {
      var w := Watch(b.cursor, b.q).sights;
      var k := WatchRelease(b.cursor, b.q);
      AccountsForTake(b.delivered + w, b.released, Watch(at, b.pushed).sights, |b.delivered| + k);
      CutBehind(b.delivered, w, k);
    }
  }

  lemma ReleaseUnfolds(q: seq<HostEvent>)
    requires HasRelease(q)
    ensures q[0].KeyRelease? ==> FirstRelease(q) == q[0] && WithoutFirstRelease(q) == q[1..]
    ensures !q[0].KeyRelease? ==> HasRelease(q[1..]) && FirstRelease(q) == FirstRelease(q[1..]) &&
                                  WithoutFirstRelease(q) == [q[0]] + WithoutFirstRelease(q[1..])
  {
  }

  lemma {:induction false} SolidRelease(q: seq<HostEvent>) returns (k: nat)
    requires HasRelease(q)
    ensures k < |Solid(q)| && Solid(q)[k] == FirstRelease(q)
    ensures Solid(WithoutFirstRelease(q)) == Solid(q)[..k] + Solid(q)[k + 1..]
    decreases |q|
  {
    hide Solid, WithoutFirstRelease, FirstRelease;
    SolidPop(q);
    ReleaseUnfolds(q);
    if q[0].KeyRelease? {
      k := 0;
      assert Solid(q)[..0] + Solid(q)[1..] == Solid(q[1..]);
    } else {
      SolidHead(q[0], WithoutFirstRelease(q[1..]));
      k := SolidRelease(q[1..]);
      if !q[0].Motion? {
        CutBehind([q[0]], Solid(q[1..]), k);
        k := k + 1;
      }
    }
  }

  lemma SolidHead(e: HostEvent, rest: seq<HostEvent>)
    ensures Solid([e] + rest) == if e.Motion? then Solid(rest) else [e] + Solid(rest)
  {
    assert ([e] + rest)[1..] == rest;
  }

  lemma ReleaseIsComplete(b: Bridge)
    requires Complete(b)
    ensures Complete(b.Apply(PopRelease))
  {
    hide Solid, Accounts, Events, WithoutFirstRelease, FirstRelease, ReleaseCursor;
    if HasRelease(b.q) {
      var s := (FirstRelease(b.q), ReleaseCursor(b.cursor, b.q));
      SolidReleaseAccounts(Events(b.delivered), Events(b.released), b.q, Solid(b.pushed));
      EventsOneMore(b.released, s);
    }
  }

  lemma SolidReleaseAccounts(out: seq<HostEvent>, taken: seq<HostEvent>, q: seq<HostEvent>, all: seq<HostEvent>)
    requires HasRelease(q) && Accounts(out + Solid(q), taken, all)
    ensures Accounts(out + Solid(WithoutFirstRelease(q)), taken + [FirstRelease(q)], all)
  {
    hide Solid, Accounts, WithoutFirstRelease, FirstRelease;
    var k := SolidRelease(q);
    AccountsForTake(out + Solid(q), taken, all, |out| + k);
    CutBehind(out, Solid(q), k);
  }

  lemma CutBehind<T>(a: seq<T>, b: seq<T>, k: nat)
    requires k < |b|
    ensures (a + b)[..|a| + k] + (a + b)[|a| + k + 1..] == a + (b[..k] + b[k + 1..])
    ensures (a + b)[|a| + k] == b[k]
  {
  }

  lemma {:induction false} ReleaseShortens(q: seq<HostEvent>)
    requires HasRelease(q)
    ensures |WithoutFirstRelease(q)| == |q| - 1
    decreases |q|
  {
    if !q[0].KeyRelease? {
      ReleaseShortens(q[1..]);
    }
  }

  lemma PushKeepsInv(b: Bridge, at: Pos, e: HostEvent)
    requires Inv(b, at)
    ensures Inv(b.Apply(Push(e)), at)
  {
    hide Faithful, Complete, Pushed, Loses, Evicts, Solid;
    LosesIffFull(b.q, e);
    if !b.evicted && !Evicts(b.q, e) {
      PushIsFaithful(b, at, e);
    }
    if !b.lost && !Loses(b.q, e) {
      PushIsComplete(b, e);
    }
  }

  lemma PopKeepsInv(b: Bridge, at: Pos)
    requires Inv(b, at)
    ensures Inv(b.Apply(Pop), at)
  {
    hide Faithful, Complete;
    if !b.evicted {
      PopIsFaithful(b, at);
    }
    if !b.lost {
      PopIsComplete(b);
    }
  }

  lemma ReleaseKeepsInv(b: Bridge, at: Pos)
    requires Inv(b, at)
    ensures Inv(b.Apply(PopRelease), at)
  {
    hide Faithful, Complete, WithoutFirstRelease, FirstRelease, ReleaseCursor;
    if HasRelease(b.q) {
      ReleaseShortens(b.q);
    }
    if !b.evicted {
      ReleaseIsFaithful(b, at);
    }
    if !b.lost {
      ReleaseIsComplete(b);
    }
  }

  lemma ApplyKeepsInv(b: Bridge, at: Pos, op: Op)
    requires Inv(b, at)
    ensures Inv(b.Apply(op), at)
  {
    hide *;
    match op
    case Push(e) => PushKeepsInv(b, at, e);
    case Pop => PopKeepsInv(b, at);
    case PopRelease => ReleaseKeepsInv(b, at);
  }

  lemma {:induction false} RunKeepsInv(at: Pos, ops: seq<Op>)
    ensures Inv(Run(at, ops), at)
    decreases |ops|
  {
    if ops == [] {
      assert [] + Watch(at, []).sights == [];
      assert Events([]) + Solid([]) == [];
    } else {
      RunKeepsInv(at, ops[..|ops| - 1]);
      ApplyKeepsInv(Run(at, ops[..|ops| - 1]), at, ops[|ops| - 1]);
    }
  }

  /**
   Without evictions, what has been and will be delivered, cursor positions included, is a
   part, in order, of what an unbounded queue without merging would deliver; and it is all of
   it but the key releases taken out of turn.
   */
  lemma MergingIsInvisible(at: Pos, ops: seq<Op>)
    requires !Run(at, ops).evicted
    ensures var b, ideal := Run(at, ops), Watch(at, Run(at, ops).pushed).sights;
            var seen := b.delivered + Watch(b.cursor, b.q).sights;
            Sub(seen, ideal) && multiset(seen) + multiset(b.released) == multiset(ideal) &&
            (b.released == [] ==> seen == ideal)
  {
    RunKeepsInv(at, ops);
  }

  /** While fewer than 256 events other than motions wait at each push, none of them is ever lost. */
  lemma {:induction false} NothingLost(at: Pos, ops: seq<Op>)
    requires forall n | 0 <= n < |ops| && ops[n].Push? :: |Solid(Run(at, ops[..n]).q)| < 256
    ensures !Run(at, ops).lost && Complete(Run(at, ops))
    decreases |ops|
  {
    if ops != [] {
      var before := ops[..|ops| - 1];
      forall n | 0 <= n < |before| && before[n].Push? ensures |Solid(Run(at, before[..n]).q)| < 256 {
        assert before[..n] == ops[..n];
      }
      NothingLost(at, before);
      RunKeepsInv(at, before);
      var last := ops[|ops| - 1];
      if last.Push? {
        LosesIffFull(Run(at, before).q, last.event);
      }
    }
    RunKeepsInv(at, ops);
  }
}
