/**
 The ledger behind time-limited access (bridge/godot_extension/src/apple_storekit.swift,
 `performCoffeeEntitlementCheck` and `recordCoffeeGrant`): it merges what the store reports,
 remembers the latest time ever observed, and never lets expired access come back by itself.
 The store's answers and the wall clock are parameters.
 */
module CoffeeLedger {
  import opened Common
  import opened CoffeeAccess

  predicate Unique(grants: seq<Grant>) {
    forall i, j | 0 <= i < j < |grants| :: grants[i].id != grants[j].id
  }

  /** The grants as a dictionary from transaction id. */
  function ById(grants: seq<Grant>): map<string, Grant> {
    if grants == [] then map[] else Overlay(map[], grants)
  }

  /** Assigns the grants one after the other under their ids. */
  function Overlay(book: map<string, Grant>, grants: seq<Grant>): map<string, Grant>
    decreases |grants|
  {
    if grants == [] then book else Overlay(book, grants[..|grants| - 1])[grants[|grants| - 1].id := grants[|grants| - 1]]
  }

  /** What the ledger holds after a report of revoked and verified transactions. */
  function Merged(book: map<string, Grant>, revoked: set<string>, verified: seq<Grant>): map<string, Grant> {
    Overlay(book - revoked, verified)
  }

  // ---------------------------------------------------------------- lists and dictionaries

  predicate WellKeyed(book: map<string, Grant>) { forall id <- book :: book[id].id == id }

  lemma {:induction false} OverlayHolds(book: map<string, Grant>, grants: seq<Grant>, id: string)
    requires WellKeyed(book)
    ensures WellKeyed(Overlay(book, grants))
    ensures id in Overlay(book, grants) <==> id in book || exists g <- grants :: g.id == id
    ensures id in Overlay(book, grants) ==> Overlay(book, grants)[id] in grants || (id in book && Overlay(book, grants)[id] == book[id])
    decreases |grants|
  {
    if grants != [] {
      var n := |grants| - 1;
      OverlayHolds(book, grants[..n], id);
      assert grants == grants[..n] + [grants[n]];
    }
  }

  lemma {:induction false} UniqueOverlay(grants: seq<Grant>, g: Grant)
    requires Unique(grants)
    ensures g in grants <==> g.id in Overlay(map[], grants) && Overlay(map[], grants)[g.id] == g
    decreases |grants|
  {
    if grants != [] {
      var n := |grants| - 1;
      UniqueOverlay(grants[..n], g);
      assert grants == grants[..n] + [grants[n]];
    }
  }

  lemma {:induction false} UniqueCount(grants: seq<Grant>, g: Grant)
    requires Unique(grants)
    ensures multiset(grants)[g] == if g in grants then 1 else 0
    decreases |grants|
  {
    if grants != [] {
      var n := |grants| - 1;
      UniqueCount(grants[..n], g);
      assert grants == grants[..n] + [grants[n]];
    }
  }

  predicate Within(a: map<string, Grant>, b: map<string, Grant>) {
    forall id <- a :: id in b && a[id] == b[id]
  }

  /** However the dictionary is listed, a smaller one lists a sub-collection of the grants. */
  lemma ListingIsMonotone(a: seq<Grant>, b: seq<Grant>)
    requires Unique(a) && Unique(b) && Within(ById(a), ById(b))
    ensures multiset(a) <= multiset(b) && Expiry(a) <= Expiry(b)
  {
    forall g ensures multiset(a)[g] <= multiset(b)[g] {
      UniqueCount(a, g);
      UniqueCount(b, g);
      UniqueOverlay(a, g);
      UniqueOverlay(b, g);
    }
    ExpiryIsMonotone(a, b);
  }

  /** The expiry depends on what the ledger holds, not on the order Swift lists it in. */
  lemma ListingDoesNotMatter(a: seq<Grant>, b: seq<Grant>)
    requires Unique(a) && Unique(b) && ById(a) == ById(b)
    ensures Expiry(a) == Expiry(b)
  {
    ListingIsMonotone(a, b);
    ListingIsMonotone(b, a);
  }

  // ---------------------------------------------------------------- the ledger

  datatype Ledger = Ledger(grants: seq<Grant>, seen: real)

  datatype Event =
    | Check(verified: seq<Grant>, revoked: set<string>, now: real)
    | Purchase(grant: Grant, now: real)

  /** What an event may make of a ledger: the listing order after a merge is not determined. */
  ghost predicate Next(l: Ledger, e: Event, l': Ledger) {
    Unique(l'.grants) &&
    match e
    case Check(verified, revoked, now) =>
      ById(l'.grants) == Merged(ById(l.grants), revoked, verified) && l'.seen == Max(now, l.seen)
    case Purchase(grant, now) =>
      if grant.id in ById(l.grants) then l' == l
      else l'.grants == l.grants + [grant] && l'.seen == Max(l.seen, now)
  }

  class CoffeeLedgerStore {
    var grants: seq<Grant>
    var lastObservedTime: real

    constructor ()
      ensures View() == Ledger([], 0.0)
    {
      grants, lastObservedTime := [], 0.0;
    }

    function View(): Ledger
      reads this
    {
      Ledger(grants, lastObservedTime)
    }

    method PerformCheck(verified: seq<Grant>, revoked: set<string>, now: real) returns (expiration: real, entitled: bool)
      requires Unique(grants)
      modifies this
      ensures Next(old(View()), Check(verified, revoked, now), View())
      ensures expiration == Expiry(grants)
      ensures entitled <==> Expiry(grants) > lastObservedTime
    {
      OverlayNothing(ById(grants), verified, revoked);
      if verified != [] || revoked != {} {
        var byId := Index(grants);
        byId := byId - revoked;
        for i := 0 to |verified|
          invariant byId == Overlay(ById(old(grants)) - revoked, verified[..i])
        {
          assert verified[..i + 1][..i] == verified[..i];
          byId := byId[verified[i].id := verified[i]];
        }
        assert verified[..|verified|] == verified;
        AllKeyed(grants, revoked, verified);
        grants := Values(byId);
      }
      var effectiveNow := Max(now, lastObservedTime);
      lastObservedTime := effectiveNow;
      expiration := CoffeeExpiration(grants);
      entitled := expiration > effectiveNow;
    }

    method RecordGrant(grant: Grant, now: real)
      requires Unique(grants)
      modifies this
      ensures Next(old(View()), Purchase(grant, now), View())
    {
      KnownId(grants, grant);
      if exists g <- grants :: g.id == grant.id {
        return;
      }
      grants := grants + [grant];
      lastObservedTime := Max(lastObservedTime, now);
    }
  }

  method Index(grants: seq<Grant>) returns (byId: map<string, Grant>)
    ensures byId == ById(grants)
  {
    byId := map[];
    for i := 0 to |grants|
      invariant byId == Overlay(map[], grants[..i])
    {
      assert grants[..i + 1][..i] == grants[..i];
      byId := byId[grants[i].id := grants[i]];
    }
    assert grants[..|grants|] == grants;
  }

  /** The values of a dictionary, in whatever order. */
  method Values(byId: map<string, Grant>) returns (grants: seq<Grant>)
    requires WellKeyed(byId)
    ensures Unique(grants) && ById(grants) == byId
  {
    grants := [];
    var left := byId.Keys;
    while left != {}
      invariant left <= byId.Keys
      invariant Unique(grants) && forall g <- grants :: g.id !in left
      invariant Overlay(map[], grants) == byId - left
      decreases left
    {
      var id :| id in left;
      assert (grants + [byId[id]])[..|grants|] == grants;
      grants := grants + [byId[id]];
      left := left - {id};
    }
  }

  lemma OverlayNothing(book: map<string, Grant>, verified: seq<Grant>, revoked: set<string>)
    ensures verified == [] && revoked == {} ==> Merged(book, revoked, verified) == book
  {
    assert book - {} == book;
  }

  lemma AllKeyed(grants: seq<Grant>, revoked: set<string>, verified: seq<Grant>)
    ensures WellKeyed(Merged(ById(grants), revoked, verified))
  {
    OverlayHolds(map[], grants, "");
    OverlayHolds(ById(grants) - revoked, verified, "");
  }

  lemma KnownId(grants: seq<Grant>, grant: Grant)
    ensures grant.id in ById(grants) <==> exists g <- grants :: g.id == grant.id
  {
    OverlayHolds(map[], grants, grant.id);
  }

  /** The last transaction of a report with this id. */
  function LastWith(grants: seq<Grant>, id: string): Option<Grant> {
    if grants == [] then None
    else if grants[|grants| - 1].id == id then Some(grants[|grants| - 1])
    else LastWith(grants[..|grants| - 1], id)
  }

  /** A verified transaction is held as last reported; others are held as before, unless revoked. */
  lemma {:induction false} MergedMeaning(book: map<string, Grant>, revoked: set<string>, verified: seq<Grant>, id: string)
    ensures id in Merged(book, revoked, verified) <==> LastWith(verified, id).Some? || (id in book && id !in revoked)
    ensures id in Merged(book, revoked, verified) ==>
              Merged(book, revoked, verified)[id] == if LastWith(verified, id).Some? then LastWith(verified, id).value else book[id]
    decreases |verified|
  {
    if verified != [] {
      MergedMeaning(book, revoked, verified[..|verified| - 1], id);
    }
  }

  // ---------------------------------------------------------------- runs

  /** A history of the ledger: an event between each two states. */
  ghost predicate Run(states: seq<Ledger>, events: seq<Event>) {
    |states| == |events| + 1 && Unique(states[0].grants) &&
    forall i | 0 <= i < |events| :: Next(states[i], events[i], states[i + 1])
  }

  ghost predicate Expired(l: Ledger) { Expiry(l.grants) <= l.seen }

  /** The event reports no transaction the ledger does not already hold. */
  ghost predicate NothingNew(l: Ledger, e: Event) {
    match e
    case Check(verified, _, _) => forall g <- verified :: g.id in ById(l.grants) && ById(l.grants)[g.id] == g
    case Purchase(grant, _) => grant.id in ById(l.grants)
  }

  lemma NothingNewShrinks(l: Ledger, e: Event, l': Ledger)
    requires Unique(l.grants) && Next(l, e, l') && NothingNew(l, e)
    ensures Expiry(l'.grants) <= Expiry(l.grants) && l'.seen >= l.seen
  {
    if e.Check? {
      var book, book' := ById(l.grants), ById(l'.grants);
      OverlayHolds(map[], l.grants, "");
      forall id | id in book' ensures id in book && book'[id] == book[id] {
        OverlayHolds(book - e.revoked, e.verified, id);
      }
      ListingIsMonotone(l'.grants, l.grants);
    }
  }

  /** The ledger's clock never runs backwards, and no history repeats a transaction. */
  lemma {:induction false} ClockNeverReturns(states: seq<Ledger>, events: seq<Event>, i: nat, j: nat)
    requires Run(states, events) && i <= j < |states|
    ensures Unique(states[j].grants) && states[i].seen <= states[j].seen
    decreases j
  {
    if i < j {
      ClockNeverReturns(states, events, i, j - 1);
      assert Next(states[j - 1], events[j - 1], states[j]);
    } else if j > 0 {
      assert Next(states[j - 1], events[j - 1], states[j]);
    }
  }

  /** The event moves the clock: every check does, and a purchase not held yet. */
  ghost predicate Observes(l: Ledger, e: Event) { e.Check? || e.grant.id !in ById(l.grants) }

  /** The clock shows the latest time observed so far, or what it showed at first. */
  lemma {:induction false} ClockIsLatest(states: seq<Ledger>, events: seq<Event>, j: nat)
    requires Run(states, events) && j < |states|
    ensures forall k | 0 <= k < j && Observes(states[k], events[k]) :: events[k].now <= states[j].seen
    ensures states[j].seen == states[0].seen ||
            exists k | 0 <= k < j :: Observes(states[k], events[k]) && states[j].seen == events[k].now
    decreases j
  {
    hide ById, Merged, Unique;
    if j > 0 {
      ClockIsLatest(states, events, j - 1);
      var l, e, l' := states[j - 1], events[j - 1], states[j];
      assert Next(l, e, l');
      if l'.seen != l.seen {
        assert Observes(l, e) && l'.seen == e.now;
      }
    }
  }

  /**
   Once expired, access stays expired until the store reports a new purchase, whatever the
   wall clock says at later checks and whatever is refunded.
   */
  lemma {:induction false} ExpiredStaysExpired(states: seq<Ledger>, events: seq<Event>, i: nat, j: nat)
    requires Run(states, events) && i <= j < |states| && Expired(states[i])
    requires forall k | i <= k < j :: NothingNew(states[k], events[k])
    ensures Expired(states[j])
    decreases j
  {
    hide Next, NothingNew, Expiry, Unique;
    if i < j {
      ExpiredStaysExpired(states, events, i, j - 1);
      ClockNeverReturns(states, events, 0, j - 1);
      NothingNewShrinks(states[j - 1], events[j - 1], states[j]);
    }
  }
}
