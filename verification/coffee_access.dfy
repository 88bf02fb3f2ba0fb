/**
 Time-limited access bought with consumable purchases
 (bridge/godot_extension/src/apple_storekit.swift): the expiry of a set of grants, and the
 ledger that decides over many checks whether access has run out.

 Times are real numbers. The expiry is the end of a single-machine schedule: every grant is a
 job of 30 days times its quantity that may not start before its purchase.
 */
module CoffeeAccess {
  import opened Common

  datatype Grant = Grant(id: string, date: real, quantity: int)

  /** 30 days of access for each unit, and one unit at least. */
  function Duration(g: Grant): (d: real)
    ensures d >= 2592000.0
  {
    2592000.0 * (if g.quantity > 1 then g.quantity as real else 1.0)
  }

  function Max(a: real, b: real): real { if a >= b then a else b }

  // ---------------------------------------------------------------- the fold

  /** The loop of `coffeeExpiration`, from an expiry reached so far. */
  function Fold(expiry: real, grants: seq<Grant>): real
    decreases |grants|
  {
    if grants == [] then expiry
    else Fold(Max(expiry, grants[0].date) + Duration(grants[0]), grants[1..])
  }

  function Total(grants: seq<Grant>): real {
    if grants == [] then 0.0 else Duration(grants[0]) + Total(grants[1..])
  }

  /** Access bought at time `t` or later. */
  function BoughtFrom(grants: seq<Grant>, t: real): (d: real)
    ensures d >= 0.0
  {
    if grants == [] then 0.0
    else (if grants[0].date >= t then Duration(grants[0]) else 0.0) + BoughtFrom(grants[1..], t)
  }

  lemma {:induction false} BoughtFromIsPartial(grants: seq<Grant>, t: real)
    ensures BoughtFrom(grants, t) <= Total(grants)
    ensures (forall g <- grants :: g.date >= t) ==> BoughtFrom(grants, t) == Total(grants)
  {
    if grants != [] {
      BoughtFromIsPartial(grants[1..], t);
    }
  }

  /** In any order, what is bought from a purchase on cannot be used up before it fits behind it. */
  lemma {:induction false} FoldIsLate(expiry: real, grants: seq<Grant>, t: real)
    ensures Fold(expiry, grants) >= expiry + Total(grants)
    ensures (exists g <- grants :: g.date >= t) ==> Fold(expiry, grants) >= t + BoughtFrom(grants, t)
    decreases |grants|
  {
    if grants != [] {
      var next := Max(expiry, grants[0].date) + Duration(grants[0]);
      FoldIsLate(next, grants[1..], t);
      BoughtFromIsPartial(grants[1..], t);
      if grants[0].date < t {
        assert (exists g <- grants :: g.date >= t) ==> exists g <- grants[1..] :: g.date >= t;
      }
    }
  }

  predicate Sorted(grants: seq<Grant>) {
    forall i, j | 0 <= i < j < |grants| :: grants[i].date <= grants[j].date
  }

  lemma SumsOfFirst(grants: seq<Grant>, t: real)
    requires grants != []
    ensures Total(grants) == Duration(grants[0]) + Total(grants[1..])
    ensures BoughtFrom(grants, t) == (if grants[0].date >= t then Duration(grants[0]) else 0.0) + BoughtFrom(grants[1..], t)
  {
  }

  /** In date order, one of those bounds is met. */
  lemma {:induction false} FoldIsTight(expiry: real, grants: seq<Grant>)
    requires Sorted(grants)
    ensures Fold(expiry, grants) == expiry + Total(grants) ||
            exists g <- grants :: Fold(expiry, grants) == g.date + BoughtFrom(grants, g.date)
    decreases |grants|
  {
    if grants != [] {
      var first, rest := grants[0], grants[1..];
      var next := Max(expiry, first.date) + Duration(first);
      FoldIsTight(next, rest);
      hide BoughtFrom, Total, Duration;
      if Fold(next, rest) == next + Total(rest) {
        SumsOfFirst(grants, first.date);
        BoughtFromIsPartial(rest, first.date);
        assert expiry < first.date ==> Fold(expiry, grants) == first.date + BoughtFrom(grants, first.date);
      } else {
        var g :| g in rest && Fold(next, rest) == g.date + BoughtFrom(rest, g.date);
        SumsOfFirst(grants, g.date);
        FoldIsLate(expiry, grants, g.date);
        assert g in grants && Fold(expiry, grants) == g.date + BoughtFrom(grants, g.date);
      }
    }
  }

  // ---------------------------------------------------------------- order does not matter

  lemma {:induction false} SumsOfConcat(a: seq<Grant>, b: seq<Grant>, t: real)
    ensures Total(a + b) == Total(a) + Total(b)
    ensures BoughtFrom(a + b, t) == BoughtFrom(a, t) + BoughtFrom(b, t)
    decreases |a|
  {
    if a == [] {
      assert a + b == b;
    } else {
      assert (a + b)[1..] == a[1..] + b;
      SumsOfConcat(a[1..], b, t);
    }
  }

  lemma CutOne(b: seq<Grant>, i: nat)
    requires i < |b|
    ensures multiset(b) == multiset{b[i]} + multiset(b[..i] + b[i + 1..])
  {
    assert b == (b[..i] + [b[i]]) + b[i + 1..];
  }

  lemma CancelOne(x: Grant, a: multiset<Grant>, b: multiset<Grant>)
    requires multiset{x} + a <= multiset{x} + b
    ensures a <= b
  {
    forall y ensures a[y] <= b[y] {
      assert (multiset{x} + a)[y] <= (multiset{x} + b)[y];
    }
  }

  lemma SumsWithout(b: seq<Grant>, i: nat, t: real)
    requires i < |b|
    ensures Total(b) == Duration(b[i]) + Total(b[..i] + b[i + 1..])
    ensures BoughtFrom(b, t) == (if b[i].date >= t then Duration(b[i]) else 0.0) + BoughtFrom(b[..i] + b[i + 1..], t)
  {
    hide Duration;
    var front, back := b[..i], b[i + 1..];
    assert b == front + b[i..];
    SumsOfConcat(front, b[i..], t);
    SumsOfConcat(front, back, t);
    assert b[i..][1..] == back;
  }

  lemma CutHead(a: seq<Grant>)
    requires a != []
    ensures multiset(a) == multiset{a[0]} + multiset(a[1..])
  {
    assert a == [a[0]] + a[1..];
  }

  lemma HeadIsIn(a: seq<Grant>, b: seq<Grant>)
    requires a != [] && multiset(a) <= multiset(b)
    ensures a[0] in b
  {
    assert a[0] in multiset(a);
    assert a[0] in multiset(b);
  }

  lemma FindFirst(a: seq<Grant>, b: seq<Grant>) returns (i: nat)
    requires a != [] && multiset(a) <= multiset(b)
    ensures i < |b| && b[i] == a[0] && multiset(a[1..]) <= multiset(b[..i] + b[i + 1..])
  {
    HeadIsIn(a, b);
    i :| 0 <= i < |b| && b[i] == a[0];
    var rest, others := multiset(a[1..]), multiset(b[..i] + b[i + 1..]);
    assert multiset{a[0]} + rest <= multiset{a[0]} + others by {
      CutHead(a);
      CutOne(b, i);
    }
    CancelOne(a[0], rest, others);
  }

  /** A sub-collection of the grants, in any order, buys no more. */
  lemma {:induction false} SumsAreMonotone(a: seq<Grant>, b: seq<Grant>, t: real)
    requires multiset(a) <= multiset(b)
    ensures Total(a) <= Total(b) && BoughtFrom(a, t) <= BoughtFrom(b, t)
    decreases |a|
  {
    hide Duration;
    if a == [] {
      BoughtFromIsPartial(b, t);
    } else {
      hide Total, BoughtFrom;
      var i := FindFirst(a, b);
      SumsAreMonotone(a[1..], b[..i] + b[i + 1..], t);
      SumsWithout(b, i, t);
      SumsWithout(a, 0, t);
      assert a[..0] + a[1..] == a[1..];
    }
  }

  /** With more grants, processed in any order, access never ends earlier than by date order. */
  lemma SortedIsEarliest(sorted: seq<Grant>, other: seq<Grant>)
    requires Sorted(sorted) && multiset(sorted) <= multiset(other)
    ensures Fold(0.0, sorted) <= Fold(0.0, other)
  {
    FoldIsTight(0.0, sorted);
    if Fold(0.0, sorted) == 0.0 + Total(sorted) {
      SumsAreMonotone(sorted, other, 0.0);
      FoldIsLate(0.0, other, 0.0);
    } else {
      var g :| g in sorted && Fold(0.0, sorted) == g.date + BoughtFrom(sorted, g.date);
      assert g in multiset(sorted);
      assert g in multiset(other);
      SumsAreMonotone(sorted, other, g.date);
      FoldIsLate(0.0, other, g.date);
    }
  }

  // ---------------------------------------------------------------- sorting

  predicate LessId(a: string, b: string) {
    if b == [] then false
    else if a == [] then true
    else a[0] < b[0] || (a[0] == b[0] && LessId(a[1..], b[1..]))
  }

  /** By date, and by transaction id on the same date. */
  predicate Before(a: Grant, b: Grant) {
    if a.date == b.date then LessId(a.id, b.id) else a.date < b.date
  }

  function Insert(g: Grant, sorted: seq<Grant>): (more: seq<Grant>)
    ensures multiset(more) == multiset(sorted) + multiset{g}
    decreases |sorted|
  {
    if sorted == [] then [g]
    else if Before(g, sorted[0]) then [g] + sorted
    else
      assert sorted == [sorted[0]] + sorted[1..];
      [sorted[0]] + Insert(g, sorted[1..])
  }

  lemma {:induction false} InsertKeepsOrder(g: Grant, sorted: seq<Grant>)
    requires Sorted(sorted)
    ensures Sorted(Insert(g, sorted))
    decreases |sorted|
  {
    if sorted != [] && !Before(g, sorted[0]) {
      hide Insert, Before;
      var rest := Insert(g, sorted[1..]);
      InsertKeepsOrder(g, sorted[1..]);
      forall x | x in rest ensures sorted[0].date <= x.date {
        assert x in multiset(rest);
        assert x == g || x in multiset(sorted[1..]);
      }
    }
  }

  function SortByDate(grants: seq<Grant>): (sorted: seq<Grant>)
    ensures multiset(sorted) == multiset(grants) && Sorted(sorted)
    decreases |grants|
  {
    if grants == [] then []
    else
      assert grants == [grants[0]] + grants[1..];
      InsertKeepsOrder(grants[0], SortByDate(grants[1..]));
      Insert(grants[0], SortByDate(grants[1..]))
  }

  /** The expiry of a collection of grants. */
  function Expiry(grants: seq<Grant>): real { Fold(0.0, SortByDate(grants)) }

  method CoffeeExpiration(grants: seq<Grant>) returns (expiration: real)
    ensures expiration == Expiry(grants)
  {
    expiration := 0.0;
    var ordered := SortByDate(grants);
    for i := 0 to |ordered|
      invariant Fold(expiration, ordered[i..]) == Expiry(grants)
    {
      var grant := ordered[i];
      assert ordered[i..][1..] == ordered[i + 1..];
      expiration := Max(expiration, grant.date);
      expiration := expiration + Duration(grant);
    }
  }

  // ---------------------------------------------------------------- what the expiry is

  /** No order of the same grants lets access end earlier, and every order by date ends it then. */
  lemma ExpiryIsEarliest(grants: seq<Grant>, order: seq<Grant>)
    requires multiset(order) == multiset(grants)
    ensures Expiry(grants) <= Fold(0.0, order)
    ensures Sorted(order) ==> Expiry(grants) == Fold(0.0, order)
  {
    SortedIsEarliest(SortByDate(grants), order);
    if Sorted(order) {
      SortedIsEarliest(order, SortByDate(grants));
    }
  }

  /** The closed form, without any order: the latest of "everything bought from g on, one after the other". */
  ghost predicate IsClosedForm(grants: seq<Grant>, e: real) {
    (e == Total(grants) || exists g <- grants :: e == g.date + BoughtFrom(grants, g.date)) &&
    e >= Total(grants) && forall g <- grants :: e >= g.date + BoughtFrom(grants, g.date)
  }

  lemma ExpiryIsClosedForm(grants: seq<Grant>, e: real)
    ensures IsClosedForm(grants, e) <==> e == Expiry(grants)
  {
    var sorted := SortByDate(grants);
    hide SortByDate, Fold;
    SumsAreMonotone(sorted, grants, 0.0);
    SumsAreMonotone(grants, sorted, 0.0);
    FoldIsTight(0.0, sorted);
    forall g | g in grants
      ensures BoughtFrom(grants, g.date) == BoughtFrom(sorted, g.date) && Expiry(grants) >= g.date + BoughtFrom(grants, g.date)
    {
      SumsAreMonotone(sorted, grants, g.date);
      SumsAreMonotone(grants, sorted, g.date);
      assert g in multiset(sorted);
      FoldIsLate(0.0, sorted, g.date);
    }
    forall g | g in sorted ensures g in grants {
      assert g in multiset(grants);
    }
    FoldIsLate(0.0, sorted, 0.0);
  }

  /** More grants never shorten access; fewer, as after a refund, never extend it. */
  lemma ExpiryIsMonotone(fewer: seq<Grant>, more: seq<Grant>)
    requires multiset(fewer) <= multiset(more)
    ensures Expiry(fewer) <= Expiry(more)
  {
    SortedIsEarliest(SortByDate(fewer), SortByDate(more));
  }

  /** A grant is worth its full duration from its purchase or from the expiry so far, whichever is later. */
  lemma NewestGrantExtends(grants: seq<Grant>, g: Grant)
    requires forall h <- grants :: h.date <= g.date
    ensures Expiry(grants + [g]) == Max(Expiry(grants), g.date) + Duration(g)
  {
    var order := SortByDate(grants) + [g];
    forall h | h in SortByDate(grants) ensures h.date <= g.date {
      assert h in multiset(grants);
    }
    assert Sorted(order);
    ExpiryIsEarliest(grants + [g], order);
    FoldOneMore(0.0, SortByDate(grants), g);
  }

  lemma {:induction false} FoldOneMore(expiry: real, grants: seq<Grant>, g: Grant)
    ensures Fold(expiry, grants + [g]) == Max(Fold(expiry, grants), g.date) + Duration(g)
    decreases |grants|
  {
    if grants == [] {
      assert ([g])[1..] == [] && grants + [g] == [g];
    } else {
      assert (grants + [g])[1..] == grants[1..] + [g];
      FoldOneMore(Max(expiry, grants[0].date) + Duration(grants[0]), grants[1..], g);
    }
  }

  // ---------------------------------------------------------------- what a purchase is worth

  /** A purchase of several units is worth its parts; nothing is worth less than one unit. */
  lemma DurationAdds(a: Grant, b: Grant, both: Grant)
    ensures a.quantity >= 1 && b.quantity >= 1 && both.quantity == a.quantity + b.quantity ==> Duration(both) == Duration(a) + Duration(b)
    ensures a.quantity <= 1 ==> Duration(a) == 30.0 * 24.0 * 60.0 * 60.0
  {
  }

  predicate HasDate(grants: seq<Grant>, t: real) { exists g <- grants :: g.date == t }

  /** What is bought at `t`, and from `t` on, is the same. */
  predicate AgreeAt(a: seq<Grant>, b: seq<Grant>, t: real) {
    BoughtFrom(a, t) == BoughtFrom(b, t) && HasDate(a, t) == HasDate(b, t)
  }

  lemma ClosedFormCarries(a: seq<Grant>, b: seq<Grant>, e: real)
    requires Total(a) == Total(b) && (forall t: real :: AgreeAt(a, b, t)) && IsClosedForm(a, e)
    ensures IsClosedForm(b, e)
  {
    hide Total, BoughtFrom;
    forall g | g in b ensures e >= g.date + BoughtFrom(b, g.date) {
      assert AgreeAt(a, b, g.date);
    }
    if e != Total(b) {
      var g :| g in a && e == g.date + BoughtFrom(a, g.date);
      assert AgreeAt(a, b, g.date);
      assert HasDate(a, g.date);
    }
  }

  lemma SplitSums(grants: seq<Grant>, a: Grant, b: Grant, both: Grant, t: real)
    requires a.date == b.date == both.date && Duration(both) == Duration(a) + Duration(b)
    ensures Total(grants + [a, b]) == Total(grants + [both]) && BoughtFrom(grants + [a, b], t) == BoughtFrom(grants + [both], t)
  {
    hide Duration;
    SumsOfConcat(grants, [a, b], t);
    SumsOfConcat(grants, [both], t);
    assert [a, b][1..] == [b] && [b][1..] == [] == [both][1..];
  }

  lemma SplitDates(grants: seq<Grant>, a: Grant, b: Grant, both: Grant, t: real)
    requires a.date == b.date == both.date
    ensures HasDate(grants + [a, b], t) == HasDate(grants + [both], t)
  {
    assert (grants + [a, b])[|grants|] == a && (grants + [both])[|grants|] == both;
    if HasDate(grants + [a, b], t) {
      var g :| g in grants + [a, b] && g.date == t;
      assert g in grants ==> g in grants + [both];
    }
    if HasDate(grants + [both], t) {
      var g :| g in grants + [both] && g.date == t;
      assert g in grants ==> g in grants + [a, b];
    }
  }

  /** The expiry does not tell a purchase of several units from several purchases at the same time. */
  lemma ExpiryOfSplitPurchase(grants: seq<Grant>, a: Grant, b: Grant, both: Grant)
    requires a.quantity >= 1 && b.quantity >= 1 && both.quantity == a.quantity + b.quantity
    requires a.date == b.date == both.date
    ensures Expiry(grants + [a, b]) == Expiry(grants + [both])
  {
    hide *;
    var split, whole, e := grants + [a, b], grants + [both], Expiry(grants + [a, b]);
    DurationAdds(a, b, both);
    SplitSums(grants, a, b, both, 0.0);
    forall t: real ensures AgreeAt(split, whole, t) {
      SplitAgrees(grants, a, b, both, t);
    }
    ExpiryIsClosedForm(split, e);
    ClosedFormCarries(split, whole, e);
    ExpiryIsClosedForm(whole, e);
  }

  lemma SplitAgrees(grants: seq<Grant>, a: Grant, b: Grant, both: Grant, t: real)
    requires a.date == b.date == both.date && Duration(both) == Duration(a) + Duration(b)
    ensures AgreeAt(grants + [a, b], grants + [both], t)
  {
    hide Duration, Total, BoughtFrom, HasDate;
    SplitSums(grants, a, b, both, t);
    SplitDates(grants, a, b, both, t);
  }

  /** A single purchase: thirty days from its date for each unit. */
  lemma ExpiryOfOne(g: Grant)
    requires g.date >= 0.0 && g.quantity >= 1
    ensures Expiry([g]) == g.date + 2592000.0 * g.quantity as real
  {
    NewestGrantExtends([], g);
    assert [] + [g] == [g];
  }
}
