/** The payment repair script (pankaj/fix_duplicate.py): collapse the
    payments of every booking to one, re-link or re-create the payment a
    booking names but has none of, clean up orphans, and the two checks of
    `verify_fix`.

    The payment and booking tables are sequences in primary-key order;
    a row's `booking` is its foreign key to a booking's `id`. */
module Payments {
  import opened Base
  import Bookings

  type Booking = Bookings.ConsultationBooking

  datatype PaymentStatus = Success | Pending | Failed

  datatype Payment = Payment(
    pk: nat,
    paymentId: string,
    booking: Option<nat>,
    amount: int,
    payMethod: string,   // the `method` column
    status: PaymentStatus,
    createdAt: int)

  // ---------------------------------------------------------------------------
  // Queries
  // ---------------------------------------------------------------------------

  /** `Payment.objects.filter(booking=key)`; `key == None` is `booking__isnull=True`. */
  function Group(ps: seq<Payment>, key: Option<nat>): (r: seq<Payment>)
    ensures |r| <= |ps|
    ensures forall p {:trigger p in r} :: p in r <==> p in ps && p.booking == key
  {
    if ps == [] then []
    else (if ps[0].booking == key then [ps[0]] else []) + Group(ps[1..], key)
  }

  function WithStatus(ps: seq<Payment>, s: PaymentStatus): (r: seq<Payment>)
    ensures forall p {:trigger p in r} :: p in r <==> p in ps && p.status == s
  {
    if ps == [] then []
    else (if ps[0].status == s then [ps[0]] else []) + WithStatus(ps[1..], s)
  }

  /** `Payment.objects.filter(payment_id=id)`, the rows `get` looks at. */
  function WithPaymentId(ps: seq<Payment>, id: string): (r: seq<Payment>)
    ensures forall p {:trigger p in r} :: p in r <==> p in ps && p.paymentId == id
  {
    if ps == [] then []
    else (if ps[0].paymentId == id then [ps[0]] else []) + WithPaymentId(ps[1..], id)
  }

  /** `latest('created_at')`: a payment with the greatest creation time; among
      equal times the first in table order. */
  function Latest(ps: seq<Payment>): (r: Payment)
    requires ps != []
    ensures r in ps
    ensures forall p :: p in ps ==> p.createdAt <= r.createdAt
  {
    if |ps| == 1 then ps[0]
    else
      var rest := Latest(ps[1..]);
      if ps[0].createdAt >= rest.createdAt then ps[0] else rest
  }

  /** The priority of line 40: success over pending over the rest. */
  function Priority(s: PaymentStatus): nat {
    match s
    case Success => 2
    case Pending => 1
    case Failed => 0
  }

  /** The payment `fix_duplicate_payments` keeps: the latest successful one,
      else the latest pending one, else the latest of all. */
  function Keep(ps: seq<Payment>): Payment
    requires ps != []
  {
    var succeeded := WithStatus(ps, Success);
    if succeeded != [] then Latest(succeeded)
    else
      var pending := WithStatus(ps, Pending);
      if pending != [] then Latest(pending) else Latest(ps)
  }

  /** The kept payment is one of the booking's, no other has a higher
      priority, and none of the same priority is later. */
  lemma KeepIsBest(ps: seq<Payment>)
    requires ps != []
    ensures Keep(ps) in ps
    ensures forall p :: p in ps ==>
      || Priority(p.status) < Priority(Keep(ps).status)
      || (Priority(p.status) == Priority(Keep(ps).status) && p.createdAt <= Keep(ps).createdAt)
  {
    var k := Keep(ps);
    var succeeded := WithStatus(ps, Success);
    var pending := WithStatus(ps, Pending);
    forall p | p in ps
      ensures || Priority(p.status) < Priority(k.status)
              || (Priority(p.status) == Priority(k.status) && p.createdAt <= k.createdAt)
    {
      if succeeded != [] {
        assert k == Latest(succeeded) && k in succeeded;
        if p.status == Success {
          assert p in succeeded;
        }
      } else {
        assert p !in succeeded && k !in succeeded;
        if pending != [] {
          assert k == Latest(pending) && k in pending;
          if p.status == Pending {
            assert p in pending;
          }
        } else {
          assert k == Latest(ps) && p !in pending && k !in pending;
        }
      }
    }
  }

  // ---------------------------------------------------------------------------
  // Table updates
  // ---------------------------------------------------------------------------

  /** `payments.exclude(pk=kept).delete()` for the payments of booking `id`. */
  function Without(ps: seq<Payment>, id: nat, keptPk: nat): (r: seq<Payment>)
    ensures forall p {:trigger p in r} :: p in r <==> p in ps && (p.booking != Some(id) || p.pk == keptPk)
  {
    if ps == [] then []
    else (if ps[0].booking == Some(id) && ps[0].pk != keptPk then [] else [ps[0]]) + Without(ps[1..], id, keptPk)
  }

  /** `payment.booking = booking; payment.save()` for the row with key `pk`. */
  function Relink(ps: seq<Payment>, pk: nat, id: nat): (r: seq<Payment>)
    ensures |r| == |ps|
    ensures forall k :: 0 <= k < |ps| ==> r[k] == if ps[k].pk == pk then ps[k].(booking := Some(id)) else ps[k]
  {
    if ps == [] then []
    else [if ps[0].pk == pk then ps[0].(booking := Some(id)) else ps[0]] + Relink(ps[1..], pk, id)
  }

  /** Payments without a booking are deleted. */
  function DropOrphans(ps: seq<Payment>): (r: seq<Payment>)
    ensures forall p {:trigger p in r} :: p in r <==> p in ps && p.booking.Some?
  {
    if ps == [] then []
    else (if ps[0].booking.Some? then [ps[0]] else []) + DropOrphans(ps[1..])
  }

  function PaymentIds(ps: seq<Payment>): set<string> {
    set p | p in ps :: p.paymentId
  }

  /** A booking whose payment id matches no payment loses it. */
  function ClearInvalid(b: Booking, ids: set<string>): (r: Booking)
    ensures r == if b.paymentId.Some? && b.paymentId.value !in ids then b.(paymentId := None) else b
  {
    if b.paymentId.Some? && b.paymentId.value !in ids then b.(paymentId := None) else b
  }

  // ---------------------------------------------------------------------------
  // One booking
  // ---------------------------------------------------------------------------

  /** What one iteration of the loop over bookings leaves behind. */
  datatype Outcome = Outcome(booking: Booking, payments: seq<Payment>, nextPk: nat, fixed: bool)

  /** Python truthiness of `booking.payment_id`. */
  predicate HasPaymentId(b: Booking) {
    b.paymentId.Some? && b.paymentId.value != ""
  }

  /** The pending cash payment created for a booking that names a payment
      id no row has. */
  function Replacement(b: Booking, pk: nat, now: int): Payment
    requires b.paymentId.Some?
  {
    Payment(pk, b.paymentId.value, Some(b.id), b.price, "cash", Pending, now)
  }

  /** The body of the loop over bookings: with more than one payment, keep
      one and delete the rest and record the kept id on the booking; with
      none but a payment id, re-link the one payment with that id, or create
      a replacement when there is none, and skip the booking when `get`
      finds several (`MultipleObjectsReturned` is caught and the loop goes on). */
  function FixOne(b: Booking, ps: seq<Payment>, nextPk: nat, now: int): (r: Outcome)
    ensures r.booking.id == b.id
    // with duplicates, the booking records the id of the payment kept
    ensures |Group(ps, Some(b.id))| > 1 ==>
      r.booking == b.(paymentId := Some(Keep(Group(ps, Some(b.id))).paymentId))
    ensures |Group(ps, Some(b.id))| <= 1 ==> r.booking == b
    // what counts towards `total_fixed`; a skipped booking changes nothing
    ensures r.fixed <==> || |Group(ps, Some(b.id))| > 1
                         || (HasPaymentId(b) && Group(ps, Some(b.id)) == [] && |WithPaymentId(ps, b.paymentId.value)| <= 1)
    ensures !r.fixed ==> r == Outcome(b, ps, nextPk, false)
    // a new key is used only for the created replacement, appended at the end
    ensures r.nextPk == nextPk || r.nextPk == nextPk + 1
    ensures r.nextPk == nextPk + 1 <==>
      HasPaymentId(b) && Group(ps, Some(b.id)) == [] && WithPaymentId(ps, b.paymentId.value) == []
    ensures r.nextPk == nextPk + 1 ==>
      && HasPaymentId(b) && |r.payments| == |ps| + 1 && r.payments[..|ps|] == ps
      && r.payments[|ps|] == Payment(nextPk, b.paymentId.value, Some(b.id), b.price, "cash", Pending, now)
  {
    var mine := Group(ps, Some(b.id));
    if |mine| > 1 then
      var kept := Keep(mine);
      Outcome(b.(paymentId := Some(kept.paymentId)), Without(ps, b.id, kept.pk), nextPk, true)
    else if HasPaymentId(b) && |mine| == 0 then
      var matching := WithPaymentId(ps, b.paymentId.value);
      if |matching| == 1 then Outcome(b, Relink(ps, matching[0].pk, b.id), nextPk, true)
      else if |matching| == 0 then Outcome(b, ps + [Replacement(b, nextPk, now)], nextPk + 1, true)
      else Outcome(b, ps, nextPk, false)
    else Outcome(b, ps, nextPk, false)
  }

  // ---------------------------------------------------------------------------
  // The whole run
  // ---------------------------------------------------------------------------

  datatype Tables = Tables(bookings: seq<Booking>, payments: seq<Payment>, nextPk: nat)

  /** The tables and `total_fixed` after the first `n` bookings. */
  function FixUpTo(t: Tables, n: nat, now: int): (r: (Tables, nat))
    requires n <= |t.bookings|
    ensures |r.0.bookings| == |t.bookings|
  {
    if n == 0 then (t, 0)
    else
      var prev := FixUpTo(t, n - 1, now);
      var o := Step(prev.0, n - 1, now);
      (o.0, prev.1 + if o.1 then 1 else 0)
  }

  /** Booking `i`'s iteration applied to the tables, and whether it fixed something. */
  function Step(s: Tables, i: nat, now: int): (r: (Tables, bool))
    requires i < |s.bookings|
  {
    var o := FixOne(s.bookings[i], s.payments, s.nextPk, now);
    (Tables(s.bookings[i := o.booking], o.payments, o.nextPk), o.fixed)
  }

  /** The condition on lines 116-123 under which the cleanup runs: some
      booking has no payment, or some payment has no booking. */
  predicate NeedsCleanup(t: Tables) {
    || (exists k :: 0 <= k < |t.bookings| && Group(t.payments, Some(t.bookings[k].id)) == [])
    || Group(t.payments, None) != []
  }

  /** `cleanup_orphaned_records`. */
  function Cleanup(t: Tables): (r: Tables)
    ensures |r.bookings| == |t.bookings|
    ensures r.payments == DropOrphans(t.payments) && r.nextPk == t.nextPk
    ensures forall k :: 0 <= k < |t.bookings| ==> r.bookings[k] == ClearInvalid(t.bookings[k], PaymentIds(DropOrphans(t.payments)))
  {
    var ps := DropOrphans(t.payments);
    Tables(seq(|t.bookings|, k requires 0 <= k < |t.bookings| => ClearInvalid(t.bookings[k], PaymentIds(ps))), ps, t.nextPk)
  }

  /** `fix_duplicate_payments`: the loop, then the cleanup when needed. */
  function FixDuplicates(t: Tables, now: int): (r: (Tables, nat))
    ensures |r.0.bookings| == |t.bookings|
  {
    var (s, fixed) := FixUpTo(t, |t.bookings|, now);
    (Finish(s), fixed)
  }

  /** The tables after the loop, cleaned up when needed. */
  function Finish(s: Tables): Tables {
    if NeedsCleanup(s) then Cleanup(s) else s
  }

  // ---------------------------------------------------------------------------
  // `verify_fix`
  // ---------------------------------------------------------------------------

  /** No two payments share a `booking` value, the null one included (the
      `values('booking').annotate(count)` groups). */
  predicate NoDuplicateGroups(ps: seq<Payment>) {
    forall i, j :: 0 <= i < j < |ps| ==> ps[i].booking != ps[j].booking
  }

  /** Every booking's payment id matches some payment. */
  predicate ReferencesValid(t: Tables) {
    forall k :: 0 <= k < |t.bookings| && t.bookings[k].paymentId.Some? ==>
      t.bookings[k].paymentId.value in PaymentIds(t.payments)
  }

  datatype Verification = Verification(noDuplicates: bool, referencesValid: bool)

  function VerifyFix(t: Tables): (r: Verification)
    ensures r.noDuplicates <==> NoDuplicateGroups(t.payments)
    ensures r.referencesValid <==> ReferencesValid(t)
  {
    Verification(NoDuplicateGroups(t.payments), ReferencesValid(t))
  }

  // ---------------------------------------------------------------------------
  // The invariant the run keeps
  // ---------------------------------------------------------------------------

  predicate UniquePks(ps: seq<Payment>) {
    forall i, j :: 0 <= i < j < |ps| ==> ps[i].pk != ps[j].pk
  }

  predicate IdsDistinct(bs: seq<Booking>) {
    forall i, j :: 0 <= i < j < |bs| ==> bs[i].id != bs[j].id
  }

  function BookingIds(bs: seq<Booking>): set<nat> {
    set b | b in bs :: b.id
  }

  /** The integrity the database guarantees: primary keys are unique and
      below the next one, booking ids are distinct, and every foreign key
      names a booking. */
  predicate Sound(t: Tables) {
    PaymentsSound(t.payments, t.nextPk, BookingIds(t.bookings)) && IdsDistinct(t.bookings)
  }

  predicate PaymentsSound(ps: seq<Payment>, nextPk: nat, ids: set<nat>) {
    && UniquePks(ps)
    && (forall p :: p in ps ==> p.pk < nextPk)
    && (forall p :: p in ps && p.booking.Some? ==> p.booking.value in ids)
  }

  /** At most one payment is linked to each of the first `n` bookings. */
  predicate Deduplicated(t: Tables, n: nat)
    requires n <= |t.bookings|
  {
    forall b :: b in t.bookings[..n] ==> |Group(t.payments, Some(b.id))| <= 1
  }

  /** A sequence with unique keys all alike has at most one element. */
  lemma AllSamePkAtMostOne(ps: seq<Payment>, pk: nat)
    requires UniquePks(ps) && forall p :: p in ps ==> p.pk == pk
    ensures |ps| <= 1
  {
    FirstTwo(ps, pk);
  }

  lemma FirstTwo(ps: seq<Payment>, pk: nat)
    requires forall p :: p in ps ==> p.pk == pk
    ensures |ps| >= 2 ==> ps[0].pk == pk && ps[1].pk == pk
  {
  }

  /** Filtering keeps keys unique. */
  lemma {:induction false} GroupUnique(ps: seq<Payment>, key: Option<nat>)
    requires UniquePks(ps)
    ensures UniquePks(Group(ps, key))
  {
    if ps != [] {
      GroupUnique(ps[1..], key);
      var rest := Group(ps[1..], key);
      forall q | q in rest
        ensures q.pk != ps[0].pk
      {
        var j :| 0 <= j < |ps[1..]| && ps[1..][j] == q;
        assert ps[j + 1] == q;
      }
      if ps[0].booking == key {
        var g := [ps[0]] + rest;
        forall i, j | 0 <= i < j < |g|
          ensures g[i].pk != g[j].pk
        {
          if i == 0 {
            assert g[j] == rest[j - 1];
            assert g[j] in rest;
          } else {
            assert g[i] == rest[i - 1] && g[j] == rest[j - 1];
          }
        }
      } else {
        assert Group(ps, key) == rest;
      }
    }
  }

  lemma {:induction false} WithoutUnique(ps: seq<Payment>, id: nat, keptPk: nat)
    requires UniquePks(ps)
    ensures UniquePks(Without(ps, id, keptPk))
  {
    if ps != [] {
      WithoutUnique(ps[1..], id, keptPk);
      var rest := Without(ps[1..], id, keptPk);
      forall q | q in rest
        ensures q.pk != ps[0].pk
      {
        var j :| 0 <= j < |ps[1..]| && ps[1..][j] == q;
        assert ps[j + 1] == q;
      }
      if !(ps[0].booking == Some(id) && ps[0].pk != keptPk) {
        var g := [ps[0]] + rest;
        forall i, j | 0 <= i < j < |g|
          ensures g[i].pk != g[j].pk
        {
          if i == 0 {
            assert g[j] == rest[j - 1];
            assert g[j] in rest;
          } else {
            assert g[i] == rest[i - 1] && g[j] == rest[j - 1];
          }
        }
      } else {
        assert Without(ps, id, keptPk) == rest;
      }
    }
  }

  lemma {:induction false} DropOrphansUnique(ps: seq<Payment>)
    requires UniquePks(ps)
    ensures UniquePks(DropOrphans(ps))
  {
    if ps != [] {
      DropOrphansUnique(ps[1..]);
      var rest := DropOrphans(ps[1..]);
      forall q | q in rest
        ensures q.pk != ps[0].pk
      {
        var j :| 0 <= j < |ps[1..]| && ps[1..][j] == q;
        assert ps[j + 1] == q;
      }
      if ps[0].booking.Some? {
        var g := [ps[0]] + rest;
        forall i, j | 0 <= i < j < |g|
          ensures g[i].pk != g[j].pk
        {
          if i == 0 {
            assert g[j] == rest[j - 1];
            assert g[j] in rest;
          } else {
            assert g[i] == rest[i - 1] && g[j] == rest[j - 1];
          }
        }
      } else {
        assert DropOrphans(ps) == rest;
      }
    }
  }

  /** Other bookings' groups are untouched by a deletion for booking `id`. */
  lemma {:induction false} GroupWithout(ps: seq<Payment>, id: nat, keptPk: nat, key: Option<nat>)
    requires key != Some(id)
    ensures Group(Without(ps, id, keptPk), key) == Group(ps, key)
  {
    if ps != [] {
      GroupWithout(ps[1..], id, keptPk, key);
      var head := if ps[0].booking == Some(id) && ps[0].pk != keptPk then [] else [ps[0]];
      assert Without(ps, id, keptPk) == head + Without(ps[1..], id, keptPk);
      GroupAppend(head, Without(ps[1..], id, keptPk), key);
    }
  }

  lemma {:induction false} GroupAppend(a: seq<Payment>, b: seq<Payment>, key: Option<nat>)
    ensures Group(a + b, key) == Group(a, key) + Group(b, key)
  {
    if a != [] {
      assert (a + b)[0] == a[0] && (a + b)[1..] == a[1..] + b;
      GroupAppend(a[1..], b, key);
      var h := if a[0].booking == key then [a[0]] else [];
      calc {
        Group(a + b, key);
        h + Group(a[1..] + b, key);
        h + (Group(a[1..], key) + Group(b, key));
        Group(a, key) + Group(b, key);
      }
    } else {
      assert a + b == b;
    }
  }

  /** Re-linking one payment never adds to another booking's group. */
  lemma {:induction false} GroupRelinkOther(ps: seq<Payment>, pk: nat, id: nat, key: Option<nat>)
    requires key != Some(id)
    ensures |Group(Relink(ps, pk, id), key)| <= |Group(ps, key)|
  {
    if ps != [] {
      GroupRelinkOther(ps[1..], pk, id, key);
      assert Relink(ps, pk, id)[1..] == Relink(ps[1..], pk, id);
    }
  }

  lemma {:induction false} RelinkUnique(ps: seq<Payment>, pk: nat, id: nat)
    requires UniquePks(ps)
    ensures UniquePks(Relink(ps, pk, id))
  {
  }

  /** Replacing a booking by one with the same id keeps the set of ids and
      their distinctness. */
  lemma UpdateKeepsIds(bs: seq<Booking>, i: nat, b: Booking)
    requires i < |bs| && b.id == bs[i].id
    ensures BookingIds(bs[i := b]) == BookingIds(bs)
    ensures IdsDistinct(bs) ==> IdsDistinct(bs[i := b])
  {
    var bs' := bs[i := b];
    forall x | x in BookingIds(bs)
      ensures x in BookingIds(bs')
    {
      var b0 :| b0 in bs && b0.id == x;
      var k :| 0 <= k < |bs| && bs[k] == b0;
      assert bs'[k].id == x;
    }
    forall x | x in BookingIds(bs')
      ensures x in BookingIds(bs)
    {
      var b0 :| b0 in bs' && b0.id == x;
      var k :| 0 <= k < |bs'| && bs'[k] == b0;
      assert bs[k].id == x;
    }
  }

  /** The effect of one iteration on the payment table: it stays sound, the
      booking ends with at most one payment, and no other group grows. */
  ghost predicate StepKeeps(ps: seq<Payment>, ps': seq<Payment>, nextPk': nat, ids: set<nat>, id: nat) {
    && PaymentsSound(ps', nextPk', ids)
    && |Group(ps', Some(id))| <= 1
    && (forall key :: key != Some(id) ==> |Group(ps', key)| <= |Group(ps, key)|)
  }

  /** Deleting every payment of booking `id` but `kept` leaves it exactly `kept`. */
  lemma WithoutOwnGroup(ps: seq<Payment>, id: nat, kept: Payment)
    requires UniquePks(ps) && kept in ps && kept.booking == Some(id)
    ensures Group(Without(ps, id, kept.pk), Some(id)) == [kept]
  {
    var ps' := Without(ps, id, kept.pk);
    WithoutUnique(ps, id, kept.pk);
    GroupUnique(ps', Some(id));
    var g := Group(ps', Some(id));
    AllSamePkAtMostOne(g, kept.pk);
    assert kept in g;
  }

  lemma DeduplicateStep(ps: seq<Payment>, nextPk: nat, ids: set<nat>, id: nat)
    requires PaymentsSound(ps, nextPk, ids) && |Group(ps, Some(id))| > 1
    ensures StepKeeps(ps, Without(ps, id, Keep(Group(ps, Some(id))).pk), nextPk, ids, id)
    ensures Group(Without(ps, id, Keep(Group(ps, Some(id))).pk), Some(id)) == [Keep(Group(ps, Some(id)))]
  {
    var mine := Group(ps, Some(id));
    var kept := Keep(mine);
    var ps' := Without(ps, id, kept.pk);
    WithoutUnique(ps, id, kept.pk);
    KeepIsBest(mine);
    WithoutOwnGroup(ps, id, kept);
    forall key | key != Some(id)
      ensures |Group(ps', key)| <= |Group(ps, key)|
    {
      GroupWithout(ps, id, kept.pk, key);
    }
  }

  /** Re-linking to a booking that had no payment gives it exactly the
      re-linked one. */
  lemma RelinkGroupOwn(ps: seq<Payment>, pk: nat, id: nat)
    requires UniquePks(ps) && Group(ps, Some(id)) == []
    ensures |Group(Relink(ps, pk, id), Some(id))| <= 1
  {
    var ps' := Relink(ps, pk, id);
    var g := Group(ps', Some(id));
    RelinkUnique(ps, pk, id);
    GroupUnique(ps', Some(id));
    forall p | p in g
      ensures p.pk == pk
    {
      var k :| 0 <= k < |ps'| && ps'[k] == p;
      assert ps[k] !in Group(ps, Some(id));
    }
    AllSamePkAtMostOne(g, pk);
  }

  /** Re-linking a key no row has changes nothing. */
  lemma RelinkAbsent(ps: seq<Payment>, pk: nat, id: nat)
    requires forall j :: 0 <= j < |ps| ==> ps[j].pk != pk
    ensures Relink(ps, pk, id) == ps
  {
  }

  /** Re-linking the one row with key `pk` to a booking without payments
      makes that row the booking's whole group. */
  lemma {:induction false} RelinkGroupExact(ps: seq<Payment>, pk: nat, id: nat, k: nat)
    requires k < |ps| && ps[k].pk == pk && Group(ps, Some(id)) == []
    requires forall j :: 0 <= j < |ps| && j != k ==> ps[j].pk != pk
    ensures Group(Relink(ps, pk, id), Some(id)) == [ps[k].(booking := Some(id))]
  {
    var r := Relink(ps, pk, id);
    assert r[1..] == Relink(ps[1..], pk, id);
    assert ps[0] in ps;
    assert ps[0].booking != Some(id);
    assert Group(ps[1..], Some(id)) == [];
    if k == 0 {
      assert forall j :: 0 <= j < |ps[1..]| ==> ps[1..][j] == ps[j + 1];
      RelinkAbsent(ps[1..], pk, id);
    } else {
      assert forall j :: 0 <= j < |ps[1..]| ==> ps[1..][j] == ps[j + 1];
      RelinkGroupExact(ps[1..], pk, id, k - 1);
    }
  }

  /** Re-linking to a known booking keeps keys and foreign keys valid. */
  lemma RelinkSound(ps: seq<Payment>, nextPk: nat, ids: set<nat>, id: nat, pk: nat)
    requires PaymentsSound(ps, nextPk, ids) && id in ids
    ensures PaymentsSound(Relink(ps, pk, id), nextPk, ids)
  {
    var ps' := Relink(ps, pk, id);
    RelinkUnique(ps, pk, id);
    forall p | p in ps'
      ensures p.pk < nextPk && (p.booking.Some? ==> p.booking.value in ids)
    {
      var k :| 0 <= k < |ps'| && ps'[k] == p;
      assert ps[k] in ps;
    }
  }

  lemma RelinkStep(ps: seq<Payment>, nextPk: nat, ids: set<nat>, id: nat, pk: nat)
    requires PaymentsSound(ps, nextPk, ids) && id in ids && Group(ps, Some(id)) == []
    ensures StepKeeps(ps, Relink(ps, pk, id), nextPk, ids, id)
    ensures forall k :: 0 <= k < |ps| && ps[k].pk == pk ==>
      Group(Relink(ps, pk, id), Some(id)) == [ps[k].(booking := Some(id))]
  {
    RelinkGroupOwn(ps, pk, id);
    RelinkSound(ps, nextPk, ids, id, pk);
    forall k | 0 <= k < |ps| && ps[k].pk == pk
      ensures Group(Relink(ps, pk, id), Some(id)) == [ps[k].(booking := Some(id))]
    {
      RelinkGroupExact(ps, pk, id, k);
    }
    forall key | key != Some(id)
      ensures |Group(Relink(ps, pk, id), key)| <= |Group(ps, key)|
    {
      GroupRelinkOther(ps, pk, id, key);
    }
  }

  lemma CreateStep(ps: seq<Payment>, nextPk: nat, ids: set<nat>, r: Payment)
    requires PaymentsSound(ps, nextPk, ids) && r.booking.Some? && r.booking.value in ids
    requires r.pk == nextPk && Group(ps, r.booking) == []
    ensures StepKeeps(ps, ps + [r], nextPk + 1, ids, r.booking.value)
    ensures Group(ps + [r], r.booking) == [r]
  {
    var ps' := ps + [r];
    GroupAppend(ps, [r], r.booking);
    forall key | key != r.booking
      ensures |Group(ps', key)| <= |Group(ps, key)|
    {
      GroupAppend(ps, [r], key);
    }
    forall j, k | 0 <= j < k < |ps'|
      ensures ps'[j].pk != ps'[k].pk
    {
      assert ps'[j] in ps || k < |ps|;
    }
  }

  /** One iteration keeps the payment table sound, leaves at most one payment
      for its booking and adds none to any other booking. The booking's own
      payments become exactly the kept one, the re-linked one or the
      replacement, by the branch taken. */
  lemma FixOneKeeps(b: Booking, ps: seq<Payment>, nextPk: nat, now: int, ids: set<nat>)
    requires PaymentsSound(ps, nextPk, ids) && b.id in ids
    ensures StepKeeps(ps, FixOne(b, ps, nextPk, now).payments, FixOne(b, ps, nextPk, now).nextPk, ids, b.id)
    ensures |Group(ps, Some(b.id))| > 1 ==>
      Group(FixOne(b, ps, nextPk, now).payments, Some(b.id)) == [Keep(Group(ps, Some(b.id)))]
    ensures HasPaymentId(b) && Group(ps, Some(b.id)) == [] && |WithPaymentId(ps, b.paymentId.value)| == 1 ==>
      Group(FixOne(b, ps, nextPk, now).payments, Some(b.id)) == [WithPaymentId(ps, b.paymentId.value)[0].(booking := Some(b.id))]
    ensures HasPaymentId(b) && Group(ps, Some(b.id)) == [] && WithPaymentId(ps, b.paymentId.value) == [] ==>
      Group(FixOne(b, ps, nextPk, now).payments, Some(b.id)) == [Replacement(b, nextPk, now)]
  {
    var mine := Group(ps, Some(b.id));
    if |mine| > 1 {
      DeduplicateStep(ps, nextPk, ids, b.id);
    } else if HasPaymentId(b) && |mine| == 0 {
      var matching := WithPaymentId(ps, b.paymentId.value);
      if |matching| == 1 {
        assert matching[0] in matching;
        var k :| 0 <= k < |ps| && ps[k] == matching[0];
        RelinkStep(ps, nextPk, ids, b.id, matching[0].pk);
      } else if |matching| == 0 {
        CreateStep(ps, nextPk, ids, Replacement(b, nextPk, now));
      }
    }
  }

  /** One iteration on sound tables keeps them sound and the booking ids
      as they were, leaves at most one payment for its booking and adds
      none to any other. */
  lemma StepKeepsSound(s: Tables, i: nat, now: int)
    requires Sound(s) && i < |s.bookings|
    ensures Sound(Step(s, i, now).0)
    ensures |Step(s, i, now).0.bookings| == |s.bookings|
    ensures forall k :: 0 <= k < |s.bookings| ==> Step(s, i, now).0.bookings[k].id == s.bookings[k].id
    ensures BookingIds(Step(s, i, now).0.bookings) == BookingIds(s.bookings)
    ensures |Group(Step(s, i, now).0.payments, Some(s.bookings[i].id))| <= 1
    ensures forall key :: key != Some(s.bookings[i].id) ==>
      |Group(Step(s, i, now).0.payments, key)| <= |Group(s.payments, key)|
  {
    var b := s.bookings[i];
    var o := FixOne(b, s.payments, s.nextPk, now);
    assert b in s.bookings;
    FixOneKeeps(b, s.payments, s.nextPk, now, BookingIds(s.bookings));
    UpdateKeepsIds(s.bookings, i, o.booking);
  }

  /** What the run keeps after `n` of the bookings of `t`: the tables `s`
      are sound, hold the same bookings by id, and those `n` bookings have at
      most one payment each. */
  predicate RunKeeps(t: Tables, s: Tables, n: nat) {
    && |s.bookings| == |t.bookings|
    && n <= |s.bookings|
    && Sound(s)
    && BookingIds(s.bookings) == BookingIds(t.bookings)
    && Deduplicated(s, n)
  }

  /** Booking `n`'s iteration extends what the run keeps to `n + 1` bookings. */
  lemma StepExtends(t: Tables, s: Tables, n: nat, now: int)
    requires RunKeeps(t, s, n) && n < |s.bookings|
    ensures RunKeeps(t, Step(s, n, now).0, n + 1)
  {
    StepKeepsSound(s, n, now);
    var s' := Step(s, n, now).0;
    forall b | b in s'.bookings[..n + 1]
      ensures |Group(s'.payments, Some(b.id))| <= 1
    {
      var k :| 0 <= k < n + 1 && s'.bookings[k] == b;
      assert b.id == s.bookings[k].id;
      if k < n {
        assert s.bookings[k] in s.bookings[..n];
        assert s.bookings[k].id != s.bookings[n].id;
      }
    }
  }

  /** Two payments with the same `booking` value make a group of two. */
  lemma {:induction false} SharedGroup(ps: seq<Payment>, i: nat, j: nat)
    requires i < j < |ps| && ps[i].booking == ps[j].booking
    ensures |Group(ps, ps[i].booking)| >= 2
  {
    if i > 0 {
      SharedGroup(ps[1..], i - 1, j - 1);
    } else {
      assert ps[j] == ps[1..][j - 1];
      assert ps[j] in Group(ps[1..], ps[i].booking);
    }
  }

  /** Groups of at most one member for every key: no duplicate groups. */
  lemma GroupsSmallNoDuplicates(ps: seq<Payment>)
    requires forall p :: p in ps ==> |Group(ps, p.booking)| <= 1
    ensures NoDuplicateGroups(ps)
  {
    forall i, j | 0 <= i < j < |ps|
      ensures ps[i].booking != ps[j].booking
    {
      if ps[i].booking == ps[j].booking {
        SharedGroup(ps, i, j);
      }
    }
  }

  lemma {:induction false} GroupDropOrphans(ps: seq<Payment>, id: nat)
    ensures Group(DropOrphans(ps), Some(id)) == Group(ps, Some(id))
  {
    if ps != [] {
      GroupDropOrphans(ps[1..], id);
      var head := if ps[0].booking.Some? then [ps[0]] else [];
      assert DropOrphans(ps) == head + DropOrphans(ps[1..]);
      GroupAppend(head, DropOrphans(ps[1..]), Some(id));
    }
  }

  /** What `verify_fix` reports once the loop has been through every
      booking of sound tables `t` and left `s`: no duplicate groups, and,
      when the cleanup ran, every id a booking names belongs to a payment. */
  lemma FixThenVerify(t: Tables, s: Tables)
    requires RunKeeps(t, s, |t.bookings|)
    ensures VerifyFix(Finish(s)).noDuplicates
    ensures NeedsCleanup(s) ==> VerifyFix(Finish(s)).referencesValid
  {
    assert s.bookings[..|t.bookings|] == s.bookings;
    forall p | p in s.payments && p.booking.Some?
      ensures |Group(s.payments, p.booking)| <= 1
    {
      var k :| 0 <= k < |s.bookings| && s.bookings[k].id == p.booking.value;
    }
    if NeedsCleanup(s) {
      var c := Cleanup(s);
      var ps := c.payments;
      forall p | p in ps
        ensures |Group(ps, p.booking)| <= 1
      {
        GroupDropOrphans(s.payments, p.booking.value);
        assert p in s.payments;
      }
      GroupsSmallNoDuplicates(ps);
    } else {
      forall p | p in s.payments
        ensures |Group(s.payments, p.booking)| <= 1
      {
        assert p in Group(s.payments, p.booking);
      }
      GroupsSmallNoDuplicates(s.payments);
    }
  }

  /** Without the cleanup a stale reference survives: a booking naming "X"
      whose only payment is "Y" is neither fixed nor cleaned, and
      `verify_fix` reports it. */
  lemma StaleReferenceSurvives(b: Booking, now: int)
    requires b.paymentId == Some("X")
    ensures var t := Tables([b], [Payment(0, "Y", Some(b.id), b.price, "card", Success, 0)], 1);
      && !NeedsCleanup(FixUpTo(t, 1, now).0)
      && !VerifyFix(FixDuplicates(t, now).0).referencesValid
  {
    var p := Payment(0, "Y", Some(b.id), b.price, "card", Success, 0);
    var t := Tables([b], [p], 1);
    assert Group([p], Some(b.id)) == [p];
    assert Group([p], None) == [];
    assert FixOne(b, [p], 1, now) == Outcome(b, [p], 1, false);
    assert [b][0 := b] == [b];
    assert FixUpTo(t, 0, now) == (t, 0);
    var s := FixUpTo(t, 1, now).0;
    assert s == t;
    assert PaymentIds([p]) == {"Y"};
  }

  /** Why the run promises only "at most one" for bookings already passed:
      `get(payment_id=...)` does not look at the row's booking, so a later
      booking naming the same id takes the payment of an earlier one. Booking
      0 keeps its payment "X" on its own turn and has none after booking 1's. */
  lemma RelinkTakesAnotherBookingsPayment(b0: Booking, b1: Booking, now: int)
    requires b0.id == 0 && b1.id == 1 && b0.paymentId == Some("X") && b1.paymentId == Some("X")
    ensures var t := Tables([b0, b1], [Payment(0, "X", Some(0), b0.price, "card", Success, 0)], 1);
      && Group(FixUpTo(t, 1, now).0.payments, Some(0)) == t.payments
      && Group(FixUpTo(t, 2, now).0.payments, Some(0)) == []
      && Group(FixUpTo(t, 2, now).0.payments, Some(1)) == [t.payments[0].(booking := Some(1))]
  {
    var p := Payment(0, "X", Some(0), b0.price, "card", Success, 0);
    var t := Tables([b0, b1], [p], 1);
    assert Group([p], Some(0)) == [p];
    assert FixOne(b0, [p], 1, now) == Outcome(b0, [p], 1, false);
    assert [b0, b1][0 := b0] == [b0, b1];
    assert FixUpTo(t, 0, now) == (t, 0);
    assert FixUpTo(t, 1, now).0 == t;
    assert Group([p], Some(1)) == [];
    assert WithPaymentId([p], "X") == [p];
    var q := p.(booking := Some(1));
    assert Relink([p], 0, 1) == [q];
    assert FixOne(b1, [p], 1, now).payments == [q];
    assert Group([q], Some(0)) == [];
    assert Group([q], Some(1)) == [q];
  }

  // ---------------------------------------------------------------------------
  // The script's loops
  // ---------------------------------------------------------------------------

  /** `for payment in payments_to_delete: payment.delete()`. */
  method DeleteOthers(ps: seq<Payment>, id: nat, keptPk: nat) returns (ps': seq<Payment>)
    ensures ps' == Without(ps, id, keptPk)
  {
    ps' := [];
    var i := |ps|;
    while i > 0
      invariant 0 <= i <= |ps|
      invariant ps' == Without(ps[i..], id, keptPk)
    {
      i := i - 1;
      assert ps[i..][1..] == ps[i + 1..];
      if !(ps[i].booking == Some(id) && ps[i].pk != keptPk) {
        ps' := [ps[i]] + ps';
      }
    }
    assert ps[0..] == ps;
  }

  /** One iteration of the loop over bookings. */
  method FixBooking(b: Booking, ps: seq<Payment>, nextPk: nat, now: int)
    returns (b': Booking, ps': seq<Payment>, nextPk': nat, fixed: bool)
    ensures Outcome(b', ps', nextPk', fixed) == FixOne(b, ps, nextPk, now)
  {
    b', ps', nextPk', fixed := b, ps, nextPk, false;
    var payments := Group(ps, Some(b.id));
    if |payments| > 1 {
      var kept := Keep(payments);
      ps' := DeleteOthers(ps, b.id, kept.pk);
      b' := b.(paymentId := Some(kept.paymentId));
      fixed := true;
    } else if b.paymentId.Some? && b.paymentId.value != "" && |payments| == 0 {
      var matching := WithPaymentId(ps, b.paymentId.value);
      if |matching| == 1 {
        ps' := Relink(ps, matching[0].pk, b.id);
        fixed := true;
      } else if |matching| == 0 {
        ps' := ps + [Payment(nextPk, b.paymentId.value, Some(b.id), b.price, "cash", Pending, now)];
        nextPk' := nextPk + 1;
        fixed := true;
      }
    }
  }

  /** `cleanup_orphaned_records`: delete the payments without a booking, then
      clear every payment id that matches no remaining payment. */
  method CleanupOrphanedRecords(t: Tables) returns (t': Tables)
    ensures t' == Cleanup(t)
  {
    var ps: seq<Payment> := [];
    for i := 0 to |t.payments|
      invariant ps == DropOrphans(t.payments[..i])
    {
      DropOrphansSnoc(t.payments, i);
      if t.payments[i].booking.Some? {
        ps := ps + [t.payments[i]];
      }
    }
    assert t.payments[..|t.payments|] == t.payments;
    var ids := PaymentIds(ps);
    var bs := t.bookings;
    for k := 0 to |bs|
      invariant |bs| == |t.bookings|
      invariant forall j :: 0 <= j < |bs| ==> bs[j] == if j < k then ClearInvalid(t.bookings[j], ids) else t.bookings[j]
    {
      if bs[k].paymentId.Some? && bs[k].paymentId.value !in ids {
        bs := bs[k := bs[k].(paymentId := None)];
      }
    }
    t' := Tables(bs, ps, t.nextPk);
  }

  lemma {:induction false} DropOrphansSnoc(ps: seq<Payment>, i: nat)
    requires i < |ps|
    ensures DropOrphans(ps[..i + 1]) == DropOrphans(ps[..i]) + (if ps[i].booking.Some? then [ps[i]] else [])
  {
    DropOrphansAppend(ps[..i], [ps[i]]);
    assert ps[..i + 1] == ps[..i] + [ps[i]];
  }

  lemma {:induction false} DropOrphansAppend(a: seq<Payment>, b: seq<Payment>)
    ensures DropOrphans(a + b) == DropOrphans(a) + DropOrphans(b)
  {
    if a != [] {
      assert (a + b)[1..] == a[1..] + b;
      DropOrphansAppend(a[1..], b);
    } else {
      assert a + b == b;
    }
  }

  /** The loop of `fix_duplicate_payments` over every booking: it computes
      `FixUpTo` and, on sound tables, keeps the run's invariant. */
  method FixAllBookings(t: Tables, now: int) returns (s: Tables, totalFixed: nat)
    ensures (s, totalFixed) == FixUpTo(t, |t.bookings|, now)
    ensures Sound(t) ==> RunKeeps(t, s, |t.bookings|)
  {
    var bs, ps, nextPk := t.bookings, t.payments, t.nextPk;
    totalFixed := 0;
    for i := 0 to |t.bookings|
      invariant (Tables(bs, ps, nextPk), totalFixed) == FixUpTo(t, i, now)
      invariant Sound(t) ==> RunKeeps(t, Tables(bs, ps, nextPk), i)
    {
      var current := Tables(bs, ps, nextPk);
      if Sound(t) {
        StepExtends(t, current, i, now);
      }
      var b', ps', nextPk', fixed := FixBooking(bs[i], ps, nextPk, now);
      assert (Tables(bs[i := b'], ps', nextPk'), fixed) == Step(current, i, now);
      bs, ps, nextPk := bs[i := b'], ps', nextPk';
      if fixed {
        totalFixed := totalFixed + 1;
      }
    }
    s := Tables(bs, ps, nextPk);
  }

  /** `fix_duplicate_payments`: the loop over bookings, the summary counts,
      and the cleanup when they show an orphan. */
  method FixDuplicatePayments(t: Tables, now: int) returns (t': Tables, totalFixed: nat)
    ensures (t', totalFixed) == FixDuplicates(t, now)
    ensures Sound(t) ==> VerifyFix(t').noDuplicates
    ensures Sound(t) && NeedsCleanup(FixUpTo(t, |t.bookings|, now).0) ==> VerifyFix(t').referencesValid
  {
    var s;
    s, totalFixed := FixAllBookings(t, now);
    t' := s;
    var withoutPayments := exists k :: 0 <= k < |s.bookings| && Group(s.payments, Some(s.bookings[k].id)) == [];
    var withoutBookings := |Group(s.payments, None)|;
    if withoutPayments || withoutBookings > 0 {
      t' := CleanupOrphanedRecords(s);
    }
    if Sound(t) {
      FixThenVerify(t, s);
    }
  }

  /** After the cleanup no payment is an orphan, every booking's payment id
      matches a payment, and bookings change only by losing such an id. */
  lemma CleanupMeaning(t: Tables)
    ensures Group(Cleanup(t).payments, None) == []
    ensures ReferencesValid(Cleanup(t))
    ensures forall k :: 0 <= k < |t.bookings| ==>
      Cleanup(t).bookings[k] == t.bookings[k] || Cleanup(t).bookings[k] == t.bookings[k].(paymentId := None)
  {
    var c := Cleanup(t);
    if Group(c.payments, None) != [] {
      assert Group(c.payments, None)[0] in Group(c.payments, None);
    }
  }

  /** The cleanup changes nothing on tables that are already consistent:
      no orphan payments and every reference valid. */
  lemma CleanupIdempotent(t: Tables)
    ensures Cleanup(Cleanup(t)) == Cleanup(t)
  {
    var c := Cleanup(t);
    CleanupMeaning(t);
    DropOrphansNoOrphans(c.payments);
    var c2 := Cleanup(c);
    assert c2.bookings == c.bookings;
  }

  lemma {:induction false} DropOrphansNoOrphans(ps: seq<Payment>)
    requires forall p :: p in ps ==> p.booking.Some?
    ensures DropOrphans(ps) == ps
  {
    if ps != [] {
      DropOrphansNoOrphans(ps[1..]);
      assert ps[0] in ps;
    }
  }
}
