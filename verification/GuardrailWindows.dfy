/**
 * The spending bound is exact: from any state the guardrail can be driven to spend all of it, one
 * drop at a time. So the bound of PLM per period that fits into a window holds for every run exactly
 * when no period with headroom left ends inside the window at the wrong moment.
 */
module GuardrailWindows {
  import opened Arithmetic
  import opened Bytes
  import opened Wrappers
  import opened Payment
  import opened Guardrail
  import opened GuardrailRuns

  // ---- payments that are accepted ----

  /** An outgoing payment to a destination that the policy allows. */
  function Pay(p: Params, me: bytes, amount: nat): Txn {
    Txn(true, me, if Exact(p.dst, 20).Some? then p.dst.value else [], NativeAmount(amount))
  }

  lemma PaidDrops(v: nat)
    requires v < DROPS_LIMIT
    ensures Drops(NativeAmount(v)) == Some(v)
  {
    hide ReadDrops;
    DropsRoundTrip(v);
  }

  lemma StepAccepts(p: Params, me: bytes, tx: Txn, v: nat, stored: Option<bytes>, now: nat, start: nat, spent: nat)
    requires Policed(p, me, tx) && Allowed(p, tx) && now < U64 && Drops(tx.amount) == Some(v)
    requires SlotAt(stored, Per(p), now) == Open(start, spent) && start < U64
    requires spent + v <= Plm(p) && v <= Be64(p.lim.value)
    ensures HookStep(p, me, tx, stored, now) == (Within, Some(Encode(start, spent + v)))
  {
    hide Be64, Be32, Wr64, Drops, SlotAt;
  }

  lemma Accepts(p: Params, me: bytes, stored: Option<bytes>, now: nat, start: nat, spent: nat, v: nat)
    requires Decodable(p) && |me| == 20 && now < U64 && v < DROPS_LIMIT
    requires SlotAt(stored, Per(p), now) == Open(start, spent) && start < U64
    requires spent + v <= Plm(p) && v <= Be64(p.lim.value)
    ensures HookStep(p, me, Pay(p, me, v), stored, now) == (Within, Some(Encode(start, spent + v)))
    ensures Drops(NativeAmount(v)) == Some(v)
  {
    hide Be64, Be32, Wr64, ReadDrops, HookStep, SlotAt, Drops;
    PaidDrops(v);
    StepAccepts(p, me, Pay(p, me, v), v, stored, now, start, spent);
  }

  lemma EncodedSlot(start: nat, spent: nat, per: nat, now: nat)
    requires start < U64 && spent < U64
    ensures SlotAt(Some(Encode(start, spent)), per, now) ==
            if now < start || now - start >= per then Open(now, 0) else Open(start, spent)
    ensures Stored(Some(Encode(start, spent))) == Some((start, spent))
  {
    SlotRoundTrip(start);
    SlotRoundTrip(spent);
    var w := Encode(start, spent);
    assert w[..8] == Wr64(start) && w[8..] == Wr64(spent);
  }

  lemma Pays(p: Params, me: bytes, v: Option<bytes>, w: Option<bytes>, amount: nat, now: nat,
             rest: seq<Call>, t: nat, f: nat, l: nat)
    requires t <= now < U64 && Ordered(rest, now) && Drops(NativeAmount(amount)) == Some(amount)
    requires HookStep(p, me, Pay(p, me, amount), v, now) == (Within, w)
    ensures var calls := [Call(Pay(p, me, amount), now)] + rest;
            && Ordered(calls, t)
            && Spent(p, me, v, calls, t, f, l) ==
               (if f <= now <= l then amount else 0) + Spent(p, me, w, rest, now, f, l)
  {
    hide HookStep, Drops;
    var calls := [Call(Pay(p, me, amount), now)] + rest;
    assert calls[1..] == rest;
  }

  // ---- spending all of the bound ----

  /** The slot after `n` drops have been paid out of it. */
  function After(v: Option<bytes>, start: nat, spent: nat, n: nat): Option<bytes>
    requires start < U64 && spent + n < U64
  {
    if n == 0 then v else Some(Encode(start, spent + n))
  }

  /** `n` drops leave within one period, one at a time, before whatever comes next. */
  lemma {:induction false} PayMany(p: Params, me: bytes, v: Option<bytes>, now: nat, start: nat, spent: nat, n: nat,
                                   rest: seq<Call>, f: nat, l: nat) returns (calls: seq<Call>)
    requires Decodable(p) && |me| == 20 && Be64(p.lim.value) > 0 && f <= now <= l && now < U64 && Ordered(rest, now)
    requires SlotAt(v, Per(p), now) == Open(start, spent) && start < U64 && spent + n <= Plm(p)
    ensures Ordered(calls, now)
    ensures Spent(p, me, v, calls, now, f, l) == n + Spent(p, me, After(v, start, spent, n), rest, now, f, l)
    decreases n
  {
    hide Be64, Be32, Wr64, HookStep, Drops, SlotAt, NativeAmount;
    calls := rest;
    if n > 0 {
      var w := Some(Encode(start, spent + 1));
      Accepts(p, me, v, now, start, spent, 1);
      StaysOpen(v, Per(p), now, start, spent, spent + 1);
      var more := PayMany(p, me, w, now, start, spent + 1, n - 1, rest, f, l);
      Pays(p, me, v, w, 1, now, more, now, f, l);
      calls := [Call(Pay(p, me, 1), now)] + more;
    }
  }

  lemma StaysOpen(v: Option<bytes>, per: nat, now: nat, start: nat, spent: nat, total: nat)
    requires SlotAt(v, per, now) == Open(start, spent) && start < U64 && total < U64 && per > 0
    ensures SlotAt(Some(Encode(start, total)), per, now) == Open(start, total)
  {
    hide Be64;
    EncodedSlot(start, total, per, now);
  }

  lemma LaterStart(p: Params, me: bytes, v: Option<bytes>, calls: seq<Call>, t: nat, u: nat, f: nat, l: nat)
    requires Ordered(calls, u) && t <= u
    ensures Ordered(calls, t) && Spent(p, me, v, calls, t, f, l) == Spent(p, me, v, calls, u, f, l)
  {
  }

  /** From ledger `t`, where a period can open, PLM goes out in every period that can open up to `l`. */
  lemma {:induction false} FillPeriods(p: Params, me: bytes, v: Option<bytes>, t: nat, f: nat, l: nat)
    returns (calls: seq<Call>)
    requires Decodable(p) && |me| == 20 && Be64(p.lim.value) > 0 && f <= t && l < U64
    requires SlotAt(v, Per(p), t) == Open(t, 0)
    ensures Ordered(calls, t) && Spent(p, me, v, calls, t, f, l) == Openings(t, l, Per(p)) * Plm(p)
    decreases if t <= l then l - t + 1 else 0
  {
    hide Be64, Be32, Wr64, HookStep, SlotAt;
    PerPositive(p);
    calls := [];
    if t <= l && Plm(p) > 0 {
      var per, w := Per(p), Some(Encode(t, Plm(p)));
      EncodedSlot(t, Plm(p), per, t + per);
      var later := FillPeriods(p, me, w, t + per, f, l);
      LaterStart(p, me, w, later, t, t + per, f, l);
      calls := PayMany(p, me, v, t, t, 0, Plm(p), later, f, l);
      OpeningCost(t, l, per, Plm(p));
    }
  }

  /** A stored value of fewer than sixteen bytes, on which the hook always rolls back. */
  predicate Corrupted(v: Option<bytes>) {
    v.Some? && |v.value| < 16
  }

  lemma SlotOf(v: Option<bytes>, per: nat, t: nat)
    requires !Corrupted(v)
    ensures SlotAt(v, per, t) == if Live(v, per, t) then Open(Stored(v).value.0, Stored(v).value.1) else Open(t, 0)
    ensures Stored(v).Some? ==> Stored(v).value.0 < U64 && Stored(v).value.1 < U64
  {
    hide Be64;
  }

  /** Some run from ledger `f` on spends the whole bound. */
  lemma BoundIsReached(p: Params, me: bytes, v: Option<bytes>, f: nat, l: nat) returns (calls: seq<Call>)
    requires Decodable(p) && |me| == 20 && Be64(p.lim.value) > 0 && f <= l < U64 && !Corrupted(v)
    ensures Ordered(calls, f) && Spent(p, me, v, calls, f, f, l) == Bound(p, v, f, l)
  {
    hide Be64, Be32, Wr64, HookStep, SlotAt, Stored, Openings;
    PerPositive(p);
    var per, plm := Per(p), Plm(p);
    SlotOf(v, per, f);
    if !Live(v, per, f) {
      calls := FillPeriods(p, me, v, f, f, l);
    } else {
      var (start, spent) := Stored(v).value;
      var n := Headroom(v, plm);
      var e := PeriodEnd(v, per);
      if n > 0 {
        EncodedSlot(start, spent + n, per, e);
        var later := FillPeriods(p, me, Some(Encode(start, spent + n)), e, f, l);
        LaterStart(p, me, Some(Encode(start, spent + n)), later, f, e, f, l);
        calls := PayMany(p, me, v, f, start, spent, n, later, f, l);
      } else {
        SlotOf(v, per, e);
        calls := FillPeriods(p, me, v, e, f, l);
        LaterStart(p, me, v, calls, f, e, f, l);
      }
    }
  }

  // ---- when PLM per fitting period is a bound ----

  lemma {:induction false} CorruptSpendsNothing(p: Params, me: bytes, v: Option<bytes>, calls: seq<Call>,
                                                t: nat, f: nat, l: nat)
    requires Ordered(calls, t) && Corrupted(v)
    ensures Spent(p, me, v, calls, t, f, l) == 0
    decreases |calls|
  {
    if calls != [] {
      CorruptSpendsNothing(p, me, v, calls[1..], calls[0].now, f, l);
    }
  }

  lemma {:induction false} NoLimitSpendsNothing(p: Params, me: bytes, v: Option<bytes>, calls: seq<Call>,
                                                t: nat, f: nat, l: nat)
    requires Decodable(p) && Be64(p.lim.value) == 0 && Ordered(calls, t)
    ensures Spent(p, me, v, calls, t, f, l) == 0
    decreases |calls|
  {
    hide Be64, Be32;
    if calls != [] {
      NoLimitSpendsNothing(p, me, HookStep(p, me, calls[0].tx, v, calls[0].now).1, calls[1..], calls[0].now, f, l);
    }
  }

  /** The periods of length PER that fit into `f..l`, PLM for each. */
  function PerFittingPeriod(p: Params, f: nat, l: nat): nat
    requires Decodable(p) && f <= l
  {
    PerPositive(p);
    NonNegative(Openings(f, l, Per(p)), Plm(p));
    Openings(f, l, Per(p)) * Plm(p)
  }

  lemma PerFittingPeriodIs(p: Params, f: nat, l: nat)
    requires Decodable(p) && f <= l
    ensures PerFittingPeriod(p, f, l) == ((l - f) / Per(p) + 1) * Plm(p)
  {
    hide Plm, Per, Openings;
    PerPositive(p);
    InWindow(f, l, Per(p));
  }

  /**
   * At ledger `f` a stored period is open, something may still go out under it, and it ends early
   * enough in the window for as many fresh periods to open after it as fit into the whole window.
   */
  predicate Straddled(p: Params, v: Option<bytes>, f: nat, l: nat)
    requires Decodable(p) && f <= l
  {
    && Be64(p.lim.value) > 0
    && Live(v, Per(p), f) && Headroom(v, Plm(p)) > 0
    && PeriodEnd(v, Per(p)) <= l && (l - PeriodEnd(v, Per(p))) / Per(p) == (l - f) / Per(p)
  }

  lemma RestExceedsIff(h: nat, a: nat, b: nat, plm: nat)
    requires h <= plm && a <= b
    ensures h + a * plm > b * plm <==> h > 0 && a == b
  {
    if a < b {
      MulLe(a + 1, b, plm);
      OneMore(a, plm);
    }
  }

  lemma SameOpenings(e: nat, f: nat, l: nat, per: nat)
    requires per > 0 && f <= l && f < e
    ensures Openings(e, l, per) == Openings(f, l, per) <==> e <= l && (l - e) / per == (l - f) / per
  {
    InWindow(f, l, per);
    DivMonotone(0, l - f, per);
  }

  lemma StraddleExceedsIff(h: nat, e: nat, f: nat, l: nat, per: nat, plm: nat)
    requires per > 0 && f <= l && h <= plm && f < e
    ensures h + Openings(e, l, per) * plm > Openings(f, l, per) * plm
            <==> h > 0 && e <= l && (l - e) / per == (l - f) / per
  {
    hide Openings;
    OpeningsShrink(f, e, l, per);
    SameOpenings(e, f, l, per);
    RestExceedsIff(h, Openings(e, l, per), Openings(f, l, per), plm);
  }

  lemma BoundExceedsIff(p: Params, v: Option<bytes>, f: nat, l: nat)
    requires Decodable(p) && f <= l && Be64(p.lim.value) > 0
    ensures Bound(p, v, f, l) > PerFittingPeriod(p, f, l) <==> Straddled(p, v, f, l)
  {
    hide Be64, Plm, Per, Stored, Openings;
    PerPositive(p);
    if Live(v, Per(p), f) {
      StraddleExceedsIff(Headroom(v, Plm(p)), PeriodEnd(v, Per(p)), f, l, Per(p), Plm(p));
    }
  }

  /**
   * From state `v` at ledger `f`: every run keeps to PLM per period that fits into `f..l`, exactly
   * when the window is not straddled.
   */
  lemma WithinFittingPeriodsIff(p: Params, me: bytes, v: Option<bytes>, f: nat, l: nat)
    requires Decodable(p) && |me| == 20 && f <= l < U64
    ensures (forall calls :: Ordered(calls, f) ==>
               Spent(p, me, v, calls, f, f, l) <= ((l - f) / Per(p) + 1) * Plm(p))
            <==> !Straddled(p, v, f, l)
  {
    hide Be64, Spent, Bound, PerFittingPeriod, Plm, Per;
    PerFittingPeriodIs(p, f, l);
    if Be64(p.lim.value) > 0 {
      BoundExceedsIff(p, v, f, l);
    }
    if Straddled(p, v, f, l) {
      var calls := BoundIsReached(p, me, v, f, l);
      assert Ordered(calls, f) && Spent(p, me, v, calls, f, f, l) > PerFittingPeriod(p, f, l);
    } else {
      forall calls | Ordered(calls, f)
        ensures Spent(p, me, v, calls, f, f, l) <= PerFittingPeriod(p, f, l)
      {
        if Be64(p.lim.value) == 0 {
          NoLimitSpendsNothing(p, me, v, calls, f, f, l);
        } else {
          RunWithinBound(p, me, v, calls, f, f, l);
        }
      }
    }
  }

  // ---- windows inside longer runs ----

  /** The slot that a run leaves behind. */
  function Left(p: Params, me: bytes, v: Option<bytes>, calls: seq<Call>, t: nat): Option<bytes>
    requires Ordered(calls, t)
    decreases |calls|
  {
    if calls == [] then v
    else Left(p, me, HookStep(p, me, calls[0].tx, v, calls[0].now).1, calls[1..], calls[0].now)
  }

  predicate Before(calls: seq<Call>, f: nat) {
    forall k :: 0 <= k < |calls| ==> calls[k].now < f
  }

  /** What a window sees of a longer run is the slot with which it is entered, and the calls from then on. */
  lemma {:induction false} WindowStarts(p: Params, me: bytes, v: Option<bytes>, before: seq<Call>, calls: seq<Call>,
                                        t: nat, f: nat, l: nat)
    requires t <= f && Ordered(before, t) && Before(before, f) && Ordered(calls, f)
    ensures Ordered(before + calls, t)
    ensures Spent(p, me, v, before + calls, t, f, l) == Spent(p, me, Left(p, me, v, before, t), calls, f, f, l)
    decreases |before|
  {
    hide HookStep;
    if before == [] {
      assert before + calls == calls;
      LaterStart(p, me, v, calls, t, f, f, l);
    } else {
      var c := before[0];
      assert (before + calls)[1..] == before[1..] + calls;
      WindowStarts(p, me, HookStep(p, me, c.tx, v, c.now).1, before[1..], calls, c.now, f, l);
    }
  }

  /**
   * A window `f..l` of a longer run, entered after the calls in `before`: every continuation keeps to
   * PLM per period that fits, exactly when the slot left by `before` does not straddle the window.
   */
  lemma WindowWithinFittingPeriodsIff(p: Params, me: bytes, v: Option<bytes>, before: seq<Call>, t: nat, f: nat, l: nat)
    requires Decodable(p) && |me| == 20 && t <= f <= l < U64 && Ordered(before, t) && Before(before, f)
    ensures (forall calls :: Ordered(calls, f) ==>
               && Ordered(before + calls, t)
               && Spent(p, me, v, before + calls, t, f, l) <= ((l - f) / Per(p) + 1) * Plm(p))
            <==> !Straddled(p, Left(p, me, v, before, t), f, l)
  {
    hide Spent, Straddled, Left, Plm, Per;
    var w := Left(p, me, v, before, t);
    WithinFittingPeriodsIff(p, me, w, f, l);
    forall calls | Ordered(calls, f)
      ensures Ordered(before + calls, t)
      ensures Spent(p, me, v, before + calls, t, f, l) == Spent(p, me, w, calls, f, f, l)
    {
      WindowStarts(p, me, v, before, calls, t, f, l);
    }
  }

  /**
   * The failing case occurs: with LIM = PLM = 5 and PER = 10, paying 1 drop at ledger 0 opens a period
   * that straddles the two ledgers 9 and 10, and some run sends 2 * PLM - 1 within them, although only
   * one period of length PER fits.
   */
  lemma NearlyTwicePlmInTwoLedgers(me: bytes) returns (calls: seq<Call>)
    requires |me| == 20
    ensures var p := Params(Some(Wr64(5)), Some(Wr64(5)), Some(Wr64(10)), None);
            var before := [Call(Pay(p, me, 1), 0)];
            && Decodable(p) && Plm(p) == 5 && Per(p) == 10 && Ordered(before + calls, 0)
            && Spent(p, me, None, before + calls, 0, 9, 10) == 9 == 2 * Plm(p) - 1
            && ((10 - 9) / Per(p) + 1) * Plm(p) == 5
  {
    calls := AfterOpening(me, 1);
  }

  /** And a period opened by a payment of nothing leaves 2 * PLM. */
  lemma TwicePlmInTwoLedgers(me: bytes) returns (calls: seq<Call>)
    requires |me| == 20
    ensures var p := Params(Some(Wr64(5)), Some(Wr64(5)), Some(Wr64(10)), None);
            var before := [Call(Pay(p, me, 0), 0)];
            && Decodable(p) && Plm(p) == 5 && Per(p) == 10 && Ordered(before + calls, 0)
            && Spent(p, me, None, before + calls, 0, 9, 10) == 10 == 2 * Plm(p)
            && ((10 - 9) / Per(p) + 1) * Plm(p) == 5
  {
    calls := AfterOpening(me, 0);
  }

  lemma AfterOpening(me: bytes, first: nat) returns (calls: seq<Call>)
    requires |me| == 20 && first <= 5
    ensures var p := Params(Some(Wr64(5)), Some(Wr64(5)), Some(Wr64(10)), None);
            var before := [Call(Pay(p, me, first), 0)];
            && Decodable(p) && Plm(p) == 5 && Per(p) == 10 && Ordered(before + calls, 0)
            && Spent(p, me, None, before + calls, 0, 9, 10) == 10 - first
  {
    hide Be64, Be32, Wr64, HookStep, SlotAt, Spent, NativeAmount;
    var p := Params(Some(Wr64(5)), Some(Wr64(5)), Some(Wr64(10)), None);
    SlotRoundTrip(5);
    SlotRoundTrip(10);
    var before := [Call(Pay(p, me, first), 0)];
    var v := Some(Encode(0, first));
    SlotOf(None, 10, 0);
    Accepts(p, me, None, 0, 0, 0, first);
    EncodedSlot(0, first, 10, 9);
    calls := BoundIsReached(p, me, v, 9, 10);
    WindowStarts(p, me, None, before, calls, 0, 9, 10);
    assert Left(p, me, None, before, 0) == Left(p, me, v, [], 0);
  }

  // ---- runs in which every payment moves something ----

  predicate Positive(calls: seq<Call>) {
    forall k :: 0 <= k < |calls| ==> (Drops(calls[k].tx.amount).Some? ==> Drops(calls[k].tx.amount).value > 0)
  }

  /** No stored period, or one under which something has gone out. */
  predicate Used(v: Option<bytes>) {
    Stored(v).Some? ==> Stored(v).value.1 > 0
  }

  lemma PositiveCallUses(p: Params, me: bytes, v: Option<bytes>, c: Call)
    requires Decodable(p) && Used(v) && Positive([c]) && c.now < U64
    ensures Used(HookStep(p, me, c.tx, v, c.now).1)
  {
    hide HookStep, Stored, Drops;
    assert [c][0] == c;
    if HookStep(p, me, c.tx, v, c.now).0 != Within {
      NotWithinKeeps(p, me, c.tx, v, c.now);
    } else {
      var start, spent := AcceptedStores(p, me, c.tx, v, c.now);
    }
  }

  lemma UsedBound(p: Params, v: Option<bytes>, t: nat, f: nat, l: nat)
    requires Decodable(p) && Plm(p) > 0 && Used(v) && f <= l && f <= t
    ensures Bound(p, v, t, l) <= ((l - f) / Per(p) + 2) * Plm(p) - 1
  {
    hide Plm, Per, Openings, Stored;
    var plm, per := Plm(p), Per(p);
    PerPositive(p);
    OpeningsCost(f, if Live(v, per, t) then PeriodEnd(v, per) else t, l, per, plm);
    InWindow(f, l, per);
    OneMore((l - f) / per + 1, plm);
  }

  /** If every payment moves something, any window of a run from fresh state stays one drop below the general bound. */
  lemma {:induction false} PositiveWindow(p: Params, me: bytes, v: Option<bytes>, calls: seq<Call>,
                                         t: nat, f: nat, l: nat)
    requires Decodable(p) && Plm(p) > 0 && Used(v) && Positive(calls) && f <= l && Ordered(calls, t)
    ensures Spent(p, me, v, calls, t, f, l) <= ((l - f) / Per(p) + 2) * Plm(p) - 1
    decreases |calls|
  {
    hide HookStep, Drops, Plm, Per, Bound, Used;
    if calls == [] {
      MulLe(1, (l - f) / Per(p) + 2, Plm(p)) by { PerPositive(p); DivMonotone(0, l - f, Per(p)); }
    } else if calls[0].now < f {
      var c := calls[0];
      PositiveCallUses(p, me, v, c);
      PositiveWindow(p, me, HookStep(p, me, c.tx, v, c.now).1, calls[1..], c.now, f, l);
    } else {
      SameFrom(p, me, v, calls, t, calls[0].now, f, l);
      RunWithinBound(p, me, v, calls, calls[0].now, f, l);
      UsedBound(p, v, calls[0].now, f, l);
    }
  }

  /** So in any PER consecutive ledgers of such a run at most 2 * PLM - 1 goes out. */
  lemma PositiveSlidingWindow(p: Params, me: bytes, calls: seq<Call>, t: nat, f: nat)
    requires Decodable(p) && Plm(p) > 0 && Positive(calls) && Ordered(calls, t)
    ensures Spent(p, me, None, calls, t, f, f + Per(p) - 1) <= 2 * Plm(p) - 1
  {
    var per := Per(p);
    PositiveWindow(p, me, None, calls, t, f, f + per - 1);
    ModUnique(per - 1, per, 0, per - 1);
  }
}
