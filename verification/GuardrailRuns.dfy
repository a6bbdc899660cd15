/**
 * Whole runs of the guardrail: any sequence of transactions at nondecreasing ledgers, accepted or
 * not, policed or not, under fixed parameters. What leaves the account in a window of ledgers is
 * bounded by PLM times the number of periods that can touch the window.
 */
module GuardrailRuns {
  import opened Arithmetic
  import opened Bytes
  import opened Wrappers
  import opened Payment
  import opened Guardrail

  datatype Call = Call(tx: Txn, now: nat)

  /** Calls at nondecreasing ledgers, none before `t`. */
  predicate Ordered(calls: seq<Call>, t: nat) {
    calls == [] || (t <= calls[0].now < U64 && Ordered(calls[1..], calls[0].now))
  }

  /** Drops a call lets out of the account within the ledgers `f..l`. */
  function SpentBy(p: Params, me: bytes, stored: Option<bytes>, c: Call, f: nat, l: nat): nat
    requires c.now < U64
  {
    if HookStep(p, me, c.tx, stored, c.now).0 == Within && f <= c.now <= l then Drops(c.tx.amount).value else 0
  }

  /** Drops that the run lets out within the ledgers `f..l`. */
  function Spent(p: Params, me: bytes, stored: Option<bytes>, calls: seq<Call>, t: nat, f: nat, l: nat): nat
    requires Ordered(calls, t)
    decreases |calls|
  {
    if calls == [] then 0
    else SpentBy(p, me, stored, calls[0], f, l)
         + Spent(p, me, HookStep(p, me, calls[0].tx, stored, calls[0].now).1, calls[1..], calls[0].now, f, l)
  }

  predicate Decodable(p: Params) {
    Exact(p.lim, 8).Some? && Exact(p.plm, 8).Some? && Period(p.per).Some? && Period(p.per).value > 0
  }

  function Plm(p: Params): nat
    requires Decodable(p)
  {
    Be64(p.plm.value)
  }

  function Per(p: Params): nat
    requires Decodable(p)
  {
    Period(p.per).value
  }

  // ---- periods ----

  /** Start and total of the stored period, if the slot holds one. */
  function Stored(v: Option<bytes>): Option<(nat, nat)> {
    if v.Some? && |v.value| == 16 then Some((Be64(v.value[..8]), Be64(v.value[8..]))) else None
  }

  /** The stored period covers ledger `t`. */
  predicate Live(v: Option<bytes>, per: nat, t: nat) {
    Stored(v).Some? && Stored(v).value.0 <= t < Stored(v).value.0 + per
  }

  /** The first ledger after the stored period. */
  function PeriodEnd(v: Option<bytes>, per: nat): nat
    requires Stored(v).Some?
  {
    Stored(v).value.0 + per
  }

  /** What may still go out under the stored period. */
  function Headroom(v: Option<bytes>, plm: nat): nat
    requires Stored(v).Some?
  {
    Remaining(Stored(v).value.1, plm)
  }

  /** How many periods of length `per` can open within `a..l`. */
  function Openings(a: nat, l: nat, per: nat): nat
    requires per > 0
  {
    if a > l then 0 else (l - a) / per + 1
  }

  lemma OpeningsShrink(a: nat, b: nat, l: nat, per: nat)
    requires per > 0 && a <= b
    ensures Openings(b, l, per) <= Openings(a, l, per)
  {
    if b <= l {
      DivMonotone(l - b, l - a, per);
    }
  }

  lemma OpeningsStep(t: nat, l: nat, per: nat)
    requires per > 0 && t <= l
    ensures Openings(t, l, per) == 1 + Openings(t + per, l, per)
  {
    if t + per <= l {
      ModUnique(l - t, per, (l - t - per) / per + 1, (l - t - per) % per);
    } else {
      ModUnique(l - t, per, 0, l - t);
    }
  }

  // ---- one call ----

  /** The most that can go out from `t` on, up to ledger `l`: the open period's rest, then PLM a period. */
  function Bound(p: Params, v: Option<bytes>, t: nat, l: nat): nat
    requires Decodable(p)
  {
    PerPositive(p);
    var first := if Live(v, Per(p), t) then PeriodEnd(v, Per(p)) else t;
    NonNegative(Openings(first, l, Per(p)), Plm(p));
    (if Live(v, Per(p), t) then Headroom(v, Plm(p)) else 0) + Openings(first, l, Per(p)) * Plm(p)
  }

  lemma PerPositive(p: Params)
    requires Decodable(p)
    ensures Per(p) > 0
  {
  }

  lemma OpeningsCost(a: nat, b: nat, l: nat, per: nat, plm: nat)
    requires per > 0 && a <= b
    ensures Openings(b, l, per) * plm <= Openings(a, l, per) * plm
  {
    OpeningsShrink(a, b, l, per);
    MulLe(Openings(b, l, per), Openings(a, l, per), plm);
  }

  lemma OpeningCost(t: nat, l: nat, per: nat, plm: nat)
    requires per > 0 && t <= l
    ensures Openings(t, l, per) * plm == plm + Openings(t + per, l, per) * plm
  {
    OpeningsStep(t, l, per);
    OneMore(Openings(t + per, l, per), plm);
  }

  /** Waiting never raises the bound, not even when a stored period that lies ahead is reached. */
  lemma BoundShrinks(p: Params, v: Option<bytes>, t: nat, now: nat, l: nat)
    requires Decodable(p) && t <= now <= l
    ensures Bound(p, v, now, l) <= Bound(p, v, t, l)
  {
    hide Openings, Stored, Plm, Per;
    PerPositive(p);
    var plm, per := Plm(p), Per(p);
    if Live(v, per, t) {
      if !Live(v, per, now) {
        OpeningsCost(PeriodEnd(v, per), now, l, per, plm);
      }
    } else if Live(v, per, now) {
      var start := Stored(v).value.0;
      OpeningCost(start, l, per, plm);
      OpeningsCost(t, start, l, per, plm);
    } else {
      OpeningsCost(t, now, l, per, plm);
    }
  }

  /** A call spends no more than it takes off the bound. */
  lemma CallWithinBound(p: Params, me: bytes, v: Option<bytes>, c: Call, t: nat, f: nat, l: nat)
    requires Decodable(p) && t <= c.now < U64 && c.now <= l
    ensures SpentBy(p, me, v, c, f, l) + Bound(p, HookStep(p, me, c.tx, v, c.now).1, c.now, l) <= Bound(p, v, t, l)
  {
    hide HookStep, Openings, Stored, Plm, Per, Drops;
    PerPositive(p);
    BoundShrinks(p, v, t, c.now, l);
    if HookStep(p, me, c.tx, v, c.now).0 != Within {
      NotWithinKeeps(p, me, c.tx, v, c.now);
    } else {
      var start, spent := AcceptedStores(p, me, c.tx, v, c.now);
      if !Live(v, Per(p), c.now) {
        OpeningCost(c.now, l, Per(p), Plm(p));
      }
    }
  }

  lemma NotWithinKeeps(p: Params, me: bytes, tx: Txn, v: Option<bytes>, now: nat)
    requires now < U64 && HookStep(p, me, tx, v, now).0 != Within
    ensures HookStep(p, me, tx, v, now).1 == v
  {
  }

  /** An accepted payment falls in the stored period, or opens one at the current ledger. */
  lemma AcceptedStores(p: Params, me: bytes, tx: Txn, v: Option<bytes>, now: nat) returns (start: nat, spent: nat)
    requires now < U64 && Decodable(p) && HookStep(p, me, tx, v, now).0 == Within
    ensures Drops(tx.amount).Some?
    ensures var amount, w := Drops(tx.amount).value, HookStep(p, me, tx, v, now).1;
            && Stored(w) == Some((start, spent + amount)) && amount <= Remaining(spent, Plm(p))
            && (if Stored(v).Some? && Stored(v).value.0 <= now < Stored(v).value.0 + Per(p)
                then Stored(v).value == (start, spent) else start == now && spent == 0)
  {
    hide Be64, Wr64;
    AcceptedIsWithinBudget(p, me, tx, v, now);
    var slot := SlotAt(v, Per(p), now);
    start, spent := slot.start, slot.spent;
    var amount := Drops(tx.amount).value;
    var w := HookStep(p, me, tx, v, now).1.value;
    SlotRoundTrip(start);
    SlotRoundTrip(spent + amount);
    assert w[..8] == Wr64(start) && w[8..] == Wr64(spent + amount);
  }

  // ---- runs ----

  lemma {:induction false} LateSpendsNothing(p: Params, me: bytes, v: Option<bytes>, calls: seq<Call>,
                                             t: nat, f: nat, l: nat)
    requires Ordered(calls, t) && t > l
    ensures Spent(p, me, v, calls, t, f, l) == 0
    decreases |calls|
  {
    if calls != [] {
      LateSpendsNothing(p, me, HookStep(p, me, calls[0].tx, v, calls[0].now).1, calls[1..], calls[0].now, f, l);
    }
  }

  lemma {:induction false} RunWithinBound(p: Params, me: bytes, v: Option<bytes>, calls: seq<Call>,
                                          t: nat, f: nat, l: nat)
    requires Decodable(p) && Ordered(calls, t)
    ensures Spent(p, me, v, calls, t, f, l) <= Bound(p, v, t, l)
    decreases |calls|
  {
    hide HookStep, Bound;
    if calls != [] {
      var c := calls[0];
      var w := HookStep(p, me, c.tx, v, c.now).1;
      if c.now <= l {
        CallWithinBound(p, me, v, c, t, f, l);
        RunWithinBound(p, me, w, calls[1..], c.now, f, l);
      } else {
        LateSpendsNothing(p, me, w, calls[1..], c.now, f, l);
      }
    }
  }

  /** A run that no stored period covers at its start spends at most PLM per period that fits into `f..l`. */
  lemma FreshRun(p: Params, me: bytes, v: Option<bytes>, calls: seq<Call>, f: nat, l: nat)
    requires Decodable(p) && f <= l && Ordered(calls, f) && !Live(v, Per(p), f)
    ensures Spent(p, me, v, calls, f, f, l) <= ((l - f) / Per(p) + 1) * Plm(p)
  {
    RunWithinBound(p, me, v, calls, f, f, l);
  }

  /** Any window of any run: the period that was open when the window began may add one more PLM. */
  lemma {:induction false} AnyWindow(p: Params, me: bytes, v: Option<bytes>, calls: seq<Call>, t: nat, f: nat, l: nat)
    requires Decodable(p) && f <= l && Ordered(calls, t)
    ensures Spent(p, me, v, calls, t, f, l) <= ((l - f) / Per(p) + 2) * Plm(p)
    decreases |calls|
  {
    hide HookStep, Drops, Be64, Plm, Bound;
    if calls == [] {
      MulLe(0, (l - f) / Per(p) + 2, Plm(p));
    } else if calls[0].now < f {
      AnyWindow(p, me, HookStep(p, me, calls[0].tx, v, calls[0].now).1, calls[1..], calls[0].now, f, l);
    } else {
      SameFrom(p, me, v, calls, t, calls[0].now, f, l);
      RunWithinBound(p, me, v, calls, calls[0].now, f, l);
      BoundInWindow(p, v, calls[0].now, f, l);
    }
  }

  lemma BoundInWindow(p: Params, v: Option<bytes>, t: nat, f: nat, l: nat)
    requires Decodable(p) && f <= l && f <= t
    ensures Bound(p, v, t, l) <= ((l - f) / Per(p) + 2) * Plm(p)
  {
    hide Plm, Per, Openings, Stored;
    var plm, per := Plm(p), Per(p);
    PerPositive(p);
    OpeningsCost(f, if Live(v, per, t) then PeriodEnd(v, per) else t, l, per, plm);
    InWindow(f, l, per);
    OneMore((l - f) / per + 1, plm);
  }

  lemma InWindow(f: nat, l: nat, per: nat)
    requires f <= l && per > 0
    ensures Openings(f, l, per) == (l - f) / per + 1
  {
  }

  lemma SameFrom(p: Params, me: bytes, v: Option<bytes>, calls: seq<Call>, t: nat, u: nat, f: nat, l: nat)
    requires Ordered(calls, t) && calls != [] && u <= calls[0].now
    ensures Ordered(calls, u) && Spent(p, me, v, calls, u, f, l) == Spent(p, me, v, calls, t, f, l)
  {
  }

  /** The published limit: in any PER consecutive ledgers at most twice PLM goes out. */
  lemma SlidingWindow(p: Params, me: bytes, v: Option<bytes>, calls: seq<Call>, t: nat, f: nat)
    requires Decodable(p) && Ordered(calls, t)
    ensures Spent(p, me, v, calls, t, f, f + Per(p) - 1) <= 2 * Plm(p)
  {
    var per := Per(p);
    AnyWindow(p, me, v, calls, t, f, f + per - 1);
    ModUnique(per - 1, per, 0, per - 1);
  }
}
