/**
 * The facilitator's /policy readout of the stateful guardrail: decoding of the parameters and of
 * the budget slot, and `computeBudget`. It is compared with what the hook then does.
 */
module PolicyReadout {
  import opened Arithmetic
  import opened Bytes
  import opened Wrappers
  import opened Payment
  import opened Guardrail
  import opened GuardrailRuns
  import opened GuardrailWindows

  const MAX_DROPS := 100_000_000_000 * 1_000_000

  /** Eight bytes, at most the total supply. */
  function DecodeDrops(b: Option<bytes>): Option<nat> {
    if b.None? || |b.value| != 8 || BigEndian(b.value) > MAX_DROPS then None else Some(BigEndian(b.value))
  }

  /** Four or eight bytes, not zero. */
  function DecodePer(b: Option<bytes>): Option<nat> {
    if b.None? || (|b.value| != 4 && |b.value| != 8) || BigEndian(b.value) == 0 then None else Some(BigEndian(b.value))
  }

  /** Exactly sixteen bytes: period start, then the total spent. */
  function DecodeState(v: bytes): Option<(nat, nat)> {
    if |v| != 16 then None else Some((BigEndian(v[..8]), BigEndian(v[8..])))
  }

  datatype Budget = Budget(live: bool, spentThisPeriod: nat, remaining: nat, resetInLedgers: nat, maxNextPayment: nat)

  function ComputeBudget(now: nat, start: nat, spent: nat, lim: nat, plm: nat, per: nat): Budget {
    var live := now >= start && now - start < per;
    var remaining := if !live then plm else if spent <= plm then plm - spent else 0;
    Budget(live, spent, remaining, if live then start + per - now else 0, Min(lim, remaining))
  }

  /** The reported policy; None when a part of it cannot be decoded and nothing is claimed. */
  function Policy(p: Params, stored: Option<bytes>, now: nat): Option<Budget> {
    var lim, plm, per := DecodeDrops(p.lim), DecodeDrops(p.plm), DecodePer(p.per);
    if lim.None? || plm.None? || per.None? then None
    else if stored.None? then Some(Budget(false, 0, plm.value, 0, Min(lim.value, plm.value)))
    else
      var s := DecodeState(stored.value);
      if s.None? then None
      else Some(ComputeBudget(now, s.value.0, s.value.1, lim.value, plm.value, per.value))
  }

  /** The two decoders read the same numbers. */
  lemma SameNumbers(p: Params, stored: Option<bytes>, now: nat)
    requires Policy(p, stored, now).Some?
    ensures Decodable(p) && (stored.Some? ==> |stored.value| == 16)
    ensures Be64(p.lim.value) == DecodeDrops(p.lim).value
    ensures Plm(p) == DecodeDrops(p.plm).value && Per(p) == DecodePer(p.per).value
    ensures stored.Some? ==> Stored(stored) == DecodeState(stored.value)
  {
    hide Be64, Be32, BigEndian;
    Be64IsBigEndian(p.lim.value);
    Be64IsBigEndian(p.plm.value);
    if |p.per.value| == 8 {
      Be64IsBigEndian(p.per.value);
    } else {
      Be32IsBigEndian(p.per.value);
    }
    if stored.Some? {
      Be64IsBigEndian(stored.value[..8]);
      Be64IsBigEndian(stored.value[8..]);
    }
  }

  /** An outgoing native payment to an allowed destination is accepted exactly up to `maxNextPayment`. */
  lemma MaxNextPaymentIsExact(p: Params, me: bytes, tx: Txn, stored: Option<bytes>, now: nat)
    requires now < U64 && Policy(p, stored, now).Some?
    requires tx.isPayment && |tx.account| == 20 && tx.account == me && Drops(tx.amount).Some? && Allowed(p, tx)
    ensures HookStep(p, me, tx, stored, now).0 == Within <==>
            Drops(tx.amount).value <= Policy(p, stored, now).value.maxNextPayment
  {
    hide Be64, Be32, BigEndian, Drops, HookStep;
    SameNumbers(p, stored, now);
    AcceptsIff(p, me, tx, stored, now);
  }

  /** The slot the hook works with at ledger `t`: the stored period while it is live, else a new one. */
  lemma SlotIsStoredWhileLive(stored: Option<bytes>, per: nat, t: nat)
    requires stored.Some? ==> |stored.value| == 16
    ensures SlotAt(stored, per, t) == if Live(stored, per, t) then Open(Stored(stored).value.0, Stored(stored).value.1)
                                      else Open(t, 0)
  {
  }

  /**
   * `resetInLedgers` is the least wait after which the hook opens a new period: until then it works
   * with the stored period start and total, which are the numbers the readout shows.
   */
  lemma ResetIsLeastWait(p: Params, stored: Option<bytes>, now: nat)
    requires Policy(p, stored, now).Some?
    ensures Decodable(p)
    ensures var wait := Policy(p, stored, now).value.resetInLedgers;
            && SlotAt(stored, Per(p), now + wait) == Open(now + wait, 0)
            && forall t: nat :: now <= t < now + wait ==>
                 && stored.Some? && DecodeState(stored.value).Some?
                 && var (start, spent) := DecodeState(stored.value).value;
                    SlotAt(stored, Per(p), t) == Open(start, spent) && start + Per(p) == now + wait
  {
    hide Be64, Be32, BigEndian, SlotAt;
    SameNumbers(p, stored, now);
    forall t ensures SlotAt(stored, Per(p), t) == if Live(stored, Per(p), t)
                                                  then Open(Stored(stored).value.0, Stored(stored).value.1)
                                                  else Open(t, 0)
    {
      SlotIsStoredWhileLive(stored, Per(p), t);
    }
  }

  /**
   * The other figures are those of the slot the hook works with at this ledger: a period is live
   * exactly when it goes on with the stored one, what remains is what it would still let through, and
   * the total shown is the stored one, or zero when nothing is stored.
   */
  lemma ReadoutIsSlot(p: Params, stored: Option<bytes>, now: nat)
    requires Policy(p, stored, now).Some?
    ensures Decodable(p)
    ensures var b, slot := Policy(p, stored, now).value, SlotAt(stored, Per(p), now);
            && slot.Open? && (b.live <==> Live(stored, Per(p), now))
            && b.remaining == Remaining(slot.spent, Plm(p))
            && b.maxNextPayment <= b.remaining
            && b.spentThisPeriod == (if Stored(stored).Some? then Stored(stored).value.1 else 0)
            && slot == if b.live then Open(Stored(stored).value.0, b.spentThisPeriod) else Open(now, 0)
  {
    hide Be64, Be32, BigEndian, SlotAt;
    SameNumbers(p, stored, now);
    SlotIsStoredWhileLive(stored, Per(p), now);
  }

  /** Where the readout is silent: parameters or slot it cannot decode, and nothing else. */
  lemma SilentIff(p: Params, stored: Option<bytes>, now: nat)
    ensures Policy(p, stored, now).None? <==>
            || DecodeDrops(p.lim).None? || DecodeDrops(p.plm).None? || DecodePer(p.per).None?
            || (stored.Some? && |stored.value| != 16)
  {
  }

  lemma DecodersAgree(p: Params)
    requires Decodable(p)
    ensures DecodeDrops(p.lim).None? <==> Be64(p.lim.value) > MAX_DROPS
    ensures DecodeDrops(p.plm).None? <==> Plm(p) > MAX_DROPS
    ensures DecodePer(p.per).Some?
  {
    hide Be64, Be32, BigEndian;
    Be64IsBigEndian(p.lim.value);
    Be64IsBigEndian(p.plm.value);
    if |p.per.value| == 8 {
      Be64IsBigEndian(p.per.value);
    } else {
      Be32IsBigEndian(p.per.value);
    }
  }

  /** A payment that the hook would accept now and that moves drops out of the account. */
  ghost predicate MoneyMayLeave(p: Params, me: bytes, stored: Option<bytes>, now: nat)
    requires now < U64
  {
    exists tx :: HookStep(p, me, tx, stored, now).0 == Within && Drops(tx.amount).Some? && Drops(tx.amount).value > 0
  }

  /** Some positive payment is accepted exactly when neither cap is used up. */
  lemma MoneyMayLeaveIff(p: Params, me: bytes, stored: Option<bytes>, now: nat)
    requires |me| == 20 && now < U64
    ensures MoneyMayLeave(p, me, stored, now) <==>
            && Decodable(p) && !Corrupted(stored) && Be64(p.lim.value) > 0
            && SlotAt(stored, Per(p), now).Open? && Remaining(SlotAt(stored, Per(p), now).spent, Plm(p)) > 0
  {
    hide Be64, Be32, HookStep, SlotAt, NativeAmount, Drops, Stored;
    if Decodable(p) && !Corrupted(stored) && Be64(p.lim.value) > 0 {
      SlotOf(stored, Per(p), now);
      var slot := SlotAt(stored, Per(p), now);
      if Remaining(slot.spent, Plm(p)) > 0 {
        Accepts(p, me, stored, now, slot.start, slot.spent, 1);
        assert Drops(Pay(p, me, 1).amount) == Some(1);
      }
    }
    if tx :| HookStep(p, me, tx, stored, now).0 == Within && Drops(tx.amount).Some? && Drops(tx.amount).value > 0 {
      AcceptedIsOpen(p, me, tx, stored, now);
      AcceptedIsWithinBudget(p, me, tx, stored, now);
    }
  }

  /**
   * The readout is silent although the hook would still let money out exactly when, besides both caps
   * leaving room, LIM or PLM is above the total supply or the stored slot is over-long.
   */
  lemma SilentWhileOpenIff(p: Params, me: bytes, stored: Option<bytes>, now: nat)
    requires |me| == 20 && now < U64
    ensures Policy(p, stored, now).None? && MoneyMayLeave(p, me, stored, now)
            <==>
            && Decodable(p) && !Corrupted(stored)
            && (Be64(p.lim.value) > MAX_DROPS || Plm(p) > MAX_DROPS || (stored.Some? && |stored.value| > 16))
            && Be64(p.lim.value) > 0
            && SlotAt(stored, Per(p), now).Open? && Remaining(SlotAt(stored, Per(p), now).spent, Plm(p)) > 0
  {
    hide Be64, Be32, BigEndian, SlotAt, Policy, DecodeDrops, DecodePer, MoneyMayLeave;
    SilentIff(p, stored, now);
    MoneyMayLeaveIff(p, me, stored, now);
    if Decodable(p) {
      DecodersAgree(p);
    }
  }

  /** The hook accepts some policed payment, if only one of nothing, exactly when it can decode everything it reads. */
  lemma OpenIffDecodable(p: Params, me: bytes, stored: Option<bytes>, now: nat)
    requires |me| == 20 && now < U64
    ensures (exists tx :: HookStep(p, me, tx, stored, now).0 == Within) <==> Decodable(p) && !Corrupted(stored)
  {
    hide Be64, Be32, HookStep, SlotAt, NativeAmount, Drops, Stored;
    if Decodable(p) && !Corrupted(stored) {
      SlotOf(stored, Per(p), now);
      var slot := SlotAt(stored, Per(p), now);
      ZeroPasses(p, me, stored, now, slot.start, slot.spent);
    }
    if tx :| HookStep(p, me, tx, stored, now).0 == Within {
      AcceptedIsOpen(p, me, tx, stored, now);
    }
  }

  lemma AcceptedIsOpen(p: Params, me: bytes, tx: Txn, stored: Option<bytes>, now: nat)
    requires now < U64 && HookStep(p, me, tx, stored, now).0 == Within
    ensures Decodable(p) && !Corrupted(stored)
  {
    hide Be64, Be32;
  }

  /** A payment of nothing passes whatever has been spent. */
  lemma ZeroPasses(p: Params, me: bytes, stored: Option<bytes>, now: nat, start: nat, spent: nat)
    requires Decodable(p) && |me| == 20 && now < U64 && SlotAt(stored, Per(p), now) == Open(start, spent)
    ensures HookStep(p, me, Pay(p, me, 0), stored, now).0 == Within
  {
    hide Be64, Be32, ReadDrops, SlotAt;
    PaidDrops(0);
  }

  /** A slot of the wrong length: the hook rolls back on it as corrupt exactly when it is too short. */
  lemma CorruptIffShort(p: Params, me: bytes, tx: Txn, v: bytes, now: nat)
    requires now < U64 && Policed(p, me, tx) && Drops(tx.amount).value <= Be64(p.lim.value) && |v| != 16
    ensures Policy(p, Some(v), now).None?
    ensures HookStep(p, me, tx, Some(v), now).0 == Rollback(CorruptState) <==> |v| < 16
  {
    hide Be64, Be32, BigEndian, Drops;
  }

  /** On an over-long slot the readout says nothing, and the hook decides as if nothing were stored. */
  lemma OverlongSlotIsFresh(p: Params, me: bytes, tx: Txn, v: bytes, now: nat)
    requires now < U64 && |v| > 16
    ensures Policy(p, Some(v), now).None?
    ensures HookStep(p, me, tx, Some(v), now).0 == HookStep(p, me, tx, None, now).0
    ensures HookStep(p, me, tx, None, now).0 == Within ==>
            HookStep(p, me, tx, Some(v), now).1 == HookStep(p, me, tx, None, now).1
  {
    hide Be64, Be32, BigEndian, Drops;
  }

  /** One that is accepted: with LIM = PLM = 5 and a stored value of seventeen bytes, paying 5 passes. */
  lemma OverlongSlotAccepts(me: bytes)
    requires |me| == 20
    ensures var p := Params(Some(Wr64(5)), Some(Wr64(5)), Some(Wr64(10)), None);
            && Policed(p, me, Pay(p, me, 5))
            && HookStep(p, me, Pay(p, me, 5), Some(Zeros(17)), 3) == (Within, Some(Encode(3, 5)))
  {
    hide Be64, Be32, Wr64, HookStep, SlotAt, Drops, NativeAmount;
    var p := Params(Some(Wr64(5)), Some(Wr64(5)), Some(Wr64(10)), None);
    SlotRoundTrip(5);
    SlotRoundTrip(10);
    SlotOf(Some(Zeros(17)), 10, 3);
    Accepts(p, me, Some(Zeros(17)), 3, 3, 0, 5);
  }
}
