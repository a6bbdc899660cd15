/**
 * The stateful spending guardrail: one invocation of `hook` per payment, with its parameters and
 * its 16-byte budget slot as the bytes the host hands over. `HookStep` says what one invocation
 * answers and stores; class `HookAccount` runs the C body on the slot in place.
 */
module Guardrail {
  import opened Arithmetic
  import opened Bytes
  import opened Wrappers
  import opened Payment

  /** The install-time HookParameters. */
  datatype Params = Params(lim: Option<bytes>, plm: Option<bytes>, per: Option<bytes>, dst: Option<bytes>)

  datatype Txn = Txn(isPayment: bool, account: bytes, destination: bytes, amount: bytes)

  datatype Reason =
    | BadOrigin | MissingParam | BadPer | ZeroPer | NotNative | OverTxLimit | CorruptState | OverBudget
    | BadDestination | NotAllowed

  datatype Outcome = NotPayment | Incoming | Within | Rollback(reason: Reason)

  /** A host read into a buffer of `cap` bytes: the value, if it is there and fits. */
  function Read(v: Option<bytes>, cap: nat): Option<bytes> {
    if v.Some? && |v.value| <= cap then v else None
  }

  /** The fixed-length reads that the C code then decodes. */
  function Exact(v: Option<bytes>, len: nat): Option<bytes> {
    if v.Some? && |v.value| == len then v else None
  }

  /** `be64`: eight bytes, each shifted to its place. */
  function Be64(b: bytes): (v: nat)
    requires |b| == 8
    ensures v < U64
  {
    Be32(b[..4]) * 0x1_0000_0000 + Be32(b[4..])
  }

  function Be32(b: bytes): (v: nat)
    requires |b| == 4
    ensures v < U32
  {
    b[0] as int * 0x100_0000 + b[1] as int * 0x1_0000 + b[2] as int * 0x100 + b[3] as int
  }

  /** `wr64`: the eight bytes of a 64-bit number, most significant first. */
  function Wr64(v: nat): (b: bytes)
    requires v < U64
    ensures |b| == 8
  {
    Word(v / 0x1_0000_0000) + Word(v % 0x1_0000_0000)
  }

  lemma WordRoundTrip(v: nat)
    requires v < U32
    ensures Be32(Word(v)) == v
  {
    var q := v / 256;
    assert v / 65536 == q / 256 && v / 16777216 == q / 256 / 256;
  }

  /** Storing a number in the slot and reading it back loses nothing. */
  lemma SlotRoundTrip(v: nat)
    requires v < U64
    ensures Be64(Wr64(v)) == v
  {
    WordRoundTrip(v / 0x1_0000_0000);
    WordRoundTrip(v % 0x1_0000_0000);
    var b := Wr64(v);
    assert b[..4] == Word(v / 0x1_0000_0000) && b[4..] == Word(v % 0x1_0000_0000);
  }

  /** Reading as the hook does is reading the bytes as one big-endian number. */
  lemma {:induction false} Be64IsBigEndian(b: bytes)
    requires |b| == 8
    ensures Be64(b) == BigEndian(b)
  {
    Be32IsBigEndian(b[..4]);
    assert forall k :: 4 <= k < 8 ==> b[..k + 1][..k] == b[..k] && b[..k + 1][k] == b[k];
    assert b[..8] == b;
    assert BigEndian(b[..5]) == BigEndian(b[..4]) * 256 + b[4];
    assert BigEndian(b[..6]) == BigEndian(b[..5]) * 256 + b[5];
    assert BigEndian(b[..7]) == BigEndian(b[..6]) * 256 + b[6];
    assert BigEndian(b[..8]) == BigEndian(b[..7]) * 256 + b[7];
  }

  lemma Be32IsBigEndian(b: bytes)
    requires |b| == 4
    ensures Be32(b) == BigEndian(b)
  {
    assert forall k :: 0 <= k < 4 ==> b[..k + 1][..k] == b[..k] && b[..k + 1][k] == b[k];
    assert b[..4] == b && b[..0] == [];
    assert BigEndian(b[..1]) == b[0] as int;
    assert BigEndian(b[..2]) == BigEndian(b[..1]) * 256 + b[1];
    assert BigEndian(b[..3]) == BigEndian(b[..2]) * 256 + b[2];
    assert BigEndian(b[..4]) == BigEndian(b[..3]) * 256 + b[3];
  }

  /** The drops of a native amount; None when the field is not eight bytes or carries the issued bit. */
  function Drops(amount: bytes): Option<nat> {
    if |amount| != 8 || amount[0] >= 128 then None else Some(ReadDrops(amount))
  }

  /** Exactly the eight-byte amounts without the top bit are native, and denote their low 62 bits. */
  lemma DropsIff(amount: bytes)
    ensures Drops(amount).Some? <==> |amount| == 8 && amount[0] / 128 == 0
    ensures Drops(amount).Some? ==> Drops(amount).value == BigEndian(amount) % DROPS_LIMIT
  {
    if |amount| == 8 {
      var q: nat, rest := 0x100_0000_0000_0000, BigEndian(amount[1..]);
      var b: int := amount[0];
      BigEndianFirst(amount);
      BigEndianBound(amount[1..]);
      Pow256Is();
      assert b * q == b / 64 * DROPS_LIMIT + b % 64 * q;
      ModUnique(BigEndian(amount), DROPS_LIMIT, b / 64, b % 64 * q + rest);
    }
  }

  lemma DropsBound(amount: bytes)
    requires Drops(amount).Some?
    ensures Drops(amount).value < DROPS_LIMIT
  {
    BigEndianBound(amount[1..]);
    Pow256Is();
  }

  /** PER in ledgers: eight or four bytes. */
  function Period(per: Option<bytes>): Option<nat> {
    if Exact(per, 8).Some? then Some(Be64(per.value))
    else if Exact(per, 4).Some? then Some(Be32(per.value))
    else None
  }

  /** What the budget slot holds at ledger `now`: the period a payment would fall in. */
  datatype Slot = Corrupt | Open(start: nat, spent: nat)

  /** An absent or over-long value opens a fresh period; so does one whose window does not cover `now`. */
  function SlotAt(stored: Option<bytes>, per: nat, now: nat): Slot {
    var v := Read(stored, 16);
    if v.None? then Open(now, 0)
    else if |v.value| != 16 then Corrupt
    else
      var start, spent := Be64(v.value[..8]), Be64(v.value[8..]);
      if now < start || now - start >= per then Open(now, 0) else Open(start, spent)
  }

  function Remaining(spent: nat, plm: nat): nat {
    if spent <= plm then plm - spent else 0
  }

  function Encode(start: nat, spent: nat): (v: bytes)
    requires start < U64 && spent < U64
    ensures |v| == 16
  {
    Wr64(start) + Wr64(spent)
  }

  /** Why a policed payment is refused, or the slot it leaves behind. */
  function Decide(p: Params, tx: Txn, stored: Option<bytes>, now: nat): Result<(nat, nat), Reason> {
    if Exact(p.lim, 8).None? || Exact(p.plm, 8).None? then Err(MissingParam)
    else if Period(p.per).None? then Err(BadPer)
    else if Period(p.per).value == 0 then Err(ZeroPer)
    else if Drops(tx.amount).None? then Err(NotNative)
    else
      var amount := Drops(tx.amount).value;
      if amount > Be64(p.lim.value) then Err(OverTxLimit)
      else
        var slot := SlotAt(stored, Period(p.per).value, now);
        if slot.Corrupt? then Err(CorruptState)
        else if amount > Remaining(slot.spent, Be64(p.plm.value)) then Err(OverBudget)
        else if Exact(p.dst, 20).Some? && |tx.destination| != 20 then Err(BadDestination)
        else if Exact(p.dst, 20).Some? && tx.destination != p.dst.value then Err(NotAllowed)
        else Ok((slot.start, (slot.spent + amount) % U64))
  }

  lemma DecideFits(p: Params, tx: Txn, stored: Option<bytes>, now: nat)
    requires now < U64 && Decide(p, tx, stored, now).Ok?
    ensures Decide(p, tx, stored, now).value.0 < U64 && Decide(p, tx, stored, now).value.1 < U64
  {
  }

  function HookStep(p: Params, me: bytes, tx: Txn, stored: Option<bytes>, now: nat): (Outcome, Option<bytes>)
    requires now < U64
  {
    if !tx.isPayment then (NotPayment, stored)
    else if |tx.account| != 20 then (Rollback(BadOrigin), stored)
    else if tx.account != me then (Incoming, stored)
    else
      var d := Decide(p, tx, stored, now);
      if d.Err? then (Rollback(d.error), stored)
      else
        DecideFits(p, tx, stored, now);
        (Within, Some(Encode(d.value.0, d.value.1)))
  }

  // ---- the hook itself ----

  method SameAccount(a: bytes, b: bytes) returns (same: bool)
    requires |a| == 20 && |b| == 20
    ensures same <==> a == b
  {
    same := true;
    for i := 0 to 20
      invariant same <==> a[..i] == b[..i]
    {
      assert a[..i + 1] == a[..i] + [a[i]] && b[..i + 1] == b[..i] + [b[i]];
      if a[i] != b[i] {
        same := false;
      }
    }
    assert a[..20] == a && b[..20] == b;
  }

  class HookAccount {
    const id: bytes
    var slot: Option<bytes>  // the value stored under the one-byte key 0x01

    constructor (account: bytes)
      requires |account| == 20
      ensures id == account && slot == None
    {
      id, slot := account, None;
    }

    method Hook(p: Params, tx: Txn, now: nat) returns (o: Outcome)
      requires |id| == 20 && now < U64
      modifies this`slot
      ensures (o, slot) == HookStep(p, id, tx, old(slot), now)
    {
      hide Be64, Be32, Wr64, Word, ReadDrops, Drops;
      if !tx.isPayment {
        return NotPayment;
      }
      if |tx.account| != 20 {
        return Rollback(BadOrigin);
      }
      var outgoing := SameAccount(tx.account, id);
      if !outgoing {
        return Incoming;
      }
      if Exact(p.lim, 8).None? || Exact(p.plm, 8).None? {
        return Rollback(MissingParam);
      }
      var lim, plm := Be64(p.lim.value), Be64(p.plm.value);
      var per: nat;
      var perRead := Read(p.per, 8);
      if perRead.Some? && |perRead.value| == 8 {
        per := Be64(perRead.value);
      } else if perRead.Some? && |perRead.value| == 4 {
        per := Be32(perRead.value);
      } else {
        return Rollback(BadPer);
      }
      if per == 0 {
        return Rollback(ZeroPer);
      }
      var drops := Drops(tx.amount);
      if drops.None? {
        return Rollback(NotNative);
      }
      var amount := drops.value;
      if amount > lim {
        return Rollback(OverTxLimit);
      }
      var start, spent: nat;
      var sval := Read(slot, 16);
      if sval.None? {
        start, spent := now, 0;
      } else if |sval.value| == 16 {
        start, spent := Be64(sval.value[..8]), Be64(sval.value[8..]);
        if now < start || now - start >= per {
          start, spent := now, 0;
        }
      } else {
        return Rollback(CorruptState);
      }
      var remaining := if spent <= plm then plm - spent else 0;
      if amount > remaining {
        return Rollback(OverBudget);
      }
      var allowed := Read(p.dst, 20);
      if allowed.Some? && |allowed.value| == 20 {
        if |tx.destination| != 20 {
          return Rollback(BadDestination);
        }
        var ok := SameAccount(tx.destination, allowed.value);
        if !ok {
          return Rollback(NotAllowed);
        }
      }
      slot := Some(Wr64(start) + Wr64((spent + amount) % U64));
      return Within;
    }
  }

  // ---- one invocation ----

  /** A policed payment under decodable parameters. */
  predicate Policed(p: Params, me: bytes, tx: Txn) {
    && Exact(p.lim, 8).Some? && Exact(p.plm, 8).Some? && Period(p.per).Some? && Period(p.per).value > 0
    && tx.isPayment && |tx.account| == 20 && tx.account == me && Drops(tx.amount).Some?
  }

  /** The destination lock, which a DST of any other length than 20 bytes does not set. */
  predicate Allowed(p: Params, tx: Txn) {
    Exact(p.dst, 20).Some? ==> tx.destination == p.dst.value
  }

  /**
   * An accepted payment stays within both caps; what is stored reads back as the running total; the
   * sum did not wrap; and the total never exceeds the larger of PLM and what was stored before.
   */
  lemma AcceptedIsWithinBudget(p: Params, me: bytes, tx: Txn, stored: Option<bytes>, now: nat)
    requires now < U64 && HookStep(p, me, tx, stored, now).0 == Within
    ensures Policed(p, me, tx) && Allowed(p, tx)
    ensures var amount, plm, per := Drops(tx.amount).value, Be64(p.plm.value), Period(p.per).value;
            var before := SlotAt(stored, per, now);
            && before.Open? && amount <= Be64(p.lim.value) && amount <= Remaining(before.spent, plm)
            && before.spent + amount < U64
            && SlotAt(HookStep(p, me, tx, stored, now).1, per, now) == Open(before.start, before.spent + amount)
            && (before.spent <= plm ==> before.spent + amount <= plm)
            && (before.spent > plm ==> amount == 0)
  {
    hide Be64, Be32, Wr64, Word, ReadDrops;
    var amount, plm, per := Drops(tx.amount).value, Be64(p.plm.value), Period(p.per).value;
    var before := SlotAt(stored, per, now);
    DropsBound(tx.amount);
    SlotRoundTrip(before.start);
    SlotRoundTrip(before.spent + amount);
    var w := Encode(before.start, before.spent + amount);
    assert w[..8] == Wr64(before.start) && w[8..] == Wr64(before.spent + amount);
  }

  /** Under the policy the hook accepts exactly the payments within both caps to an allowed destination. */
  lemma AcceptsIff(p: Params, me: bytes, tx: Txn, stored: Option<bytes>, now: nat)
    requires now < U64 && Policed(p, me, tx)
    ensures HookStep(p, me, tx, stored, now).0 == Within <==>
            var slot := SlotAt(stored, Period(p.per).value, now);
            && Allowed(p, tx) && slot.Open? && Drops(tx.amount).value <= Be64(p.lim.value)
            && Drops(tx.amount).value <= Remaining(slot.spent, Be64(p.plm.value))
    ensures HookStep(p, me, tx, stored, now).0 != Within ==> HookStep(p, me, tx, stored, now).1 == stored
  {
  }

  /** What the hook does not police it lets through: anything but a payment, and a payment from any other account. */
  lemma UnpolicedPasses(p: Params, me: bytes, tx: Txn, stored: Option<bytes>, now: nat)
    requires now < U64
    ensures !tx.isPayment || (|tx.account| == 20 && tx.account != me) ==>
              !HookStep(p, me, tx, stored, now).0.Rollback? && HookStep(p, me, tx, stored, now).1 == stored
    ensures HookStep(p, me, tx, stored, now).0 == NotPayment <==> !tx.isPayment
    ensures HookStep(p, me, tx, stored, now).0 == Incoming <==>
            tx.isPayment && |tx.account| == 20 && tx.account != me
  {
  }

  /** The payment is policed, allowed, and within both caps of a slot that can be read. */
  predicate Passes(p: Params, me: bytes, tx: Txn, stored: Option<bytes>, now: nat) {
    Policed(p, me, tx) && Allowed(p, tx) &&
    var slot := SlotAt(stored, Period(p.per).value, now);
    && slot.Open? && Drops(tx.amount).value <= Be64(p.lim.value)
    && Drops(tx.amount).value <= Remaining(slot.spent, Be64(p.plm.value))
  }

  /**
   * The verdict on any transaction under any parameters: rolled back is a payment whose origin cannot
   * be read, or whose origin is the account itself and which does not pass the policy, undecodable
   * parameters included. Only a passing payment changes the slot.
   */
  lemma RolledBackIff(p: Params, me: bytes, tx: Txn, stored: Option<bytes>, now: nat)
    requires now < U64
    ensures HookStep(p, me, tx, stored, now).0.Rollback? <==>
            tx.isPayment && (|tx.account| != 20 || (tx.account == me && !Passes(p, me, tx, stored, now)))
    ensures HookStep(p, me, tx, stored, now).0 == Within <==> Passes(p, me, tx, stored, now)
    ensures !Passes(p, me, tx, stored, now) ==> HookStep(p, me, tx, stored, now).1 == stored
  {
    hide Be64, Be32, Wr64, SlotAt, Drops, Remaining;
  }

  /** The reason given for a rollback is one: the check it names has failed. */
  lemma ReasonIsTrue(p: Params, me: bytes, tx: Txn, stored: Option<bytes>, now: nat)
    requires now < U64 && HookStep(p, me, tx, stored, now).0.Rollback?
    ensures match HookStep(p, me, tx, stored, now).0.reason
            case BadOrigin => |tx.account| != 20
            case MissingParam => Exact(p.lim, 8).None? || Exact(p.plm, 8).None?
            case BadPer => Exact(p.per, 8).None? && Exact(p.per, 4).None?
            case ZeroPer => Period(p.per) == Some(0)
            case NotNative => |tx.amount| != 8 || tx.amount[0] >= 128
            case OverTxLimit => Drops(tx.amount).Some? && Drops(tx.amount).value > Be64(p.lim.value)
            case CorruptState => SlotAt(stored, Period(p.per).value, now).Corrupt?
            case OverBudget =>
              && SlotAt(stored, Period(p.per).value, now).Open? && Drops(tx.amount).Some?
              && Drops(tx.amount).value > Remaining(SlotAt(stored, Period(p.per).value, now).spent, Be64(p.plm.value))
            case BadDestination => Exact(p.dst, 20).Some? && |tx.destination| != 20
            case NotAllowed => Exact(p.dst, 20).Some? && |tx.destination| == 20 && tx.destination != p.dst.value
  {
    hide Be64, Be32, Wr64, SlotAt, Remaining, ReadDrops;
  }
}
