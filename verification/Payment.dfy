/**
 * The emitted-payment builders (`xahc_build_payment` and `xahc_build_payment_iou`): a bumped pointer
 * writes twelve fields and the emit details into a caller's buffer, and the fee is patched in
 * afterwards. The buffer it leaves is proved to be the serialization of twelve fields, so both
 * walkers read it back.
 */
module Payment {
  import opened Arithmetic
  import opened Bytes
  import opened Wrappers
  import opened FieldTree
  import opened FullWalker
  import opened LightWalker
  import opened WalkerAgreement
  import opened StoApi
  import opened ApiRoutes

  const PAYMENT_SIZE := 270
  const FIELDS_SIZE := 132
  const IOU_SIZE := 310
  const IOU_FIELDS_SIZE := 172
  const REST_SIZE := 89
  const MAX_DETAILS := 138
  const U32 := 0x1_0000_0000
  const U64 := 0x1_0000_0000_0000_0000
  const DROPS_LIMIT := 0x4000_0000_0000_0000

  /** A native amount: the positive bit 0x40, six value bits, then the low 56 bits. */
  function NativeAmount(v: nat): (s: bytes)
    ensures |s| == 8 && 64 <= s[0] < 128
  {
    [0x40 + v / 0x100_0000_0000_0000 % 64] + ToBigEndian(v, 7)
  }

  /** The drops a native amount denotes (`xahc_otxn_drops`). */
  function ReadDrops(s: bytes): nat
    requires |s| == 8
  {
    s[0] % 64 * 0x100_0000_0000_0000 + BigEndian(s[1..])
  }

  /** The amount written is read back exactly when it fits in 62 bits. */
  lemma DropsRoundTrip(v: nat)
    ensures ReadDrops(NativeAmount(v)) == v % DROPS_LIMIT
    ensures ReadDrops(NativeAmount(v)) == v <==> v < DROPS_LIMIT
  {
    var s, p := NativeAmount(v), 0x100_0000_0000_0000;
    assert s[1..] == ToBigEndian(v, 7);
    BigEndianRoundTrip(v, 7);
    assert Pow256(7) == p by { Pow256Is(); }
    var q := v / p;
    assert v == q / 64 * DROPS_LIMIT + (q % 64 * p + v % p);
    ModUnique(v, DROPS_LIMIT, q / 64, q % 64 * p + v % p);
  }

  lemma Pow256Is()
    ensures Pow256(4) == U32 && Pow256(7) == 0x100_0000_0000_0000
  {
    assert Pow256(2) == 0x1_0000;
    assert Pow256(4) == 256 * (256 * Pow256(2));
    assert Pow256(7) == 256 * (256 * (256 * Pow256(4)));
  }

  function PaymentFields(acc: bytes, to: bytes, amount: bytes, dtag: nat, stag: nat, cls: nat, fee: nat): seq<Field> {
    [ Leaf(1, 2, [0, 0]),
      Leaf(2, 2, [0x80, 0, 0, 0]),
      Leaf(2, 3, ToBigEndian(stag, 4)),
      Leaf(2, 4, [0, 0, 0, 0]),
      Leaf(2, 14, ToBigEndian(dtag, 4)),
      Leaf(2, 26, ToBigEndian((cls + 1) % U32, 4)),
      Leaf(2, 27, ToBigEndian((cls + 5) % U32, 4)),
      Leaf(6, 1, amount),
      Leaf(6, 8, NativeAmount(fee)),
      Blob(7, 3, Zeros(33)),
      Blob(8, 1, acc),
      Blob(8, 3, to) ]
  }

  // ---- writing ----

  lemma {:induction false} SerAllAppend(fs: seq<Field>, f: Field)
    requires ValidAll(fs) && Valid(f)
    ensures ValidAll(fs + [f]) && SerAll(fs + [f]) == SerAll(fs) + Ser(f)
  {
    hide Valid, Ser;
    if fs == [] {
      assert fs + [f] == [f] && [f][1..] == [];
      assert SerAll([f]) == Ser(f) + SerAll([]);
    } else {
      SerAllAppend(fs[1..], f);
      assert (fs + [f])[1..] == fs[1..] + [f] && (fs + [f])[0] == fs[0];
      SerAllCons(fs + [f]);
    }
  }

  method Put(buf: array<byte>, p: nat, s: bytes) returns (q: nat)
    requires p + |s| <= buf.Length
    modifies buf
    ensures q == p + |s| && buf[..q] == old(buf[..p]) + s
    ensures forall k :: q <= k < buf.Length ==> buf[k] == old(buf[k])
  {
    q := p;
    for i := 0 to |s|
      invariant q == p + i && buf[..q] == old(buf[..p]) + s[..i]
      invariant forall k :: q <= k < buf.Length ==> buf[k] == old(buf[k])
    {
      buf[q] := s[i];
      q := q + 1;
    }
  }

  /** The four bytes `v>>24, v>>16, v>>8, v` that the builder writes for a 32-bit number. */
  function Word(v: nat): (s: bytes)
    requires v < U32
    ensures s == ToBigEndian(v, 4)
  {
    assert v / 256 / 256 == v / 65536 && v / 256 / 256 / 256 == v / 16777216;
    assert ToBigEndian(v / 256 / 256 / 256, 1) == [v / 16777216 % 256];
    assert ToBigEndian(v / 256 / 256, 2) == [v / 16777216 % 256, v / 65536 % 256];
    assert ToBigEndian(v / 256, 3) == [v / 16777216 % 256, v / 65536 % 256, v / 256 % 256];
    [v / 16777216 % 256, v / 65536 % 256, v / 256 % 256, v % 256]
  }

  /** Append one field's bytes, header first, after the fields already written. */
  method PutField(buf: array<byte>, p: nat, head: bytes, body: bytes, ghost fs: seq<Field>, ghost f: Field)
    returns (q: nat)
    requires ValidAll(fs) && Valid(f) && head == HeaderOf(f) && body == Body(f)
    requires p + |head| + |body| <= buf.Length && buf[..p] == SerAll(fs)
    modifies buf
    ensures q == p + |head| + |body| && ValidAll(fs + [f]) && buf[..q] == SerAll(fs + [f])
    ensures forall k :: q <= k < buf.Length ==> buf[k] == old(buf[k])
  {
    SerAllAppend(fs, f);
    q := Put(buf, p, head + body);
  }

  /** The fields before the amount: type, flags, tags, sequence and the ledger window. */
  method PutNumbers(buf: array<byte>, dtag: nat, stag: nat, cls: nat) returns (p: nat, ghost fs: seq<Field>)
    requires buf.Length >= PAYMENT_SIZE && dtag < U32 && stag < U32 && cls < U32
    modifies buf
    ensures fs == PaymentFields([], [], [], dtag, stag, cls, 0)[..7]
    ensures p == 35 && ValidAll(fs) && buf[..p] == SerAll(fs)
    ensures forall k :: p <= k < buf.Length ==> buf[k] == old(buf[k])
  {
    hide SerAll, ValidAll, ToBigEndian, Header, Body, Valid, HeaderOf, PaymentFields, Word;
    ghost var all := PaymentFields([], [], [], dtag, stag, cls, 0);
    NumberBytes(dtag, stag, cls);
    NothingYet();
    p := 0;
    assert buf[..p] == [] && all[..0] == [];
    p := PutField(buf, p, [0x12], [0x00, 0x00], all[..0], all[0]);
    assert all[..0] + [all[0]] == all[..1];
    p := PutField(buf, p, [0x22], [0x80, 0x00, 0x00, 0x00], all[..1], all[1]);
    assert all[..1] + [all[1]] == all[..2];
    p := PutField(buf, p, [0x23], Word(stag), all[..2], all[2]);
    assert all[..2] + [all[2]] == all[..3];
    p := PutField(buf, p, [0x24], [0, 0, 0, 0], all[..3], all[3]);
    assert all[..3] + [all[3]] == all[..4];
    p := PutField(buf, p, [0x2E], Word(dtag), all[..4], all[4]);
    assert all[..4] + [all[4]] == all[..5];
    p := PutField(buf, p, [0x20, 0x1A], Word((cls + 1) % U32), all[..5], all[5]);
    assert all[..5] + [all[5]] == all[..6];
    p := PutField(buf, p, [0x20, 0x1B], Word((cls + 5) % U32), all[..6], all[6]);
    assert all[..6] + [all[6]] == all[..7];
    fs := all[..7];
  }

  lemma NumberBytes(dtag: nat, stag: nat, cls: nat)
    requires dtag < U32 && stag < U32 && cls < U32
    ensures var fs := PaymentFields([], [], [], dtag, stag, cls, 0);
            && |fs| == 12 && (forall k :: 0 <= k < 7 ==> Valid(fs[k]))
            && HeaderOf(fs[0]) == [0x12] && Body(fs[0]) == [0x00, 0x00]
            && HeaderOf(fs[1]) == [0x22] && Body(fs[1]) == [0x80, 0x00, 0x00, 0x00]
            && HeaderOf(fs[2]) == [0x23] && Body(fs[2]) == Word(stag)
            && HeaderOf(fs[3]) == [0x24] && Body(fs[3]) == [0, 0, 0, 0]
            && HeaderOf(fs[4]) == [0x2E] && Body(fs[4]) == Word(dtag)
            && HeaderOf(fs[5]) == [0x20, 0x1A] && Body(fs[5]) == Word((cls + 1) % U32)
            && HeaderOf(fs[6]) == [0x20, 0x1B] && Body(fs[6]) == Word((cls + 5) % U32)
  {
    hide ToBigEndian;
  }

  lemma NothingYet()
    ensures ValidAll([]) && SerAll([]) == []
  {
  }

  /** A positive native amount or an issued one: what `xahc_build_payment` and `float_sto` write. */
  predicate IsAmount(s: bytes) {
    (|s| == 8 && 64 <= s[0] < 128) || (|s| == 48 && s[0] >= 128)
  }

  lemma AmountIsValid(s: bytes)
    requires IsAmount(s)
    ensures Valid(Leaf(6, 1, s)) && HeaderOf(Leaf(6, 1, s)) == [0x61]
  {
  }

  /** The amount, an empty fee, an empty signing key and the two accounts. */
  method PutRest(buf: array<byte>, start: nat, to: bytes, amount: bytes, acc: bytes, ghost before: seq<Field>)
    returns (p: nat, feeAt: nat, ghost fs: seq<Field>)
    requires IsAmount(amount) && |to| == 20 && |acc| == 20 && buf.Length >= start + REST_SIZE + |amount|
    requires ValidAll(before) && buf[..start] == SerAll(before)
    modifies buf
    ensures fs == before + PaymentFields(acc, to, amount, 0, 0, 0, 0)[7..]
    ensures p == start + REST_SIZE + |amount| && ValidAll(fs) && buf[..p] == SerAll(fs)
    ensures |fs| == |before| + 5 && ValidAll(fs[..|before| + 1]) && feeAt == |SerAll(fs[..|before| + 1])|
    ensures forall k :: p <= k < buf.Length ==> buf[k] == old(buf[k])
  {
    hide SerAll, ValidAll, ToBigEndian;
    fs := before;
    AmountIsValid(amount);
    p := PutField(buf, start, [0x61], amount, fs, Leaf(6, 1, amount));
    fs := fs + [Leaf(6, 1, amount)];
    feeAt := p;
    ghost var paid := fs;
    ZeroAmount();
    p := PutField(buf, p, [0x68], [0x40, 0, 0, 0, 0, 0, 0, 0], fs, Leaf(6, 8, NativeAmount(0)));
    fs := fs + [Leaf(6, 8, NativeAmount(0))];
    p := PutField(buf, p, [0x73], [0x21] + Zeros(33), fs, Blob(7, 3, Zeros(33)));
    fs := fs + [Blob(7, 3, Zeros(33))];
    p := PutField(buf, p, [0x81], [0x14] + acc, fs, Blob(8, 1, acc));
    fs := fs + [Blob(8, 1, acc)];
    p := PutField(buf, p, [0x83], [0x14] + to, fs, Blob(8, 3, to));
    fs := fs + [Blob(8, 3, to)];
    assert fs[..|before| + 1] == paid;
  }

  lemma ZeroAmount()
    ensures NativeAmount(0) == [0x40, 0, 0, 0, 0, 0, 0, 0]
  {
    assert ToBigEndian(0, 1) == [0];
    assert ToBigEndian(0, 3) == [0, 0, 0];
    assert ToBigEndian(0, 5) == [0, 0, 0, 0, 0];
    assert ToBigEndian(0, 7) == [0, 0, 0, 0, 0, 0, 0];
  }

  lemma ReplaceFee(fs: seq<Field>, fee: Field)
    requires ValidAll(fs) && |fs| == 12 && fs[8] == Leaf(6, 8, NativeAmount(0))
    requires fee.Leaf? && fee.ty == 6 && fee.code == 8 && |fee.data| == 8 && Valid(fee)
    ensures ValidAll(fs[..8]) && ValidAll(fs[9..]) && ValidAll(fs[8 := fee])
    ensures SerAll(fs) == SerAll(fs[..8]) + [0x68] + NativeAmount(0) + SerAll(fs[9..])
    ensures SerAll(fs[8 := fee]) == SerAll(fs[..8]) + [0x68] + fee.data + SerAll(fs[9..])
  {
    hide SerAll, ValidAll, Valid, Ser, NativeAmount;
    SerAllSplit(fs, 8);
    var new_ := fs[8 := fee];
    SerAllJoin(fs[..8], fee, fs[9..]);
    assert new_ == fs[..8] + [fee] + fs[9..];
    FeeBytes(fs[8]);
    FeeBytes(fee);
    Regroup(SerAll(fs[..8]), NativeAmount(0), SerAll(fs[9..]));
    Regroup(SerAll(fs[..8]), fee.data, SerAll(fs[9..]));
  }

  lemma FeeBytes(f: Field)
    requires Valid(f) && f.Leaf? && f.ty == 6 && f.code == 8
    ensures Ser(f) == [0x68] + f.data
  {
  }

  lemma Regroup(a: bytes, b: bytes, c: bytes)
    ensures a + ([0x68] + b) + c == a + [0x68] + b + c
  {
  }

  lemma {:induction false} SerAllJoin(before: seq<Field>, f: Field, after: seq<Field>)
    requires ValidAll(before) && Valid(f) && ValidAll(after)
    ensures ValidAll(before + [f] + after)
    ensures SerAll(before + [f] + after) == SerAll(before) + Ser(f) + SerAll(after)
  {
    hide Valid, Ser;
    var all := before + [f] + after;
    if before == [] {
      assert all[1..] == after && all[0] == f;
      SerAllCons(all);
    } else {
      SerAllJoin(before[1..], f, after);
      assert all[1..] == before[1..] + [f] + after && all[0] == before[0];
      SerAllCons(all);
      Reassociate(Ser(before[0]), SerAll(before[1..]), Ser(f), SerAll(after));
    }
  }

  lemma FeeIsValid(fee: nat)
    ensures Valid(Leaf(6, 8, NativeAmount(fee)))
  {
  }

  /** The eight bytes after the fee's header are overwritten; everything else stays. */
  method PatchFee(buf: array<byte>, feeAt: nat, fee: nat, ghost size: nat, ghost fs: seq<Field>)
    requires ValidAll(fs) && |fs| == 12 && fs[8] == Leaf(6, 8, NativeAmount(0)) && size <= buf.Length
    requires buf[..size] == SerAll(fs) && ValidAll(fs[..8]) && feeAt == |SerAll(fs[..8])|
    modifies buf
    ensures ValidAll(fs[8 := Leaf(6, 8, NativeAmount(fee))])
    ensures buf[..size] == SerAll(fs[8 := Leaf(6, 8, NativeAmount(fee))])
    ensures forall k :: size <= k < buf.Length ==> buf[k] == old(buf[k])
  {
    hide SerAll, ValidAll, ToBigEndian, NativeAmount;
    FeeIsValid(fee);
    ReplaceFee(fs, Leaf(6, 8, NativeAmount(fee)));
    ghost var a, c := SerAll(fs[..8]), SerAll(fs[9..]);
    var amount := NativeAmount(fee);
    for i := 0 to 8
      invariant buf[..size] == a + [0x68] + (amount[..i] + NativeAmount(0)[i..]) + c
      invariant forall k :: size <= k < buf.Length ==> buf[k] == old(buf[k])
    {
      buf[feeAt + 1 + i] := amount[i];
    }
  }

  lemma FieldsJoin(acc: bytes, to: bytes, amount: bytes, dtag: nat, stag: nat, cls: nat, fee: nat)
    ensures var fs := PaymentFields(acc, to, amount, dtag, stag, cls, 0);
            && |fs| == 12 && fs[8] == Leaf(6, 8, NativeAmount(0))
            && |PaymentFields([], [], [], dtag, stag, cls, 0)[..7]| == 7
            && PaymentFields([], [], [], dtag, stag, cls, 0)[..7]
               + PaymentFields(acc, to, amount, 0, 0, 0, 0)[7..] == fs
            && fs[8 := Leaf(6, 8, NativeAmount(fee))] == PaymentFields(acc, to, amount, dtag, stag, cls, fee)
  {
    hide NativeAmount, ToBigEndian;
    var xs := PaymentFields([], [], [], dtag, stag, cls, 0)[..7];
    var ys := PaymentFields(acc, to, amount, 0, 0, 0, 0)[7..];
    var fs := PaymentFields(acc, to, amount, dtag, stag, cls, 0);
    assert fs[..7] == xs;
    assert fs[7..] == ys;
  }

  /**
   * The builder. `details` and `fee` are what etxn_details and etxn_fee_base answer (None for a
   * negative code); a failure rolls back. Nothing past byte 270, or past the returned length, is written.
   */
  method BuildPayment(buf: array<byte>, to: bytes, drops: nat, dtag: nat, stag: nat,
                      acc: bytes, cls: nat, details: Option<bytes>, fee: Option<nat>) returns (r: Option<nat>)
    requires buf.Length >= PAYMENT_SIZE && |to| == 20 && |acc| == 20
    requires drops < U64 && dtag < U32 && stag < U32 && cls < U32
    requires details.Some? ==> |details.value| <= MAX_DETAILS
    modifies buf
    ensures r.Some? <==> details.Some? && fee.Some?
    ensures r.Some? ==>
      var fs := PaymentFields(acc, to, NativeAmount(drops), dtag, stag, cls, fee.value);
      && ValidAll(fs) && r.value == FIELDS_SIZE + |details.value| <= PAYMENT_SIZE
      && buf[..FIELDS_SIZE] == SerAll(fs) && buf[FIELDS_SIZE..r.value] == details.value
    ensures forall k :: PAYMENT_SIZE <= k < buf.Length ==> buf[k] == old(buf[k])
    ensures r.Some? ==> forall k :: r.value <= k < buf.Length ==> buf[k] == old(buf[k])
  {
    hide SerAll, ValidAll, PaymentFields, NativeAmount;
    FieldsJoin(acc, to, NativeAmount(drops), dtag, stag, cls, if fee.Some? then fee.value else 0);
    var p, fs := PutNumbers(buf, dtag, stag, cls);
    var feeAt;
    p, feeAt, fs := PutRest(buf, p, to, NativeAmount(drops), acc, fs);
    assert buf[..FIELDS_SIZE] == SerAll(fs);
    if details.None? {
      return None;
    }
    p := Put(buf, p, details.value);
    assert buf[..p][FIELDS_SIZE..] == details.value && buf[..p][..FIELDS_SIZE] == SerAll(fs);
    if fee.None? {
      return None;
    }
    assert buf[..FIELDS_SIZE] == SerAll(fs);
    PatchFee(buf, feeAt, fee.value, FIELDS_SIZE, fs);
    return Some(p);
  }

  /**
   * The issued-amount builder. `amount` is what float_sto answers: the whole Amount field, 49 bytes.
   * Any of the three host calls failing rolls back; nothing past byte 310 is written.
   */
  method BuildPaymentIou(buf: array<byte>, to: bytes, amount: Option<bytes>, dtag: nat, stag: nat,
                         acc: bytes, cls: nat, details: Option<bytes>, fee: Option<nat>) returns (r: Option<nat>)
    requires buf.Length >= IOU_SIZE && |to| == 20 && |acc| == 20
    requires dtag < U32 && stag < U32 && cls < U32
    requires amount.Some? ==> |amount.value| == 49 && amount.value[0] == 0x61 && IsAmount(amount.value[1..])
    requires details.Some? ==> |details.value| <= MAX_DETAILS
    modifies buf
    ensures r.Some? <==> amount.Some? && details.Some? && fee.Some?
    ensures r.Some? ==>
      var fs := PaymentFields(acc, to, amount.value[1..], dtag, stag, cls, fee.value);
      && ValidAll(fs) && r.value == IOU_FIELDS_SIZE + |details.value| <= IOU_SIZE
      && buf[..IOU_FIELDS_SIZE] == SerAll(fs) && buf[IOU_FIELDS_SIZE..r.value] == details.value
    ensures forall k :: IOU_SIZE <= k < buf.Length ==> buf[k] == old(buf[k])
    ensures r.Some? ==> forall k :: r.value <= k < buf.Length ==> buf[k] == old(buf[k])
  {
    hide SerAll, ValidAll, PaymentFields, NativeAmount;
    var p, fs := PutNumbers(buf, dtag, stag, cls);
    if amount.None? {
      return None;
    }
    var value := amount.value[1..];
    FieldsJoin(acc, to, value, dtag, stag, cls, if fee.Some? then fee.value else 0);
    var feeAt;
    p, feeAt, fs := PutRest(buf, p, to, value, acc, fs);
    assert buf[..IOU_FIELDS_SIZE] == SerAll(fs);
    if details.None? {
      return None;
    }
    p := Put(buf, p, details.value);
    assert buf[..p][IOU_FIELDS_SIZE..] == details.value && buf[..p][..IOU_FIELDS_SIZE] == SerAll(fs);
    if fee.None? {
      return None;
    }
    assert buf[..IOU_FIELDS_SIZE] == SerAll(fs);
    PatchFee(buf, feeAt, fee.value, IOU_FIELDS_SIZE, fs);
    return Some(p);
  }

  // ---- reading the payment back ----

  /** Value of a field that both walkers and both host routes report: blobs without their prefix. */
  function Value(f: Field): bytes
    requires Valid(f)
  {
    match f
    case Leaf(_, _, data) => data
    case Blob(_, _, payload) => payload
    case _ => []
  }

  lemma PaymentShape(acc: bytes, to: bytes, amount: bytes, dtag: nat, stag: nat, cls: nat, fee: nat, ser240: bool)
    requires |acc| == 20 && |to| == 20 && IsAmount(amount)
    ensures var fs := PaymentFields(acc, to, amount, dtag, stag, cls, fee);
            && |fs| == 12 && !fs[11].Container? && !EmptyBlob(fs[11])
            && (forall k :: 0 <= k < 12 ==> Valid(fs[k]) && (fs[k].Leaf? || fs[k].Blob?) && LightShape(fs[k], ser240))
            && (forall i, j :: 0 <= i < j < 12 ==> CodeOf(fs[i]) < CodeOf(fs[j]))
  {
    hide ToBigEndian;
    var fs := PaymentFields(acc, to, amount, dtag, stag, cls, fee);
    assert forall i :: 0 <= i < 11 ==> CodeOf(fs[i]) < CodeOf(fs[i + 1]);
    forall i, j | 0 <= i < j < 12 ensures CodeOf(fs[i]) < CodeOf(fs[j]) {
      Ascending(fs, i, j);
    }
  }

  lemma {:induction false} Ascending(fs: seq<Field>, i: nat, j: nat)
    requires i < j < |fs| && forall k :: 0 <= k < |fs| - 1 ==> CodeOf(fs[k]) < CodeOf(fs[k + 1])
    ensures CodeOf(fs[i]) < CodeOf(fs[j])
    decreases j
  {
    assert CodeOf(fs[j - 1]) < CodeOf(fs[j - 1 + 1]);
    if i < j - 1 {
      Ascending(fs, i, j - 1);
    }
  }

  lemma {:induction false} FlatList(fs: seq<Field>, ser240: bool)
    requires forall k :: 0 <= k < |fs| ==> Valid(fs[k]) && !fs[k].Container? && LightShape(fs[k], ser240)
    ensures ValidAll(fs) && LightShapeAll(fs, ser240) && HeightAll(fs) == 0
  {
    hide Valid, LightShape;
    if fs != [] {
      FlatList(fs[1..], ser240);
    }
  }

  lemma FlatWalkers(fs: seq<Field>, ser240: bool)
    requires fs != [] && !EmptyBlob(fs[|fs| - 1])
    requires forall k :: 0 <= k < |fs| ==> Valid(fs[k]) && !fs[k].Container? && LightShape(fs[k], ser240)
    ensures Walkers(fs, ser240) && |SerAll(fs)| >= 2
  {
    hide Valid, LightShape;
    FlatList(fs, ser240);
    assert |Ser(fs[0])| >= 2;
  }

  /**
   * The fields of the built payment, read back from its bytes: the full walker finds exactly the
   * twelve, the light walker reaches the end, `sto_subfield` returns each value, and the codes ascend.
   */
  lemma PaymentReadsBack(acc: bytes, to: bytes, amount: bytes, dtag: nat, stag: nat, cls: nat, fee: nat,
                         d: bytes, rules: Rules)
    requires |acc| == 20 && |to| == 20 && IsAmount(amount)
    requires var fs := PaymentFields(acc, to, amount, dtag, stag, cls, fee); ValidAll(fs) && d == SerAll(fs)
    ensures var fs := PaymentFields(acc, to, amount, dtag, stag, cls, fee);
            && |fs| == 12 && FieldsIn(d, 0, |d|) == Some(RefsOf(fs, 0)) && Validated(d, rules.ser240)
            && (forall i, j :: 0 <= i < j < 12 ==> CodeOf(fs[i]) < CodeOf(fs[j]))
            && forall k :: 0 <= k < 12 ==> SubfieldIs(d, fs[k], rules)
  {
    hide SerAll, PaymentFields, LightAt, FieldAt, Valid, LightShape, Walkers, Walked, FieldsIn, RefsOf, SubfieldIs;
    var fs := PaymentFields(acc, to, amount, dtag, stag, cls, fee);
    PaymentShape(acc, to, amount, dtag, stag, cls, fee, rules.ser240);
    FlatWalkers(fs, rules.ser240);
    assert At(d, 0, SerAll(fs));
    ParseAllAfterPrint(fs, d, 0);
    ListWalked(fs, d, 0, |d|, rules.ser240, MAX_FIELDS);
    forall k | 0 <= k < 12 ensures SubfieldIs(d, fs[k], rules) {
      SubfieldReads(fs, d, k, rules);
    }
  }

  /** `sto_subfield` finds the field's code and delimits its value. */
  predicate SubfieldIs(d: bytes, f: Field, rules: Rules) {
    && Valid(f) && Subfield(d, CodeOf(f), rules).Ok?
    && var (off, len) := Subfield(d, CodeOf(f), rules).value;
       off + len <= |d| && d[off..off + len] == Value(f)
  }

  lemma SubfieldReads(fs: seq<Field>, d: bytes, k: nat, rules: Rules)
    requires Walkers(fs, rules.ser240) && |fs| <= MAX_FIELDS && k < |fs| && d == SerAll(fs) && |d| >= 2
    requires (fs[k].Leaf? || fs[k].Blob?) && forall i :: 0 <= i < k ==> CodeOf(fs[i]) < CodeOf(fs[k])
    ensures SubfieldIs(d, fs[k], rules)
  {
    hide LightAt, Walkers, SerAll, Offset, At, Valid, LightOf, Ser, Readable, SubfieldIs, Extent;
    AtIndexOf(fs, rules.ser240, k);
    WholeAt(fs, k);
    SubfieldFound(fs, d, k, rules);
    ExtentDelimits(fs[k], d, Offset(fs, 0, k), rules);
  }

  lemma ExtentDelimits(f: Field, d: bytes, at: nat, rules: Rules)
    requires Valid(f) && (f.Leaf? || f.Blob?) && At(d, at, Ser(f))
    requires Subfield(d, CodeOf(f), rules) == Ok(Extent(LightOf(f), at))
    ensures SubfieldIs(d, f, rules)
  {
    hide At, Valid, LightOf, Ser, Value, Subfield, CodeOf;
    ValueAt(f, d, at);
  }

  lemma SubfieldFound(fs: seq<Field>, d: bytes, k: nat, rules: Rules)
    requires Walkers(fs, rules.ser240) && |fs| <= MAX_FIELDS && k < |fs| && d == SerAll(fs) && |d| >= 2
    requires forall i :: 0 <= i < k ==> CodeOf(fs[i]) < CodeOf(fs[k])
    ensures ValidAll(fs) && Valid(fs[k])
    ensures Subfield(d, CodeOf(fs[k]), rules) == Ok(Extent(LightOf(fs[k]), Offset(fs, 0, k)))
  {
    hide LightAt, Walked, Find, Walkers, SerAll, Offset, At, Valid, LightOf, Ser, Body, Extent;
    AtIndexOf(fs, rules.ser240, k);
    WholeAt(fs, k);
    ListWalked(fs, d, 0, |d|, rules.ser240, MAX_FIELDS);
    ListFind(fs, d, 0, |d|, rules.ser240, CodeOf(fs[k]), MAX_FIELDS, k);
  }

  lemma ValueAt(f: Field, d: bytes, at: nat)
    requires Valid(f) && (f.Leaf? || f.Blob?) && At(d, at, Ser(f))
    ensures var l := LightOf(f);
            l.ty != STI_ARRAY && at + l.payloadStart + l.payloadLen <= |d|
            && d[at + l.payloadStart..at + l.payloadStart + l.payloadLen] == Value(f)
  {
    AtSplit(d, at, HeaderOf(f), Body(f));
    var body := at + |HeaderOf(f)|;
    if f.Blob? {
      AtSplit(d, body, Prefix(|f.payload|), f.payload);
      AtBound(d, body + |Prefix(|f.payload|)|, f.payload);
    } else {
      AtBound(d, body, f.data);
    }
  }

  /** The numbers in the fields are the arguments, the amount as written and the fee modulo 2^62. */
  lemma PaymentValues(acc: bytes, to: bytes, amount: bytes, dtag: nat, stag: nat, cls: nat, fee: nat)
    requires |acc| == 20 && |to| == 20 && IsAmount(amount) && dtag < U32 && stag < U32
    ensures var fs := PaymentFields(acc, to, amount, dtag, stag, cls, fee);
            && (forall k :: 0 <= k < 12 ==> Valid(fs[k]))
            && BigEndian(Value(fs[2])) == stag && BigEndian(Value(fs[4])) == dtag
            && BigEndian(Value(fs[5])) == (cls + 1) % U32 && BigEndian(Value(fs[6])) == (cls + 5) % U32
            && Value(fs[7]) == amount && ReadDrops(Value(fs[8])) == fee % DROPS_LIMIT
            && Value(fs[10]) == acc && Value(fs[11]) == to
  {
    hide ToBigEndian, BigEndian, Valid, LightShape, ReadDrops, NativeAmount;
    PaymentShape(acc, to, amount, dtag, stag, cls, fee, false);
    Pow256Is();
    BigEndianRoundTrip(stag, 4);
    BigEndianRoundTrip(dtag, 4);
    BigEndianRoundTrip((cls + 1) % U32, 4);
    BigEndianRoundTrip((cls + 5) % U32, 4);
    DropsRoundTrip(fee);
  }

  lemma AmountRead(d: bytes, f: Field, fid: nat, rules: Rules)
    requires SubfieldIs(d, f, rules) && f.Leaf? && |f.data| == 8 && fid == CodeOf(f)
    ensures Subfield(d, fid, rules).Ok?
    ensures var (at, n) := Subfield(d, fid, rules).value; n == 8 && at + 8 <= |d| && d[at..at + 8] == f.data
  {
    hide Subfield;
    var (at, n) := Subfield(d, fid, rules).value;
    assert |d[at..at + n]| == n;
  }

  lemma AmountFields(acc: bytes, to: bytes, amount: bytes, dtag: nat, stag: nat, cls: nat, fee: nat)
    ensures var fs := PaymentFields(acc, to, amount, dtag, stag, cls, fee);
            && |fs| == 12 && fs[7] == Leaf(6, 1, amount) && fs[8] == Leaf(6, 8, NativeAmount(fee))
            && CodeOf(fs[7]) == 0x60001 && CodeOf(fs[8]) == 0x60008
  {
  }

  /** The drops and the fee of a native payment are read back from its bytes exactly when each fits in 62 bits. */
  lemma DropsReadBack(acc: bytes, to: bytes, drops: nat, dtag: nat, stag: nat, cls: nat, fee: nat,
                      d: bytes, rules: Rules)
    requires |acc| == 20 && |to| == 20 && dtag < U32 && stag < U32
    requires var fs := PaymentFields(acc, to, NativeAmount(drops), dtag, stag, cls, fee);
             ValidAll(fs) && d == SerAll(fs)
    ensures Subfield(d, 0x60001, rules).Ok? && Subfield(d, 0x60008, rules).Ok?
    ensures var (a, n) := Subfield(d, 0x60001, rules).value; var (b, m) := Subfield(d, 0x60008, rules).value;
            && n == 8 == m && a + 8 <= |d| && b + 8 <= |d|
            && (ReadDrops(d[a..a + 8]) == drops <==> drops < DROPS_LIMIT)
            && (ReadDrops(d[b..b + 8]) == fee <==> fee < DROPS_LIMIT)
  {
    hide SerAll, Subfield, NativeAmount, ReadDrops, PaymentFields, SubfieldIs, FieldsIn, RefsOf, Validated, ValidAll;
    PaymentReadsBack(acc, to, NativeAmount(drops), dtag, stag, cls, fee, d, rules);
    AmountFields(acc, to, NativeAmount(drops), dtag, stag, cls, fee);
    var fs := PaymentFields(acc, to, NativeAmount(drops), dtag, stag, cls, fee);
    AmountRead(d, fs[7], 0x60001, rules);
    AmountRead(d, fs[8], 0x60008, rules);
    DropsRoundTrip(drops);
    DropsRoundTrip(fee);
  }

  /** `sto_subfield` answers the value's place for the code. */
  predicate Delimits(d: bytes, code: nat, rules: Rules, value: bytes) {
    && Subfield(d, code, rules).Ok?
    && var (off, len) := Subfield(d, code, rules).value; off + len <= |d| && d[off..off + len] == value
  }

  lemma FieldNumbers(acc: bytes, to: bytes, amount: bytes, dtag: nat, stag: nat, cls: nat, fee: nat)
    ensures var fs := PaymentFields(acc, to, amount, dtag, stag, cls, fee);
            && |fs| == 12 && CodeOf(fs[0]) == 0x10002 && CodeOf(fs[1]) == 0x20002 && CodeOf(fs[2]) == 0x20003
            && CodeOf(fs[3]) == 0x20004 && CodeOf(fs[4]) == 0x2000E && CodeOf(fs[5]) == 0x2001A
            && CodeOf(fs[6]) == 0x2001B && CodeOf(fs[7]) == 0x60001 && CodeOf(fs[8]) == 0x60008
            && CodeOf(fs[9]) == 0x70003 && CodeOf(fs[10]) == 0x80001 && CodeOf(fs[11]) == 0x80003
  {
    hide ToBigEndian, NativeAmount;
  }

  lemma FieldValues(acc: bytes, to: bytes, amount: bytes, dtag: nat, stag: nat, cls: nat, fee: nat)
    requires |acc| == 20 && |to| == 20 && IsAmount(amount) && dtag < U32 && stag < U32
    ensures var fs := PaymentFields(acc, to, amount, dtag, stag, cls, fee);
            && (forall k :: 0 <= k < 12 ==> Valid(fs[k]))
            && Value(fs[0]) == [0, 0] && Value(fs[1]) == [0x80, 0, 0, 0] && Value(fs[3]) == [0, 0, 0, 0]
            && |Value(fs[9])| == 33 && AllZero(Value(fs[9])) && Value(fs[7]) == amount
            && Value(fs[10]) == acc && Value(fs[11]) == to
            && |Value(fs[2])| == |Value(fs[4])| == |Value(fs[5])| == |Value(fs[6])| == 4 && |Value(fs[8])| == 8
  {
    hide BigEndian, Valid, LightShape, ReadDrops, NativeAmount;
    PaymentShape(acc, to, amount, dtag, stag, cls, fee, false);
  }

  /**
   * The payment as a reader of the serialized object sees it, field code by field code: type Payment,
   * the canonical-signature flag, tags, a zero sequence, a window of five ledgers from the next one on,
   * amount, fee, an empty signing key of 33 zero bytes, sender and destination.
   */
  lemma PaymentByCode(acc: bytes, to: bytes, amount: bytes, dtag: nat, stag: nat, cls: nat, fee: nat,
                      d: bytes, rules: Rules)
    requires |acc| == 20 && |to| == 20 && IsAmount(amount) && dtag < U32 && stag < U32
    requires var fs := PaymentFields(acc, to, amount, dtag, stag, cls, fee); ValidAll(fs) && d == SerAll(fs)
    ensures Delimits(d, 0x10002, rules, [0, 0]) && Delimits(d, 0x20002, rules, [0x80, 0, 0, 0])
    ensures exists v :: Delimits(d, 0x20003, rules, v) && |v| == 4 && BigEndian(v) == stag
    ensures Delimits(d, 0x20004, rules, [0, 0, 0, 0])
    ensures exists v :: Delimits(d, 0x2000E, rules, v) && |v| == 4 && BigEndian(v) == dtag
    ensures exists v :: Delimits(d, 0x2001A, rules, v) && |v| == 4 && BigEndian(v) == (cls + 1) % U32
    ensures exists v :: Delimits(d, 0x2001B, rules, v) && |v| == 4 && BigEndian(v) == (cls + 5) % U32
    ensures Delimits(d, 0x60001, rules, amount)
    ensures exists v :: Delimits(d, 0x60008, rules, v) && |v| == 8 && ReadDrops(v) == fee % DROPS_LIMIT
    ensures exists v :: Delimits(d, 0x70003, rules, v) && |v| == 33 && AllZero(v)
    ensures Delimits(d, 0x80001, rules, acc) && Delimits(d, 0x80003, rules, to)
  {
    hide SerAll, PaymentFields, Subfield, FieldsIn, RefsOf, Validated, ValidAll, Value, CodeOf, ReadDrops, BigEndian;
    PaymentReadsBack(acc, to, amount, dtag, stag, cls, fee, d, rules);
    PaymentValues(acc, to, amount, dtag, stag, cls, fee);
    FieldNumbers(acc, to, amount, dtag, stag, cls, fee);
    FieldValues(acc, to, amount, dtag, stag, cls, fee);
    var fs := PaymentFields(acc, to, amount, dtag, stag, cls, fee);
    forall k | 0 <= k < 12 ensures Delimits(d, CodeOf(fs[k]), rules, Value(fs[k])) {
      assert SubfieldIs(d, fs[k], rules);
    }
  }
}
