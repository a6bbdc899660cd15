/**
 * The default in-memory replay store: bindings with an expiry, swept on access, refused at a hard
 * cap when all of them are live, and receipts beside them. The functions on `Store` say what each
 * call does; class `InMemoryStore` does it on its two maps in place.
 */
module ReplayStore {
  import opened Wrappers

  /** Replay ids and transaction hashes are prefixed apart. */
  datatype Key = Payment(id: nat) | HashOf(h: nat)

  /** A receipt, named by the settlement that produced it. */
  type Receipt = nat

  datatype Store = Store(bindings: map<Key, nat>, receipts: map<Key, (Receipt, nat)>)

  datatype Reply = Reserved | Exists | Full

  predicate Live(s: Store, k: Key, now: nat) {
    k in s.bindings && s.bindings[k] > now
  }

  function Sweep(s: Store, now: nat): Store {
    Store(map k | k in s.bindings && s.bindings[k] > now :: s.bindings[k],
          map k | k in s.receipts && s.receipts[k].1 > now :: s.receipts[k])
  }

  function Reserve(s: Store, k: Key, expiry: nat, now: nat, cap: nat): (Reply, Store) {
    if Live(s, k, now) then (Exists, s)
    else
      var t := Sweep(s, now);
      if |t.bindings| >= cap && k !in t.bindings then (Full, t)
      else (Reserved, t.(bindings := t.bindings[k := expiry]))
  }

  /** The unconditional upsert of the hash binding, which still honours the cap. */
  function Put(s: Store, k: Key, expiry: nat, now: nat, cap: nat): (bool, Store) {
    var t := Sweep(s, now);
    if |t.bindings| >= cap && k !in t.bindings then (false, t)
    else (true, t.(bindings := t.bindings[k := expiry]))
  }

  function Get(s: Store, k: Key, now: nat): (Option<nat>, Store) {
    if k !in s.bindings then (None, s)
    else if s.bindings[k] <= now then (None, s.(bindings := s.bindings - {k}))
    else (Some(s.bindings[k]), s)
  }

  function Release(s: Store, k: Key): Store {
    Store(s.bindings - {k}, s.receipts - {k})
  }

  function GetReceipt(s: Store, k: Key, now: nat): (Option<Receipt>, Store) {
    if k !in s.receipts then (None, s)
    else if s.receipts[k].1 <= now then (None, s.(receipts := s.receipts - {k}))
    else (Some(s.receipts[k].0), s)
  }

  function SetReceipt(s: Store, k: Key, r: Receipt, expiry: nat): Store {
    s.(receipts := s.receipts[k := (r, expiry)])
  }

  /** A reservation is granted exactly when the key has no live binding and the live ones leave room. */
  lemma ReserveIff(s: Store, k: Key, expiry: nat, now: nat, cap: nat)
    ensures var (r, t) := Reserve(s, k, expiry, now, cap);
            && (r == Reserved <==> !Live(s, k, now) && |Sweep(s, now).bindings| < cap)
            && (r == Exists <==> Live(s, k, now))
            && (r == Reserved ==> k in t.bindings && t.bindings[k] == expiry)
            && (r != Reserved && k in t.bindings ==> k in s.bindings && t.bindings[k] == s.bindings[k])
  {
  }

  /** A receipt that a later call is still handed. */
  predicate HasReceipt(s: Store, k: Key, r: Receipt, now: nat) {
    k in s.receipts && s.receipts[k].0 == r && s.receipts[k].1 > now
  }

  /** The sweep keeps exactly what has not run out. */
  lemma SweepKeepsLive(s: Store, now: nat)
    ensures var t := Sweep(s, now);
            && (forall k :: k in t.bindings <==> Live(s, k, now))
            && (forall k :: k in t.bindings ==> t.bindings[k] == s.bindings[k])
            && (forall k, r: Receipt :: k in t.receipts && t.receipts[k].0 == r <==> HasReceipt(s, k, r, now))
            && (forall k :: k in t.receipts ==> t.receipts[k] == s.receipts[k])
  {
  }

  /** The upsert succeeds exactly when the key is bound already or the live bindings leave room. */
  lemma PutIff(s: Store, k: Key, expiry: nat, now: nat, cap: nat)
    ensures var (ok, t) := Put(s, k, expiry, now, cap);
            && (ok <==> Live(s, k, now) || |Sweep(s, now).bindings| < cap)
            && (ok ==> t.bindings == Sweep(s, now).bindings[k := expiry])
            && (!ok ==> t.bindings == Sweep(s, now).bindings) && t.receipts == Sweep(s, now).receipts
  {
  }

  /** What a lookup answers, and that it drops nothing but the entry it finds run out. */
  lemma LookupsIff(s: Store, k: Key, now: nat)
    ensures forall e: nat :: Get(s, k, now).0 == Some(e) <==> Live(s, k, now) && s.bindings[k] == e
    ensures forall r: Receipt :: GetReceipt(s, k, now).0 == Some(r) <==> HasReceipt(s, k, r, now)
    ensures var t := Get(s, k, now).1;
            t.receipts == s.receipts && t.bindings == if Live(s, k, now) then s.bindings else s.bindings - {k}
    ensures var t := GetReceipt(s, k, now).1;
            && t.bindings == s.bindings
            && t.receipts == if GetReceipt(s, k, now).0.Some? then s.receipts else s.receipts - {k}
  {
  }

  /** A release forgets the key and its receipt and nothing else; a stored receipt is found until it runs out. */
  lemma ReleaseForgets(s: Store, k: Key, r: Receipt, expiry: nat, now: nat)
    ensures var t := Release(s, k);
            && !Live(t, k, now) && (forall x :: !HasReceipt(t, k, x, now))
            && (forall j :: j != k ==> (Live(t, j, now) <==> Live(s, j, now)))
            && (forall j, x :: j != k ==> (HasReceipt(t, j, x, now) <==> HasReceipt(s, j, x, now)))
    ensures var t := SetReceipt(s, k, r, expiry);
            t.bindings == s.bindings && (HasReceipt(t, k, r, now) <==> expiry > now)
  {
  }

  /** No call evicts a live binding of another key, and a refused one changes no live binding at all. */
  lemma NeverEvictsLive(s: Store, k: Key, expiry: nat, now: nat, cap: nat, other: Key)
    requires Live(s, other, now)
    ensures var (r, t) := Reserve(s, k, expiry, now, cap);
            Live(t, other, now) && t.bindings[other] == s.bindings[other]
    ensures other != k ==> var t := Put(s, k, expiry, now, cap).1;
            Live(t, other, now) && t.bindings[other] == s.bindings[other]
  {
  }

  /** The number of bindings stays within the cap. */
  lemma CapIsKept(s: Store, k: Key, expiry: nat, now: nat, cap: nat)
    requires |s.bindings| <= cap
    ensures |Reserve(s, k, expiry, now, cap).1.bindings| <= cap
    ensures |Put(s, k, expiry, now, cap).1.bindings| <= cap
  {
    var t := Sweep(s, now);
    SubmapSize(t.bindings, s.bindings);
    if k in t.bindings {
      assert t.bindings[k := expiry].Keys == t.bindings.Keys;
    } else {
      assert t.bindings[k := expiry].Keys == t.bindings.Keys + {k};
    }
    assert |t.bindings[k := expiry]| == |t.bindings[k := expiry].Keys|;
  }

  lemma SubmapSize(a: map<Key, nat>, b: map<Key, nat>)
    requires a.Keys <= b.Keys
    ensures |a| <= |b|
  {
    assert b.Keys == a.Keys + (b.Keys - a.Keys);
    assert |b.Keys| == |a.Keys| + |b.Keys - a.Keys|;
  }

  class InMemoryStore {
    var bindings: map<Key, nat>
    var receipts: map<Key, (Receipt, nat)>
    const cap: nat

    ghost function Contents(): Store
      reads this
    {
      Store(bindings, receipts)
    }

    constructor (maxEntries: nat)
      ensures Contents() == Store(map[], map[]) && cap == maxEntries
    {
      bindings, receipts, cap := map[], map[], maxEntries;
    }

    /** Walk both maps and delete what has expired; say whether there is room for one more. */
    method SweepExpired(now: nat) returns (room: bool)
      modifies this
      ensures Contents() == Sweep(old(Contents()), now)
      ensures room <==> |bindings| < cap
    {
      var todo := bindings.Keys;
      while todo != {}
        invariant receipts == old(receipts) && todo <= bindings.Keys <= old(bindings).Keys
        invariant forall k :: k in bindings ==> bindings[k] == old(bindings)[k]
        invariant forall k :: k in old(bindings) && k !in todo ==> (k in bindings <==> old(bindings)[k] > now)
        decreases todo
      {
        var k :| k in todo;
        todo := todo - {k};
        if bindings[k] <= now {
          bindings := bindings - {k};
        }
      }
      var left := receipts.Keys;
      ghost var kept := bindings;
      while left != {}
        invariant bindings == kept && left <= receipts.Keys <= old(receipts).Keys
        invariant forall k :: k in receipts ==> receipts[k] == old(receipts)[k]
        invariant forall k :: k in old(receipts) && k !in left ==> (k in receipts <==> old(receipts)[k].1 > now)
        decreases left
      {
        var k :| k in left;
        left := left - {k};
        if receipts[k].1 <= now {
          receipts := receipts - {k};
        }
      }
      assert bindings == Sweep(old(Contents()), now).bindings;
      assert receipts == Sweep(old(Contents()), now).receipts;
      room := |bindings| < cap;
    }

    method ReserveKey(k: Key, expiry: nat, now: nat) returns (r: Reply)
      modifies this
      ensures (r, Contents()) == Reserve(old(Contents()), k, expiry, now, cap)
    {
      if k in bindings && bindings[k] > now {
        return Exists;
      }
      var room := SweepExpired(now);
      if !room && k !in bindings {
        return Full;
      }
      bindings := bindings[k := expiry];
      return Reserved;
    }

    method GetExpiry(k: Key, now: nat) returns (r: Option<nat>)
      modifies this
      ensures (r, Contents()) == Get(old(Contents()), k, now)
    {
      if k !in bindings {
        return None;
      }
      var exp := bindings[k];
      if exp <= now {
        bindings := bindings - {k};
        return None;
      }
      return Some(exp);
    }

    method IsConsumed(k: Key, now: nat) returns (consumed: bool)
      modifies this
      ensures consumed == old(Live(Contents(), k, now))
      ensures Contents() == Get(old(Contents()), k, now).1
    {
      var e := GetExpiry(k, now);
      consumed := e.Some?;
    }

    method SetBinding(k: Key, expiry: nat, now: nat) returns (ok: bool)
      modifies this
      ensures (ok, Contents()) == Put(old(Contents()), k, expiry, now, cap)
    {
      var room := SweepExpired(now);
      if !room && k !in bindings {
        return false;
      }
      bindings := bindings[k := expiry];
      return true;
    }

    method ReleaseKey(k: Key)
      modifies this
      ensures Contents() == Release(old(Contents()), k)
    {
      bindings := bindings - {k};
      receipts := receipts - {k};
    }

    method ReadReceipt(k: Key, now: nat) returns (r: Option<Receipt>)
      modifies this
      ensures (r, Contents()) == GetReceipt(old(Contents()), k, now)
    {
      if k !in receipts {
        return None;
      }
      var v := receipts[k];
      if v.1 <= now {
        receipts := receipts - {k};
        return None;
      }
      return Some(v.0);
    }

    method StoreReceipt(k: Key, r: Receipt, expiry: nat)
      modifies this
      ensures Contents() == SetReceipt(old(Contents()), k, r, expiry)
    {
      receipts := receipts[k := (r, expiry)];
    }
  }
}
