/**
 * On-ledger authorization of a multisigned transaction: the weights of the listed signers whose
 * signatures verify are added, each account once, and compared with the quorum.
 */
module Multisig {
  import opened Wrappers

  /** One element of the transaction's `Signers`; an element lacking a string field is malformed. */
  datatype Entry = Malformed | Signer(account: string, pubKey: string, signature: string)

  datatype Listing = Listing(account: string, weight: nat)

  /** What reading the ledger gave: nothing, no list, an unusable list, or a list. */
  datatype SignerList =
    | Unread
    | NoList
    | Unusable
    | Listed(quorum: nat, signers: seq<Listing>)

  datatype Decision = Fallback | Rejected | Authorized

  /** The cryptographic primitives, for one transaction; `None` where the library cannot answer. */
  datatype Codec = Codec(
    derive: string -> Option<string>,
    encode: string -> Option<string>,
    verify: (string, string, string) -> bool
  )

  function Accounts(signers: seq<Listing>): set<string> {
    set l | l in signers :: l.account
  }

  /** The weight map, filled in list order, so that a repeated account keeps its last weight. */
  function Weights(signers: seq<Listing>): map<string, nat> {
    if signers == [] then map[] else
      Weights(signers[..|signers| - 1])[signers[|signers| - 1].account := signers[|signers| - 1].weight]
  }

  /** The entry names a listed account and a key that belongs to it. */
  predicate Matches(c: Codec, signers: seq<Listing>, e: Entry) {
    e.Signer? && c.derive(e.pubKey) == Some(e.account) && e.account in Accounts(signers)
  }

  /** The codec cannot produce what this signer should have signed. */
  predicate Stuck(c: Codec, signers: seq<Listing>, e: Entry) {
    Matches(c, signers, e) && c.encode(e.account) == None
  }

  predicate Counts(c: Codec, signers: seq<Listing>, e: Entry) {
    && Matches(c, signers, e)
    && c.encode(e.account).Some?
    && c.verify(c.encode(e.account).value, e.signature, e.pubKey)
  }

  /** The listed accounts that at least one entry proves to have signed. */
  function Signed(c: Codec, signers: seq<Listing>, entries: seq<Entry>): set<string> {
    set e | e in entries && Counts(c, signers, e) :: e.account
  }

  /** The on-ledger weight of a set of accounts: each listed account of the set, at its last listing. */
  function Total(signers: seq<Listing>, accounts: set<string>): nat {
    if signers == [] then 0 else
      var rest := Total(signers[1..], accounts);
      var l := signers[0];
      if l.account in accounts && l.account !in Accounts(signers[1..]) then l.weight + rest else rest
  }

  predicate AnyStuck(c: Codec, signers: seq<Listing>, entries: seq<Entry>) {
    exists e :: e in entries && Stuck(c, signers, e)
  }

  function Decide(c: Codec, list: SignerList, entries: seq<Entry>): Decision {
    match list
    case Unread => Fallback
    case NoList => Rejected
    case Unusable => Fallback
    case Listed(quorum, signers) =>
      if AnyStuck(c, signers, entries) then Fallback
      else if Total(signers, Signed(c, signers, entries)) >= quorum then Authorized
      else Rejected
  }

  lemma {:induction false} WeightsDomain(signers: seq<Listing>)
    ensures Weights(signers).Keys == Accounts(signers)
  {
    if signers != [] {
      var n := |signers| - 1;
      WeightsDomain(signers[..n]);
      assert signers == signers[..n] + [signers[n]];
    }
  }

  lemma NoAccounts()
    ensures Accounts([]) == {}
  {
  }

  lemma AccountsAdd(signers: seq<Listing>, l: Listing)
    ensures Accounts(signers + [l]) == Accounts(signers) + {l.account}
  {
  }

  lemma {:induction false} WeightsFront(signers: seq<Listing>, a: string)
    requires signers != []
    ensures a in Accounts(signers[1..]) ==>
              a in Weights(signers) && a in Weights(signers[1..]) && Weights(signers)[a] == Weights(signers[1..])[a]
    ensures a !in Accounts(signers[1..]) && a == signers[0].account ==>
              a in Weights(signers) && Weights(signers)[a] == signers[0].weight
    decreases |signers|
  {
    hide Accounts;
    WeightsDomain(signers);
    WeightsDomain(signers[1..]);
    if |signers| > 1 {
      var n := |signers| - 1;
      var front := signers[..n];
      WeightsFront(front, a);
      assert front[1..] == signers[1..][..n - 1];
      assert signers[1..] == front[1..] + [signers[n]];
      AccountsAdd(front[1..], signers[n]);
    } else {
      NoAccounts();
    }
  }

  lemma {:induction false} TotalIgnores(signers: seq<Listing>, s: set<string>, a: string)
    requires a !in Accounts(signers)
    ensures Total(signers, s + {a}) == Total(signers, s)
  {
    if signers != [] {
      assert signers[0] in signers;
      TotalIgnores(signers[1..], s, a);
    }
  }

  /** Crediting one more listed account adds exactly the weight the map holds for it. */
  lemma {:induction false} TotalAdds(signers: seq<Listing>, s: set<string>, a: string)
    requires a in Accounts(signers) && a !in s
    ensures a in Weights(signers) && Total(signers, s + {a}) == Total(signers, s) + Weights(signers)[a]
  {
    WeightsFront(signers, a);
    if a in Accounts(signers[1..]) {
      TotalAdds(signers[1..], s, a);
    } else {
      TotalIgnores(signers[1..], s, a);
      assert signers == [signers[0]] + signers[1..];
    }
  }

  lemma {:induction false} TotalOfNone(signers: seq<Listing>)
    ensures Total(signers, {}) == 0
  {
    if signers != [] {
      TotalOfNone(signers[1..]);
    }
  }

  lemma SignedStep(c: Codec, signers: seq<Listing>, entries: seq<Entry>, i: nat)
    requires i < |entries|
    ensures Signed(c, signers, entries[..i + 1])
            == Signed(c, signers, entries[..i]) + (if Counts(c, signers, entries[i]) then {entries[i].account} else {})
  {
    assert entries[..i + 1] == entries[..i] + [entries[i]];
  }

  /** The multisig branch of `authorizeOnLedger_decide`. */
  method AuthorizeOnLedger(c: Codec, list: SignerList, entries: seq<Entry>) returns (d: Decision)
    ensures d == Decide(c, list, entries)
  {
    hide Total, Signed, Weights, Accounts;
    match list
    case Unread => return Fallback;
    case NoList => return Rejected;
    case Unusable => return Fallback;
    case Listed(quorum, signers) =>
      var weightByAccount := FillWeights(signers);
      WeightsDomain(signers);
      var counted: set<string> := {};
      var sum := 0;
      TotalOfNone(signers);
      SignedNone(c, signers);
      assert entries[..0] == [];
      for i := 0 to |entries|
        invariant counted == Signed(c, signers, entries[..i])
        invariant sum == Total(signers, counted)
        invariant forall e :: e in entries[..i] ==> !Stuck(c, signers, e)
      {
        var e := entries[i];
        SignedStep(c, signers, entries, i);
        assert entries[..i + 1] == entries[..i] + [e];
        if e.Malformed? {
          continue;
        }
        var derived := c.derive(e.pubKey);
        if derived == None || derived != Some(e.account) {
          continue;
        }
        if e.account !in weightByAccount {
          continue;
        }
        var weight := weightByAccount[e.account];
        var signingData := c.encode(e.account);
        if signingData == None {
          assert Stuck(c, signers, e) && e in entries;
          return Fallback;
        }
        if !c.verify(signingData.value, e.signature, e.pubKey) {
          continue;
        }
        if e.account in counted {
          assert counted + {e.account} == counted;
          continue;
        }
        TotalAdds(signers, counted, e.account);
        counted := counted + {e.account};
        sum := sum + weight;
      }
      assert entries[..|entries|] == entries;
      return if sum >= quorum then Authorized else Rejected;
  }

  lemma SignedNone(c: Codec, signers: seq<Listing>)
    ensures Signed(c, signers, []) == {}
  {
  }

  method FillWeights(signers: seq<Listing>) returns (m: map<string, nat>)
    ensures m == Weights(signers)
  {
    m := map[];
    for i := 0 to |signers|
      invariant m == Weights(signers[..i])
    {
      assert signers[..i + 1][..i] == signers[..i];
      m := m[signers[i].account := signers[i].weight];
    }
    assert signers[..|signers|] == signers;
  }

  lemma {:induction false} TotalMonotone(signers: seq<Listing>, a: set<string>, b: set<string>)
    requires forall x :: x in a && x in Accounts(signers) ==> x in b
    ensures Total(signers, a) <= Total(signers, b)
  {
    if signers != [] {
      assert signers[0] in signers;
      forall x | x in a && x in Accounts(signers[1..]) ensures x in b {
        assert x in Accounts(signers);
      }
      TotalMonotone(signers[1..], a, b);
    }
  }

  predicate DistinctAccounts(signers: seq<Listing>) {
    forall i, j :: 0 <= i < j < |signers| ==> signers[i].account != signers[j].account
  }

  /** The plain sum of the weights of the listed accounts that belong to a set. */
  function SumOf(signers: seq<Listing>, accounts: set<string>): nat {
    if signers == [] then 0 else
      (if signers[0].account in accounts then signers[0].weight else 0) + SumOf(signers[1..], accounts)
  }

  lemma {:induction false} TotalIsSum(signers: seq<Listing>, accounts: set<string>)
    requires DistinctAccounts(signers)
    ensures Total(signers, accounts) == SumOf(signers, accounts)
  {
    if signers != [] {
      TotalIsSum(signers[1..], accounts);
    }
  }

  /** The entry is that account's: it names it, with a key that belongs to it. */
  predicate Speaks(c: Codec, e: Entry, a: string) {
    e.Signer? && e.account == a && c.derive(e.pubKey) == Some(a)
  }

  /** And its signature verifies over what that account had to sign. */
  predicate SignedBy(c: Codec, e: Entry, a: string) {
    Speaks(c, e, a) && c.encode(a).Some? && c.verify(c.encode(a).value, e.signature, e.pubKey)
  }

  predicate OnList(signers: seq<Listing>, a: string) {
    exists i :: 0 <= i < |signers| && signers[i].account == a
  }

  lemma MatchesIs(c: Codec, signers: seq<Listing>, e: Entry)
    ensures Counts(c, signers, e) <==> exists a :: OnList(signers, a) && SignedBy(c, e, a)
    ensures Stuck(c, signers, e) <==> exists a :: OnList(signers, a) && Speaks(c, e, a) && c.encode(a) == None
  {
    forall a ensures OnList(signers, a) <==> a in Accounts(signers) {
    }
    if e.Signer? && OnList(signers, e.account) && Speaks(c, e, e.account) {
      assert Matches(c, signers, e);
    }
  }

  /**
   * The decision on a list with distinct accounts. It falls back exactly when the codec cannot encode
   * for a listed account that some entry speaks for; else the transaction is authorized exactly when
   * some set of accounts, each with an entry signed by it, carries on-ledger weights that add up to
   * the quorum.
   */
  lemma AuthorizedIffQuorum(c: Codec, quorum: nat, signers: seq<Listing>, entries: seq<Entry>)
    requires DistinctAccounts(signers)
    ensures var d := Decide(c, Listed(quorum, signers), entries);
            && (d == Fallback <==>
                  exists e, a :: e in entries && OnList(signers, a) && Speaks(c, e, a) && c.encode(a) == None)
            && (d != Fallback ==>
                  (d == Authorized <==>
                     exists s: set<string> ::
                       && (forall a :: a in s ==> exists e :: e in entries && SignedBy(c, e, a))
                       && SumOf(signers, s) >= quorum))
  {
    hide Matches, Counts, Stuck, OnList, SignedBy, Speaks;
    var all := Signed(c, signers, entries);
    TotalIsSum(signers, all);
    forall e ensures Counts(c, signers, e) <==> exists a :: OnList(signers, a) && SignedBy(c, e, a) {
      MatchesIs(c, signers, e);
    }
    forall e
      ensures Stuck(c, signers, e) <==> exists a :: OnList(signers, a) && Speaks(c, e, a) && c.encode(a) == None
    {
      MatchesIs(c, signers, e);
    }
    if s: set<string> :|
      (forall a :: a in s ==> exists e :: e in entries && SignedBy(c, e, a)) && SumOf(signers, s) >= quorum
    {
      TotalIsSum(signers, s);
      forall x | x in s && x in Accounts(signers) ensures x in all {
        var e :| e in entries && SignedBy(c, e, x);
        IsSigned(c, signers, e, x);
      }
      TotalMonotone(signers, s, all);
    }
    SignedAreSigned(c, signers, entries);
  }

  lemma IsSigned(c: Codec, signers: seq<Listing>, e: Entry, a: string)
    requires SignedBy(c, e, a) && a in Accounts(signers)
    ensures Counts(c, signers, e) && e.account == a
  {
  }

  lemma SignedAreSigned(c: Codec, signers: seq<Listing>, entries: seq<Entry>)
    ensures forall a :: a in Signed(c, signers, entries) ==> exists e :: e in entries && SignedBy(c, e, a)
  {
    forall a | a in Signed(c, signers, entries) ensures exists e :: e in entries && SignedBy(c, e, a) {
      var e :| e in entries && Counts(c, signers, e) && e.account == a;
      assert SignedBy(c, e, a);
    }
  }

  /** Without a usable list: no list at all rejects, whatever could not be read falls back. */
  lemma WithoutList(c: Codec, entries: seq<Entry>)
    ensures Decide(c, NoList, entries) == Rejected
    ensures Decide(c, Unread, entries) == Decide(c, Unusable, entries) == Fallback
  {
  }

  /** Neither the order nor the repetition of entries matters: only which entries there are. */
  lemma OnlyTheSetMatters(c: Codec, list: SignerList, xs: seq<Entry>, ys: seq<Entry>)
    requires forall e :: e in xs <==> e in ys
    ensures Decide(c, list, xs) == Decide(c, list, ys)
  {
    if list.Listed? {
      assert Signed(c, list.signers, xs) == Signed(c, list.signers, ys);
    }
  }

  /** Adding entries never turns an authorized transaction into a rejected one. */
  lemma MoreEntriesNeverReject(c: Codec, list: SignerList, xs: seq<Entry>, ys: seq<Entry>)
    requires forall e :: e in xs ==> e in ys
    requires Decide(c, list, xs) == Authorized
    ensures Decide(c, list, ys) != Rejected
    ensures Decide(c, list, ys) == Fallback <==> AnyStuck(c, list.signers, ys)
  {
    assert Signed(c, list.signers, xs) <= Signed(c, list.signers, ys);
    TotalMonotone(list.signers, Signed(c, list.signers, xs), Signed(c, list.signers, ys));
  }

  /** Entries that prove nothing (malformed, unlisted, wrong key, bad signature) change nothing. */
  lemma IdleEntriesAreIgnored(c: Codec, list: SignerList, xs: seq<Entry>, idle: seq<Entry>)
    requires list.Listed? ==>
               forall e :: e in idle ==> !Counts(c, list.signers, e) && !Stuck(c, list.signers, e)
    ensures Decide(c, list, xs + idle) == Decide(c, list, xs)
  {
    if list.Listed? {
      assert Signed(c, list.signers, xs + idle) == Signed(c, list.signers, xs);
      if AnyStuck(c, list.signers, xs) {
        var e :| e in xs && Stuck(c, list.signers, e);
        assert e in xs + idle;
      }
    }
  }
}
