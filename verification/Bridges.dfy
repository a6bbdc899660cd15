/** XChainBridge fields, which only the light walker reads: exactly which bytes it takes for one. */
module Bridges {
  import opened Bytes
  import opened Wrappers
  import opened FieldTree
  import opened FullWalker
  import opened LightWalker

  /** The native currency, or a currency and its issuer. */
  predicate IsIssue(s: bytes) {
    (|s| == 20 && AllZero(s)) || (|s| == 40 && !AllZero(s[..20]))
  }

  /** A door: the account with its length, which may be empty, and an issue. */
  predicate IsDoor(s: bytes) {
    s != [] && (s[0] == 0 || s[0] == 20) && |s| >= 1 + s[0] as int && IsIssue(s[1 + s[0] as int..])
  }

  predicate IsBridge(s: bytes) {
    exists k :: 0 <= k <= |s| && IsDoor(s[..k]) && IsDoor(s[k..])
  }

  lemma DoorIff(d: bytes, upto: nat, len: nat, end: nat, m: nat)
    requires upto + len <= upto + m <= end <= |d|
    ensures LightDoor(d, upto, len, end) == Some(m) <==> IsDoor(d[upto + len..upto + m])
  {
    var s := d[upto + len..upto + m];
    if s != [] {
      assert s[0] == d[upto + len];
      var l := 1 + s[0] as int;
      if (s[0] == 0 || s[0] == 20) && end - upto >= len + l + 20 {
        var cur := d[upto + len + l..upto + len + l + 20];
        if |s| >= l {
          assert s[l..] == d[upto + len + l..upto + m];
          assert |s| >= l + 20 ==> s[l..][..20] == cur;
          assert |s| == l + 20 ==> s[l..] == cur;
        }
      }
    }
  }

  /** The two halves are read exactly when they are two doors. */
  lemma BridgeIff(d: bytes, at: nat, end: nat, n: nat)
    requires at + n <= end <= |d|
    ensures LightBridge(d, at, end) == Some(n) <==> IsBridge(d[at..at + n])
  {
    hide LightDoor, IsDoor;
    var s := d[at..at + n];
    forall k | 0 <= k <= n ensures s[..k] == d[at..at + k] && s[k..] == d[at + k..at + n] {
    }
    if LightBridge(d, at, end) == Some(n) {
      var k := LightDoor(d, at, 0, end).value;
      DoorIff(d, at, 0, end, k);
      DoorIff(d, at, k, end, n);
      assert IsDoor(s[..k]) && IsDoor(s[k..]);
    }
    if IsBridge(s) {
      var k :| 0 <= k <= |s| && IsDoor(s[..k]) && IsDoor(s[k..]);
      DoorIff(d, at, 0, end, k);
      DoorIff(d, at, k, end, n);
    }
  }

  /**
   * A field of type 25 is read exactly where a bridge follows its header within the end, and only with
   * featureHookAPISerializedType240; the payload is the bridge.
   */
  lemma BridgeFieldIff(d: bytes, start: nat, end: nat, ser240: bool, depth: nat, l: Light)
    requires end <= |d| && depth <= MAX_DEPTH && LightHead(d, start, end).Some?
    requires LightHead(d, start, end).value.ty == STI_XCHAIN_BRIDGE
    ensures LightAt(d, start, end, ser240, depth) == Some(l) <==>
            var h := LightHead(d, start, end).value;
            && ser240 && l.ty == STI_XCHAIN_BRIDGE && l.field == h.field
            && l.payloadStart == h.len && l.len == h.len + l.payloadLen && start + l.len <= end
            && IsBridge(d[start + h.len..start + l.len])
  {
    hide IsBridge, LightBridge;
    var h := LightHead(d, start, end).value;
    LeafStep(d, start, end, ser240, depth, h);
    var at := start + h.len;
    if at + l.payloadLen <= end {
      BridgeIff(d, at, end, l.payloadLen);
    }
    if LightBridge(d, at, end).Some? && at + LightBridge(d, at, end).value <= end {
      BridgeIff(d, at, end, LightBridge(d, at, end).value);
    }
  }
}
