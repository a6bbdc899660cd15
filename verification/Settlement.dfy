/**
 * Concurrent settlements over one in-memory replay store, as a transition system: a step is what a
 * `settle` call does between two `await` points, or the clock or the ledger moving. Any number of
 * calls may be interleaved in any way, for any mix of replay ids.
 */
module Settlement {
  import opened Arithmetic
  import opened Wrappers
  import opened ReplayStore

  type Pid = nat

  datatype Config = Config(closeMs: nat, marginMs: nat, ttlMs: nat, cap: nat)

  /** `MAX_VALIDITY_LEDGERS`. */
  function MaxValidity(cfg: Config): int
    requires cfg.closeMs > 0
  {
    var n := (cfg.ttlMs - cfg.marginMs) / cfg.closeMs;
    if n > 1 then n else 1
  }

  /** `consumedExpiryFor`: tied to the ledgers the transaction may still be in, else the flat TTL. */
  function ConsumedExpiry(cfg: Config, lls: nat, cur: nat, now: nat): nat {
    if lls > cur then now + (lls - cur) * cfg.closeMs + cfg.marginMs else now + cfg.ttlMs
  }

  /** The points at which a call can be suspended. */
  datatype Pc =
    | Fresh       // about to ask the store whether the id is consumed
    | Unconsumed  // it is not; about to read the clock
    | Clocked     // waiting for the validated ledger
    | Windowed    // the window is acceptable; waiting for the authorization and Hook checks
    | Holding     // reserved; about to submit
    | InFlight    // waiting for submitAndWait
    | Answered    // classified result; about to persist the receipt
    | Refused     // the id is bound; about to look for its receipt
    | Done

  /** `now`, `cur` and `expiry` are the call's locals; `readAt`, `res` and `sub` only record history. */
  datatype Proc = Proc(id: nat, lls: Option<nat>, pc: Pc, now: nat, cur: nat, expiry: nat,
                       readAt: nat, res: Option<nat>, sub: Option<nat>)

  datatype Event =
    | Reservation(pid: Pid, id: nat, lls: nat, now: nat, cur: nat, readAt: nat, expiry: nat,
                  clock: nat, ledger: nat, lastClose: nat)
    | Submission(pid: Pid, id: nat)
    | Released(pid: Pid, id: nat)
    | Memoized(pid: Pid, id: nat)

  datatype Sys = Sys(clock: nat, ledger: nat, lastClose: nat, store: Store, procs: map<Pid, Proc>, log: seq<Event>)

  datatype Action =
    | Tick(to: nat)
    | CloseLedger
    | Arrive(pid: Pid, id: nat, lls: Option<nat>)
    | CheckConsumed(pid: Pid)
    | ReadClock(pid: Pid)
    | ReadLedger(pid: Pid, readable: bool)
    | TryReserve(pid: Pid)
    | Submit(pid: Pid)
    | Tem(pid: Pid)                         // submitAndWait threw a provably-not-applied code
    | Ambiguous(pid: Pid)                   // any other throw, or an unreadable answer
    | Classified(pid: Pid, hash: Option<nat>)
    | Persist(pid: Pid, ok: bool)
    | LookUpReceipt(pid: Pid)
    | Abort(pid: Pid)                       // refused before reserving: store, client or authorization

  predicate At(s: Sys, pid: Pid, pc: Pc) {
    pid in s.procs && s.procs[pid].pc == pc
  }

  predicate BeforeReserve(pc: Pc) {
    pc == Fresh || pc == Unconsumed || pc == Clocked || pc == Windowed || pc == Refused
  }

  predicate Enabled(s: Sys, a: Action) {
    match a
    case Tick(to) => to >= s.clock
    case CloseLedger => true
    case Arrive(pid, _, _) => pid !in s.procs
    case CheckConsumed(pid) => At(s, pid, Fresh)
    case ReadClock(pid) => At(s, pid, Unconsumed)
    case ReadLedger(pid, _) => At(s, pid, Clocked)
    case TryReserve(pid) => At(s, pid, Windowed)
    case Submit(pid) => At(s, pid, Holding)
    case Tem(pid) => At(s, pid, InFlight)
    case Ambiguous(pid) => At(s, pid, InFlight)
    case Classified(pid, _) => At(s, pid, InFlight)
    case Persist(pid, _) => At(s, pid, Answered)
    case LookUpReceipt(pid) => At(s, pid, Refused)
    case Abort(pid) => pid in s.procs && BeforeReserve(s.procs[pid].pc)
  }

  function Move(s: Sys, pid: Pid, p: Proc): Sys {
    s.(procs := s.procs[pid := p])
  }

  /** The checks between the ledger read and the reservation. */
  predicate WindowOk(cfg: Config, lls: Option<nat>, cur: nat)
    requires cfg.closeMs > 0
  {
    lls.Some? && lls.value > cur && lls.value - cur <= MaxValidity(cfg)
  }

  function Step(cfg: Config, s: Sys, a: Action): Sys
    requires cfg.closeMs > 0 && Enabled(s, a)
  {
    match a
    case Tick(to) => s.(clock := to)
    case CloseLedger => s.(ledger := s.ledger + 1, lastClose := s.clock)
    case Arrive(pid, id, lls) => Move(s, pid, Proc(id, lls, Fresh, 0, 0, 0, 0, None, None))
    case CheckConsumed(pid) =>
      var p := s.procs[pid];
      var (e, st) := Get(s.store, Payment(p.id), s.clock);
      Move(s.(store := st), pid, p.(pc := if e.Some? then Refused else Unconsumed))
    case ReadClock(pid) =>
      Move(s, pid, s.procs[pid].(pc := Clocked, now := s.clock))
    case ReadLedger(pid, readable) =>
      var p := s.procs[pid];
      if readable && WindowOk(cfg, p.lls, s.ledger) then
        Move(s, pid, p.(pc := Windowed, cur := s.ledger, readAt := s.clock,
                        expiry := ConsumedExpiry(cfg, p.lls.value, s.ledger, p.now)))
      else Move(s, pid, p.(pc := Done))
    case TryReserve(pid) => Reserving(cfg, s, pid)
    case Submit(pid) =>
      var p := s.procs[pid];
      Move(s, pid, p.(pc := InFlight, sub := Some(|s.log|))).(log := s.log + [Submission(pid, p.id)])
    case Tem(pid) =>
      var p := s.procs[pid];
      Move(s, pid, p.(pc := Done)).(store := Release(s.store, Payment(p.id)), log := s.log + [Released(pid, p.id)])
    case Ambiguous(pid) => Move(s, pid, s.procs[pid].(pc := Done))
    case Classified(pid, hash) =>
      var p := s.procs[pid];
      Move(s, pid, p.(pc := Answered)).(store :=
        if hash.Some? then Put(s.store, HashOf(hash.value), p.expiry, p.now, cfg.cap).1 else s.store)
    case Persist(pid, ok) =>
      var p := s.procs[pid];
      var t := Move(s, pid, p.(pc := Done));
      if ok then t.(store := SetReceipt(s.store, Payment(p.id), pid, p.expiry), log := s.log + [Memoized(pid, p.id)])
      else t
    case LookUpReceipt(pid) =>
      var p := s.procs[pid];
      Move(s, pid, p.(pc := Done)).(store := GetReceipt(s.store, Payment(p.id), s.clock).1)
    case Abort(pid) => Move(s, pid, s.procs[pid].(pc := Done))
  }

  /** `reserve` is called with the clock value read before the ledger was. */
  function Reserving(cfg: Config, s: Sys, pid: Pid): Sys
    requires At(s, pid, Windowed)
  {
    var p := s.procs[pid];
    var (r, st) := Reserve(s.store, Payment(p.id), p.expiry, p.now, cfg.cap);
    match r
    case Reserved =>
      var lls := if p.lls.Some? then p.lls.value else 0;
      Move(s, pid, p.(pc := Holding, res := Some(|s.log|)))
      .(store := st,
        log := s.log + [Reservation(pid, p.id, lls, p.now, p.cur, p.readAt, p.expiry, s.clock, s.ledger, s.lastClose)])
    case Exists => Move(s, pid, p.(pc := Refused)).(store := st)
    case Full => Move(s, pid, p.(pc := Done)).(store := st)
  }

  predicate Initial(s: Sys) {
    s.store == Store(map[], map[]) && s.procs == map[] && s.log == [] && s.lastClose == s.clock
  }

  predicate Possible(cfg: Config, s: Sys, run: seq<Action>)
    requires cfg.closeMs > 0
    decreases |run|
  {
    run == [] || (Enabled(s, run[0]) && Possible(cfg, Step(cfg, s, run[0]), run[1..]))
  }

  function Run(cfg: Config, s: Sys, run: seq<Action>): Sys
    requires cfg.closeMs > 0 && Possible(cfg, s, run)
    decreases |run|
  {
    if run == [] then s else Run(cfg, Step(cfg, s, run[0]), run[1..])
  }

  // ---- the log and the calls agree ----

  predicate Past(pc: Pc) {
    pc == Holding || pc == InFlight || pc == Answered
  }

  /** A call's record points at its own events. */
  predicate ProcOk(s: Sys, pid: Pid)
    requires pid in s.procs
  {
    var p := s.procs[pid];
    && (BeforeReserve(p.pc) ==> p.res.None?)
    && (Past(p.pc) ==> p.res.Some?)
    && (p.pc == InFlight || p.pc == Answered ==> p.sub.Some?)
    && (p.pc == Holding || p.res.None? ==> p.sub.None?)
    && (p.pc == Clocked || p.pc == Windowed || p.res.Some? ==> p.now <= s.clock)
    && (p.pc == Windowed || p.res.Some? ==> p.readAt <= s.clock && p.lls.Some?)
    && (p.res.Some? ==>
          && p.res.value < |s.log| && s.log[p.res.value].Reservation? && s.log[p.res.value].pid == pid
          && s.log[p.res.value].id == p.id && s.log[p.res.value].expiry == p.expiry)
    && (p.sub.Some? ==>
          p.res.Some? && p.res.value < p.sub.value < |s.log| && s.log[p.sub.value] == Submission(pid, p.id))
  }

  /** An event belongs to a call whose record points back at it. */
  predicate EventOk(s: Sys, i: nat)
    requires i < |s.log|
  {
    var e := s.log[i];
    && e.pid in s.procs && s.procs[e.pid].id == e.id
    && (match e
        case Reservation(pid, _, _, _, _, _, _, clock, _, _) => s.procs[pid].res == Some(i) && clock <= s.clock
        case Submission(pid, _) => s.procs[pid].sub == Some(i)
        case Released(pid, _) => s.procs[pid].pc == Done && s.procs[pid].sub.Some? && s.procs[pid].sub.value < i
        case Memoized(pid, _) => s.procs[pid].pc == Done && s.procs[pid].sub.Some? && s.procs[pid].sub.value < i)
  }

  ghost predicate Linked(s: Sys) {
    (forall pid :: pid in s.procs ==> ProcOk(s, pid)) && (forall i :: 0 <= i < |s.log| ==> EventOk(s, i))
  }

  /** One call moves on, at most one event is logged: everything else keeps its place. */
  lemma MoveKeepsLinked(s: Sys, t: Sys, pid: Pid, ev: seq<Event>)
    requires Linked(s) && pid in s.procs && s.procs[pid].pc != Done && pid in t.procs
    requires t.procs == s.procs[pid := t.procs[pid]] && t.log == s.log + ev && |ev| <= 1 && s.clock <= t.clock
    requires var p, q := s.procs[pid], t.procs[pid];
             q.id == p.id && (p.res.Some? ==> q.res == p.res) && (p.sub.Some? ==> q.sub == p.sub)
    requires ProcOk(t, pid) && (|ev| == 1 ==> EventOk(t, |s.log|))
    ensures Linked(t)
  {
    forall q | q in t.procs ensures ProcOk(t, q) {
      if q != pid {
        assert ProcOk(s, q);
      }
    }
    forall i | 0 <= i < |t.log| ensures EventOk(t, i) {
      if i < |s.log| {
        assert EventOk(s, i);
      }
    }
  }

  lemma StepKeepsLinked(cfg: Config, s: Sys, a: Action)
    requires cfg.closeMs > 0 && Linked(s) && Enabled(s, a)
    ensures Linked(Step(cfg, s, a))
  {
    hide Linked, Get, Reserve, Put, Release, SetReceipt, GetReceipt, ConsumedExpiry, WindowOk;
    var t := Step(cfg, s, a);
    match a
    case Tick(_) => ClockKeepsLinked(s, t);
    case CloseLedger => ClockKeepsLinked(s, t);
    case Arrive(pid, id, lls) => ArriveKeepsLinked(s, t, pid);
    case ReadLedger(_, _) => ReadKeepsLinked(cfg, s, a);
    case TryReserve(_) => ReserveKeepsLinked(cfg, s, a);
    case Submit(pid) => ProcIsOk(s, pid); MoveKeepsLinked(s, t, pid, [Submission(pid, s.procs[pid].id)]);
    case Tem(pid) => ProcIsOk(s, pid); MoveKeepsLinked(s, t, pid, [Released(pid, s.procs[pid].id)]);
    case Persist(pid, ok) =>
      ProcIsOk(s, pid);
      MoveKeepsLinked(s, t, pid, if ok then [Memoized(pid, s.procs[pid].id)] else []);
    case _ => QuietKeepsLinked(cfg, s, a);
  }

  lemma ReadKeepsLinked(cfg: Config, s: Sys, a: Action)
    requires cfg.closeMs > 0 && Linked(s) && Enabled(s, a) && a.ReadLedger?
    ensures Linked(Step(cfg, s, a))
  {
    hide Linked, ConsumedExpiry, WindowOk;
    ProcIsOk(s, a.pid);
    if a.readable && WindowOk(cfg, s.procs[a.pid].lls, s.ledger) {
      WindowHasLimit(cfg, s.procs[a.pid].lls, s.ledger);
    }
    MoveKeepsLinked(s, Step(cfg, s, a), a.pid, []);
  }

  lemma ReserveKeepsLinked(cfg: Config, s: Sys, a: Action)
    requires cfg.closeMs > 0 && Linked(s) && Enabled(s, a) && a.TryReserve?
    ensures Linked(Step(cfg, s, a))
  {
    hide Linked, Reserve;
    var t := Step(cfg, s, a);
    ProcIsOk(s, a.pid);
    MoveKeepsLinked(s, t, a.pid, t.log[|s.log|..]);
  }

  lemma QuietKeepsLinked(cfg: Config, s: Sys, a: Action)
    requires cfg.closeMs > 0 && Linked(s) && Enabled(s, a)
    requires a.CheckConsumed? || a.ReadClock? || a.Ambiguous? || a.Classified? || a.LookUpReceipt? || a.Abort?
    ensures Linked(Step(cfg, s, a))
  {
    hide Linked, Get, Put, GetReceipt;
    ProcIsOk(s, a.pid);
    MoveKeepsLinked(s, Step(cfg, s, a), a.pid, []);
  }

  lemma ProcIsOk(s: Sys, pid: Pid)
    requires Linked(s) && pid in s.procs
    ensures ProcOk(s, pid)
  {
  }

  lemma WindowHasLimit(cfg: Config, lls: Option<nat>, cur: nat)
    requires cfg.closeMs > 0 && WindowOk(cfg, lls, cur)
    ensures lls.Some?
  {
  }

  lemma ClockKeepsLinked(s: Sys, t: Sys)
    requires Linked(s) && t.procs == s.procs && t.log == s.log && s.clock <= t.clock
    ensures Linked(t)
  {
    forall q | q in t.procs ensures ProcOk(t, q) { assert ProcOk(s, q); }
    forall i | 0 <= i < |t.log| ensures EventOk(t, i) { assert EventOk(s, i); }
  }

  lemma ArriveKeepsLinked(s: Sys, t: Sys, pid: Pid)
    requires Linked(s) && pid !in s.procs && t.log == s.log && t.clock == s.clock
    requires pid in t.procs && t.procs == s.procs[pid := t.procs[pid]]
    requires t.procs[pid].pc == Fresh && t.procs[pid].res.None? && t.procs[pid].sub.None?
    ensures Linked(t)
  {
    forall q | q in t.procs ensures ProcOk(t, q) {
      if q != pid { assert ProcOk(s, q); }
    }
    forall i | 0 <= i < |t.log| ensures EventOk(t, i) { assert EventOk(s, i); }
  }

  // ---- what guards a reservation ----

  /** Between two places of the log the key of reservation `i` was released; with `own`, by its own call. */
  ghost predicate ReleasedIn(log: seq<Event>, i: nat, lo: nat, hi: nat, own: bool)
    requires i < |log| && hi <= |log|
  {
    exists m :: lo < m < hi && log[m].Released? && log[m].id == log[i].id && (own ==> log[m].pid == log[i].pid)
  }

  /** A reservation still binds its key, or was released, or has run out. */
  ghost predicate Held(s: Sys, i: nat, own: bool)
    requires i < |s.log| && s.log[i].Reservation?
  {
    var e := s.log[i];
    || (Payment(e.id) in s.store.bindings && s.store.bindings[Payment(e.id)] == e.expiry)
    || ReleasedIn(s.log, i, i, |s.log|, own)
    || s.clock >= e.expiry
  }

  /** Of two reservations of one id, the first was released or had run out when the second was made. */
  ghost predicate Apart(log: seq<Event>, i: nat, j: nat, own: bool)
    requires i < j < |log| && log[i].Reservation? && log[j].Reservation?
  {
    log[i].id == log[j].id ==> ReleasedIn(log, i, i, j, own) || log[j].clock >= log[i].expiry
  }

  ghost predicate Safe(s: Sys, own: bool) {
    && (forall i :: 0 <= i < |s.log| && s.log[i].Reservation? ==> Held(s, i, own))
    && (forall i, j :: 0 <= i < j < |s.log| && s.log[i].Reservation? && s.log[j].Reservation? ==>
          Apart(s.log, i, j, own))
  }

  /** Bindings of payments are only dropped once they have run out. */
  ghost predicate Kept(s: Store, t: Store, clock: nat) {
    forall id :: Payment(id) in s.bindings ==>
      || (Payment(id) in t.bindings && t.bindings[Payment(id)] == s.bindings[Payment(id)])
      || s.bindings[Payment(id)] <= clock
  }

  lemma ReserveKeeps(s: Store, k: Key, expiry: nat, now: nat, cap: nat, clock: nat)
    requires now <= clock
    ensures Kept(s, Reserve(s, k, expiry, now, cap).1, clock)
    ensures Reserve(s, k, expiry, now, cap).0 == Reserved ==>
              (k in s.bindings ==> s.bindings[k] <= clock)
              && k in Reserve(s, k, expiry, now, cap).1.bindings
              && Reserve(s, k, expiry, now, cap).1.bindings[k] == expiry
  {
  }

  lemma PutKeeps(s: Store, h: nat, expiry: nat, now: nat, cap: nat, clock: nat)
    requires now <= clock
    ensures Kept(s, Put(s, HashOf(h), expiry, now, cap).1, clock)
  {
  }

  lemma GetKeeps(s: Store, k: Key, clock: nat)
    ensures Kept(s, Get(s, k, clock).1, clock)
  {
  }

  lemma StillReleased(log: seq<Event>, log': seq<Event>, i: nat, hi: nat, hi': nat, own: bool)
    requires i < |log| && hi <= |log| <= |log'| && log'[..|log|] == log && hi <= hi' <= |log'|
    requires ReleasedIn(log, i, i, hi, own)
    ensures ReleasedIn(log', i, i, hi', own)
  {
    var m :| i < m < hi && log[m].Released? && log[m].id == log[i].id && (own ==> log[m].pid == log[i].pid);
    assert log'[..|log|][m] == log'[m] && log'[..|log|][i] == log'[i];
  }

  /** A step that keeps bindings and logs no reservation keeps the system safe. */
  lemma KeptIsSafe(s: Sys, t: Sys, own: bool, ev: seq<Event>)
    requires Safe(s, own) && t.log == s.log + ev && |ev| <= 1 && (|ev| == 1 ==> !ev[0].Reservation?)
    requires Kept(s.store, t.store, t.clock) && s.clock <= t.clock
    ensures Safe(t, own)
  {
    assert t.log[..|s.log|] == s.log;
    forall i | 0 <= i < |t.log| && t.log[i].Reservation? ensures Held(t, i, own) {
      assert i < |s.log| && t.log[i] == s.log[i] && Held(s, i, own);
      if ReleasedIn(s.log, i, i, |s.log|, own) {
        StillReleased(s.log, t.log, i, |s.log|, |t.log|, own);
      }
    }
    forall i, j | 0 <= i < j < |t.log| && t.log[i].Reservation? && t.log[j].Reservation?
      ensures Apart(t.log, i, j, own)
    {
      assert j < |s.log| && t.log[i] == s.log[i] && t.log[j] == s.log[j] && Apart(s.log, i, j, own);
      if ReleasedIn(s.log, i, i, j, own) {
        StillReleased(s.log, t.log, i, j, j, own);
      }
    }
  }

  /** A granted reservation finds every earlier one of its id released or run out. */
  lemma ReservationIsSafe(s: Sys, t: Sys, own: bool, e: Event)
    requires Safe(s, own) && e.Reservation? && t.log == s.log + [e] && t.clock == s.clock == e.clock
    requires Kept(s.store, t.store, t.clock)
    requires Payment(e.id) in s.store.bindings ==> s.store.bindings[Payment(e.id)] <= s.clock
    requires Payment(e.id) in t.store.bindings && t.store.bindings[Payment(e.id)] == e.expiry
    ensures Safe(t, own)
  {
    assert t.log[..|s.log|] == s.log && t.log[|s.log|] == e;
    forall i | 0 <= i < |t.log| && t.log[i].Reservation? ensures Held(t, i, own) {
      if i < |s.log| {
        assert t.log[i] == s.log[i] && Held(s, i, own);
        if ReleasedIn(s.log, i, i, |s.log|, own) {
          StillReleased(s.log, t.log, i, |s.log|, |t.log|, own);
        }
      }
    }
    forall i, j | 0 <= i < j < |t.log| && t.log[i].Reservation? && t.log[j].Reservation?
      ensures Apart(t.log, i, j, own)
    {
      assert t.log[i] == s.log[i];
      if j < |s.log| {
        assert t.log[j] == s.log[j] && Apart(s.log, i, j, own);
        if ReleasedIn(s.log, i, i, j, own) {
          StillReleased(s.log, t.log, i, j, j, own);
        }
      } else {
        assert Held(s, i, own);
        if ReleasedIn(s.log, i, i, |s.log|, own) {
          StillReleased(s.log, t.log, i, |s.log|, |s.log|, own);
        }
      }
    }
  }

  /** A submit that proves the payment unapplied does so before its own binding runs out. */
  predicate Timely(s: Sys, a: Action)
    requires Enabled(s, a)
  {
    a.Tem? ==> s.clock < s.procs[a.pid].expiry
  }

  /** A release drops the key; with `own`, whoever is still protected by it is the one who releases. */
  lemma ReleaseIsSafe(s: Sys, t: Sys, own: bool, pid: Pid)
    requires Linked(s) && Safe(s, own) && At(s, pid, InFlight) && (own ==> s.clock < s.procs[pid].expiry)
    requires t.log == s.log + [Released(pid, s.procs[pid].id)] && t.clock == s.clock
    requires t.store == Release(s.store, Payment(s.procs[pid].id))
    ensures Safe(t, own)
  {
    var p := s.procs[pid];
    assert ProcOk(s, pid);
    var r := p.res.value;
    assert t.log[..|s.log|] == s.log && t.log[|s.log|] == Released(pid, p.id);
    forall i | 0 <= i < |t.log| && t.log[i].Reservation? ensures Held(t, i, own) {
      assert i < |s.log| && t.log[i] == s.log[i] && Held(s, i, own);
      if ReleasedIn(s.log, i, i, |s.log|, own) {
        StillReleased(s.log, t.log, i, |s.log|, |t.log|, own);
      } else if s.log[i].id == p.id && s.clock < s.log[i].expiry {
        if own && i != r {
          OnlyHolderReleases(s, pid, r, i);
        } else {
          assert t.log[|s.log|].Released?;
        }
      }
    }
    forall i, j | 0 <= i < j < |t.log| && t.log[i].Reservation? && t.log[j].Reservation?
      ensures Apart(t.log, i, j, own)
    {
      assert j < |s.log| && t.log[i] == s.log[i] && t.log[j] == s.log[j] && Apart(s.log, i, j, own);
      if ReleasedIn(s.log, i, i, j, own) {
        StillReleased(s.log, t.log, i, j, j, own);
      }
    }
  }

  lemma OnlyHolderReleases(s: Sys, pid: Pid, r: nat, i: nat)
    requires Linked(s) && Safe(s, true) && At(s, pid, InFlight)
    requires s.procs[pid].res == Some(r) && s.clock < s.procs[pid].expiry
    requires i < |s.log| && s.log[i].Reservation? && s.log[i].id == s.procs[pid].id
    requires i != r && s.clock < s.log[i].expiry
    ensures ReleasedIn(s.log, i, i, |s.log|, true)
  {
    assert ProcOk(s, pid) && EventOk(s, i) && EventOk(s, r);
    if i < r {
      assert Apart(s.log, i, r, true);
      StillReleased(s.log, s.log, i, r, |s.log|, true) by {
        assert s.log[..|s.log|] == s.log;
      }
    } else {
      assert Apart(s.log, r, i, true);
      var m :| r < m < i && s.log[m].Released? && s.log[m].id == s.log[r].id && s.log[m].pid == s.log[r].pid;
      assert EventOk(s, m);
    }
  }

  lemma StepIsSafe(cfg: Config, s: Sys, a: Action, own: bool)
    requires cfg.closeMs > 0 && Linked(s) && Safe(s, own) && Enabled(s, a) && (own ==> Timely(s, a))
    ensures Safe(Step(cfg, s, a), own)
  {
    hide Linked, Safe, Get, Reserve, Put, Release, SetReceipt, GetReceipt, ConsumedExpiry, WindowOk;
    var t := Step(cfg, s, a);
    match a
    case TryReserve(pid) =>
      ProcIsOk(s, pid);
      var p := s.procs[pid];
      ReserveKeeps(s.store, Payment(p.id), p.expiry, p.now, cfg.cap, s.clock);
      if Reserve(s.store, Payment(p.id), p.expiry, p.now, cfg.cap).0 == Reserved {
        ReservationIsSafe(s, t, own, t.log[|s.log|]);
      } else {
        KeptIsSafe(s, t, own, []);
      }
    case Tem(pid) => ReleaseIsSafe(s, t, own, pid);
    case CheckConsumed(pid) =>
      GetKeeps(s.store, Payment(s.procs[pid].id), s.clock);
      KeptIsSafe(s, t, own, []);
    case Classified(pid, hash) =>
      ProcIsOk(s, pid);
      if hash.Some? {
        PutKeeps(s.store, hash.value, s.procs[pid].expiry, s.procs[pid].now, cfg.cap, s.clock);
      }
      KeptIsSafe(s, t, own, []);
    case Submit(pid) => KeptIsSafe(s, t, own, [Submission(pid, s.procs[pid].id)]);
    case Persist(pid, ok) =>
      ReceiptsApart(s.store, Payment(s.procs[pid].id), pid, s.procs[pid].expiry, s.clock);
      KeptIsSafe(s, t, own, if ok then [Memoized(pid, s.procs[pid].id)] else []);
    case LookUpReceipt(pid) =>
      ReceiptsApart(s.store, Payment(s.procs[pid].id), pid, 0, s.clock);
      KeptIsSafe(s, t, own, []);
    case Tick(_) => KeptIsSafe(s, t, own, []);
    case CloseLedger => KeptIsSafe(s, t, own, []);
    case Arrive(_, _, _) => KeptIsSafe(s, t, own, []);
    case ReadClock(_) => KeptIsSafe(s, t, own, []);
    case ReadLedger(_, _) => KeptIsSafe(s, t, own, []);
    case Ambiguous(_) => KeptIsSafe(s, t, own, []);
    case Abort(_) => KeptIsSafe(s, t, own, []);
  }

  lemma ReceiptsApart(s: Store, k: Key, r: Receipt, expiry: nat, now: nat)
    ensures SetReceipt(s, k, r, expiry).bindings == s.bindings && GetReceipt(s, k, now).1.bindings == s.bindings
  {
  }

  // ---- ledgers ----

  /** At every moment a ledger has closed less than `closeMs` ago. */
  predicate Punctual(cfg: Config, s: Sys) {
    s.lastClose <= s.clock < s.lastClose + cfg.closeMs
  }

  /** Closing a ledger never loses ground against the clock. */
  function Ground(cfg: Config, ledger: nat, lastClose: nat): int {
    ledger * cfg.closeMs - lastClose
  }

  predicate ProcDated(cfg: Config, s: Sys, pid: Pid)
    requires pid in s.procs
  {
    var p := s.procs[pid];
    p.pc == Windowed ==>
      && p.lls.Some? && p.lls.value > p.cur && p.expiry == ConsumedExpiry(cfg, p.lls.value, p.cur, p.now)
      && Ground(cfg, s.ledger, s.lastClose) >= p.cur * cfg.closeMs - p.readAt
  }

  predicate EventDated(cfg: Config, s: Sys, i: nat)
    requires i < |s.log|
  {
    var e := s.log[i];
    e.Reservation? ==>
      && e.lls > e.cur && e.expiry == ConsumedExpiry(cfg, e.lls, e.cur, e.now)
      && Ground(cfg, s.ledger, s.lastClose) >= e.cur * cfg.closeMs - e.readAt
      && e.clock < e.lastClose + cfg.closeMs
  }

  predicate PairDated(cfg: Config, log: seq<Event>, i: nat, j: nat)
    requires i < j < |log|
  {
    log[i].Reservation? && log[j].Reservation? ==>
      Ground(cfg, log[j].ledger, log[j].lastClose) >= log[i].cur * cfg.closeMs - log[i].readAt
  }

  ghost predicate Dated(cfg: Config, s: Sys) {
    && Punctual(cfg, s)
    && (forall pid :: pid in s.procs ==> ProcDated(cfg, s, pid))
    && (forall i :: 0 <= i < |s.log| ==> EventDated(cfg, s, i))
    && (forall i, j :: 0 <= i < j < |s.log| ==> PairDated(cfg, s.log, i, j))
  }

  lemma GroundGrows(cfg: Config, s: Sys, a: Action)
    requires cfg.closeMs > 0 && Enabled(s, a) && Punctual(cfg, s)
    ensures var t := Step(cfg, s, a); Ground(cfg, t.ledger, t.lastClose) >= Ground(cfg, s.ledger, s.lastClose)
  {
    if a.CloseLedger? {
      assert (s.ledger + 1) * cfg.closeMs == s.ledger * cfg.closeMs + cfg.closeMs;
    }
  }

  /** The rest of the system only ages: one call may have moved past the window, one event may be new. */
  lemma AgesDated(cfg: Config, s: Sys, t: Sys, ev: seq<Event>)
    requires Dated(cfg, s) && Punctual(cfg, t) && t.log == s.log + ev && |ev| <= 1
    requires Ground(cfg, t.ledger, t.lastClose) >= Ground(cfg, s.ledger, s.lastClose)
    requires forall pid :: pid in t.procs ==> (pid in s.procs && t.procs[pid] == s.procs[pid]) || ProcDated(cfg, t, pid)
    requires |ev| == 1 && ev[0].Reservation? ==>
      && EventDated(cfg, t, |s.log|) && ev[0].ledger == s.ledger && ev[0].lastClose == s.lastClose
    ensures Dated(cfg, t)
  {
    hide Ground, ConsumedExpiry;
    forall pid | pid in t.procs ensures ProcDated(cfg, t, pid) {
      if pid in s.procs { assert ProcDated(cfg, s, pid); }
    }
    forall i | 0 <= i < |t.log| ensures EventDated(cfg, t, i) {
      if i < |s.log| { assert EventDated(cfg, s, i); }
    }
    forall i, j | 0 <= i < j < |t.log| ensures PairDated(cfg, t.log, i, j) {
      assert EventDated(cfg, s, i);
      if j < |s.log| { assert PairDated(cfg, s.log, i, j); }
    }
  }

  lemma StepKeepsDated(cfg: Config, s: Sys, a: Action)
    requires cfg.closeMs > 0 && Linked(s) && Dated(cfg, s) && Enabled(s, a) && Punctual(cfg, Step(cfg, s, a))
    ensures Dated(cfg, Step(cfg, s, a))
  {
    hide Linked, Dated, Get, Reserve, Put, Release, SetReceipt, GetReceipt, ConsumedExpiry, Ground, MaxValidity;
    var t := Step(cfg, s, a);
    IsPunctual(cfg, s);
    GroundGrows(cfg, s, a);
    if a.TryReserve? {
      ProcIsOk(s, a.pid);
      ProcIsDated(cfg, s, a.pid);
    }
    if a.ReadLedger? {
      ReadIsDated(cfg, s, t, a.pid);
    }
    assert t.log == s.log + t.log[|s.log|..];
    AgesDated(cfg, s, t, t.log[|s.log|..]);
  }

  lemma IsPunctual(cfg: Config, s: Sys)
    requires Dated(cfg, s)
    ensures Punctual(cfg, s)
  {
  }

  lemma ProcIsDated(cfg: Config, s: Sys, pid: Pid)
    requires Dated(cfg, s) && pid in s.procs
    ensures ProcDated(cfg, s, pid)
  {
  }

  lemma ReadIsDated(cfg: Config, s: Sys, t: Sys, pid: Pid)
    requires cfg.closeMs > 0 && Punctual(cfg, s) && At(s, pid, Clocked)
    requires exists readable :: t == Step(cfg, s, ReadLedger(pid, readable))
    ensures ProcDated(cfg, t, pid)
  {
    hide ConsumedExpiry;
  }

  /** Once a reservation has run out, its transaction can no longer enter a ledger. */
  lemma RunOutMeansPassed(cfg: Config, e: Event, clock: nat, ledger: nat, lastClose: nat)
    requires e.Reservation? && e.lls > e.cur && e.expiry == ConsumedExpiry(cfg, e.lls, e.cur, e.now)
    requires clock < lastClose + cfg.closeMs && e.readAt - e.now <= cfg.marginMs
    requires Ground(cfg, ledger, lastClose) >= e.cur * cfg.closeMs - e.readAt
    requires clock >= e.expiry
    ensures ledger >= e.lls
  {
    var c := cfg.closeMs;
    Distribute(e.lls, e.cur, c);
    MoreThan(ledger, e.lls, c);
  }

  lemma MoreThan(a: int, b: int, c: nat)
    ensures a * c > b * c - c ==> a >= b
  {
    if a < b {
      MulLe(a, b - 1, c);
      Distribute(b, 1, c);
    }
  }

  // ---- runs ----

  /** Every state of the run is punctual, and every `tem` comes before the binding of its own call runs out. */
  predicate RunPunctual(cfg: Config, s: Sys, run: seq<Action>)
    requires cfg.closeMs > 0 && Possible(cfg, s, run)
    decreases |run|
  {
    Punctual(cfg, s) && (run == [] || RunPunctual(cfg, Step(cfg, s, run[0]), run[1..]))
  }

  predicate RunTimely(cfg: Config, s: Sys, run: seq<Action>)
    requires cfg.closeMs > 0 && Possible(cfg, s, run)
    decreases |run|
  {
    run == [] || (Timely(s, run[0]) && RunTimely(cfg, Step(cfg, s, run[0]), run[1..]))
  }

  lemma {:induction false} RunKeepsLinked(cfg: Config, s: Sys, run: seq<Action>, own: bool)
    requires cfg.closeMs > 0 && Possible(cfg, s, run) && Linked(s) && Safe(s, own)
    requires own ==> RunTimely(cfg, s, run)
    ensures Linked(Run(cfg, s, run)) && Safe(Run(cfg, s, run), own)
    decreases |run|
  {
    hide Linked, Safe, Step, Timely;
    if run != [] {
      StepKeepsLinked(cfg, s, run[0]);
      StepIsSafe(cfg, s, run[0], own);
      RunKeepsLinked(cfg, Step(cfg, s, run[0]), run[1..], own);
    }
  }

  lemma {:induction false} RunKeepsDated(cfg: Config, s: Sys, run: seq<Action>)
    requires cfg.closeMs > 0 && Possible(cfg, s, run) && Linked(s) && RunPunctual(cfg, s, run) && Dated(cfg, s)
    ensures Dated(cfg, Run(cfg, s, run))
    decreases |run|
  {
    hide Linked, Dated, Step, Punctual;
    if run != [] {
      StartsPunctual(cfg, Step(cfg, s, run[0]), run[1..]);
      StepKeepsLinked(cfg, s, run[0]);
      StepKeepsDated(cfg, s, run[0]);
      RunKeepsDated(cfg, Step(cfg, s, run[0]), run[1..]);
    }
  }

  lemma StartsPunctual(cfg: Config, s: Sys, run: seq<Action>)
    requires cfg.closeMs > 0 && Possible(cfg, s, run) && RunPunctual(cfg, s, run)
    ensures Punctual(cfg, s)
  {
  }

  /** The reservations behind two submits, in the order in which they were granted. */
  predicate ReservedFor(log: seq<Event>, a: nat, b: nat, i: nat, j: nat)
    requires a < |log| && b < |log|
  {
    && i < j < |log| && log[i].Reservation? && log[j].Reservation?
    && log[i].id == log[a].id && log[j].id == log[a].id
    && (|| (log[i].pid == log[a].pid && log[j].pid == log[b].pid)
        || (log[i].pid == log[b].pid && log[j].pid == log[a].pid))
  }

  lemma Reservations(s: Sys, a: nat, b: nat) returns (i: nat, j: nat)
    requires Linked(s) && a < b < |s.log| && s.log[a].Submission? && s.log[b].Submission? && s.log[a].id == s.log[b].id
    ensures ReservedFor(s.log, a, b, i, j)
  {
    assert EventOk(s, a) && EventOk(s, b);
    var p, q := s.log[a].pid, s.log[b].pid;
    assert ProcOk(s, p) && ProcOk(s, q);
    i, j := s.procs[p].res.value, s.procs[q].res.value;
    if j < i {
      i, j := j, i;
    }
  }

  /**
   * No double settle. In every run, of two submits of one replay id the reservation that came first
   * was given up before the second was granted: some call released the id after a submit that
   * provably did not apply, or the clock had reached the first reservation's expiry.
   */
  lemma NoDoubleSettle(cfg: Config, s: Sys, run: seq<Action>, a: nat, b: nat) returns (i: nat, j: nat)
    requires cfg.closeMs > 0 && Initial(s) && Possible(cfg, s, run)
    requires var log := Run(cfg, s, run).log;
             a < b < |log| && log[a].Submission? && log[b].Submission? && log[a].id == log[b].id
    ensures var log := Run(cfg, s, run).log;
            && ReservedFor(log, a, b, i, j)
            && (ReleasedIn(log, i, i, j, false) || log[j].clock >= log[i].expiry)
  {
    RunKeepsLinked(cfg, s, run, false);
    var t := Run(cfg, s, run);
    i, j := Reservations(t, a, b);
    assert Apart(t.log, i, j, false);
  }

  /**
   * The same when every submit that proves itself unapplied ends before its own binding runs out:
   * then it is the first call itself that released the id, so its own transaction did not apply.
   */
  lemma NoDoubleSettleOwn(cfg: Config, s: Sys, run: seq<Action>, a: nat, b: nat) returns (i: nat, j: nat)
    requires cfg.closeMs > 0 && Initial(s) && Possible(cfg, s, run) && RunTimely(cfg, s, run)
    requires var log := Run(cfg, s, run).log;
             a < b < |log| && log[a].Submission? && log[b].Submission? && log[a].id == log[b].id
    ensures var log := Run(cfg, s, run).log;
            && ReservedFor(log, a, b, i, j)
            && (ReleasedIn(log, i, i, j, true) || log[j].clock >= log[i].expiry)
  {
    RunKeepsLinked(cfg, s, run, true);
    var t := Run(cfg, s, run);
    i, j := Reservations(t, a, b);
    assert Apart(t.log, i, j, true);
  }

  /**
   * And the expiry is late enough: if a ledger closes at least every `closeMs` and the ledger was
   * read within the margin of the clock, then by the time the first reservation had run out the
   * validated ledger had reached the LastLedgerSequence of its transaction.
   */
  lemma RunOutIsTooLateToApply(cfg: Config, s: Sys, run: seq<Action>, i: nat, j: nat)
    requires cfg.closeMs > 0 && Initial(s) && Possible(cfg, s, run) && RunPunctual(cfg, s, run)
    requires var log := Run(cfg, s, run).log;
             && i < j < |log| && log[i].Reservation? && log[j].Reservation?
             && log[j].clock >= log[i].expiry && log[i].readAt - log[i].now <= cfg.marginMs
    ensures Run(cfg, s, run).log[j].ledger >= Run(cfg, s, run).log[i].lls
  {
    hide Ground, ConsumedExpiry, Step;
    StartsPunctual(cfg, s, run);
    RunKeepsDated(cfg, s, run);
    var t := Run(cfg, s, run);
    assert EventDated(cfg, t, i) && EventDated(cfg, t, j) && PairDated(cfg, t.log, i, j);
    RunOutMeansPassed(cfg, t.log[i], t.log[j].clock, t.log[j].ledger, t.log[j].lastClose);
  }

  /** A receipt is only ever memoized by a call that submitted the same id and got a classified answer. */
  lemma ReceiptsComeFromSubmits(cfg: Config, s: Sys, run: seq<Action>, m: nat)
    requires cfg.closeMs > 0 && Initial(s) && Possible(cfg, s, run)
    requires m < |Run(cfg, s, run).log| && Run(cfg, s, run).log[m].Memoized?
    ensures var log := Run(cfg, s, run).log;
            exists k :: 0 <= k < m && log[k] == Submission(log[m].pid, log[m].id)
  {
    RunKeepsLinked(cfg, s, run, false);
    var t := Run(cfg, s, run);
    assert EventOk(t, m);
    assert ProcOk(t, t.log[m].pid);
    assert t.log[t.procs[t.log[m].pid].sub.value] == Submission(t.log[m].pid, t.log[m].id);
  }

  /**
   * Which windows are accepted: the LastLedgerSequence lies in the future, and either by one ledger or
   * so that the window, in time, and the margin fit into the TTL.
   */
  lemma WindowOkExact(cfg: Config, lls: nat, cur: nat)
    requires cfg.closeMs > 0
    ensures WindowOk(cfg, Some(lls), cur) <==>
            lls > cur && (lls - cur == 1 || (lls - cur) * cfg.closeMs + cfg.marginMs <= cfg.ttlMs)
    ensures !WindowOk(cfg, None, cur)
  {
    if lls > cur {
      AtMost(lls - cur, cfg.ttlMs - cfg.marginMs, cfg.closeMs);
    }
  }

  /** A number of steps of `c` fits into `room` exactly when it is at most their quotient. */
  lemma AtMost(k: int, room: int, c: nat)
    requires c > 0
    ensures k <= room / c <==> k * c <= room
  {
    var q := room / c;
    if k <= q {
      MulLe(k, q, c);
    } else {
      MulLe(q + 1, k, c);
      OneMore(q, c);
    }
  }

  /** Any window that is accepted keeps a binding for no longer than the TTL, exactly if one ledger fits into it. */
  lemma WindowFitsTtl(cfg: Config)
    requires cfg.closeMs > 0
    ensures (forall lls: nat, cur: nat, now: nat :: WindowOk(cfg, Some(lls), cur) ==>
               ConsumedExpiry(cfg, lls, cur, now) <= now + cfg.ttlMs)
            <==> cfg.closeMs + cfg.marginMs <= cfg.ttlMs
  {
    hide WindowOk;
    if cfg.closeMs + cfg.marginMs <= cfg.ttlMs {
      forall lls: nat, cur: nat, now: nat | WindowOk(cfg, Some(lls), cur)
        ensures ConsumedExpiry(cfg, lls, cur, now) <= now + cfg.ttlMs
      {
        WindowOkExact(cfg, lls, cur);
      }
    } else {
      WindowOkExact(cfg, 1, 0);
      assert ConsumedExpiry(cfg, 1, 0, 0) == cfg.closeMs + cfg.marginMs;
    }
  }
}
