/**
 * What a memoized receipt is for: until its settlement's binding runs out, every later call for the
 * same id is refused and handed that receipt, whatever else happens in between.
 */
module SettlementReceipts {
  import opened Wrappers
  import opened ReplayStore
  import opened Settlement
  import opened SettlementTimely

  /** The id is bound, and settlement `r` has left its receipt, both until `expiry`. */
  predicate Memo(s: Store, id: nat, r: Receipt, expiry: nat) {
    && Payment(id) in s.bindings && s.bindings[Payment(id)] == expiry
    && Payment(id) in s.receipts && s.receipts[Payment(id)] == (r, expiry)
  }

  /** No release and no other receipt of the id. */
  predicate Spares(s: Sys, a: Action, id: nat)
    requires Enabled(s, a)
  {
    a.Tem? || (a.Persist? && a.ok) ==> s.procs[a.pid].id != id
  }

  predicate RunSpares(cfg: Config, s: Sys, run: seq<Action>, id: nat)
    requires cfg.closeMs > 0 && Possible(cfg, s, run)
    decreases |run|
  {
    run == [] || (Spares(s, run[0], id) && RunSpares(cfg, Step(cfg, s, run[0]), run[1..], id))
  }

  lemma InitialIsSafe(s: Sys)
    requires Initial(s)
    ensures Linked(s) && Safe(s, true)
  {
  }

  /** A sweep goes by a clock value that was read before. */
  lemma NowIsPast(s: Sys, pid: Pid)
    requires Linked(s) && (At(s, pid, Windowed) || At(s, pid, InFlight))
    ensures s.procs[pid].now <= s.clock
  {
    assert ProcOk(s, pid);
  }

  lemma StepKeepsMemo(cfg: Config, s: Sys, a: Action, id: nat, r: Receipt, expiry: nat)
    requires cfg.closeMs > 0 && Linked(s) && Enabled(s, a) && Spares(s, a, id)
    requires Memo(s.store, id, r, expiry) && s.clock < expiry
    ensures Memo(Step(cfg, s, a).store, id, r, expiry)
  {
    hide Linked, WindowOk, ConsumedExpiry;
    if a.TryReserve? || a.Classified? {
      NowIsPast(s, a.pid);
    }
  }

  lemma ClockAdvances(cfg: Config, s: Sys, a: Action)
    requires cfg.closeMs > 0 && Enabled(s, a)
    ensures s.clock <= Step(cfg, s, a).clock
  {
    hide Get, Reserve, Put, Release, SetReceipt, GetReceipt, WindowOk, ConsumedExpiry;
  }

  lemma {:induction false} RunKeepsMemo(cfg: Config, s: Sys, run: seq<Action>, id: nat, r: Receipt, expiry: nat)
    requires cfg.closeMs > 0 && Linked(s) && Possible(cfg, s, run) && RunSpares(cfg, s, run, id)
    requires Memo(s.store, id, r, expiry) && Run(cfg, s, run).clock < expiry
    ensures Memo(Run(cfg, s, run).store, id, r, expiry) && s.clock < expiry
    decreases |run|
  {
    hide Linked, Step, Memo, Spares;
    if run != [] {
      var t := Step(cfg, s, run[0]);
      ClockAdvances(cfg, s, run[0]);
      RunClock(cfg, t, run[1..]);
      StepKeepsLinked(cfg, s, run[0]);
      StepKeepsMemo(cfg, s, run[0], id, r, expiry);
      RunKeepsMemo(cfg, t, run[1..], id, r, expiry);
    }
  }

  lemma {:induction false} RunClock(cfg: Config, s: Sys, run: seq<Action>)
    requires cfg.closeMs > 0 && Possible(cfg, s, run)
    ensures s.clock <= Run(cfg, s, run).clock
    decreases |run|
  {
    hide Step;
    if run != [] {
      ClockAdvances(cfg, s, run[0]);
      RunClock(cfg, Step(cfg, s, run[0]), run[1..]);
    }
  }

  /** A call about to persist its receipt still binds its id, or its binding has run out. */
  lemma AnsweredBinds(s: Sys, pid: Pid)
    requires Linked(s) && Safe(s, true) && At(s, pid, Answered) && s.clock < s.procs[pid].expiry
    ensures Payment(s.procs[pid].id) in s.store.bindings
    ensures s.store.bindings[Payment(s.procs[pid].id)] == s.procs[pid].expiry
  {
    assert ProcOk(s, pid);
    var r := s.procs[pid].res.value;
    assert Held(s, r, true);
    if ReleasedIn(s.log, r, r, |s.log|, true) {
      var m :| r < m < |s.log| && s.log[m].Released? && s.log[m].pid == s.log[r].pid;
      ReleaserIsDone(s, m);
    }
  }

  /**
   * A settled id is answered by its receipt. Once call `pid` has persisted its receipt, any other call
   * for the same id that asks before that binding runs out finds the id consumed, and the receipt it
   * looks up is that of `pid`, after any further steps of any calls that neither release the id nor
   * memoize it anew.
   */
  lemma ReceiptIsHandedOut(cfg: Config, s: Sys, run: seq<Action>, pid: Pid, more: seq<Action>, q: Pid)
    requires cfg.closeMs > 0 && Initial(s) && Possible(cfg, s, run) && RunTimely(cfg, s, run)
    requires At(Run(cfg, s, run), pid, Answered)
    requires var t := Step(cfg, Run(cfg, s, run), Persist(pid, true));
             && Possible(cfg, t, more) && RunSpares(cfg, t, more, Run(cfg, s, run).procs[pid].id)
             && Run(cfg, t, more).clock < Run(cfg, s, run).procs[pid].expiry
    ensures var id := Run(cfg, s, run).procs[pid].id;
            var u := Run(cfg, Step(cfg, Run(cfg, s, run), Persist(pid, true)), more);
            && GetReceipt(u.store, Payment(id), u.clock).0 == Some(pid)
            && (At(u, q, Fresh) && u.procs[q].id == id ==>
                  var w := Step(cfg, u, CheckConsumed(q));
                  At(w, q, Refused) && GetReceipt(w.store, Payment(id), w.clock).0 == Some(pid))
  {
    hide Possible, Run, RunTimely, RunSpares, Linked, Safe;
    InitialIsSafe(s);
    RunKeepsLinked(cfg, s, run, true);
    var s1 := Run(cfg, s, run);
    var p := s1.procs[pid];
    var t := Step(cfg, s1, Persist(pid, true));
    StepKeepsLinked(cfg, s1, Persist(pid, true));
    RunClock(cfg, t, more);
    AnsweredBinds(s1, pid);
    RunKeepsMemo(cfg, t, more, p.id, pid, p.expiry);
  }

  /**
   * A classified answer binds the transaction's hash as well, until the same expiry, exactly when the
   * hash is bound already or the live bindings leave room; no payment's live binding is touched.
   */
  lemma HashIsBound(cfg: Config, s: Sys, pid: Pid, h: nat)
    requires cfg.closeMs > 0 && Linked(s) && At(s, pid, InFlight)
    ensures var p, t := s.procs[pid], Step(cfg, s, Classified(pid, Some(h)));
            && At(t, pid, Answered)
            && (Live(s.store, HashOf(h), p.now) || |Sweep(s.store, p.now).bindings| < cfg.cap ==>
                  HashOf(h) in t.store.bindings && t.store.bindings[HashOf(h)] == p.expiry)
            && (!Live(s.store, HashOf(h), p.now) && |Sweep(s.store, p.now).bindings| >= cfg.cap ==>
                  HashOf(h) !in t.store.bindings)
            && (forall id :: Live(s.store, Payment(id), s.clock) ==>
                  && Payment(id) in t.store.bindings
                  && t.store.bindings[Payment(id)] == s.store.bindings[Payment(id)])
  {
    NowIsPast(s, pid);
  }
}
