/**
 * When a call that proves its payment unapplied takes away another call's live binding, and what
 * follows from it: the timeliness that `NoDoubleSettleOwn` asks for is needed, and exactly that.
 */
module SettlementTimely {
  import opened Wrappers
  import opened ReplayStore
  import opened Settlement

  // ---- whose a binding is ----

  /** Reservation `i` is the one that binds its id: the binding is its own and no later reservation has that id. */
  ghost predicate Binds(s: Sys, i: nat) {
    && i < |s.log| && s.log[i].Reservation?
    && Payment(s.log[i].id) in s.store.bindings && s.store.bindings[Payment(s.log[i].id)] == s.log[i].expiry
    && (forall j :: i < j < |s.log| && s.log[j].Reservation? ==> s.log[j].id != s.log[i].id)
  }

  ghost predicate Owned(s: Sys) {
    forall id :: Payment(id) in s.store.bindings ==> exists i: nat :: Binds(s, i) && s.log[i].id == id
  }

  /** A payment's binding is as it was, or the one event just logged is its reservation. */
  ghost predicate Explained(s: Sys, t: Sys, ev: seq<Event>) {
    forall id :: Payment(id) in t.store.bindings ==>
      || (&& Payment(id) in s.store.bindings && t.store.bindings[Payment(id)] == s.store.bindings[Payment(id)]
          && (|ev| == 1 && ev[0].Reservation? ==> ev[0].id != id))
      || (|ev| == 1 && ev[0].Reservation? && ev[0].id == id && t.store.bindings[Payment(id)] == ev[0].expiry)
  }

  lemma ExplainedIsOwned(s: Sys, t: Sys, ev: seq<Event>)
    requires Owned(s) && t.log == s.log + ev && |ev| <= 1 && Explained(s, t, ev)
    ensures Owned(t)
  {
    forall id | Payment(id) in t.store.bindings ensures exists i: nat :: Binds(t, i) && t.log[i].id == id {
      if |ev| == 1 && ev[0].Reservation? && ev[0].id == id {
        assert Binds(t, |s.log|);
      } else {
        var i: nat :| Binds(s, i) && s.log[i].id == id;
        assert Binds(t, i);
      }
    }
  }

  lemma StepKeepsOwned(cfg: Config, s: Sys, a: Action)
    requires cfg.closeMs > 0 && Owned(s) && Enabled(s, a)
    ensures Owned(Step(cfg, s, a))
  {
    hide Owned, WindowOk, ConsumedExpiry;
    var t := Step(cfg, s, a);
    var ev := t.log[|s.log|..];
    assert t.log == s.log + ev;
    ExplainedIsOwned(s, t, ev);
  }

  lemma {:induction false} RunKeepsOwned(cfg: Config, s: Sys, run: seq<Action>)
    requires cfg.closeMs > 0 && Possible(cfg, s, run) && Owned(s)
    ensures Owned(Run(cfg, s, run))
    decreases |run|
  {
    hide Owned, Step;
    if run != [] {
      StepKeepsOwned(cfg, s, run[0]);
      RunKeepsOwned(cfg, Step(cfg, s, run[0]), run[1..]);
    }
  }

  // ---- how a call is refused ----

  /** A call asks twice whether its id is bound: on arrival by the clock, on reserving by the value it read before. */
  lemma RefusedIff(cfg: Config, s: Sys, pid: Pid)
    requires cfg.closeMs > 0
    ensures At(s, pid, Fresh) ==>
              var t := Step(cfg, s, CheckConsumed(pid));
              && (At(t, pid, Refused) <==> Live(s.store, Payment(s.procs[pid].id), s.clock))
              && (At(t, pid, Unconsumed) <==> !Live(s.store, Payment(s.procs[pid].id), s.clock)) && t.log == s.log
    ensures At(s, pid, Windowed) ==>
              var p, t := s.procs[pid], Step(cfg, s, TryReserve(pid));
              && (At(t, pid, Refused) <==> Live(s.store, Payment(p.id), p.now))
              && (At(t, pid, Holding) <==>
                    !Live(s.store, Payment(p.id), p.now) && |Sweep(s.store, p.now).bindings| < cfg.cap)
              && (At(t, pid, Refused) || At(t, pid, Holding) || At(t, pid, Done))
              && (!At(t, pid, Holding) ==> t.log == s.log)
  {
    hide Put, Release, SetReceipt, GetReceipt, ConsumedExpiry, WindowOk;
  }

  /** And it fails closed: only a readable ledger and an admitted window let it go on. */
  lemma WindowedIff(cfg: Config, s: Sys, pid: Pid, readable: bool)
    requires cfg.closeMs > 0 && At(s, pid, Clocked)
    ensures var p, t := s.procs[pid], Step(cfg, s, ReadLedger(pid, readable));
            && (At(t, pid, Windowed) <==> readable && p.lls.Some? && Admitted(cfg, s.ledger, p.lls.value))
            && (At(t, pid, Windowed) || At(t, pid, Done)) && t.store == s.store && t.log == s.log
  {
    hide WindowOk, ConsumedExpiry;
    var lls := s.procs[pid].lls;
    WindowOkExact(cfg, if lls.Some? then lls.value else 0, s.ledger);
  }

  // ---- one more settlement, from its arrival to its submit ----

  function Settling(pid: Pid, id: nat, lls: nat): seq<Action> {
    [Arrive(pid, id, Some(lls)), CheckConsumed(pid), ReadClock(pid), ReadLedger(pid, true), TryReserve(pid),
     Submit(pid)]
  }

  lemma RunCons(cfg: Config, s: Sys, a: Action, run: seq<Action>)
    requires cfg.closeMs > 0 && Enabled(s, a) && Possible(cfg, Step(cfg, s, a), run)
    ensures Possible(cfg, s, [a] + run) && Run(cfg, s, [a] + run) == Run(cfg, Step(cfg, s, a), run)
  {
    assert ([a] + run)[1..] == run;
  }

  lemma {:induction false} RunAppend(cfg: Config, s: Sys, run: seq<Action>, more: seq<Action>)
    requires cfg.closeMs > 0 && Possible(cfg, s, run) && Possible(cfg, Run(cfg, s, run), more)
    ensures Possible(cfg, s, run + more) && Run(cfg, s, run + more) == Run(cfg, Run(cfg, s, run), more)
    decreases |run|
  {
    hide Step;
    if run == [] {
      assert run + more == more;
    } else {
      RunAppend(cfg, Step(cfg, s, run[0]), run[1..], more);
      RunCons(cfg, s, run[0], run[1..] + more);
      assert run + more == [run[0]] + (run[1..] + more);
    }
  }

  /** The new call has reserved the id for its window and its payment is on the way; nothing else has moved. */
  ghost predicate Settled(cfg: Config, s: Sys, t: Sys, pid: Pid, id: nat, lls: nat) {
    && t.clock == s.clock && t.ledger == s.ledger && t.lastClose == s.lastClose
    && pid in t.procs && t.procs == s.procs[pid := t.procs[pid]]
    && t.procs[pid].pc == InFlight && t.procs[pid].id == id
    && |t.log| == |s.log| + 2 && t.log[..|s.log|] == s.log && t.log[|s.log| + 1] == Submission(pid, id)
    && var e := t.log[|s.log|];
    && e.Reservation? && e.pid == pid && e.id == id && e.clock == s.clock
    && e.lls == lls && e.cur == s.ledger
    && e.expiry == t.procs[pid].expiry == s.clock + (lls - s.ledger) * cfg.closeMs + cfg.marginMs
    && t.store.bindings == Sweep(s.store, s.clock).bindings[Payment(id) := e.expiry]
  }

  /** The call has found the id unconsumed and the window acceptable. */
  ghost predicate Ready(cfg: Config, s: Sys, t: Sys, pid: Pid, id: nat, lls: nat) {
    && t.clock == s.clock && t.ledger == s.ledger && t.lastClose == s.lastClose && t.log == s.log
    && pid in t.procs && t.procs == s.procs[pid := t.procs[pid]]
    && Sweep(t.store, s.clock).bindings == Sweep(s.store, s.clock).bindings
    && var p := t.procs[pid];
    && p.pc == Windowed && p.id == id && p.lls == Some(lls) && p.now == s.clock && p.cur == s.ledger
    && p.expiry == s.clock + (lls - s.ledger) * cfg.closeMs + cfg.marginMs
  }

  lemma NotFound(s: Store, k: Key, now: nat)
    requires !Live(s, k, now)
    ensures Get(s, k, now).0.None? && Sweep(Get(s, k, now).1, now).bindings == Sweep(s, now).bindings
  {
  }

  /** What `settle` asks of a LastLedgerSequence: one ledger ahead, or a window that fits into the TTL. */
  predicate Admitted(cfg: Config, ledger: nat, lls: nat) {
    lls > ledger && (lls - ledger == 1 || (lls - ledger) * cfg.closeMs + cfg.marginMs <= cfg.ttlMs)
  }

  lemma FirstHalf(cfg: Config, s: Sys, pid: Pid, id: nat, lls: nat) returns (s1: Sys, s2: Sys, s3: Sys, s4: Sys)
    requires cfg.closeMs > 0 && pid !in s.procs && !Live(s.store, Payment(id), s.clock)
    requires Admitted(cfg, s.ledger, lls)
    ensures && Enabled(s, Arrive(pid, id, Some(lls))) && s1 == Step(cfg, s, Arrive(pid, id, Some(lls)))
            && Enabled(s1, CheckConsumed(pid)) && s2 == Step(cfg, s1, CheckConsumed(pid))
            && Enabled(s2, ReadClock(pid)) && s3 == Step(cfg, s2, ReadClock(pid))
            && Enabled(s3, ReadLedger(pid, true)) && s4 == Step(cfg, s3, ReadLedger(pid, true))
    ensures Ready(cfg, s, s4, pid, id, lls)
  {
    hide Get, Sweep, Reserve, Put, Release, SetReceipt, GetReceipt, WindowOk;
    s1 := Step(cfg, s, Arrive(pid, id, Some(lls)));
    NotFound(s.store, Payment(id), s.clock);
    s2 := Step(cfg, s1, CheckConsumed(pid));
    s3 := Step(cfg, s2, ReadClock(pid));
    WindowOkExact(cfg, lls, s.ledger);
    s4 := Step(cfg, s3, ReadLedger(pid, true));
  }

  lemma SecondHalf(cfg: Config, s: Sys, s4: Sys, pid: Pid, id: nat, lls: nat) returns (s5: Sys)
    requires cfg.closeMs > 0 && Ready(cfg, s, s4, pid, id, lls)
    requires !Live(s.store, Payment(id), s.clock) && |Sweep(s.store, s.clock).bindings| < cfg.cap
    ensures Enabled(s4, TryReserve(pid)) && s5 == Step(cfg, s4, TryReserve(pid)) && Enabled(s5, Submit(pid))
    ensures Settled(cfg, s, Step(cfg, s5, Submit(pid)), pid, id, lls)
  {
    hide Get, Put, Release, SetReceipt, GetReceipt, ConsumedExpiry, WindowOk;
    var k := Payment(id);
    assert k !in Sweep(s.store, s.clock).bindings;
    assert !Live(s4.store, k, s.clock) by {
      assert k in s4.store.bindings && s4.store.bindings[k] > s.clock ==> k in Sweep(s4.store, s.clock).bindings;
    }
    s5 := Step(cfg, s4, TryReserve(pid));
    assert s5.procs[pid].pc == Holding;
  }

  /** A new call with an admitted window, for an id without a live binding and with room, gets as far as its submit. */
  lemma NewSettlement(cfg: Config, s: Sys, pid: Pid, id: nat, lls: nat)
    requires cfg.closeMs > 0 && pid !in s.procs && Admitted(cfg, s.ledger, lls)
    requires !Live(s.store, Payment(id), s.clock) && |Sweep(s.store, s.clock).bindings| < cfg.cap
    ensures var run := Settling(pid, id, lls);
            Possible(cfg, s, run) && Settled(cfg, s, Run(cfg, s, run), pid, id, lls)
  {
    hide Possible, Run, Step, Enabled, Settled, Ready, Sweep;
    var s1, s2, s3, s4 := FirstHalf(cfg, s, pid, id, lls);
    var s5 := SecondHalf(cfg, s, s4, pid, id, lls);
    SixSteps(cfg, s, pid, id, lls, s1, s2, s3, s4, s5);
  }

  lemma SixSteps(cfg: Config, s: Sys, pid: Pid, id: nat, lls: nat, s1: Sys, s2: Sys, s3: Sys, s4: Sys, s5: Sys)
    requires cfg.closeMs > 0 && Enabled(s, Arrive(pid, id, Some(lls))) && s1 == Step(cfg, s, Arrive(pid, id, Some(lls)))
    requires Enabled(s1, CheckConsumed(pid)) && s2 == Step(cfg, s1, CheckConsumed(pid))
    requires Enabled(s2, ReadClock(pid)) && s3 == Step(cfg, s2, ReadClock(pid))
    requires Enabled(s3, ReadLedger(pid, true)) && s4 == Step(cfg, s3, ReadLedger(pid, true))
    requires Enabled(s4, TryReserve(pid)) && s5 == Step(cfg, s4, TryReserve(pid)) && Enabled(s5, Submit(pid))
    ensures Possible(cfg, s, Settling(pid, id, lls))
    ensures Run(cfg, s, Settling(pid, id, lls)) == Step(cfg, s5, Submit(pid))
  {
    hide Step, Enabled;
    var a, b, c, d, e, f := Arrive(pid, id, Some(lls)), CheckConsumed(pid), ReadClock(pid), ReadLedger(pid, true),
      TryReserve(pid), Submit(pid);
    RunCons(cfg, s5, f, []);
    RunCons(cfg, s4, e, [f]);
    RunCons(cfg, s3, d, [e, f]);
    RunCons(cfg, s2, c, [d, e, f]);
    RunCons(cfg, s1, b, [c, d, e, f]);
    RunCons(cfg, s, a, [b, c, d, e, f]);
  }

  lemma ThirdIsEnabled(cfg: Config, s: Sys, run: seq<Action>)
    requires cfg.closeMs > 0 && Possible(cfg, s, run) && |run| >= 3
    ensures Enabled(s, run[0]) && var s1 := Step(cfg, s, run[0]);
            Enabled(s1, run[1]) && Enabled(Step(cfg, s1, run[1]), run[2])
  {
    hide Step, Enabled;
    assert run[1..][0] == run[1] && run[1..][1..] == run[2..] && run[2..][0] == run[2];
    var s1 := Step(cfg, s, run[0]);
    assert Possible(cfg, s1, run[1..]);
    assert Possible(cfg, Step(cfg, s1, run[1]), run[2..]);
  }

  /** A call for an id with a live binding does not get there. */
  lemma LiveIsRefused(cfg: Config, s: Sys, pid: Pid, id: nat, lls: nat)
    requires cfg.closeMs > 0 && Live(s.store, Payment(id), s.clock)
    ensures !Possible(cfg, s, Settling(pid, id, lls))
  {
    hide Possible;
    if Possible(cfg, s, Settling(pid, id, lls)) {
      ThirdIsEnabled(cfg, s, Settling(pid, id, lls));
    }
  }

  // ---- whose binding a release takes away ----

  /** The release of an unapplied payment takes away the live binding of another call. */
  ghost predicate ReleasesAnother(cfg: Config, s: Sys, pid: Pid)
    requires cfg.closeMs > 0
  {
    && At(s, pid, InFlight)
    && var k := Payment(s.procs[pid].id);
    && Live(s.store, k, s.clock) && !Live(Step(cfg, s, Tem(pid)).store, k, s.clock)
    && exists i: nat :: Binds(s, i) && s.log[i].id == s.procs[pid].id && s.log[i].pid != pid
  }

  /** At this very clock: at once, or once a newcomer has reserved the id anew and submitted its payment. */
  ghost predicate CanReleaseAnother(cfg: Config, s: Sys, pid: Pid)
    requires cfg.closeMs > 0 && At(s, pid, InFlight)
  {
    || ReleasesAnother(cfg, s, pid)
    || exists q, lls :: var run := Settling(q, s.procs[pid].id, lls);
         && Possible(cfg, s, run) && At(Run(cfg, s, run), q, InFlight)
         && ReleasesAnother(cfg, Run(cfg, s, run), pid)
  }

  /** Before its own binding runs out a call in flight is the one that binds its id. */
  lemma BindsItself(s: Sys, pid: Pid, i: nat)
    requires Linked(s) && Safe(s, true) && At(s, pid, InFlight) && s.clock < s.procs[pid].expiry
    ensures Live(s.store, Payment(s.procs[pid].id), s.clock)
    ensures Binds(s, i) && s.log[i].id == s.procs[pid].id ==> s.log[i].pid == pid
  {
    assert ProcOk(s, pid);
    var r := s.procs[pid].res.value;
    assert Held(s, r, true);
    NotReleased(s, pid, |s.log|);
    if Binds(s, i) && s.log[i].id == s.procs[pid].id && s.log[i].pid != pid {
      assert i > r && Apart(s.log, r, i, true) && EventOk(s, i);
      NotReleased(s, pid, i);
      assert false;
    }
  }

  /** A call in flight has released nothing. */
  lemma NotReleased(s: Sys, pid: Pid, hi: nat)
    requires Linked(s) && At(s, pid, InFlight) && hi <= |s.log|
    ensures s.procs[pid].res.Some? && s.procs[pid].res.value < |s.log|
    ensures var r := s.procs[pid].res.value; !ReleasedIn(s.log, r, r, hi, true)
  {
    assert ProcOk(s, pid);
    var r := s.procs[pid].res.value;
    if ReleasedIn(s.log, r, r, hi, true) {
      var m :| r < m < hi && s.log[m].Released? && s.log[m].pid == s.log[r].pid;
      ReleaserIsDone(s, m);
    }
  }

  lemma ReleaserIsDone(s: Sys, m: nat)
    requires Linked(s) && m < |s.log| && s.log[m].Released?
    ensures At(s, s.log[m].pid, Done)
  {
    assert EventOk(s, m);
  }

  /** After its own binding has run out a live binding of its id is another's. */
  lemma LateIsAnothers(s: Sys, pid: Pid, i: nat)
    requires Linked(s) && At(s, pid, InFlight) && s.clock >= s.procs[pid].expiry
    requires Live(s.store, Payment(s.procs[pid].id), s.clock) && Binds(s, i) && s.log[i].id == s.procs[pid].id
    ensures s.log[i].pid != pid
  {
    assert ProcOk(s, pid) && EventOk(s, i);
  }

  lemma NewcomerBinds(cfg: Config, s: Sys, t: Sys, pid: Pid, q: Pid)
    requires cfg.closeMs > 0 && At(s, pid, InFlight) && q !in s.procs
    requires Settled(cfg, s, t, q, s.procs[pid].id, s.ledger + 1)
    ensures At(t, q, InFlight) && ReleasesAnother(cfg, t, pid)
  {
    hide Sweep;
    assert Binds(t, |s.log|);
  }

  /** A number that no call has yet. */
  lemma Newcomer(known: set<Pid>) returns (pid: Pid)
    ensures forall p :: p in known ==> p < pid
  {
    if known == {} {
      pid := 0;
    } else {
      var p :| p in known;
      var q := Newcomer(known - {p});
      pid := if p < q then q else p + 1;
      forall x | x in known ensures x < pid {
        assert x == p || x in known - {p};
      }
    }
  }

  lemma TemReleases(cfg: Config, s: Sys, pid: Pid)
    requires cfg.closeMs > 0 && At(s, pid, InFlight)
    ensures !Live(Step(cfg, s, Tem(pid)).store, Payment(s.procs[pid].id), s.clock)
  {
  }

  lemma EarlyCannot(cfg: Config, s: Sys, pid: Pid)
    requires cfg.closeMs > 0 && Linked(s) && Safe(s, true) && At(s, pid, InFlight) && s.clock < s.procs[pid].expiry
    ensures !CanReleaseAnother(cfg, s, pid)
  {
    hide Linked, Safe, Possible, Run, Step, Settling;
    BindsItself(s, pid, 0);
    forall i: nat ensures Binds(s, i) && s.log[i].id == s.procs[pid].id ==> s.log[i].pid == pid {
      BindsItself(s, pid, i);
    }
    forall q, lls ensures !Possible(cfg, s, Settling(q, s.procs[pid].id, lls)) {
      LiveIsRefused(cfg, s, q, s.procs[pid].id, lls);
    }
  }

  /** The reservation of the newcomer is granted, so there was room. */
  lemma FullIsRefused(cfg: Config, s: Sys, q: Pid, id: nat, lls: nat)
    requires cfg.closeMs > 0 && !Live(s.store, Payment(id), s.clock) && |Sweep(s.store, s.clock).bindings| >= cfg.cap
    ensures !Possible(cfg, s, Settling(q, id, lls))
  {
    hide Possible, ConsumedExpiry, WindowOk;
    var run := Settling(q, id, lls);
    if Possible(cfg, s, run) {
      PossibleTail(cfg, s, run);
      var s1 := Step(cfg, s, run[0]);
      PossibleTail(cfg, s1, run[1..]);
      var s2 := Step(cfg, s1, run[1]);
      assert At(s2, q, Unconsumed) && s2.clock == s.clock && s2.procs[q].id == id;
      assert Sweep(s2.store, s.clock).bindings == Sweep(s.store, s.clock).bindings;
      assert run[1..][1..] == [ReadClock(q), ReadLedger(q, true), TryReserve(q), Submit(q)];
      FullStops(cfg, s2, q, id);
    }
  }

  lemma PossibleTail(cfg: Config, s: Sys, run: seq<Action>)
    requires cfg.closeMs > 0 && Possible(cfg, s, run) && run != []
    ensures Enabled(s, run[0]) && Possible(cfg, Step(cfg, s, run[0]), run[1..])
  {
  }

  /** Two reads later the call has the clock's value and the store is as it was. */
  lemma TwoReads(cfg: Config, s: Sys, q: Pid)
    requires cfg.closeMs > 0 && At(s, q, Unconsumed)
    ensures var t := Step(cfg, s, ReadClock(q));
            At(t, q, Clocked) && var u := Step(cfg, t, ReadLedger(q, true));
            && q in u.procs && u.store == s.store && u.clock == s.clock && u.procs[q].id == s.procs[q].id
            && (u.procs[q].pc == Windowed ==> u.procs[q].now == s.clock)
  {
    hide WindowOk, ConsumedExpiry;
  }

  lemma FullEnds(cfg: Config, s: Sys, q: Pid)
    requires cfg.closeMs > 0 && At(s, q, Windowed) && s.procs[q].now == s.clock
    requires !Live(s.store, Payment(s.procs[q].id), s.clock) && |Sweep(s.store, s.clock).bindings| >= cfg.cap
    ensures At(Step(cfg, s, TryReserve(q)), q, Done)
  {
  }

  lemma FullStops(cfg: Config, s: Sys, q: Pid, id: nat)
    requires cfg.closeMs > 0 && At(s, q, Unconsumed) && s.procs[q].id == id
    requires !Live(s.store, Payment(id), s.clock) && |Sweep(s.store, s.clock).bindings| >= cfg.cap
    ensures !Possible(cfg, s, [ReadClock(q), ReadLedger(q, true), TryReserve(q), Submit(q)])
  {
    hide Possible, Step, Sweep;
    var run := [ReadClock(q), ReadLedger(q, true), TryReserve(q), Submit(q)];
    if Possible(cfg, s, run) {
      PossibleTail(cfg, s, run);
      var s1 := Step(cfg, s, run[0]);
      PossibleTail(cfg, s1, run[1..]);
      var s2 := Step(cfg, s1, run[1]);
      TwoReads(cfg, s, q);
      assert run[1..][1..] == [TryReserve(q), Submit(q)];
      PossibleTail(cfg, s2, [TryReserve(q), Submit(q)]);
      FullEnds(cfg, s2, q);
      assert [TryReserve(q), Submit(q)][1..] == [Submit(q)];
      PossibleTail(cfg, Step(cfg, s2, TryReserve(q)), [Submit(q)]);
    }
  }

  lemma NotReady(cfg: Config, s: Sys, q: Pid, lls: nat)
    requires cfg.closeMs > 0 && At(s, q, Unconsumed) && s.procs[q].lls == Some(lls) && !Admitted(cfg, s.ledger, lls)
    ensures !Possible(cfg, s, [ReadClock(q), ReadLedger(q, true), TryReserve(q), Submit(q)])
  {
    hide Possible, WindowOk, ConsumedExpiry;
    WindowOkExact(cfg, lls, s.ledger);
    var run := [ReadClock(q), ReadLedger(q, true), TryReserve(q), Submit(q)];
    if Possible(cfg, s, run) {
      ThirdIsEnabled(cfg, s, run);
    }
  }

  /** A call whose window is not admitted does not get there either. */
  lemma WindowIsRefused(cfg: Config, s: Sys, q: Pid, id: nat, lls: nat)
    requires cfg.closeMs > 0 && !Live(s.store, Payment(id), s.clock) && !Admitted(cfg, s.ledger, lls)
    ensures !Possible(cfg, s, Settling(q, id, lls))
  {
    hide Possible, ConsumedExpiry, WindowOk, Admitted;
    var run := Settling(q, id, lls);
    if Possible(cfg, s, run) {
      PossibleTail(cfg, s, run);
      var s1 := Step(cfg, s, run[0]);
      PossibleTail(cfg, s1, run[1..]);
      var s2 := Step(cfg, s1, run[1]);
      assert At(s2, q, Unconsumed) && s2.ledger == s.ledger && s2.procs[q].lls == Some(lls);
      assert run[1..][1..] == [ReadClock(q), ReadLedger(q, true), TryReserve(q), Submit(q)];
      NotReady(cfg, s2, q, lls);
    }
  }

  /**
   * Exactly when a new call gets from its arrival to its submit: its id has no live binding, its
   * window is admitted, and the live bindings leave room.
   */
  lemma SettlesIff(cfg: Config, s: Sys, pid: Pid, id: nat, lls: nat)
    requires cfg.closeMs > 0 && pid !in s.procs
    ensures Possible(cfg, s, Settling(pid, id, lls)) <==>
            && !Live(s.store, Payment(id), s.clock)
            && lls > s.ledger && (lls - s.ledger == 1 || (lls - s.ledger) * cfg.closeMs + cfg.marginMs <= cfg.ttlMs)
            && |Sweep(s.store, s.clock).bindings| < cfg.cap
  {
    hide Possible, Settling, Live, Sweep, Settled, Step;
    if Live(s.store, Payment(id), s.clock) {
      LiveIsRefused(cfg, s, pid, id, lls);
    } else if !Admitted(cfg, s.ledger, lls) {
      WindowIsRefused(cfg, s, pid, id, lls);
    } else if |Sweep(s.store, s.clock).bindings| < cfg.cap {
      NewSettlement(cfg, s, pid, id, lls);
    } else {
      FullIsRefused(cfg, s, pid, id, lls);
    }
  }

  lemma FullCannot(cfg: Config, s: Sys, pid: Pid)
    requires cfg.closeMs > 0 && At(s, pid, InFlight) && !Live(s.store, Payment(s.procs[pid].id), s.clock)
    requires |Sweep(s.store, s.clock).bindings| >= cfg.cap
    ensures !CanReleaseAnother(cfg, s, pid)
  {
    hide Possible, Run, Step, Settling, Sweep;
    forall q, lls ensures !Possible(cfg, s, Settling(q, s.procs[pid].id, lls)) {
      FullIsRefused(cfg, s, q, s.procs[pid].id, lls);
    }
  }

  /**
   * A call in flight can take away another call's live binding exactly when its own has run out and
   * the id is bound anew, or can be: no live binding stands in the way and the store has room.
   */
  lemma ReleasesAnotherIffLate(cfg: Config, s: Sys, pid: Pid)
    requires cfg.closeMs > 0 && Linked(s) && Safe(s, true) && Owned(s) && At(s, pid, InFlight)
    ensures CanReleaseAnother(cfg, s, pid) <==>
            && s.clock >= s.procs[pid].expiry
            && (|| Live(s.store, Payment(s.procs[pid].id), s.clock)
                || |Sweep(s.store, s.clock).bindings| < cfg.cap)
  {
    hide Linked, Safe, Possible, Run, Step, Settling, Settled, Sweep;
    var id := s.procs[pid].id;
    if s.clock < s.procs[pid].expiry {
      EarlyCannot(cfg, s, pid);
    } else if Live(s.store, Payment(id), s.clock) {
      var i: nat :| Binds(s, i) && s.log[i].id == id;
      LateIsAnothers(s, pid, i);
      assert !Live(Step(cfg, s, Tem(pid)).store, Payment(id), s.clock) by {
        TemReleases(cfg, s, pid);
      }
    } else if |Sweep(s.store, s.clock).bindings| < cfg.cap {
      var q := Newcomer(s.procs.Keys);
      assert q !in s.procs;
      NewSettlement(cfg, s, q, id, s.ledger + 1);
      NewcomerBinds(cfg, s, Run(cfg, s, Settling(q, id, s.ledger + 1)), pid, q);
    } else {
      FullCannot(cfg, s, pid);
    }
  }

  /** The same after every timely run. */
  lemma RunReleasesAnotherIffLate(cfg: Config, s: Sys, run: seq<Action>, pid: Pid)
    requires cfg.closeMs > 0 && Initial(s) && Possible(cfg, s, run) && RunTimely(cfg, s, run)
    requires At(Run(cfg, s, run), pid, InFlight)
    ensures var t := Run(cfg, s, run);
            CanReleaseAnother(cfg, t, pid) <==>
            && t.clock >= t.procs[pid].expiry
            && (|| Live(t.store, Payment(t.procs[pid].id), t.clock)
                || |Sweep(t.store, t.clock).bindings| < cfg.cap)
  {
    hide Possible, Run, RunTimely, CanReleaseAnother, Sweep;
    RunKeepsLinked(cfg, s, run, true);
    RunKeepsOwned(cfg, s, run);
    ReleasesAnotherIffLate(cfg, Run(cfg, s, run), pid);
  }

  // ---- timeliness is needed ----

  const ONE_LEDGER := Config(1, 0, 10, 1)

  const START := Sys(0, 0, 0, Store(map[], map[]), map[], [])

  /** Call 0 submits and its binding runs out, call 1 reserves the id, call 0 turns out unapplied, call 2 submits. */
  function UntimelyRun(): seq<Action> {
    Settling(0, 7, 1) + ([Tick(1)] + (Settling(1, 7, 1) + ([Tem(0)] + Settling(2, 7, 1))))
  }

  /**
   * Without `RunTimely` the id is submitted again while the payment of a call with a live
   * reservation is in flight, and that call has not released it.
   */
  lemma UntimelySettlesTwice()
    ensures var run := UntimelyRun();
            && Initial(START) && Possible(ONE_LEDGER, START, run)
            && var t := Run(ONE_LEDGER, START, run);
            && At(t, 1, InFlight) && At(t, 2, InFlight) && |t.log| == 7
            && t.log[3] == Submission(1, 7) && t.log[6] == Submission(2, 7) && ReservedFor(t.log, 3, 6, 2, 5)
            && t.log[5].clock < t.log[2].expiry && !ReleasedIn(t.log, 2, 2, 5, true)
  {
    hide Possible, Run, Settling, Settled, Step, Enabled, Sweep, Live, ReservedFor, ReleasedIn;
    var cfg := ONE_LEDGER;
    NothingBound();
    NewSettlement(cfg, START, 0, 7, 1);
    var s1 := Run(cfg, START, Settling(0, 7, 1));
    var s2 := AfterTick(s1);
    NewSettlement(cfg, s2, 1, 7, 1);
    var s3 := Run(cfg, s2, Settling(1, 7, 1));
    var s4 := AfterTem(s1, s2, s3);
    NewSettlement(cfg, s4, 2, 7, 1);
    AfterThree(s1, s2, s3, s4, Run(cfg, s4, Settling(2, 7, 1)));
    Untimely(s1, s2, s3, s4);
  }

  lemma NothingBound()
    ensures !Live(START.store, Payment(7), 0) && |Sweep(START.store, 0).bindings| == 0
  {
    assert Sweep(START.store, 0).bindings == map[];
  }

  lemma AfterTick(s1: Sys) returns (s2: Sys)
    requires Settled(ONE_LEDGER, START, s1, 0, 7, 1)
    ensures s2 == s1.(clock := 1) && Enabled(s1, Tick(1)) && s2 == Step(ONE_LEDGER, s1, Tick(1))
    ensures s2.procs.Keys == {0} && s2.ledger == 0
    ensures !Live(s2.store, Payment(7), 1) && |Sweep(s2.store, 1).bindings| == 0
  {
    s2 := s1.(clock := 1);
    assert s1.store.bindings == map[Payment(7) := 1];
    assert Sweep(s2.store, 1).bindings == map[];
  }

  lemma AfterTem(s1: Sys, s2: Sys, s3: Sys) returns (s4: Sys)
    requires Settled(ONE_LEDGER, START, s1, 0, 7, 1) && s2 == s1.(clock := 1) && Settled(ONE_LEDGER, s2, s3, 1, 7, 1)
    ensures Enabled(s3, Tem(0)) && s4 == Step(ONE_LEDGER, s3, Tem(0))
    ensures s4.log == s3.log + [Released(0, 7)] && s4.procs == s3.procs[0 := s4.procs[0]] && s4.procs.Keys == {0, 1}
    ensures s4.clock == 1 && s4.ledger == 0
    ensures !Live(s4.store, Payment(7), 1) && |Sweep(s4.store, 1).bindings| == 0
  {
    assert s1.store.bindings == map[Payment(7) := 1];
    assert Sweep(s2.store, 1).bindings == map[];
    s4 := Step(ONE_LEDGER, s3, Tem(0));
    assert s3.store.bindings == map[Payment(7) := 2];
    assert Sweep(s4.store, 1).bindings == map[];
  }

  lemma AfterThree(s1: Sys, s2: Sys, s3: Sys, s4: Sys, t: Sys)
    requires Settled(ONE_LEDGER, START, s1, 0, 7, 1) && s2 == s1.(clock := 1) && Settled(ONE_LEDGER, s2, s3, 1, 7, 1)
    requires s4.log == s3.log + [Released(0, 7)] && 1 in s4.procs && 0 in s4.procs
             && s4.procs == s3.procs[0 := s4.procs[0]]
    requires s4.clock == 1 && Settled(ONE_LEDGER, s4, t, 2, 7, 1)
    ensures At(t, 1, InFlight) && At(t, 2, InFlight) && |t.log| == 7
    ensures t.log[3] == Submission(1, 7) && t.log[6] == Submission(2, 7) && ReservedFor(t.log, 3, 6, 2, 5)
    ensures t.log[5].clock < t.log[2].expiry && !ReleasedIn(t.log, 2, 2, 5, true)
  {
    hide Sweep;
    assert t.log[..5] == s4.log && s4.log[..4] == s3.log && |s2.log| == 2;
    assert t.log[2] == t.log[..5][2] == s4.log[..4][2] && t.log[3] == t.log[..5][3] == s4.log[..4][3];
    assert t.log[4] == t.log[..5][4];
  }

  lemma Untimely(s1: Sys, s2: Sys, s3: Sys, s4: Sys)
    requires var cfg := ONE_LEDGER;
             && Possible(cfg, START, Settling(0, 7, 1)) && s1 == Run(cfg, START, Settling(0, 7, 1))
             && Enabled(s1, Tick(1)) && s2 == Step(cfg, s1, Tick(1))
             && Possible(cfg, s2, Settling(1, 7, 1)) && s3 == Run(cfg, s2, Settling(1, 7, 1))
             && Enabled(s3, Tem(0)) && s4 == Step(cfg, s3, Tem(0)) && Possible(cfg, s4, Settling(2, 7, 1))
    ensures Possible(ONE_LEDGER, START, UntimelyRun())
    ensures Run(ONE_LEDGER, START, UntimelyRun()) == Run(ONE_LEDGER, s4, Settling(2, 7, 1))
  {
    hide Possible, Run, Settling, Step, Enabled;
    var cfg, third := ONE_LEDGER, Settling(2, 7, 1);
    RunCons(cfg, s3, Tem(0), third);
    RunAppend(cfg, s2, Settling(1, 7, 1), [Tem(0)] + third);
    RunCons(cfg, s1, Tick(1), Settling(1, 7, 1) + ([Tem(0)] + third));
    RunAppend(cfg, START, Settling(0, 7, 1), [Tick(1)] + (Settling(1, 7, 1) + ([Tem(0)] + third)));
  }
}
