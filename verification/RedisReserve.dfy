/**
 * `reserve` on the shared Redis backend: SET NX PX, DBSIZE and DEL are separate atomic commands, so
 * callers on any number of instances interleave between them. DBSIZE answers some count that is at
 * least the number of live bindings (receipts and rate-limit keys are counted too).
 */
module RedisReserve {
  import opened Arithmetic

  type Pid = nat
  type Key = nat

  datatype Stage =
    | Bound     // SET NX answered OK; about to ask for the size
    | OverCap   // the size was above the cap; about to delete
    | Told      // answered "reserved"
    | Refused   // answered "full" or "exists"
    | Ended     // released after "reserved"

  datatype Caller = Caller(key: Key, stage: Stage, expiry: nat)

  datatype Binding = Binding(owner: Pid, expiry: nat)

  datatype Db = Db(clock: nat, bindings: map<Key, Binding>, callers: map<Pid, Caller>)

  datatype Action =
    | Tick(to: nat)
    | SetNx(pid: Pid, key: Key, px: nat)
    | DbSize(pid: Pid, n: nat)
    | Del(pid: Pid)
    | Release(pid: Pid)  // a settlement gives its reservation back

  predicate LiveKey(s: Db, k: Key) {
    k in s.bindings && s.bindings[k].expiry > s.clock
  }

  function LiveKeys(s: Db): set<Key> {
    set k | k in s.bindings && LiveKey(s, k)
  }

  predicate AtStage(s: Db, pid: Pid, stage: Stage) {
    pid in s.callers && s.callers[pid].stage == stage
  }

  /** The caller's own binding has not run out. */
  predicate InTime(s: Db, pid: Pid)
    requires pid in s.callers
  {
    s.clock < s.callers[pid].expiry
  }

  predicate Enabled(s: Db, a: Action) {
    match a
    case Tick(to) => to >= s.clock
    case SetNx(pid, _, px) => pid !in s.callers && px >= 1
    case DbSize(pid, n) => AtStage(s, pid, Bound) && n >= |LiveKeys(s)|
    case Del(pid) => AtStage(s, pid, OverCap)
    case Release(pid) => AtStage(s, pid, Told)
  }

  /** No binding runs out inside its own `reserve`, and none is released after it has run out. */
  predicate Prompt(s: Db, a: Action)
    requires Enabled(s, a)
  {
    a.DbSize? || a.Del? || a.Release? ==> InTime(s, a.pid)
  }

  function Step(cap: nat, s: Db, a: Action): Db
    requires Enabled(s, a)
  {
    match a
    case Tick(to) => s.(clock := to)
    case SetNx(pid, key, px) =>
      if LiveKey(s, key) then s.(callers := s.callers[pid := Caller(key, Refused, 0)])
      else s.(bindings := s.bindings[key := Binding(pid, s.clock + px)],
              callers := s.callers[pid := Caller(key, Bound, s.clock + px)])
    case DbSize(pid, n) =>
      s.(callers := s.callers[pid := s.callers[pid].(stage := if n > cap then OverCap else Told)])
    case Del(pid) =>
      s.(bindings := s.bindings - {s.callers[pid].key}, callers := s.callers[pid := s.callers[pid].(stage := Refused)])
    case Release(pid) =>
      s.(bindings := s.bindings - {s.callers[pid].key}, callers := s.callers[pid := s.callers[pid].(stage := Ended)])
  }

  predicate Holds(s: Db, pid: Pid)
    requires pid in s.callers
  {
    var c := s.callers[pid];
    (c.stage == Bound || c.stage == OverCap || c.stage == Told) && s.clock < c.expiry
  }

  /** The keys for which some caller was told "reserved" under a binding that still lives. */
  function ReservedKeys(s: Db): set<Key> {
    set pid | pid in s.callers && s.callers[pid].stage == Told && InTime(s, pid) :: s.callers[pid].key
  }

  /** A binding carries the expiry of the call that made it. */
  predicate Owned(s: Db, k: Key)
    requires k in s.bindings
  {
    var b := s.bindings[k];
    b.owner in s.callers && s.callers[b.owner].key == k && s.callers[b.owner].expiry == b.expiry
  }

  ghost predicate Inv(cap: nat, s: Db) {
    && (forall pid :: pid in s.callers && Holds(s, pid) ==>
          s.callers[pid].key in s.bindings && s.bindings[s.callers[pid].key] == Binding(pid, s.callers[pid].expiry))
    && (forall k :: k in s.bindings ==> Owned(s, k))
    && |ReservedKeys(s)| <= cap
  }

  /** A count that does not exceed the cap leaves room for the caller that is told so. */
  lemma CapIsKept(cap: nat, s: Db, a: Action)
    requires Inv(cap, s) && Enabled(s, a) && Prompt(s, a)
    ensures |ReservedKeys(Step(cap, s, a))| <= cap
  {
    var t := Step(cap, s, a);
    if a.DbSize? && a.n <= cap {
      forall pid | pid in t.callers && t.callers[pid].stage == Told && InTime(t, pid)
        ensures t.callers[pid].key in LiveKeys(s)
      {
        assert Holds(s, pid);
      }
      SubsetSize(ReservedKeys(t), LiveKeys(s));
    } else {
      forall k | k in ReservedKeys(t) ensures k in ReservedKeys(s) {
        var pid :| pid in t.callers && t.callers[pid].stage == Told && InTime(t, pid) && t.callers[pid].key == k;
        assert pid in s.callers && s.callers[pid].stage == Told && InTime(s, pid);
      }
      SubsetSize(ReservedKeys(t), ReservedKeys(s));
    }
  }

  lemma StepKeepsInv(cap: nat, s: Db, a: Action)
    requires Inv(cap, s) && Enabled(s, a) && Prompt(s, a)
    ensures Inv(cap, Step(cap, s, a))
  {
    hide ReservedKeys, LiveKeys;
    var t := Step(cap, s, a);
    CapIsKept(cap, s, a);
    forall k | k in t.bindings ensures Owned(t, k) {
      assert k in s.bindings ==> Owned(s, k);
    }
    forall pid | pid in t.callers && Holds(t, pid)
      ensures t.callers[pid].key in t.bindings && t.bindings[t.callers[pid].key] == Binding(pid, t.callers[pid].expiry)
    {
      if pid in s.callers {
        assert Holds(s, pid);
        if a.Del? || a.Release? {
          assert Holds(s, a.pid);
        }
      }
    }
  }

  predicate Possible(cap: nat, s: Db, run: seq<Action>)
    decreases |run|
  {
    run == [] || (Enabled(s, run[0]) && Prompt(s, run[0]) && Possible(cap, Step(cap, s, run[0]), run[1..]))
  }

  function Run(cap: nat, s: Db, run: seq<Action>): Db
    requires Possible(cap, s, run)
    decreases |run|
  {
    if run == [] then s else Run(cap, Step(cap, s, run[0]), run[1..])
  }

  lemma {:induction false} RunKeepsInv(cap: nat, s: Db, run: seq<Action>)
    requires Inv(cap, s) && Possible(cap, s, run)
    ensures Inv(cap, Run(cap, s, run))
    decreases |run|
  {
    if run != [] {
      StepKeepsInv(cap, s, run[0]);
      RunKeepsInv(cap, Step(cap, s, run[0]), run[1..]);
    }
  }

  const EMPTY := Db(0, map[], map[])

  /**
   * In every interleaving: two callers whose bindings have not run out never hold the same key, so
   * at most one of them was told "reserved"; and the live reserved keys never exceed the cap.
   */
  lemma ReservationsAreExclusive(cap: nat, run: seq<Action>, p: Pid, q: Pid)
    requires Possible(cap, EMPTY, run)
    ensures |ReservedKeys(Run(cap, EMPTY, run))| <= cap
    ensures var s := Run(cap, EMPTY, run);
            p != q && p in s.callers && q in s.callers && Holds(s, p) && Holds(s, q) ==>
              s.callers[p].key != s.callers[q].key
  {
    assert ReservedKeys(EMPTY) == {};
    RunKeepsInv(cap, EMPTY, run);
  }

  /** An over-cap rollback, like a release, deletes the caller's own binding and no other. */
  lemma RollbackDeletesOwn(cap: nat, run: seq<Action>, a: Action)
    requires Possible(cap, EMPTY, run) && Enabled(Run(cap, EMPTY, run), a) && Prompt(Run(cap, EMPTY, run), a)
    requires a.Del? || a.Release?
    ensures var s := Run(cap, EMPTY, run);
            var t := Step(cap, s, a);
            var k := s.callers[a.pid].key;
            && k in s.bindings && s.bindings[k].owner == a.pid && k !in t.bindings
            && forall j :: j in s.bindings && j != k ==> j in t.bindings && t.bindings[j] == s.bindings[j]
  {
    assert ReservedKeys(EMPTY) == {};
    RunKeepsInv(cap, EMPTY, run);
    assert Holds(Run(cap, EMPTY, run), a.pid);
  }

  /**
   * One `reserve` that runs to its answer: refused at once, and nothing written, exactly when the key
   * has a live binding; otherwise told "reserved", bound for `px` milliseconds, exactly when the size is
   * at most the cap, and else refused with its binding deleted again. No other key changes.
   */
  lemma ReserveAnswers(cap: nat, s: Db, pid: Pid, k: Key, px: nat, n: nat)
    requires pid !in s.callers && px >= 1
    ensures var t := Step(cap, s, SetNx(pid, k, px));
            && (AtStage(t, pid, Refused) <==> LiveKey(s, k)) && (AtStage(t, pid, Bound) <==> !LiveKey(s, k))
            && (LiveKey(s, k) ==> t.bindings == s.bindings)
            && (Enabled(t, DbSize(pid, n)) ==>
                  var u := Step(cap, t, DbSize(pid, n));
                  && (n <= cap ==> AtStage(u, pid, Told) && u.bindings == s.bindings[k := Binding(pid, s.clock + px)])
                  && (n > cap ==>
                        var w := Step(cap, u, Del(pid)); AtStage(w, pid, Refused) && w.bindings == s.bindings - {k}))
  {
  }

  /** A key can be reserved exactly when it has no live binding and fewer than `maxEntries` keys have one. */
  lemma CanBeToldIff(cap: nat, s: Db, pid: Pid, k: Key, px: nat)
    requires pid !in s.callers && px >= 1
    ensures var t := Step(cap, s, SetNx(pid, k, px));
            (exists n :: Enabled(t, DbSize(pid, n)) && AtStage(Step(cap, t, DbSize(pid, n)), pid, Told))
            <==> !LiveKey(s, k) && |LiveKeys(s)| < cap
  {
    var t := Step(cap, s, SetNx(pid, k, px));
    if !LiveKey(s, k) {
      assert LiveKeys(t) == LiveKeys(s) + {k};
      var n := |LiveKeys(t)|;
      if n <= cap {
        assert Enabled(t, DbSize(pid, n)) && AtStage(Step(cap, t, DbSize(pid, n)), pid, Told);
      }
    }
  }

  /** The deletion that is up to a caller: the rollback above the cap, or the release of a settlement. */
  function Deletion(s: Db, pid: Pid): Action
    requires AtStage(s, pid, OverCap) || AtStage(s, pid, Told)
    ensures Enabled(s, Deletion(s, pid))
  {
    if AtStage(s, pid, OverCap) then Del(pid) else Release(pid)
  }

  /** Carried out now, it destroys a live binding of another caller: the key is live before and not after. */
  predicate DestroysAnother(cap: nat, s: Db, pid: Pid)
    requires AtStage(s, pid, OverCap) || AtStage(s, pid, Told)
  {
    var k := s.callers[pid].key;
    LiveKey(s, k) && s.bindings[k].owner != pid && !LiveKey(Step(cap, s, Deletion(s, pid)), k)
  }

  /** The caller is about to delete its key, and the key is another caller's live binding. */
  predicate HitsAnother(s: Db, pid: Pid) {
    && (AtStage(s, pid, OverCap) || AtStage(s, pid, Told))
    && LiveKey(s, s.callers[pid].key) && s.bindings[s.callers[pid].key].owner != pid
  }

  /** A deletion removes whatever binding the key then has. */
  lemma DeletionRemoves(cap: nat, s: Db, pid: Pid)
    requires AtStage(s, pid, OverCap) || AtStage(s, pid, Told)
    ensures s.callers[pid].key !in Step(cap, s, Deletion(s, pid)).bindings
    ensures DestroysAnother(cap, s, pid) <==> HitsAnother(s, pid)
  {
  }

  /** A caller that has not been heard of yet. */
  lemma Newcomer(known: set<Pid>) returns (pid: Pid)
    ensures forall p :: p in known ==> p < pid
  {
    if known == {} {
      pid := 0;
    } else {
      var p :| p in known;
      var q := Newcomer(known - {p});
      pid := if p < q then q else p + 1;
      forall x | x in known ensures x < pid {
        assert x == p || x in known - {p};
      }
    }
  }

  /** At this very clock: at once, or once one more SET NX by a newcomer has bound the key anew. */
  ghost predicate CanDestroyAnother(cap: nat, s: Db, pid: Pid)
    requires AtStage(s, pid, OverCap) || AtStage(s, pid, Told)
  {
    || DestroysAnother(cap, s, pid)
    || exists q, px :: var a := SetNx(q, s.callers[pid].key, px);
         Enabled(s, a) && DestroysAnother(cap, Step(cap, s, a), pid)
  }

  /**
   * A rollback, or a release, can destroy another caller's live binding exactly when the deleting
   * caller's own binding has run out.
   */
  lemma DeletesAnotherIffLate(cap: nat, s: Db, pid: Pid)
    requires Inv(cap, s) && (AtStage(s, pid, OverCap) || AtStage(s, pid, Told))
    ensures CanDestroyAnother(cap, s, pid) <==> !InTime(s, pid)
  {
    hide DestroysAnother;
    var k := s.callers[pid].key;
    DeletionRemoves(cap, s, pid);
    if InTime(s, pid) {
      assert Holds(s, pid) && LiveKey(s, k);
      forall q, px | Enabled(s, SetNx(q, k, px)) ensures !DestroysAnother(cap, Step(cap, s, SetNx(q, k, px)), pid) {
        DeletionRemoves(cap, Step(cap, s, SetNx(q, k, px)), pid);
      }
    } else if LiveKey(s, k) {
      assert Owned(s, k);
    } else {
      var q := Newcomer(s.callers.Keys);
      assert q !in s.callers;
      var a := SetNx(q, k, 1);
      DeletionRemoves(cap, Step(cap, s, a), pid);
      assert Enabled(s, a) && DestroysAnother(cap, Step(cap, s, a), pid);
    }
  }

  /** The same over every prompt run and a pause before the deletion, which may last until the caller's own expiry. */
  lemma DeletesAnotherAfterPauseIff(cap: nat, run: seq<Action>, pid: Pid, to: nat)
    requires Possible(cap, EMPTY, run)
    requires var s := Run(cap, EMPTY, run); s.clock <= to && (AtStage(s, pid, OverCap) || AtStage(s, pid, Told))
    ensures var s := Run(cap, EMPTY, run);
            CanDestroyAnother(cap, Step(cap, s, Tick(to)), pid) <==> to >= s.callers[pid].expiry
  {
    hide Inv, Possible, Run, CanDestroyAnother;
    NothingYet(cap);
    RunKeepsInv(cap, EMPTY, run);
    var s := Run(cap, EMPTY, run);
    StepKeepsInv(cap, s, Tick(to));
    DeletesAnotherIffLate(cap, Step(cap, s, Tick(to)), pid);
  }

  lemma NothingYet(cap: nat)
    ensures Inv(cap, EMPTY)
  {
    assert ReservedKeys(EMPTY) == {};
  }

  lemma RunCons(cap: nat, s: Db, a: Action, run: seq<Action>, t: Db)
    requires Enabled(s, a) && Prompt(s, a) && Step(cap, s, a) == t && Possible(cap, t, run)
    ensures Possible(cap, s, [a] + run) && Run(cap, s, [a] + run) == Run(cap, t, run)
  {
    assert ([a] + run)[1..] == run;
  }

  /** Two callers have bound the only two keys and both are about to count. */
  const BOTH_BOUND := Db(0, map[10 := Binding(0, 5), 11 := Binding(1, 5)],
                        map[0 := Caller(10, Bound, 5), 1 := Caller(11, Bound, 5)])

  const BOTH_OVER := BOTH_BOUND.(callers := map[0 := Caller(10, OverCap, 5), 1 := Caller(11, OverCap, 5)])

  lemma BothReachOverCap(rest: seq<Action>)
    requires Possible(1, BOTH_OVER, rest)
    ensures Possible(1, BOTH_BOUND, [DbSize(0, 2)] + ([DbSize(1, 2)] + rest))
    ensures Run(1, BOTH_BOUND, [DbSize(0, 2)] + ([DbSize(1, 2)] + rest)) == Run(1, BOTH_OVER, rest)
  {
    hide Possible, Run;
    var s3 := BOTH_BOUND.(callers := map[0 := Caller(10, OverCap, 5), 1 := Caller(11, Bound, 5)]);
    assert LiveKeys(BOTH_BOUND) == {10, 11} && LiveKeys(s3) == {10, 11};
    RunCons(1, s3, DbSize(1, 2), rest, BOTH_OVER);
    RunCons(1, BOTH_BOUND, DbSize(0, 2), [DbSize(1, 2)] + rest, s3);
  }

  const BOTH_OUT := Db(0, map[], map[0 := Caller(10, Refused, 5), 1 := Caller(11, Refused, 5)])

  lemma BothDelete()
    ensures Possible(1, BOTH_OVER, [Del(0)] + [Del(1)])
    ensures Run(1, BOTH_OVER, [Del(0)] + [Del(1)]) == BOTH_OUT
  {
    var s5 := Db(0, map[11 := Binding(1, 5)], map[0 := Caller(10, Refused, 5), 1 := Caller(11, OverCap, 5)]);
    assert Possible(1, BOTH_OUT, []) && Run(1, BOTH_OUT, []) == BOTH_OUT;
    assert Step(1, BOTH_OVER, Del(0)) == s5;
    assert Step(1, s5, Del(1)) == BOTH_OUT;
    RunCons(1, s5, Del(1), [], BOTH_OUT);
    assert [Del(1)] + [] == [Del(1)];
    RunCons(1, BOTH_OVER, Del(0), [Del(1)], s5);
  }

  /** The cap errs towards refusing: with room for one, two callers that count before either deletes both leave. */
  lemma BothMayBeRefused()
    ensures var run := [SetNx(0, 10, 5), SetNx(1, 11, 5), DbSize(0, 2), DbSize(1, 2), Del(0), Del(1)];
            && Possible(1, EMPTY, run)
            && AtStage(Run(1, EMPTY, run), 0, Refused) && AtStage(Run(1, EMPTY, run), 1, Refused)
            && Run(1, EMPTY, run).bindings == map[]
  {
    hide Possible, Run;
    BothDelete();
    var last := [Del(0)] + [Del(1)];
    BothReachOverCap(last);
    var mid := [DbSize(0, 2)] + ([DbSize(1, 2)] + last);
    var s1 := Db(0, map[10 := Binding(0, 5)], map[0 := Caller(10, Bound, 5)]);
    RunCons(1, s1, SetNx(1, 11, 5), mid, BOTH_BOUND);
    RunCons(1, EMPTY, SetNx(0, 10, 5), [SetNx(1, 11, 5)] + mid, s1);
    assert [SetNx(0, 10, 5)] + ([SetNx(1, 11, 5)] + mid)
        == [SetNx(0, 10, 5), SetNx(1, 11, 5), DbSize(0, 2), DbSize(1, 2), Del(0), Del(1)];
  }

  /** Promptness is needed: a rollback after its own binding ran out deletes the next caller's binding. */
  lemma LateRollbackDeletesAnother()
    ensures var s1 := Step(1, EMPTY, SetNx(0, 7, 1));
            var s2 := Step(1, s1, Tick(1));
            var s3 := Step(1, s2, SetNx(1, 7, 5));
            Enabled(s3, DbSize(0, 9)) && !Prompt(s3, DbSize(0, 9)) &&
            var s4 := Step(1, s3, DbSize(0, 9));
            Enabled(s4, Del(0)) && var s5 := Step(1, s4, Del(0));
            s4.bindings[7].owner == 1 && Holds(s5, 1) && 7 !in s5.bindings
  {
    var s3 := Db(1, map[7 := Binding(1, 6)], map[0 := Caller(7, Bound, 1), 1 := Caller(7, Bound, 6)]);
    assert LiveKeys(s3) == {7};
    assert s3 == Step(1, Step(1, Step(1, EMPTY, SetNx(0, 7, 1)), Tick(1)), SetNx(1, 7, 5));
  }
}
