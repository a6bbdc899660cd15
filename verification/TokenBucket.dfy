/**
 * The shared rate limiter: one Redis hash per caller, updated by a script that refills by elapsed
 * time, takes one token when there is one, and otherwise tells the wait. Tokens are counted in
 * millionths, in whole numbers.
 */
module TokenBucket {
  import opened Arithmetic
  import opened Wrappers

  const SCALE := 1000000

  /** At most `max` requests at once, refilled at `max` per `windowMs`. */
  datatype Limits = Limits(max: int, windowMs: int) {
    predicate Valid() { max >= 1 && windowMs >= 1 }

    function Full(): int { max * SCALE }

    function TtlMs(): int { 2 * windowMs }
  }

  /** The stored hash and the time at which Redis drops it. */
  datatype Cell = Cell(tokens: int, ts: int, expiry: int)

  datatype Answer = Answer(allow: bool, resetMs: int)

  /** What HMGET sees: an expired key is absent. */
  function Seen(cell: Option<Cell>, now: int): Option<Cell> {
    if cell.Some? && now < cell.value.expiry then cell else None
  }

  function Elapsed(ts: int, now: int): nat {
    if now < ts then 0 else now - ts
  }

  function Refilled(l: Limits, tokens: int, elapsed: nat): int
    requires l.Valid()
  {
    var t := tokens + elapsed * l.Full() / l.windowMs;
    if t > l.Full() then l.Full() else t
  }

  /** The tokens at hand when a call arrives. */
  function AtHand(l: Limits, cell: Option<Cell>, now: int): int
    requires l.Valid()
  {
    match cell
    case None => l.Full()
    case Some(c) => Refilled(l, c.tokens, Elapsed(c.ts, now))
  }

  function CeilDiv(a: int, b: int): int
    requires b > 0
  {
    (a + b - 1) / b
  }

  function Respond(l: Limits, tokens: int): Answer
    requires l.Valid()
  {
    if tokens >= SCALE then Answer(true, 0)
    else Answer(false, CeilDiv((SCALE - tokens) * l.windowMs, l.Full()))
  }

  function Take(tokens: int): int {
    if tokens >= SCALE then tokens - SCALE else tokens
  }

  function Store(l: Limits, cell: Option<Cell>, now: int): Cell
    requires l.Valid()
  {
    Cell(Take(AtHand(l, cell, now)), now, now + l.TtlMs())
  }

  /** One key of the shared store, with the script that owns it. */
  class Bucket {
    const limits: Limits
    var cell: Option<Cell>

    constructor (l: Limits)
      requires l.Valid()
      ensures limits == l && cell == None
    {
      limits := l;
      cell := None;
    }

    /** The script, line by line. */
    method Eval(now: int) returns (a: Answer)
      requires limits.Valid()
      modifies this
      ensures a == Respond(limits, AtHand(limits, Seen(old(cell), now), now))
      ensures cell == Some(Store(limits, Seen(old(cell), now), now))
    {
      var full := limits.max * SCALE;
      var tokens, ts := full, now;
      if cell.Some? && now < cell.value.expiry {
        tokens, ts := cell.value.tokens, cell.value.ts;
      } else {
        NoRefill(limits);
      }
      var elapsed := now - ts;
      if elapsed < 0 {
        elapsed := 0;
      }
      tokens := tokens + elapsed * full / limits.windowMs;
      if tokens > full {
        tokens := full;
      }
      if tokens >= SCALE {
        tokens := tokens - SCALE;
        a := Answer(true, 0);
      } else {
        var deficit := SCALE - tokens;
        a := Answer(false, CeilDiv(deficit * limits.windowMs, full));
      }
      cell := Some(Cell(tokens, now, now + limits.TtlMs()));
    }
  }

  lemma NoRefill(l: Limits)
    requires l.Valid()
    ensures 0 * l.Full() / l.windowMs == 0
  {
    assert 0 * l.Full() == 0;
  }

  /** A stored hash that the script can have written. */
  predicate Sound(l: Limits, cell: Option<Cell>) {
    cell.Some? ==>
      && 0 <= cell.value.tokens <= l.Full()
      && cell.value.expiry == cell.value.ts + l.TtlMs()
  }

  lemma FullIsEnough(l: Limits)
    requires l.Valid()
    ensures l.Full() >= SCALE
  {
  }

  lemma RefillIsNatural(l: Limits, elapsed: nat)
    requires l.Valid()
    ensures elapsed * l.Full() / l.windowMs >= 0
    ensures elapsed * l.Full() / l.windowMs * l.windowMs <= elapsed * l.Full()
  {
    FullIsEnough(l);
    NonNegative(elapsed, l.Full());
  }

  lemma AtHandInRange(l: Limits, cell: Option<Cell>, now: int)
    requires l.Valid() && Sound(l, cell)
    ensures 0 <= AtHand(l, cell, now) <= l.Full()
  {
    FullIsEnough(l);
    if cell.Some? {
      RefillIsNatural(l, Elapsed(cell.value.ts, now));
    }
  }

  /** Stored tokens stay between zero and the full bucket, whatever the clock does. */
  lemma StoreIsSound(l: Limits, cell: Option<Cell>, now: int)
    requires l.Valid() && Sound(l, cell)
    ensures Sound(l, Some(Store(l, Seen(cell, now), now)))
  {
    AtHandInRange(l, Seen(cell, now), now);
  }

  /** After one whole window the bucket is full again. */
  lemma WindowRefills(l: Limits, tokens: int, elapsed: nat)
    requires l.Valid() && tokens >= 0 && elapsed >= l.windowMs
    ensures Refilled(l, tokens, elapsed) == l.Full()
  {
    FullIsEnough(l);
    MulLe(l.windowMs, elapsed, l.Full());
    var w, x := l.windowMs, elapsed * l.Full();
    ModUnique(l.Full() * w, w, l.Full(), 0);
    DivMonotone(l.Full() * w, x, w);
  }

  /** So dropping a key after two windows changes nothing that a call can see or store. */
  lemma ExpiryIsInvisible(l: Limits, cell: Option<Cell>, now: int)
    requires l.Valid() && Sound(l, cell)
    ensures AtHand(l, Seen(cell, now), now) == AtHand(l, cell, now)
    ensures Store(l, Seen(cell, now), now) == Store(l, cell, now)
  {
    if cell.Some? && now >= cell.value.expiry {
      WindowRefills(l, cell.value.tokens, Elapsed(cell.value.ts, now));
    }
  }

  /** The answers to calls at the given times, on a store that expires keys. */
  function Answers(l: Limits, cell: Option<Cell>, times: seq<int>): seq<Answer>
    requires l.Valid()
    decreases |times|
  {
    if times == [] then [] else
      var seen := Seen(cell, times[0]);
      [Respond(l, AtHand(l, seen, times[0]))] + Answers(l, Some(Store(l, seen, times[0])), times[1..])
  }

  /** The same on a store that never drops anything. */
  function AnswersKept(l: Limits, cell: Option<Cell>, times: seq<int>): seq<Answer>
    requires l.Valid()
    decreases |times|
  {
    if times == [] then [] else
      [Respond(l, AtHand(l, cell, times[0]))] + AnswersKept(l, Some(Store(l, cell, times[0])), times[1..])
  }

  /** Over any sequence of calls, expiry of idle keys never changes an answer. */
  lemma {:induction false} ExpiryNeverDecides(l: Limits, cell: Option<Cell>, times: seq<int>)
    requires l.Valid() && Sound(l, cell)
    ensures Answers(l, cell, times) == AnswersKept(l, cell, times)
    decreases |times|
  {
    if times != [] {
      ExpiryIsInvisible(l, cell, times[0]);
      StoreIsSound(l, cell, times[0]);
      ExpiryNeverDecides(l, Some(Store(l, Seen(cell, times[0]), times[0])), times[1..]);
    }
  }

  predicate NonDecreasing(times: seq<int>) {
    forall i, j :: 0 <= i <= j < |times| ==> times[i] <= times[j]
  }

  function AllowedIn(answers: seq<Answer>): nat {
    if answers == [] then 0 else (if answers[0].allow then 1 else 0) + AllowedIn(answers[1..])
  }

  lemma BudgetStep(k: int, w: int, tokens: int, after: int, refill: int, rest: int, gap: int, full: int, span: int)
    requires w >= 1 && refill * w <= gap * full
    requires after <= tokens - k * SCALE + refill
    requires rest * SCALE * w <= after * w + span * full
    ensures (k + rest) * SCALE * w <= tokens * w + (gap + span) * full
  {
    MulLe(after, tokens - k * SCALE + refill, w);
    Distribute(tokens + refill, k * SCALE, w);
    Distribute(tokens, -refill, w);
    Distribute(gap, -span, full);
    Distribute(k * SCALE, -(rest * SCALE), w);
  }

  function LastOf(times: seq<int>, first: int): int {
    if times == [] then first else times[|times| - 1]
  }

  lemma FirstCall(l: Limits, cell: Option<Cell>, t: int)
    requires l.Valid() && Sound(l, cell)
    ensures var k := if Respond(l, AtHand(l, cell, t)).allow then 1 else 0;
            Store(l, cell, t).tokens <= l.Full() - k * SCALE + 0
    ensures Store(l, cell, t).ts == t && Sound(l, Some(Store(l, cell, t)))
  {
    AtHandInRange(l, cell, t);
    StoreIsSound(l, cell, t);
    ExpiryIsInvisible(l, cell, t);
  }

  /** From a stored cell: whatever is granted up to the last call was stored or has been refilled since. */
  lemma {:induction false} GrantsWithinBudget(l: Limits, c: Cell, times: seq<int>)
    requires l.Valid() && Sound(l, Some(c)) && NonDecreasing(times) && (times != [] ==> c.ts <= times[0])
    ensures AllowedIn(AnswersKept(l, Some(c), times)) * SCALE * l.windowMs
            <= c.tokens * l.windowMs + (LastOf(times, c.ts) - c.ts) * l.Full()
    decreases |times|
  {
    if times == [] {
      NonNegative(c.tokens, l.windowMs);
    } else {
      hide Store, Respond, AtHand, Sound;
      var t := times[0];
      var c' := Store(l, Some(c), t);
      FirstCall(l, Some(c), t);
      GrantsWithinBudget(l, c', times[1..]);
      GrantStep(l, c, t, AllowedIn(AnswersKept(l, Some(c'), times[1..])), LastOf(times[1..], t) - t);
      assert LastOf(times, c.ts) == LastOf(times[1..], t);
      assert AnswersKept(l, Some(c), times)[1..] == AnswersKept(l, Some(c'), times[1..]);
    }
  }

  lemma GrantStep(l: Limits, c: Cell, t: int, rest: int, span: int)
    requires l.Valid() && c.ts <= t
    requires rest * SCALE * l.windowMs <= Store(l, Some(c), t).tokens * l.windowMs + span * l.Full()
    ensures var k := if Respond(l, AtHand(l, Some(c), t)).allow then 1 else 0;
            (k + rest) * SCALE * l.windowMs <= c.tokens * l.windowMs + (t - c.ts + span) * l.Full()
  {
    var gap := t - c.ts;
    var k := if Respond(l, AtHand(l, Some(c), t)).allow then 1 else 0;
    RefillIsNatural(l, gap);
    var refill, after := gap * l.Full() / l.windowMs, Store(l, Some(c), t).tokens;
    BudgetStep(k, l.windowMs, c.tokens, after, refill, rest, gap, l.Full(), span);
  }

  /** The cell left behind by calls at the given times. */
  function CellAfter(l: Limits, cell: Option<Cell>, times: seq<int>): Option<Cell>
    requires l.Valid()
    decreases |times|
  {
    if times == [] then cell else CellAfter(l, Some(Store(l, cell, times[0])), times[1..])
  }

  lemma {:induction false} AnswersSplit(l: Limits, cell: Option<Cell>, a: seq<int>, b: seq<int>)
    requires l.Valid()
    ensures AnswersKept(l, cell, a + b) == AnswersKept(l, cell, a) + AnswersKept(l, CellAfter(l, cell, a), b)
    ensures |AnswersKept(l, cell, a)| == |a|
    decreases |a|
  {
    if a == [] {
      assert a + b == b;
    } else {
      assert (a + b)[1..] == a[1..] + b;
      AnswersSplit(l, Some(Store(l, cell, a[0])), a[1..], b);
    }
  }

  lemma {:induction false} CellAfterIs(l: Limits, cell: Option<Cell>, times: seq<int>)
    requires l.Valid() && Sound(l, cell)
    ensures Sound(l, CellAfter(l, cell, times))
    ensures times != [] ==> CellAfter(l, cell, times).Some? && CellAfter(l, cell, times).value.ts == LastOf(times, 0)
    decreases |times|
  {
    if times != [] {
      StoreIsSound(l, cell, times[0]);
      ExpiryIsInvisible(l, cell, times[0]);
      CellAfterIs(l, Some(Store(l, cell, times[0])), times[1..]);
    }
  }

  /** From any sound state, the calls of one stretch are granted at most a full bucket and its refill. */
  lemma StretchRate(l: Limits, cell: Option<Cell>, times: seq<int>)
    requires l.Valid() && Sound(l, cell) && times != [] && NonDecreasing(times)
    ensures AllowedIn(AnswersKept(l, cell, times)) * l.windowMs
            <= l.max * l.windowMs + (times[|times| - 1] - times[0]) * l.max
  {
    hide Store, Respond, AtHand, Sound;
    var t := times[0];
    var c := Store(l, cell, t);
    FirstCall(l, cell, t);
    GrantsWithinBudget(l, c, times[1..]);
    var rest := AllowedIn(AnswersKept(l, Some(c), times[1..]));
    var k := if Respond(l, AtHand(l, cell, t)).allow then 1 else 0;
    assert AnswersKept(l, cell, times)[1..] == AnswersKept(l, Some(c), times[1..]);
    assert AllowedIn(AnswersKept(l, cell, times)) == k + rest;
    var span := times[|times| - 1] - t;
    assert LastOf(times[1..], t) - t == span;
    StretchBound(l, k, rest, c.tokens, span);
  }

  lemma StretchBound(l: Limits, k: int, rest: int, tokens: int, span: int)
    requires l.Valid() && tokens <= l.Full() - k * SCALE + 0
    requires rest * SCALE * l.windowMs <= tokens * l.windowMs + span * l.Full()
    ensures (k + rest) * l.windowMs <= l.max * l.windowMs + span * l.max
  {
    BudgetStep(k, l.windowMs, l.Full(), tokens, 0, rest, 0, l.Full(), span);
    Unscale(k + rest, l.windowMs, l.max, span);
  }

  lemma Unscale(n: int, w: int, max: int, span: int)
    requires n * SCALE * w <= max * SCALE * w + span * (max * SCALE)
    ensures n * w <= max * w + span * max
  {
    assert n * SCALE * w == SCALE * (n * w);
    assert max * SCALE * w == SCALE * (max * w);
    assert span * (max * SCALE) == SCALE * (span * max);
  }

  lemma FreshIsSound(l: Limits)
    ensures Sound(l, None)
  {
  }

  /**
   * On an expiring store, from the first call of a key on: in any stretch of consecutive calls that
   * spans `T` milliseconds, the requests allowed number at most `max + T * max / windowMs`.
   */
  lemma RateBound(l: Limits, before: seq<int>, stretch: seq<int>, later: seq<int>)
    requires l.Valid() && NonDecreasing(before + stretch + later) && stretch != []
    ensures var answers := Answers(l, None, before + stretch + later);
            && |answers| == |before| + |stretch| + |later|
            && AllowedIn(answers[|before|..|before| + |stretch|]) * l.windowMs
               <= l.max * l.windowMs + (stretch[|stretch| - 1] - stretch[0]) * l.max
  {
    hide Store, Respond, AtHand, Sound, Answers, AnswersKept, CellAfter, AllowedIn;
    FreshIsSound(l);
    var all := before + stretch + later;
    ExpiryNeverDecides(l, None, all);
    assert all == before + (stretch + later);
    AnswersSplit(l, None, before, stretch + later);
    CellAfterIs(l, None, before);
    var cell := CellAfter(l, None, before);
    AnswersSplit(l, cell, stretch, later);
    AnswersSplit(l, CellAfter(l, cell, stretch), later, []);
    assert later + [] == later;
    forall i, j | 0 <= i <= j < |stretch| ensures stretch[i] <= stretch[j] {
      assert all[|before| + i] == stretch[i] && all[|before| + j] == stretch[j];
    }
    StretchRate(l, cell, stretch);
    var answers := AnswersKept(l, None, all);
    assert answers[|before|..|before| + |stretch|] == AnswersKept(l, cell, stretch);
  }

  lemma {:induction false} GrantsAtOnce(l: Limits, c: Cell, k: nat, n: nat)
    requires l.Valid() && k <= l.max && c.tokens == k * SCALE
    ensures AllowedIn(AnswersKept(l, Some(c), seq(n, i => c.ts))) == Min(n, k)
    decreases n
  {
    var times := seq(n, i => c.ts);
    if n > 0 {
      NoRefill(l);
      var c' := Store(l, Some(c), c.ts);
      assert times[1..] == seq(n - 1, i => c'.ts);
      GrantsAtOnce(l, c', if k > 0 then k - 1 else 0, n - 1);
      assert AnswersKept(l, Some(c), times)[1..] == AnswersKept(l, Some(c'), times[1..]);
    }
  }

  /** And no less: of `n` calls that a new key makes at once, the first `max` are allowed. */
  lemma FreshBurst(l: Limits, t: int, n: nat)
    requires l.Valid()
    ensures AllowedIn(Answers(l, None, seq(n, i => t))) == Min(n, l.max)
  {
    var times := seq(n, i => t);
    var full := Cell(l.Full(), t, t + l.TtlMs());
    ExpiryNeverDecides(l, None, times);
    GrantsAtOnce(l, full, l.max, n);
    if n > 0 {
      NoRefill(l);
      assert AtHand(l, Some(full), t) == AtHand(l, None, t);
      assert AnswersKept(l, None, times) == AnswersKept(l, Some(full), times);
    }
  }

  lemma CeilDivIs(a: int, b: int, d: int)
    requires b > 0
    ensures d >= CeilDiv(a, b) <==> d * b >= a
  {
    var q := CeilDiv(a, b);
    if d >= q {
      MulLe(q, d, b);
    } else {
      MulLe(d, q - 1, b);
      Distribute(q, 1, b);
    }
  }

  lemma FloorIs(x: int, w: int, n: int)
    requires w > 0
    ensures x / w >= n <==> x >= n * w
  {
    if x / w >= n {
      MulLe(n, x / w, w);
    } else {
      MulLe(x / w + 1, n, w);
      OneMore(x / w, w);
    }
  }

  /** When a call is refused, the wait it is told is the least after which a single call is allowed. */
  lemma ResetIsLeastWait(l: Limits, cell: Option<Cell>, now: int, wait: nat)
    requires l.Valid() && Sound(l, cell)
    requires !Respond(l, AtHand(l, Seen(cell, now), now)).allow
    ensures var after := Some(Store(l, Seen(cell, now), now));
            var told := Respond(l, AtHand(l, Seen(cell, now), now)).resetMs;
            && told >= 1
            && (Respond(l, AtHand(l, Seen(after, now + wait), now + wait)).allow <==> wait >= told)
  {
    var tokens := AtHand(l, Seen(cell, now), now);
    var after := Some(Store(l, Seen(cell, now), now));
    AtHandInRange(l, Seen(cell, now), now);
    StoreIsSound(l, cell, now);
    ExpiryIsInvisible(l, after, now + wait);
    FullIsEnough(l);
    var deficit := SCALE - tokens;
    MulLe(1, deficit, l.windowMs);
    CeilDivIs(deficit * l.windowMs, l.Full(), wait);
    CeilDivIs(deficit * l.windowMs, l.Full(), 0);
    FloorIs(wait * l.Full(), l.windowMs, deficit);
  }

  /** `n` calls, one in each millisecond after `ts`. */
  function Polls(ts: int, n: nat): seq<int> {
    seq(n, i => ts + 1 + i)
  }

  /** A call that arrives too soon loses the fraction: when a millisecond refills nothing, polling each one starves. */
  lemma {:induction false} PollingStarves(l: Limits, c: Cell, n: nat)
    requires l.Valid() && l.Full() < l.windowMs && 0 <= c.tokens < SCALE
    ensures AllowedIn(AnswersKept(l, Some(c), Polls(c.ts, n))) == 0
    decreases n
  {
    var times := Polls(c.ts, n);
    if n > 0 {
      var c' := Store(l, Some(c), c.ts + 1);
      FullIsEnough(l);
      assert 1 * l.Full() / l.windowMs == 0;
      assert times[1..] == Polls(c'.ts, n - 1);
      PollingStarves(l, c', n - 1);
    }
  }

  lemma {:induction false} PollingCatchesUp(l: Limits, c: Cell, n: nat)
    requires l.Valid() && l.Full() >= l.windowMs && c.tokens >= 0 && c.tokens + n >= SCALE && n > 0
    ensures AllowedIn(AnswersKept(l, Some(c), Polls(c.ts, n))) >= 1
    decreases n
  {
    var times := Polls(c.ts, n);
    var c' := Store(l, Some(c), c.ts + 1);
    FullIsEnough(l);
    FloorIs(l.Full(), l.windowMs, 1);
    assert 1 * l.Full() / l.windowMs >= 1;
    assert AnswersKept(l, Some(c), times)[1..] == AnswersKept(l, Some(c'), times[1..]);
    if AtHand(l, Some(c), c.ts + 1) < SCALE {
      assert times[1..] == Polls(c'.ts, n - 1);
      PollingCatchesUp(l, c', n - 1);
    }
  }

  /**
   * Polling an empty bucket every millisecond is never granted exactly when a millisecond refills
   * nothing; otherwise it is granted within SCALE calls.
   */
  lemma PollingStarvesIff(l: Limits, ts: int, expiry: int)
    requires l.Valid()
    ensures var c := Cell(0, ts, expiry);
            && ((forall n: nat :: AllowedIn(AnswersKept(l, Some(c), Polls(ts, n))) == 0)
                <==> l.Full() < l.windowMs)
            && (l.Full() >= l.windowMs ==> AllowedIn(AnswersKept(l, Some(c), Polls(ts, SCALE))) >= 1)
  {
    hide AnswersKept, AllowedIn;
    var c := Cell(0, ts, expiry);
    if l.Full() < l.windowMs {
      forall n: nat ensures AllowedIn(AnswersKept(l, Some(c), Polls(ts, n))) == 0 {
        PollingStarves(l, c, n);
      }
    } else {
      PollingCatchesUp(l, c, SCALE);
    }
  }

  /**
   * One call on a bucket last used at `c.ts`: it is allowed exactly when a whole token is at hand; it
   * then takes that token and is told to wait for nothing, otherwise it takes nothing. A clock that
   * stood still or went back refills nothing, and the bucket goes on from the time of the call.
   */
  lemma CallMeans(l: Limits, c: Cell, now: int)
    requires l.Valid() && Sound(l, Some(c))
    ensures var a, s, n := Respond(l, AtHand(l, Some(c), now)), Store(l, Some(c), now), AtHand(l, Some(c), now);
            && (a.allow <==> n >= 1000000) && (a.allow ==> a.resetMs == 0 && s.tokens == n - 1000000)
            && (!a.allow ==> s.tokens == n) && s.ts == now && s.expiry == now + 2 * l.windowMs
            && (now <= c.ts ==> n == c.tokens)
            && (now > c.ts ==> c.tokens <= n <= l.max * 1000000)
  {
    NoRefill(l);
    AtHandInRange(l, Some(c), now);
    RefillIsNatural(l, Elapsed(c.ts, now));
  }
}
