/**
 * The fixed-window rate limiter of CrptApi as a pure state machine.
 *
 * The limiter's constants are `requestIntervalMillis` and `requestLimit` (a Config);
 * its mutable pair is `requestCount` and `lastRequestTimestamp` (a Window). A clock
 * reading drives one Attempt: the lazy window roll, then either a grant (the count
 * goes up by one) or the time left in the window, which the caller waits for before
 * reading the clock again.
 */
module RateWindow {

  const MaxInt32: int := 0x7fff_ffff

  /** A Java `int`. */
  type Int32 = x: int | -0x8000_0000 <= x <= MaxInt32

  /** `requestIntervalMillis` and `requestLimit`, fixed at construction. */
  datatype Config = Config(interval: nat, limit: nat)

  /** `requestCount` and `lastRequestTimestamp` (the start of the current window). */
  datatype Window = Window(count: nat, last: int)

  /** The state of a freshly constructed limiter: both fields are 0. */
  const Initial: Window := Window(0, 0)

  /** What the constructor guarantees: a positive limit that is a Java `int`. */
  predicate ValidConfig(c: Config)
  {
    0 < c.limit <= MaxInt32
  }

  /** The budget invariant: `0 <= requestCount <= requestLimit`. */
  predicate Valid(c: Config, w: Window)
  {
    ValidConfig(c) && w.count <= c.limit
  }

  /** The window that started at `w.last` has run its course by `now`. */
  predicate Elapsed(c: Config, w: Window, now: int)
  {
    now - w.last >= c.interval
  }

  /** The lazy window roll: reset the count and move the window start to `now` once the interval has passed. */
  function Rolled(c: Config, w: Window, now: int): (r: Window)
    ensures Elapsed(c, w, now) ==> r == Window(0, now)
    ensures r.count <= w.count
    ensures r != w ==> Elapsed(c, w, now) && r.count == 0 && r.last == now
    ensures now < w.last ==> r == w
  {
    if Elapsed(c, w, now) then Window(0, now) else w
  }

  /** The caller's fate at one clock reading: a permit, or the time left in the window. */
  datatype Decision = Granted | MustWait(sleepTime: int)

  datatype Step = Step(decision: Decision, after: Window)

  /**
   * One clock reading `now` inside `createDocument`: roll if the window has elapsed,
   * then grant if the count is below the limit, and otherwise compute
   * `requestIntervalMillis - (now - lastRequestTimestamp)`.
   */
  function Attempt(c: Config, w: Window, now: int): (s: Step)
    requires Valid(c, w)
    ensures Valid(c, s.after)
    ensures s.decision.Granted? <==> Elapsed(c, w, now) || w.count < c.limit
    ensures s.decision.Granted? ==>
              s.after.count == Rolled(c, w, now).count + 1 && s.after.last == Rolled(c, w, now).last
    ensures s.decision.MustWait? ==>
              && s.after == w
              && w.count == c.limit
              && !Elapsed(c, w, now)
              && 0 < s.decision.sleepTime
              && now + s.decision.sleepTime == w.last + c.interval
              && (w.last <= now ==> s.decision.sleepTime <= c.interval)
  {
    var v := Rolled(c, w, now);
    if v.count < c.limit then Step(Granted, Window(v.count + 1, v.last))
    else Step(MustWait(c.interval - (now - v.last)), v)
  }

  /**
   * One call of `createDocument` fed the readings `clock` is granted at reading `k`:
   * every earlier reading had to wait, reading `k` gets the permit.
   */
  predicate FirstGrantAt(c: Config, w: Window, clock: seq<int>, k: nat)
    requires Valid(c, w)
  {
    && k < |clock|
    && Attempt(c, w, clock[k]).decision.Granted?
    && (forall j :: 0 <= j < k ==> Attempt(c, w, clock[j]).decision.MustWait?)
  }

  /** Every reading in `clock` finds the budget exhausted: the caller is still blocked. */
  predicate NoGrant(c: Config, w: Window, clock: seq<int>)
    requires Valid(c, w)
  {
    forall j :: 0 <= j < |clock| ==> Attempt(c, w, clock[j]).decision.MustWait?
  }

  /** The end state of a run and how many permits it granted. */
  datatype Tally = Tally(after: Window, grants: nat)

  /**
   * Successive acquisitions on one limiter, fed the clock readings in order. A reading
   * that must wait leaves the window as it was, so where one call ends and the next
   * begins does not matter: the run is the readings taken one Attempt at a time.
   */
  function Run(c: Config, w: Window, readings: seq<int>): (t: Tally)
    requires Valid(c, w)
    ensures Valid(c, t.after)
    ensures t.grants <= |readings|
    decreases |readings|
  {
    if readings == [] then Tally(w, 0)
    else
      var s := Attempt(c, w, readings[0]);
      var t := Run(c, s.after, readings[1..]);
      Tally(t.after, t.grants + if s.decision.Granted? then 1 else 0)
  }

  /** A single call granted at reading `k` is the run of `clock[..k+1]` with one grant. */
  lemma {:induction false} GrantedCallIsRun(c: Config, w: Window, clock: seq<int>, k: nat)
    requires Valid(c, w)
    requires FirstGrantAt(c, w, clock, k)
    ensures Run(c, w, clock[..k + 1]) == Tally(Attempt(c, w, clock[k]).after, 1)
  {
    if k == 0 {
      assert clock[..1][1..] == [];
    } else {
      var rest := clock[1..];
      assert FirstGrantAt(c, w, rest, k - 1) by {
        forall j | 0 <= j < k - 1
          ensures Attempt(c, w, rest[j]).decision.MustWait?
        {
          assert rest[j] == clock[j + 1];
        }
      }
      GrantedCallIsRun(c, w, rest, k - 1);
      assert clock[..k + 1][1..] == rest[..k];
      assert Attempt(c, w, clock[0]).decision.MustWait?;
    }
  }

  /** A call that is still blocked when the readings run out is a run with no grant and no change. */
  lemma {:induction false} BlockedCallIsIdleRun(c: Config, w: Window, clock: seq<int>)
    requires Valid(c, w)
    requires NoGrant(c, w, clock)
    ensures Run(c, w, clock) == Tally(w, 0)
    decreases |clock|
  {
    if clock != [] {
      assert Attempt(c, w, clock[0]).decision.MustWait?;
      assert NoGrant(c, w, clock[1..]) by {
        forall j | 0 <= j < |clock| - 1
          ensures Attempt(c, w, clock[1..][j]).decision.MustWait?
        {
          assert clock[1..][j] == clock[j + 1];
        }
      }
      BlockedCallIsIdleRun(c, w, clock[1..]);
    }
  }

  /** Runs compose: the readings of successive calls can be concatenated. */
  lemma {:induction false} RunConcat(c: Config, w: Window, a: seq<int>, b: seq<int>)
    requires Valid(c, w)
    ensures Run(c, w, a + b).after == Run(c, Run(c, w, a).after, b).after
    ensures Run(c, w, a + b).grants == Run(c, w, a).grants + Run(c, Run(c, w, a).after, b).grants
    decreases |a|
  {
    if a == [] {
      assert a + b == b;
    } else {
      assert (a + b)[0] == a[0];
      assert (a + b)[1..] == a[1..] + b;
      RunConcat(c, Attempt(c, w, a[0]).after, a[1..], b);
    }
  }

  /**
   * The budget: while no reading shows the window elapsed, the window start stays put
   * and at most `limit - count` permits are granted, each adding one to the count.
   */
  lemma {:induction false} WindowBudget(c: Config, w: Window, readings: seq<int>)
    requires Valid(c, w)
    requires forall j :: 0 <= j < |readings| ==> !Elapsed(c, w, readings[j])
    ensures Run(c, w, readings).after.last == w.last
    ensures Run(c, w, readings).after.count == w.count + Run(c, w, readings).grants
    ensures Run(c, w, readings).grants <= c.limit - w.count
    decreases |readings|
  {
    if readings != [] {
      var s := Attempt(c, w, readings[0]);
      assert !Elapsed(c, w, readings[0]);
      assert s.after.last == w.last;
      forall j | 0 <= j < |readings| - 1
        ensures !Elapsed(c, s.after, readings[1..][j])
      {
        assert readings[1..][j] == readings[j + 1];
      }
      WindowBudget(c, s.after, readings[1..]);
    }
  }

  /**
   * The permit beyond the window's budget needs a clock reading at which the interval
   * has elapsed since the window start.
   */
  lemma ExtraGrantNeedsElapsedWindow(c: Config, w: Window, readings: seq<int>)
    requires Valid(c, w)
    requires Run(c, w, readings).grants > c.limit - w.count
    ensures exists j :: 0 <= j < |readings| && readings[j] >= w.last + c.interval
  {
    if forall j :: 0 <= j < |readings| ==> !Elapsed(c, w, readings[j]) {
      WindowBudget(c, w, readings);
    }
  }

  /** While budget remains, no acquisition waits, whatever the clock says. */
  lemma {:induction false} BudgetLeftGrantsEveryReading(c: Config, w: Window, readings: seq<int>)
    requires Valid(c, w)
    requires |readings| <= c.limit - w.count
    ensures Run(c, w, readings).grants == |readings|
    decreases |readings|
  {
    if readings != [] {
      var s := Attempt(c, w, readings[0]);
      assert s.decision.Granted?;
      BudgetLeftGrantsEveryReading(c, s.after, readings[1..]);
    }
  }

  /**
   * Once the interval has elapsed, the next `limit` acquisitions are all granted
   * without waiting: the first rolls the window, the others use its fresh budget.
   */
  lemma RolledWindowServesFullBudget(c: Config, w: Window, readings: seq<int>)
    requires Valid(c, w)
    requires 0 < |readings| <= c.limit
    requires Elapsed(c, w, readings[0])
    ensures Run(c, w, readings).grants == |readings|
  {
    var s := Attempt(c, w, readings[0]);
    assert s.after == Window(1, readings[0]);
    BudgetLeftGrantsEveryReading(c, s.after, readings[1..]);
  }

  /** With a zero interval (a sub-millisecond TimeUnit), a reading not before the window start rolls and is granted. */
  lemma ZeroIntervalGrantsAtOnce(c: Config, w: Window, now: int)
    requires Valid(c, w)
    requires c.interval == 0 && w.last <= now
    ensures Attempt(c, w, now) == Step(Granted, Window(1, now))
  {
  }

  /** With a zero interval and a clock that never goes backwards, no acquisition ever waits. */
  lemma {:induction false} ZeroIntervalNeverBlocks(c: Config, w: Window, readings: seq<int>)
    requires Valid(c, w)
    requires c.interval == 0
    requires readings != [] ==> w.last <= readings[0]
    requires forall j :: 0 <= j < |readings| - 1 ==> readings[j] <= readings[j + 1]
    ensures Run(c, w, readings).grants == |readings|
    decreases |readings|
  {
    if readings != [] {
      ZeroIntervalGrantsAtOnce(c, w, readings[0]);
      var rest := readings[1..];
      assert rest != [] ==> rest[0] == readings[1];
      forall j | 0 <= j < |rest| - 1
        ensures rest[j] <= rest[j + 1]
      {
        assert rest[j] == readings[j + 1] && rest[j + 1] == readings[j + 2];
      }
      ZeroIntervalNeverBlocks(c, Window(1, readings[0]), rest);
    }
  }

  /**
   * The budget is per window, not per sliding span of one interval: with a limit of 2
   * and an interval of 1000 ms, four permits are granted between 5000 and 6000, two at
   * the end of one window and two at the start of the next.
   */
  lemma BurstAtWindowBoundary()
    ensures Run(Config(1000, 2), Initial, [5000, 5999, 6000, 6000]).grants == 4
  {
    var c := Config(1000, 2);
    var w1 := Attempt(c, Initial, 5000).after;
    assert w1 == Window(1, 5000);
    var w2 := Attempt(c, w1, 5999).after;
    assert w2 == Window(2, 5000);
    var w3 := Attempt(c, w2, 6000).after;
    assert w3 == Window(1, 6000);
    assert Attempt(c, w3, 6000).decision.Granted?;
    assert [5000, 5999, 6000, 6000][1..] == [5999, 6000, 6000];
    assert [5999, 6000, 6000][1..] == [6000, 6000];
    assert [6000, 6000][1..] == [6000];
    assert [6000][1..] == [];
  }
}
