/**
 * The limiter as the object CrptApi is: two constants set by the constructor and two
 * fields that `createDocument` updates in place. The clock is a sequence of readings,
 * read in order where the source calls `System.currentTimeMillis()`.
 */
module Limiter {
  import opened Wrappers
  import opened TimeUnits
  import opened RateWindow

  datatype ConfigError = IllegalArgument(message: string)

  /**
   * The constructor's guard and conversion: a non-positive limit is refused, otherwise
   * the limit is kept and the interval is one `timeUnit` in whole milliseconds.
   */
  function Configure(u: TimeUnit, requestLimit: Int32): (r: Result<Config, ConfigError>)
    ensures r.Failure? <==> requestLimit <= 0
    ensures r.Success? ==>
              && ValidConfig(r.value)
              && r.value.limit == requestLimit
              && r.value.interval == NanosPerUnit(u) / 1_000_000
  {
    if requestLimit <= 0 then Failure(IllegalArgument("requestLimit must be positive."))
    else Success(Config(OneUnitMillis(u), requestLimit as nat))
  }

  class RateLimiter {
    const interval: nat
    const limit: nat
    var count: nat
    var last: int

    /** requestIntervalMillis and requestLimit. */
    function Settings(): Config
    {
      Config(interval, limit)
    }

    /** requestCount and lastRequestTimestamp. */
    function State(): Window
      reads this
    {
      Window(count, last)
    }

    ghost predicate Valid()
      reads this
    {
      RateWindow.Valid(Settings(), State())
    }

    constructor (c: Config)
      requires ValidConfig(c)
      ensures Settings() == c && State() == Initial && Valid()
    {
      interval, limit := c.interval, c.limit;
      count, last := 0, 0;
    }

    /** `new CrptApi(timeUnit, requestLimit)`, with IllegalArgumentException as a Failure. */
    static method Create(u: TimeUnit, requestLimit: Int32) returns (r: Result<RateLimiter, ConfigError>)
      ensures r.Failure? <==> Configure(u, requestLimit).Failure?
      ensures r.Failure? ==> r.error == Configure(u, requestLimit).error
      ensures r.Success? ==>
                && fresh(r.value)
                && r.value.Valid()
                && r.value.Settings() == Configure(u, requestLimit).value
                && r.value.State() == Initial
    {
      var c := Configure(u, requestLimit);
      if c.Failure? {
        r := Failure(c.error);
      } else {
        var limiter := new RateLimiter(c.value);
        r := Success(limiter);
      }
    }

    /** The reset check: start a new window at `now` once the interval has elapsed, otherwise change nothing. */
    method Roll(now: int)
      requires Valid()
      modifies this
      ensures Valid()
      ensures State() == Rolled(Settings(), old(State()), now)
    {
      if now - last >= interval {
        count := 0;
        last := now;
      }
    }

    /**
     * The rate-limiting block of `createDocument`. Returns the index of the reading at
     * which the permit was granted (None when the readings run out first) and the
     * durations passed to `lock.wait`, one per reading that found the budget exhausted.
     */
    method Acquire(clock: seq<int>) returns (grantedAt: Option<nat>, waits: seq<int>)
      requires Valid()
      modifies this
      ensures Valid()
      ensures grantedAt.None? <==> NoGrant(Settings(), old(State()), clock)
      ensures grantedAt.None? ==> State() == old(State())
      ensures grantedAt.Some? ==>
                && FirstGrantAt(Settings(), old(State()), clock, grantedAt.value)
                && State() == Attempt(Settings(), old(State()), clock[grantedAt.value]).after
      ensures |waits| == if grantedAt.Some? then grantedAt.value else |clock|
      ensures forall j :: 0 <= j < |waits| ==>
                Attempt(Settings(), old(State()), clock[j]).decision == MustWait(waits[j])
    {
      ghost var w0 := State();
      grantedAt, waits := None, [];
      if |clock| == 0 {
        return;
      }
      var i := 0;
      var now := clock[0];
      Roll(now);
      while count >= limit
        invariant 0 <= i < |clock| && now == clock[i]
        invariant Valid()
        invariant State() == Rolled(Settings(), w0, now)
        invariant |waits| == i
        invariant forall j :: 0 <= j < i ==> Attempt(Settings(), w0, clock[j]).decision == MustWait(waits[j])
        decreases |clock| - i
      {
        assert State() == w0;
        var sleepTime := interval - (now - last);
        if sleepTime > 0 {
          // lock.wait(sleepTime)
          waits := waits + [sleepTime];
        }
        i := i + 1;
        if i == |clock| {
          return;
        }
        now := clock[i];
        Roll(now);
      }
      count := count + 1;
      grantedAt := Some(i);
    }
  }
}
