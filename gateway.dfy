/**
 * `createDocument` as a whole: acquire a permit, then hand the document to the
 * protected action (`sendDocumentToApi`), whose outcome is returned unchanged.
 */
module Gateway {
  import opened Wrappers
  import opened RateWindow
  import opened Limiter

  /** Throttled: still blocked when the readings ran out, so the action never ran. */
  datatype Submission<R> = Throttled | Sent(grantedAt: nat, response: R)

  /**
   * Acquire, then send. The limiter's new state is fixed before `send` runs and does
   * not depend on its response: a failed send keeps its permit.
   */
  method Submit<D, R>(limiter: RateLimiter, clock: seq<int>, document: D, signature: string, send: (D, string) -> R)
    returns (s: Submission<R>, waits: seq<int>)
    requires limiter.Valid()
    modifies limiter
    ensures limiter.Valid()
    ensures s.Throttled? <==> NoGrant(limiter.Settings(), old(limiter.State()), clock)
    ensures s.Throttled? ==> limiter.State() == old(limiter.State())
    ensures s.Sent? ==>
              && FirstGrantAt(limiter.Settings(), old(limiter.State()), clock, s.grantedAt)
              && limiter.State() == Attempt(limiter.Settings(), old(limiter.State()), clock[s.grantedAt]).after
              && s.response == send(document, signature)
    ensures |waits| == if s.Sent? then s.grantedAt else |clock|
    ensures forall j :: 0 <= j < |waits| ==>
              Attempt(limiter.Settings(), old(limiter.State()), clock[j]).decision == MustWait(waits[j])
  {
    var grantedAt;
    grantedAt, waits := limiter.Acquire(clock);
    if grantedAt.None? {
      s := Throttled;
    } else {
      var response := send(document, signature);
      s := Sent(grantedAt.value, response);
    }
  }
}
