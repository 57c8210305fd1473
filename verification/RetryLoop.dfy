/** The retry loop around one request: every attempt re-enters the signed send with a fresh nonce. */
module RetryLoop {
  import opened Util

  /** How one attempt ended, after classification. */
  datatype Attempt =
    | Success
    | InvalidNonce   // the exchange refused the nonce
    | Transient      // any other retryable failure
    | Final          // not retryable, or an ambiguous order placement

  /** Attempt `i` is the first refused for its nonce. */
  predicate FirstRefusal(run: nat -> Attempt, i: nat) {
    run(i).InvalidNonce? && forall j :: 0 <= j < i ==> !run(j).InvalidNonce?
  }

  /**
   * `run(i)` is how attempt `i` would end.  An attempt is followed by another exactly when it was the first
   * refused for its nonce, whatever the budget, or failed transiently within the budget; a zero budget still
   * runs the first attempt.
   */
  method RunRetryLoop(maxAttempts: Option<nat>, defaultMax: nat, run: nat -> Attempt) returns (attempts: nat, ok: bool)
    ensures attempts >= 1 && (ok <==> run(attempts - 1).Success?)
    ensures var asked := if maxAttempts.Some? then maxAttempts.value else defaultMax;
            var budget := if asked == 0 then 1 else asked;
            && (forall i :: 0 <= i < attempts - 1 ==> FirstRefusal(run, i) || (run(i).Transient? && i + 1 < budget))
            && !FirstRefusal(run, attempts - 1) && !(run(attempts - 1).Transient? && attempts < budget)
            && attempts <= budget + 1
            && (attempts == budget + 1 ==> exists i :: 0 <= i < attempts - 1 && run(i).InvalidNonce?)
  {
    var asked := if maxAttempts.Some? then maxAttempts.value else defaultMax;
    var budget := if asked >= 1 then asked else 1;
    var attempt := 0;
    var nonceRetries := 0;
    while true
      invariant nonceRetries <= 1
      invariant nonceRetries == 0 <==> forall i :: 0 <= i < attempt ==> !run(i).InvalidNonce?
      invariant attempt <= budget && (attempt == budget ==> nonceRetries == 1)
      invariant forall i :: 0 <= i < attempt ==> FirstRefusal(run, i) || (run(i).Transient? && i + 1 < budget)
      decreases budget + 1 - attempt
    {
      attempt := attempt + 1;
      var result := run(attempt - 1);
      if result.Success? {
        return attempt, true;
      }
      if result.Final? {
        return attempt, false;
      }
      if result.InvalidNonce? {
        if nonceRetries >= 1 {
          return attempt, false;
        }
        nonceRetries := nonceRetries + 1;
      } else if attempt >= budget {
        return attempt, false;
      }
    }
  }
}
