/** The fault machine that turns one logical transaction's retries into a burst of compare failures. */
module RetryMachine {
  import opened Bytes

  datatype Burst = Burst(fingerprint: int, remaining: nat)

  /** Idle, armed with a burst, or cooling down after one. */
  datatype Retry = Retry(active: Option<Burst>, recent: Option<int>)

  /** Whether the fault has a positive rate, and how many failures one burst consists of. */
  datatype RetryConfig = RetryConfig(enabled: bool, attempts: nat)

  /** One transaction as the machine sees it: can it be armed on, does it get past its compares, is the fault drawn. */
  datatype Call = Call(fingerprint: int, guarded: bool, passes: bool, draw: bool)

  ghost predicate RetryInv(r: Retry) {
    && !(r.active.Some? && r.recent.Some?)
    && (r.active.Some? ==> r.active.value.remaining >= 1)
  }

  const IDLE: Retry := Retry(None, None)

  function ClearForOther(r: Retry, fp: int): Retry {
    Retry(if r.active.Some? && r.active.value.fingerprint != fp then None else r.active,
          if r.recent.Some? && r.recent.value != fp then None else r.recent)
  }

  /** Spends one failure of an active burst for this fingerprint, if there is one. */
  function Consume(r: Retry, fp: int): (Retry, bool) {
    if r.active.None? || r.active.value.fingerprint != fp then (r, false)
    else if r.active.value.remaining == 0 then (r.(active := None), false)
    else if r.active.value.remaining == 1 then (Retry(None, Some(fp)), true)
    else (r.(active := Some(Burst(fp, r.active.value.remaining - 1))), true)
  }

  /** Starts a burst, whose first failure is the arming call itself. */
  function Arm(r: Retry, config: RetryConfig, fp: int, guarded: bool, draw: bool): (Retry, bool) {
    if !guarded || config.attempts == 0 || r.recent == Some(fp) || !(config.enabled && draw) then (r, false)
    else if config.attempts == 1 then (Retry(None, Some(fp)), true)
    else (Retry(Some(Burst(fp, config.attempts - 1)), None), true)
  }

  predicate Possible(r: Retry, config: RetryConfig) {
    r.active.Some? || r.recent.Some? || (config.enabled && config.attempts > 0)
  }

  /** One transaction, with the fingerprint computed only when the machine could act on it. */
  function Attempt(r: Retry, config: RetryConfig, c: Call): (Retry, bool) {
    if Possible(r, config) then AttemptAlways(r, config, c) else (r, false)
  }

  /** The same with the fingerprint always computed. */
  function AttemptAlways(r: Retry, config: RetryConfig, c: Call): (Retry, bool) {
    var spent := Consume(ClearForOther(r, c.fingerprint), c.fingerprint);
    if spent.1 then spent
    else if !c.passes then spent
    else Arm(spent.0, config, c.fingerprint, c.guarded, c.draw)
  }

  /** Skipping the fingerprint when nothing could match it changes neither the state nor the outcome. */
  lemma LazyFingerprintIsEquivalent(r: Retry, config: RetryConfig, c: Call)
    ensures Attempt(r, config, c) == AttemptAlways(r, config, c)
  {
    assert !Possible(r, config) ==> r == IDLE;
  }

  lemma AttemptKeepsInv(r: Retry, config: RetryConfig, c: Call)
    requires RetryInv(r)
    ensures RetryInv(Attempt(r, config, c).0)
  {
  }

  /** The states and outcomes of a sequence of calls. */
  ghost function After(r: Retry, config: RetryConfig, calls: seq<Call>): Retry
    decreases |calls|
  {
    if calls == [] then r else Attempt(After(r, config, calls[..|calls| - 1]), config, calls[|calls| - 1]).0
  }

  ghost function Outcome(r: Retry, config: RetryConfig, calls: seq<Call>, i: nat): bool
    requires i < |calls|
  {
    Attempt(After(r, config, calls[..i]), config, calls[i]).1
  }

  /** In every reachable state the machine is not armed and cooling down at once. */
  lemma {:induction false} ReachableStatesAreExclusive(config: RetryConfig, calls: seq<Call>)
    ensures RetryInv(After(IDLE, config, calls))
    decreases |calls|
  {
    if calls != [] {
      ReachableStatesAreExclusive(config, calls[..|calls| - 1]);
      AttemptKeepsInv(After(IDLE, config, calls[..|calls| - 1]), config, calls[|calls| - 1]);
    }
  }

  /** Armed for `fp` with failures left, or cooling down when none are. */
  function Bursting(fp: int, left: nat): Retry {
    if left == 0 then Retry(None, Some(fp)) else Retry(Some(Burst(fp, left)), None)
  }

  lemma {:induction false} BurstCountsDown(fp: int, left: nat, config: RetryConfig, calls: seq<Call>)
    requires forall i :: 0 <= i < |calls| ==> calls[i].fingerprint == fp
    ensures After(Bursting(fp, left), config, calls) == Bursting(fp, if |calls| <= left then left - |calls| else 0)
    decreases |calls|
  {
    if calls != [] { BurstCountsDown(fp, left, config, calls[..|calls| - 1]); }
  }

  /**
   * Once a call arms the machine, retries of the same transaction see exactly the configured number
   * of failures, counting the arming call, and then none until another fingerprint arrives.
   */
  lemma BurstIsExact(r: Retry, config: RetryConfig, c: Call, retries: seq<Call>, i: nat)
    requires RetryInv(r)
    requires !Consume(ClearForOther(r, c.fingerprint), c.fingerprint).1 && Attempt(r, config, c).1
    requires forall j :: 0 <= j < |retries| ==> retries[j].fingerprint == c.fingerprint
    requires i < |retries|
    ensures config.attempts >= 1
    ensures Outcome(Attempt(r, config, c).0, config, retries, i) <==> i + 1 < config.attempts
    ensures After(Attempt(r, config, c).0, config, retries) == Bursting(c.fingerprint,
              if |retries| + 1 <= config.attempts then config.attempts - 1 - |retries| else 0)
  {
    var armed := Attempt(r, config, c).0;
    assert armed == Bursting(c.fingerprint, config.attempts - 1);
    BurstCountsDown(c.fingerprint, config.attempts - 1, config, retries[..i]);
    BurstCountsDown(c.fingerprint, config.attempts - 1, config, retries);
  }

  /** A different fingerprint ends any burst or cooldown before it is considered itself. */
  lemma OtherFingerprintResets(r: Retry, config: RetryConfig, c: Call)
    requires r.active.Some? ==> r.active.value.fingerprint != c.fingerprint
    requires r.recent.Some? ==> r.recent.value != c.fingerprint
    ensures Attempt(r, config, c) == Attempt(IDLE, config, c)
  {
    LazyFingerprintIsEquivalent(r, config, c);
    LazyFingerprintIsEquivalent(IDLE, config, c);
  }
}
