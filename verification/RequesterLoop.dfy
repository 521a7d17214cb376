/** A requester's attempts to get a permit: what it counts and how long it can take. */
module RequesterLoop {

  /** One answer of the authority service: a payload that admits or not, or a failure. */
  datatype Response = Answered(admitted: bool) | Failed(timedOut: bool)

  const ATTEMPTS := 4
  const SERVICE_TIMEOUT_MS := 1200
  const DEADLINE_MS := 7000

  /** The pause after an attempt; a seed of zero stands for none. */
  function Backoff(seed: int, attempt: nat): (ms: int)
    ensures 20 <= ms <= 99
  {
    20 + ((if seed == 0 then 130 else seed) + attempt * 17) % 80
  }

  /** The time the first n attempts and the pauses after them take. */
  function Spent(seed: int, took: nat -> nat, n: nat): int {
    if n == 0 then 0 else Spent(seed, took, n - 1) + took(n) + Backoff(seed, n)
  }

  predicate TimeoutsHonoured(took: nat -> nat) {
    forall k: nat :: k <= ATTEMPTS ==> took(k) <= SERVICE_TIMEOUT_MS
  }

  datatype Tally = Tally(attempts: nat, mappings: nat, newMappings: nat, rejections: nat, nacks: nat, timeouts: nat,
                         retries: nat, elapsed: int)

  /** Attempt n is the first of the attempts to be admitted. */
  predicate FirstAdmitted(responses: nat -> Response, n: nat) {
    n <= ATTEMPTS && responses(n) == Answered(true) && forall k: nat :: 1 <= k < n ==> responses(k) != Answered(true)
  }

  /** How many of the first n attempts were answered so. */
  function Tallied(responses: nat -> Response, n: nat, kind: Response): nat {
    if n == 0 then 0 else Tallied(responses, n - 1, kind) + if responses(n) == kind then 1 else 0
  }

  /** For every seed and every sequence of answers: each attempt but the last is followed by a retry,
      every answered attempt is a mapping that is either new or rejected, every other one a failure, and
      each tally counts exactly the answers of its kind; the loop stops at the first admission and, while service timeouts are honoured, ends well
      inside the deadline it was given. */
  method Acquire(seed: int, responses: nat -> Response, took: nat -> nat) returns (admitted: bool, t: Tally)
    ensures 1 <= t.attempts <= ATTEMPTS
    ensures t.retries == t.attempts - 1
    ensures t.mappings == t.newMappings + t.rejections && t.attempts == t.mappings + t.nacks && t.timeouts <= t.nacks
    ensures t.newMappings == Tallied(responses, t.attempts, Answered(true)) && t.rejections == Tallied(responses, t.attempts, Answered(false))
    ensures t.timeouts == Tallied(responses, t.attempts, Failed(true))
    ensures t.nacks == Tallied(responses, t.attempts, Failed(true)) + Tallied(responses, t.attempts, Failed(false))
    ensures t.newMappings == if admitted then 1 else 0
    ensures admitted ==> FirstAdmitted(responses, t.attempts)
    ensures !admitted ==> t.attempts == ATTEMPTS && forall k: nat :: 1 <= k <= ATTEMPTS ==> responses(k) != Answered(true)
    ensures t.elapsed == if admitted then Spent(seed, took, t.attempts - 1) + took(t.attempts) else Spent(seed, took, ATTEMPTS)
    ensures TimeoutsHonoured(took) ==> t.elapsed <= LONGEST_MS < DEADLINE_MS
  {
    var mappings, newMappings, rejections, nacks, timeouts, retries, elapsed := 0, 0, 0, 0, 0, 0, 0;
    var attempt := 1;
    while attempt <= ATTEMPTS
      invariant 1 <= attempt <= ATTEMPTS + 1
      invariant newMappings == 0 && mappings == rejections && attempt - 1 == mappings + nacks && timeouts <= nacks
      invariant newMappings == Tallied(responses, attempt - 1, Answered(true)) && rejections == Tallied(responses, attempt - 1, Answered(false))
      invariant timeouts == Tallied(responses, attempt - 1, Failed(true))
      invariant nacks == Tallied(responses, attempt - 1, Failed(true)) + Tallied(responses, attempt - 1, Failed(false))
      invariant retries == if attempt <= ATTEMPTS then attempt - 1 else ATTEMPTS - 1
      invariant forall k: nat :: 1 <= k < attempt ==> responses(k) != Answered(true)
      invariant elapsed == Spent(seed, took, attempt - 1)
    {
      var response := responses(attempt);
      elapsed := elapsed + took(attempt);
      if response.Answered? {
        mappings := mappings + 1;
        if response.admitted {
          newMappings := newMappings + 1;
          if TimeoutsHonoured(took) { SpentWithin(seed, took, attempt); }
          return true, Tally(attempt, mappings, newMappings, rejections, nacks, timeouts, retries, elapsed);
        }
        rejections := rejections + 1;
      } else {
        timeouts := timeouts + (if response.timedOut then 1 else 0);
        nacks := nacks + 1;
      }
      retries := retries + (if attempt < ATTEMPTS then 1 else 0);
      elapsed := elapsed + Backoff(seed, attempt);
      attempt := attempt + 1;
    }
    if TimeoutsHonoured(took) { SpentWithin(seed, took, ATTEMPTS); }
    return false, Tally(ATTEMPTS, mappings, newMappings, rejections, nacks, timeouts, retries, elapsed);
  }

  /** Four service timeouts and the four pauses of the slowest seed. */
  const LONGEST_MS := 4 * SERVICE_TIMEOUT_MS + 294

  /** The pauses of consecutive attempts are 17 ms apart, modulo 80: together they stay under the
      four times 99 ms that each of them could take alone. */
  lemma PausesTogether(seed: int)
    ensures Backoff(seed, 1) + Backoff(seed, 2) + Backoff(seed, 3) + Backoff(seed, 4) <= 294
  {
    var s := (if seed == 0 then 130 else seed) + 17;
    ShiftedRemainder(s, 17);
    ShiftedRemainder(s, 34);
    ShiftedRemainder(s, 51);
    var r := s % 80;
    assert Backoff(seed, 1) == 20 + r;
    assert Backoff(seed, 2) == 20 + (s + 17) % 80;
    assert Backoff(seed, 3) == 20 + (s + 34) % 80;
    assert Backoff(seed, 4) == 20 + (s + 51) % 80;
    hide Backoff;
  }

  lemma ShiftedRemainder(s: int, d: nat)
    requires d < 80
    ensures (s + d) % 80 == if s % 80 + d < 80 then s % 80 + d else s % 80 + d - 80
  {
  }

  lemma SpentWithin(seed: int, took: nat -> nat, n: nat)
    requires TimeoutsHonoured(took) && 1 <= n <= ATTEMPTS
    ensures Spent(seed, took, n) <= LONGEST_MS
  {
    PausesTogether(seed);
    hide Backoff;
    assert Spent(seed, took, 0) == 0;
    assert Spent(seed, took, 1) == took(1) + Backoff(seed, 1);
    assert Spent(seed, took, 2) == Spent(seed, took, 1) + took(2) + Backoff(seed, 2);
    assert Spent(seed, took, 3) == Spent(seed, took, 2) + took(3) + Backoff(seed, 3);
    assert Spent(seed, took, 4) == Spent(seed, took, 3) + took(4) + Backoff(seed, 4);
  }

  /** The bound is met: with seed 11 and every call timing out the loop takes exactly that long. */
  lemma LongestIsReached()
    ensures Spent(11, (k: nat) => SERVICE_TIMEOUT_MS, ATTEMPTS) == LONGEST_MS
  {
    var took := (k: nat) => SERVICE_TIMEOUT_MS;
    assert Spent(11, took, 1) == 1200 + 48;
    assert Spent(11, took, 2) == Spent(11, took, 1) + 1200 + 65;
    assert Spent(11, took, 3) == Spent(11, took, 2) + 1200 + 82;
    assert Spent(11, took, 4) == Spent(11, took, 3) + 1200 + 99;
  }
}
