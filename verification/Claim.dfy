/** The default claim loop: candidates tried in rotation until one is acquired. */
module Claim {
  import opened Bytes

  /** What one acquire attempt may answer. */
  datatype Answer = Acquired | AlreadyLeased(deadline: u64) | Terminal | NotFound | TenantMismatch | BackendError

  datatype Outcome =
    | Won(shard: u64)
    | NoneAvailable(earliest: Option<u64>)
    | Refused(cause: Answer)
    | Corrupt

  /** A backend that answers attempts one after the other in any way it likes, with a log of both. */
  class Backend {
    var attempted: seq<u64>
    var answered: seq<Answer>
    const policy: (seq<u64>, u64) -> Answer

    constructor (policy: (seq<u64>, u64) -> Answer)
      ensures attempted == [] && answered == [] && this.policy == policy
    {
      attempted, answered := [], [];
      this.policy := policy;
    }

    method Acquire(shard: u64) returns (a: Answer)
      modifies this
      ensures attempted == old(attempted) + [shard] && answered == old(answered) + [a]
    {
      a := policy(attempted, shard);
      attempted, answered := attempted + [shard], answered + [a];
    }
  }

  function Rotated(candidates: seq<u64>, offset: nat): (r: seq<u64>)
    requires offset < |candidates|
    ensures |r| == |candidates|
  {
    candidates[offset..] + candidates[..offset]
  }

  lemma RotatedAt(candidates: seq<u64>, offset: nat, i: nat)
    requires offset < |candidates| && i < |candidates|
    ensures Rotated(candidates, offset)[i] == candidates[(offset + i) % |candidates|]
  {
    Wrap(offset + i, |candidates|);
  }

  lemma Wrap(x: nat, n: nat)
    requires n > 0 && x < 2 * n
    ensures x % n == if x < n then x else x - n
  {
    var q := x / n;
    assert x == n * q + x % n;
    assert q >= 2 ==> n * q >= n * 2 by { assert n * q == n * 2 + n * (q - 2); }
  }

  /** A rotation visits every candidate exactly once. */
  lemma RotationIsPermutation(candidates: seq<u64>, offset: nat)
    requires offset < |candidates|
    ensures multiset(Rotated(candidates, offset)) == multiset(candidates)
  {
    assert candidates == candidates[..offset] + candidates[offset..];
  }

  /** Answers that send the loop on to the next candidate. */
  predicate OnlyRaces(answers: seq<Answer>) {
    forall i :: 0 <= i < |answers| ==> answers[i].AlreadyLeased? || answers[i].Terminal? || answers[i].NotFound?
  }

  predicate AllMissing(answers: seq<Answer>) { forall i :: 0 <= i < |answers| ==> answers[i].NotFound? }

  /** A deadline known from the scan or reported by a lost race. */
  predicate Seen(scan: Option<u64>, answers: seq<Answer>, d: u64) { scan == Some(d) || AlreadyLeased(d) in answers }

  /** `d` is the least deadline seen, or absent when none was. */
  ghost predicate IsEarliest(scan: Option<u64>, answers: seq<Answer>, d: Option<u64>) {
    && (d.Some? ==> Seen(scan, answers, d.value))
    && (forall e: u64 :: Seen(scan, answers, e) ==> d.Some? && d.value <= e)
  }

  function Merge(d: Option<u64>, a: Answer): Option<u64> {
    if !a.AlreadyLeased? || (d.Some? && d.value <= a.deadline) then d else Some(a.deadline)
  }

  lemma EarliestGrows(scan: Option<u64>, answers: seq<Answer>, d: Option<u64>, a: Answer)
    requires IsEarliest(scan, answers, d)
    ensures IsEarliest(scan, answers + [a], Merge(d, a))
  {
    var more := answers + [a];
    assert forall e: u64 :: Seen(scan, more, e) <==> Seen(scan, answers, e) || a == AlreadyLeased(e);
  }

  lemma MissingGrows(answers: seq<Answer>, a: Answer)
    ensures AllMissing(answers + [a]) <==> AllMissing(answers) && a.NotFound?
  {
    var more := answers + [a];
    assert more[|answers|] == a && forall i :: 0 <= i < |answers| ==> more[i] == answers[i];
  }

  /** How a claim ended, given the answers to its attempts in order. */
  ghost predicate Explains(order: seq<u64>, scan: Option<u64>, answers: seq<Answer>, r: Outcome) {
    match r
    case NoneAvailable(earliest) =>
      |answers| == |order| && OnlyRaces(answers) && !AllMissing(answers) && IsEarliest(scan, answers, earliest)
    case Corrupt => |answers| == |order| && AllMissing(answers)
    case Won(shard) =>
      && 1 <= |answers| <= |order| && shard == order[|answers| - 1]
      && OnlyRaces(answers[..|answers| - 1]) && answers[|answers| - 1] == Acquired
    case Refused(cause) =>
      && 1 <= |answers| <= |order| && OnlyRaces(answers[..|answers| - 1]) && answers[|answers| - 1] == cause
      && (cause.TenantMismatch? || cause.BackendError?)
  }

  /**
   * Tries the candidates in rotation from the worker's own offset, none twice, stopping at the first
   * success or hard error; when all are lost it reports the least deadline seen anywhere, and
   * when every single one has vanished it gives up on the backend.
   */
  method ClaimNextAvailable(backend: Backend, worker: u64, candidates: seq<u64>, scan: Option<u64>)
      returns (r: Outcome, ghost answers: seq<Answer>)
    modifies backend
    ensures backend.answered == old(backend.answered) + answers
    ensures candidates == [] ==> r == NoneAvailable(scan) && answers == [] && backend.attempted == old(backend.attempted)
    ensures candidates != [] ==>
      var order := Rotated(candidates, worker % |candidates|);
      && |answers| <= |order| && backend.attempted == old(backend.attempted) + order[..|answers|]
      && Explains(order, scan, answers, r)
  {
    answers := [];
    if candidates == [] { return NoneAvailable(scan), []; }
    var len := |candidates|;
    var offset := worker % len;
    ghost var order := Rotated(candidates, offset);
    var earliest: Option<u64> := scan;
    var missing := 0;
    var i := 0;
    while i < len
      invariant 0 <= i <= len && |answers| == i
      invariant 0 <= missing <= i && (missing == i <==> AllMissing(answers))
      invariant backend.attempted == old(backend.attempted) + order[..i]
      invariant backend.answered == old(backend.answered) + answers
      invariant OnlyRaces(answers) && IsEarliest(scan, answers, earliest)
      decreases len - i
    {
      var shard := candidates[(offset + i) % len];
      RotatedAt(candidates, offset, i);
      assert order[..i + 1] == order[..i] + [shard];
      var answer := backend.Acquire(shard);
      EarliestGrows(scan, answers, earliest, answer);
      assert (answers + [answer])[..i] == answers;
      MissingGrows(answers, answer);
      answers := answers + [answer];
      if answer.Acquired? { return Won(shard), answers; }
      if answer.TenantMismatch? || answer.BackendError? { return Refused(answer), answers; }
      if answer.AlreadyLeased? {
        earliest := Some(if earliest.Some? && earliest.value <= answer.deadline then earliest.value else answer.deadline);
      }
      if answer.NotFound? { missing := missing + 1; }
      i := i + 1;
    }
    assert order[..len] == order;
    if missing == len { return Corrupt, answers; }
    return NoneAvailable(earliest), answers;
  }
}
