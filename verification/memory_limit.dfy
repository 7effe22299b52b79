/** The memory limit controller: one 64-bit usage counter held against a fixed limit,
    with non-blocking, forced and blocking reservation and release. Each atomic
    operation on the counter is one step of the model. */
module MemoryLimit {

  const MinInt64: int := -0x8000_0000_0000_0000
  const MaxInt64: int := 0x7fff_ffff_ffff_ffff
  const Modulus64: int := 0x1_0000_0000_0000_0000

  type Int64 = x: int | MinInt64 <= x <= MaxInt64

  /** Two's-complement addition, as the language's `+` on int64 and an atomic add do it:
      the result is the sum, reduced into range modulo 2^64. */
  function Add64(a: Int64, b: Int64): (r: Int64)
    ensures (r - (a + b)) % Modulus64 == 0
    ensures MinInt64 <= a + b <= MaxInt64 ==> r == a + b
  {
    if a + b > MaxInt64 then a + b - Modulus64
    else if a + b < MinInt64 then a + b + Modulus64
    else a + b
  }

  /** Two's-complement negation; the most negative value is its own negation. */
  function Neg64(a: Int64): (r: Int64)
    ensures (r + a) % Modulus64 == 0
    ensures a != MinInt64 ==> r == -a
  {
    if a == MinInt64 then MinInt64 else -a
  }

  /** A limit above zero is enforced; any other limit means unlimited. */
  predicate IsLimited(limit: Int64)
  {
    limit > 0
  }

  /** The admission gate: a request is refused only when the limit is enforced and
      usage is already above it, whatever the size asked for. */
  predicate Admits(limit: Int64, current: Int64)
  {
    !(IsLimited(limit) && current > limit)
  }

  /** Usage after a non-blocking reservation attempt. */
  function AfterTryReserve(limit: Int64, usage: Int64, size: Int64): Int64
  {
    if Admits(limit, usage) then Add64(usage, size) else usage
  }

  /** Usage after a release: the size is negated, then added. */
  function AfterRelease(usage: Int64, size: Int64): Int64
  {
    Add64(usage, Neg64(size))
  }

  /** The release condition as written: the new usage plus the size, computed in
      64 bits, is above the limit, and the new usage is not. */
  predicate ReleaseWakes(limit: Int64, usage: Int64, size: Int64)
  {
    var newUsage := AfterRelease(usage, size);
    Add64(newUsage, size) > limit && newUsage <= limit
  }

  // ---------------------------------------------------------------------------
  // Properties

  /** An unlimited controller admits every request. */
  lemma UnlimitedAlwaysAdmits(limit: Int64, usage: Int64, size: Int64)
    requires !IsLimited(limit)
    ensures Admits(limit, usage)
    ensures AfterTryReserve(limit, usage, size) == Add64(usage, size)
  {
  }

  /** A refused request leaves usage unchanged, and it is refused exactly when the
      limit is enforced and already exceeded. */
  lemma RefusalLeavesUsage(limit: Int64, usage: Int64, size: Int64)
    ensures !Admits(limit, usage) <==> IsLimited(limit) && usage > limit
    ensures !Admits(limit, usage) ==> AfterTryReserve(limit, usage, size) == usage
  {
  }

  /** Overshoot bound: from usage at or below the limit, an admitted request of
      non-negative size leaves usage at most one request's size above the limit. */
  lemma OvershootBound(limit: Int64, usage: Int64, size: Int64)
    requires usage <= limit && 0 <= size
    ensures Admits(limit, usage)
    ensures AfterTryReserve(limit, usage, size) <= limit + size
  {
  }

  /** Releasing what was just added restores usage, in 64-bit arithmetic, with or
      without wrap-around. */
  lemma ReleaseUndoesReserve(usage: Int64, size: Int64)
    ensures AfterRelease(Add64(usage, size), size) == usage
  {
  }

  /** Adding the size back to the usage after a release gives the usage before it. */
  lemma AddBackAfterRelease(usage: Int64, size: Int64)
    ensures Add64(AfterRelease(usage, size), size) == usage
  {
  }

  /** The release condition as written is exactly a crossing from above the limit to
      at or below it. */
  lemma ReleaseWakesExactlyOnCrossing(limit: Int64, usage: Int64, size: Int64)
    ensures ReleaseWakes(limit, usage, size) <==> usage > limit && AfterRelease(usage, size) <= limit
  {
  }

  /** A call on the controller, for reasoning about sequences of them. */
  datatype Request = TryReserve(size: Int64) | Release(size: Int64)

  function Apply(limit: Int64, usage: Int64, req: Request): Int64
  {
    match req
    case TryReserve(size) => AfterTryReserve(limit, usage, size)
    case Release(size) => AfterRelease(usage, size)
  }

  function RunRequests(limit: Int64, usage: Int64, reqs: seq<Request>): Int64
    decreases |reqs|
  {
    if reqs == [] then usage else RunRequests(limit, Apply(limit, usage, reqs[0]), reqs[1..])
  }

  /** No request releases more than is in use at the moment it is made. */
  predicate ReleasesCovered(limit: Int64, usage: Int64, reqs: seq<Request>)
    decreases |reqs|
  {
    reqs == [] ||
    ((reqs[0].Release? ==> reqs[0].size <= usage) &&
     ReleasesCovered(limit, Apply(limit, usage, reqs[0]), reqs[1..]))
  }

  /** Under an enforced limit, any sequence of non-blocking reservations and covered
      releases of sizes at most `maxSize` keeps usage between zero and the limit plus
      one request's worth. */
  lemma {:induction false} UsageStaysWithinOvershoot(limit: Int64, usage: Int64, reqs: seq<Request>, maxSize: int)
    requires IsLimited(limit) && limit + maxSize <= MaxInt64
    requires 0 <= usage <= limit + maxSize
    requires forall i :: 0 <= i < |reqs| ==> 0 <= reqs[i].size <= maxSize
    requires ReleasesCovered(limit, usage, reqs)
    ensures 0 <= RunRequests(limit, usage, reqs) <= limit + maxSize
    decreases |reqs|
  {
    if reqs != [] {
      var next := Apply(limit, usage, reqs[0]);
      if reqs[0].TryReserve? && Admits(limit, usage) {
        OvershootBound(limit, usage, reqs[0].size);
      }
      assert 0 <= next <= limit + maxSize;
      assert forall i :: 0 <= i < |reqs[1..]| ==> reqs[1..][i] == reqs[i + 1];
      UsageStaysWithinOvershoot(limit, next, reqs[1..], maxSize);
    }
  }

  /** The controller. `broadcasts` counts the wake-ups of blocked reservers. */
  class MemoryLimitController {
    const limit: Int64
    var currentUsage: Int64
    var broadcasts: nat

    constructor (limit: Int64)
      ensures this.limit == limit && currentUsage == 0 && broadcasts == 0
    {
      this.limit := limit;
      currentUsage := 0;
      broadcasts := 0;
    }

    /** The limit is enforced; when it is not, every reservation is admitted. */
    function IsMemoryLimited(): (r: bool)
      ensures r <==> limit > 0
      ensures !r ==> Admits(limit, currentUsage)
      reads this
    {
      IsLimited(limit)
    }

    method CurrentUsage() returns (usage: Int64)
      ensures usage == currentUsage
    {
      usage := currentUsage;
    }

    /** One attempt of the compare-and-swap loop, which succeeds when uncontended. */
    method TryReserveMemory(size: Int64) returns (ok: bool)
      modifies this
      ensures ok <==> Admits(limit, old(currentUsage))
      ensures currentUsage == AfterTryReserve(limit, old(currentUsage), size)
      ensures ok ==> currentUsage == Add64(old(currentUsage), size)
      ensures !ok ==> currentUsage == old(currentUsage)
      ensures broadcasts == old(broadcasts)
    {
      var current := currentUsage;
      var newUsage := Add64(current, size);
      if IsMemoryLimited() && current > limit {
        return false;
      }
      currentUsage := newUsage;
      ok := true;
    }

    method ForceReserveMemory(size: Int64)
      modifies this
      ensures currentUsage == Add64(old(currentUsage), size)
      ensures broadcasts == old(broadcasts)
    {
      currentUsage := Add64(currentUsage, size);
    }

    /** Subtracts `size` and wakes every blocked reserver when usage drops from above
        the limit to at or below it. */
    method ReleaseMemory(size: Int64)
      modifies this
      ensures currentUsage == AfterRelease(old(currentUsage), size)
      ensures broadcasts == old(broadcasts) +
                (if old(currentUsage) > limit && currentUsage <= limit then 1 else 0)
    {
      ReleaseWakesExactlyOnCrossing(limit, currentUsage, size);
      var newUsage := Add64(currentUsage, Neg64(size));
      currentUsage := newUsage;
      if Add64(newUsage, size) > limit && newUsage <= limit {
        broadcasts := broadcasts + 1;
      }
    }

    /** The blocking reservation: the fast attempt, then under the lock one more
        attempt before waiting. Nothing else runs in a sequential model, so no release
        can end the wait: it ends in cancellation, and the call fails with usage
        unchanged. */
    method ReserveMemory(size: Int64) returns (ok: bool)
      modifies this
      ensures ok <==> Admits(limit, old(currentUsage))
      ensures currentUsage == AfterTryReserve(limit, old(currentUsage), size)
      ensures !ok ==> currentUsage == old(currentUsage)
      ensures broadcasts == old(broadcasts)
    {
      ok := TryReserveMemory(size);
      if !ok {
        ok := TryReserveMemory(size);
      }
    }
  }
}
