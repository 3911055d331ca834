/**
 * freemem: before a domain is built, make the host's free memory cover what
 * the domain needs by asking dom0 to shrink, at most three times.
 */
module Memory {
  import opened Wrappers

  const U64_LIMIT: nat := 0x1_0000_0000_0000_0000
  const I64_LIMIT: nat := 0x8000_0000_0000_0000

  /** A value of C type uint64_t (memory sizes in KiB). */
  type u64 = x: nat | x < U64_LIMIT

  /** The retry budget: `int retries = 3`. */
  const RETRIES: nat := 3

  /**
   * The platform's answers, round by round: None stands for a call that
   * returned a negative rc.
   */
  datatype Platform = Platform(
    needMemory: Option<u64>,
    freeMemory: nat -> Option<u64>,
    setTargetOk: nat -> bool,
    waitTargetOk: nat -> bool)

  /** The platform calls freemem makes, with the values it passes or observes. */
  datatype Call =
    | NeedMemory
    | GetFree(observed: Option<u64>)
    | SetTarget(delta: int)
    | WaitTarget

  /**
   * The relative target passed for dom0: the uint64_t difference free - need,
   * which wraps when free < need, handed on as the int64_t parameter.
   */
  function ShrinkDelta(free: u64, need: u64): (d: int)
    ensures free < need && need - free <= I64_LIMIT ==> d == free - need
  {
    var wrapped := if free >= need then free - need else free - need + U64_LIMIT;
    if wrapped < I64_LIMIT then wrapped else wrapped - U64_LIMIT
  }

  /** Rounds 0 .. k-1 each saw too little memory and had both shrink calls succeed. */
  ghost predicate ShrunkThrough(p: Platform, need: u64, k: nat) {
    forall j :: 0 <= j < k ==>
      p.freeMemory(j).Some? && p.freeMemory(j).value < need && p.setTargetOk(j) && p.waitTargetOk(j)
  }

  /** Round k is the first to see enough free memory. */
  ghost predicate SufficientAt(p: Platform, need: u64, k: nat) {
    ShrunkThrough(p, need, k) && p.freeMemory(k).Some? && p.freeMemory(k).value >= need
  }

  /** Some round within the retry budget sees enough free memory. */
  ghost predicate ReclaimSucceeds(p: Platform, need: u64) {
    exists k :: 0 <= k < RETRIES && SufficientAt(p, need, k)
  }

  lemma ExtendShrunk(p: Platform, need: u64, r: nat)
    requires ShrunkThrough(p, need, r)
    requires p.freeMemory(r).Some? && p.freeMemory(r).value < need && p.setTargetOk(r) && p.waitTargetOk(r)
    ensures ShrunkThrough(p, need, r + 1)
  {
  }

  /**
   * If round r saw too little memory or a failing call, and rounds before it
   * only shrank, then no round below RETRIES is the sufficient one.
   */
  lemma NoLaterSuccess(p: Platform, need: u64, r: nat)
    requires ShrunkThrough(p, need, r)
    requires r < RETRIES ==>
      || p.freeMemory(r).None?
      || (p.freeMemory(r).value < need && !(p.setTargetOk(r) && p.waitTargetOk(r)))
    ensures !ReclaimSucceeds(p, need)
  {
    forall k | 0 <= k < RETRIES
      ensures !SufficientAt(p, need, k)
    {
      if r < k {
        assert !ShrunkThrough(p, need, k) by {
          assert 0 <= r < k;
          assert !(p.freeMemory(r).Some? && p.freeMemory(r).value < need
                   && p.setTargetOk(r) && p.waitTargetOk(r));
        }
      }
    }
  }

  /** Number of shrink requests in a call log. */
  function Shrinks(calls: seq<Call>): (n: nat)
    ensures n <= |calls|
  {
    if calls == [] then 0
    else Shrinks(calls[..|calls| - 1]) + (if calls[|calls| - 1].SetTarget? then 1 else 0)
  }

  lemma {:induction false} ShrinksConcat(a: seq<Call>, b: seq<Call>)
    ensures Shrinks(a + b) == Shrinks(a) + Shrinks(b)
    decreases |b|
  {
    if b != [] {
      var b' := b[..|b| - 1];
      assert (a + b)[..|a + b| - 1] == a + b';
      ShrinksConcat(a, b');
    } else {
      assert a + b == a;
    }
  }

  /** Every shrink request follows the reading it was computed from. */
  ghost predicate ShrinksFollowReadings(calls: seq<Call>, need: u64) {
    forall i :: 0 <= i < |calls| && calls[i].SetTarget? ==>
      && 0 < i
      && calls[i - 1].GetFree?
      && calls[i - 1].observed.Some?
      && calls[i - 1].observed.value < need
      && calls[i].delta == ShrinkDelta(calls[i - 1].observed.value, need)
  }

  /** Joining two disciplined logs keeps the discipline when the second starts with a reading. */
  lemma FollowConcat(a: seq<Call>, b: seq<Call>, need: u64)
    requires ShrinksFollowReadings(a, need) && ShrinksFollowReadings(b, need)
    requires b != [] ==> !b[0].SetTarget?
    ensures ShrinksFollowReadings(a + b, need)
  {
    var s := a + b;
    forall i | 0 <= i < |s| && s[i].SetTarget?
      ensures 0 < i && s[i - 1].GetFree? && s[i - 1].observed.Some? && s[i - 1].observed.value < need
      ensures s[i].delta == ShrinkDelta(s[i - 1].observed.value, need)
    {
      if i < |a| {
        assert s[i] == a[i] && s[i - 1] == a[i - 1];
      } else {
        assert s[i] == b[i - |a|] && s[i - 1] == b[i - |a| - 1];
      }
    }
  }

  /** How one pass of freemem's do-while body ends. */
  datatype Pass = Enough | GiveUp | Retry

  /** One pass: read free memory; if short, ask dom0 to shrink and wait for it. */
  method OnePass(p: Platform, need: u64, r: nat) returns (pass: Pass, log: seq<Call>)
    ensures pass == Enough <==> p.freeMemory(r).Some? && p.freeMemory(r).value >= need
    ensures pass == Retry <==>
      p.freeMemory(r).Some? && p.freeMemory(r).value < need && p.setTargetOk(r) && p.waitTargetOk(r)
    ensures 0 < |log| <= 3 && log[0] == GetFree(p.freeMemory(r))
    ensures pass == Enough ==> |log| == 1
    ensures pass == Retry ==> |log| == 3 && log[2] == WaitTarget
    ensures Shrinks(log) == (if |log| >= 2 then 1 else 0)
    ensures ShrinksFollowReadings(log, need)
  {
    var free := p.freeMemory(r);
    log := [GetFree(free)];
    if free.None? {
      return GiveUp, log;
    }
    if free.value >= need {
      return Enough, log;
    }
    var delta := ShrinkDelta(free.value, need);
    log := log + [SetTarget(delta)];
    assert log[..1] == [GetFree(free)];
    if !p.setTargetOk(r) {
      return GiveUp, log;
    }
    log := log + [WaitTarget];
    assert log[..2][..1] == [GetFree(free)];
    if !p.waitTargetOk(r) {
      return GiveUp, log;
    }
    pass := Retry;
  }

  /**
   * freemem: true at once when autoballooning is off; otherwise true exactly
   * when one of the (at most three) readings shows enough free memory.
   */
  method Freemem(autoballoon: bool, p: Platform) returns (ok: bool, calls: seq<Call>)
    ensures !autoballoon ==> ok && calls == []
    ensures autoballoon ==> (ok <==> p.needMemory.Some? && ReclaimSucceeds(p, p.needMemory.value))
    ensures Shrinks(calls) <= RETRIES
    ensures autoballoon && p.needMemory.Some? ==> ShrinksFollowReadings(calls, p.needMemory.value)
    ensures ok && autoballoon ==>
      && |calls| > 0 && calls[|calls| - 1].GetFree?
      && calls[|calls| - 1].observed.Some?
      && calls[|calls| - 1].observed.value >= p.needMemory.value
    ensures autoballoon && p.needMemory.Some? && ShrunkThrough(p, p.needMemory.value, RETRIES) ==>
      !ok && |calls| == 1 + 3 * RETRIES && calls[|calls| - 1] == WaitTarget
  {
    if !autoballoon {
      return true, [];
    }
    calls := [NeedMemory];
    if p.needMemory.None? {
      return false, calls;
    }
    var need := p.needMemory.value;
    var round := 0;
    while round < RETRIES
      invariant 0 <= round <= RETRIES
      invariant ShrunkThrough(p, need, round)
      invariant Shrinks(calls) == round
      invariant |calls| == 1 + 3 * round && (round > 0 ==> calls[|calls| - 1] == WaitTarget)
      invariant ShrinksFollowReadings(calls, need)
    {
      var pass, log := OnePass(p, need, round);
      ShrinksConcat(calls, log);
      FollowConcat(calls, log, need);
      calls := calls + log;
      if pass == Enough {
        assert SufficientAt(p, need, round);
        return true, calls;
      }
      if pass == GiveUp {
        NoLaterSuccess(p, need, round);
        return false, calls;
      }
      ExtendShrunk(p, need, round);
      round := round + 1;
    }
    NoLaterSuccess(p, need, RETRIES);
    ok := false;
  }
}
