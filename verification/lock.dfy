/**
 * The host-wide creation lock (acquire_lock / release_lock). Only whether
 * xl believes it holds the lock is modelled — the fd_lock >= 0 test — and
 * each fcntl(F_SETLKW) call is an outcome supplied by the environment.
 */
module Lock {
  import opened Errors

  /** fd_lock >= 0 (Held) or fd_lock == -1 (NotHeld). */
  datatype LockState = NotHeld | Held

  /** The outcome of one fcntl(F_SETLKW) call. */
  datatype FcntlResult = Done | Interrupted | Failed

  /** The kernel eventually answers with something other than EINTR. */
  predicate Answers(calls: seq<FcntlResult>) {
    exists i :: 0 <= i < |calls| && calls[i] != Interrupted
  }

  /** The goto-retry on EINTR: the index of the call whose result is kept. */
  function Settle(calls: seq<FcntlResult>): (k: nat)
    requires Answers(calls)
    ensures k < |calls| && calls[k] != Interrupted
    ensures forall j :: 0 <= j < k ==> calls[j] == Interrupted
  {
    if calls[0] != Interrupted then 0
    else
      assert Answers(calls[1..]) by {
        var i :| 0 <= i < |calls| && calls[i] != Interrupted;
        assert calls[1..][i - 1] == calls[i];
      }
      1 + Settle(calls[1..])
  }

  /** What the environment does with the steps of acquire_lock. */
  datatype AcquireOracle = AcquireOracle(openOk: bool, cloexecOk: bool, setlk: seq<FcntlResult>)

  datatype Outcome = Outcome(rc: int, state: LockState)

  /** acquire_lock: refuses re-entry, otherwise opens the lock file and waits for the lock. */
  function Acquire(st: LockState, o: AcquireOracle): (r: Outcome)
    requires st == NotHeld && o.openOk && o.cloexecOk ==> Answers(o.setlk)
    ensures st == Held ==> r == Outcome(ERROR_INVAL, Held)
    ensures r.rc == 0 <==> st == NotHeld && o.openOk && o.cloexecOk && o.setlk[Settle(o.setlk)] == Done
    ensures r.rc == 0 || r.rc == ERROR_FAIL || r.rc == ERROR_INVAL
    // re-entry is the only ERROR_INVAL; a failed open, cloexec or lock is ERROR_FAIL
    ensures r.rc == ERROR_INVAL <==> st == Held
    ensures r.rc == 0 ==> r.state == Held
    ensures r.state == NotHeld <==> st == NotHeld && !o.openOk
  {
    if st == Held then Outcome(ERROR_INVAL, Held)
    else if !o.openOk then Outcome(ERROR_FAIL, NotHeld)
    // the descriptor is closed but fd_lock keeps its value
    else if !o.cloexecOk then Outcome(ERROR_FAIL, Held)
    else if o.setlk[Settle(o.setlk)] == Done then Outcome(0, Held)
    else Outcome(ERROR_FAIL, Held)
  }

  /** release_lock: refuses when not held; otherwise unlocks, closes and forgets the descriptor. */
  function Release(st: LockState, unlock: seq<FcntlResult>): (r: Outcome)
    requires st == Held ==> Answers(unlock)
    ensures r.state == NotHeld
    ensures st == NotHeld ==> r.rc == ERROR_INVAL
    ensures r.rc == 0 <==> st == Held && unlock[Settle(unlock)] == Done
    ensures r.rc == 0 || r.rc == ERROR_FAIL || r.rc == ERROR_INVAL
  {
    if st == NotHeld then Outcome(ERROR_INVAL, NotHeld)
    else if unlock[Settle(unlock)] == Done then Outcome(0, NotHeld)
    else Outcome(ERROR_FAIL, NotHeld)
  }

  /** A second acquire without a release in between is refused and changes nothing. */
  lemma {:induction false} DoubleAcquireRefused(o1: AcquireOracle, o2: AcquireOracle)
    requires o1.openOk && o1.cloexecOk && Answers(o1.setlk)
    requires Acquire(NotHeld, o1).rc == 0
    ensures Acquire(Acquire(NotHeld, o1).state, o2) == Outcome(ERROR_INVAL, Held)
  {
  }

  /** Once released — whatever the unlock returned — the lock can be taken again. */
  lemma ReleaseThenAcquire(unlock: seq<FcntlResult>, o: AcquireOracle)
    requires Answers(unlock)
    requires o.openOk && o.cloexecOk && Answers(o.setlk) && o.setlk[Settle(o.setlk)] == Done
    ensures Acquire(Release(Held, unlock).state, o) == Outcome(0, Held)
  {
  }
}
