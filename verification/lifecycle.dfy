/**
 * create_domain as a state machine: a pass through `start:` brings the
 * domain up under the creation lock, then the event loop waits for the
 * domain to shut down and either restarts it (back to `start:`) or exits.
 */
module Lifecycle {
  import opened Wrappers
  import opened Bytes
  import opened Restart
  import opened Events
  import opened Errors
  import Lock
  import SaveFile

  /** Ids from here on are reserved by the hypervisor (xen.h is not part of this model). */
  const DOMID_FIRST_RESERVED: nat := 0x7FF0

  /** libxl_domid_valid_guest: a real guest, neither dom0 nor a reserved or invalid id. */
  predicate ValidGuest(d: DomId) {
    d.Dom? && 0 < d.id < DOMID_FIRST_RESERVED
  }

  // ---------------------------------------------------------------------
  // Where the configuration comes from
  // ---------------------------------------------------------------------

  /**
   * A -f config file: "/dev/null" (configuration from the command line only),
   * its contents, or a file that could not be read.
   */
  datatype ConfigFile = DevNull | FileContents(bytes: seq<byte>) | Unreadable

  /** The configuration a readable config file supplies. */
  function FileConfig(f: ConfigFile): seq<byte>
    requires !f.Unreadable?
  {
    if f.DevNull? then [] else f.bytes
  }

  datatype ChosenConfig = ChosenConfig(data: seq<byte>, json: bool)

  /**
   * A config file overrides the saved configuration and is never JSON; extra
   * command-line configuration is appended (two newlines) only on a fresh
   * create. Without a config file the saved one is used, in the format the
   * save file's JSON flag names.
   */
  function SelectConfig(restoring: bool, saved: Option<seq<byte>>, savedJson: bool,
                        file: Option<ConfigFile>, extra: seq<byte>): (r: Result<ChosenConfig, int>)
    ensures file.None? ==> (r.Err? <==> saved.None?)
    ensures file.None? && saved.None? ==> r == Err(ERROR_INVAL)
    ensures file.None? && saved.Some? ==> r == Ok(ChosenConfig(saved.value, savedJson))
    ensures file.Some? && r.Ok? ==> !r.value.json
    ensures file == Some(Unreadable) ==> r == Err(ERROR_FAIL)
    ensures file.Some? && !file.value.Unreadable? && (restoring || |extra| == 0) ==>
      r == Ok(ChosenConfig(FileConfig(file.value), false))
    // the extra text is refused exactly when the result would not fit an int with its NUL
    ensures file.Some? && !file.value.Unreadable? && !restoring && |extra| > 0 ==>
      (r.Err? <==> |FileConfig(file.value)| + |extra| + 3 > SaveFile.INT_MAX)
    ensures r.Ok? && file.Some? && !restoring && |extra| > 0 ==>
      && |r.value.data| == |FileConfig(file.value)| + |extra| + 2 <= SaveFile.INT_MAX
      && r.value.data[..|FileConfig(file.value)|] == FileConfig(file.value)
      && r.value.data[|r.value.data| - |extra| - 2..] == Ascii("\n") + extra + Ascii("\n")
    ensures r.Err? && file.Some? ==> r.error == ERROR_FAIL
  {
    match file
    case None =>
      if saved.None? then Err(ERROR_INVAL) else Ok(ChosenConfig(saved.value, savedJson))
    case Some(Unreadable) => Err(ERROR_FAIL)
    case Some(f) =>
      var base := FileConfig(f);
      if !restoring && |extra| > 0 then
        if |base| > SaveFile.INT_MAX - (|extra| + 2 + 1) then Err(ERROR_FAIL)
        else
          var data := base + Ascii("\n") + extra + Ascii("\n");
          assert data[|data| - |extra| - 2..] == Ascii("\n") + extra + Ascii("\n");
          Ok(ChosenConfig(data, false))
      else Ok(ChosenConfig(base, false))
  }

  /** Restoring without a config file yields exactly the configuration the writer saved. */
  lemma RestoredConfigIsSaved(config: seq<byte>, platformStream: seq<byte>, extra: seq<byte>)
    requires |config| <= SaveFile.INT_MAX
    ensures
      var l := SaveFile.Load(SaveFile.WriteConfig(config) + platformStream);
      && l.Ok?
      && SelectConfig(true, l.value.config, SaveFile.ConfigInJson(l.value), None, extra)
         == Ok(ChosenConfig(config, |config| != 0))
  {
    SaveFile.RoundTrip(config, platformStream);
  }

  // ---------------------------------------------------------------------
  // One pass through `start:`
  // ---------------------------------------------------------------------

  /** The single bring-up call a pass makes. */
  datatype BringUp = RestoreFromStream | SoftResetOf(previous: nat) | CreateNew

  /** Restoring takes precedence, then a pending soft reset, else a fresh create. */
  function SelectBringUp(restoring: bool, softReset: DomId): (m: BringUp)
    ensures m == RestoreFromStream <==> restoring
    ensures m.SoftResetOf? <==> !restoring && softReset.Dom?
    ensures m.SoftResetOf? ==> softReset == Dom(m.previous)
  {
    if restoring then RestoreFromStream
    else if softReset.Dom? then SoftResetOf(softReset.id)
    else CreateNew
  }

  /** create_domain's local state that survives `goto start`. */
  datatype Session = Session(
    domid: DomId,
    softReset: DomId,       // domid_soft_reset
    restoring: bool,
    lock: Lock.LockState,   // fd_lock >= 0
    ret: int)

  /** The session create_domain starts with. */
  function InitialSession(restoring: bool): Session {
    Session(Invalid, Invalid, restoring, Lock.NotHeld, 0)
  }

  /** The platform's answers during one pass. */
  datatype StartOracle = StartOracle(
    acquire: Lock.AcquireOracle,
    freememOk: bool,               // what Memory.Freemem returned
    createRc: int,                 // rc of the bring-up call
    createdDomid: DomId,           // *domid as the create or restore call leaves it
    unlock: seq<Lock.FcntlResult>)

  /** The oracle describes calls that return, and libxl reports errors as negative codes. */
  predicate Answers(s: Session, o: StartOracle) {
    && (s.lock == Lock.NotHeld && o.acquire.openOk && o.acquire.cloexecOk ==> Lock.Answers(o.acquire.setlk))
    && Lock.Answers(o.unlock)
    && o.createRc <= 0
  }

  datatype StartResult =
    | Up(session: Session, mode: BringUp, askedFreemem: bool)
    | Down(session: Session, ret: int, destroyed: DomId)

  /** error_out: release the lock, destroy whatever guest the failed call left behind. */
  function ErrorOut(s: Session, ret: int, unlock: seq<Lock.FcntlResult>): (r: StartResult)
    requires s.lock == Lock.Held ==> Lock.Answers(unlock)
    ensures r.Down? && r.ret == ret && r.session.lock == Lock.NotHeld
    ensures r.destroyed == (if ValidGuest(s.domid) then s.domid else Invalid)
  {
    var released := Lock.Release(s.lock, unlock).state;
    if ValidGuest(s.domid) then Down(s.(lock := released, domid := Invalid), ret, s.domid)
    else Down(s.(lock := released), ret, Invalid)
  }

  /** Everything after the lock is taken: freemem, the bring-up call, the release. */
  function AfterLock(s: Session, o: StartOracle): (r: StartResult)
    requires Lock.Answers(o.unlock) && o.createRc <= 0
    ensures r.session.lock == Lock.NotHeld
    ensures r.Down? ==> r.ret < 0
    ensures r.Up? ==> r.askedFreemem == (s.softReset == Invalid) && !r.session.restoring
    ensures r.Up? ==> r.session.softReset == (if r.mode.SoftResetOf? then Invalid else s.softReset)
    ensures r.Up? ==> r.mode == SelectBringUp(s.restoring, s.softReset)
    ensures r.Up? && r.mode.SoftResetOf? ==> r.session.domid == s.softReset
    ensures r.Up? && !r.mode.SoftResetOf? ==> r.session.domid == o.createdDomid
  {
    if s.softReset == Invalid && !o.freememOk then ErrorOut(s, ERROR_FAIL, o.unlock)
    else
      var mode := SelectBringUp(s.restoring, s.softReset);
      var s' := match mode
        case RestoreFromStream => s.(domid := o.createdDomid, restoring := false)
        case SoftResetOf(prev) => s.(domid := Dom(prev), softReset := Invalid)
        case CreateNew => s.(domid := o.createdDomid);
      if o.createRc != 0 then ErrorOut(s', o.createRc, o.unlock)
      else Up(s'.(lock := Lock.Release(s'.lock, o.unlock).state), mode, s.softReset == Invalid)
  }

  /**
   * A pass through `start:`, with a failed acquire_lock reported as its own
   * error code.
   */
  function Start(s: Session, o: StartOracle): (r: StartResult)
    requires s.domid == Invalid
    requires Answers(s, o)
    ensures r.session.lock == Lock.NotHeld
    ensures r.Down? ==> r.ret < 0
    ensures r.Up? ==> Lock.Acquire(s.lock, o.acquire).rc == 0
    ensures r.Up? ==> !r.session.restoring
    ensures r.Up? && !s.restoring ==> r.session.softReset == Invalid
    ensures r.Up? ==> (r.askedFreemem <==> s.softReset == Invalid)
  {
    var acq := Lock.Acquire(s.lock, o.acquire);
    if acq.rc < 0 then ErrorOut(s.(lock := acq.state), acq.rc, o.unlock)
    else AfterLock(s.(lock := acq.state), o)
  }

  /**
   * The same pass as written: a failed acquire_lock jumps to error_out
   * without setting ret, so create_domain returns whatever ret held.
   */
  function StartAsWritten(s: Session, o: StartOracle): (r: StartResult)
    requires s.domid == Invalid
    requires Answers(s, o)
    ensures Lock.Acquire(s.lock, o.acquire).rc < 0 ==> r.Down? && r.ret == s.ret
    ensures Lock.Acquire(s.lock, o.acquire).rc == 0 ==> r == Start(s, o)
  {
    var acq := Lock.Acquire(s.lock, o.acquire);
    if acq.rc < 0 then ErrorOut(s.(lock := acq.state), s.ret, o.unlock)
    else AfterLock(s.(lock := acq.state), o)
  }

  /**
   * On the first pass ret is still 0, so when the lock file cannot be opened
   * create_domain returns 0 — which migrate_receive and the create command
   * take for success (domid 0).
   */
  lemma LockFailureReportsSuccess(o: StartOracle)
    requires !o.acquire.openOk && Lock.Answers(o.unlock) && o.createRc <= 0
    ensures StartAsWritten(InitialSession(true), o) == Down(InitialSession(true), 0, Invalid)
    ensures Start(InitialSession(true), o).Down? && Start(InitialSession(true), o).ret == ERROR_FAIL
  {
  }

  // ---------------------------------------------------------------------
  // The event loop
  // ---------------------------------------------------------------------

  /** preserve_domain: the clock could not be read (domid kept), or the rename was tried. */
  datatype PreserveResult = ClockFailed | Preserved(ok: bool)

  /** Where the shutdown switch of the event loop goes next. */
  datatype Next =
    | Again(softReset: DomId, domid: DomId)   // goto start
    | Exit(ret: int, domid: DomId)            // goto out

  /** The RENAME case: keep a copy of the old domain under a timestamped name, then restart. */
  function PreserveThenRestart(softReset: DomId, domid: DomId, preserve: PreserveResult): (n: Next)
    ensures n.Again? <==> preserve == Preserved(true)
    ensures n.Again? ==> n == Again(softReset, Invalid)
    ensures n.Exit? ==> n.ret == -1
  {
    match preserve
    case ClockFailed => Exit(-1, domid)
    case Preserved(ok) => if ok then Again(softReset, Invalid) else Exit(-1, Invalid)
  }

  /** The switch on handle_domain_death's decision, with its fall-throughs. */
  function AfterDeath(decision: Decision, softReset: DomId, domid: DomId, preserve: PreserveResult): (n: Next)
    ensures n.Exit? && n.ret == 0 <==> decision == NoRestart
    ensures decision == RestartInPlace ==> n == Again(softReset, domid)
  {
    match decision
    case RestartWithSoftReset =>
      // domid_soft_reset = domid; domid = INVALID_DOMID; fall through into RENAME
      if domid == Invalid then PreserveThenRestart(domid, Invalid, preserve)
      else Again(domid, Invalid)
    case RestartWithRename =>
      if softReset == Invalid then PreserveThenRestart(softReset, domid, preserve)
      else Again(softReset, domid)
    case RestartInPlace => Again(softReset, domid)
    case NoRestart => Exit(0, domid)
  }

  /**
   * Every restart re-enters `start:` with domid == INVALID_DOMID, so the
   * assertion there holds; only a soft reset carries the old id over, and
   * it always does.
   */
  lemma {:induction false} RestartReentersClean(reason: ShutdownReason, policy: Policy, id: nat, preserve: PreserveResult)
    ensures
      var d := HandleDomainDeath(reason, policy, Dom(id));
      var n := AfterDeath(d.decision, Invalid, d.domid, preserve);
      && (n.Again? ==> n.domid == Invalid)
      && (n.Again? ==> (n.softReset == Dom(id) <==> d.decision == RestartWithSoftReset))
      && (n.Again? ==> (n.softReset == Invalid <==> d.decision != RestartWithSoftReset))
      && (d.decision == RestartWithSoftReset ==> n == Again(Dom(id), Invalid))
  {
    var d := HandleDomainDeath(reason, policy, Dom(id));
    match EffectiveAction(reason, policy)
    case None =>
    case Some(a) =>
      assert a == Restart ==> d.domid == Invalid;
      assert a == SoftResetAction ==> d.domid == Dom(id);
  }

  datatype Phase = Starting | Running | Finished(ret: int)

  datatype Controller = Controller(phase: Phase, session: Session)

  /** A pass through `start:`; `monitor` is daemonize || monitor. */
  function StartStep(c: Controller, o: StartOracle, monitor: bool): (c': Controller)
    requires c.phase == Starting && c.session.domid == Invalid && Answers(c.session, o)
    ensures c'.session.lock == Lock.NotHeld
    ensures c'.phase == Running ==> monitor && c'.session.domid == Start(c.session, o).session.domid
    ensures c'.phase.Finished? && Start(c.session, o).Up? ==> !monitor
  {
    match Start(c.session, o)
    case Down(s, ret, _) => Controller(Finished(ret), s)
    case Up(s, _, _) =>
      if monitor then Controller(Running, s)
      // `ret = domid`; a pass that brought a domain up always holds a real id,
      // so the -1 for an invalid one is never returned
      else Controller(Finished(if s.domid.Dom? then s.domid.id else -1), s)
  }

  /** The answers the event loop needs for one wake-up. */
  datatype LoopOracle = LoopOracle(policy: Policy, preserve: PreserveResult, drainRc: int)

  /** One wake-up of the event loop, on what domain_wait_event returned. */
  function EventStep(c: Controller, w: WaitOutcome, o: LoopOracle): (c': Controller)
    requires c.phase == Running && c.session.domid.Dom?
    requires w.Got? ==> w.event.domid == c.session.domid.id
    ensures c'.session.lock == c.session.lock
    ensures w.Failed? ==> c'.phase == Finished(w.rc)
    ensures w.Got? && w.event.kind == DomainDeath ==> c'.phase == Finished(0)
    ensures c'.phase == Running ==> c' == c
    ensures c'.phase == Starting ==> w.Got? && w.event.kind.DomainShutdown?
  {
    match w
    case Starved => c
    case Failed(rc, _) => c.(phase := Finished(rc))
    case Got(e, _) =>
      match e.kind
      case DomainShutdown(code) =>
        var d := HandleDomainDeath(ReasonOfCode(code), o.policy, c.session.domid);
        var n := AfterDeath(d.decision, c.session.softReset, d.domid, o.preserve);
        if n.Again? then
          Controller(Starting, c.session.(domid := n.domid, softReset := n.softReset, ret := o.drainRc))
        else Controller(Finished(n.ret), c.session.(domid := n.domid))
      case DomainDeath => c.(phase := Finished(0))
      case DiskEject => c
      case OtherEvent(_) => c
  }

  /**
   * A running session that restarts comes back to `start:` ready for the
   * next pass: no lock held, no watched id, and the next bring-up is a fresh
   * create unless the guest asked for a soft reset of its own id.
   */
  lemma {:induction false} RestartIsReady(c: Controller, e: Event, o: LoopOracle)
    requires c.phase == Running && c.session.domid.Dom? && !c.session.restoring
    requires c.session.softReset == Invalid && c.session.lock == Lock.NotHeld
    requires e.domid == c.session.domid.id
    ensures
      var c' := EventStep(c, Got(e, 1), o);
      c'.phase == Starting ==>
        && c'.session.domid == Invalid
        && c'.session.lock == Lock.NotHeld
        && (SelectBringUp(c'.session.restoring, c'.session.softReset) == CreateNew
            || SelectBringUp(c'.session.restoring, c'.session.softReset) == SoftResetOf(e.domid))
  {
    var c' := EventStep(c, Got(e, 1), o);
    if c'.phase == Starting {
      var code := e.kind.reasonCode;
      RestartReentersClean(ReasonOfCode(code), o.policy, e.domid, o.preserve);
    }
  }

  /** A soft reset brings the same domain back under its own id, without asking for memory. */
  lemma SoftResetKeepsDomid(s: Session, o: StartOracle, id: nat)
    requires s.domid == Invalid && s.softReset == Dom(id) && !s.restoring
    requires Answers(s, o)
    ensures Start(s, o).Up? ==>
      && Start(s, o).session.domid == Dom(id)
      && Start(s, o).mode == SoftResetOf(id)
      && !Start(s, o).askedFreemem
  {
  }
}
