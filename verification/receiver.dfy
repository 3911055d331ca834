/**
 * The receiving side of live migration (migrate_receive): send the banner,
 * restore the domain from the incoming stream, ask for permission, and on
 * GO start the domain; report the result in one status byte and, on
 * failure, destroy the local copy before handing the domain back.
 */
module Receiver {
  import opened Bytes
  import opened Wrappers
  import opened Messages
  import SaveFile

  /** libxl_checkpointed_stream: plain migration, or a Remus or COLO failover stream. */
  datatype Checkpointed = NotCheckpointed | Remus | Colo

  /**
   * What create_domain does once the header is accepted: the domain was
   * restored from the first `consumed` bytes of the domain stream, or the
   * creation failed.
   */
  datatype CreateResult = Created(domid: nat, consumed: nat) | CreateFailed

  /** What the platform does during one incoming migration. */
  datatype ReceiverEnv = ReceiverEnv(
    bannerWriteOk: bool,
    checkpointed: Checkpointed,
    create: CreateResult,
    hasName: bool,          // the configuration named the domain, so it arrives as "<name>--incoming"
    readyWriteOk: bool,
    renameRc: int,
    pauseAfter: bool,       // pause_after_migration
    unpauseRc: int,
    reportWriteOk: bool,
    statusWriteOk: bool,
    destroyRc: int,
    goBackWriteOk: bool)

  datatype Step =
    | WroteBanner | CreatedCopy | FailedOver | WroteReady | ReadGo | RenamedIn | Unpaused
    | WroteReport | WroteStatus(status: byte) | DestroyedCopy | WroteGoBack

  /** What became of the receiver's copy of the domain. */
  datatype Copy =
    | NoCopy      // never created
    | LeftPaused  // created but neither started nor destroyed
    | TookOver    // started (or left paused on request) after a good GO
    | Failover    // running as the Remus or COLO secondary after the primary was lost
    | Destroyed   // destroyed after reporting failure

  datatype Termination = Exited(status: int) | AssertionFailed

  /**
   * `messages` counts how many of banner, ready, report, status byte and
   * go-back went out, in that order; `status` is the status byte if it did.
   */
  datatype ReceiverRun = ReceiverRun(
    end: Termination, steps: seq<Step>, messages: nat, status: Option<byte>, copy: Copy)

  /** The receiver's k-th message (banner, ready, report, status byte, go-back), with status byte `st`. */
  function Message(k: nat, st: byte): (m: seq<byte>)
    requires k < 5
    ensures |m| > 0
  {
    [BANNER, READY, REPORT, [st], GO][k]
  }

  /** Messages i..n-1 back to back, as bytes on the wire. */
  function Outgoing(i: int, n: int, st: byte): seq<byte>
    requires 0 <= i <= n <= 5
    decreases n - i
  {
    if i < n then Message(i, st) + Outgoing(i + 1, n, st) else []
  }

  /** Every byte the receiver wrote to the sender: exactly the messages it counted. */
  function Sent(r: ReceiverRun): seq<byte>
    requires r.messages <= 5
  {
    Outgoing(0, r.messages, if r.status.Some? then r.status.value else 0)
  }

  /** The byte `char rc_buf = -rc` holds, on a two's-complement char. */
  function StatusByte(rc: int): (b: byte)
    ensures b as int == (-rc) % 0x100
    ensures -0x100 < rc < 0x100 ==> (b == 0 <==> rc == 0)
  {
    ((-rc) % 0x100) as byte
  }

  /** The rename and unpause after GO both worked (or were not asked for). */
  predicate StartsCleanly(e: ReceiverEnv) {
    (e.hasName ==> e.renameRc == 0) && (e.pauseAfter || e.unpauseRc == 0)
  }

  /**
   * create_domain on the incoming stream: the header must load and carry a
   * configuration, the domain must be created, and the domain data must not
   * run past the stream. Yields what follows the domain data.
   */
  function Restore(e: ReceiverEnv, input: seq<byte>): (rest: Option<seq<byte>>)
    ensures rest.Some? ==> e.create.Created?
    ensures rest.Some? ==>
      && SaveFile.Load(input).Ok?
      && SaveFile.Load(input).value.config.Some?
      && e.create.consumed <= |SaveFile.Load(input).value.rest|
      && rest.value == SaveFile.Load(input).value.rest[e.create.consumed..]
  {
    match SaveFile.Load(input)
    case Err(_) => None
    case Ok(l) =>
      if l.config.None? then None    // "none in save file": ERROR_INVAL
      else match e.create
        case CreateFailed => None
        case Created(_, consumed) => if consumed > |l.rest| then None else Some(l.rest[consumed..])
  }

  /** Waiting for GO and starting the domain: the code that decides rc, and the steps taken. */
  function AwaitGo(e: ReceiverEnv, rest: seq<byte>): (r: (int, seq<Step>))
    ensures r.0 == 0 <==> ReadFixed(rest, GO).Some? && StartsCleanly(e)
    ensures ReadGo in r.1 <==> ReadFixed(rest, GO).Some?
    ensures forall s :: s in r.1 ==> s in {ReadGo, RenamedIn, Unpaused}
  {
    if ReadFixed(rest, GO).None? then (1, [])
    else if e.hasName && e.renameRc != 0 then (e.renameRc, [ReadGo])
    else
      var started := [ReadGo] + (if e.hasName then [RenamedIn] else []);
      if !e.pauseAfter && e.unpauseRc != 0 then (e.unpauseRc, started)
      else (0, started + (if e.pauseAfter then [] else [Unpaused]))
  }

  /** perhaps_destroy_notify_rc: report, status byte, then destroy and go-back on failure. */
  function Notify(e: ReceiverEnv, rc: int): (r: ReceiverRun)
    ensures 2 <= r.messages <= 5
    ensures r.status.Some? <==> r.messages >= 4
    ensures r.status.Some? ==> r.status.value == StatusByte(rc) && (r.status.value == 0 <==> rc == 0)
    ensures r.end == AssertionFailed <==> e.reportWriteOk && rc != 0 && StatusByte(rc) == 0
    ensures r.copy in {TookOver, LeftPaused, Destroyed}
    ensures r.copy == TookOver <==> rc == 0
    ensures WroteGoBack in r.steps <==> r.messages == 5
    ensures r.messages == 5 ==> DestroyedCopy in r.steps
    // the go-back is the last step, right after the destroy
    ensures r.messages == 5 ==> |r.steps| >= 2 && r.steps[|r.steps| - 2..] == [DestroyedCopy, WroteGoBack]
    ensures r.copy == Destroyed <==> DestroyedCopy in r.steps
    ensures r.copy == Destroyed ==> r.status.Some? && r.status.value != 0
    ensures r.end == Exited(0) <==> r.status.Some? && (rc == 0 || r.messages == 5)
    ensures forall s :: s in r.steps ==> s in {WroteReport, WroteStatus(StatusByte(rc)), DestroyedCopy, WroteGoBack}
  {
    var kept := if rc == 0 then TookOver else LeftPaused;
    if !e.reportWriteOk then ReceiverRun(Exited(1), [], 2, None, kept)
    else
      var st := StatusByte(rc);
      if (st != 0) != (rc != 0) then ReceiverRun(AssertionFailed, [WroteReport], 3, None, LeftPaused)
      else if !e.statusWriteOk then ReceiverRun(Exited(1), [WroteReport], 3, None, kept)
      else if rc == 0 then ReceiverRun(Exited(0), [WroteReport, WroteStatus(st)], 4, Some(st), TookOver)
      else if e.destroyRc != 0 then ReceiverRun(Exited(1), [WroteReport, WroteStatus(st)], 4, Some(st), LeftPaused)
      else if !e.goBackWriteOk then
        ReceiverRun(Exited(1), [WroteReport, WroteStatus(st), DestroyedCopy], 4, Some(st), Destroyed)
      else ReceiverRun(Exited(0), [WroteReport, WroteStatus(st), DestroyedCopy, WroteGoBack], 5, Some(st), Destroyed)
  }

  /**
   * The Remus or COLO failover: the primary is gone, so the secondary takes
   * over at once. A COLO guest is already running; a Remus guest still has to
   * be unpaused, and when that fails it is left paused for the administrator.
   */
  function TakeOverAsSecondary(e: ReceiverEnv, domid: nat): (r: ReceiverRun)
    requires e.checkpointed != NotCheckpointed
    ensures r.messages == 1 && r.status.None?
    ensures r.copy in {Failover, LeftPaused}
    ensures r.copy == Failover <==> e.checkpointed == Colo || e.unpauseRc == 0
    ensures ReadGo !in r.steps && WroteReady !in r.steps
    ensures Unpaused in r.steps <==> r.copy == Failover && e.checkpointed.Remus?
    // a failed rename does not stop a Remus failover; it does fail a COLO one
    ensures e.checkpointed == Remus ==> (r.end == Exited(0) <==> e.unpauseRc == 0)
    ensures e.checkpointed == Remus && e.unpauseRc != 0 ==> r.end == Exited(1)
    ensures e.checkpointed == Colo && e.hasName ==> (r.end == Exited(0) <==> e.renameRc == 0)
  {
    var steps := [WroteBanner, CreatedCopy, FailedOver];
    if e.checkpointed == Colo then
      // rc is the rename's result; with no name, migration_domname is left
      // uninitialised, and rc is taken as the domid create_domain returned
      var rc := if e.hasName then e.renameRc else domid;
      ReceiverRun(Exited(if rc != 0 then 3 else 0), steps, 1, None, Failover)
    else if e.unpauseRc != 0 then
      ReceiverRun(Exited(1), steps, 1, None, LeftPaused)
    else
      ReceiverRun(Exited(0), [WroteBanner, CreatedCopy, FailedOver, Unpaused], 1, None, Failover)
  }

  /** migrate_receive on the bytes the sender sends. */
  function MigrateReceive(e: ReceiverEnv, input: seq<byte>): (r: ReceiverRun)
    ensures r.messages <= 5
    ensures r.messages > 0 <==> e.bannerWriteOk
    ensures r.messages > 0 ==> |r.steps| > 0 && r.steps[0] == WroteBanner
    ensures r.status.Some? <==> r.messages >= 4
    // the copy exists only if the stream restored
    ensures r.copy != NoCopy <==> e.bannerWriteOk && Restore(e, input).Some?
    // "ready" only after the domain was created, and never on a checkpointed stream
    ensures r.messages >= 2 ==>
      && e.checkpointed == NotCheckpointed && Restore(e, input).Some?
      && CreatedCopy in r.steps && WroteReady in r.steps
    ensures e.checkpointed != NotCheckpointed ==> r.messages <= 1 && ReadGo !in r.steps
    ensures r.copy == Failover <==>
      e.checkpointed != NotCheckpointed && r.copy != NoCopy && (e.checkpointed == Colo || e.unpauseRc == 0)
    // GO is accepted only right after the domain data
    ensures ReadGo in r.steps <==>
      r.messages >= 2 && ReadFixed(Restore(e, input).value, GO).Some?
    // status byte nonzero iff the start failed
    ensures r.status.Some? ==> (r.status.value == 0 <==> ReadGo in r.steps && StartsCleanly(e))
    ensures r.copy == TookOver ==> ReadGo in r.steps && StartsCleanly(e)
    // the domain goes back only after a failure report and the destroy
    ensures WroteGoBack in r.steps <==> r.messages == 5
    ensures r.messages == 5 ==> r.status.value != 0 && DestroyedCopy in r.steps && r.copy == Destroyed
    ensures r.messages == 5 ==> |r.steps| >= 2 && r.steps[|r.steps| - 2..] == [DestroyedCopy, WroteGoBack]
    ensures r.copy == Destroyed ==> r.status.Some? && r.status.value != 0
    ensures r.status == Some(0) ==> r.copy == TookOver
  {
    if !e.bannerWriteOk then ReceiverRun(Exited(1), [], 0, None, NoCopy)
    else match Restore(e, input)
      case None => ReceiverRun(Exited(1), [WroteBanner], 1, None, NoCopy)
      case Some(rest) =>
        if e.checkpointed != NotCheckpointed then TakeOverAsSecondary(e, e.create.domid)
        else if !e.readyWriteOk then ReceiverRun(Exited(1), [WroteBanner, CreatedCopy], 1, None, LeftPaused)
        else
          var (rc, started) := AwaitGo(e, rest);
          var n := Notify(e, rc);
          n.(steps := [WroteBanner, CreatedCopy, WroteReady] + started + n.steps, messages := n.messages)
  }
}
