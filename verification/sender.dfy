/**
 * The sending side of live migration (migrate_domain with
 * migrate_do_preamble): wait for the banner, send the header, stream the
 * suspended domain, wait for "ready", rename the domain away, say GO, and
 * then either destroy the local copy or resume it on the target's word.
 */
module Sender {
  import opened Bytes
  import opened Wrappers
  import opened Messages
  import opened Errors
  import SaveFile


  /** What the platform does during one migration. */
  datatype SenderEnv = SenderEnv(
    hasName: bool,          // common_domname is known, so the domain is renamed away
    headerWriteOk: bool,    // both writes of save_domain_core_writeconfig
    suspendRc: int,         // libxl_domain_suspend's result
    stream: seq<byte>,      // the bytes libxl_domain_suspend writes
    renameAwayOk: bool,
    goWriteOk: bool)

  datatype Step =
    | ReadBanner | WroteHeader | Suspended | ReadReady | RenamedAway | SentGo
    | ReadReport | ReadStatus(status: byte) | ReadGoBack | RenamedBack | Resumed | Destroyed

  datatype Outcome =
    | NoConfig          // nothing to send as configuration
    | NoBanner          // the receiver never answered with its banner
    | HeaderFailed      // the header could not be written
    | SuspendGaveUp     // the guest did not suspend in time; not resumed
    | ResumedAtSender   // failed before GO; the local copy was resumed
    | Undefined         // failed after trying to send GO; neither side is known
    | TargetFailed      // the target gave the domain back; resumed here
    | Migrated          // the target runs it; the local copy is destroyed

  datatype SenderRun = SenderRun(outcome: Outcome, steps: seq<Step>, sent: seq<byte>)

  /** The process exit status: EXIT_SUCCESS only after a successful migration. */
  function ExitStatus(o: Outcome): (status: int)
    ensures status == 0 <==> o == Migrated
  {
    if o == Migrated then 0 else 1
  }

  /** The steps every GO is preceded by, in order. */
  function PreGo(hasName: bool): seq<Step> {
    [ReadBanner, WroteHeader, Suspended, ReadReady] + (if hasName then [RenamedAway] else [])
  }

  /** After GO: the report, then the status byte, then (on failure) the go-back. */
  function AfterGo(e: SenderEnv, input: seq<byte>, sent: seq<byte>): (r: SenderRun)
    requires e.goWriteOk
    ensures r.outcome in {Undefined, TargetFailed, Migrated}
    ensures r.sent == sent
    ensures PreGo(e.hasName) + [SentGo] <= r.steps
    ensures r.outcome == Migrated <==>
      ReadFixed(input, REPORT).Some? && |ReadFixed(input, REPORT).value| > 0 && ReadFixed(input, REPORT).value[0] == 0
    ensures r.outcome == Migrated ==>
      r.steps == PreGo(e.hasName) + [SentGo, ReadReport, ReadStatus(0), Destroyed]
    // a nonzero status followed by the go-back hands the domain back to the sender
    ensures r.outcome == TargetFailed <==>
      && ReadFixed(input, REPORT).Some? && |ReadFixed(input, REPORT).value| > 0
      && ReadFixed(input, REPORT).value[0] != 0
      && ReadFixed(ReadFixed(input, REPORT).value[1..], GO).Some?
    ensures r.outcome == TargetFailed ==>
      && ReadFixed(input, REPORT).Some? && |ReadFixed(input, REPORT).value| > 0
      && var st := ReadFixed(input, REPORT).value[0];
      && st != 0
      && ReadFixed(ReadFixed(input, REPORT).value[1..], GO).Some?
      && r.steps == PreGo(e.hasName) + [SentGo, ReadReport, ReadStatus(st), ReadGoBack]
                    + (if e.hasName then [RenamedBack] else []) + [Resumed]
    ensures SentGo in r.steps
    ensures Resumed in r.steps <==> r.outcome == TargetFailed
    ensures Destroyed in r.steps <==> r.outcome == Migrated
    ensures r.outcome == Migrated ==> ReadStatus(0) in r.steps
  {
    var pre := PreGo(e.hasName) + [SentGo];
    match ReadFixed(input, REPORT)
    case None => SenderRun(Undefined, pre, sent)
    case Some(in1) =>
      match ReadByte(in1)
      case None => SenderRun(Undefined, pre + [ReadReport], sent)
      case Some((status, in2)) =>
        if status == 0 then SenderRun(Migrated, pre + [ReadReport, ReadStatus(0), Destroyed], sent)
        else if ReadFixed(in2, GO).None? then SenderRun(Undefined, pre + [ReadReport, ReadStatus(status)], sent)
        else
          var back := if e.hasName then [RenamedBack] else [];
          SenderRun(TargetFailed, pre + [ReadReport, ReadStatus(status), ReadGoBack] + back + [Resumed], sent)
  }

  /** From the end of the domain stream on: wait for "ready", rename away, say GO. */
  function AfterSuspend(e: SenderEnv, input: seq<byte>, sent: seq<byte>): (r: SenderRun)
    ensures r.outcome in {ResumedAtSender, Undefined, TargetFailed, Migrated}
    ensures r.outcome == ResumedAtSender ==> SentGo !in r.steps && r.sent == sent && |r.steps| > 0 && r.steps[|r.steps| - 1] == Resumed
    ensures r.outcome != ResumedAtSender <==>
      ReadFixed(input, READY).Some? && (e.hasName ==> e.renameAwayOk)
    ensures r.outcome != ResumedAtSender ==>
      && PreGo(e.hasName) + [SentGo] <= r.steps
      && r.sent == sent + (if e.goWriteOk then GO else [])
    ensures r.outcome in {TargetFailed, Migrated} ==>
      && e.goWriteOk
      && r == AfterGo(e, ReadFixed(input, READY).value, sent + GO)
    ensures SentGo in r.steps <==> r.outcome != ResumedAtSender
    ensures Resumed in r.steps <==> r.outcome in {ResumedAtSender, TargetFailed}
    ensures Destroyed in r.steps <==> r.outcome == Migrated
    ensures r.outcome == Migrated ==> ReadStatus(0) in r.steps
  {
    var pre := [ReadBanner, WroteHeader, Suspended];
    match ReadFixed(input, READY)
    case None => SenderRun(ResumedAtSender, pre + [Resumed], sent)
    case Some(in1) =>
      if e.hasName && !e.renameAwayOk then SenderRun(ResumedAtSender, pre + [ReadReady, Resumed], sent)
      else if !e.goWriteOk then SenderRun(Undefined, PreGo(e.hasName) + [SentGo], sent)
      else AfterGo(e, in1, sent + GO)
  }

  /**
   * migrate_domain on a configuration `config` (what save_domain_core_begin
   * produced) and the bytes the receiver sends back on `input`.
   */
  function MigrateDomain(config: seq<byte>, e: SenderEnv, input: seq<byte>): (r: SenderRun)
    requires |config| <= SaveFile.INT_MAX
    ensures r.outcome == NoConfig <==> |config| == 0
    ensures r.outcome in {NoConfig, NoBanner, HeaderFailed} <==> r.sent == []
    ensures r.sent == [] || r.sent == SaveFile.WriteConfig(config) + e.stream
         || r.sent == SaveFile.WriteConfig(config) + e.stream + GO
    ensures r.outcome in {TargetFailed, Migrated} ==> r.sent == SaveFile.WriteConfig(config) + e.stream + GO
    // GO is tried only after the banner, the header, the suspend, "ready" and the rename away
    ensures SentGo in r.steps ==> PreGo(e.hasName) + [SentGo] <= r.steps
    // trying GO is the point of no return
    ensures SentGo in r.steps <==> r.outcome in {Undefined, TargetFailed, Migrated}
    ensures r.sent == SaveFile.WriteConfig(config) + e.stream + GO ==> SentGo in r.steps
    // the local copy is resumed before GO (except after a guest timeout), or after a go-back
    ensures Resumed in r.steps <==> r.outcome in {ResumedAtSender, TargetFailed}
    ensures r.outcome == ResumedAtSender ==> e.suspendRc != ERROR_GUEST_TIMEDOUT
    ensures r.outcome == SuspendGaveUp <==> r.sent != [] && e.suspendRc == ERROR_GUEST_TIMEDOUT
    ensures r.outcome == Migrated ==> Destroyed in r.steps && ReadStatus(0) in r.steps
    ensures Destroyed in r.steps ==> r.outcome == Migrated
    ensures r.outcome == Undefined ==> Resumed !in r.steps && Destroyed !in r.steps
  {
    if |config| == 0 then SenderRun(NoConfig, [], [])
    else
      match ReadFixed(input, BANNER)
      case None => SenderRun(NoBanner, [], [])
      case Some(in1) =>
        if !e.headerWriteOk then SenderRun(HeaderFailed, [ReadBanner], [])
        else
          var sent := SaveFile.WriteConfig(config) + e.stream;
          if e.suspendRc == ERROR_GUEST_TIMEDOUT then SenderRun(SuspendGaveUp, [ReadBanner, WroteHeader], sent)
          else if e.suspendRc != 0 then SenderRun(ResumedAtSender, [ReadBanner, WroteHeader, Resumed], sent)
          else AfterSuspend(e, in1, sent)
  }
}
