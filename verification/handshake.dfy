/**
 * The two sides of live migration connected to each other: the sender reads
 * what the receiver writes and the receiver reads what the sender writes.
 * The point of the handshake is that at most one copy of the domain runs
 * afterwards, whichever step fails.
 */
module Handshake {
  import opened Bytes
  import opened Wrappers
  import opened Messages
  import SaveFile
  import S = Sender
  import R = Receiver

  /**
   * The two platforms describe one connection of a plain migration: when the
   * receiver's restore succeeds, it read exactly the domain stream the
   * sender's suspend wrote (whatever the suspend then returned).
   */
  predicate Coherent(es: S.SenderEnv, er: R.ReceiverEnv) {
    && er.checkpointed == R.NotCheckpointed
    && (er.create.Created? ==> er.create.consumed == |es.stream|)
  }

  /** Each run is what its side does on the bytes the other side wrote. */
  predicate Connected(config: seq<byte>, es: S.SenderEnv, er: R.ReceiverEnv, s: S.SenderRun, r: R.ReceiverRun) {
    && |config| <= SaveFile.INT_MAX
    && r.messages <= 5
    && s == S.MigrateDomain(config, es, R.Sent(r))
    && r == R.MigrateReceive(er, s.sent)
  }

  /** Reading the receiver's next message succeeds exactly when it wrote one. */
  lemma ReadNext(k: int, n: int, st: byte)
    requires 0 <= k <= n <= 5 && k < 5
    ensures ReadFixed(R.Outgoing(k, n, st), R.Message(k, st)) ==
      (if k < n then Some(R.Outgoing(k + 1, n, st)) else None)
  {
    if k < n {
      ReadFixedWritten(R.Message(k, st), R.Outgoing(k + 1, n, st));
    }
  }

  /** The sender after GO, on the receiver's messages from the report on. */
  lemma AfterGoOnReceiverOutput(es: S.SenderEnv, n: int, st: byte, sent: seq<byte>)
    requires 2 <= n <= 5 && es.goWriteOk
    ensures
      var s := S.AfterGo(es, R.Outgoing(2, n, st), sent);
      && (s.outcome == S.Migrated <==> n >= 4 && st == 0)
      && (s.outcome == S.TargetFailed <==> n == 5 && st != 0)
  {
    ReadNext(2, n, st);
    if n >= 3 {
      assert R.Outgoing(3, n, st) == (if n > 3 then [st] + R.Outgoing(4, n, st) else []);
      if n >= 4 {
        ReadNext(4, n, st);
      }
    }
  }

  /** The sender after its suspend, on the receiver's messages from "ready" on. */
  lemma AfterSuspendOnReceiverOutput(es: S.SenderEnv, n: int, st: byte, sent: seq<byte>)
    requires 1 <= n <= 5
    ensures
      var s := S.AfterSuspend(es, R.Outgoing(1, n, st), sent);
      var handsOver := n >= 2 && (es.hasName ==> es.renameAwayOk);
      && (S.SentGo in s.steps <==> handsOver)
      && (s.outcome == S.Migrated <==> handsOver && es.goWriteOk && n >= 4 && st == 0)
      && (s.outcome == S.TargetFailed <==> handsOver && es.goWriteOk && n == 5 && st != 0)
  {
    ReadNext(1, n, st);
    if n >= 2 && es.goWriteOk {
      AfterGoOnReceiverOutput(es, n, st, sent + GO);
    }
  }

  /** What the plain sender does on the receiver's messages 0..n-1 with status byte st. */
  lemma {:induction false} SenderOnReceiverOutput(config: seq<byte>, es: S.SenderEnv, n: int, st: byte)
    requires 0 < |config| <= SaveFile.INT_MAX && 0 <= n <= 5
    ensures
      var s := S.MigrateDomain(config, es, R.Outgoing(0, n, st));
      var handsOver := n >= 2 && es.headerWriteOk && es.suspendRc == 0 && (es.hasName ==> es.renameAwayOk);
      && (S.SentGo in s.steps <==> handsOver)
      && (s.outcome == S.Migrated <==> handsOver && es.goWriteOk && n >= 4 && st == 0)
      && (s.outcome == S.TargetFailed <==> handsOver && es.goWriteOk && n == 5 && st != 0)
  {
    ReadNext(0, n, st);
    if n >= 1 {
      AfterSuspendOnReceiverOutput(es, n, st, SaveFile.WriteConfig(config) + es.stream);
    }
  }

  /** The receiver's restore reads the sender's header and domain stream and leaves what followed. */
  lemma RestoreLeavesTail(config: seq<byte>, stream: seq<byte>, tail: seq<byte>, er: R.ReceiverEnv)
    requires |config| <= SaveFile.INT_MAX
    requires er.create.Created? && er.create.consumed == |stream|
    ensures R.Restore(er, SaveFile.WriteConfig(config) + stream + tail) == Some(tail)
    ensures SaveFile.Load(SaveFile.WriteConfig(config) + stream + tail).value.config == Some(config)
  {
    SaveFile.RoundTrip(config, stream + tail);
    assert SaveFile.WriteConfig(config) + stream + tail == SaveFile.WriteConfig(config) + (stream + tail);
    assert (stream + tail)[|stream|..] == tail;
  }

  /**
   * Whatever fails, the two copies never both run: the receiver takes over
   * only after the sender said GO and never resumed, the sender destroys
   * its copy only after the receiver took over, and the sender resumes
   * after GO only once the receiver has destroyed its copy.
   */
  lemma {:induction false} AtMostOneCopy(config: seq<byte>, es: S.SenderEnv, er: R.ReceiverEnv, s: S.SenderRun, r: R.ReceiverRun)
    requires Coherent(es, er) && Connected(config, es, er, s, r)
    ensures r.copy == R.TookOver ==> S.SentGo in s.steps && s.outcome in {S.Migrated, S.Undefined}
    ensures r.copy == R.TookOver ==> S.Resumed !in s.steps
    ensures s.outcome == S.Migrated ==> r.copy == R.TookOver
    ensures s.outcome == S.TargetFailed ==> r.copy == R.Destroyed
    ensures S.Resumed in s.steps ==> r.copy in {R.NoCopy, R.LeftPaused, R.Destroyed}
  {
    var st := if r.status.Some? then r.status.value else 0;
    var w := SaveFile.WriteConfig(config);
    if |config| == 0 {
      assert s.sent == [];
      assert SaveFile.Load(s.sent).Err?;
      return;
    }
    SenderOnReceiverOutput(config, es, r.messages, st);
    if er.create.Created? {
      RestoreLeavesTail(config, es.stream, [], er);
      RestoreLeavesTail(config, es.stream, GO, er);
      assert w + es.stream + [] == w + es.stream;
      ReadFixedEmpty(GO);
      ReadFixedWritten(GO, []);
      assert GO + [] == GO;
    }
    if r.copy == R.TookOver {
      assert R.ReadGo in r.steps;
      assert s.sent == w + es.stream + GO;
    }
  }

  /** When every step works, the domain moves: the target runs it, the source destroys its copy. */
  lemma HappyPath(config: seq<byte>, es: S.SenderEnv, er: R.ReceiverEnv)
    requires 0 < |config| <= SaveFile.INT_MAX && Coherent(es, er)
    requires es.headerWriteOk && es.suspendRc == 0 && (es.hasName ==> es.renameAwayOk) && es.goWriteOk
    requires er.bannerWriteOk && er.create.Created? && er.readyWriteOk && R.StartsCleanly(er)
    requires er.reportWriteOk && er.statusWriteOk
    ensures
      var r := R.MigrateReceive(er, SaveFile.WriteConfig(config) + es.stream + GO);
      var s := S.MigrateDomain(config, es, R.Sent(r));
      && Connected(config, es, er, s, r)
      && s.outcome == S.Migrated && S.ExitStatus(s.outcome) == 0
      && r.copy == R.TookOver && r.end == R.Exited(0)
      && SaveFile.Load(s.sent).value.config == Some(config)
  {
    var w := SaveFile.WriteConfig(config);
    RestoreLeavesTail(config, es.stream, GO, er);
    ReadFixedWritten(GO, []);
    assert GO + [] == GO;
    var r := R.MigrateReceive(er, w + es.stream + GO);
    assert r.messages == 4 && r.status == Some(0);
    SenderOnReceiverOutput(config, es, 4, 0);
  }
}
