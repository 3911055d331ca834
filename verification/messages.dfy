/**
 * The fixed messages of the live-migration handshake and the reader that
 * expects one of them (migrate_read_fixedmessage).
 */
module Messages {
  import opened Bytes
  import opened Wrappers

  /**
   * One C literal, written here in four pieces: the verifier checks the
   * characters of each short literal (BannerTextHasNoNul), but runs out of
   * resources on the 55-character literal written whole.
   */
  const BANNER_TEXT: string := "xl migration " + "receiver ready, " + "send binary " + "domain data.\n"
  const READY_TEXT: string := "domain received, ready to unpause"
  const GO_TEXT: string := "domain is yours, you are cleared to unpause"
  const REPORT_TEXT: string := "my copy unpause results are as follows"

  /** Sent by the receiver first, without its terminating NUL. */
  const BANNER: seq<byte> := Ascii(BANNER_TEXT)
  /** Receiver to sender once the domain has arrived; this and the rest go out with their NUL. */
  const READY: seq<byte> := CString(READY_TEXT)
  /** Sender to receiver as permission to start, and receiver to sender as permission to resume. */
  const GO: seq<byte> := CString(GO_TEXT)
  /** Receiver to sender, followed by one status byte. */
  const REPORT: seq<byte> := CString(REPORT_TEXT)

  /** Every character is a nonzero single byte. */
  predicate NoNulChars(s: string) {
    forall c :: c in s ==> 0 < c as int < 0x100
  }

  lemma BannerTextHasNoNul()
    ensures NoNulChars(BANNER_TEXT)
  {
    assert NoNulChars("xl migration ");
    assert NoNulChars("receiver ready, ");
    assert NoNulChars("send binary ");
    assert NoNulChars("domain data.\n");
  }
  lemma ReadyTextHasNoNul() ensures NoNulChars(READY_TEXT) {}
  lemma GoTextHasNoNul() ensures NoNulChars(GO_TEXT) {}
  lemma ReportTextHasNoNul() ensures NoNulChars(REPORT_TEXT) {}

  /** The bytes of a text without NUL characters contain no zero byte. */
  lemma AsciiHasNoNul(s: string)
    requires NoNulChars(s)
    ensures 0 !in Ascii(s)
  {
    var r := Ascii(s);
    forall i | 0 <= i < |r|
      ensures r[i] != 0
    {
      assert s[i] in s;
      assert r[i] as int == s[i] as int;
    }
  }

  /** The message ends in a NUL, and that NUL is its only zero byte. */
  predicate NulTerminated(m: seq<byte>) {
    |m| > 0 && m[|m| - 1] == 0 && 0 !in m[..|m| - 1]
  }

  /**
   * How each message is framed on the wire: the banner goes out without any
   * NUL, so the sender's fixed-length read ends at its newline; "ready", GO
   * and the report go out with their terminating NUL, which is their only
   * zero byte.
   */
  lemma LiteralFraming()
    ensures 0 !in BANNER && BANNER[|BANNER| - 1] == Ascii("\n")[0]
    ensures NulTerminated(READY) && NulTerminated(GO) && NulTerminated(REPORT)
  {
    BannerTextHasNoNul();
    ReadyTextHasNoNul();
    GoTextHasNoNul();
    ReportTextHasNoNul();
    AsciiHasNoNul(BANNER_TEXT);
    AsciiHasNoNul(READY_TEXT);
    AsciiHasNoNul(GO_TEXT);
    AsciiHasNoNul(REPORT_TEXT);
  }

  /**
   * Read exactly |msg| bytes and compare them with msg: a short read and a
   * mismatch are both failures; on success the rest of the stream is left.
   */
  function ReadFixed(input: seq<byte>, msg: seq<byte>): (r: Option<seq<byte>>)
    ensures r.Some? <==> |msg| <= |input| && input[..|msg|] == msg
    ensures r.Some? ==> input == msg + r.value
  {
    if |input| < |msg| || input[..|msg|] != msg then None
    else
      assert input == input[..|msg|] + input[|msg|..];
      Some(input[|msg|..])
  }

  /** Reading back a message that was written succeeds and leaves what followed it. */
  lemma ReadFixedWritten(msg: seq<byte>, rest: seq<byte>)
    ensures ReadFixed(msg + rest, msg) == Some(rest)
  {
    assert (msg + rest)[..|msg|] == msg;
  }

  /** Nothing of a nonempty message can be read from a stream that has ended. */
  lemma ReadFixedEmpty(msg: seq<byte>)
    requires |msg| > 0
    ensures ReadFixed([], msg) == None
  {
  }

  /** One byte read with libxl_read_exactly. */
  function ReadByte(input: seq<byte>): (r: Option<(byte, seq<byte>)>)
    ensures r.Some? <==> |input| > 0
    ensures r.Some? ==> input == [r.value.0] + r.value.1
  {
    if |input| == 0 then None else Some((input[0], input[1..]))
  }
}
