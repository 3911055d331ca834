/**
 * The xl save-file container: a fixed 48-byte header followed by an
 * "optional data" block that carries the domain configuration, after which
 * the platform's own (opaque) save stream begins.
 *
 *   offset  0  32 bytes  magic
 *   offset 32   4 bytes  byte-order sentinel 0x01020304
 *   offset 36   4 bytes  mandatory_flags (bit 0 JSON config, bit 1 stream v2)
 *   offset 40   4 bytes  optional_flags
 *   offset 44   4 bytes  optional_data_len
 *   offset 48            optional data: 4-byte config_len, then config_len bytes
 */
module SaveFile {
  import opened Bytes
  import opened Wrappers
  import opened Errors

  const MAGIC: seq<byte> := Ascii("Xen saved domain, xl format\n \0 \r")
  const BYTEORDER_VALUE: u32 := 0x0102_0304
  const FLAG_JSON: u32 := 1
  const FLAG_STREAMV2: u32 := 2
  const HEADER_SIZE: nat := 48
  /** Largest value of C type int: the writer's config_len is an int. */
  const INT_MAX: nat := 0x7FFF_FFFF

  datatype Header = Header(
    magic: seq<byte>,
    byteOrder: u32,
    mandatoryFlags: u32,
    optionalFlags: u32,
    optionalDataLen: u32)

  predicate WellFormed(h: Header) {
    |h.magic| == 32
  }

  function EncodeHeader(h: Header): (r: seq<byte>)
    requires WellFormed(h)
    ensures |r| == HEADER_SIZE
  {
    h.magic + U32ToBytes(h.byteOrder) + U32ToBytes(h.mandatoryFlags)
      + U32ToBytes(h.optionalFlags) + U32ToBytes(h.optionalDataLen)
  }

  /** The header as `struct save_file_header` overlays the first 48 bytes read. */
  function ParseHeader(b: seq<byte>): (h: Header)
    requires |b| == HEADER_SIZE
    ensures WellFormed(h)
  {
    Header(b[..32], BytesToU32(b[32..36]), BytesToU32(b[36..40]),
           BytesToU32(b[40..44]), BytesToU32(b[44..48]))
  }

  lemma HeaderRoundTrip(h: Header)
    requires WellFormed(h)
    ensures ParseHeader(EncodeHeader(h)) == h
  {
    var b := EncodeHeader(h);
    assert b[..32] == h.magic;
    assert b[32..36] == U32ToBytes(h.byteOrder);
    assert b[36..40] == U32ToBytes(h.mandatoryFlags);
    assert b[40..44] == U32ToBytes(h.optionalFlags);
    assert b[44..] == U32ToBytes(h.optionalDataLen);
    assert b[44..48] == b[44..];
    U32RoundTrip(h.byteOrder);
    U32RoundTrip(h.mandatoryFlags);
    U32RoundTrip(h.optionalFlags);
    U32RoundTrip(h.optionalDataLen);
  }

  /** Bit 0 of mandatory_flags: the configuration is JSON rather than xl's own syntax. */
  predicate IsJson(flags: u32) {
    flags % 2 == 1
  }

  /** Bit 1 of mandatory_flags: the platform stream that follows is version 2. */
  predicate IsStreamV2(flags: u32) {
    flags / 2 % 2 == 1
  }

  /** flags & ~(JSON | STREAMv2): the mandatory bits this reader does not know. */
  function UnknownMandatory(flags: u32): (bad: u32)
    ensures bad == 0 <==> flags < 4
    // flags with its two low bits cleared: the unique multiple of 4 within 3 below flags
    ensures bad % 4 == 0 && 0 <= flags - bad < 4
  {
    flags - flags % 4
  }

  // ---------------------------------------------------------------------
  // Writer
  // ---------------------------------------------------------------------

  /** The optional data block: config_len as 4 bytes, then the config itself. */
  function OptionalData(config: seq<byte>): (r: seq<byte>)
    requires |config| <= INT_MAX
    ensures |r| == 4 + |config|
  {
    U32ToBytes(|config|) + config
  }

  /** The header the writer fills in for a given configuration. */
  function HeaderFor(config: seq<byte>): (h: Header)
    requires |config| <= INT_MAX
    ensures WellFormed(h)
  {
    Header(MAGIC, BYTEORDER_VALUE,
           if |config| != 0 then FLAG_STREAMV2 + FLAG_JSON else FLAG_STREAMV2,
           0, 4 + |config|)
  }

  /**
   * save_domain_core_writeconfig: the bytes written ahead of the platform's
   * save stream.
   */
  function WriteConfig(config: seq<byte>): (r: seq<byte>)
    requires |config| <= INT_MAX
    ensures |r| == HEADER_SIZE + 4 + |config|
    ensures r[..32] == MAGIC
    ensures BytesToU32(r[32..36]) == BYTEORDER_VALUE
    ensures IsStreamV2(BytesToU32(r[36..40]))
    ensures IsJson(BytesToU32(r[36..40])) <==> |config| != 0
    ensures UnknownMandatory(BytesToU32(r[36..40])) == 0
    ensures BytesToU32(r[40..44]) == 0
    ensures BytesToU32(r[44..48]) == |r| - HEADER_SIZE
    ensures BytesToU32(r[48..52]) == |config| && r[52..] == config
  {
    var h := HeaderFor(config);
    var r := EncodeHeader(h) + OptionalData(config);
    HeaderRoundTrip(h);
    assert r[..HEADER_SIZE] == EncodeHeader(h);
    assert r[48..52] == U32ToBytes(|config|);
    U32RoundTrip(|config|);
    r
  }

  // ---------------------------------------------------------------------
  // Reader
  // ---------------------------------------------------------------------

  datatype LoadError =
    | ShortHeader           // fewer than 48 bytes: the read of the header fails
    | BadMagic              // "wrong magic number"
    | BadByteOrder          // "wrong byte order"
    | UnsupportedMandatory(bad: u32)  // "mandatory flag(s) ... not supported"
    | ShortOptionalData     // the stream ends inside optional_data_len bytes
    | Truncated             // "Savefile truncated."

  /**
   * What create_domain returns for a rejected stream: ERROR_INVAL for every
   * check it makes itself; a short read leaves through CHK_ERRNOVAL, whose
   * code (xl.h) is not part of this model.
   */
  function ErrorCode(e: LoadError): Option<int> {
    if e.ShortHeader? || e.ShortOptionalData? then None else Some(ERROR_INVAL)
  }

  /** What the restoring block of create_domain extracts from the stream. */
  datatype Loaded = Loaded(header: Header, config: Option<seq<byte>>, rest: seq<byte>)

  /** Whether the saved configuration is to be parsed as JSON. */
  predicate ConfigInJson(l: Loaded) {
    IsJson(l.header.mandatoryFlags)
  }

  /** params.stream_version handed to the platform's restore. */
  function StreamVersion(l: Loaded): (v: nat)
    ensures v == 2 || v == 1
    ensures v == 2 <==> IsStreamV2(l.header.mandatoryFlags)
  {
    if IsStreamV2(l.header.mandatoryFlags) then 2 else 1
  }

  /** The checks made on the header alone, before any optional data is read. */
  function CheckHeader(h: Header): (r: Option<LoadError>)
    ensures r == None <==>
      h.magic == MAGIC && h.byteOrder == BYTEORDER_VALUE && h.mandatoryFlags < 4
    ensures r.Some? ==> r.value.BadMagic? || r.value.BadByteOrder? || r.value.UnsupportedMandatory?
    // the checks run in order: magic, then byte order, then the mandatory flags
    ensures h.magic != MAGIC ==> r == Some(BadMagic)
    ensures h.magic == MAGIC && h.byteOrder != BYTEORDER_VALUE ==> r == Some(BadByteOrder)
    ensures h.magic == MAGIC && h.byteOrder == BYTEORDER_VALUE && h.mandatoryFlags >= 4 ==>
      r == Some(UnsupportedMandatory(UnknownMandatory(h.mandatoryFlags)))
  {
    if h.magic != MAGIC then Some(BadMagic)
    else if h.byteOrder != BYTEORDER_VALUE then Some(BadByteOrder)
    else if UnknownMandatory(h.mandatoryFlags) != 0 then
      Some(UnsupportedMandatory(UnknownMandatory(h.mandatoryFlags)))
    else None
  }

  /**
   * WITH_OPTDATA's guard, corrected: `amt` bytes are available iff at least
   * `amt` remain, comparing the length as the unsigned value stored.
   */
  predicate TooShort(left: nat, amt: u32) {
    left < amt
  }

  /**
   * Parses the optional data block: empty means "no config in save file";
   * otherwise a 4-byte config_len and that many bytes of config, any tail
   * being skipped.
   */
  function ParseOptionalData(opt: seq<byte>): (r: Result<Option<seq<byte>>, LoadError>)
    ensures |opt| == 0 ==> r == Ok(None)
    // "no config" only for an empty block
    ensures r.Ok? ==> (r.value.Some? <==> |opt| > 0)
    ensures r.Err? <==> 0 < |opt| && (|opt| < 4 || |opt| - 4 < BytesToU32(opt[..4]))
    ensures r.Err? ==> r.error == Truncated
    ensures r.Ok? && r.value.Some? ==>
      && |opt| >= 4 + |r.value.value|
      && BytesToU32(opt[..4]) == |r.value.value|
      && r.value.value == opt[4..4 + |r.value.value|]
  {
    if |opt| == 0 then Ok(None)
    else if TooShort(|opt|, 4) then Err(Truncated)
    else
      var len := BytesToU32(opt[..4]);
      if TooShort(|opt| - 4, len) then Err(Truncated)
      else Ok(Some(opt[4..4 + len]))
  }

  /**
   * The restoring block of create_domain: header checks, then the optional
   * data, leaving the platform stream in `rest`.
   */
  function Load(stream: seq<byte>): (r: Result<Loaded, LoadError>)
    ensures |stream| < HEADER_SIZE ==> r == Err(ShortHeader)
    // "truncated" is reported only about a block that was read in full behind a good header
    ensures r.Err? && r.error == Truncated ==>
      && |stream| >= HEADER_SIZE
      && CheckHeader(ParseHeader(stream[..HEADER_SIZE])) == None
      && |stream| - HEADER_SIZE >= ParseHeader(stream[..HEADER_SIZE]).optionalDataLen
    ensures r.Ok? ==>
      && r.value.header == ParseHeader(stream[..HEADER_SIZE])
      && CheckHeader(r.value.header) == None
      && |stream| >= HEADER_SIZE + r.value.header.optionalDataLen
      && r.value.rest == stream[HEADER_SIZE + r.value.header.optionalDataLen..]
    // the config is what the optional data block holds
    ensures r.Ok? ==>
      Ok(r.value.config) == ParseOptionalData(stream[HEADER_SIZE..HEADER_SIZE + r.value.header.optionalDataLen])
    // a load succeeds exactly when the header passes, the block is all there and it parses
    ensures r.Ok? <==>
      && |stream| >= HEADER_SIZE
      && CheckHeader(ParseHeader(stream[..HEADER_SIZE])) == None
      && |stream| - HEADER_SIZE >= ParseHeader(stream[..HEADER_SIZE]).optionalDataLen
      && ParseOptionalData(stream[HEADER_SIZE..HEADER_SIZE + ParseHeader(stream[..HEADER_SIZE]).optionalDataLen]).Ok?
  {
    if |stream| < HEADER_SIZE then Err(ShortHeader)
    else
      var h := ParseHeader(stream[..HEADER_SIZE]);
      match CheckHeader(h)
      case Some(e) => Err(e)
      case None =>
        if |stream| - HEADER_SIZE < h.optionalDataLen then Err(ShortOptionalData)
        else
          var end := HEADER_SIZE + h.optionalDataLen;
          match ParseOptionalData(stream[HEADER_SIZE..end])
          case Err(e) => Err(e)
          case Ok(config) => Ok(Loaded(h, config, stream[end..]))
  }

  // ---------------------------------------------------------------------
  // Properties
  // ---------------------------------------------------------------------

  /** decode(encode(config)) == config, and the platform stream is untouched. */
  lemma RoundTrip(config: seq<byte>, platformStream: seq<byte>)
    requires |config| <= INT_MAX
    ensures Load(WriteConfig(config) + platformStream)
         == Ok(Loaded(HeaderFor(config), Some(config), platformStream))
    ensures ConfigInJson(Loaded(HeaderFor(config), Some(config), platformStream)) <==> |config| != 0
    ensures StreamVersion(Loaded(HeaderFor(config), Some(config), platformStream)) == 2
  {
    var h := HeaderFor(config);
    var w := WriteConfig(config);
    var s := w + platformStream;
    assert s[..HEADER_SIZE] == EncodeHeader(h);
    HeaderRoundTrip(h);
    var opt := s[HEADER_SIZE..HEADER_SIZE + 4 + |config|];
    assert opt == OptionalData(config);
    assert opt[..4] == U32ToBytes(|config|);
    U32RoundTrip(|config|);
    assert opt[4..4 + |config|] == config;
    assert s[HEADER_SIZE + 4 + |config|..] == platformStream;
  }

  /**
   * A header that fails its checks is rejected whatever follows it: no byte
   * of the optional data or of the platform stream is consulted.
   */
  lemma RejectedBeforeOptionalData(hdr: seq<byte>, tail1: seq<byte>, tail2: seq<byte>)
    requires |hdr| == HEADER_SIZE
    requires CheckHeader(ParseHeader(hdr)).Some?
    ensures Load(hdr + tail1) == Load(hdr + tail2)
    ensures Load(hdr + tail1) == Err(CheckHeader(ParseHeader(hdr)).value)
    ensures ErrorCode(Load(hdr + tail1).error) == Some(ERROR_INVAL)
  {
    assert (hdr + tail1)[..HEADER_SIZE] == hdr;
    assert (hdr + tail2)[..HEADER_SIZE] == hdr;
  }

  /** Any mandatory bit beyond JSON and STREAMv2 is refused, whatever the optional flags say. */
  lemma UnknownMandatoryRejected(h: Header, tail: seq<byte>)
    requires h.magic == MAGIC && h.byteOrder == BYTEORDER_VALUE
    requires h.mandatoryFlags >= 4
    ensures Load(EncodeHeader(h) + tail) == Err(UnsupportedMandatory(UnknownMandatory(h.mandatoryFlags)))
  {
    HeaderRoundTrip(h);
    assert (EncodeHeader(h) + tail)[..HEADER_SIZE] == EncodeHeader(h);
  }

  /** optional_flags never changes whether, or what, a stream loads. */
  lemma OptionalFlagsIgnored(h: Header, flags: u32, tail: seq<byte>)
    requires WellFormed(h)
    ensures Load(EncodeHeader(h) + tail).Ok?
        <==> Load(EncodeHeader(h.(optionalFlags := flags)) + tail).Ok?
    ensures Load(EncodeHeader(h) + tail).Ok? ==>
      && Load(EncodeHeader(h) + tail).value.config
         == Load(EncodeHeader(h.(optionalFlags := flags)) + tail).value.config
      && Load(EncodeHeader(h) + tail).value.rest
         == Load(EncodeHeader(h.(optionalFlags := flags)) + tail).value.rest
  {
    var h' := h.(optionalFlags := flags);
    HeaderRoundTrip(h);
    HeaderRoundTrip(h');
    assert (EncodeHeader(h) + tail)[..HEADER_SIZE] == EncodeHeader(h);
    assert (EncodeHeader(h') + tail)[..HEADER_SIZE] == EncodeHeader(h');
    assert CheckHeader(h) == CheckHeader(h');
    var len := h.optionalDataLen;
    if CheckHeader(h) == None && |tail| >= len {
      assert (EncodeHeader(h) + tail)[HEADER_SIZE..HEADER_SIZE + len] == tail[..len];
      assert (EncodeHeader(h') + tail)[HEADER_SIZE..HEADER_SIZE + len] == tail[..len];
      assert (EncodeHeader(h) + tail)[HEADER_SIZE + len..] == tail[len..];
      assert (EncodeHeader(h') + tail)[HEADER_SIZE + len..] == tail[len..];
    }
  }

  // ---------------------------------------------------------------------
  // The truncation guard as written
  // ---------------------------------------------------------------------

  /** The value a uint32_t takes once stored in a C int (two's complement). */
  function AsCInt(x: u32): (r: int)
    ensures x <= INT_MAX ==> r == x
    ensures x > INT_MAX ==> r < 0
  {
    if x <= INT_MAX then x else x - U32_LIMIT
  }

  /**
   * WITH_OPTDATA(config_len, ...) as written on an LP64 host: config_len is
   * an int, and OPTDATA_LEFT is a long, so the comparison is signed.
   */
  predicate TooShortAsWritten(left: nat, configLen: u32) {
    left < AsCInt(configLen)
  }

  /** What the as-written code does with the optional data block. */
  datatype OptDataAsWritten =
    | NoConfigAsWritten
    | RejectedAsWritten
    | CopiedAsWritten(config: seq<byte>)
    /** The guard passed but config_len exceeds the bytes that remain. */
    | CopyPastEnd(requested: int)

  function ParseOptionalDataAsWritten(opt: seq<byte>): (r: OptDataAsWritten)
    ensures r.CopyPastEnd? ==> |opt| >= 4 && BytesToU32(opt[..4]) > INT_MAX
  {
    if |opt| == 0 then NoConfigAsWritten
    else if TooShort(|opt|, 4) then RejectedAsWritten
    else
      var len := BytesToU32(opt[..4]);
      if TooShortAsWritten(|opt| - 4, len) then RejectedAsWritten
      else if len <= |opt| - 4 then CopiedAsWritten(opt[4..4 + len])
      else CopyPastEnd(AsCInt(len))
  }

  /**
   * A block holding only config_len = 0x80000000 gets past the as-written
   * guard, though no configuration byte follows; the corrected guard
   * reports it truncated.
   */
  lemma SignedConfigLenBypassesGuard()
    ensures ParseOptionalDataAsWritten(U32ToBytes(0x8000_0000)) == CopyPastEnd(-0x8000_0000)
    ensures ParseOptionalData(U32ToBytes(0x8000_0000)) == Err(Truncated)
  {
    var opt := U32ToBytes(0x8000_0000);
    U32RoundTrip(0x8000_0000);
    assert opt[..4] == opt;
  }
}
