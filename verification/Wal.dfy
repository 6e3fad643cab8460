/** The write-ahead log file (crates/adb-storage/src/wal.rs).

    file: "ADBWAL01" then records; record: payload length, CRC, payload. The bincode
    serializer and the CRC are parameters: all that is assumed of them is that decoding undoes
    encoding and that no entry encodes to nothing. */
module Wal {
  import opened Values

  type byte = x: int | 0 <= x < 256

  type u32 = x: int | 0 <= x < 0x1_0000_0000

  const WAL_MAGIC: seq<byte> := [65, 68, 66, 87, 65, 76, 48, 49]
  const HEADER_LEN := 8
  const FRAME_HEADER_LEN := 8
  const MAX_RECORD_BYTES := 0x4000_0000

  datatype Mutation =
    | Insert(rows: seq<Row>)
    | Upsert(rows: seq<Row>)
    | Delete(keys: seq<RowKey>)

  datatype LogEntry = LogEntry(lsn: nat, mutation: Mutation)

  datatype Codec = Codec(encode: LogEntry -> seq<byte>, decode: seq<byte> -> Option<LogEntry>, crc: seq<byte> -> u32)

  ghost predicate GoodCodec(c: Codec) {
    forall e :: c.encode(e) != [] && c.decode(c.encode(e)) == Some(e)
  }

  datatype ScanResult = Scanned(entries: seq<LogEntry>, end: nat) | Corrupt

  // ---------------------------------------------------------------- encoding

  function Le32(n: u32): (b: seq<byte>)
    ensures |b| == 4
  {
    [n % 256, n / 256 % 256, n / 65536 % 256, n / 16777216]
  }

  function FromLe32(b: seq<byte>): u32
    requires |b| == 4
  {
    (b[0] as int) + 256 * (b[1] as int) + 65536 * (b[2] as int) + 16777216 * (b[3] as int)
  }

  lemma Le32Inverse(n: u32)
    ensures FromLe32(Le32(n)) == n
  {
    assert n == 256 * (n / 256) + n % 256;
    assert n / 256 == 256 * (n / 65536) + n / 256 % 256;
    assert n / 65536 == 256 * (n / 16777216) + n / 65536 % 256;
  }

  /** The length field is `payload.len() as u32`: longer payloads lose their high bits. */
  function FrameOf(crc: u32, payload: seq<byte>): seq<byte> {
    Le32(|payload| % 0x1_0000_0000) + Le32(crc) + payload
  }

  function Frame(c: Codec, e: LogEntry): (f: seq<byte>)
    ensures |f| == FRAME_HEADER_LEN + |c.encode(e)|
  {
    FrameOf(c.crc(c.encode(e)), c.encode(e))
  }

  function Frames(c: Codec, es: seq<LogEntry>): seq<byte> {
    if es == [] then [] else Frames(c, es[..|es| - 1]) + Frame(c, es[|es| - 1])
  }

  function EncodeLog(c: Codec, es: seq<LogEntry>): (b: seq<byte>)
    ensures |b| >= HEADER_LEN
  {
    WAL_MAGIC + Frames(c, es)
  }

  /** Entries `append` accepts and the length field can describe. */
  ghost predicate Fits(c: Codec, e: LogEntry) { 0 < |c.encode(e)| <= MAX_RECORD_BYTES }

  ghost predicate AllFit(c: Codec, es: seq<LogEntry>) { forall i :: 0 <= i < |es| ==> Fits(c, es[i]) }

  // ---------------------------------------------------------------- scanning

  datatype FrameView = Torn | Bad | Good(entry: LogEntry, size: nat)

  /** Reads the frame at the start of `rest`, which runs to the end of the file: intact, torn off
      at the end of the file, or corrupt before it. */
  function ReadFrame(c: Codec, rest: seq<byte>): (v: FrameView)
    ensures v.Good? ==> 0 < v.size <= |rest|
  {
    if |rest| < FRAME_HEADER_LEN then Torn
    else
      var len := FromLe32(rest[0..4]);
      var crc := FromLe32(rest[4..8]);
      if len == 0 || len > MAX_RECORD_BYTES then Torn
      else
        var size := FRAME_HEADER_LEN + len;
        if size > |rest| then Torn
        else
          var payload := rest[FRAME_HEADER_LEN..size];
          var isLast := size == |rest|;
          if c.crc(payload) != crc then if isLast then Torn else Bad
          else match c.decode(payload)
            case Some(e) => Good(e, size)
            case None => if isLast then Torn else Bad
  }

  function Prepend(es: seq<LogEntry>, size: nat, r: ScanResult): ScanResult {
    match r case Scanned(more, end) => Scanned(es + more, size + end) case Corrupt => Corrupt
  }

  /** The intact records of `rest` and how many bytes they take. */
  function ScanRest(c: Codec, rest: seq<byte>): ScanResult {
    match ReadFrame(c, rest)
    case Torn => Scanned([], 0)
    case Bad => Corrupt
    case Good(e, size) => Prepend([e], size, ScanRest(c, rest[size..]))
  }

  function ScanLog(c: Codec, file: seq<byte>): ScanResult {
    if |file| < HEADER_LEN || file[..HEADER_LEN] != WAL_MAGIC then Corrupt
    else Prepend([], HEADER_LEN, ScanRest(c, file[HEADER_LEN..]))
  }

  /** The scan loop: collects intact records and the offset where the first unusable byte begins. */
  method Scan(c: Codec, file: seq<byte>) returns (r: ScanResult)
    ensures r == ScanLog(c, file)
  {
    hide ScanLog, ScanRest, ReadFrame, Prepend;
    ScanStart(c, file);
    if |file| < HEADER_LEN || file[..HEADER_LEN] != WAL_MAGIC {
      return Corrupt;
    }
    var entries: seq<LogEntry> := [];
    var offset := HEADER_LEN;
    hide *;
    while true
      invariant HEADER_LEN <= offset <= |file|
      invariant ScanLog(c, file) == Prepend(entries, offset, ScanRest(c, file[offset..]))
      decreases |file| - offset
    {
      ScanStep(c, file, entries, offset);
      var frame := ReadFrame(c, file[offset..]);
      match frame
      case Torn => return Scanned(entries, offset);
      case Bad => return Corrupt;
      case Good(entry, size) => entries, offset := entries + [entry], offset + size;
    }
  }

  lemma ScanStart(c: Codec, file: seq<byte>)
    ensures ScanLog(c, file) ==
            if |file| < HEADER_LEN || file[..HEADER_LEN] != WAL_MAGIC then Corrupt
            else Prepend([], HEADER_LEN, ScanRest(c, file[HEADER_LEN..]))
  {
    hide Prepend, ScanRest;
  }

  /** What the frame at an offset adds to a scan. */
  lemma ScanStep(c: Codec, file: seq<byte>, es: seq<LogEntry>, offset: nat)
    requires offset <= |file|
    ensures var r := Prepend(es, offset, ScanRest(c, file[offset..]));
            match ReadFrame(c, file[offset..])
            case Torn => r == Scanned(es, offset)
            case Bad => r == Corrupt
            case Good(e, size) =>
              offset + size <= |file| && r == Prepend(es + [e], offset + size, ScanRest(c, file[offset + size..]))
  {
    match ReadFrame(c, file[offset..])
    case Torn => assert es + [] == es;
    case Bad =>
    case Good(e, size) =>
      assert file[offset..][size..] == file[offset + size..];
      PrependTwice(es, offset, e, size, ScanRest(c, file[offset + size..]));
  }

  lemma PrependTwice(es: seq<LogEntry>, off: nat, e: LogEntry, size: nat, r: ScanResult)
    ensures Prepend(es, off, Prepend([e], size, r)) == Prepend(es + [e], off + size, r)
  {
    if r.Scanned? {
      assert es + ([e] + r.entries) == es + [e] + r.entries;
    }
  }

  // ---------------------------------------------------------------- a scan of whole and torn frames

  lemma FrameParts(crc: u32, payload: seq<byte>, more: seq<byte>)
    ensures var f := FrameOf(crc, payload) + more;
            f[0..4] == Le32(|payload| % 0x1_0000_0000) && f[4..8] == Le32(crc) && f[8..8 + |payload|] == payload
  {
  }

  lemma ReadWhole(c: Codec, e: LogEntry, more: seq<byte>)
    requires GoodCodec(c) && Fits(c, e)
    ensures ReadFrame(c, Frame(c, e) + more) == Good(e, |Frame(c, e)|)
  {
    hide FromLe32, Le32, FrameOf;
    var payload := c.encode(e);
    FrameParts(c.crc(payload), payload, more);
    Le32Inverse(|payload|);
    Le32Inverse(c.crc(payload));
  }

  lemma ReadTorn(c: Codec, e: LogEntry, cut: nat)
    requires Fits(c, e) && cut < |Frame(c, e)|
    ensures ReadFrame(c, Frame(c, e)[..cut]) == Torn
  {
    if cut >= FRAME_HEADER_LEN {
      var payload := c.encode(e);
      FrameParts(c.crc(payload), payload, []);
      assert Frame(c, e)[..cut][0..4] == Le32(|payload|);
      Le32Inverse(|payload|);
    }
  }

  /** Whole frames scan to their entries, whatever follows them. */
  lemma {:induction false} ScanPast(c: Codec, es: seq<LogEntry>, rest: seq<byte>)
    requires GoodCodec(c) && AllFit(c, es)
    ensures ScanRest(c, Frames(c, es) + rest) == Prepend(es, |Frames(c, es)|, ScanRest(c, rest))
    decreases |es|
  {
    if es == [] {
      assert Frames(c, es) + rest == rest;
      PrependNothing(ScanRest(c, rest));
      hide ScanRest, GoodCodec;
    } else {
      FramesHead(c, es);
      assert [es[0]] + es[1..] == es;
      hide Frame, Frames, ScanRest, GoodCodec, ReadFrame, Fits;
      Associate(Frame(c, es[0]), Frames(c, es[1..]), rest);
      ScanHead(c, es[0], Frames(c, es[1..]) + rest);
      ScanPast(c, es[1..], rest);
      PrependMore(es[0], |Frame(c, es[0])|, es[1..], |Frames(c, es[1..])|, ScanRest(c, rest));
    }
  }

  lemma PrependNothing(r: ScanResult)
    ensures Prepend([], 0, r) == r
  {
    if r.Scanned? {
      assert [] + r.entries == r.entries;
    }
  }

  lemma PrependMore(e: LogEntry, size: nat, es: seq<LogEntry>, more: nat, r: ScanResult)
    ensures Prepend([e], size, Prepend(es, more, r)) == Prepend([e] + es, size + more, r)
  {
    if r.Scanned? {
      assert [e] + (es + r.entries) == [e] + es + r.entries;
    }
  }

  lemma ScanHead(c: Codec, e: LogEntry, rest: seq<byte>)
    requires GoodCodec(c) && Fits(c, e)
    ensures ScanRest(c, Frame(c, e) + rest) == Prepend([e], |Frame(c, e)|, ScanRest(c, rest))
  {
    ReadWhole(c, e, rest);
    assert (Frame(c, e) + rest)[|Frame(c, e)|..] == rest;
  }

  lemma ScanPastLog(c: Codec, es: seq<LogEntry>, rest: seq<byte>)
    requires GoodCodec(c) && AllFit(c, es)
    ensures ScanLog(c, EncodeLog(c, es) + rest) == Prepend(es, |EncodeLog(c, es)|, ScanRest(c, rest))
  {
    var file := EncodeLog(c, es) + rest;
    assert file[..HEADER_LEN] == WAL_MAGIC && file[HEADER_LEN..] == Frames(c, es) + rest;
    ScanPast(c, es, rest);
    hide ScanRest, Frames, GoodCodec;
    if ScanRest(c, rest).Scanned? {
      assert [] + (es + ScanRest(c, rest).entries) == es + ScanRest(c, rest).entries;
    }
  }

  lemma ScanTornLog(c: Codec, es: seq<LogEntry>, torn: seq<byte>)
    requires GoodCodec(c) && AllFit(c, es) && ReadFrame(c, torn) == Torn
    ensures ScanLog(c, EncodeLog(c, es) + torn) == Scanned(es, |EncodeLog(c, es)|)
  {
    ScanPastLog(c, es, torn);
    assert es + [] == es;
    hide ReadFrame, EncodeLog, GoodCodec, ScanLog;
  }

  /** A log scans to exactly the entries written to it. */
  lemma ScanEncoded(c: Codec, es: seq<LogEntry>)
    requires GoodCodec(c) && AllFit(c, es)
    ensures ScanLog(c, EncodeLog(c, es)) == Scanned(es, |EncodeLog(c, es)|)
  {
    ScanTornLog(c, es, []);
    assert EncodeLog(c, es) + [] == EncodeLog(c, es);
  }

  /** An interrupted append is invisible: the scan returns the entries before it and where they end. */
  lemma ScanInterrupted(c: Codec, es: seq<LogEntry>, e: LogEntry, cut: nat)
    requires GoodCodec(c) && AllFit(c, es) && Fits(c, e) && cut < |Frame(c, e)|
    ensures ScanLog(c, EncodeLog(c, es) + Frame(c, e)[..cut]) == Scanned(es, |EncodeLog(c, es)|)
  {
    ReadTorn(c, e, cut);
    ScanTornLog(c, es, Frame(c, e)[..cut]);
  }

  lemma {:induction false} FramesHead(c: Codec, es: seq<LogEntry>)
    requires es != []
    ensures Frames(c, es) == Frame(c, es[0]) + Frames(c, es[1..])
  {
    var n := |es| - 1;
    if n > 0 {
      FramesHead(c, es[..n]);
      assert es[1..][..n - 1] == es[..n][1..];
      assert Frames(c, es[1..]) == Frames(c, es[..n][1..]) + Frame(c, es[n]);
    }
  }

  // ---------------------------------------------------------------- torn logs

  /** How many leading entries lie wholly within the first `cut` bytes of the encoded log. */
  function Whole(c: Codec, es: seq<LogEntry>, cut: nat): (k: nat)
    ensures k <= |es|
  {
    if es == [] then 0
    else if |EncodeLog(c, es)| <= cut then |es|
    else Whole(c, es[..|es| - 1], cut)
  }

  lemma {:induction false} WholeIsLongest(c: Codec, es: seq<LogEntry>, cut: nat)
    requires HEADER_LEN <= cut <= |EncodeLog(c, es)|
    ensures var k := Whole(c, es, cut);
            && |EncodeLog(c, es[..k])| <= cut
            && EncodeLog(c, es[..k]) <= EncodeLog(c, es)
            && (k < |es| ==> cut < |EncodeLog(c, es[..k + 1])| && EncodeLog(c, es[..k + 1]) <= EncodeLog(c, es))
  {
    assert es[..|es|] == es;
    if es != [] && cut < |EncodeLog(c, es)| {
      var n := |es| - 1;
      var k := Whole(c, es, cut);
      if cut < |EncodeLog(c, es[..n])| {
        WholeIsLongest(c, es[..n], cut);
        assert es[..n][..k] == es[..k];
        assert k < n ==> es[..n][..k + 1] == es[..k + 1];
      } else {
        assert es[..n][..n] == es[..n];
      }
    }
  }

  lemma CutParts(c: Codec, es: seq<LogEntry>, cut: nat)
    requires HEADER_LEN <= cut < |EncodeLog(c, es)|
    ensures var k := Whole(c, es, cut);
            && k < |es| && |EncodeLog(c, es[..k])| <= cut < |EncodeLog(c, es[..k])| + |Frame(c, es[k])|
            && EncodeLog(c, es)[..cut] == EncodeLog(c, es[..k]) + Frame(c, es[k])[..cut - |EncodeLog(c, es[..k])|]
  {
    WholeIsLongest(c, es, cut);
    var k := Whole(c, es, cut);
    assert es[..|es|] == es;
    assert es[..k] + [es[k]] == es[..k + 1];
    AppendEncoded(c, es[..k], es[k]);
    hide *;
    CutPrefix(EncodeLog(c, es), EncodeLog(c, es[..k]), Frame(c, es[k]), cut);
  }

  lemma CutPrefix(whole: seq<byte>, a: seq<byte>, f: seq<byte>, cut: nat)
    requires a + f <= whole && |a| <= cut < |a| + |f|
    ensures whole[..cut] == a + f[..cut - |a|]
  {
    assert whole[..cut] == (a + f)[..cut];
  }

  /** Every cut of a log at or after its header scans to exactly the wholly written entries. */
  lemma ScanCut(c: Codec, es: seq<LogEntry>, cut: nat)
    requires GoodCodec(c) && AllFit(c, es) && HEADER_LEN <= cut <= |EncodeLog(c, es)|
    ensures var k := Whole(c, es, cut);
            ScanLog(c, EncodeLog(c, es)[..cut]) == Scanned(es[..k], |EncodeLog(c, es[..k])|)
  {
    var k := Whole(c, es, cut);
    if cut < |EncodeLog(c, es)| {
      CutParts(c, es, cut);
      ScanInterrupted(c, es[..k], es[k], cut - |EncodeLog(c, es[..k])|);
    } else {
      assert es[..k] == es && EncodeLog(c, es)[..cut] == EncodeLog(c, es);
      ScanEncoded(c, es);
    }
  }

  lemma NothingEndsAtZero(c: Codec, rest: seq<byte>)
    requires ScanRest(c, rest).Scanned? && ScanRest(c, rest).entries == []
    ensures ScanRest(c, rest).end == 0
  {
    hide ReadFrame;
  }

  lemma FrameFits(c: Codec, e: LogEntry)
    requires ScanRest(c, Frame(c, e)) == Scanned([e], |Frame(c, e)|)
    ensures Fits(c, e)
  {
    var payload, rest := c.encode(e), Frame(c, e);
    FrameParts(c.crc(payload), payload, []);
    assert rest + [] == rest;
    Le32Inverse(|payload| % 0x1_0000_0000);
    match ReadFrame(c, rest)
    case Torn =>
    case Bad =>
    case Good(e', size) =>
      var r := ScanRest(c, rest[size..]);
      assert r.Scanned? && [e'] + r.entries == [e];
      assert |[e'] + r.entries| == 1 + |r.entries|;
      NothingEndsAtZero(c, rest[size..]);
  }

  lemma ReadableFits(c: Codec, es: seq<LogEntry>, e: LogEntry, r: ScanResult)
    requires r == ScanRest(c, Frame(c, e))
    requires Prepend(es, |EncodeLog(c, es)|, r) == Scanned(es + [e], |EncodeLog(c, es)| + |Frame(c, e)|)
    ensures Fits(c, e)
  {
    hide ScanRest, Frame, EncodeLog, Fits;
    assert r.entries == (es + r.entries)[|es|..] == (es + [e])[|es|..] == [e];
    FrameFits(c, e);
  }

  /** A record of at most 2^30 bytes. */
  predicate Small(c: Codec, e: LogEntry) { |c.encode(e)| <= 0x4000_0000 }

  /** Small records are exactly those that can be read after they were appended, and the size check accepts them;
      it accepts no others whose length fits the length field. */
  lemma AcceptsExactly(c: Codec, es: seq<LogEntry>, e: LogEntry)
    requires GoodCodec(c) && AllFit(c, es)
    ensures ScanLog(c, EncodeLog(c, es) + Frame(c, e)) == Scanned(es + [e], |EncodeLog(c, es + [e])|) <==> Small(c, e)
    ensures Small(c, e) ==> Accepts(c, e)
    ensures |c.encode(e)| < 0x1_0000_0000 ==> (Accepts(c, e) <==> Small(c, e))
  {
    AcceptsSmall(c, e);
    assert Fits(c, e) <==> Small(c, e);
    hide *;
    AppendFits(c, es, e);
  }

  lemma AcceptsSmall(c: Codec, e: LogEntry)
    ensures Small(c, e) ==> Accepts(c, e)
    ensures |c.encode(e)| < 0x1_0000_0000 ==> (Accepts(c, e) <==> Small(c, e))
  {
  }

  lemma AppendFits(c: Codec, es: seq<LogEntry>, e: LogEntry)
    requires GoodCodec(c) && AllFit(c, es)
    ensures ScanLog(c, EncodeLog(c, es) + Frame(c, e)) == Scanned(es + [e], |EncodeLog(c, es + [e])|) <==> Fits(c, e)
  {
    AppendEncoded(c, es, e);
    ScanPastLog(c, es, Frame(c, e));
    var r := ScanRest(c, Frame(c, e));
    if Fits(c, e) {
      ScanEncoded(c, es + [e]);
    }
    hide ScanLog, EncodeLog, Frame, ScanRest, GoodCodec;
    if Prepend(es, |EncodeLog(c, es)|, r) == Scanned(es + [e], |EncodeLog(c, es)| + |Frame(c, e)|) {
      ReadableFits(c, es, e, r);
    }
  }

  /** Appending a record the size check accepts makes it readable exactly when its length is at most 2^30, and
      not only its length modulo 2^32, which is what the check looks at and the frame records. */
  lemma AppendReadable(c: Codec, es: seq<LogEntry>, e: LogEntry)
    requires GoodCodec(c) && AllFit(c, es) && Accepts(c, e)
    ensures ScanLog(c, EncodeLog(c, es) + Frame(c, e)) == Scanned(es + [e], |EncodeLog(c, es + [e])|) <==> Fits(c, e)
  {
    AppendFits(c, es, e);
  }

  /** For example, a payload whose length is a multiple of 2^32 is accepted, acknowledged and then lost: the
      length field reads zero, which the scan takes for a torn tail. */
  lemma OversizedRecordIsLost(c: Codec, es: seq<LogEntry>, e: LogEntry)
    requires GoodCodec(c) && AllFit(c, es) && |c.encode(e)| % 0x1_0000_0000 == 0
    ensures Accepts(c, e)
    ensures ScanLog(c, EncodeLog(c, es) + Frame(c, e)) == Scanned(es, |EncodeLog(c, es)|)
  {
    var payload := c.encode(e);
    FrameParts(c.crc(payload), payload, []);
    assert Frame(c, e) + [] == Frame(c, e);
    Le32Inverse(0);
    ScanTornLog(c, es, Frame(c, e));
  }

  // ---------------------------------------------------------------- damage

  lemma ReadStored(c: Codec, crc: u32, payload: seq<byte>, rest: seq<byte>)
    requires |payload| < 0x1_0000_0000
    ensures var f := FrameOf(crc, payload);
            ReadFrame(c, f + rest) ==
            if |payload| == 0 || |payload| > 0x4000_0000 then Torn
            else if c.crc(payload) == crc && c.decode(payload).Some? then Good(c.decode(payload).value, |f|)
            else if rest == [] then Torn else Bad
  {
    FrameParts(crc, payload, rest);
    Le32Inverse(|payload|);
    Le32Inverse(crc);
    assert |FrameOf(crc, payload)| == FRAME_HEADER_LEN + |payload|;
    hide FromLe32, Le32, FrameOf;
  }

  /** After a log, a stored frame is taken over exactly when its length is in range, its checksum is right and its
      payload decodes; otherwise it ends the log when it is the last or its length is out of range, and is reported
      as damage when more follows. */
  lemma StoredExactly(c: Codec, es: seq<LogEntry>, crc: u32, payload: seq<byte>, rest: seq<byte>)
    requires GoodCodec(c) && AllFit(c, es) && |payload| < 0x1_0000_0000
    ensures var file := EncodeLog(c, es) + (FrameOf(crc, payload) + rest);
            if |payload| == 0 || |payload| > 0x4000_0000 then ScanLog(c, file) == Scanned(es, |EncodeLog(c, es)|)
            else if c.crc(payload) == crc && c.decode(payload).Some? then
              ScanLog(c, file) ==
              Prepend(es + [c.decode(payload).value], |EncodeLog(c, es)| + |FrameOf(crc, payload)|, ScanRest(c, rest))
            else ScanLog(c, file) == if rest == [] then Scanned(es, |EncodeLog(c, es)|) else Corrupt
  {
    var f := FrameOf(crc, payload);
    ReadStored(c, crc, payload, rest);
    ScanPastLog(c, es, f + rest);
    assert es + [] == es;
    if ReadFrame(c, f + rest).Good? {
      assert (f + rest)[|f|..] == rest;
      var r := ScanRest(c, rest);
      assert ScanRest(c, f + rest) == Prepend([c.decode(payload).value], |f|, r);
      if r.Scanned? {
        Associate(es, [c.decode(payload).value], r.entries);
      }
    }
    hide ReadFrame, EncodeLog, FrameOf, GoodCodec, ScanLog;
  }

  // ---------------------------------------------------------------- scanning what was scanned

  lemma ReadPrefix(c: Codec, rest: seq<byte>, cut: nat)
    requires ReadFrame(c, rest).Good? && ReadFrame(c, rest).size <= cut <= |rest|
    ensures ReadFrame(c, rest[..cut]) == ReadFrame(c, rest)
  {
    var size := ReadFrame(c, rest).size;
    assert rest[..cut][0..4] == rest[0..4] && rest[..cut][4..8] == rest[4..8];
    assert rest[..cut][FRAME_HEADER_LEN..size] == rest[FRAME_HEADER_LEN..size];
    hide FromLe32;
  }

  lemma {:induction false} ScanPrefix(c: Codec, rest: seq<byte>)
    requires ScanRest(c, rest).Scanned?
    ensures ScanRest(c, rest).end <= |rest|
    ensures ScanRest(c, rest[..ScanRest(c, rest).end]) == ScanRest(c, rest)
    decreases |rest|
  {
    var end := ScanRest(c, rest).end;
    match ReadFrame(c, rest)
    case Torn => assert ReadFrame(c, rest[..0]) == Torn;
    case Bad =>
    case Good(e, size) =>
      ScanPrefix(c, rest[size..]);
      ReadPrefix(c, rest, end);
      assert rest[..end][size..] == rest[size..][..end - size];
      hide ReadFrame;
  }

  /** Once the torn tail of any file is cut off, scanning the file gives the same entries again. */
  lemma ScanAgain(c: Codec, file: seq<byte>)
    requires ScanLog(c, file).Scanned?
    ensures ScanLog(c, file).end <= |file|
    ensures ScanLog(c, file[..ScanLog(c, file).end]) == ScanLog(c, file)
  {
    var rest := file[HEADER_LEN..];
    ScanPrefix(c, rest);
    var end := ScanRest(c, rest).end;
    assert file[..HEADER_LEN + end][HEADER_LEN..] == rest[..end];
    assert file[..HEADER_LEN + end][..HEADER_LEN] == file[..HEADER_LEN];
    hide ScanRest;
  }

  // ---------------------------------------------------------------- checkpoint truncation

  /** The size check of `append`, on the truncated length. */
  predicate Accepts(c: Codec, e: LogEntry) { |c.encode(e)| % 0x1_0000_0000 <= MAX_RECORD_BYTES }

  /** Entries with an LSN above `n`, in log order. */
  function Above(es: seq<LogEntry>, n: nat): (r: seq<LogEntry>)
    ensures forall e :: e in r <==> e in es && e.lsn > n
  {
    if es == [] then []
    else Above(es[..|es| - 1], n) + (if es[|es| - 1].lsn > n then [es[|es| - 1]] else [])
  }

  function TruncatePrefix(c: Codec, file: seq<byte>, n: nat): Option<seq<byte>> {
    match ScanLog(c, file)
    case Scanned(es, _) => Some(EncodeLog(c, Above(es, n)))
    case Corrupt => None
  }

  /** After a truncation the log scans to exactly the entries above `n`. */
  lemma TruncateKeepsAbove(c: Codec, es: seq<LogEntry>, n: nat)
    requires GoodCodec(c) && AllFit(c, es)
    ensures TruncatePrefix(c, EncodeLog(c, es), n) == Some(EncodeLog(c, Above(es, n)))
    ensures AllFit(c, Above(es, n))
    ensures ScanLog(c, EncodeLog(c, Above(es, n))) == Scanned(Above(es, n), |EncodeLog(c, Above(es, n))|)
  {
    ScanEncoded(c, es);
    forall i | 0 <= i < |Above(es, n)|
      ensures Fits(c, Above(es, n)[i])
    {
      assert Above(es, n)[i] in Above(es, n);
    }
    ScanEncoded(c, Above(es, n));
  }

  ghost predicate Increasing(es: seq<LogEntry>) {
    forall i, j :: 0 <= i < j < |es| ==> es[i].lsn < es[j].lsn
  }

  lemma {:induction false} AboveIncreasing(es: seq<LogEntry>, n: nat)
    requires Increasing(es)
    ensures Increasing(Above(es, n))
  {
    if es != [] {
      var init := es[..|es| - 1];
      AboveIncreasing(init, n);
      var r := Above(init, n);
      assert forall i :: 0 <= i < |r| ==> r[i] in r;
    }
  }

  lemma AppendEncoded(c: Codec, es: seq<LogEntry>, e: LogEntry)
    ensures EncodeLog(c, es + [e]) == EncodeLog(c, es) + Frame(c, e)
  {
    assert (es + [e])[..|es|] == es;
  }
}
