/** The open log: LSN assignment, append, checkpoint truncation, reopening
    (crates/adb-storage/src/wal.rs: FileLogStore). */
module LogStore {
  import opened Values
  import opened Wal

  /** The bytes hold a log whose LSNs increase and stay below `next`. */
  ghost predicate WellFormed(c: Codec, file: seq<byte>, es: seq<LogEntry>, next: nat) {
    && GoodCodec(c) && AllFit(c, es) && file == EncodeLog(c, es)
    && Increasing(es) && forall i :: 0 <= i < |es| ==> es[i].lsn < next
  }

  function NewestLsn(es: seq<LogEntry>): nat { if es == [] then 0 else es[|es| - 1].lsn }

  class FileLogStore {
    const codec: Codec
    var file: seq<byte>
    var nextLsn: nat
    var lastLsn: nat
    /** The entries the file holds. */
    ghost var entries: seq<LogEntry>

    ghost predicate Valid()
      reads this
    {
      WellFormed(codec, file, entries, nextLsn) && lastLsn < nextLsn
    }

    constructor (c: Codec, bytes: seq<byte>, last: nat, ghost es: seq<LogEntry>)
      ensures codec == c && file == bytes && nextLsn == last + 1 && lastLsn == last && entries == es
    {
      codec, file, nextLsn, lastLsn, entries := c, bytes, last + 1, last, es;
    }

    /** Opens a log, creating it if absent and dropping a torn tail; null on corruption. */
    static method Open(c: Codec, bytes: seq<byte>)
      returns (store: FileLogStore?, recovered: seq<LogEntry>, truncatedBytes: nat)
      ensures var file := if bytes == [] then WAL_MAGIC else bytes;
              match ScanLog(c, file)
              case Corrupt => store == null
              case Scanned(es, end) =>
                && store != null && fresh(store) && recovered == es == store.entries
                && end <= |file| && truncatedBytes == |file| - end && store.file == file[..end]
                && store.codec == c && store.nextLsn == store.lastLsn + 1
                && store.lastLsn == NewestLsn(es)
    {
      var file := if bytes == [] then WAL_MAGIC else bytes;
      var scan := Scan(c, file);
      if scan.Corrupt? {
        return null, [], 0;
      }
      ScanEndInFile(c, file);
      recovered := scan.entries;
      truncatedBytes := |file| - scan.end;
      store := new FileLogStore(c, file[..scan.end], NewestLsn(recovered), recovered);
    }

    /** The next LSN is at least `lsn + 1`, needed when the manifest is ahead of a truncated log. */
    method AdvanceTo(lsn: nat)
      modifies this`nextLsn, this`lastLsn
      ensures nextLsn == Max(old(nextLsn), lsn + 1) && lastLsn == Max(old(lastLsn), lsn)
      ensures old(Valid()) ==> Valid() && nextLsn > lsn
    {
      nextLsn := Max(nextLsn, lsn + 1);
      lastLsn := Max(lastLsn, lsn);
    }

    /** Appends a record under the next LSN, if it has at most 2^30 bytes. A refused record still uses up its LSN. */
    method Append(m: Mutation) returns (lsn: Option<nat>)
      requires Valid()
      requires |codec.encode(LogEntry(nextLsn, m))| < 0x1_0000_0000
      modifies this
      ensures Valid() && nextLsn == old(nextLsn) + 1
      ensures var e := LogEntry(old(nextLsn), m);
              if Small(codec, e)
              then lsn == Some(e.lsn) && entries == old(entries) + [e] && file == old(file) + Frame(codec, e)
              else lsn == None && entries == old(entries) && file == old(file)
    {
      hide *;
      Spelt();
      var e := LogEntry(nextLsn, m);
      nextLsn := nextLsn + 1;
      AcceptsSmall(codec, e);
      if !Accepts(codec, e) {
        Intact();
        return None;
      }
      AppendWellFormed(codec, file, entries, e);
      file := file + Frame(codec, e);
      entries := entries + [e];
      MaxOfNewer(lastLsn, e.lsn);
      lastLsn := Max(lastLsn, e.lsn);
      Intact();
      lsn := Some(e.lsn);
    }

    lemma Spelt()
      requires Valid()
      ensures WellFormed(codec, file, entries, nextLsn) && WellFormed(codec, file, entries, nextLsn + 1)
      ensures lastLsn < nextLsn
    {
    }

    lemma Intact()
      requires WellFormed(codec, file, entries, nextLsn) && lastLsn < nextLsn
      ensures Valid()
    {
    }

    /** Drops every entry with an LSN up to `n`; LSNs already given out are not reused. */
    method Truncate(n: nat)
      requires Valid()
      modifies this
      ensures Valid() && nextLsn == old(nextLsn)
      ensures lastLsn == old(lastLsn) && entries == Above(old(entries), n)
    {
      TruncateWellFormed(codec, file, entries, nextLsn, n);
      var buf := Rewritten(codec, file, entries, n);
      file, entries := buf, Above(entries, n);
    }
  }

  lemma MaxOfNewer(a: nat, b: nat)
    requires a < b
    ensures Max(a, b) == b
  {
  }

  lemma AppendWellFormed(c: Codec, file: seq<byte>, es: seq<LogEntry>, e: LogEntry)
    requires WellFormed(c, file, es, e.lsn) && Accepts(c, e) && |c.encode(e)| < 0x1_0000_0000
    ensures WellFormed(c, file + Frame(c, e), es + [e], e.lsn + 1)
  {
    AppendEncoded(c, es, e);
  }

  /** Re-encodes the records above `n`. */
  method Rewritten(c: Codec, file: seq<byte>, ghost es: seq<LogEntry>, n: nat) returns (buf: seq<byte>)
    requires ScanLog(c, file) == Scanned(es, |file|)
    ensures buf == EncodeLog(c, Above(es, n))
  {
    var scan := Scan(c, file);
    buf := Encode(c, Above(scan.entries, n));
  }

  lemma TruncateWellFormed(c: Codec, file: seq<byte>, es: seq<LogEntry>, next: nat, n: nat)
    requires WellFormed(c, file, es, next)
    ensures ScanLog(c, file) == Scanned(es, |file|)
    ensures TruncatePrefix(c, file, n) == Some(EncodeLog(c, Above(es, n)))
    ensures WellFormed(c, EncodeLog(c, Above(es, n)), Above(es, n), next)
  {
    ScanEncoded(c, es);
    TruncateKeepsAbove(c, es, n);
    AboveIncreasing(es, n);
  }

  /** Writes the header and every record. */
  method Encode(c: Codec, es: seq<LogEntry>) returns (buf: seq<byte>)
    ensures buf == EncodeLog(c, es)
  {
    buf := WAL_MAGIC;
    for i := 0 to |es|
      invariant buf == EncodeLog(c, es[..i])
    {
      AppendEncoded(c, es[..i], es[i]);
      assert es[..i] + [es[i]] == es[..i + 1];
      buf := buf + Frame(c, es[i]);
    }
    assert es[..|es|] == es;
  }

  lemma {:induction false} ScanRestInFile(c: Codec, rest: seq<byte>)
    ensures var r := ScanRest(c, rest); r.Scanned? ==> r.end <= |rest|
    decreases |rest|
  {
    match ReadFrame(c, rest)
    case Good(e, size) => ScanRestInFile(c, rest[size..]);
    case _ =>
  }

  lemma ScanEndInFile(c: Codec, file: seq<byte>)
    ensures var r := ScanLog(c, file); r.Scanned? ==> r.end <= |file|
  {
    if |file| >= HEADER_LEN {
      ScanRestInFile(c, file[HEADER_LEN..]);
    }
  }

  lemma PrefixWellFormed(c: Codec, es: seq<LogEntry>, next: nat, k: nat)
    requires WellFormed(c, EncodeLog(c, es), es, next) && k <= |es|
    ensures WellFormed(c, EncodeLog(c, es[..k]), es[..k], NewestLsn(es[..k]) + 1) && NewestLsn(es[..k]) < Max(1, next)
  {
    assert k > 0 ==> NewestLsn(es[..k]) == es[k - 1].lsn;
    hide EncodeLog, GoodCodec, Fits;
  }

  /** Reopening any cut of a well-formed log gives a well-formed log of its whole entries, whose
      next LSN is above every one of them. */
  lemma ReopenWellFormed(c: Codec, es: seq<LogEntry>, next: nat, cut: nat)
    requires WellFormed(c, EncodeLog(c, es), es, next) && HEADER_LEN <= cut <= |EncodeLog(c, es)|
    ensures var r := ScanLog(c, EncodeLog(c, es)[..cut]);
            && r.Scanned? && r.end <= cut
            && WellFormed(c, EncodeLog(c, es)[..cut][..r.end], r.entries, NewestLsn(r.entries) + 1)
            && NewestLsn(r.entries) < Max(1, next)
  {
    assert GoodCodec(c) && AllFit(c, es);
    hide *;
    ScanCut(c, es, cut);
    var k := Whole(c, es, cut);
    WholeIsLongest(c, es, cut);
    PrefixWellFormed(c, es, next, k);
    assert EncodeLog(c, es)[..cut][..|EncodeLog(c, es[..k])|] == EncodeLog(c, es[..k]);
  }
}
