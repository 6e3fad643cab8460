/** Base64 as the manifest embeds binary data in it (crates/adb-storage/src/b64.rs; section 4 of RFC 4648). */
module Base64 {
  import opened Values
  import opened Wal

  type sextet = x: int | 0 <= x < 64

  /** The alphabet: upper case, lower case, digits, plus, slash. */
  function Letter(v: sextet): char {
    if v < 26 then ('A' as int + v) as char
    else if v < 52 then ('a' as int + v - 26) as char
    else if v < 62 then ('0' as int + v - 52) as char
    else if v == 62 then '+'
    else '/'
  }

  function DecodeChar(c: char): (v: Option<sextet>)
    ensures v.Some? ==> Letter(v.value) == c
  {
    if 'A' <= c <= 'Z' then Some(c as int - 'A' as int)
    else if 'a' <= c <= 'z' then Some(c as int - 'a' as int + 26)
    else if '0' <= c <= '9' then Some(c as int - '0' as int + 52)
    else if c == '+' then Some(62)
    else if c == '/' then Some(63)
    else None
  }

  /** Up to three bytes as one 24-bit number; missing bytes read as zero. */
  function Word(chunk: seq<byte>): int
    requires 1 <= |chunk| <= 3
  {
    (chunk[0] as int) * 65536 + (if |chunk| > 1 then chunk[1] as int else 0) * 256
      + (if |chunk| > 2 then chunk[2] as int else 0)
  }

  function Digit(n: int, unit: int): char
    requires 0 <= n && unit > 0
  {
    Letter(n / unit % 64)
  }

  function EncodeChunk(chunk: seq<byte>): (s: string)
    requires 1 <= |chunk| <= 3
    ensures |s| == 4
  {
    var n := Word(chunk);
    [Digit(n, 262144), Digit(n, 4096), if |chunk| > 1 then Digit(n, 64) else '=', if |chunk| > 2 then Digit(n, 1)
     else '=']
  }

  function EncodeAll(b: seq<byte>): (s: string)
    ensures |s| % 4 == 0
  {
    if b == [] then "" else EncodeChunk(b[..Min(3, |b|)]) + EncodeAll(b[Min(3, |b|)..])
  }

  /** How many of the characters are padding. */
  function Padding(chunk: string): nat {
    if chunk == [] then 0 else (if chunk[0] == '=' then 1 else 0) + Padding(chunk[1..])
  }

  /** A character's value; padding reads as zero. */
  function Sextet(c: char): Option<sextet> { if c == '=' then Some(0) else DecodeChar(c) }

  /** The bytes of a 24-bit number, less one for each padding character. */
  function Truncate(n: int, pad: nat): seq<byte> {
    [n / 65536 % 256] + (if pad < 2 then [n / 256 % 256] else []) + (if pad < 1 then [n % 256] else [])
  }

  function DecodeChunk(chunk: string): Option<seq<byte>>
    requires |chunk| == 4
  {
    var pad := Padding(chunk);
    if pad > 2 || (pad > 0 && chunk[3] != '=') then None
    else
      match (Sextet(chunk[0]), Sextet(chunk[1]), Sextet(chunk[2]), Sextet(chunk[3]))
      case (Some(a), Some(b), Some(c), Some(d)) =>
        Some(Truncate((a as int) * 262144 + (b as int) * 4096 + (c as int) * 64 + (d as int), pad))
      case _ => None
  }

  function Joined(b: seq<byte>, rest: Option<seq<byte>>): Option<seq<byte>> {
    if rest.Some? then Some(b + rest.value) else None
  }

  lemma JoinNothing(rest: Option<seq<byte>>)
    ensures Joined([], rest) == rest
  {
    if rest.Some? {
      assert [] + rest.value == rest.value;
    }
  }

  lemma JoinLast(b: seq<byte>)
    ensures Joined(b, Some([])) == Some(b)
  {
    assert b + [] == b;
  }

  lemma JoinedSome(a: seq<byte>, b: seq<byte>)
    ensures Joined(a, Some(b)) == Some(a + b)
  {
  }

  lemma JoinTwice(a: seq<byte>, b: seq<byte>, rest: Option<seq<byte>>)
    ensures Joined(a, Joined(b, rest)) == Joined(a + b, rest)
  {
    if rest.Some? {
      Associate(a, b, rest.value);
    }
  }

  function DecodeAll(s: string): Option<seq<byte>> {
    if |s| % 4 != 0 then None
    else if s == "" then Some([])
    else match DecodeChunk(s[..4])
      case Some(b) => Joined(b, DecodeAll(s[4..]))
      case None => None
  }

  method Encode(input: seq<byte>) returns (out: string)
    ensures out == EncodeAll(input)
  {
    out := "";
    var i := 0;
    assert input[0..] == input;
    hide *;
    while i < |input|
      invariant i <= |input| && EncodeAll(input) == out + EncodeAll(input[i..])
    {
      var size := Min(3, |input| - i);
      assert size == if |input| - i < 3 then |input| - i else 3;
      EncodeUnfolds(input, i, size);
      Associate(out, EncodeChunk(input[i..i + size]), EncodeAll(input[i + size..]));
      out := out + EncodeChunk(input[i..i + size]);
      i := i + size;
    }
    NothingEncoded(input[i..]);
  }

  lemma EncodeUnfolds(input: seq<byte>, i: nat, size: nat)
    requires i < |input| && size == Min(3, |input| - i)
    ensures EncodeAll(input[i..]) == EncodeChunk(input[i..i + size]) + EncodeAll(input[i + size..])
  {
    hide EncodeChunk;
    assert input[i..][..size] == input[i..i + size] && input[i..][size..] == input[i + size..];
  }

  lemma NothingEncoded(input: seq<byte>)
    ensures input == [] ==> EncodeAll(input) == []
  {
  }

  /** The part of the text before `i` decodes to `out`. */
  ghost predicate DecodedTo(input: string, i: nat, out: seq<byte>) {
    i <= |input| && |input| % 4 == i % 4 == 0 && DecodeAll(input) == Joined(out, DecodeAll(input[i..]))
  }

  lemma DecodedNone(input: string)
    requires |input| % 4 == 0
    ensures DecodedTo(input, 0, [])
  {
    assert input[0..] == input;
    JoinNothing(DecodeAll(input));
    hide DecodeAll, Joined;
  }

  lemma DecodedNext(input: string, i: nat, out: seq<byte>)
    requires DecodedTo(input, i, out) && i < |input|
    ensures i + 4 <= |input|
    ensures match DecodeChunk(input[i..i + 4])
            case None => DecodeAll(input) == None
            case Some(b) => DecodedTo(input, i + 4, out + b)
  {
    DecodedSpelt(input, i, out);
    hide *;
    DecodeUnfolds(input[i..]);
    Slices(input, i);
    if DecodeChunk(input[i..i + 4]).Some? {
      var b := DecodeChunk(input[i..i + 4]).value;
      JoinTwice(out, b, DecodeAll(input[i + 4..]));
      IsDecodedTo(input, i + 4, out + b);
    } else {
      JoinFails(out);
    }
  }

  lemma DecodedSpelt(input: string, i: nat, out: seq<byte>)
    requires DecodedTo(input, i, out) && i < |input|
    ensures i + 4 <= |input| && |input[i..]| % 4 == (i + 4) % 4 == |input| % 4 == 0
    ensures DecodeAll(input) == Joined(out, DecodeAll(input[i..]))
  {
    hide DecodeAll, Joined;
  }

  lemma IsDecodedTo(input: string, i: nat, out: seq<byte>)
    requires i <= |input| && |input| % 4 == i % 4 == 0 && DecodeAll(input) == Joined(out, DecodeAll(input[i..]))
    ensures DecodedTo(input, i, out)
  {
    hide DecodeAll, Joined;
  }

  lemma JoinFails(out: seq<byte>)
    ensures Joined(out, None) == None
  {
  }

  lemma DecodeUnfolds(s: string)
    requires |s| % 4 == 0 && s != ""
    ensures |s| >= 4
    ensures DecodeAll(s) == match DecodeChunk(s[..4]) case Some(b) => Joined(b, DecodeAll(s[4..])) case None => None
  {
    hide DecodeChunk, Joined;
  }

  lemma Slices(s: string, i: nat)
    requires i + 4 <= |s|
    ensures s[i..][..4] == s[i..i + 4] && s[i..][4..] == s[i + 4..]
  {
  }

  lemma DecodedAll(input: string, out: seq<byte>)
    requires DecodedTo(input, |input|, out)
    ensures DecodeAll(input) == Some(out)
  {
    assert DecodeAll("") == Some([]);
    hide DecodeAll, Joined;
    assert input[|input|..] == "";
    JoinLast(out);
  }

  method Decode(input: string) returns (r: Option<seq<byte>>)
    ensures r == DecodeAll(input)
  {
    if |input| % 4 != 0 {
      return None;
    }
    var out: seq<byte> := [];
    var i := 0;
    DecodedNone(input);
    hide *;
    while i < |input|
      invariant i <= |input| && DecodedTo(input, i, out)
    {
      DecodedNext(input, i, out);
      match DecodeChunk(input[i..i + 4])
      case None => return None;
      case Some(b) =>
        out := out + b;
        i := i + 4;
    }
    DecodedAll(input, out);
    r := Some(out);
  }

  // ---------------------------------------------------------------- the round trip

  /** The alphabet of section 4 of RFC 4648: A to Z, a to z, 0 to 9, plus and slash, in that order. */
  lemma Alphabet(v: sextet)
    ensures Letter(0) == 'A' && Letter(25) == 'Z' && Letter(26) == 'a' && Letter(51) == 'z' && Letter(52) == '0'
            && Letter(61) == '9' && Letter(62) == '+' && Letter(63) == '/'
    ensures v != 63 && v !in {25, 51, 61, 62} ==> Letter(v + 1) as int == Letter(v) as int + 1
    ensures forall w: sextet :: Letter(v) == Letter(w) ==> v == w
  {
    forall w: sextet | Letter(v) == Letter(w)
      ensures v == w
    {
      DigitDecodes(v);
      DigitDecodes(w);
    }
  }

  /** Every digit decodes to itself, and none is the padding character. */
  lemma DigitDecodes(v: sextet)
    ensures Letter(v) != '=' && DecodeChar(Letter(v)) == Some(v)
  {
  }

  lemma WordDigits(n: int)
    requires 0 <= n < 16777216
    ensures n / 262144 < 64 && n / 262144 % 64 == n / 262144 && n / 1 % 64 == n % 64
    ensures n == n / 262144 * 262144 + n / 4096 % 64 * 4096 + n / 64 % 64 * 64 + n % 64
  {
    assert n == n / 64 * 64 + n % 64;
    assert n / 64 == n / 4096 * 64 + n / 64 % 64;
    assert n / 4096 == n / 262144 * 64 + n / 4096 % 64;
  }

  lemma WordBytes(b0: byte, b1: byte, b2: byte)
    ensures var n := (b0 as int) * 65536 + (b1 as int) * 256 + (b2 as int);
            0 <= n < 16777216 && n / 65536 % 256 == b0 && n / 256 % 256 == b1 && n % 256 == b2
  {
  }

  /** With fewer than three bytes, the digits left out are zero. */
  lemma ShortWord(b0: byte, b1: byte)
    ensures ((b0 as int) * 65536) / 64 % 64 == 0 && ((b0 as int) * 65536) % 64 == 0
    ensures ((b0 as int) * 65536 + (b1 as int) * 256) % 64 == 0
  {
  }

  lemma FourPadding(chunk: string)
    requires |chunk| == 4
    ensures Padding(chunk) ==
            (if chunk[0] == '=' then 1 else 0) + (if chunk[1] == '=' then 1 else 0)
            + (if chunk[2] == '=' then 1 else 0) + (if chunk[3] == '=' then 1 else 0)
  {
    var a, b, c, d := chunk[0], chunk[1], chunk[2], chunk[3];
    assert [d][1..] == [] && Padding([d]) == if d == '=' then 1 else 0;
    assert [c, d][1..] == [d] && chunk[1..] == [b, c, d] && [b, c, d][1..] == [c, d];
    assert Padding([b, c, d]) == (if b == '=' then 1 else 0) + Padding([c, d]);
  }

  /** The digits of a chunk, padding reading as the zero it stands for. */
  lemma ChunkSextets(chunk: seq<byte>)
    requires 1 <= |chunk| <= 3
    ensures var n, s := Word(chunk), EncodeChunk(chunk);
            && 0 <= n < 16777216 && Padding(s) == 3 - |chunk| && (Padding(s) > 0 ==> s[3] == '=')
            && Sextet(s[0]) == Some(n / 262144) && Sextet(s[1]) == Some(n / 4096 % 64)
            && Sextet(s[2]) == Some(n / 64 % 64) && Sextet(s[3]) == Some(n % 64)
  {
    var n := Word(chunk);
    var b0, b1, b2 := chunk[0], if |chunk| > 1 then chunk[1] else 0, if |chunk| > 2 then chunk[2] else 0;
    WordBytes(b0, b1, b2);
    WordDigits(n);
    ShortWord(b0, b1);
    DigitDecodes(n / 262144);
    DigitDecodes(n / 4096 % 64);
    DigitDecodes(n / 64 % 64);
    DigitDecodes(n % 64);
    var s := EncodeChunk(chunk);
    hide Letter, DecodeChar, Word;
    FourPadding(s);
  }

  lemma TruncatedWord(chunk: seq<byte>)
    requires 1 <= |chunk| <= 3
    ensures Truncate(Word(chunk), 3 - |chunk|) == chunk
  {
    var b0, b1, b2 := chunk[0], if |chunk| > 1 then chunk[1] else 0, if |chunk| > 2 then chunk[2] else 0;
    WordBytes(b0, b1, b2);
  }

  lemma ChunkRoundTrip(chunk: seq<byte>)
    requires 1 <= |chunk| <= 3
    ensures DecodeChunk(EncodeChunk(chunk)) == Some(chunk)
  {
    ChunkSextets(chunk);
    WordDigits(Word(chunk));
    TruncatedWord(chunk);
    hide Word, EncodeChunk, Sextet, Padding, Truncate;
  }

  lemma SplitAt(b: seq<byte>, n: nat)
    requires n <= |b|
    ensures b[..n] + b[n..] == b
  {
  }

  lemma Halves(s: string, rest: string)
    requires |s| == 4
    ensures (s + rest)[..4] == s && (s + rest)[4..] == rest
  {
  }

  /** Decoding undoes encoding, for every byte string. */
  lemma {:induction false} RoundTrip(b: seq<byte>)
    ensures DecodeAll(EncodeAll(b)) == Some(b)
    decreases |b|
  {
    if b != [] {
      var size := Min(3, |b|);
      var s, rest := EncodeChunk(b[..size]), EncodeAll(b[size..]);
      assert EncodeAll(b) == s + rest;
      hide EncodeChunk, EncodeAll, DecodeChunk, Joined, DecodeAll;
      ChunkRoundTrip(b[..size]);
      RoundTrip(b[size..]);
      Halves(s, rest);
      DecodeUnfolds(s + rest);
      SplitAt(b, size);
      JoinedSome(b[..size], b[size..]);
    }
  }

  // ---------------------------------------------------------------- canonical texts

  /** The character stands for a multiple of `unit`: its spare low bits are zero. */
  predicate Spare(c: char, unit: nat)
    requires unit > 0
  {
    Sextet(c).Some? && Sextet(c).value % unit == 0
  }

  /** Padding stands only at the end of the text, and the bits it leaves over are zero. */
  predicate Canonical(s: string) {
    var n := |s|;
    n >= 4 ==>
      && (forall i :: 0 <= i < n - 2 ==> s[i] != '=')
      && (s[n - 2] == '=' ==> s[n - 1] == '=' && Spare(s[n - 3], 16))
      && (s[n - 1] == '=' && s[n - 2] != '=' ==> Spare(s[n - 2], 4))
  }

  /** The digits of a word made of four sextets. */
  lemma DigitsOf(a: sextet, b: sextet, c: sextet, d: sextet)
    ensures var n := (a as int) * 262144 + (b as int) * 4096 + (c as int) * 64 + (d as int);
            0 <= n < 16777216 && n / 262144 == a && n / 4096 % 64 == b && n / 64 % 64 == c && n % 64 == d
  {
    var n := (a as int) * 262144 + (b as int) * 4096 + (c as int) * 64 + (d as int);
    assert n / 64 == (a as int) * 4096 + (b as int) * 64 + (c as int);
    assert n / 4096 == (a as int) * 64 + (b as int);
  }

  /** The word of the bytes that are kept: the bits that are cut off read as zero. */
  lemma KeptWord(a: sextet, b: sextet, c: sextet, d: sextet, pad: nat)
    requires pad <= 2 && (pad > 0 ==> d == 0) && (pad > 1 ==> c == 0)
    ensures var n := (a as int) * 262144 + (b as int) * 4096 + (c as int) * 64 + (d as int);
            Word(Truncate(n, pad)) ==
            (a as int) * 262144 + ((b as int) - (if pad == 2 then b % 16 else 0)) * 4096
            + ((c as int) - (if pad == 1 then c % 4 else 0)) * 64 + (d as int)
  {
    var b', b'' := (b as int) / 16, (b as int) % 16;
    var c', c'' := (c as int) / 4, (c as int) % 4;
    assert b as int == 16 * b' + b'' && c as int == 4 * c' + c'';
    WordBytes(4 * (a as int) + b', 16 * b'' + c', 64 * c'' + (d as int));
    if pad == 2 {
      assert c' == 0 && c'' == 0;
    }
  }

  lemma EncodedDigits(chunk: seq<byte>, a: sextet, b: sextet, c: sextet, d: sextet)
    requires 1 <= |chunk| <= 3
    requires Word(chunk) == (a as int) * 262144 + (b as int) * 4096 + (c as int) * 64 + (d as int)
    ensures EncodeChunk(chunk) ==
            [Letter(a), Letter(b), if |chunk| > 1 then Letter(c) else '=', if |chunk| > 2 then Letter(d) else '=']
  {
    DigitsOf(a, b, c, d);
    WordDigits(Word(chunk));
    hide Word, Letter;
  }

  lemma Reencoded(a: sextet, b: sextet, c: sextet, d: sextet, pad: nat)
    requires pad <= 2 && (pad > 0 ==> d == 0) && (pad > 1 ==> c == 0)
    ensures var n := (a as int) * 262144 + (b as int) * 4096 + (c as int) * 64 + (d as int);
            EncodeChunk(Truncate(n, pad)) ==
            [Letter(a), Letter(if pad == 2 then b - b % 16 else b),
             if pad < 2 then Letter(if pad == 1 then c - c % 4 else c) else '=', if pad < 1 then Letter(d) else '=']
  {
    var n := (a as int) * 262144 + (b as int) * 4096 + (c as int) * 64 + (d as int);
    KeptWord(a, b, c, d, pad);
    hide Word, Letter, EncodeChunk;
    EncodedDigits(Truncate(n, pad), a, if pad == 2 then b - b % 16 else b, if pad == 1 then c - c % 4 else c, d);
  }

  /** A chunk decodes to bytes that encode to it again exactly when it is canonical. */
  lemma ChunkCanonical(chunk: string)
    requires |chunk| == 4 && DecodeChunk(chunk).Some?
    ensures var x := DecodeChunk(chunk).value;
            && |x| == 3 - Padding(chunk) && 1 <= |x| <= 3 && (Padding(chunk) > 0 ==> chunk[3] == '=')
            && (EncodeChunk(x) == chunk <==> Canonical(chunk))
  {
    var pad := Padding(chunk);
    var a, b, c, d := Sextet(chunk[0]).value, Sextet(chunk[1]).value, Sextet(chunk[2]).value, Sextet(chunk[3]).value;
    FourPadding(chunk);
    if pad == 0 || (chunk[0] != '=' && chunk[1] != '=') {
      Reencoded(a, b, c, d, pad);
      hide Letter, DecodeChar, EncodeChunk, Truncate, Word, Padding;
      RoundedDown(b, 16);
      RoundedDown(c, 4);
    }
  }

  lemma RoundedDown(v: sextet, unit: nat)
    requires 0 < unit
    ensures 0 <= v - v % unit < 64 && (Letter(v - v % unit) == Letter(v) <==> v % unit == 0)
  {
    DigitDecodes(v);
    DigitDecodes(v - v % unit);
  }

  lemma ShortText(b: seq<byte>)
    requires |b| < 3
    ensures |EncodeAll(b)| <= 4
  {
    assert b[|b|..] == [];
  }

  lemma FirstChunk(b: seq<byte>)
    requires |b| >= 3
    ensures EncodeAll(b) == EncodeChunk(b[..3]) + EncodeAll(b[3..]) && EncodeAll(b)[3] != '='
  {
    DigitDecodes(Word(b[..3]) % 64);
    hide Word;
  }

  lemma CanonicalTail(s: string)
    requires |s| >= 8 && |s| % 4 == 0
    ensures Canonical(s) <==> '=' !in s[..4] && Canonical(s[4..])
  {
    hide Sextet;
  }

  lemma SplitDecoded(s: string)
    requires DecodeAll(s).Some? && s != ""
    ensures |s| >= 4 && |s| % 4 == 0 && s == s[..4] + s[4..] && (s[4..] != "" ==> |s| >= 8)
    ensures DecodeChunk(s[..4]).Some? && DecodeAll(s[4..]).Some?
    ensures DecodeAll(s).value == DecodeChunk(s[..4]).value + DecodeAll(s[4..]).value
  {
    DecodeUnfolds(s);
    hide DecodeChunk;
  }

  lemma OnlyChunk(s: string)
    requires |s| == 4 && DecodeAll(s).Some?
    ensures EncodeAll(DecodeAll(s).value) == s <==> Canonical(s)
  {
    SplitDecoded(s);
    assert s[..4] == s && s[4..] == "" && DecodeAll("") == Some([]);
    var x := DecodeChunk(s).value;
    ChunkCanonical(s);
    assert x + [] == x && x[..|x|] == x && x[|x|..] == [] && EncodeAll([]) == "";
    hide DecodeAll, DecodeChunk, EncodeChunk, Canonical;
    assert EncodeAll(x) == EncodeChunk(x) + "";
  }

  lemma MoreChunks(ch: string, t: string, x: seq<byte>, y: seq<byte>)
    requires |ch| == 4 && |t| >= 4 && Padding(ch) <= 2 && |x| == 3 - Padding(ch) && (Padding(ch) > 0 ==> ch[3] == '=')
    requires EncodeChunk(x) == ch <==> Canonical(ch)
    ensures EncodeAll(x + y) == ch + t <==> '=' !in ch && EncodeAll(y) == t
  {
    FourPadding(ch);
    var b := x + y;
    assert (ch + t)[3] == ch[3];
    if Padding(ch) == 0 {
      assert b[..3] == x && b[3..] == y;
      FirstChunk(b);
      assert Canonical(ch);
      hide EncodeChunk, EncodeAll, Canonical;
      assert (ch + EncodeAll(y))[4..] == EncodeAll(y) && (ch + t)[4..] == t;
    } else if |b| >= 3 {
      FirstChunk(b);
    } else {
      ShortText(b);
    }
  }

  /** A text that decodes is the encoding of what it decodes to exactly when it is canonical: padding inside it,
      and spare bits that are not zero, are accepted although no encoding has them. */
  lemma {:induction false} CanonicalExact(s: string)
    requires DecodeAll(s).Some?
    ensures EncodeAll(DecodeAll(s).value) == s <==> Canonical(s)
    decreases |s|
  {
    if s == "" {
      assert DecodeAll(s) == Some([]) && EncodeAll([]) == "";
    } else if |s| == 4 {
      OnlyChunk(s);
    } else {
      hide *;
      SplitDecoded(s);
      ChunkCanonical(s[..4]);
      CanonicalExact(s[4..]);
      CanonicalTail(s);
      MoreChunks(s[..4], s[4..], DecodeChunk(s[..4]).value, DecodeAll(s[4..]).value);
    }
  }

  /** For example, two texts that decode to the same byte, neither of which encodes it. */
  lemma PaddingInside()
    ensures DecodeAll("A=B=") == Some([0]) && !Canonical("A=B=")
    ensures DecodeAll("AB==") == Some([0]) && !Canonical("AB==")
  {
    OneChunk("A=B=");
    OneChunk("AB==");
    FourPadding("A=B=");
    FourPadding("AB==");
    assert Truncate(64, 2) == [0] && Truncate(4096, 2) == [0];
    assert "A=B="[1] == '=';
    assert Sextet('B') == Some(1);
  }

  lemma OneChunk(s: string)
    requires |s| == 4
    ensures DecodeAll(s) == DecodeChunk(s)
  {
    DecodeUnfolds(s);
    assert s[..4] == s && s[4..] == "" && DecodeAll("") == Some([]);
    hide DecodeAll, DecodeChunk;
    if DecodeChunk(s).Some? {
      JoinLast(DecodeChunk(s).value);
    }
  }
}
