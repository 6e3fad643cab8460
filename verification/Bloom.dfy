/** Bloom filters over a segment's column (crates/adb-storage/src/bloom.rs, hash.rs).

    The FNV hash is a parameter, a function of a value's canonical form and a seed; the size of a
    filter and its probe count are parameters too. Bit `i` of the filter is bit `i % 64` of word
    `i / 64`, so that the little-endian bytes of the words hold the bits eight by eight. */
module Bloom {
  import opened Values
  import opened ValueOrder
  import opened Wal
  import Base64

  /** What the canonical bytes of a value say: a tag and a payload. */
  datatype Canonical = CNull | CBool(b: bool) | CInt(i: int) | CStr(s: string) | CFloat(f: real)

  const TWO63 := 0x8000_0000_0000_0000

  const TWO64 := 0x1_0000_0000_0000_0000

  /** Integers are 64 bits wide. */
  predicate Ranged(v: Value) { v.Int? ==> -TWO63 <= v.i < TWO63 }

  /** Floats without a fraction share the integers' form; the cast saturates. */
  function CanonicalOf(v: Value): Canonical {
    match v
    case Null => CNull
    case Bool(b) => CBool(b)
    case Int(i) => CInt(i)
    case Timestamp(m) => CInt(m)
    case Date(d) => CInt(d)
    case Float(f) =>
      if f == f.Floor as real && -TWO63 <= f.Floor <= TWO63 then CInt(if f.Floor == TWO63 then TWO63 - 1 else f.Floor)
      else CFloat(f)
    case Str(s) => CStr(s)
  }

  /** Equal values have the same canonical bytes, and so the same hash: `2` finds `2.0`. */
  lemma SameCanonical(a: Value, b: Value)
    requires Same(a, b) && Ranged(a) && Ranged(b)
    ensures CanonicalOf(a) == CanonicalOf(b)
  {
    SameIdentical(a, b);
  }

  /** Values of one kind have the same canonical bytes only if they are equal, floats of 2^63 excepted: the cast
      takes them for the integer below. */
  lemma CanonicalExactly(a: Value, b: Value)
    requires Rank(a) == Rank(b) && Ranged(a) && Ranged(b) && a != Float(TWO63 as real) && b != Float(TWO63 as real)
    ensures CanonicalOf(a) == CanonicalOf(b) <==> Same(a, b)
  {
    if Same(a, b) {
      SameCanonical(a, b);
    } else if a.Str? {
      StrReflexive(a.s);
    }
  }

  type u64 = x: int | 0 <= x < 0x1_0000_0000_0000_0000

  type Hasher = (Canonical, nat) -> u64

  const SEED1 := 0x9E37_79B9_7F4A_7C15

  const SEED2 := 0xC2B2_AE3D_27D4_EB4F

  function SetLowBit(x: int): int { if x % 2 == 0 then x + 1 else x }

  /** The bits a value sets: `k` probes by double hashing. */
  function Probes(h: Hasher, v: Value, k: nat, m: nat): (bits: seq<nat>)
    requires m > 0
    ensures |bits| == k && forall i :: 0 <= i < k ==> bits[i] < m
  {
    var c := CanonicalOf(v);
    var h1, h2 := h(c, SEED1), SetLowBit(h(c, SEED2));
    seq(k, i requires 0 <= i < k => (h1 + h2 * i) % TWO64 % m)
  }

  /** The powers of two. */
  function Two(n: nat): nat { if n == 0 then 1 else 2 * Two(n - 1) }

  lemma OddProduct(h: nat, d: nat)
    requires h % 2 == 1 && d % 2 == 1
    ensures h * d % 2 == 1
  {
    var g, e := h / 2, d / 2;
    assert h * d == (2 * g + 1) * d == 2 * (g * d) + d;
  }

  lemma EvenProduct(q: nat, t: nat)
    ensures q * (2 * t) == 2 * (q * t)
  {
  }

  /** An odd factor does not help divisibility by a power of two. */
  lemma {:induction false} OddFactor(h: nat, d: nat, q: nat, j: nat) returns (e: nat)
    requires h % 2 == 1 && h * d == q * Two(j)
    ensures d == e * Two(j)
  {
    if j == 0 {
      e := d;
    } else {
      var t := Two(j - 1);
      EvenProduct(q, t);
      if d % 2 == 1 {
        OddProduct(h, d);
      }
      var half := d / 2;
      EvenProduct(h, half);
      e := OddFactor(h, half, q, j - 1);
      EvenProduct(e, t);
    }
  }

  lemma MultipleApart(u: nat, v: nat, m: nat)
    requires m > 0 && u % m == v % m
    ensures v - u == (v / m - u / m) * m
  {
    assert u == u / m * m + u % m && v == v / m * m + v % m;
    Distributes(v / m, u / m, m);
  }

  lemma Distributes(a: int, b: int, m: int)
    ensures (a - b) * m == a * m - b * m
  {
  }

  lemma Nested(a: int, b: int, m: int)
    ensures a * (b * m) == (a * b) * m
  {
  }

  /** Numbers that agree modulo a divisor of `n`, after reduction by `n`, differ by a multiple of the divisor. */
  lemma Congruent(x: nat, y: nat, n: nat, b: nat, m: nat) returns (q: int)
    requires m > 0 && n == b * m && n > 0 && x % n % m == y % n % m
    ensures y - x == q * m
  {
    MultipleApart(x % n, y % n, m);
    var c, a := y % n / m - x % n / m, y / n - x / n;
    assert x == x / n * n + x % n && y == y / n * n + y % n;
    Distributes(y / n, x / n, n);
    Nested(a, b, m);
    q := a * b + c;
    Distributes(q, a * b, m);
  }

  lemma AtLeast(e: nat, m: nat)
    requires e > 0
    ensures e * m >= m
  {
  }

  lemma Positive(q: int, m: nat)
    requires m > 0 && q * m >= 0
    ensures q >= 0
  {
  }

  lemma {:induction false} Divides64(j: nat) returns (b: nat)
    requires j <= 64
    ensures TWO64 == b * Two(j) && Two(j) > 0
    decreases 64 - j
  {
    if j == 64 {
      Powers();
      b := 1;
    } else {
      var c := Divides64(j + 1);
      b := 2 * c;
      EvenProduct(c, Two(j));
      Nested(c, 2, Two(j));
    }
  }

  lemma Powers()
    ensures Two(64) == TWO64
  {
    assert Two(8) == 256;
    TwoSum(8, 8);
    TwoSum(16, 16);
    TwoSum(32, 32);
  }

  lemma {:induction false} TwoSum(a: nat, b: nat)
    ensures Two(a + b) == Two(a) * Two(b)
  {
    if a > 0 {
      TwoSum(a - 1, b);
      Nested(2, Two(a - 1), Two(b));
    }
  }

  /** In a filter whose size is a power of two, one value's probes are all different, as long as there are bits for
      them: the second hash is made odd for this. */
  lemma ProbesSpread(h: Hasher, v: Value, k: nat, j: nat, p: nat, q: nat)
    requires p < q < k && j <= 64 && q - p < Two(j)
    ensures Probes(h, v, k, Two(j))[p] != Probes(h, v, k, Two(j))[q]
  {
    var h1, h2 := Hashes(h, v);
    hide *;
    ProbeAt(h, v, k, Two(j), h1, h2, p);
    ProbeAt(h, v, k, Two(j), h1, h2, q);
    if (h1 + h2 * p) % TWO64 % Two(j) == (h1 + h2 * q) % TWO64 % Two(j) {
      FarApart(h2, h1 + h2 * p, h1 + h2 * q, p, q, j);
    }
  }

  lemma Hashes(h: Hasher, v: Value) returns (h1: nat, h2: nat)
    ensures h2 % 2 == 1 && TWO64 > 0
    ensures h1 == h(CanonicalOf(v), SEED1) && h2 == SetLowBit(h(CanonicalOf(v), SEED2))
  {
    h1, h2 := h(CanonicalOf(v), SEED1), SetLowBit(h(CanonicalOf(v), SEED2));
  }

  lemma ProbeAt(h: Hasher, v: Value, k: nat, m: nat, h1: nat, h2: nat, p: nat)
    requires m > 0 && p < k && TWO64 > 0
    requires h1 == h(CanonicalOf(v), SEED1) && h2 == SetLowBit(h(CanonicalOf(v), SEED2))
    ensures Probes(h, v, k, m)[p] == (h1 + h2 * p) % TWO64 % m
  {
    hide CanonicalOf, SetLowBit, SEED1, SEED2, TWO64;
  }

  lemma FarApart(h2: nat, x: nat, y: nat, p: nat, q: nat, j: nat)
    requires j <= 64 && h2 % 2 == 1 && p < q && y - x == h2 * q - h2 * p
    requires TWO64 > 0 && Two(j) > 0 && x % TWO64 % Two(j) == y % TWO64 % Two(j)
    ensures q - p >= Two(j)
  {
    hide *;
    var b := Divides64(j);
    var r := Congruent(x, y, TWO64, b, Two(j));
    Distributes(q, p, h2);
    assert (q - p) * h2 == h2 * (q - p) == r * Two(j);
    Positive(r, Two(j));
    var e := OddFactor(h2, q - p, r, j);
    if e > 0 {
      AtLeast(e, Two(j));
    }
  }

  /** A filter's content: its bits and how many each value sets. */
  datatype Bits = Bits(bits: seq<bool>, k: nat)

  function Contains(h: Hasher, f: Bits, v: Value): bool
    requires f.bits != []
  {
    v == Null || var probes := Probes(h, v, f.k, |f.bits|); forall i :: 0 <= i < |probes| ==> f.bits[probes[i]]
  }

  class BloomFilter {
    const bits: array<bool>
    const k: nat

    ghost predicate Valid() {
      bits.Length > 0 && bits.Length % 64 == 0
    }

    ghost function Content(): Bits
      reads bits
    {
      Bits(bits[..], k)
    }

    constructor (words: nat, probes: nat)
      requires words > 0
      ensures Valid() && fresh(bits) && bits.Length == 64 * words && k == probes
      ensures forall i :: 0 <= i < bits.Length ==> !bits[i]
    {
      bits := new bool[64 * words](_ => false);
      k := probes;
    }

    /** Sets the value's bits and no other; NULL sets none. */
    method Insert(h: Hasher, v: Value)
      requires Valid()
      modifies bits
      ensures forall i :: 0 <= i < bits.Length ==>
                (bits[i] <==> old(bits[i]) || (v != Null && i in Probes(h, v, k, bits.Length)))
    {
      if v == Null {
        return;
      }
      var probes := Probes(h, v, k, bits.Length);
      for p := 0 to |probes|
        invariant forall i :: 0 <= i < bits.Length ==> (bits[i] <==> old(bits[i]) || i in probes[..p])
      {
        assert probes[..p + 1] == probes[..p] + [probes[p]];
        bits[probes[p]] := true;
      }
      assert probes[..|probes|] == probes;
    }

    method MightContain(h: Hasher, v: Value) returns (maybe: bool)
      requires Valid()
      ensures maybe == Contains(h, Content(), v)
    {
      if v == Null {
        return true;
      }
      var probes := Probes(h, v, k, bits.Length);
      for p := 0 to |probes|
        invariant forall i :: 0 <= i < p ==> bits[probes[i]]
      {
        if !bits[probes[p]] {
          return false;
        }
      }
      maybe := true;
    }
  }

  /** The bits set by inserting values one after the other into an empty filter. */
  function BuildBits(h: Hasher, values: seq<Value>, m: nat, k: nat): (f: Bits)
    requires m > 0
    ensures |f.bits| == m && f.k == k
  {
    if values == [] then Bits(seq(m, _ => false), k)
    else
      var n := |values| - 1;
      var before := BuildBits(h, values[..n], m, k);
      var probes := Probes(h, values[n], k, m);
      Bits(seq(m, i requires 0 <= i < m => before.bits[i] || (values[n] != Null && i in probes)), k)
  }

  /** Builds a filter over a column, or nothing when there is nothing to filter. */
  method Build(h: Hasher, values: seq<Value>, words: nat, k: nat) returns (f: BloomFilter?)
    requires words > 0
    ensures f == null <==> values == []
    ensures f != null ==> fresh(f) && fresh(f.bits) && f.Valid() && f.Content() == BuildBits(h, values, 64 * words, k)
  {
    if values == [] {
      return null;
    }
    var filter := new BloomFilter(words, k);
    for i := 0 to |values|
      invariant fresh(filter.bits) && filter.Content() == BuildBits(h, values[..i], 64 * words, k)
    {
      assert values[..i + 1][..i] == values[..i];
      filter.Insert(h, values[i]);
      assert filter.Content().bits == BuildBits(h, values[..i + 1], 64 * words, k).bits;
    }
    assert values[..|values|] == values;
    f := filter;
  }

  // ---------------------------------------------------------------- no false negatives

  /** Some inserted value sets the bit. */
  ghost predicate SetBySome(h: Hasher, values: seq<Value>, m: nat, k: nat, bit: nat)
    requires m > 0
  {
    exists i :: 0 <= i < |values| && values[i] != Null && bit in Probes(h, values[i], k, m)
  }

  lemma {:induction false} BitsExactly(h: Hasher, values: seq<Value>, m: nat, k: nat, bit: nat)
    requires m > 0 && bit < m
    ensures BuildBits(h, values, m, k).bits[bit] <==> SetBySome(h, values, m, k, bit)
  {
    if values != [] {
      var n := |values| - 1;
      BitsExactly(h, values[..n], m, k, bit);
      assert forall i :: 0 <= i < n ==> values[..n][i] == values[i];
      hide Probes;
    }
  }

  /** A filter reports a value present exactly when every bit of it is set by some inserted value. */
  lemma ContainsExactly(h: Hasher, values: seq<Value>, m: nat, k: nat, v: Value)
    requires m > 0
    ensures Contains(h, BuildBits(h, values, m, k), v) <==>
            v == Null || forall p :: 0 <= p < k ==> SetBySome(h, values, m, k, Probes(h, v, k, m)[p])
  {
    forall p | 0 <= p < k
      ensures BuildBits(h, values, m, k).bits[Probes(h, v, k, m)[p]] <==>
              SetBySome(h, values, m, k, Probes(h, v, k, m)[p])
    {
      BitsExactly(h, values, m, k, Probes(h, v, k, m)[p]);
    }
    hide SetBySome;
  }

  /** Every value equal to an inserted one is reported present. */
  lemma NoFalseNegatives(h: Hasher, values: seq<Value>, m: nat, k: nat, i: nat, v: Value)
    requires m > 0 && i < |values| && Same(values[i], v) && Ranged(values[i]) && Ranged(v)
    ensures Contains(h, BuildBits(h, values, m, k), v)
  {
    SameIdentical(values[i], v);
    ContainsExactly(h, values, m, k, v);
    if v != Null {
      SameCanonical(values[i], v);
      assert Probes(h, v, k, m) == Probes(h, values[i], k, m);
      forall p | 0 <= p < k
        ensures SetBySome(h, values, m, k, Probes(h, v, k, m)[p])
      {
        assert Probes(h, v, k, m)[p] in Probes(h, values[i], k, m);
      }
    }
  }

  // ---------------------------------------------------------------- persistence

  /** The wire form: the probe count and the base64 text of the words' little-endian bytes. */
  datatype Wire = Wire(k: nat, bits: string)

  function Bit(b: bool): int { if b then 1 else 0 }

  /** The number whose bits these are, lowest first. */
  function Binary(b: seq<bool>): (x: nat)
    ensures x < Two(|b|)
  {
    if b == [] then 0 else Bit(b[0]) + 2 * Binary(b[1..])
  }

  function PackByte(b: seq<bool>): byte
    requires |b| == 8
  {
    assert Two(8) == 256;
    Binary(b)
  }

  /** The low `n` bits of a number, lowest first. */
  function LowBits(x: nat, n: nat): (b: seq<bool>)
    ensures |b| == n
  {
    if n == 0 then [] else [x % 2 == 1] + LowBits(x / 2, n - 1)
  }

  function UnpackByte(x: byte): (b: seq<bool>)
    ensures |b| == 8
  {
    LowBits(x, 8)
  }

  function Pack(b: seq<bool>): (raw: seq<byte>)
    requires |b| % 8 == 0
    ensures |raw| * 8 == |b|
  {
    if b == [] then [] else [PackByte(b[..8])] + Pack(b[8..])
  }

  function Unpack(raw: seq<byte>): (b: seq<bool>)
    ensures |b| == 8 * |raw|
  {
    if raw == [] then [] else UnpackByte(raw[0]) + Unpack(raw[1..])
  }

  method ToWire(f: BloomFilter) returns (w: Wire)
    requires f.Valid()
    ensures w == WireOf(f.Content())
  {
    var text := Base64.Encode(Pack(f.bits[..]));
    w := Wire(f.k, text);
  }

  function WireOf(f: Bits): Wire
    requires |f.bits| % 64 == 0
  {
    assert |f.bits| == 8 * (8 * (|f.bits| / 64));
    Wire(f.k, Base64.EncodeAll(Pack(f.bits)))
  }

  /** Reads a filter back; whole words only, and a probe count between 1 and 16. */
  function FromWire(w: Wire): Option<Bits> {
    match Base64.DecodeAll(w.bits)
    case None => None
    case Some(raw) =>
      if |raw| % 8 != 0 || raw == [] || w.k == 0 || w.k > 16 then None else Some(Bits(Unpack(raw), w.k))
  }

  lemma {:induction false} BinaryRoundTrip(b: seq<bool>)
    ensures LowBits(Binary(b), |b|) == b
  {
    if b != [] {
      BinaryRoundTrip(b[1..]);
      assert Binary(b) / 2 == Binary(b[1..]) && (Binary(b) % 2 == 1 <==> b[0]);
      assert b == [b[0]] + b[1..];
    }
  }

  lemma {:induction false} PackRoundTrip(b: seq<bool>)
    requires |b| % 8 == 0
    ensures Unpack(Pack(b)) == b
  {
    if b != [] {
      BinaryRoundTrip(b[..8]);
      PackRoundTrip(b[8..]);
      assert b[..8] + b[8..] == b;
    }
  }

  /** A filter of whole words with 1 to 16 probes reads back exactly as it was written. */
  lemma WireRoundTrip(f: Bits)
    requires |f.bits| % 64 == 0 && f.bits != [] && 1 <= f.k <= 16
    ensures FromWire(WireOf(f)) == Some(f)
  {
    var raw := Pack(f.bits);
    assert |raw| * 8 == |f.bits|;
    assert |raw| % 8 == 0 && raw != [];
    hide Pack, Unpack;
    Base64.RoundTrip(raw);
    PackRoundTrip(f.bits);
    hide Base64.DecodeAll, Base64.EncodeAll;
  }

  /** Persisted filters have no false negatives either. */
  lemma PersistedNoFalseNegatives(h: Hasher, values: seq<Value>, words: nat, k: nat, i: nat, v: Value)
    requires words > 0 && 1 <= k <= 16 && i < |values| && Same(values[i], v) && Ranged(values[i]) && Ranged(v)
    ensures var r := FromWire(WireOf(BuildBits(h, values, 64 * words, k)));
            r.Some? && r.value.bits != [] && Contains(h, r.value, v)
  {
    WireRoundTrip(BuildBits(h, values, 64 * words, k));
    NoFalseNegatives(h, values, 64 * words, k, i, v);
  }
}
