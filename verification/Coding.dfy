/** coding.cc: fixed-width and variable-length integers, and length-prefixed strings. */
module Coding {
  import opened Keys

  const TWO32: nat := 0x1_0000_0000
  const TWO64: nat := 0x1_0000_0000_0000_0000

  type Word = n: nat | n < TWO32

  // ----- Little-endian integers of n bytes

  function Fixed(v: nat, n: nat): (r: Bytes)
    ensures |r| == n
  {
    if n == 0 then [] else [v % 256] + Fixed(v / 256, n - 1)
  }

  function DecodeFixed(s: Bytes): nat {
    if s == [] then 0 else s[0] + 256 * DecodeFixed(s[1..])
  }

  function Pow256(n: nat): (r: nat)
    ensures r >= 1
  {
    if n == 0 then 1 else 256 * Pow256(n - 1)
  }

  lemma {:induction false} FixedRoundTrip(v: nat, n: nat)
    requires v < Pow256(n)
    ensures DecodeFixed(Fixed(v, n)) == v
  {
    if n > 0 {
      FixedRoundTrip(v / 256, n - 1);
      assert Fixed(v, n)[1..] == Fixed(v / 256, n - 1);
    }
  }

  lemma {:induction false} FixedOfDecoded(s: Bytes)
    ensures Fixed(DecodeFixed(s), |s|) == s
  {
    if s != [] {
      FixedOfDecoded(s[1..]);
      assert DecodeFixed(s) / 256 == DecodeFixed(s[1..]) && DecodeFixed(s) % 256 == s[0];
    }
  }

  /** The bytes in front weigh less. */
  lemma {:induction false} LittleEndian(a: Bytes, b: Bytes)
    ensures DecodeFixed(a + b) == DecodeFixed(a) + Pow256(|a|) * DecodeFixed(b)
  {
    if a == [] {
      assert a + b == b;
    } else {
      LittleEndian(a[1..], b);
      assert (a + b)[1..] == a[1..] + b;
      Times256(Pow256(|a| - 1), DecodeFixed(b));
    }
  }

  lemma Times256(a: nat, b: nat)
    ensures 256 * a * b == 256 * (a * b)
  {
  }

  function Fixed32(v: nat): (r: Bytes)
    ensures |r| == 4
  {
    Fixed(v, 4)
  }

  function Fixed64(v: nat): (r: Bytes)
    ensures |r| == 8
  {
    Fixed(v, 8)
  }

  /** The four bytes, the lowest first. */
  lemma Fixed32Bytes(v: nat)
    ensures Fixed32(v) == [v % 256, v / 256 % 256, v / 256 / 256 % 256, v / 256 / 256 / 256 % 256]
  {
    assert Fixed(v / 256 / 256 / 256 / 256, 0) == [];
    assert Fixed(v / 256 / 256 / 256, 1) == [v / 256 / 256 / 256 % 256];
    assert Fixed(v / 256 / 256, 2) == [v / 256 / 256 % 256, v / 256 / 256 / 256 % 256];
    assert Fixed(v / 256, 3) == [v / 256 % 256, v / 256 / 256 % 256, v / 256 / 256 / 256 % 256];
  }

  lemma Fixed32RoundTrip(v: nat)
    requires v < TWO32
    ensures |Fixed32(v)| == 4 && DecodeFixed(Fixed32(v)) == v
  {
    assert Pow256(4) == TWO32;
    FixedRoundTrip(v, 4);
  }

  lemma Fixed64RoundTrip(v: nat)
    requires v < TWO64
    ensures |Fixed64(v)| == 8 && DecodeFixed(Fixed64(v)) == v
  {
    assert Pow256(8) == TWO64;
    FixedRoundTrip(v, 8);
  }

  lemma SliceOfPrefix(s: Bytes, n: nat, i: nat, j: nat)
    requires i <= j <= n <= |s|
    ensures s[..n][i..j] == s[i..j]
  {
  }

  lemma MiddleSlice(a: Bytes, b: Bytes, c: Bytes, i: nat, j: nat)
    requires i <= j <= |b|
    ensures (a + b + c)[|a| + i..|a| + j] == b[i..j]
  {
  }

  /** The first n values as 32-bit words. */
  function FixedArray(values: seq<nat>, n: nat): (r: Bytes)
    requires n <= |values|
    ensures |r| == 4 * n
  {
    if n == 0 then [] else FixedArray(values, n - 1) + Fixed32(values[n - 1])
  }

  lemma {:induction false} FixedArrayAt(values: seq<nat>, n: nat, j: nat)
    requires j < n <= |values|
    ensures FixedArray(values, n)[4 * j..4 * j + 4] == Fixed32(values[j])
  {
    if j < n - 1 {
      FixedArrayAt(values, n - 1, j);
      var r := FixedArray(values, n);
      assert r[..4 * (n - 1)] == FixedArray(values, n - 1);
      SliceOfPrefix(r, 4 * (n - 1), 4 * j, 4 * j + 4);
    }
  }

  lemma FixedArrayPush(values: seq<nat>, v: nat)
    ensures FixedArray(values + [v], |values| + 1) == FixedArray(values, |values|) + Fixed32(v)
  {
    FixedArrayPrefix(values, values + [v], |values|);
  }

  lemma {:induction false} FixedArrayPrefix(values: seq<nat>, more: seq<nat>, n: nat)
    requires n <= |values| && values <= more
    ensures FixedArray(values, n) == FixedArray(more, n)
  {
    if n > 0 {
      FixedArrayPrefix(values, more, n - 1);
    }
  }

  lemma Fixed32Bound(s: Bytes)
    requires |s| == 4
    ensures DecodeFixed(s) < TWO32
  {
    assert DecodeFixed(s[1..][1..][1..][1..]) == 0;
    assert DecodeFixed(s[1..][1..][1..]) < 256;
    assert DecodeFixed(s[1..][1..]) < 0x1_0000;
    assert DecodeFixed(s[1..]) < 0x100_0000;
  }


  // ----- Varints

  /** Seven bits a byte, least significant first; the top bit says that more follow. */
  function Varint(v: nat): (r: Bytes)
    ensures |r| >= 1
  {
    if v < 128 then [v] else [v % 128 + 128] + Varint(v / 128)
  }

  /** EncodeVarint32 writes the five cases out. */
  method EncodeVarint32(v: nat) returns (r: Bytes)
    requires v < TWO32
    ensures r == Varint(v)
  {
    Shifts(v);
    if v < 0x80 {
      r := [v];
    } else if v < 0x4000 {
      r := [v % 128 + 128, v / 0x80];
    } else if v < 0x20_0000 {
      r := [v % 128 + 128, v / 0x80 % 128 + 128, v / 0x4000];
      Unroll2(v / 128);
    } else if v < 0x1000_0000 {
      r := [v % 128 + 128, v / 0x80 % 128 + 128, v / 0x4000 % 128 + 128, v / 0x20_0000];
      Unroll3(v / 128);
    } else {
      r := [v % 128 + 128, v / 0x80 % 128 + 128, v / 0x4000 % 128 + 128, v / 0x20_0000 % 128 + 128, v / 0x1000_0000];
      Unroll4(v / 128);
    }
  }

  lemma Shifts(v: nat)
    ensures v / 0x4000 == v / 128 / 128
    ensures v / 0x20_0000 == v / 0x4000 / 128
    ensures v / 0x1000_0000 == v / 0x20_0000 / 128
  {
  }

  lemma Unroll2(v: nat)
    requires 128 <= v < 0x4000
    ensures Varint(v) == [v % 128 + 128, v / 128]
  {
  }

  lemma Unroll3(v: nat)
    requires 0x4000 <= v < 0x20_0000
    ensures Varint(v) == [v % 128 + 128, v / 128 % 128 + 128, v / 128 / 128]
  {
    Unroll2(v / 128);
  }

  lemma Unroll4(v: nat)
    requires 0x20_0000 <= v < 0x1000_0000
    ensures Varint(v) == [v % 128 + 128, v / 128 % 128 + 128, v / 128 / 128 % 128 + 128, v / 128 / 128 / 128]
  {
    Unroll3(v / 128);
  }

  /** EncodeVarint64 and PutVarint64: a loop. */
  method EncodeVarint64(value: nat) returns (r: Bytes)
    ensures r == Varint(value)
  {
    var v := value;
    r := [];
    while v >= 128
      invariant r + Varint(v) == Varint(value)
    {
      assert r + ([v % 128 + 128] + Varint(v / 128)) == (r + [v % 128 + 128]) + Varint(v / 128);
      r := r + [v % 128 + 128];
      v := v / 128;
    }
    r := r + [v];
  }

  /** The value of the first n bytes read as a varint. */
  function VarintValue(s: Bytes, n: nat): nat
    requires n <= |s|
  {
    if n == 0 then 0 else s[0] % 128 + 128 * VarintValue(s[1..], n - 1)
  }

  /** How many bytes a varint at the start of s takes, if it ends within max bytes. */
  function VarintLength(s: Bytes, max: nat): (r: Option<nat>)
    ensures r.Some? ==> 1 <= r.value <= |s| && r.value <= max
  {
    if s == [] || max == 0 then None
    else if s[0] < 128 then Some(1)
    else
      var n := VarintLength(s[1..], max - 1);
      if n.None? then None else Some(n.value + 1)
  }

  function MaxBytes(wide: bool): nat {
    if wide then 10 else 5
  }

  /** The low 64 or 32 bits. */
  function Truncate(v: nat, wide: bool): nat {
    if wide then v % TWO64 else v % TWO32
  }

  /** Reads a varint into an integer of 64 or 32 bits. */
  function GetVarint(s: Bytes, wide: bool): (r: Option<(nat, Bytes)>)
    ensures r.Some? ==> |r.value.1| < |s|
  {
    var n := VarintLength(s, MaxBytes(wide));
    if n.None? then None else Some((Truncate(VarintValue(s, n.value), wide), s[n.value..]))
  }

  function GetVarint32(s: Bytes): (r: Option<(nat, Bytes)>)
    ensures r.Some? ==> |r.value.1| < |s|
  {
    GetVarint(s, false)
  }

  function GetVarint64(s: Bytes): (r: Option<(nat, Bytes)>)
    ensures r.Some? ==> |r.value.1| < |s|
  {
    GetVarint(s, true)
  }

  /** The first p bytes all say that more follow, and result holds their bits. */
  ghost predicate Scanned(s: Bytes, wide: bool, p: nat, result: nat, unit: nat) {
    && p <= |s| && p <= MaxBytes(wide) && unit == Pow128(p)
    && result == Truncate(VarintPrefix(s, p), wide)
    && forall i :: 0 <= i < p ==> s[i] >= 128
  }

  /** GetVarint32Ptr and GetVarint64Ptr: shifts and ors, losing bits that do not fit. */
  method GetVarintPtr(s: Bytes, wide: bool) returns (r: Option<(nat, Bytes)>)
    ensures r == GetVarint(s, wide)
  {
    var result: nat, unit: nat, p: nat := 0, 1, 0;
    while p < MaxBytes(wide) && p < |s|
      invariant Scanned(s, wide, p, result, unit)
    {
      ScanStep(s, wide, p, result, unit);
      hide *;
      var byte := s[p];
      result := Truncate(result + Digit(byte, unit), wide);
      p := p + 1;
      if byte < 128 {
        return Some((result, s[p..]));
      }
      unit := unit * 128;
    }
    LengthScanned(s, MaxBytes(wide), p);
    r := None;
  }

  lemma ScanStep(s: Bytes, wide: bool, p: nat, result: nat, unit: nat)
    requires Scanned(s, wide, p, result, unit) && p < |s| && p < MaxBytes(wide)
    ensures var next := Truncate(result + Digit(s[p], unit), wide);
            if s[p] < 128 then GetVarint(s, wide) == Some((next, s[p + 1..]))
            else Scanned(s, wide, p + 1, next, unit * 128)
  {
    TruncateAdd(VarintPrefix(s, p), Digit(s[p], unit), wide);
    LengthScanned(s, MaxBytes(wide), p);
    PrefixIsValue(s, p + 1);
    hide Truncate, Digit;
  }

  lemma {:induction false} LengthScanned(s: Bytes, max: nat, p: nat)
    requires p <= |s| && p <= max && forall i :: 0 <= i < p ==> s[i] >= 128
    ensures p < |s| && p < max && s[p] < 128 ==> VarintLength(s, max) == Some(p + 1)
    ensures p == |s| || p == max ==> VarintLength(s, max) == None
  {
    if p > 0 {
      LengthScanned(s[1..], max - 1, p - 1);
    }
  }

  /** By the bytes: n bytes say that more follow, and then one says that it is the last.  Five bytes are read into 32
      bits and ten into 64, and of longer ones nothing. */
  lemma VarintByBytes(s: Bytes, n: nat)
    requires n <= |s| && forall i :: 0 <= i < n ==> s[i] >= 128
    requires n < |s| ==> s[n] < 128
    ensures GetVarint32(s) == if n < |s| && n < 5 then Some((VarintPrefix(s, n + 1) % TWO32, s[n + 1..])) else None
    ensures GetVarint64(s) == if n < |s| && n < 10 then Some((VarintPrefix(s, n + 1) % TWO64, s[n + 1..])) else None
  {
    hide VarintLength, VarintValue, VarintPrefix;
    LengthScanned(s, 5, if n < 5 then n else 5);
    LengthScanned(s, 10, if n < 10 then n else 10);
    if n < |s| {
      PrefixIsValue(s, n + 1);
    }
  }

  function Pow128(n: nat): (r: nat)
    ensures r >= 1
  {
    if n == 0 then 1 else 128 * Pow128(n - 1)
  }

  /** The lower seven bits of a byte, shifted to its place. */
  function Digit(b: Byte, unit: nat): nat {
    b as int % 128 * unit
  }

  /** The same value, summed from the front. */
  function VarintPrefix(s: Bytes, p: nat): nat
    requires p <= |s|
  {
    if p == 0 then 0 else VarintPrefix(s, p - 1) + Digit(s[p - 1], Pow128(p - 1))
  }

  lemma TruncateAdd(a: nat, b: nat, wide: bool)
    ensures Truncate(Truncate(a, wide) + b, wide) == Truncate(a + b, wide)
  {
  }

  lemma Scale(a: nat, b: nat)
    ensures a * (128 * b) == 128 * (a * b)
  {
  }

  lemma {:induction false} PrefixIsValue(s: Bytes, p: nat)
    requires p <= |s|
    ensures VarintPrefix(s, p) == VarintValue(s, p)
  {
    if p > 0 {
      PrefixShift(s, p);
      PrefixIsValue(s[1..], p - 1);
    }
  }

  lemma {:induction false} PrefixShift(s: Bytes, p: nat)
    requires 0 < p <= |s|
    ensures VarintPrefix(s, p) == s[0] % 128 + 128 * VarintPrefix(s[1..], p - 1)
  {
    if p > 1 {
      PrefixShift(s, p - 1);
      Scale(s[p - 1] % 128, Pow128(p - 2));
      assert s[1..][p - 2] == s[p - 1];
    }
  }

  lemma {:induction false} VarintBytes(v: nat, max: nat)
    requires v < Pow128(max) && max > 0
    ensures |Varint(v)| <= max
  {
    if v >= 128 {
      VarintBytes(v / 128, max - 1);
    }
  }

  /** What was put is what is got, and the rest of the input is left. */
  lemma {:induction false} VarintRoundTrip(v: nat, rest: Bytes, max: nat)
    requires |Varint(v)| <= max
    ensures VarintLength(Varint(v) + rest, max) == Some(|Varint(v)|)
    ensures VarintValue(Varint(v) + rest, |Varint(v)|) == v
  {
    var s := Varint(v) + rest;
    if v >= 128 {
      assert s[1..] == Varint(v / 128) + rest;
      VarintRoundTrip(v / 128, rest, max - 1);
    }
  }

  lemma Varint32RoundTrip(v: nat, rest: Bytes)
    requires v < TWO32
    ensures GetVarint32(Varint(v) + rest) == Some((v, rest))
  {
    assert Pow128(5) == 0x8_0000_0000;
    VarintBytes(v, 5);
    VarintRoundTrip(v, rest, 5);
    assert (Varint(v) + rest)[|Varint(v)|..] == rest;
  }

  lemma Varint64RoundTrip(v: nat, rest: Bytes)
    requires v < TWO64
    ensures GetVarint64(Varint(v) + rest) == Some((v, rest))
  {
    Varint64Length(v);
    VarintRoundTrip(v, rest, 10);
    hide Varint, VarintLength, VarintValue;
    assert (Varint(v) + rest)[|Varint(v)|..] == rest;
  }

  lemma Varint64Length(v: nat)
    requires v < TWO64
    ensures |Varint(v)| <= 10
  {
    assert Pow128(10) == 0x40_0000_0000_0000_0000;
    VarintBytes(v, 10);
  }

  // ----- Length-prefixed strings

  function LengthPrefixed(s: Bytes): Bytes {
    Varint(|s|) + s
  }

  function GetLengthPrefixed(input: Bytes): (r: Option<(Bytes, Bytes)>)
    ensures r.Some? ==> |r.value.1| < |input|
  {
    var n := GetVarint32(input);
    if n.None? || |n.value.1| < n.value.0 then None
    else Some((n.value.1[..n.value.0], n.value.1[n.value.0..]))
  }

  lemma LengthPrefixedRoundTrip(s: Bytes, rest: Bytes)
    requires |s| < TWO32
    ensures GetLengthPrefixed(LengthPrefixed(s) + rest) == Some((s, rest))
  {
    assert LengthPrefixed(s) + rest == Varint(|s|) + (s + rest);
    Varint32RoundTrip(|s|, s + rest);
    assert (s + rest)[..|s|] == s && (s + rest)[|s|..] == rest;
  }

  lemma {:induction false} VarintCut(v: nat, cut: nat, max: nat)
    requires cut < |Varint(v)|
    ensures VarintLength(Varint(v)[..cut], max) == None
  {
    if cut > 0 && max > 0 {
      assert Varint(v)[..cut][1..] == Varint(v / 128)[..cut - 1];
      VarintCut(v / 128, cut - 1, max - 1);
    }
  }

  lemma Varint64Cut(v: nat, cut: nat)
    requires cut < |Varint(v)|
    ensures GetVarint64(Varint(v)[..cut]) == None && GetVarint32(Varint(v)[..cut]) == None
  {
    hide Varint, VarintLength;
    VarintCut(v, cut, 10);
    VarintCut(v, cut, 5);
  }

  /** A string that is cut off is not read, wherever the cut is. */
  lemma LengthPrefixedCut(s: Bytes, cut: nat)
    requires |s| < TWO32 && cut < |LengthPrefixed(s)|
    ensures GetLengthPrefixed(LengthPrefixed(s)[..cut]) == None
  {
    hide Varint;
    var n := |Varint(|s|)|;
    if cut < n {
      assert LengthPrefixed(s)[..cut] == Varint(|s|)[..cut];
      VarintCut(|s|, cut, 5);
    } else {
      assert LengthPrefixed(s)[..cut] == Varint(|s|) + s[..cut - n];
      Varint32RoundTrip(|s|, s[..cut - n]);
    }
  }
}
