/** bloom.cc and filter_block.cc: Bloom filters by double hashing, and the block that holds one filter for every
    2 KiB of data.  The hash is a parameter: nothing here depends on what it computes. */
module Filters {
  import opened Keys
  import opened Coding

  // ----- Bits of a byte array

  function Pow2(n: nat): (r: nat)
    ensures r >= 1
  {
    if n == 0 then 1 else 2 * Pow2(n - 1)
  }

  predicate Bit(b: nat, i: nat) {
    if i == 0 then b % 2 == 1 else Bit(b / 2, i - 1)
  }

  /** b | (1 << i). */
  function SetBit(b: nat, i: nat): nat {
    if i == 0 then b / 2 * 2 + 1 else b % 2 + 2 * SetBit(b / 2, i - 1)
  }

  lemma {:induction false} SetBitBits(b: nat, i: nat, j: nat)
    ensures Bit(SetBit(b, i), j) == (j == i || Bit(b, j))
  {
    if i > 0 && j > 0 {
      SetBitBits(b / 2, i - 1, j - 1);
    }
  }

  lemma {:induction false} SetBitBound(b: nat, i: nat, n: nat)
    requires i < n && b < Pow2(n)
    ensures SetBit(b, i) < Pow2(n)
  {
    var half := Pow2(n - 1);
    assert b / 2 < half;
    if i > 0 {
      SetBitBound(b / 2, i - 1, n - 1);
    }
  }

  predicate ArrayBit(a: Bytes, p: nat)
    requires p < 8 * |a|
  {
    Bit(a[p / 8], p % 8)
  }

  function SetArrayBit(a: Bytes, p: nat): (r: Bytes)
    requires p < 8 * |a|
    ensures |r| == |a|
    ensures forall q :: 0 <= q < 8 * |a| ==> ArrayBit(r, q) == (q == p || ArrayBit(a, q))
  {
    var r := SetByte(a[p / 8], p % 8);
    a[p / 8 := r]
  }

  function SetByte(b: Byte, i: nat): (r: Byte)
    requires i < 8
    ensures forall j :: 0 <= j < 8 ==> Bit(r, j) == (j == i || Bit(b, j))
  {
    assert Pow2(8) == 256;
    SetBitBound(b, i, 8);
    AllBits(b, i);
    SetBit(b, i)
  }

  lemma AllBits(b: nat, i: nat)
    ensures forall j: nat :: Bit(SetBit(b, i), j) == (j == i || Bit(b, j))
  {
    forall j: nat ensures Bit(SetBit(b, i), j) == (j == i || Bit(b, j)) {
      SetBitBits(b, i, j);
    }
  }

  // ----- Bloom filters

  /** Rotate right by 17 bits. */
  function Delta(h: Word): Word {
    h / 0x2_0000 + h % 0x2_0000 * 0x8000
  }

  function ShiftLeft(v: nat, n: nat): nat {
    if n == 0 then v else 2 * ShiftLeft(v, n - 1)
  }

  lemma {:induction false} BitJoin(low: nat, high: nat, n: nat, i: nat)
    requires low < Pow2(n)
    ensures Bit(low + ShiftLeft(high, n), i) == if i < n then Bit(low, i) else Bit(high, i - n)
  {
    if n > 0 {
      var v, half := low + ShiftLeft(high, n), ShiftLeft(high, n - 1);
      assert v % 2 == low % 2 && v / 2 == low / 2 + half;
      if i > 0 {
        BitJoin(low / 2, high, n - 1, i - 1);
      }
    }
  }

  /** Bit by bit. */
  lemma DeltaRotates(h: Word, i: nat)
    requires i < 32
    ensures Bit(Delta(h), i) <==> Bit(h, (i + 17) % 32)
  {
    hide Bit, ShiftLeft, Pow2;
    Powers();
    var low, high := h % 0x2_0000, h / 0x2_0000;
    Shifts15(low);
    Shifts17(high);
    BitJoin(high, low, 15, i);
    BitJoin(low, high, 17, (i + 17) % 32);
  }

  lemma Powers()
    ensures Pow2(15) == 0x8000 && Pow2(17) == 0x2_0000
  {
    assert Pow2(5) == 32 && Pow2(10) == 1024;
  }

  lemma ShiftFive(v: nat, n: nat)
    ensures ShiftLeft(v, n + 5) == 32 * ShiftLeft(v, n)
  {
    assert ShiftLeft(v, n + 2) == 4 * ShiftLeft(v, n);
    assert ShiftLeft(v, n + 4) == 4 * ShiftLeft(v, n + 2);
  }

  lemma Shifts15(v: nat)
    ensures ShiftLeft(v, 15) == v * 0x8000
  {
    ShiftFive(v, 0);
    ShiftFive(v, 5);
    ShiftFive(v, 10);
  }

  lemma Shifts17(v: nat)
    ensures ShiftLeft(v, 17) == v * 0x2_0000
  {
    Shifts15(v);
    assert ShiftLeft(v, 16) == 2 * ShiftLeft(v, 15);
  }

  /** The bit of probe j among the given number of bits; h + j * delta wraps at 32 bits. */
  function Probe(h: Word, j: nat): Word {
    if j == 0 then h else (Probe(h, j - 1) + Delta(h)) % TWO32
  }

  /** In one step: the hash plus j times the rotated hash. */
  lemma {:induction false} ProbeIs(h: Word, j: nat)
    ensures Probe(h, j) == (h + j * Delta(h)) % TWO32
  {
    hide Delta, Probe;
    OneMore(j, Delta(h));
    if j > 0 {
      ProbeIs(h, j - 1);
      ProbeStep(h, j - 1, (j - 1) * Delta(h));
    } else {
      ProbeStart(h);
    }
  }

  lemma ProbeStart(h: Word)
    ensures Probe(h, 0) == (h + 0) % TWO32
  {
  }

  lemma ProbeStep(h: Word, j: nat, a: nat)
    requires Probe(h, j) == (h + a) % TWO32
    ensures Probe(h, j + 1) == (h + (a + Delta(h))) % TWO32
  {
    hide Delta;
    ModAdd(h + a, Delta(h));
  }

  lemma OneMore(j: nat, d: nat)
    ensures if j == 0 then j * d == 0 else (j - 1) * d + d == j * d
  {
  }

  lemma ModAdd(a: nat, b: nat)
    ensures (a % TWO32 + b) % TWO32 == (a + b) % TWO32
  {
  }

  ghost predicate Hit(h: Word, k: nat, bits: nat, p: nat)
    requires bits > 0
  {
    exists j :: 0 <= j < k && Probe(h, j) % bits == p
  }

  ghost predicate AnyHit(hash: Bytes -> Word, keys: seq<Bytes>, k: nat, bits: nat, p: nat)
    requires bits > 0
  {
    exists i :: 0 <= i < |keys| && Hit(hash(keys[i]), k, bits, p)
  }

  /** Every probe of the key hits a bit that some probe of the keys hits. */
  ghost predicate AllHit(hash: Bytes -> Word, keys: seq<Bytes>, k: nat, bits: nat, key: Bytes)
    requires bits > 0
  {
    forall j :: 0 <= j < k ==> AnyHit(hash, keys, k, bits, Probe(hash(key), j) % bits)
  }

  /** Room for bitsPerKey bits a key, at least 64. */
  function FilterBytes(n: nat, bitsPerKey: nat): (r: nat)
    ensures r >= 8 && 8 * r >= n * bitsPerKey && (r > 8 ==> 8 * r < n * bitsPerKey + 8)
  {
    ((if n * bitsPerKey < 64 then 64 else n * bitsPerKey) + 7) / 8
  }

  /** filter is exactly what CreateFilter makes of the keys: a bit is set if and only if some probe of some key
      hits it, and the last byte is the number of probes. */
  ghost predicate IsFilter(hash: Bytes -> Word, bitsPerKey: nat, k: Byte, keys: seq<Bytes>, filter: Bytes) {
    var n := FilterBytes(|keys|, bitsPerKey);
    && |filter| == n + 1 && filter[n] == k
    && forall p :: 0 <= p < 8 * n ==> ArrayBit(filter[..n], p) == AnyHit(hash, keys, k, 8 * n, p)
  }

  /** How many probes a filter makes for a key. */
  type Probes = k: Byte | 1 <= k <= 30 witness 1

  class BloomFilterPolicy {
    const hash: Bytes -> Word
    const bitsPerKey: nat
    const k: Probes

    /** The number of probes is bitsPerKey times 0.69, rounded down, within 1 and 30. */
    constructor (hash: Bytes -> Word, bitsPerKey: nat)
      ensures this.hash == hash && this.bitsPerKey == bitsPerKey
      ensures (k > 1 ==> 100 * k <= 69 * bitsPerKey) && (k < 30 ==> 69 * bitsPerKey < 100 * (k + 1))
    {
      this.hash, this.bitsPerKey := hash, bitsPerKey;
      var k: nat := (bitsPerKey as real * 0.69).Floor;
      if k < 1 {
        k := 1;
      }
      if k > 30 {
        k := 30;
      }
      this.k := k;
    }

    method CreateFilter(keys: seq<Bytes>, dst: Bytes) returns (r: Bytes)
      ensures |r| >= |dst| && r[..|dst|] == dst && IsFilter(hash, bitsPerKey, k, keys, r[|dst|..])
    {
      var bits := |keys| * bitsPerKey;
      if bits < 64 {
        bits := 64;
      }
      var bytes := (bits + 7) / 8;
      bits := bytes * 8;
      var a: Bytes := seq(bytes, _ => 0);
      NoBits(a);
      for i := 0 to |keys|
        invariant |a| == bytes
        invariant forall p :: 0 <= p < bits ==> ArrayBit(a, p) == AnyHit(hash, keys[..i], k, bits, p)
      {
        ghost var before := a;
        a := SetProbes(a, hash(keys[i]));
        AnyHitStep(hash, keys, i, k, bits);
      }
      assert keys[..|keys|] == keys;
      r := dst + a + [k];
      assert r[|dst|..] == a + [k] && (a + [k])[..bytes] == a;
    }

    method SetProbes(old_: Bytes, key: Word) returns (a: Bytes)
      requires |old_| > 0
      ensures |a| == |old_|
      ensures forall p :: 0 <= p < 8 * |a| ==> ArrayBit(a, p) == (ArrayBit(old_, p) || Hit(key, k, 8 * |a|, p))
    {
      a := old_;
      var h, delta := key, Delta(key);
      for j := 0 to k
        invariant |a| == |old_| && h == Probe(key, j)
        invariant forall p :: 0 <= p < 8 * |a| ==> ArrayBit(a, p) == (ArrayBit(old_, p) || Hit(key, j, 8 * |a|, p))
      {
        HitStep(key, j, 8 * |a|);
        a := SetArrayBit(a, h % (8 * |a|));
        h := (h + delta) % TWO32;
      }
    }

    method KeyMayMatch(key: Bytes, filter: Bytes) returns (r: bool)
      ensures r == MayMatch(hash, key, filter)
    {
      if |filter| < 2 {
        return false;
      }
      var bits := (|filter| - 1) * 8;
      var probes := filter[|filter| - 1];
      if probes > 30 {
        return true;
      }
      var h: Word, delta := hash(key), Delta(hash(key));
      for j := 0 to probes
        invariant h == Probe(hash(key), j)
        invariant forall i :: 0 <= i < j ==> ArrayBit(filter[..|filter| - 1], Probe(hash(key), i) % bits)
      {
        if !ArrayBit(filter[..|filter| - 1], h % bits) {
          return false;
        }
        h := (h + delta) % TWO32;
      }
      return true;
    }
  }

  lemma NoBits(a: Bytes)
    requires forall i :: 0 <= i < |a| ==> a[i] == 0
    ensures forall p :: 0 <= p < 8 * |a| ==> !ArrayBit(a, p)
  {
    forall p | 0 <= p < 8 * |a|
      ensures !ArrayBit(a, p)
    {
      ZeroBits(p % 8);
    }
  }

  lemma {:induction false} ZeroBits(i: nat)
    ensures !Bit(0, i)
  {
    if i > 0 {
      ZeroBits(i - 1);
    }
  }

  lemma HitStep(h: Word, k: nat, bits: nat)
    requires bits > 0
    ensures forall p :: Hit(h, k + 1, bits, p) == (Hit(h, k, bits, p) || Probe(h, k) % bits == p)
  {
  }

  lemma AnyHitStep(hash: Bytes -> Word, keys: seq<Bytes>, n: nat, k: nat, bits: nat)
    requires bits > 0 && n < |keys|
    ensures forall p :: AnyHit(hash, keys[..n + 1], k, bits, p)
              == (AnyHit(hash, keys[..n], k, bits, p) || Hit(hash(keys[n]), k, bits, p))
  {
  }

  ghost predicate MayMatch(hash: Bytes -> Word, key: Bytes, filter: Bytes) {
    && |filter| >= 2
    && var bits := (|filter| - 1) * 8;
       var probes := filter[|filter| - 1];
       probes > 30 || forall j :: 0 <= j < probes ==> ArrayBit(filter[..|filter| - 1], Probe(hash(key), j) % bits)
  }

  /** A filter is only mistaken about keys all of whose bits were hit by other keys. */
  lemma BloomAnswers(hash: Bytes -> Word, bitsPerKey: nat, k: Probes, keys: seq<Bytes>, filter: Bytes, key: Bytes)
    requires IsFilter(hash, bitsPerKey, k, keys, filter)
    ensures MayMatch(hash, key, filter) <==> AllHit(hash, keys, k, 8 * FilterBytes(|keys|, bitsPerKey), key)
  {
    hide ArrayBit, AnyHit;
    var n := FilterBytes(|keys|, bitsPerKey);
    assert |filter| - 1 == n;
    var bits := 8 * n;
    if MayMatch(hash, key, filter) {
      forall j | 0 <= j < k ensures AnyHit(hash, keys, k, bits, Probe(hash(key), j) % bits) {
        assert ArrayBit(filter[..|filter| - 1], Probe(hash(key), j) % bits);
      }
    } else {
      var j :| 0 <= j < k && !ArrayBit(filter[..|filter| - 1], Probe(hash(key), j) % bits);
      assert !AnyHit(hash, keys, k, bits, Probe(hash(key), j) % bits);
    }
  }

  /** A key that went into the filter matches it. */
  lemma BloomNoFalseNegatives(hash: Bytes -> Word, bitsPerKey: nat, k: Byte, keys: seq<Bytes>, filter: Bytes, i: nat)
    requires IsFilter(hash, bitsPerKey, k, keys, filter) && i < |keys|
    ensures MayMatch(hash, keys[i], filter)
  {
  }

  // ----- The filter block

  const BASE_LG: Byte := 11
  const BASE: nat := 2048

  /** InternalFilterPolicy filters on the user key of an internal key. */
  function FilterKey(internalKeys: bool, key: Bytes): Bytes {
    if internalKeys && |key| >= 8 then key[..|key| - 8] else key
  }

  function FilterKeys(internalKeys: bool, keys: seq<Bytes>): seq<Bytes> {
    seq(|keys|, i requires 0 <= i < |keys| => FilterKey(internalKeys, keys[i]))
  }

  function Concat(parts: seq<Bytes>, n: nat): Bytes
    requires n <= |parts|
  {
    if n == 0 then [] else Concat(parts, n - 1) + parts[n - 1]
  }

  lemma {:induction false} ConcatPrefix(parts: seq<Bytes>, more: seq<Bytes>, n: nat)
    requires n <= |parts| && parts <= more
    ensures Concat(parts, n) == Concat(more, n)
  {
    if n > 0 {
      ConcatPrefix(parts, more, n - 1);
    }
  }

  lemma {:induction false} ConcatPart(parts: seq<Bytes>, n: nat, i: nat)
    requires i < n <= |parts|
    ensures |Concat(parts, i)| <= |Concat(parts, i + 1)| <= |Concat(parts, n)|
    ensures Concat(parts, n)[|Concat(parts, i)|..|Concat(parts, i + 1)|] == parts[i]
  {
    var whole := Concat(parts, n);
    if i < n - 1 {
      ConcatPart(parts, n - 1, i);
      var shorter := Concat(parts, n - 1);
      assert whole[..|shorter|] == shorter;
      assert whole[|Concat(parts, i)|..|Concat(parts, i + 1)|] == shorter[|Concat(parts, i)|..|Concat(parts, i + 1)|];
    }
  }

  /** A filter in the block: empty when it has no keys, otherwise what the policy makes of them. */
  ghost predicate FilterOf(policy: BloomFilterPolicy, internalKeys: bool, keys: seq<Bytes>, filter: Bytes) {
    if keys == [] then filter == []
    else IsFilter(policy.hash, policy.bitsPerKey, policy.k, FilterKeys(internalKeys, keys), filter)
  }

  /** A key added while the block at this offset was being built. */
  datatype Added = Added(offset: nat, key: Bytes)

  /** The keys of each finished filter and the filters themselves. */
  datatype Plan = Plan(groups: seq<seq<Bytes>>, filters: seq<Bytes>)

  ghost predicate Planned(policy: BloomFilterPolicy, internalKeys: bool, plan: Plan) {
    && |plan.groups| == |plan.filters|
    && forall i :: 0 <= i < |plan.groups| ==> FilterOf(policy, internalKeys, plan.groups[i], plan.filters[i])
  }

  /** Every added key is in the group of its block's 2 KiB, or still pending for the next group. */
  ghost predicate Grouped(added: set<Added>, groups: seq<seq<Bytes>>, pending: seq<Bytes>) {
    forall a <- added ::
      if a.offset / BASE < |groups| then a.key in groups[a.offset / BASE]
      else a.offset / BASE == |groups| && a.key in pending
  }

  /** A group holds nothing else. */
  ghost predicate OnlyAdded(added: set<Added>, groups: seq<seq<Bytes>>, pending: seq<Bytes>) {
    && (forall i, key: Bytes :: 0 <= i < |groups| && key in groups[i] ==> AddedIn(added, i, key))
    && forall key: Bytes :: key in pending ==> AddedIn(added, |groups|, key)
  }

  ghost predicate AddedIn(added: set<Added>, i: nat, key: Bytes) {
    exists offset: nat :: Added(offset, key) in added && offset / BASE == i
  }

  /** All probes of the key hit bits that probes of keys of the group hit. */
  ghost predicate Collides(policy: BloomFilterPolicy, internalKeys: bool, keys: seq<Bytes>, key: Bytes) {
    keys != [] && AllHit(policy.hash, FilterKeys(internalKeys, keys), policy.k,
                         8 * FilterBytes(|keys|, policy.bitsPerKey), FilterKey(internalKeys, key))
  }

  class FilterBlockBuilder {
    const policy: BloomFilterPolicy
    const internalKeys: bool
    var keys: Bytes
    var start: seq<nat>
    var result: Bytes
    var filterOffsets: seq<nat>
    ghost var pending: seq<Bytes>
    ghost var plan: Plan
    ghost var added: set<Added>
    ghost var block: Option<nat>  // the offset given to the last StartBlock

    /** The fields agree with the pending keys and the finished filters. */
    ghost predicate Consistent()
      reads this
    {
      && IsConcat(keys, start, pending)
      && Planned(policy, internalKeys, plan) && IsConcat(result, filterOffsets, plan.filters)
      && Grouped(added, plan.groups, pending) && OnlyAdded(added, plan.groups, pending)
    }

    ghost predicate Valid()
      reads this
    {
      && Consistent()
      && (if block.Some? then block.value / BASE == |filterOffsets| else pending == [])
    }

    lemma Facts()
      requires Valid() && block.Some?
      ensures |filterOffsets| == block.value / BASE
    {
    }

    constructor (policy: BloomFilterPolicy, internalKeys: bool)
      ensures Valid() && this.policy == policy && this.internalKeys == internalKeys && added == {} && block == None
      ensures filterOffsets == []
    {
      this.policy, this.internalKeys := policy, internalKeys;
      keys, start, result, filterOffsets := [], [], [], [];
      pending, plan, added, block := [], Plan([], []), {}, None;
    }

    /** The caller's blocks start at offsets that do not fall behind the filters already made. */
    method StartBlock(offset: nat)
      requires Valid() && offset / BASE >= |filterOffsets|
      modifies this
      ensures Valid() && added == old(added) && block == Some(offset) && |filterOffsets| == offset / BASE
    {
      hide Planned, IsConcat, Grouped, OnlyAdded;
      var index := offset / BASE;
      while index > |filterOffsets|
        invariant Consistent() && added == old(added) && |filterOffsets| <= index
        decreases index - |filterOffsets|
      {
        GenerateFilter();
      }
      block := Some(offset);
    }

    method AddKey(key: Bytes)
      requires Valid() && block.Some?
      modifies this
      ensures Valid() && block == old(block) && filterOffsets == old(filterOffsets)
      ensures added == old(added) + {Added(old(block).value, key)}
    {
      hide Planned, IsConcat, OnlyAdded;
      ConcatAppend(keys, start, pending, key);
      PlannedLength(policy, internalKeys, plan, result, filterOffsets);
      OnlyAddedMore(added, plan.groups, pending, block.value, key);
      start := start + [|keys|];
      keys := keys + key;
      pending := pending + [key];
      added := added + {Added(block.value, key)};
    }

    /** Turns the pending keys into the next filter. */
    method GenerateFilter()
      requires Consistent()
      modifies this
      ensures Consistent() && added == old(added) && block == old(block) && pending == []
      ensures |filterOffsets| == |old(filterOffsets)| + 1
    {
      hide Planned, IsConcat, FilterOf, Grouped, OnlyAdded;
      var filter := [];
      PlannedLength(policy, internalKeys, plan, result, filterOffsets);
      ConcatLength(keys, start, pending);
      NoFilter(policy, internalKeys);
      filterOffsets := filterOffsets + [|result|];
      if start != [] {
        var n := |start|;
        var bounds := start + [|keys|];
        var tmpKeys := [];
        for i := 0 to n
          invariant unchanged(this`result, this`keys, this`start, this`pending, this`added, this`block, this`plan)
          invariant filterOffsets == old(filterOffsets) + [|result|]
          invariant tmpKeys == FilterKeys(internalKeys, pending[..i])
        {
          ConcatSlice(keys, start, pending, i);
          tmpKeys := tmpKeys + [FilterKey(internalKeys, keys[bounds[i]..bounds[i + 1]])];
        }
        assert pending[..n] == pending;
        var longer := policy.CreateFilter(tmpKeys, result);
        filter := longer[|result|..];
        assert result + filter == longer;
        result := longer;
        keys, start := [], [];
        MadeFilter(policy, internalKeys, pending, filter);
      }
      assert result == old(result) + filter && FilterOf(policy, internalKeys, pending, filter);
      assert keys == [] && start == [];
      ConcatAppend(old(result), old(filterOffsets), plan.filters, filter);
      PlannedAppend(policy, internalKeys, plan, pending, filter);
      GroupedNext(added, plan.groups, pending);
      plan := Plan(plan.groups + [pending], plan.filters + [filter]);
      pending := [];
      ConcatNothing();
    }

    /** The filters, the offset of each, the offset of that array, and the base-2 logarithm of 2 KiB. */
    method Finish() returns (contents: Bytes)
      requires Valid()
      modifies this
      ensures added == old(added)
      ensures |contents| < TWO32 ==>
                forall a <- added :: BlockMayMatch(policy.hash, internalKeys, contents, a.offset, a.key)
      ensures OnlyAdded(added, plan.groups, []) && Grouped(added, plan.groups, [])
      ensures |contents| < TWO32 ==>
                forall offset: nat, key :: BlockMayMatch(policy.hash, internalKeys, contents, offset, key) <==>
                  (offset / BASE < |plan.groups| ==> Collides(policy, internalKeys, plan.groups[offset / BASE], key))
    {
      hide Planned, IsConcat, FilterOf, Grouped, OnlyAdded, Collides, BlockMayMatch;
      ConcatLength(keys, start, pending);
      if start != [] {
        GenerateFilter();
      }
      ghost var filters := result;
      var arrayOffset := |result|;
      WriteOffsets();
      result := result + Fixed32(arrayOffset);
      result := result + [BASE_LG];
      contents := result;
      if |contents| < TWO32 {
        forall a | a in added
          ensures BlockMayMatch(policy.hash, internalKeys, contents, a.offset, a.key)
        {
          FilterFound(policy, internalKeys, plan, filters, filterOffsets, added, a, contents);
        }
        forall offset: nat, key
          ensures BlockMayMatch(policy.hash, internalKeys, contents, offset, key) <==>
                    (offset / BASE < |plan.groups| ==> Collides(policy, internalKeys, plan.groups[offset / BASE], key))
        {
          FilterAnswers(policy, internalKeys, plan, filters, filterOffsets, contents, offset, key);
        }
      }
    }

    method WriteOffsets()
      modifies `result
      ensures result == old(result) + FixedArray(filterOffsets, |filterOffsets|)
    {
      for i := 0 to |filterOffsets|
        invariant result == old(result) + FixedArray(filterOffsets, i)
      {
        result := result + Fixed32(filterOffsets[i]);
      }
    }
  }

  // ----- Reading the filter block

  /** Where the offset array starts, how many filters there are, and the base-2 logarithm; no filters when the
      contents make no sense. */
  function ReaderShape(contents: Bytes): (r: (nat, nat, nat))
    ensures r.1 > 0 ==> r.0 + 4 * r.1 + 5 <= |contents|
  {
    var n := |contents|;
    if n < 5 then (0, 0, 0)
    else
      var lastWord := DecodeFixed(contents[n - 5..n - 1]);
      if lastWord > n - 5 then (0, 0, contents[n - 1]) else (lastWord, (n - 5 - lastWord) / 4, contents[n - 1])
  }

  function WordAt(contents: Bytes, i: nat): nat
    requires i + 4 <= |contents|
  {
    DecodeFixed(contents[i..i + 4])
  }

  function ShiftRight(v: nat, n: nat): nat {
    if n == 0 then v else ShiftRight(v / 2, n - 1)
  }

  lemma ShiftBase(v: nat)
    ensures ShiftRight(v, BASE_LG) == v / BASE
  {
    ShiftFour(v, 7);
    ShiftFour(v / 16, 3);
    var w := v / 16 / 16;
    assert ShiftRight(w / 2 / 2 / 2, 0) == w / 2 / 2 / 2;
    assert ShiftRight(w / 2 / 2, 1) == w / 2 / 2 / 2;
    assert ShiftRight(w / 2, 2) == w / 2 / 2 / 2;
    assert w / 2 / 2 / 2 == v / BASE;
  }

  lemma ShiftFour(v: nat, n: nat)
    ensures ShiftRight(v, n + 4) == ShiftRight(v / 16, n)
  {
    assert ShiftRight(v / 2 / 2 / 2, n + 1) == ShiftRight(v / 2 / 2 / 2 / 2, n);
    assert ShiftRight(v / 2 / 2, n + 2) == ShiftRight(v / 2 / 2 / 2, n + 1);
    assert ShiftRight(v / 2, n + 3) == ShiftRight(v / 2 / 2, n + 2);
    assert v / 2 / 2 / 2 / 2 == v / 16;
  }

  /** Filter `index` of `num`, the offsets being at position `from`. */
  ghost predicate FilterMatches(hash: Bytes -> Word, key: Bytes, contents: Bytes, from: nat, num: nat, index: nat)
    requires num > 0 ==> from + 4 * num + 5 <= |contents|
  {
    index < num ==>
      var start, limit := WordAt(contents, from + 4 * index), WordAt(contents, from + 4 * index + 4);
      if start <= limit && limit <= from then MayMatch(hash, key, contents[start..limit]) else start != limit
  }

  /** FilterBlockReader::KeyMayMatch. */
  ghost predicate BlockMayMatch(hash: Bytes -> Word, internalKeys: bool, contents: Bytes, offset: nat, key: Bytes) {
    var shape := ReaderShape(contents);
    FilterMatches(hash, FilterKey(internalKeys, key), contents, shape.0, shape.1, ShiftRight(offset, shape.2))
  }

  class FilterBlockReader {
    const policy: BloomFilterPolicy
    const internalKeys: bool
    const contents: Bytes
    const offset: nat
    const num: nat
    const baseLg: nat

    constructor (policy: BloomFilterPolicy, internalKeys: bool, contents: Bytes)
      ensures this.policy == policy && this.internalKeys == internalKeys && this.contents == contents && Valid()
    {
      this.policy, this.internalKeys, this.contents := policy, internalKeys, contents;
      var (from, n, lg) := ReaderShape(contents);
      offset, num, baseLg := from, n, lg;
    }

    ghost predicate Valid() {
      (offset, num, baseLg) == ReaderShape(contents)
    }

    method KeyMayMatch(blockOffset: nat, key: Bytes) returns (r: bool)
      requires Valid()
      ensures r == BlockMayMatch(policy.hash, internalKeys, contents, blockOffset, key)
    {
      hide MayMatch, DecodeFixed, ShiftRight, ReaderShape;
      var index := ShiftRight(blockOffset, baseLg);
      if index < num {
        var start := WordAt(contents, offset + 4 * index);
        var limit := WordAt(contents, offset + 4 * index + 4);
        if start <= limit && limit <= offset {
          r := policy.KeyMayMatch(FilterKey(internalKeys, key), contents[start..limit]);
          return;
        } else if start == limit {
          return false;
        }
      }
      return true;
    }
  }

  lemma FilterBlockShape(filters: Bytes, bounds: seq<nat>, contents: Bytes)
    requires bounds != [] && bounds[|bounds| - 1] == |filters| && |contents| < TWO32
    requires contents == filters + FixedArray(bounds, |bounds|) + [BASE_LG]
    ensures ReaderShape(contents) == (|filters|, |bounds| - 1, BASE_LG)
  {
    hide *;
    var n, last := |contents|, |bounds| - 1;
    var words := FixedArray(bounds, |bounds|);
    FixedArrayAt(bounds, |bounds|, last);
    MiddleSlice(filters, words, [BASE_LG], 4 * last, 4 * last + 4);
    assert contents[n - 5..n - 1] == Fixed32(|filters|);
    ShapeIs(contents, |filters|);
  }

  lemma ShapeIs(contents: Bytes, v: nat)
    requires |contents| >= 5 && v <= |contents| - 5 && v < TWO32
    requires contents[|contents| - 5..|contents| - 1] == Fixed32(v)
    ensures ReaderShape(contents) == (v, (|contents| - 5 - v) / 4, contents[|contents| - 1])
  {
    hide Fixed32, DecodeFixed;
    Fixed32RoundTrip(v);
  }

  lemma FilterBlockWord(filters: Bytes, bounds: seq<nat>, contents: Bytes, i: nat, p: nat)
    requires i < |bounds| && bounds[i] < TWO32 && p == |filters| + 4 * i
    requires contents == filters + FixedArray(bounds, |bounds|) + [BASE_LG]
    ensures p + 4 <= |contents| && WordAt(contents, p) == bounds[i]
  {
    hide *;
    var words := FixedArray(bounds, |bounds|);
    FixedArrayAt(bounds, |bounds|, i);
    var from, to := 4 * i, 4 * i + 4;
    MiddleSlice(filters, words, [BASE_LG], from, to);
    assert p == |filters| + from && p + 4 == |filters| + to;
    assert contents[p..p + 4] == Fixed32(bounds[i]);
    WordIs(contents, p, bounds[i]);
  }

  lemma WordIs(contents: Bytes, i: nat, v: nat)
    requires i + 4 <= |contents| && contents[i..i + 4] == Fixed32(v) && v < TWO32
    ensures WordAt(contents, i) == v
  {
    hide Fixed32, DecodeFixed;
    Fixed32RoundTrip(v);
  }

  /** The block answers for an offset what the filter of its 2 KiB answers. */
  lemma FilterAnswers(policy: BloomFilterPolicy, internalKeys: bool, plan: Plan, filters: Bytes, offsets: seq<nat>,
                      contents: Bytes, offset: nat, key: Bytes)
    requires Planned(policy, internalKeys, plan) && IsConcat(filters, offsets, plan.filters)
    requires contents == filters + FixedArray(offsets, |offsets|) + Fixed32(|filters|) + [BASE_LG] && |contents| < TWO32
    ensures |plan.groups| == |plan.filters|
    ensures BlockMayMatch(policy.hash, internalKeys, contents, offset, key) <==>
              (offset / BASE < |plan.groups| ==> Collides(policy, internalKeys, plan.groups[offset / BASE], key))
  {
    hide FixedArray, IsFilter, MayMatch, IsConcat, FilterOf, Fixed32, WordAt, ReaderShape, Collides;
    PlannedLength(policy, internalKeys, plan, filters, offsets);
    var bounds := offsets + [|filters|];
    var i := offset / BASE;
    assert FixedArray(bounds, |bounds|) == FixedArray(offsets, |offsets|) + Fixed32(|filters|) by {
      FixedArrayPush(offsets, |filters|);
    }
    FilterBlockShape(filters, bounds, contents);
    ShiftBase(offset);
    hide ShiftRight;
    if i < |plan.groups| {
      ConcatSlice(filters, offsets, plan.filters, i);
      FilterBlockWord(filters, bounds, contents, i, |filters| + 4 * i);
      FilterBlockWord(filters, bounds, contents, i + 1, |filters| + 4 * i + 4);
      assert contents[bounds[i]..bounds[i + 1]] == filters[bounds[i]..bounds[i + 1]];
      GroupAnswers(policy, internalKeys, plan.groups[i], plan.filters[i], key);
    }
  }

  /** Every key added for a block is found again through that block's offset. */
  lemma FilterFound(policy: BloomFilterPolicy, internalKeys: bool, plan: Plan, filters: Bytes, offsets: seq<nat>,
                    added: set<Added>, a: Added, contents: Bytes)
    requires Planned(policy, internalKeys, plan) && IsConcat(filters, offsets, plan.filters)
    requires Grouped(added, plan.groups, []) && a in added
    requires contents == filters + FixedArray(offsets, |offsets|) + Fixed32(|filters|) + [BASE_LG] && |contents| < TWO32
    ensures BlockMayMatch(policy.hash, internalKeys, contents, a.offset, a.key)
  {
    hide FixedArray, IsConcat, FilterOf, Fixed32, BlockMayMatch, IsFilter, MayMatch, Collides;
    FilterAnswers(policy, internalKeys, plan, filters, offsets, contents, a.offset, a.key);
    var keys, filter := plan.groups[a.offset / BASE], plan.filters[a.offset / BASE];
    GroupAnswers(policy, internalKeys, keys, filter, a.key);
    GroupMatches(policy, internalKeys, keys, filter, a.key);
  }

  lemma GroupAnswers(policy: BloomFilterPolicy, internalKeys: bool, keys: seq<Bytes>, filter: Bytes, key: Bytes)
    requires FilterOf(policy, internalKeys, keys, filter)
    ensures MayMatch(policy.hash, FilterKey(internalKeys, key), filter) <==> Collides(policy, internalKeys, keys, key)
  {
    hide IsFilter, AnyHit;
    if keys != [] {
      BloomAnswers(policy.hash, policy.bitsPerKey, policy.k, FilterKeys(internalKeys, keys), filter,
                   FilterKey(internalKeys, key));
      assert |FilterKeys(internalKeys, keys)| == |keys|;
    }
  }

  lemma GroupMatches(policy: BloomFilterPolicy, internalKeys: bool, keys: seq<Bytes>, filter: Bytes, key: Bytes)
    requires FilterOf(policy, internalKeys, keys, filter) && key in keys
    ensures MayMatch(policy.hash, FilterKey(internalKeys, key), filter)
  {
    hide IsFilter, MayMatch;
    var j :| 0 <= j < |keys| && keys[j] == key;
    BloomNoFalseNegatives(policy.hash, policy.bitsPerKey, policy.k, FilterKeys(internalKeys, keys), filter, j);
  }

  /** The parts one after the other, and where each begins. */
  ghost predicate IsConcat(whole: Bytes, offsets: seq<nat>, parts: seq<Bytes>) {
    && |offsets| == |parts| && whole == Concat(parts, |parts|)
    && forall i :: 0 <= i < |parts| ==> offsets[i] == |Concat(parts, i)|
  }

  lemma ConcatNothing()
    ensures IsConcat([], [], [])
  {
  }

  lemma ConcatLength(whole: Bytes, offsets: seq<nat>, parts: seq<Bytes>)
    requires IsConcat(whole, offsets, parts)
    ensures |offsets| == |parts| && (parts == [] ==> whole == [])
  {
  }

  lemma ConcatAppend(whole: Bytes, offsets: seq<nat>, parts: seq<Bytes>, part: Bytes)
    requires IsConcat(whole, offsets, parts)
    ensures IsConcat(whole + part, offsets + [|whole|], parts + [part])
  {
    var more := parts + [part];
    forall i | 0 <= i <= |parts|
      ensures Concat(more, i) == Concat(parts, i)
    {
      ConcatPrefix(parts[..i], parts, i);
      ConcatPrefix(parts[..i], more, i);
    }
  }

  lemma ConcatSlice(whole: Bytes, offsets: seq<nat>, parts: seq<Bytes>, i: nat)
    requires IsConcat(whole, offsets, parts) && i < |parts|
    ensures var bounds := offsets + [|whole|];
            bounds[i] <= bounds[i + 1] <= |whole| && whole[bounds[i]..bounds[i + 1]] == parts[i]
  {
    ConcatPart(parts, |parts|, i);
  }

  lemma PlannedLength(policy: BloomFilterPolicy, internalKeys: bool, plan: Plan, result: Bytes, offsets: seq<nat>)
    requires Planned(policy, internalKeys, plan) && IsConcat(result, offsets, plan.filters)
    ensures |plan.groups| == |plan.filters| == |offsets|
  {
  }

  lemma PlannedAppend(policy: BloomFilterPolicy, internalKeys: bool, plan: Plan, keys: seq<Bytes>, filter: Bytes)
    requires Planned(policy, internalKeys, plan) && FilterOf(policy, internalKeys, keys, filter)
    ensures Planned(policy, internalKeys, Plan(plan.groups + [keys], plan.filters + [filter]))
  {
  }

  lemma NoFilter(policy: BloomFilterPolicy, internalKeys: bool)
    ensures FilterOf(policy, internalKeys, [], [])
  {
  }

  lemma MadeFilter(policy: BloomFilterPolicy, internalKeys: bool, keys: seq<Bytes>, filter: Bytes)
    requires keys != [] && IsFilter(policy.hash, policy.bitsPerKey, policy.k, FilterKeys(internalKeys, keys), filter)
    ensures FilterOf(policy, internalKeys, keys, filter)
  {
  }

  lemma GroupedNext(added: set<Added>, groups: seq<seq<Bytes>>, pending: seq<Bytes>)
    requires Grouped(added, groups, pending)
    ensures Grouped(added, groups + [pending], [])
    ensures OnlyAdded(added, groups, pending) ==> OnlyAdded(added, groups + [pending], [])
  {
    hide AddedIn;
  }

  lemma OnlyAddedMore(added: set<Added>, groups: seq<seq<Bytes>>, pending: seq<Bytes>, offset: nat, key: Bytes)
    requires OnlyAdded(added, groups, pending) && offset / BASE == |groups|
    ensures OnlyAdded(added + {Added(offset, key)}, groups, pending + [key])
  {
    var more := added + {Added(offset, key)};
    forall i, k: Bytes | AddedIn(added, i, k) ensures AddedIn(more, i, k) {
      var o: nat :| Added(o, k) in added && o / BASE == i;
      assert Added(o, k) in more;
    }
    assert Added(offset, key) in more && AddedIn(more, |groups|, key);
    hide AddedIn;
  }
}
