/** block_builder.cc and block.cc: prefix-compressed blocks with restart points.  The builder keeps a ghost layout
    of the entries it wrote; the iterator over the finished bytes behaves like a cursor over the added pairs. */
module Blocks {
  import opened Keys
  import opened Coding
  import opened Comparators

  datatype Pair = Pair(key: Bytes, value: Bytes)

  /** The run of abstract entries that a list of encoded pairs stands for. */
  ghost function Run(c: Comparator, pairs: seq<Pair>): (r: seq<Entry>)
    requires forall i :: 0 <= i < |pairs| ==> WellFormed(c, pairs[i].key)
    ensures |r| == |pairs|
  {
    seq(|pairs|, i requires 0 <= i < |pairs| => Entry(Rank(c, pairs[i].key), pairs[i].value))
  }

  /** Strictly increasing keys, which is what the builders' assertions ask of their callers. */
  ghost predicate Ascending(c: Comparator, pairs: seq<Pair>) {
    (forall i :: 0 <= i < |pairs| ==> WellFormed(c, pairs[i].key)) && Sorted(Run(c, pairs))
  }

  lemma AscendingAppend(c: Comparator, pairs: seq<Pair>, p: Pair)
    requires Ascending(c, pairs) && WellFormed(c, p.key)
    requires pairs != [] ==> Before(Rank(c, pairs[|pairs| - 1].key), Rank(c, p.key))
    ensures Ascending(c, pairs + [p]) && Run(c, pairs + [p]) == Run(c, pairs) + [Entry(Rank(c, p.key), p.value)]
  {
    hide Rank, WellFormed;
    var run, longer := Run(c, pairs), Run(c, pairs + [p]);
    assert longer == run + [Entry(Rank(c, p.key), p.value)];
    forall i, j | 0 <= i < j < |longer|
      ensures Before(longer[i].key, longer[j].key)
    {
      if j == |run| && i < |run| - 1 {
        assert Before(run[i].key, run[|run| - 1].key);
      }
    }
  }

  // ----- One entry

  function EncodeEntry(shared: nat, delta: Bytes, value: Bytes): (r: Bytes)
    ensures |r| >= 3 + |delta| + |value|
  {
    Varint(shared) + Varint(|delta|) + Varint(|value|) + delta + value
  }

  lemma AppendedEntry(buffer: Bytes, shared: nat, delta: Bytes, value: Bytes)
    ensures buffer + Varint(shared) + Varint(|delta|) + Varint(|value|) + delta + value
         == buffer + EncodeEntry(shared, delta, value)
  {
  }

  datatype Header = Header(shared: nat, nonShared: nat, valueLength: nat, rest: Bytes)

  function DecodeLengths(s: Bytes): Option<Header> {
    var a := GetVarint32(s);
    if a.None? then None else
      var b := GetVarint32(a.value.1);
      if b.None? then None else
        var c := GetVarint32(b.value.1);
        if c.None? then None else Some(Header(a.value.0, b.value.0, c.value.0, c.value.1))
  }

  /** Three one-byte lengths are read directly; the size check is in 32-bit arithmetic. */
  function DecodeEntry(s: Bytes): (h: Option<Header>)
    ensures h.Some? ==> |h.value.rest| <= |s|
  {
    if |s| < 3 then None else
      var h := if s[0] < 128 && s[1] < 128 && s[2] < 128 then Some(Header(s[0], s[1], s[2], s[3..]))
          else DecodeLengths(s);
      if h.None? || |h.value.rest| % TWO32 < (h.value.nonShared + h.value.valueLength) % TWO32 then None else h
  }

  lemma LengthsRoundTrip(a: nat, b: nat, c: nat, rest: Bytes)
    requires a < TWO32 && b < TWO32 && c < TWO32
    ensures var s := Varint(a) + Varint(b) + Varint(c) + rest;
            DecodeLengths(s) == Some(Header(a, b, c, rest))
  {
    hide Varint, GetVarint32;
    Associate(Varint(a), Varint(b), Varint(c), rest);
    Varint32RoundTrip(a, Varint(b) + (Varint(c) + rest));
    Varint32RoundTrip(b, Varint(c) + rest);
    Varint32RoundTrip(c, rest);
  }

  lemma Associate(a: Bytes, b: Bytes, c: Bytes, d: Bytes)
    ensures a + b + c + d == a + (b + (c + d))
  {
  }

  lemma VarintHead(v: nat)
    ensures Varint(v)[0] < 128 <==> v < 128
    ensures v < 128 ==> Varint(v) == [v]
  {
  }

  lemma FirstByte(v: nat, rest: Bytes)
    ensures (Varint(v) + rest)[0] < 128 <==> v < 128
    ensures v < 128 ==> Varint(v) + rest == [v] + rest
    ensures |Varint(v) + rest| > |rest|
  {
    hide Varint;
    VarintHead(v);
  }

  /** The direct reading of three bytes happens exactly when all three lengths are below 128. */
  lemma FastPath(a: nat, b: nat, c: nat, rest: Bytes)
    ensures var s := Varint(a) + Varint(b) + Varint(c) + rest;
            |s| >= 3 && (s[0] < 128 && s[1] < 128 && s[2] < 128 <==> a < 128 && b < 128 && c < 128)
    ensures a < 128 && b < 128 && c < 128 ==> Varint(a) + Varint(b) + Varint(c) + rest == [a, b, c] + rest
  {
    hide Varint;
    Associate(Varint(a), Varint(b), Varint(c), rest);
    var third := Varint(c) + rest;
    var second := Varint(b) + third;
    FirstByte(c, rest);
    FirstByte(b, third);
    FirstByte(a, second);
    if a < 128 {
      assert ([a] + second)[1] == second[0];
      if b < 128 {
        assert ([a] + ([b] + third))[2] == third[0];
      }
    }
  }

  lemma EntryRoundTrip(shared: nat, delta: Bytes, value: Bytes, rest: Bytes)
    requires shared < TWO32 && |delta| + |value| + |rest| < TWO32
    ensures DecodeEntry(EncodeEntry(shared, delta, value) + rest)
         == Some(Header(shared, |delta|, |value|, delta + value + rest))
  {
    hide Varint, DecodeLengths;
    var behind := delta + value + rest;
    var s := Varint(shared) + Varint(|delta|) + Varint(|value|) + behind;
    assert EncodeEntry(shared, delta, value) + rest == s;
    LengthsRoundTrip(shared, |delta|, |value|, behind);
    FastPath(shared, |delta|, |value|, behind);
    if shared < 128 && |delta| < 128 && |value| < 128 {
      assert s[3..] == behind;
    }
  }

  // ----- Layout of a block

  /** Where entry i starts, how much of its key it takes from entry i-1, and which entries restart. */
  datatype Layout = Layout(pairs: seq<Pair>, shared: seq<nat>, offsets: seq<nat>, heads: seq<nat>)

  ghost predicate Shape(lay: Layout) {
    && |lay.shared| == |lay.pairs|
    && |lay.offsets| == |lay.pairs| + 1 && lay.offsets[0] == 0
    && |lay.heads| > 0 && lay.heads[0] == 0
    && (forall j :: 0 <= j < |lay.heads| ==> lay.heads[j] <= |lay.pairs|)
    && (forall j :: 0 < j < |lay.heads| ==> lay.heads[j] < |lay.pairs|)
    && (forall j, k :: 0 <= j < k < |lay.heads| ==> lay.heads[j] < lay.heads[k])
    && (forall j :: 0 <= j < |lay.heads| && lay.heads[j] < |lay.pairs| ==> lay.shared[lay.heads[j]] == 0)
  }

  function Size(lay: Layout): nat
    requires lay.offsets != []
  {
    lay.offsets[|lay.offsets| - 1]
  }

  ghost predicate EntryAt(data: Bytes, lay: Layout, i: nat)
    requires Shape(lay) && i < |lay.pairs|
  {
    var p, shared := lay.pairs[i], lay.shared[i];
    && shared <= |p.key|
    && (if i == 0 then shared == 0
        else shared <= |lay.pairs[i - 1].key| && lay.pairs[i - 1].key[..shared] == p.key[..shared])
    && lay.offsets[i] <= lay.offsets[i + 1] <= |data|
    && data[lay.offsets[i]..lay.offsets[i + 1]] == EncodeEntry(shared, p.key[shared..], p.value)
  }

  ghost predicate Laid(data: Bytes, lay: Layout) {
    Shape(lay) && forall i :: 0 <= i < |lay.pairs| ==> EntryAt(data, lay, i)
  }

  lemma LaidShape(data: Bytes, lay: Layout)
    requires Laid(data, lay)
    ensures Shape(lay)
  {
  }

  lemma {:induction false} OffsetsAscend(data: Bytes, lay: Layout, i: nat, j: nat)
    requires Laid(data, lay) && i <= j <= |lay.pairs|
    ensures lay.offsets[i] + (j - i) <= lay.offsets[j]
  {
    if i < j {
      OffsetsAscend(data, lay, i, j - 1);
      assert EntryAt(data, lay, j - 1);
    }
  }

  lemma OffsetOrder(data: Bytes, lay: Layout, i: nat, j: nat)
    requires Laid(data, lay) && i <= |lay.pairs| && j <= |lay.pairs|
    ensures lay.offsets[i] < lay.offsets[j] <==> i < j
    ensures lay.offsets[i] == lay.offsets[j] <==> i == j
  {
    if i < j {
      OffsetsAscend(data, lay, i, j);
    } else {
      OffsetsAscend(data, lay, j, i);
    }
  }

  // ----- Building

  /** The builder's fields agree with the layout, and keys are compressed. */
  ghost predicate Built(c: Comparator, interval: nat, buffer: Bytes, restarts: seq<nat>, counter: nat, lastKey: Bytes,
                        lay: Layout)
  {
    && interval >= 1 && Laid(buffer, lay) && Size(lay) == |buffer|
    && Ascending(c, lay.pairs)
    && Spaced(interval, restarts, counter, lay) && Compressed(interval, lay)
    && lastKey == (if lay.pairs == [] then [] else lay.pairs[|lay.pairs| - 1].key)
  }

  /** No more bytes can be shared. */
  predicate Longest(last: Bytes, key: Bytes, shared: nat) {
    shared == |last| || shared == |key| || (shared < |last| && shared < |key| && last[shared] != key[shared])
  }

  /** Prefix compression: whole keys at the restarts, which come every `interval` entries, and between them no byte that
      could be shared with the key before. */
  ghost predicate Compressed(interval: nat, lay: Layout) {
    && Shape(lay)
    && (forall j :: 0 < j < |lay.heads| ==> lay.heads[j] == lay.heads[j - 1] + interval)
    && |lay.pairs| <= lay.heads[|lay.heads| - 1] + interval
    && forall i :: 0 < i < |lay.pairs| && i !in lay.heads ==>
                     Longest(lay.pairs[i - 1].key, lay.pairs[i].key, lay.shared[i])
  }

  ghost predicate Spaced(interval: nat, restarts: seq<nat>, counter: nat, lay: Layout)
    requires Shape(lay)
  {
    && |restarts| == |lay.heads|
    && (forall j :: 0 <= j < |restarts| ==> restarts[j] == lay.offsets[lay.heads[j]])
    && counter <= interval && counter == |lay.pairs| - lay.heads[|lay.heads| - 1]
  }

  lemma BuiltFacts(c: Comparator, interval: nat, buffer: Bytes, restarts: seq<nat>, counter: nat, lastKey: Bytes,
                   lay: Layout)
    requires Built(c, interval, buffer, restarts, counter, lastKey, lay)
    ensures lastKey == (if lay.pairs == [] then [] else lay.pairs[|lay.pairs| - 1].key)
    ensures counter <= interval && Ascending(c, lay.pairs) && Compressed(interval, lay)
    ensures lay.offsets != [] && Size(lay) == |buffer| && |restarts| == |lay.heads| > 0
  {
  }

  class BlockBuilder {
    const comparator: Comparator
    const interval: nat
    var buffer: Bytes
    var restarts: seq<nat>
    var counter: nat
    var lastKey: Bytes
    var finished: bool
    ghost var layout: Layout

    ghost predicate Valid()
      reads this
    {
      Built(comparator, interval, buffer, restarts, counter, lastKey, layout) && !finished
    }

    lemma Facts()
      requires Valid()
      ensures lastKey == if layout.pairs == [] then [] else layout.pairs[|layout.pairs| - 1].key
      ensures interval >= 1 && Ascending(comparator, layout.pairs) && (Empty() <==> layout.pairs == [])
    {
      OffsetsAscend(buffer, layout, 0, |layout.pairs|);
    }

    constructor (comparator: Comparator, interval: nat)
      requires interval >= 1
      ensures Valid() && layout.pairs == [] && this.comparator == comparator && this.interval == interval
    {
      this.comparator, this.interval := comparator, interval;
      buffer, restarts, counter, lastKey, finished := [], [0], 0, [], false;
      layout := Layout([], [], [0], [0]);
    }

    method Reset()
      requires interval >= 1
      modifies this
      ensures Valid() && layout.pairs == [] && lastKey == []
    {
      buffer, restarts, counter, lastKey, finished := [], [0], 0, [], false;
      layout := Layout([], [], [0], [0]);
    }

    function CurrentSizeEstimate(): nat
      reads this
    {
      |buffer| + 4 * |restarts| + 4
    }

    predicate Empty()
      reads this
    {
      buffer == []
    }

    static method SharedPrefix(last: Bytes, key: Bytes) returns (shared: nat)
      ensures shared <= |last| && shared <= |key| && last[..shared] == key[..shared]
      ensures shared < |last| && shared < |key| ==> last[shared] != key[shared]
    {
      shared := 0;
      while shared < |last| && shared < |key| && last[shared] == key[shared]
        invariant shared <= |last| && shared <= |key| && last[..shared] == key[..shared]
      {
        shared := shared + 1;
      }
    }

    /** Appends a pair, without the bytes its key shares with the key before.  At most `interval` entries share one
        restart point. */
    method Add(key: Bytes, value: Bytes)
      requires Valid() && WellFormed(comparator, key)
      requires layout.pairs != [] ==> Before(Rank(comparator, lastKey), Rank(comparator, key))
      modifies this
      ensures Valid() && layout.pairs == old(layout.pairs) + [Pair(key, value)] && lastKey == key
      ensures |old(buffer)| < |buffer|
      ensures old(counter) < interval ==> restarts == old(restarts)
      ensures old(counter) == interval ==> restarts == old(restarts) + [|old(buffer)|]
    {
      hide Built, Laid, Ascending, Run, EncodeEntry, Varint, WellFormed, Rank, Compressed;
      BuiltFacts(comparator, interval, buffer, restarts, counter, lastKey, layout);
      var shared := 0;
      ghost var was, n, count := buffer, restarts, counter;
      if counter < interval {
        shared := SharedPrefix(lastKey, key);
      } else {
        restarts := restarts + [|buffer|];
        counter := 0;
      }
      buffer := buffer + Varint(shared) + Varint(|key| - shared) + Varint(|value|) + key[shared..] + value;
      lastKey := lastKey[..shared] + key[shared..];
      counter := counter + 1;
      assert lastKey == key;
      AppendedEntry(was, shared, key[shared..], value);
      layout := BuiltAdd(comparator, interval, was, n, count, old(lastKey), layout, Pair(key, value), shared);
    }

    /** The entries, then the restart offsets, then their number. */
    method Finish() returns (contents: Bytes)
      requires Valid()
      modifies this
      ensures layout == old(layout) && finished && contents == buffer
      ensures |contents| == old(CurrentSizeEstimate())
      ensures Ascending(comparator, layout.pairs) && (|contents| < TWO32 ==> Encoded(contents, layout))
      ensures Compressed(interval, layout)
    {
      hide Built, Laid, Ascending, Encoded, Compressed;
      ghost var data := buffer;
      for i := 0 to |restarts|
        invariant restarts == old(restarts) && layout == old(layout) && lastKey == old(lastKey)
                  && counter == old(counter)
        invariant buffer == data + FixedArray(restarts, i)
      {
        buffer := buffer + Fixed32(restarts[i]);
      }
      buffer := buffer + Fixed32(|restarts|);
      finished := true;
      contents := buffer;
      BuiltFacts(comparator, interval, data, restarts, counter, lastKey, layout);
      if |contents| < TWO32 {
        BuiltEncoded(comparator, interval, data, restarts, counter, lastKey, layout);
      }
    }
  }

  lemma BuiltEncoded(c: Comparator, interval: nat, data: Bytes, restarts: seq<nat>, counter: nat, lastKey: Bytes,
                     lay: Layout)
    requires Built(c, interval, data, restarts, counter, lastKey, lay)
    requires |data| + 4 * |restarts| + 4 < TWO32
    ensures Encoded(data + FixedArray(restarts, |restarts|) + Fixed32(|restarts|), lay) && Ascending(c, lay.pairs)
  {
    hide Fixed32, FixedArray, Laid, Shape, Ascending, RestartAt;
    LaidShape(data, lay);
    var points, number := FixedArray(restarts, |restarts|), Fixed32(|restarts|);
    var contents := data + points + number;
    LaidLonger(data, contents, lay);
    forall j | 0 <= j < |lay.heads|
      ensures RestartAt(contents, lay, j)
    {
      BuiltRestart(data, points, number, restarts, lay, j);
    }
  }

  lemma BuiltRestart(data: Bytes, points: Bytes, number: Bytes, restarts: seq<nat>, lay: Layout, j: nat)
    requires Shape(lay) && Size(lay) == |data| && j < |restarts| == |lay.heads|
    requires points == FixedArray(restarts, |restarts|) && restarts[j] == lay.offsets[lay.heads[j]]
    ensures RestartAt(data + points + number, lay, j)
  {
    hide Fixed32, FixedArray, Shape;
    FixedArrayAt(restarts, |restarts|, j);
    MiddleSlice(data, points, number, 4 * j, 4 * j + 4);
  }

  lemma SpacedFacts(data: Bytes, interval: nat, restarts: seq<nat>, counter: nat, lay: Layout)
    requires Laid(data, lay) && Spaced(interval, restarts, counter, lay)
    ensures Shape(lay) && lay.heads != [] && counter <= interval && counter == |lay.pairs| - lay.heads[|lay.heads| - 1]
    ensures lay.pairs == [] ==> lay.heads == [0]
  {
  }

  /** The layout with one more pair, the data then ending at size. */
  function Grown(lay: Layout, p: Pair, shared: nat, size: nat, full: bool): Layout {
    Layout(lay.pairs + [p], lay.shared + [shared], lay.offsets + [size],
           if full then lay.heads + [|lay.pairs|] else lay.heads)
  }

  lemma SpacedAppend(data: Bytes, interval: nat, restarts: seq<nat>, counter: nat, lay: Layout, p: Pair, shared: nat,
                     size: nat)
    requires interval >= 1 && Shape(lay) && Spaced(interval, restarts, counter, lay) && Size(lay) == |data|
    requires Shape(Grown(lay, p, shared, size, counter == interval))
    ensures var full := counter == interval;
            Spaced(interval, if full then restarts + [|data|] else restarts, if full then 1 else counter + 1,
                   Grown(lay, p, shared, size, full))
  {
    hide Shape;
    var next := Grown(lay, p, shared, size, counter == interval);
    HeadsBound(lay);
    HeadsBound(next);
    var restarts' := if counter == interval then restarts + [|data|] else restarts;
    forall j | 0 <= j < |restarts'| ensures restarts'[j] == next.offsets[next.heads[j]] {
      if j < |restarts| {
        assert next.heads[j] == lay.heads[j];
      }
    }
  }

  lemma CompressedAppend(interval: nat, restarts: seq<nat>, counter: nat, lay: Layout, p: Pair, shared: nat, size: nat)
    requires Compressed(interval, lay) && Spaced(interval, restarts, counter, lay)
    requires Shape(Grown(lay, p, shared, size, counter == interval))
    requires counter < interval && lay.pairs != [] ==> Longest(lay.pairs[|lay.pairs| - 1].key, p.key, shared)
    ensures Compressed(interval, Grown(lay, p, shared, size, counter == interval))
  {
    hide Longest;
    var next := Grown(lay, p, shared, size, counter == interval);
    var n := |lay.pairs|;
    if counter == interval {
      assert next.heads[|lay.heads|] == n;
    }
    forall i | 0 < i <= n && i !in next.heads
      ensures Longest(next.pairs[i - 1].key, next.pairs[i].key, next.shared[i])
    {
      if i < n {
        assert i !in lay.heads;
      }
    }
  }

  lemma HeadsBound(lay: Layout)
    requires Shape(lay)
    ensures |lay.offsets| == |lay.pairs| + 1 && lay.heads != []
    ensures forall j :: 0 <= j < |lay.heads| ==> lay.heads[j] <= |lay.pairs|
  {
  }

  lemma BuiltAdd(c: Comparator, interval: nat, buffer: Bytes, restarts: seq<nat>, counter: nat, lastKey: Bytes,
                 lay: Layout, p: Pair, shared: nat) returns (next: Layout)
    requires Built(c, interval, buffer, restarts, counter, lastKey, lay) && WellFormed(c, p.key)
    requires lay.pairs != [] ==> Before(Rank(c, lay.pairs[|lay.pairs| - 1].key), Rank(c, p.key))
    requires shared <= |lastKey| && shared <= |p.key| && lastKey[..shared] == p.key[..shared]
    requires if counter == interval then shared == 0 else Longest(lastKey, p.key, shared)
    ensures next.pairs == lay.pairs + [p]
    ensures var full := counter == interval;
            Built(c, interval, buffer + EncodeEntry(shared, p.key[shared..], p.value),
                  if full then restarts + [|buffer|] else restarts, if full then 1 else counter + 1, p.key, next)
  {
    hide Built, Ascending, Laid, Shape, Spaced, Compressed, Longest, EncodeEntry, Rank, WellFormed, Grown;
    BuiltParts(c, interval, buffer, restarts, counter, lastKey, lay);
    SpacedFacts(buffer, interval, restarts, counter, lay);
    var full := counter == interval;
    var longer := buffer + EncodeEntry(shared, p.key[shared..], p.value);
    next := Grown(lay, p, shared, |longer|, full);
    LaidAppend(buffer, lay, p, shared, full);
    LaidShape(longer, next);
    SpacedAppend(buffer, interval, restarts, counter, lay, p, shared, |longer|);
    CompressedAppend(interval, restarts, counter, lay, p, shared, |longer|);
    AscendingAppend(c, lay.pairs, p);
    GrownFacts(lay, p, shared, |longer|, full);
    BuiltFrom(c, interval, longer, if full then restarts + [|buffer|] else restarts, if full then 1 else counter + 1,
              p.key, next);
  }

  lemma GrownFacts(lay: Layout, p: Pair, shared: nat, size: nat, full: bool)
    ensures var next := Grown(lay, p, shared, size, full);
            next.pairs == lay.pairs + [p] && next.offsets != [] && Size(next) == size
  {
  }

  lemma BuiltParts(c: Comparator, interval: nat, buffer: Bytes, restarts: seq<nat>, counter: nat, lastKey: Bytes,
                   lay: Layout)
    requires Built(c, interval, buffer, restarts, counter, lastKey, lay)
    ensures interval >= 1 && Laid(buffer, lay) && Shape(lay) && Size(lay) == |buffer| && Ascending(c, lay.pairs)
    ensures Spaced(interval, restarts, counter, lay) && lay.heads != [] && |lay.offsets| == |lay.pairs| + 1
    ensures Compressed(interval, lay)
    ensures lastKey == (if lay.pairs == [] then [] else lay.pairs[|lay.pairs| - 1].key)
  {
  }

  lemma BuiltFrom(c: Comparator, interval: nat, buffer: Bytes, restarts: seq<nat>, counter: nat, lastKey: Bytes,
                  lay: Layout)
    requires interval >= 1 && Laid(buffer, lay) && Shape(lay) && Size(lay) == |buffer| && Ascending(c, lay.pairs)
    requires Spaced(interval, restarts, counter, lay) && Compressed(interval, lay)
    requires lay.pairs != [] && lastKey == lay.pairs[|lay.pairs| - 1].key
    ensures Built(c, interval, buffer, restarts, counter, lastKey, lay)
  {
  }

  lemma LaidLonger(data: Bytes, longer: Bytes, lay: Layout)
    requires Laid(data, lay) && |data| <= |longer| && longer[..|data|] == data
    ensures Laid(longer, lay)
  {
    hide EncodeEntry;
    forall i | 0 <= i < |lay.pairs|
      ensures EntryAt(longer, lay, i)
    {
      assert EntryAt(data, lay, i);
      SliceOfPrefix(longer, |data|, lay.offsets[i], lay.offsets[i + 1]);
    }
  }

  lemma LaidAppend(data: Bytes, lay: Layout, p: Pair, shared: nat, full: bool)
    requires Laid(data, lay) && Shape(lay) && Size(lay) == |data| && shared <= |p.key|
    requires if lay.pairs == [] then shared == 0
             else var last := lay.pairs[|lay.pairs| - 1].key; shared <= |last| && last[..shared] == p.key[..shared]
    requires if full then shared == 0 && lay.pairs != [] && lay.heads[|lay.heads| - 1] < |lay.pairs|
             else lay.pairs != [] || lay.heads == [0]
    ensures var longer := data + EncodeEntry(shared, p.key[shared..], p.value);
            Laid(longer, Grown(lay, p, shared, |longer|, full))
  {
    hide EncodeEntry;
    var longer := data + EncodeEntry(shared, p.key[shared..], p.value);
    var next := Grown(lay, p, shared, |longer|, full);
    LaidLonger(data, longer, lay);
    assert Shape(next);
    forall i | 0 <= i < |next.pairs|
      ensures EntryAt(longer, next, i)
    {
      if i < |lay.pairs| {
        assert EntryAt(longer, lay, i);
      }
    }
  }

  // ----- The finished block

  ghost predicate RestartAt(contents: Bytes, lay: Layout, j: nat)
    requires Shape(lay) && j < |lay.heads|
  {
    var from := Size(lay) + 4 * j;
    from + 4 <= |contents| && contents[from..from + 4] == Fixed32(lay.offsets[lay.heads[j]])
  }

  ghost predicate Encoded(contents: Bytes, lay: Layout) {
    && Laid(contents, lay)
    && |contents| == Size(lay) + 4 * |lay.heads| + 4 && |contents| < TWO32
    && (forall j :: 0 <= j < |lay.heads| ==> RestartAt(contents, lay, j))
    && contents[|contents| - 4..] == Fixed32(|lay.heads|)
  }

  /** Block's constructor: the offset of the restart array and its length, unless the contents are too short. */
  function RestartArray(contents: Bytes): Option<(nat, nat)> {
    if |contents| < 4 then None else
      var n := DecodeFixed(contents[|contents| - 4..]);
      if n > (|contents| - 4) / 4 then None else Some((|contents| - (1 + n) * 4, n))
  }

  lemma EncodedRestarts(contents: Bytes, lay: Layout)
    requires Encoded(contents, lay)
    ensures RestartArray(contents) == Some((Size(lay), |lay.heads|))
  {
    Fixed32RoundTrip(|lay.heads|);
  }

  lemma RestartValue(contents: Bytes, lay: Layout, j: nat)
    requires Encoded(contents, lay) && j < |lay.heads|
    ensures var from := Size(lay) + 4 * j;
            from + 4 <= |contents| && DecodeFixed(contents[from..from + 4]) == lay.offsets[lay.heads[j]]
  {
    assert RestartAt(contents, lay, j);
    OffsetsAscend(contents, lay, lay.heads[j], |lay.pairs|);
    Fixed32RoundTrip(lay.offsets[lay.heads[j]]);
  }

  lemma EncodedLaid(contents: Bytes, lay: Layout)
    requires Encoded(contents, lay)
    ensures Laid(contents, lay) && Size(lay) <= |contents| < TWO32
  {
  }

  /** A key is no longer than the data up to its entry's end, since it shares only with the key before it. */
  lemma {:induction false} KeyBound(data: Bytes, lay: Layout, i: nat)
    requires Laid(data, lay) && i < |lay.pairs|
    ensures |lay.pairs[i].key| <= lay.offsets[i + 1]
  {
    assert EntryAt(data, lay, i);
    if i > 0 {
      KeyBound(data, lay, i - 1);
    }
  }

  lemma EntryBytes(contents: Bytes, lay: Layout, i: nat) returns (h: Header)
    requires Encoded(contents, lay) && i < |lay.pairs|
    ensures lay.offsets[i] < lay.offsets[i + 1] <= Size(lay) <= |contents|
    ensures DecodeEntry(contents[lay.offsets[i]..Size(lay)]) == Some(h)
    ensures var p, shared := lay.pairs[i], lay.shared[i];
            && shared <= |p.key| && h.shared == shared && h.nonShared == |p.key| - shared && h.valueLength == |p.value|
            && h.nonShared + h.valueLength <= |h.rest|
            && h.rest[..h.nonShared] == p.key[shared..]
            && Size(lay) - |h.rest| + h.nonShared + h.valueLength == lay.offsets[i + 1]
            && contents[lay.offsets[i + 1] - |p.value|..lay.offsets[i + 1]] == p.value
  {
    hide DecodeEntry, Encoded;
    EncodedLaid(contents, lay);
    OffsetsAscend(contents, lay, i, i + 1);
    OffsetsAscend(contents, lay, i + 1, |lay.pairs|);
    assert EntryAt(contents, lay, i);
    KeyBound(contents, lay, i);
    var p, shared := lay.pairs[i], lay.shared[i];
    var delta := p.key[shared..];
    var here, next, size := lay.offsets[i], lay.offsets[i + 1], Size(lay);
    var rest := contents[next..size];
    assert contents[here..size] == contents[here..next] + rest;
    EntryRoundTrip(shared, delta, p.value, rest);
    h := Header(shared, |delta|, |p.value|, delta + p.value + rest);
    EncodeEntryEnd(shared, delta, p.value);
    assert contents[here..next][next - here - |p.value|..] == contents[next - |p.value|..next];
  }

  lemma EncodeEntryEnd(shared: nat, delta: Bytes, value: Bytes)
    ensures var e := EncodeEntry(shared, delta, value); e[|e| - |value|..] == value
  {
  }

  /** The bytes of a block determine the pairs in it. */
  lemma EncodedUnique(contents: Bytes, a: Layout, b: Layout)
    requires Encoded(contents, a) && Encoded(contents, b)
    ensures a.pairs == b.pairs
  {
    SamePairs(contents, a, b, |a.pairs|);
    SamePairs(contents, b, a, |b.pairs|);
  }

  lemma {:induction false} SamePairs(contents: Bytes, a: Layout, b: Layout, n: nat)
    requires Encoded(contents, a) && Encoded(contents, b) && n <= |a.pairs|
    ensures n <= |b.pairs| && a.offsets[n] == b.offsets[n] && a.pairs[..n] == b.pairs[..n]
  {
    hide DecodeEntry, EncodeEntry;
    if n > 0 {
      var i := n - 1;
      SamePairs(contents, a, b, i);
      EncodedRestarts(contents, a);
      EncodedRestarts(contents, b);
      var g := EntryBytes(contents, a, i);
      OffsetOrder(contents, b, i, |b.pairs|);
      var h := EntryBytes(contents, b, i);
      assert EntryAt(contents, a, i) && EntryAt(contents, b, i);
      assert a.pairs[i].key == a.pairs[i].key[..g.shared] + g.rest[..g.nonShared];
      assert b.pairs[i].key == b.pairs[i].key[..g.shared] + g.rest[..g.nonShared];
      if i > 0 {
        assert a.pairs[i - 1] == a.pairs[..i][i - 1] == b.pairs[i - 1];
      }
      assert a.pairs[..n] == a.pairs[..i] + [a.pairs[i]] && b.pairs[..n] == b.pairs[..i] + [b.pairs[i]];
    }
  }

  // ----- Iterating

  /** The iterator's fields when it stands on entry `at`.  The restart index is the last one before the entry, or
      the entry's own. */
  ghost predicate Stands(contents: Bytes, lay: Layout, current: nat, restartIndex: nat, key: Bytes, valueStart: nat,
                         valueLength: nat, at: nat)
    requires Shape(lay) && at < |lay.pairs|
  {
    && current == lay.offsets[at] && key == lay.pairs[at].key
    && valueStart + valueLength == lay.offsets[at + 1] <= |contents|
    && contents[valueStart..valueStart + valueLength] == lay.pairs[at].value
    && restartIndex < |lay.heads| && lay.heads[restartIndex] <= at
    && (restartIndex + 1 < |lay.heads| ==> at <= lay.heads[restartIndex + 1])
  }

  /** What ParseNextKey needs to read entry `next`, at offset `end`. */
  ghost predicate Ready(lay: Layout, restartIndex: nat, key: Bytes, end: nat, next: nat)
    requires Shape(lay) && next <= |lay.pairs|
  {
    && end == lay.offsets[next]
    && restartIndex < |lay.heads| && lay.heads[restartIndex] <= next
    && (next < |lay.pairs| ==>
          var shared := lay.shared[next];
          shared <= |key| && shared <= |lay.pairs[next].key| && key[..shared] == lay.pairs[next].key[..shared])
  }

  lemma StandsReady(contents: Bytes, lay: Layout, current: nat, restartIndex: nat, key: Bytes, valueStart: nat,
                    valueLength: nat, at: nat)
    requires Laid(contents, lay) && at < |lay.pairs|
    requires Stands(contents, lay, current, restartIndex, key, valueStart, valueLength, at)
    ensures Ready(lay, restartIndex, key, valueStart + valueLength, at + 1)
  {
    hide EncodeEntry;
    if at + 1 < |lay.pairs| {
      assert EntryAt(contents, lay, at + 1);
    }
  }

  lemma HeadReady(contents: Bytes, lay: Layout, j: nat)
    requires Laid(contents, lay) && j < |lay.heads|
    ensures Ready(lay, j, [], lay.offsets[lay.heads[j]], lay.heads[j])
  {
  }

  lemma AllBefore(run: seq<Entry>, m: nat, target: IKey)
    requires Sorted(run) && m < |run| && Before(run[m].key, target)
    ensures forall i :: 0 <= i <= m ==> Before(run[i].key, target)
  {
  }

  class BlockIter {
    const comparator: Comparator
    const contents: Bytes
    const restarts: nat
    const numRestarts: nat
    var current: nat
    var restartIndex: nat
    var key: Bytes
    var valueStart: nat
    var valueLength: nat
    ghost const layout: Layout
    ghost var at: nat  // |layout.pairs| when the iterator is not valid

    ghost predicate Good() {
      && Encoded(contents, layout) && Ascending(comparator, layout.pairs)
      && restarts == Size(layout) && numRestarts == |layout.heads|
    }

    /** The run this iterator is a cursor over. */
    ghost function Entries(): seq<Entry>
      requires Good()
    {
      Run(comparator, layout.pairs)
    }

    ghost predicate Valid()
      reads this
    {
      && Good() && at <= |layout.pairs|
      && (if at == |layout.pairs| then current == restarts
          else Stands(contents, layout, current, restartIndex, key, valueStart, valueLength, at))
    }

    constructor (comparator: Comparator, contents: Bytes, ghost layout: Layout)
      requires Encoded(contents, layout) && Ascending(comparator, layout.pairs)
      ensures Valid() && this.layout == layout && this.comparator == comparator && this.contents == contents
      ensures at == |layout.pairs|
    {
      EncodedRestarts(contents, layout);
      var points := RestartArray(contents).value;
      this.comparator, this.contents, this.layout := comparator, contents, layout;
      restarts, numRestarts := points.0, points.1;
      current, restartIndex := points.0, points.1;
      key, valueStart, valueLength := [], 0, 0;
      at := |layout.pairs|;
    }

    predicate OnEntry()
      reads this
    {
      current < restarts
    }

    lemma OnEntryMeans()
      requires Valid()
      ensures OnEntry() <==> at < |layout.pairs|
    {
      OffsetOrder(contents, layout, at, |layout.pairs|);
    }

    function Value(): Bytes
      requires Valid() && OnEntry()
      reads this
      ensures at < |layout.pairs| && Value() == layout.pairs[at].value && key == layout.pairs[at].key
    {
      OnEntryMeans();
      contents[valueStart..valueStart + valueLength]
    }

    function NextEntryOffset(): nat
      reads this
    {
      valueStart + valueLength
    }

    function GetRestartPoint(j: nat): (p: nat)
      requires Good() && j < numRestarts
      ensures j < |layout.heads| && p == layout.offsets[layout.heads[j]]
    {
      RestartValue(contents, layout, j);
      DecodeFixed(contents[restarts + 4 * j..restarts + 4 * j + 4])
    }

    method SeekToRestartPoint(j: nat)
      requires Good() && j < numRestarts
      modifies this
      ensures Ready(layout, restartIndex, key, NextEntryOffset(), layout.heads[j])
    {
      key := [];
      restartIndex := j;
      valueStart, valueLength := GetRestartPoint(j), 0;
      HeadReady(contents, layout, j);
    }

    /** Reads the entry behind the current one. */
    method ParseNextKey(ghost next: nat) returns (more: bool)
      requires Good() && next <= |layout.pairs| && Ready(layout, restartIndex, key, NextEntryOffset(), next)
      modifies this
      ensures Valid() && at == next && more == (next < |layout.pairs|)
    {
      hide Encoded, Laid, Ascending, Run, DecodeEntry, Sorted;
      EncodedLaid(contents, layout);
      LaidShape(contents, layout);
      at := next;
      current := NextEntryOffset();
      OffsetOrder(contents, layout, next, |layout.pairs|);
      OffsetsAscend(contents, layout, next, |layout.pairs|);
      if current >= restarts {
        current := restarts;
        restartIndex := numRestarts;
        return false;
      }
      ghost var h := EntryBytes(contents, layout, next);
      var entry := DecodeEntry(contents[current..restarts]);
      if entry.None? || |key| < entry.value.shared {
        assert false;
      }
      var p := restarts - |entry.value.rest|;
      key := key[..entry.value.shared] + entry.value.rest[..entry.value.nonShared];
      ghost var k := layout.pairs[next].key;
      assert k[..h.shared] + k[h.shared..] == k;
      valueStart, valueLength := p + entry.value.nonShared, entry.value.valueLength;
      while restartIndex + 1 < numRestarts && GetRestartPoint(restartIndex + 1) < current
        invariant restartIndex < numRestarts && layout.heads[restartIndex] <= next
        invariant at == next && current == layout.offsets[next] && key == k
        invariant valueStart == p + entry.value.nonShared && valueLength == entry.value.valueLength
        decreases numRestarts - restartIndex
      {
        OffsetOrder(contents, layout, layout.heads[restartIndex + 1], next);
        restartIndex := restartIndex + 1;
      }
      if restartIndex + 1 < numRestarts {
        OffsetOrder(contents, layout, layout.heads[restartIndex + 1], next);
      }
      return true;
    }

    method Next()
      requires Valid() && OnEntry()
      modifies this
      ensures Valid() && at == old(at) + 1
    {
      OnEntryMeans();
      StandsReady(contents, layout, current, restartIndex, key, valueStart, valueLength, at);
      var _ := ParseNextKey(at + 1);
    }

    method SeekToFirst()
      requires Valid()
      modifies this
      ensures Valid() && at == 0
    {
      SeekToRestartPoint(0);
      var _ := ParseNextKey(0);
    }

    method SeekToLast()
      requires Valid()
      modifies this
      ensures Valid() && at == if layout.pairs == [] then 0 else |layout.pairs| - 1
    {
      SeekToRestartPoint(numRestarts - 1);
      ghost var next := layout.heads[numRestarts - 1];
      var more := true;
      while more
        invariant Good() && next <= |layout.pairs|
        invariant more ==>
                    Ready(layout, restartIndex, key, NextEntryOffset(), next) && (next < |layout.pairs| || next == 0)
        invariant !more ==> Valid() && at == if layout.pairs == [] then 0 else |layout.pairs| - 1
        decreases more, |layout.pairs| - next
      {
        more := ParseNextKey(next);
        if more {
          StandsReady(contents, layout, current, restartIndex, key, valueStart, valueLength, at);
          next := next + 1;
          OffsetOrder(contents, layout, next, |layout.pairs|);
          more := NextEntryOffset() < restarts;
        }
      }
    }

    method Prev()
      requires Valid() && OnEntry()
      modifies this
      ensures Valid() && at == if old(at) == 0 then |layout.pairs| else old(at) - 1
    {
      hide Encoded, Laid, Ascending, Run, Sorted;
      EncodedLaid(contents, layout);
      LaidShape(contents, layout);
      OnEntryMeans();
      var original := current;
      ghost var was := at;
      while GetRestartPoint(restartIndex) >= original
        invariant restartIndex < numRestarts && at == was
        decreases restartIndex
      {
        OffsetOrder(contents, layout, layout.heads[restartIndex], was);
        if restartIndex == 0 {
          current := restarts;
          restartIndex := numRestarts;
          at := |layout.pairs|;
          return;
        }
        restartIndex := restartIndex - 1;
      }
      OffsetOrder(contents, layout, layout.heads[restartIndex], was);
      ghost var next := layout.heads[restartIndex];
      SeekToRestartPoint(restartIndex);
      var more := true;
      while more
        invariant next <= was
        invariant more ==> next < was && Ready(layout, restartIndex, key, NextEntryOffset(), next)
        invariant !more ==> Valid() && at == was - 1
        decreases more, was - next
      {
        more := ParseNextKey(next);
        StandsReady(contents, layout, current, restartIndex, key, valueStart, valueLength, at);
        next := next + 1;
        OffsetOrder(contents, layout, next, was);
        more := more && NextEntryOffset() < original;
      }
    }

    /** Binary search among the restart points, then a scan: the first entry at or after the target. */
    method Seek(target: Bytes)
      requires Valid() && WellFormed(comparator, target)
      modifies this
      ensures Valid() && at == LowerBound(Entries(), Rank(comparator, target))
    {
      hide Encoded, Laid, DecodeEntry, Sorted, Rank, WellFormed;
      EncodedLaid(contents, layout);
      LaidShape(contents, layout);
      ghost var run, goal := Entries(), Rank(comparator, target);
      var left, right := 0, numRestarts - 1;
      while left < right
        invariant left <= right < numRestarts
        invariant left > 0 ==> Before(run[layout.heads[left]].key, goal)
      {
        var mid := (left + right + 1) / 2;
        var offset := GetRestartPoint(mid);
        ghost var h := EntryBytes(contents, layout, layout.heads[mid]);
        var entry := DecodeEntry(contents[offset..restarts]);
        if entry.None? || entry.value.shared != 0 {
          assert false;
        }
        var midKey := entry.value.rest[..entry.value.nonShared];
        assert midKey == layout.pairs[layout.heads[mid]].key;
        CompareIsBefore(comparator, midKey, target);
        if Compare(comparator, midKey, target) < 0 {
          left := mid;
        } else {
          right := mid - 1;
        }
      }
      ghost var next := layout.heads[left];
      if left > 0 {
        AllBefore(run, next, goal);
      }
      SeekToRestartPoint(left);
      while true
        invariant next <= |run| && Ready(layout, restartIndex, key, NextEntryOffset(), next)
        invariant forall i :: 0 <= i < next ==> Before(run[i].key, goal)
        decreases |run| - next
      {
        var more := ParseNextKey(next);
        if !more {
          LowerBoundIs(run, goal, next);
          return;
        }
        CompareIsBefore(comparator, key, target);
        if Compare(comparator, key, target) >= 0 {
          LowerBoundIs(run, goal, next);
          return;
        }
        StandsReady(contents, layout, current, restartIndex, key, valueStart, valueLength, at);
        next := next + 1;
      }
    }
  }
}
