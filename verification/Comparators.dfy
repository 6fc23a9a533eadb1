/** comparator.cc and the byte-level part of dbformat.cc: the bytewise and the internal-key comparators, the
    encoding of internal keys, and the keys the table builder puts in its index. */
module Comparators {
  import opened Keys
  import opened Coding

  // ----- Bytewise order

  /** Slice::compare: the first differing byte decides, and a proper prefix is smaller. */
  function CompareBytes(a: Bytes, b: Bytes): int {
    if a == [] then (if b == [] then 0 else -1)
    else if b == [] then 1
    else if a[0] < b[0] then -1
    else if a[0] > b[0] then 1
    else CompareBytes(a[1..], b[1..])
  }

  /** The place of a byte string among the real numbers of the unit interval. */
  function Embed(s: Bytes): (r: real)
    ensures 0.0 <= r < 1.0
  {
    if s == [] then 0.0 else (s[0] as real + 1.0 + Embed(s[1..])) / 257.0
  }

  /** The bytewise order is an order of real numbers, so what is proved of all real keys holds of it. */
  lemma {:induction false} BytewiseEmbeds(a: Bytes, b: Bytes)
    ensures CompareBytes(a, b) < 0 <==> Embed(a) < Embed(b)
    ensures CompareBytes(a, b) == 0 <==> Embed(a) == Embed(b)
    ensures CompareBytes(a, b) == 0 <==> a == b
  {
    if a != [] && b != [] {
      BytewiseEmbeds(a[1..], b[1..]);
      assert a == b <==> a[0] == b[0] && a[1..] == b[1..];
    }
  }

  lemma {:induction false} FirstDifference(a: Bytes, b: Bytes, d: nat)
    requires d < |a| && d < |b| && a[..d] == b[..d] && a[d] < b[d]
    ensures CompareBytes(a, b) == -1 && CompareBytes(b, a) == 1
  {
    if d > 0 {
      assert a[0] == a[..d][0] == b[0];
      assert a[1..][..d - 1] == a[..d][1..] == b[1..][..d - 1];
      FirstDifference(a[1..], b[1..], d - 1);
    }
  }

  /** The first difference of start and limit leaves a byte between. */
  predicate PartsAt(start: Bytes, limit: Bytes, d: nat) {
    d < |start| && d < |limit| && start[..d] == limit[..d] && start[d] < 255 && start[d] + 1 < limit[d]
  }

  /** Start up to there with that byte raised; start itself if there is no such place. */
  ghost predicate SeparatesBytes(start: Bytes, limit: Bytes, r: Bytes) {
    if exists d: nat :: PartsAt(start, limit, d) then
      exists d: nat :: PartsAt(start, limit, d) && r == start[..d] + [start[d] + 1]
    else
      r == start
  }

  /** Whatever is no longer than the common prefix lies outside. */
  lemma {:induction false} ShorterIsOutside(start: Bytes, limit: Bytes, d: nat, t: Bytes)
    requires d < |start| && d < |limit| && start[..d] == limit[..d] && |t| <= d
    ensures CompareBytes(start, t) > 0 || CompareBytes(t, limit) > 0
  {
    if t != [] {
      assert start[0] == start[..d][0] == limit[0];
      assert start[1..][..d - 1] == start[..d][1..] == limit[1..][..d - 1];
      ShorterIsOutside(start[1..], limit[1..], d - 1, t[1..]);
    }
  }

  /** A short key in [start, limit), or start itself; a key other than start is the shortest there is. */
  method ShortestSeparatorBytes(start: Bytes, limit: Bytes) returns (r: Bytes)
    ensures |r| <= |start| && SeparatesBytes(start, limit, r)
    ensures CompareBytes(start, r) <= 0
    ensures r != start ==> CompareBytes(start, r) < 0 && CompareBytes(r, limit) < 0
    ensures r != start ==>
              forall t :: CompareBytes(start, t) <= 0 && CompareBytes(t, limit) < 0 ==> |r| <= |t|
  {
    var diff := 0;
    while diff < |start| && diff < |limit| && start[diff] == limit[diff]
      invariant diff <= |start| && diff <= |limit| && start[..diff] == limit[..diff]
    {
      diff := diff + 1;
    }
    r := start;
    BytewiseEmbeds(start, start);
    if diff < |start| && diff < |limit| {
      if start[diff] < 255 && start[diff] + 1 < limit[diff] {
        r := start[..diff] + [start[diff] + 1];
        assert r[..diff] == start[..diff] && PartsAt(start, limit, diff);
        FirstDifference(start, r, diff);
        FirstDifference(r, limit, diff);
        forall t | CompareBytes(start, t) <= 0 && CompareBytes(t, limit) < 0 ensures |r| <= |t| {
          if |t| <= diff {
            ShorterIsOutside(start, limit, diff, t);
          }
        }
      }
    }
    OnlyThere(start, limit, diff);
  }

  lemma OnlyThere(start: Bytes, limit: Bytes, d: nat)
    requires d <= |start| && d <= |limit| && start[..d] == limit[..d]
    requires d < |start| && d < |limit| ==> start[d] != limit[d]
    ensures forall e: nat :: PartsAt(start, limit, e) ==> e == d
  {
    forall e: nat | PartsAt(start, limit, e) ensures e == d {
      SameByte(start, limit, d, e);
      SameByte(start, limit, e, d);
    }
  }

  lemma SameByte(a: Bytes, b: Bytes, d: nat, e: nat)
    requires d <= |a| && d <= |b| && a[..d] == b[..d]
    ensures e < d ==> a[e] == b[e]
  {
    if e < d {
      assert a[e] == a[..d][e] && b[e] == b[..d][e];
    }
  }

  /** The first n bytes are 255. */
  predicate AllTop(key: Bytes, n: nat) {
    n <= |key| && forall i :: 0 <= i < n ==> key[i] == 255
  }

  /** The key up to the first byte that is not 255, with that byte raised. */
  ghost predicate Succeeds(key: Bytes, r: Bytes) {
    if AllTop(key, |key|) then r == key
    else exists n: nat :: n < |key| && AllTop(key, n) && key[n] != 255 && r == key[..n] + [key[n] + 1]
  }

  /** Nothing shorter than a key is at or after it where the key's bytes are 255. */
  lemma {:induction false} ShorterIsBefore(key: Bytes, n: nat, t: Bytes)
    requires AllTop(key, n) && |t| <= n && |t| < |key|
    ensures CompareBytes(key, t) > 0
  {
    if t != [] {
      ShorterIsBefore(key[1..], n - 1, t[1..]);
    }
  }

  /** The shortest key at or after the given one that keeps its leading bytes 255; a key of bytes 255 only is left
      alone. */
  method ShortSuccessorBytes(key: Bytes) returns (r: Bytes)
    ensures |r| <= |key|
    ensures CompareBytes(key, r) <= 0
    ensures Succeeds(key, r) && (r == key <==> AllTop(key, |key|))
    ensures forall t :: CompareBytes(key, t) <= 0 ==> |r| <= |t|
  {
    BytewiseEmbeds(key, key);
    for i := 0 to |key|
      invariant AllTop(key, i)
    {
      if key[i] != 255 {
        r := key[..i] + [key[i] + 1];
        assert r[..i] == key[..i];
        FirstDifference(key, r, i);
        forall t | CompareBytes(key, t) <= 0 ensures |r| <= |t| {
          if |t| <= i {
            ShorterIsBefore(key, i, t);
          }
        }
        return;
      }
    }
    r := key;
    forall t | CompareBytes(key, t) <= 0 ensures |r| <= |t| {
      if |t| < |key| {
        ShorterIsBefore(key, |key|, t);
      }
    }
  }

  // ----- Internal keys

  function Code(kind: ValueType): nat {
    if kind.TypeValue? then 1 else 0
  }

  /** AppendInternalKey: the user key, then the sequence number and type in one word. */
  function InternalKey(user: Bytes, sequence: nat, kind: ValueType): Bytes {
    user + Fixed64(sequence * 256 + Code(kind))
  }

  function ExtractUserKey(s: Bytes): Bytes
    requires |s| >= 8
  {
    s[..|s| - 8]
  }

  function ExtractTag(s: Bytes): nat
    requires |s| >= 8
  {
    DecodeFixed(s[|s| - 8..])
  }

  datatype ParsedInternalKey = ParsedInternalKey(user: Bytes, sequence: nat, kind: ValueType)

  function ParseInternalKey(s: Bytes): Option<ParsedInternalKey> {
    if |s| < 8 || ExtractTag(s) % 256 > 1 then None
    else Some(ParsedInternalKey(ExtractUserKey(s), ExtractTag(s) / 256,
                                if ExtractTag(s) % 256 == 1 then TypeValue else TypeDeletion))
  }

  lemma InternalKeyParts(user: Bytes, tag: nat)
    requires tag < TWO64
    ensures var s := user + Fixed64(tag);
            |s| >= 8 && ExtractUserKey(s) == user && ExtractTag(s) == tag
  {
    var s := user + Fixed64(tag);
    Fixed64RoundTrip(tag);
    assert s[|s| - 8..] == Fixed64(tag);
  }

  lemma InternalKeyRoundTrip(user: Bytes, sequence: nat, kind: ValueType)
    requires sequence <= MAX_SEQUENCE
    ensures ParseInternalKey(InternalKey(user, sequence, kind)) == Some(ParsedInternalKey(user, sequence, kind))
  {
    hide Fixed64, ExtractTag, ExtractUserKey;
    InternalKeyParts(user, sequence * 256 + Code(kind));
  }

  // ----- The comparators

  datatype Comparator = Bytewise | Internal

  /** What a comparator may be given. */
  predicate WellFormed(c: Comparator, s: Bytes): (r: bool)
    ensures r ==> Comparable(c, s)
  {
    c.Internal? ==> ParseInternalKey(s).Some?
  }

  /** What it can compare: the type byte does not matter. */
  predicate Comparable(c: Comparator, s: Bytes) {
    c.Internal? ==> |s| >= 8
  }

  function Compare(c: Comparator, a: Bytes, b: Bytes): int
    requires Comparable(c, a) && Comparable(c, b)
  {
    match c
    case Bytewise => CompareBytes(a, b)
    case Internal =>
      var r := CompareBytes(ExtractUserKey(a), ExtractUserKey(b));
      if r != 0 then r
      else if ExtractTag(a) > ExtractTag(b) then -1
      else if ExtractTag(a) < ExtractTag(b) then 1
      else 0
  }

  /** The abstract key that a byte string stands for. */
  function Rank(c: Comparator, s: Bytes): IKey
    requires WellFormed(c, s)
  {
    match c
    case Bytewise => IKey(Embed(s), 0, TypeValue)
    case Internal =>
      var p := ParseInternalKey(s).value;
      IKey(Embed(p.user), p.sequence, p.kind)
  }

  function UserPart(c: Comparator, s: Bytes): Bytes
    requires Comparable(c, s)
  {
    if c.Internal? then ExtractUserKey(s) else s
  }

  function TagPart(c: Comparator, s: Bytes): nat
    requires Comparable(c, s)
  {
    if c.Internal? then ExtractTag(s) else 0
  }

  /** Either comparator is a total order, by user key and then by falling tag, on all byte strings it can compare. */
  lemma CompareIsOrder(c: Comparator, a: Bytes, b: Bytes)
    requires Comparable(c, a) && Comparable(c, b)
    ensures var x, y := Embed(UserPart(c, a)), Embed(UserPart(c, b));
            && (Compare(c, a, b) < 0 <==> x < y || (x == y && TagPart(c, a) > TagPart(c, b)))
            && (Compare(c, a, b) > 0 <==> x > y || (x == y && TagPart(c, a) < TagPart(c, b)))
    ensures Compare(c, a, b) == 0 <==> a == b
  {
    BytewiseEmbeds(UserPart(c, a), UserPart(c, b));
    if c.Internal? {
      SameInternalKey(a, b);
    }
  }

  /** Both comparators order byte strings as Before orders the abstract keys, and equal means the same bytes. */
  lemma CompareIsBefore(c: Comparator, a: Bytes, b: Bytes)
    requires WellFormed(c, a) && WellFormed(c, b)
    ensures Compare(c, a, b) < 0 <==> Before(Rank(c, a), Rank(c, b))
    ensures Compare(c, a, b) > 0 <==> Before(Rank(c, b), Rank(c, a))
    ensures Compare(c, a, b) == 0 <==> a == b
    ensures Rank(c, a) == Rank(c, b) <==> a == b
  {
    if c.Bytewise? {
      BytewiseEmbeds(a, b);
    } else {
      BytewiseEmbeds(ExtractUserKey(a), ExtractUserKey(b));
      SameInternalKey(a, b);
      RankTag(a);
      RankTag(b);
    }
  }

  lemma RankTag(s: Bytes)
    requires ParseInternalKey(s).Some?
    ensures Rank(Internal, s).Tag() == ExtractTag(s)
  {
  }

  lemma SameInternalKey(a: Bytes, b: Bytes)
    requires |a| >= 8 && |b| >= 8
    ensures a == b <==> ExtractUserKey(a) == ExtractUserKey(b) && ExtractTag(a) == ExtractTag(b)
  {
    DecodeFixedInjective(a[|a| - 8..], b[|b| - 8..]);
    assert a == ExtractUserKey(a) + a[|a| - 8..];
    assert b == ExtractUserKey(b) + b[|b| - 8..];
  }

  lemma {:induction false} DecodeFixedInjective(a: Bytes, b: Bytes)
    requires |a| == |b|
    ensures DecodeFixed(a) == DecodeFixed(b) <==> a == b
  {
    if a != [] {
      DecodeFixedInjective(a[1..], b[1..]);
      assert a == [a[0]] + a[1..] && b == [b[0]] + b[1..];
    }
  }

  /** The key that a lookup of a user key at a snapshot seeks to, as bytes and abstractly. */
  lemma LookupKeyRank(user: Bytes, snapshot: nat)
    requires snapshot <= MAX_SEQUENCE
    ensures WellFormed(Internal, InternalKey(user, snapshot, TypeValue))
    ensures Rank(Internal, InternalKey(user, snapshot, TypeValue)) == SeekKey(Embed(user), snapshot)
  {
    InternalKeyRoundTrip(user, snapshot, TypeValue);
  }

  /** The internal comparator shortens the user key; if that makes it shorter, it gets the earliest tag. */
  ghost predicate ShortSeparator(c: Comparator, start: Bytes, limit: Bytes, r: Bytes) {
    && Comparable(c, start) && Comparable(c, limit)
    && if c.Bytewise? then SeparatesBytes(start, limit, r)
       else exists tmp :: SeparatesBytes(ExtractUserKey(start), ExtractUserKey(limit), tmp)
                          && r == if |tmp| + 8 < |start| then InternalKey(tmp, MAX_SEQUENCE, TypeValue) else start
  }

  ghost predicate ShortSuccessor(c: Comparator, key: Bytes, r: Bytes) {
    && Comparable(c, key)
    && if c.Bytewise? then Succeeds(key, r)
       else exists tmp :: Succeeds(ExtractUserKey(key), tmp)
                          && r == if |tmp| + 8 < |key| then InternalKey(tmp, MAX_SEQUENCE, TypeValue) else key
  }

  /** FindShortestSeparator of either comparator: for start < limit a key in [start, limit). */
  method FindShortestSeparator(c: Comparator, start: Bytes, limit: Bytes) returns (r: Bytes)
    requires WellFormed(c, start) && WellFormed(c, limit)
    ensures |r| <= |start| && WellFormed(c, r)
    ensures !Before(Rank(c, r), Rank(c, start))
    ensures r != start ==> Rank(c, start).user < Rank(c, r).user < Rank(c, limit).user
    ensures ShortSeparator(c, start, limit, r)
  {
    r := start;
    if c.Bytewise? {
      r := ShortestSeparatorBytes(start, limit);
      BytewiseEmbeds(start, r);
      BytewiseEmbeds(r, limit);
    } else {
      var user := ExtractUserKey(start);
      var tmp := ShortestSeparatorBytes(user, ExtractUserKey(limit));
      if |tmp| < |user| && CompareBytes(user, tmp) < 0 {
        r := InternalKey(tmp, MAX_SEQUENCE, TypeValue);
        InternalKeyRoundTrip(tmp, MAX_SEQUENCE, TypeValue);
        BytewiseEmbeds(user, tmp);
        BytewiseEmbeds(tmp, ExtractUserKey(limit));
      }
    }
  }

  /** FindShortSuccessor of either comparator: a short key at or after the given one. */
  method FindShortSuccessor(c: Comparator, key: Bytes) returns (r: Bytes)
    requires WellFormed(c, key)
    ensures |r| <= |key| && WellFormed(c, r)
    ensures !Before(Rank(c, r), Rank(c, key))
    ensures ShortSuccessor(c, key, r)
  {
    hide Fixed64, DecodeFixed, Succeeds;
    r := key;
    if c.Bytewise? {
      r := ShortSuccessorBytes(key);
      BytewiseEmbeds(key, r);
    } else {
      var user := ExtractUserKey(key);
      var tmp := ShortSuccessorBytes(user);
      BytewiseEmbeds(user, tmp);
      if |tmp| < |user| && CompareBytes(user, tmp) < 0 {
        r := InternalKey(tmp, MAX_SEQUENCE, TypeValue);
        InternalKeyRoundTrip(tmp, MAX_SEQUENCE, TypeValue);
      }
    }
  }

  lemma InternalKeyTag(user: Bytes, sequence: nat, kind: ValueType)
    requires sequence <= MAX_SEQUENCE
    ensures var s := InternalKey(user, sequence, kind);
            |s| == |user| + 8 && ExtractUserKey(s) == user && ExtractTag(s) == sequence * 256 + Code(kind)
  {
    hide ExtractTag, ExtractUserKey;
    InternalKeyParts(user, sequence * 256 + Code(kind));
  }

  // ----- Memtable entries

  /** The buffer that MemTable::Add hands to the skip list. */
  function MemTableEntry(user: Bytes, sequence: nat, kind: ValueType, value: Bytes): Bytes {
    LengthPrefixed(InternalKey(user, sequence, kind)) + LengthPrefixed(value)
  }

  /** MemTable::Get's answer at an entry it lands on: nothing when the user key differs, otherwise the value,
      or None for a deletion. */
  function ReadMemTableEntry(entry: Bytes, user: Bytes): Option<Option<Bytes>> {
    var k := GetLengthPrefixed(entry);
    if k.None? || |k.value.0| < 8 || CompareBytes(ExtractUserKey(k.value.0), user) != 0 then None
    else if ExtractTag(k.value.0) % 256 == 1 then
      var v := GetLengthPrefixed(k.value.1);
      if v.None? then None else Some(Some(v.value.0))
    else if ExtractTag(k.value.0) % 256 == 0 then Some(None)
    else None
  }

  /** What MemTable::Add wrote, MemTable::Get reads back, whatever lies behind it in the arena. */
  lemma MemTableEntryRoundTrip(user: Bytes, sequence: nat, kind: ValueType, value: Bytes, key: Bytes, rest: Bytes)
    requires sequence <= MAX_SEQUENCE && |user| + 8 < TWO32 && |value| < TWO32
    ensures ReadMemTableEntry(MemTableEntry(user, sequence, kind, value) + rest, key)
         == if key != user then None else if kind.TypeValue? then Some(Some(value)) else Some(None)
  {
    hide LengthPrefixed, GetLengthPrefixed, CompareBytes, Embed, InternalKey, DecodeFixed;
    var k := InternalKey(user, sequence, kind);
    InternalKeyTag(user, sequence, kind);
    assert MemTableEntry(user, sequence, kind, value) + rest == LengthPrefixed(k) + (LengthPrefixed(value) + rest);
    LengthPrefixedRoundTrip(k, LengthPrefixed(value) + rest);
    LengthPrefixedRoundTrip(value, rest);
    BytewiseEmbeds(user, key);
  }
}
