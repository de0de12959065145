/** Byte strings and the byte-lexicographic order that Pebble iterators and Go string comparison use. */
module Bytes {

  type Byte = c: char | c as int <= 0xFF witness ' '
  type Bytes = seq<Byte>

  /** The byte 0xFF that prefix scans append to build an upper bound. */
  const TopByte: Byte := '\U{FF}'
  /** The byte 0x00 that the cleanup cursor appends to step past a key. */
  const ZeroByte: Byte := '\U{0}'

  predicate HasPrefix(key: Bytes, prefix: Bytes) {
    |prefix| <= |key| && key[..|prefix|] == prefix
  }

  predicate Less(a: Bytes, b: Bytes) {
    b != [] && (a == [] || a[0] < b[0] || (a[0] == b[0] && Less(a[1..], b[1..])))
  }

  predicate AtMost(a: Bytes, b: Bytes) {
    !Less(b, a)
  }

  function UpperBound(prefix: Bytes): Bytes {
    prefix + [TopByte]
  }

  /** Key lies in the half-open interval from prefix to prefix followed by 0xFF. */
  predicate InRange(key: Bytes, prefix: Bytes) {
    AtMost(prefix, key) && Less(key, UpperBound(prefix))
  }

  lemma {:induction false} LessTransitive(a: Bytes, b: Bytes, c: Bytes)
    requires Less(a, b) && Less(b, c)
    ensures Less(a, c)
  {
    if a != [] && a[0] == b[0] && b[0] == c[0] {
      LessTransitive(a[1..], b[1..], c[1..]);
    }
  }

  lemma {:induction false} LessIrreflexive(a: Bytes)
    ensures !Less(a, a)
  {
    if a != [] { LessIrreflexive(a[1..]); }
  }

  lemma {:induction false} LessTotal(a: Bytes, b: Bytes)
    ensures Less(a, b) || a == b || Less(b, a)
  {
    if a != [] && b != [] && a[0] == b[0] {
      LessTotal(a[1..], b[1..]);
      assert a == [a[0]] + a[1..] && b == [b[0]] + b[1..];
    }
  }

  lemma LessAsymmetric(a: Bytes, b: Bytes)
    requires Less(a, b)
    ensures a != b && AtMost(a, b)
  {
    LessIrreflexive(a);
    if Less(b, a) { LessTransitive(a, b, a); }
  }

  lemma AtMostTransitive(a: Bytes, b: Bytes, c: Bytes)
    requires AtMost(a, b) && AtMost(b, c)
    ensures AtMost(a, c)
  {
    LessTotal(a, b);
    LessTotal(b, c);
    if a != b && b != c {
      LessTransitive(a, b, c);
      LessAsymmetric(a, c);
    }
  }

  lemma AtMostAntisymmetric(a: Bytes, b: Bytes)
    requires AtMost(a, b) && AtMost(b, a)
    ensures a == b
  {
    LessTotal(a, b);
  }

  lemma LessThanOneByte(key: Bytes, b: Byte)
    ensures Less(key, [b]) <==> key == [] || key[0] < b
  {
    assert [b][1..] == [];
    if key != [] {
      assert !Less(key[1..], [b][1..]);
    }
  }

  /**
   * The interval from p to p followed by 0xFF is not "all keys with prefix p": it misses exactly the keys whose
   * byte after the prefix is 0xFF.
   */
  lemma {:induction false} PrefixRangeExact(key: Bytes, prefix: Bytes)
    ensures InRange(key, prefix) <==>
              HasPrefix(key, prefix) && (|key| > |prefix| ==> key[|prefix|] != TopByte)
  {
    if prefix == [] {
      LessThanOneByte(key, TopByte);
      assert UpperBound(prefix) == [TopByte];
    } else if key != [] {
      PrefixRangeExact(key[1..], prefix[1..]);
      assert UpperBound(prefix)[1..] == UpperBound(prefix[1..]);
      assert HasPrefix(key, prefix) <==> key[0] == prefix[0] && HasPrefix(key[1..], prefix[1..]) by {
        assert prefix == [prefix[0]] + prefix[1..];
        if |prefix| <= |key| {
          assert key[..|prefix|] == [key[0]] + key[1..][..|prefix| - 1];
        }
      }
    }
  }

  /** No key lies strictly between k and k followed by 0x00. */
  lemma {:induction false} SuccessorIsNext(key: Bytes, other: Bytes)
    ensures Less(key, other) <==> AtMost(key + [ZeroByte], other)
  {
    if key == [] {
      LessThanOneByte(other, ZeroByte);
      assert key + [ZeroByte] == [ZeroByte];
    } else if other != [] {
      assert (key + [ZeroByte])[1..] == key[1..] + [ZeroByte];
      SuccessorIsNext(key[1..], other[1..]);
    }
  }
}
