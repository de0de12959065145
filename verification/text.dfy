/**
 * The string functions the registry's keys and selectors are written with. Strings are bytes, as in Go; white space is
 * what unicode.IsSpace knows, in its UTF-8 encodings.
 */
module Text {
  import opened Bytes
  import opened Options

  predicate IsAscii(c: Byte) {
    c < '\U{80}'
  }

  /** White space of one byte. */
  predicate IsSpace(c: Byte) {
    c == ' ' || c == '\t' || c == '\n' || c == '\r' || c == '\U{B}' || c == '\U{C}'
  }

  /** White space beyond ASCII: U+0085, U+00A0, U+1680, U+2000-200A, U+2028, U+2029, U+202F, U+205F and U+3000. */
  predicate IsWideSpace(c: Bytes) {
    || (|c| == 2 && c[0] == '\U{C2}' && (c[1] == '\U{85}' || c[1] == '\U{A0}'))
    || c == ['\U{E1}', '\U{9A}', '\U{80}']
    || (|c| == 3 && c[0] == '\U{E2}' && c[1] == '\U{80}' &&
        ('\U{80}' <= c[2] <= '\U{8A}' || c[2] == '\U{A8}' || c[2] == '\U{A9}' || c[2] == '\U{AF}'))
    || c == ['\U{E2}', '\U{81}', '\U{9F}']
    || c == ['\U{E3}', '\U{80}', '\U{80}']
  }

  /** The length of the white space character the text starts with; 0 if it starts with something else. */
  function SpaceAtStart(s: Bytes): (n: nat)
    ensures n <= |s|
  {
    if s != [] && IsSpace(s[0]) then 1
    else if |s| >= 2 && IsWideSpace(s[..2]) then 2
    else if |s| >= 3 && IsWideSpace(s[..3]) then 3
    else 0
  }

  function SpaceAtEnd(s: Bytes): (n: nat)
    ensures n <= |s|
  {
    if s != [] && IsSpace(s[|s| - 1]) then 1
    else if |s| >= 2 && IsWideSpace(s[|s| - 2..]) then 2
    else if |s| >= 3 && IsWideSpace(s[|s| - 3..]) then 3
    else 0
  }

  /** strings.TrimSpace. */
  function TrimSpace(s: Bytes): (trimmed: Bytes)
    ensures |trimmed| <= |s|
  {
    if SpaceAtStart(s) > 0 then TrimSpace(s[SpaceAtStart(s)..])
    else if SpaceAtEnd(s) > 0 then TrimSpace(s[..|s| - SpaceAtEnd(s)])
    else s
  }

  /** Nothing to trim. */
  predicate Trimmed(s: Bytes) {
    SpaceAtStart(s) == 0 && SpaceAtEnd(s) == 0
  }

  lemma {:induction false} WideBytes(c: Bytes, i: nat)
    requires IsWideSpace(c) && i < |c|
    ensures !IsAscii(c[i])
  {}

  /** A stretch with an ASCII character in it is no white space character beyond ASCII. */
  lemma {:induction false} NotWide(s: Bytes, low: nat, high: nat, i: nat)
    requires low <= i < high <= |s| && IsAscii(s[i])
    ensures !IsWideSpace(s[low..high])
  {
    hide IsWideSpace;
    assert s[low..high][i - low] == s[i];
    if IsWideSpace(s[low..high]) {
      WideBytes(s[low..high], i - low);
    }
  }

  /** No white space is made by putting something ASCII behind a text, or in front of one. */
  lemma {:induction false} StartStays(a: Bytes, b: Bytes)
    requires a != [] && SpaceAtStart(a) == 0 && (b != [] ==> IsAscii(b[0]))
    ensures SpaceAtStart(a + b) == 0
  {
    hide IsWideSpace;
    var s := a + b;
    if |s| >= 2 {
      if |a| >= 2 { assert s[..2] == a[..2]; } else { NotWide(s, 0, 2, 1); }
    }
    if |s| >= 3 {
      if |a| >= 3 { assert s[..3] == a[..3]; } else { NotWide(s, 0, 3, |a|); }
    }
  }

  lemma {:induction false} NotWideEnd(s: Bytes, low: nat, i: nat)
    requires low <= i < |s| && IsAscii(s[i])
    ensures !IsWideSpace(s[low..])
  {
    hide IsWideSpace;
    assert s[low..|s|] == s[low..];
    NotWide(s, low, |s|, i);
  }

  lemma {:induction false} AsciiStart(s: Bytes)
    requires s != [] && IsAscii(s[0]) && !IsSpace(s[0])
    ensures SpaceAtStart(s) == 0
  {
    hide IsWideSpace;
    if |s| >= 2 { NotWide(s, 0, 2, 0); }
    if |s| >= 3 { NotWide(s, 0, 3, 0); }
  }

  lemma {:induction false} AsciiEnd(s: Bytes)
    requires s != [] && IsAscii(s[|s| - 1]) && !IsSpace(s[|s| - 1])
    ensures SpaceAtEnd(s) == 0
  {
    hide IsWideSpace;
    if |s| >= 2 { NotWideEnd(s, |s| - 2, |s| - 1); }
    if |s| >= 3 { NotWideEnd(s, |s| - 3, |s| - 1); }
  }

  lemma SameEnd(a: Bytes, b: Bytes, n: nat)
    requires n <= |b|
    ensures (a + b)[|a + b| - n..] == b[|b| - n..]
  {}

  /** The last n bytes of such a text are no white space character beyond ASCII. */
  lemma {:induction false} EndNotWide(a: Bytes, b: Bytes, n: nat)
    requires b != [] && 0 < n <= |a + b| && (a != [] ==> IsAscii(a[|a| - 1]))
    requires n <= |b| ==> !IsWideSpace(b[|b| - n..])
    ensures !IsWideSpace((a + b)[|a + b| - n..])
  {
    hide IsWideSpace;
    if n <= |b| {
      SameEnd(a, b, n);
    } else {
      NotWideEnd(a + b, |a + b| - n, |a| - 1);
    }
  }

  lemma {:induction false} EndStays(a: Bytes, b: Bytes)
    requires b != [] && SpaceAtEnd(b) == 0 && (a != [] ==> IsAscii(a[|a| - 1]))
    ensures SpaceAtEnd(a + b) == 0
  {
    hide IsWideSpace, IsSpace;
    if |a + b| >= 2 { EndNotWide(a, b, 2); }
    if |a + b| >= 3 { EndNotWide(a, b, 3); }
    assert (a + b)[|a + b| - 1] == b[|b| - 1];
  }

  /** What is left has nothing to trim. */
  lemma {:induction false} TrimSpaceTrims(s: Bytes)
    ensures Trimmed(TrimSpace(s))
    decreases |s|
  {
    hide IsWideSpace, IsSpace;
    if SpaceAtStart(s) > 0 {
      TrimSpaceTrims(s[SpaceAtStart(s)..]);
    } else if SpaceAtEnd(s) > 0 {
      TrimSpaceTrims(s[..|s| - SpaceAtEnd(s)]);
    }
  }

  /** What is left is one stretch of the text. */
  lemma {:induction false} TrimSpaceCuts(s: Bytes) returns (from: nat)
    ensures from + |TrimSpace(s)| <= |s| && TrimSpace(s) == s[from..from + |TrimSpace(s)|]
    decreases |s|
  {
    hide IsWideSpace, IsSpace, SpaceAtStart, SpaceAtEnd;
    if SpaceAtStart(s) > 0 {
      from := TrimSpaceCuts(s[SpaceAtStart(s)..]);
      SliceOfRest(s, SpaceAtStart(s), from, |TrimSpace(s)|);
      from := SpaceAtStart(s) + from;
    } else if SpaceAtEnd(s) > 0 {
      from := TrimSpaceCuts(s[..|s| - SpaceAtEnd(s)]);
      SliceOfFront(s, |s| - SpaceAtEnd(s), from, |TrimSpace(s)|);
    } else {
      from := 0;
    }
  }

  lemma SliceOfRest(s: Bytes, n: nat, from: nat, length: nat)
    requires n + from + length <= |s|
    ensures s[n..][from..from + length] == s[n + from..n + from + length]
  {}

  lemma SliceOfFront(s: Bytes, n: nat, from: nat, length: nat)
    requires from + length <= n <= |s|
    ensures s[..n][from..from + length] == s[from..from + length]
  {}

  /** Trimming removes nothing but white space. */
  lemma {:induction false} TrimMembers(s: Bytes, c: Byte)
    ensures c in TrimSpace(s) ==> c in s
    ensures c in s && IsAscii(c) && !IsSpace(c) ==> c in TrimSpace(s)
    decreases |s|
  {
    hide IsWideSpace, IsSpace;
    if SpaceAtStart(s) > 0 {
      CutMember(s, SpaceAtStart(s), c);
      TrimMembers(s[SpaceAtStart(s)..], c);
    } else if SpaceAtEnd(s) > 0 {
      CutMember(s, |s| - SpaceAtEnd(s), c);
      TrimMembers(s[..|s| - SpaceAtEnd(s)], c);
    }
  }

  lemma {:induction false} CutMember(s: Bytes, i: nat, c: Byte)
    requires i <= |s|
    ensures c in s <==> c in s[..i] || c in s[i..]
    ensures i == SpaceAtStart(s) && i > 0 && c in s[..i] ==> !IsAscii(c) || IsSpace(c)
    ensures i == |s| - SpaceAtEnd(s) && SpaceAtEnd(s) > 0 && c in s[i..] ==> !IsAscii(c) || IsSpace(c)
  {
    assert s == s[..i] + s[i..];
    hide IsWideSpace, IsSpace;
    if i == SpaceAtStart(s) && i > 1 && c in s[..i] {
      var k :| 0 <= k < i && s[..i][k] == c;
      WideBytes(s[..i], k);
    }
    if i == |s| - SpaceAtEnd(s) && SpaceAtEnd(s) > 1 && c in s[i..] {
      var k :| 0 <= k < |s| - i && s[i..][k] == c;
      WideBytes(s[i..], k);
    }
  }

  function Count(s: Bytes, sep: Byte): nat {
    if s == [] then 0 else (if s[0] == sep then 1 else 0) + Count(s[1..], sep)
  }

  /** strings.Split at a single byte. */
  function Split(s: Bytes, sep: Byte): (parts: seq<Bytes>)
    ensures parts != []
  {
    if s == [] then [[]]
    else
      var rest := Split(s[1..], sep);
      if s[0] == sep then [[]] + rest else [[s[0]] + rest[0]] + rest[1..]
  }

  /** strings.Join with a single byte. */
  function Join(parts: seq<Bytes>, sep: Byte): Bytes {
    if parts == [] then []
    else if |parts| == 1 then parts[0]
    else parts[0] + [sep] + Join(parts[1..], sep)
  }

  lemma TrimmedStays(s: Bytes)
    requires Trimmed(s)
    ensures TrimSpace(s) == s
  {}

  lemma {:induction false} SplitCount(s: Bytes, sep: Byte)
    ensures |Split(s, sep)| == Count(s, sep) + 1
  {
    if s != [] { SplitCount(s[1..], sep); }
  }

  lemma {:induction false} CountConcat(a: Bytes, b: Bytes, sep: Byte)
    ensures Count(a + b, sep) == Count(a, sep) + Count(b, sep)
  {
    if a == [] {
      assert a + b == b;
    } else {
      assert (a + b)[1..] == a[1..] + b;
      CountConcat(a[1..], b, sep);
    }
  }

  lemma {:induction false} CountZero(s: Bytes, sep: Byte)
    ensures Count(s, sep) == 0 <==> sep !in s
  {
    if s != [] {
      CountZero(s[1..], sep);
      assert s == [s[0]] + s[1..];
    }
  }

  /** The part before the first separator comes off whole. */
  lemma {:induction false} SplitHead(a: Bytes, rest: Bytes, sep: Byte)
    requires sep !in a
    ensures Split(a + [sep] + rest, sep) == [a] + Split(rest, sep)
  {
    var s := a + [sep] + rest;
    if a == [] {
      assert s[1..] == rest;
    } else {
      assert s[1..] == a[1..] + [sep] + rest;
      SplitHead(a[1..], rest, sep);
      assert [a[0]] + a[1..] == a;
    }
  }

  lemma {:induction false} SplitWhole(a: Bytes, sep: Byte)
    requires sep !in a
    ensures Split(a, sep) == [a]
  {
    if a != [] {
      SplitWhole(a[1..], sep);
      assert [a[0]] + a[1..] == a;
    }
  }

  /** Splitting undoes joining when no part holds the separator. */
  lemma {:induction false} SplitJoin(parts: seq<Bytes>, sep: Byte)
    requires parts != [] && forall i :: 0 <= i < |parts| ==> sep !in parts[i]
    ensures Split(Join(parts, sep), sep) == parts
  {
    if |parts| == 1 {
      SplitWhole(parts[0], sep);
    } else {
      SplitJoin(parts[1..], sep);
      SplitHead(parts[0], Join(parts[1..], sep), sep);
    }
  }

  /** Joining undoes splitting, and no part holds the separator. */
  lemma {:induction false} JoinSplit(s: Bytes, sep: Byte)
    ensures Join(Split(s, sep), sep) == s
    ensures forall i :: 0 <= i < |Split(s, sep)| ==> sep !in Split(s, sep)[i]
  {
    if s != [] {
      JoinSplit(s[1..], sep);
      var rest := Split(s[1..], sep);
      if s[0] != sep {
        assert Split(s, sep) == [[s[0]] + rest[0]] + rest[1..];
        assert Split(s, sep)[1..] == rest[1..];
        assert Join(Split(s, sep), sep) == [s[0]] + Join(rest, sep);
      } else {
        assert Split(s, sep)[1..] == rest;
      }
    }
  }

  /** strings.Index, with None for -1. */
  function Index(s: Bytes, token: Bytes): Option<nat>
    requires token != []
  {
    if HasPrefix(s, token) then Some(0)
    else if s == [] then None
    else
      var rest := Index(s[1..], token);
      if rest.Some? then Some(rest.value + 1) else None
  }

  /** The first place where the token stands, or nowhere. */
  lemma {:induction false} IndexFirst(s: Bytes, token: Bytes)
    requires token != []
    ensures Index(s, token).Some? ==> Index(s, token).value <= |s| && HasPrefix(s[Index(s, token).value..], token)
    ensures forall i :: 0 <= i <= |s| && HasPrefix(s[i..], token) ==>
              Index(s, token).Some? && Index(s, token).value <= i
  {
    hide HasPrefix;
    assert s[0..] == s;
    if !HasPrefix(s, token) && s != [] {
      IndexFirst(s[1..], token);
      forall i | 0 < i <= |s| ensures s[i..] == s[1..][i - 1..] {}
    }
  }

  function Shift(i: Option<nat>, offset: nat): Option<nat> {
    if i.Some? then Some(i.value + offset) else None
  }

  lemma IndexBounds(s: Bytes, token: Bytes)
    requires token != []
    ensures Index(s, token).Some? ==>
              Index(s, token).value + |token| <= |s| &&
              s[Index(s, token).value..Index(s, token).value + |token|] == token
  {
    if !HasPrefix(s, token) && s != [] {
      IndexBounds(s[1..], token);
    }
  }

  lemma OtherStart(s: Bytes, token: Bytes)
    requires s != [] && token != [] && s[0] != token[0]
    ensures !HasPrefix(s, token)
  {
    assert |token| <= |s| ==> s[..|token|][0] == s[0];
  }

  lemma IndexStep(s: Bytes, token: Bytes)
    requires token != [] && s != []
    ensures Index(s, token) == if HasPrefix(s, token) then Some(0) else Shift(Index(s[1..], token), 1)
  {}

  /** No match starts where the token's first byte does not occur. */
  lemma {:induction false} IndexSkip(a: Bytes, rest: Bytes, token: Bytes)
    requires token != [] && token[0] !in a
    ensures Index(a + rest, token) == Shift(Index(rest, token), |a|)
  {
    if a == [] {
      assert a + rest == rest;
    } else {
      assert (a + rest)[1..] == a[1..] + rest;
      IndexSkip(a[1..], rest, token);
      assert (a + rest)[0] == a[0] && a[0] in a;
      OtherStart(a + rest, token);
    }
  }

  lemma PrefixByte(s: Bytes, prefix: Bytes, i: nat)
    requires HasPrefix(s, prefix) && i < |prefix|
    ensures s[i] == prefix[i]
  {
    assert s[..|prefix|][i] == prefix[i];
  }

  lemma {:induction false} JoinConcat(a: seq<Bytes>, b: seq<Bytes>, sep: Byte)
    requires a != [] && b != []
    ensures Join(a + b, sep) == Join(a, sep) + [sep] + Join(b, sep)
  {
    if |a| == 1 {
      assert (a + b)[1..] == b;
    } else {
      assert (a + b)[1..] == a[1..] + b;
      JoinConcat(a[1..], b, sep);
      Regroup(a[0], [sep], Join(a[1..], sep), [sep], Join(b, sep));
    }
  }

  lemma Regroup(a: Bytes, b: Bytes, c: Bytes, d: Bytes, e: Bytes)
    ensures a + b + (c + d + e) == (a + b + c) + d + e
  {}
}
