/**
 * State machine commands and the algebra recovery rests on: put, delete and delete_prefix overwrite, so what a key
 * holds after a log depends only on the last command that touches it.
 */
module Overwrite {
  import opened Bytes

  /** A decoded log entry. Noop stands for configuration changes, empty entries and entries that do not decode. */
  datatype Command<+V> =
    | Noop
    | Put(key: Bytes, value: V)
    | Delete(key: Bytes)
    | DeletePrefix(prefix: Bytes)

  function Larger(a: nat, b: nat): nat { if a < b then b else a }

  predicate Touches<V>(cmd: Command<V>, key: Bytes) {
    match cmd
    case Noop => false
    case Put(k, _) => k == key
    case Delete(k) => k == key
    case DeletePrefix(p) => InRange(key, p)
  }

  /** PebbleStore.Apply on the business keys: one atomic batch per command. */
  function Apply<V>(cmd: Command<V>, data: map<Bytes, V>): map<Bytes, V> {
    match cmd
    case Noop => data
    case Put(k, v) => data[k := v]
    case Delete(k) => data - {k}
    case DeletePrefix(p) => map k | k in data && !InRange(k, p) :: data[k]
  }

  function Fold<V>(log: seq<Command<V>>, data: map<Bytes, V>): map<Bytes, V> {
    if log == [] then data else Fold(log[1..], Apply(log[0], data))
  }

  /** The true state after the first n commands of a log. */
  function StateAt<V>(log: seq<Command<V>>, n: nat): map<Bytes, V>
    requires n <= |log|
  {
    Fold(log[..n], map[])
  }

  ghost predicate Touched<V>(log: seq<Command<V>>, key: Bytes) {
    exists i :: 0 <= i < |log| && Touches(log[i], key)
  }

  predicate SameAt<V(==)>(a: map<Bytes, V>, b: map<Bytes, V>, key: Bytes) {
    (key in a <==> key in b) && (key in a ==> a[key] == b[key])
  }

  lemma SameEverywhere<V>(a: map<Bytes, V>, b: map<Bytes, V>)
    requires forall key :: SameAt(a, b, key)
    ensures a == b
  {
    assert forall key :: key in a ==> SameAt(a, b, key);
    assert forall key :: key in b ==> SameAt(a, b, key);
  }

  /** content, labelled i, stands for the log below i: folding entries i+1..n onto it gives the state after n. */
  ghost predicate Covers<V>(log: seq<Command<V>>, content: map<Bytes, V>, i: nat, n: nat)
    requires i <= n <= |log|
  {
    Fold(log[i..n], content) == StateAt(log, n)
  }

  lemma {:induction false} FoldConcat<V>(a: seq<Command<V>>, b: seq<Command<V>>, data: map<Bytes, V>)
    ensures Fold(a + b, data) == Fold(b, Fold(a, data))
  {
    if a == [] {
      assert a + b == b;
    } else {
      assert (a + b)[1..] == a[1..] + b;
      FoldConcat(a[1..], b, Apply(a[0], data));
    }
  }

  lemma FoldSplit<V>(log: seq<Command<V>>, i: nat, j: nat, n: nat, data: map<Bytes, V>)
    requires i <= j <= n <= |log|
    ensures Fold(log[i..n], data) == Fold(log[j..n], Fold(log[i..j], data))
  {
    assert log[i..n] == log[i..j] + log[j..n];
    FoldConcat(log[i..j], log[j..n], data);
  }

  lemma FoldStep<V>(log: seq<Command<V>>, i: nat, j: nat, data: map<Bytes, V>)
    requires i <= j < |log|
    ensures Fold(log[i..j + 1], data) == Apply(log[j], Fold(log[i..j], data))
  {
    FoldSplit(log, i, j, j + 1, data);
    assert log[j..j + 1] == [log[j]];
  }

  /** An untouched key keeps what it held; a touched key forgets what it held. */
  lemma {:induction false} FoldAtKey<V>(log: seq<Command<V>>, a: map<Bytes, V>, b: map<Bytes, V>, key: Bytes)
    ensures !Touched(log, key) ==> SameAt(Fold(log, a), a, key)
    ensures Touched(log, key) || SameAt(a, b, key) ==> SameAt(Fold(log, a), Fold(log, b), key)
  {
    if log != [] {
      var a', b' := Apply(log[0], a), Apply(log[0], b);
      FoldAtKey(log[1..], a', b', key);
      assert Touched(log, key) <==> Touches(log[0], key) || Touched(log[1..], key) by {
        if Touched(log[1..], key) {
          var i :| 0 <= i < |log[1..]| && Touches(log[1..][i], key);
          assert Touches(log[i + 1], key);
        }
        if Touched(log, key) && !Touches(log[0], key) {
          var i :| 0 <= i < |log| && Touches(log[i], key);
          assert Touches(log[1..][i - 1], key);
        }
      }
    }
  }

  /** Exactly when a labelled content may be replayed onto: it is right on every key the replay does not touch. */
  lemma CoversIff<V>(log: seq<Command<V>>, content: map<Bytes, V>, i: nat, n: nat)
    requires i <= n <= |log|
    ensures Covers(log, content, i, n) <==>
              forall key :: Touched(log[i..n], key) || SameAt(content, StateAt(log, n), key)
  {
    var replayed, truth := Fold(log[i..n], content), StateAt(log, n);
    FoldSplit(log, 0, i, n, map[]);
    assert log[0..n] == log[..n] && log[0..i] == log[..i];
    forall key
      ensures Touched(log[i..n], key) ==> SameAt(replayed, truth, key)
      ensures !Touched(log[i..n], key) ==> SameAt(replayed, content, key)
    {
      FoldAtKey(log[i..n], content, StateAt(log, i), key);
    }
    if forall key :: Touched(log[i..n], key) || SameAt(content, truth, key) {
      forall key ensures SameAt(replayed, truth, key) {}
      SameEverywhere(replayed, truth);
    }
    if replayed == truth {
      forall key ensures Touched(log[i..n], key) || SameAt(content, truth, key) {}
    }
  }

  /** Replay may start earlier than the label: commands the content already holds are applied again harmlessly. */
  lemma CoversDown<V>(log: seq<Command<V>>, content: map<Bytes, V>, i: nat, j: nat, n: nat)
    requires i <= j <= n <= |log|
    requires Covers(log, content, j, n)
    ensures Covers(log, content, i, n)
  {
    CoversIff(log, content, i, n);
    CoversIff(log, content, j, n);
    forall key ensures Touched(log[i..n], key) || SameAt(content, StateAt(log, n), key) {
      if Touched(log[j..n], key) {
        var k :| 0 <= k < |log[j..n]| && Touches(log[j..n][k], key);
        assert log[i..n][k + j - i] == log[j..n][k];
      }
    }
  }

  /** Once a content catches up at n it catches up at every later index. */
  lemma CoversUp<V>(log: seq<Command<V>>, content: map<Bytes, V>, i: nat, n: nat, later: nat)
    requires i <= n <= later <= |log|
    requires Covers(log, content, i, n)
    ensures Covers(log, content, i, later)
  {
    FoldSplit(log, i, n, later, content);
    FoldSplit(log, 0, n, later, map[]);
    assert log[0..n] == log[..n] && log[0..later] == log[..later];
  }

  lemma CoversStep<V>(log: seq<Command<V>>, content: map<Bytes, V>, i: nat, n: nat)
    requires i < n <= |log|
    requires Covers(log, content, i, n)
    ensures Covers(log, Apply(log[i], content), i + 1, n)
  {
    FoldSplit(log, i, i + 1, n, content);
    assert log[i..i + 1] == [log[i]];
  }

  /** The replay law: folding entries i+1..n onto the state after j, for any i <= j <= n, gives the state after n. */
  lemma ReplayLaw<V>(log: seq<Command<V>>, i: nat, j: nat, n: nat)
    requires i <= j <= n <= |log|
    ensures Fold(log[i..n], StateAt(log, j)) == StateAt(log, n)
  {
    FoldSplit(log, 0, j, n, map[]);
    assert log[0..n] == log[..n] && log[0..j] == log[..j];
    CoversDown(log, StateAt(log, j), i, j, n);
  }

  /** What each command does to each key: a range delete spares keys that continue the prefix with byte 0xFF. */
  lemma ApplyAt<V>(cmd: Command<V>, data: map<Bytes, V>, key: Bytes)
    ensures var after := Apply(cmd, data);
            match cmd
            case Noop => SameAt(after, data, key)
            case Put(k, v) => if key == k then key in after && after[key] == v else SameAt(after, data, key)
            case Delete(k) => if key == k then key !in after else SameAt(after, data, key)
            case DeletePrefix(p) =>
              if |p| <= |key| && key[..|p|] == p && (|key| > |p| ==> key[|p|] != TopByte)
              then key !in after else SameAt(after, data, key)
  {
    if cmd.DeletePrefix? { PrefixRangeExact(key, cmd.prefix); }
  }
}
