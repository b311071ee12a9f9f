/** Bytes, machine words, optional values and the little index arithmetic that every ring and codec shares. */
module Bytes {

  type byte = x: int | 0 <= x < 256

  type u32 = x: int | 0 <= x < 0x1_0000_0000

  datatype Option<+T> = None | Some(value: T)

  function Min(a: nat, b: nat): nat {
    if a <= b then a else b
  }

  /** The ring position reached by moving off places, at most one lap, from a valid place. */
  function Wrap(i: nat, size: nat): nat
    requires i < 2 * size
  {
    if i < size then i else i - size
  }

  lemma ModIsWrap(i: nat, size: nat)
    requires 0 < size && i < 2 * size
    ensures i % size == Wrap(i, size)
  {
    if i >= size {
      assert i == size * 1 + (i - size);
    }
  }

  /** Moving on twice is moving on once by the sum; measuring the way back gives what was moved. */
  lemma MoveAndMeasure(a: nat, i: nat, j: nat, size: nat)
    requires a < size && i + j <= size
    ensures ((a + i) % size + j) % size == Wrap(a + i + j, size)
    ensures i < size ==> ((a + i) % size + size - a) % size == i
  {
    ModIsWrap(a + i, size);
    ModIsWrap(Wrap(a + i, size) + j, size);
    if i < size {
      ModIsWrap(Wrap(a + i, size) + size - a, size);
    }
  }

  lemma SliceOfSlice<T>(s: seq<T>, a: nat, b: nat, i: nat, j: nat)
    requires a <= b <= |s| && i <= j <= b - a
    ensures s[a..b][i..j] == s[a + i..a + j]
  {
    var t := s[a..b][i..j];
    assert forall k :: 0 <= k < |t| ==> t[k] == s[a + i..a + j][k];
  }

  lemma ConcatSplit<T>(a: seq<T>, b: seq<T>, i: nat)
    requires i <= |b|
    ensures a + b == (a + b[..i]) + b[i..] && b[..i] + b[i..] == b
  {
  }

  /** s' is s but for the byte at p. */
  predicate OnlyDiffersAt(s: seq<byte>, s': seq<byte>, p: nat) {
    && |s'| == |s| && p < |s| && s'[p] != s[p]
    && forall k :: 0 <= k < |s| && k != p ==> s'[k] == s[k]
  }

  function Flatten<T>(parts: seq<seq<T>>): seq<T> {
    if parts == [] then [] else parts[0] + Flatten(parts[1..])
  }

  lemma {:induction false} FlattenAppend<T>(parts: seq<seq<T>>, last: seq<T>)
    ensures Flatten(parts + [last]) == Flatten(parts) + last
  {
    if parts == [] {
      assert parts + [last] == [last];
      assert Flatten([last]) == last + Flatten<T>([]);
    } else {
      assert (parts + [last])[1..] == parts[1..] + [last];
      FlattenAppend(parts[1..], last);
    }
  }

  function Sum(ns: seq<int>): int {
    if ns == [] then 0 else ns[0] + Sum(ns[1..])
  }

  lemma {:induction false} SumAppend(a: seq<int>, b: seq<int>)
    ensures Sum(a + b) == Sum(a) + Sum(b)
  {
    if a == [] {
      assert a + b == b;
    } else {
      assert (a + b)[1..] == a[1..] + b;
      SumAppend(a[1..], b);
    }
  }
}
