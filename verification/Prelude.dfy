/** Types and library idioms shared by every part of the model. */
module Prelude {

  const TWO64: int := 0x1_0000_0000_0000_0000

  // Go's uint64. Assigning an int to a u64 obliges the verifier to show that it fits.
  type u64 = x: int | 0 <= x < 0x1_0000_0000_0000_0000

  /** Arithmetic on uint64. */
  function Wrap(x: int): u64 {
    if 0 <= x < 0x1_0000_0000_0000_0000 then x else x % 0x1_0000_0000_0000_0000
  }

  type byte = x: int | 0 <= x < 256
  type Bytes = seq<byte>

  datatype Option<+T> = None | Some(value: T)

  datatype Result<+T> = Ok(value: T) | Err(error: string)

  function Max(a: int, b: int): int {
    if a >= b then a else b
  }

  function Min(a: int, b: int): int {
    if a <= b then a else b
  }

  /** The k heights from start on. */
  function Stretch(start: u64, k: nat): (r: set<u64>)
    requires start + k < TWO64
    ensures forall n: u64 :: n in r <==> start <= n < start + k
    ensures |r| == k
  {
    if k == 0 then {} else
      var last: u64 := start + k - 1;
      Stretch(start, k - 1) + {last}
  }

  /** bytes.Split and strings.Split with a one-element separator. */
  function Split<T(==)>(s: seq<T>, sep: T): (r: seq<seq<T>>)
    ensures |r| >= 1
  {
    if s == [] then [[]]
    else
      var r := Split(s[1..], sep);
      if s[0] == sep then [[]] + r else [[s[0]] + r[0]] + r[1..]
  }

  lemma {:induction false} SplitWhole<T>(a: seq<T>, sep: T)
    requires sep !in a
    ensures Split(a, sep) == [a]
  {
    if a != [] {
      SplitWhole(a[1..], sep);
      assert [a[0]] + a[1..] == a;
    }
  }

  lemma {:induction false} SplitFirst<T>(a: seq<T>, sep: T, rest: seq<T>)
    requires sep !in a
    ensures Split(a + [sep] + rest, sep) == [a] + Split(rest, sep)
  {
    var s := a + [sep] + rest;
    if a == [] {
      assert s[1..] == rest;
    } else {
      SplitFirst(a[1..], sep, rest);
      assert s[1..] == a[1..] + [sep] + rest;
      assert [a[0]] + a[1..] == a;
    }
  }

  /** A text splits in one piece exactly when it lacks the separator, and two pieces join up to it. */
  lemma {:induction false} SplitJoins<T>(s: seq<T>, sep: T)
    ensures |Split(s, sep)| == 1 <==> sep !in s
    ensures |Split(s, sep)| == 1 ==> Split(s, sep)[0] == s
    ensures |Split(s, sep)| == 2 ==> s == Split(s, sep)[0] + [sep] + Split(s, sep)[1]
  {
    if s != [] {
      var x, rest, r := s[0], s[1..], Split(s[1..], sep);
      SplitJoins(rest, sep);
      assert s == [x] + rest;
      if x == sep {
        assert Split(s, sep) == [[]] + r;
      } else {
        assert Split(s, sep) == [[x] + r[0]] + r[1..];
        if |r| == 2 { assert [x] + (r[0] + [sep] + r[1]) == ([x] + r[0]) + [sep] + r[1]; }
      }
    }
  }

  lemma {:induction false} SplitPiecesLackSeparator<T>(s: seq<T>, sep: T)
    ensures forall i :: 0 <= i < |Split(s, sep)| ==> sep !in Split(s, sep)[i]
  {
    if s != [] {
      SplitPiecesLackSeparator(s[1..], sep);
    }
  }

  function Filter<T>(s: seq<T>, p: T -> bool): (r: seq<T>)
    ensures |r| <= |s|
    ensures forall x :: x in r ==> x in s && p(x)
  {
    if s == [] then []
    else if p(s[0]) then [s[0]] + Filter(s[1..], p)
    else Filter(s[1..], p)
  }

  lemma {:induction false} FilterAppend<T>(s: seq<T>, t: seq<T>, p: T -> bool)
    ensures Filter(s + t, p) == Filter(s, p) + Filter(t, p)
  {
    if s == [] {
      assert s + t == t;
    } else {
      var x, rest := s[0], s[1..];
      assert s + t == [x] + (rest + t) && (s + t)[1..] == rest + t;
      FilterAppend(rest, t, p);
    }
  }

  lemma FilterSnoc<T>(s: seq<T>, x: T, p: T -> bool)
    ensures Filter(s + [x], p) == if p(x) then Filter(s, p) + [x] else Filter(s, p)
  {
    FilterAppend(s, [x], p);
    var none: seq<T> := [x][1..];
    assert none == [];
  }

  lemma {:induction false} FilterAll<T>(s: seq<T>, p: T -> bool)
    requires forall x :: x in s ==> p(x)
    ensures Filter(s, p) == s
  {
    if s != [] {
      FilterAll(s[1..], p);
    }
  }

  lemma {:induction false} FilterNone<T>(s: seq<T>, p: T -> bool)
    requires forall x :: x in s ==> !p(x)
    ensures Filter(s, p) == []
  {
    if s != [] {
      FilterNone(s[1..], p);
    }
  }

  /** Stable insertion sort by an integer key: what sort.Slice is relied on to do. */
  function SortBy<T>(s: seq<T>, key: T -> int): (r: seq<T>)
    ensures multiset(r) == multiset(s) && |r| == |s|
    ensures SortedBy(r, key)
  {
    if s == [] then []
    else
      assert s == [s[0]] + s[1..];
      Insert(s[0], SortBy(s[1..], key), key)
  }

  function Insert<T>(x: T, s: seq<T>, key: T -> int): (r: seq<T>)
    requires SortedBy(s, key)
    ensures multiset(r) == multiset(s) + multiset{x} && |r| == |s| + 1
    ensures SortedBy(r, key)
  {
    if s == [] || key(x) <= key(s[0]) then
      [x] + s
    else
      assert s == [s[0]] + s[1..];
      var t := Insert(x, s[1..], key);
      assert SortedBy([s[0]] + t, key) by { ConsKeepsSorted(s[0], x, s[1..], t, key); }
      [s[0]] + t
  }

  lemma ConsKeepsSorted<T>(h: T, x: T, s: seq<T>, t: seq<T>, key: T -> int)
    requires SortedBy([h] + s, key) && SortedBy(t, key)
    requires multiset(t) == multiset(s) + multiset{x}
    requires key(h) <= key(x)
    ensures SortedBy([h] + t, key)
  {
    forall i | 0 <= i < |t| ensures key(h) <= key(t[i]) {
      assert t[i] in multiset(t);
      if t[i] != x {
        assert t[i] in multiset(s);
        var k :| 0 <= k < |s| && s[k] == t[i];
        assert ([h] + s)[0] == h && ([h] + s)[k + 1] == t[i];
      }
    }
  }

  predicate SortedBy<T>(s: seq<T>, key: T -> int) {
    forall i, j :: 0 <= i < j < |s| ==> key(s[i]) <= key(s[j])
  }

  lemma SameHead<T>(a: seq<T>, b: seq<T>, key: T -> int)
    requires multiset(a) == multiset(b) && a != []
    requires SortedBy(a, key)
    requires forall i, j :: 0 <= i < j < |b| ==> key(b[i]) < key(b[j])
    ensures b != [] && a[0] == b[0]
  {
    assert a[0] in multiset(b);
    var j :| 0 <= j < |b| && b[j] == a[0];
    assert b[0] in multiset(a);
    var i :| 0 <= i < |a| && a[i] == b[0];
    assert key(a[0]) <= key(a[i]);
  }

  lemma TailMultiset<T>(a: seq<T>)
    requires a != []
    ensures multiset(a[1..]) == multiset(a) - multiset{a[0]}
  {
    assert a == [a[0]] + a[1..];
  }

  lemma RemoveAt<T>(b: seq<T>, j: nat)
    requires j < |b|
    ensures multiset(b[..j] + b[j + 1..]) == multiset(b) - multiset{b[j]}
  {
    assert b == b[..j] + ([b[j]] + b[j + 1..]);
  }

  function Map<T, U>(f: T -> U, s: seq<T>): (r: seq<U>)
    ensures |r| == |s| && forall i :: 0 <= i < |r| ==> r[i] == f(s[i])
  {
    seq(|s|, i requires 0 <= i < |s| => f(s[i]))
  }

  lemma MapWithout<T, U>(f: T -> U, b: seq<T>, j: nat)
    requires j < |b|
    ensures multiset(Map(f, b)) == multiset(Map(f, b[..j] + b[j + 1..])) + multiset{f(b[j])}
  {
    var m := Map(f, b);
    assert Map(f, b[..j] + b[j + 1..]) == m[..j] + m[j + 1..];
    assert m == m[..j] + ([m[j]] + m[j + 1..]);
  }

  lemma MapTail<T, U>(f: T -> U, a: seq<T>)
    requires a != []
    ensures multiset(Map(f, a)) == multiset(Map(f, a[1..])) + multiset{f(a[0])}
  {
    var m := Map(f, a);
    assert m == [m[0]] + m[1..] && m[1..] == Map(f, a[1..]);
  }

  lemma {:induction false} MapPermuted<T, U>(f: T -> U, a: seq<T>, b: seq<T>)
    requires multiset(a) == multiset(b)
    ensures multiset(Map(f, a)) == multiset(Map(f, b))
    decreases a
  {
    hide Map;
    if a == [] {
      assert |multiset(b)| == 0;
    } else {
      assert a[0] in multiset(b);
      var j :| 0 <= j < |b| && b[j] == a[0];
      var x, y := a[1..], b[..j] + b[j + 1..];
      assert multiset(x) == multiset(y) by {
        TailMultiset(a);
        RemoveAt(b, j);
      }
      MapPermuted(f, x, y);
      MapTail(f, a);
      MapWithout(f, b, j);
    }
  }

  /** Two sorted arrangements of the same elements coincide when one of them has distinct keys. */
  lemma {:induction false} SortedIsUnique<T>(a: seq<T>, b: seq<T>, key: T -> int)
    requires multiset(a) == multiset(b)
    requires SortedBy(a, key)
    requires forall i, j :: 0 <= i < j < |b| ==> key(b[i]) < key(b[j])
    ensures a == b
  {
    if a == [] {
      assert |multiset(b)| == 0;
    } else {
      SameHead(a, b, key);
      var x, y := a[1..], b[1..];
      assert multiset(x) == multiset(y) by {
        TailMultiset(a);
        TailMultiset(b);
      }
      SortedIsUnique(x, y, key);
      assert a == [a[0]] + x && b == [b[0]] + y;
    }
  }
}
