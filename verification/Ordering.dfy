/** Ascending enumeration of finite sets: the iteration order of a `BTreeMap`. */
module Ordering {
  import opened Bytes

  ghost predicate TotalOrder<T(!new)>(le: (T, T) -> bool) {
    && (forall x, y :: le(x, y) || le(y, x))
    && (forall x, y :: le(x, y) && le(y, x) ==> x == y)
    && (forall x, y, z :: le(x, y) && le(y, z) ==> le(x, z))
  }

  ghost predicate StrictlyAscending<T(!new)>(s: seq<T>, le: (T, T) -> bool) {
    forall i, j :: 0 <= i < j < |s| ==> le(s[i], s[j]) && s[i] != s[j]
  }

  lemma {:induction false} HasLeast<T(!new)>(s: set<T>, le: (T, T) -> bool) returns (x: T)
    requires TotalOrder(le) && s != {}
    ensures x in s && forall y :: y in s ==> le(x, y)
    decreases |s|
  {
    x :| x in s;
    if s - {x} != {} {
      var z := HasLeast(s - {x}, le);
      if le(z, x) {
        forall y | y in s ensures le(z, y) { assert y == x || y in s - {x}; }
        x := z;
      } else {
        forall y | y in s ensures le(x, y) { assert y == x || (y in s - {x} && le(x, z)); }
      }
    } else {
      assert s == (s - {x}) + {x};
    }
  }

  function Least<T(==, !new)>(s: set<T>, le: (T, T) -> bool): (x: T)
    requires TotalOrder(le) && s != {}
    ensures x in s && forall y :: y in s ==> le(x, y)
  {
    assert exists x :: x in s && forall y :: y in s ==> le(x, y) by {
      var x := HasLeast(s, le);
    }
    var x :| x in s && forall y :: y in s ==> le(x, y);
    x
  }

  /** The elements of `s`, least first. */
  function Ascending<T(==, !new)>(s: set<T>, le: (T, T) -> bool): (r: seq<T>)
    requires TotalOrder(le)
    ensures |r| == |s|
    ensures forall x :: x in r <==> x in s
    decreases |s|
  {
    if s == {} then [] else [Least(s, le)] + Ascending(s - {Least(s, le)}, le)
  }

  lemma {:induction false} AscendingSorted<T(!new)>(s: set<T>, le: (T, T) -> bool)
    requires TotalOrder(le)
    ensures StrictlyAscending(Ascending(s, le), le)
    decreases |s|
  {
    if s != {} {
      var x := Least(s, le);
      var rest := Ascending(s - {x}, le);
      AscendingSorted(s - {x}, le);
      assert forall i :: 0 <= i < |rest| ==> rest[i] in s - {x};
    }
  }

  /** Two strictly ascending sequences with the same elements are the same sequence. */
  lemma {:induction false} AscendingUnique<T(!new)>(a: seq<T>, b: seq<T>, le: (T, T) -> bool)
    requires TotalOrder(le) && StrictlyAscending(a, le) && StrictlyAscending(b, le)
    requires forall x :: x in a <==> x in b
    ensures a == b
    decreases |a|
  {
    if |a| == 0 {
      assert multiset(b) == multiset{} by {
        assert forall x :: x in multiset(b) ==> x in b;
      }
      assert |multiset(b)| == |b|;
    } else {
      assert a[0] in b;
      assert b[0] in a;
      var i :| 0 <= i < |b| && b[i] == a[0];
      var j :| 0 <= j < |a| && a[j] == b[0];
      assert le(b[0], b[i]) && le(a[0], a[j]);
      assert a[0] == b[0];
      forall x ensures x in a[1..] <==> x in b[1..] {
        if x in a[1..] {
          var k :| 0 <= k < |a| - 1 && a[1..][k] == x;
          assert a[k + 1] == x && x != a[0];
          assert x in b;
        }
        if x in b[1..] {
          var k :| 0 <= k < |b| - 1 && b[1..][k] == x;
          assert b[k + 1] == x && x != b[0];
          assert x in a;
        }
      }
      AscendingUnique(a[1..], b[1..], le);
      assert a == [a[0]] + a[1..] && b == [b[0]] + b[1..];
    }
  }

  /** Byte-wise lexicographic order: Rust's `Ord` on `String`. */
  predicate LexLe(a: seq<byte>, b: seq<byte>) {
    |a| == 0 || (|b| > 0 && (a[0] < b[0] || (a[0] == b[0] && LexLe(a[1..], b[1..]))))
  }

  /** At position `i` the two differ for the first time, and `a` has the smaller byte. */
  predicate SmallerAt(a: seq<byte>, b: seq<byte>, i: nat) {
    i < |a| && i < |b| && a[..i] == b[..i] && a[i] < b[i]
  }

  lemma {:induction false} PrefixIsLess(a: seq<byte>, b: seq<byte>)
    requires a <= b
    ensures LexLe(a, b)
  {
    if |a| > 0 { PrefixIsLess(a[1..], b[1..]); }
  }

  lemma {:induction false} SmallerIsLess(a: seq<byte>, b: seq<byte>, i: nat)
    requires SmallerAt(a, b, i)
    ensures LexLe(a, b)
  {
    if i > 0 {
      assert a[0] == a[..i][0] == b[..i][0] == b[0];
      assert a[1..][..i - 1] == a[..i][1..] && b[1..][..i - 1] == b[..i][1..];
      SmallerIsLess(a[1..], b[1..], i - 1);
    }
  }

  lemma {:induction false} LessHasReason(a: seq<byte>, b: seq<byte>)
    requires LexLe(a, b)
    ensures a <= b || exists i: nat :: SmallerAt(a, b, i)
  {
    if |a| > 0 && a[0] < b[0] {
      assert SmallerAt(a, b, 0);
    } else if |a| > 0 {
      var x, y := a[1..], b[1..];
      LessHasReason(x, y);
      assert a == [a[0]] + x && b == [b[0]] + y;
      if i: nat :| SmallerAt(x, y, i) {
        assert a[..i + 1] == [a[0]] + x[..i] && b[..i + 1] == [b[0]] + y[..i];
        assert SmallerAt(a, b, i + 1);
      }
    }
  }

  /** `a` comes before `b` exactly when it is a prefix of it or smaller at the first difference. */
  lemma LexLaw(a: seq<byte>, b: seq<byte>)
    ensures LexLe(a, b) <==> a <= b || exists i: nat :: SmallerAt(a, b, i)
  {
    hide LexLe, SmallerAt;
    if LexLe(a, b) { LessHasReason(a, b); }
    if a <= b { PrefixIsLess(a, b); }
    if i: nat :| SmallerAt(a, b, i) { SmallerIsLess(a, b, i); }
  }

  lemma {:induction false} LexTotal(a: seq<byte>, b: seq<byte>)
    ensures LexLe(a, b) || LexLe(b, a)
    ensures LexLe(a, b) && LexLe(b, a) ==> a == b
  {
    if |a| > 0 && |b| > 0 && a[0] == b[0] {
      LexTotal(a[1..], b[1..]);
      assert a == [a[0]] + a[1..] && b == [b[0]] + b[1..];
    }
  }

  lemma {:induction false} LexTransitive(a: seq<byte>, b: seq<byte>, c: seq<byte>)
    requires LexLe(a, b) && LexLe(b, c)
    ensures LexLe(a, c)
  {
    if |a| > 0 && a[0] == b[0] && b[0] == c[0] { LexTransitive(a[1..], b[1..], c[1..]); }
  }

  lemma LexIsTotalOrder()
    ensures TotalOrder(LexLe)
  {
    forall a: seq<byte>, b: seq<byte>
      ensures (LexLe(a, b) || LexLe(b, a)) && (LexLe(a, b) && LexLe(b, a) ==> a == b)
    {
      LexTotal(a, b);
    }
    forall a: seq<byte>, b: seq<byte>, c: seq<byte> | LexLe(a, b) && LexLe(b, c) ensures LexLe(a, c) {
      LexTransitive(a, b, c);
    }
  }

  predicate IdLe(a: u32, b: u32) { a <= b }

  lemma IdIsTotalOrder()
    ensures TotalOrder(IdLe)
  {
    assert forall a: u32, b: u32 :: IdLe(a, b) <==> a <= b;
  }
}
