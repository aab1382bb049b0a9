/** The order Python's `sorted` and JavaScript's `sort` put strings in, and the
    one sorted, duplicate-free list a set of strings has. */
module Lex {
  import opened Basics

  /** Strictly before, comparing character by character. */
  predicate Less(a: string, b: string)
  {
    if b == [] then false
    else if a == [] then true
    else a[0] < b[0] || (a[0] == b[0] && Less(a[1..], b[1..]))
  }

  predicate Ascending(s: seq<string>)
  {
    forall i, j :: 0 <= i < j < |s| ==> Less(s[i], s[j])
  }

  lemma {:induction false} LessIrreflexive(a: string)
    ensures !Less(a, a)
  {
    if a != [] { LessIrreflexive(a[1..]); }
  }

  lemma {:induction false} LessTransitive(a: string, b: string, c: string)
    requires Less(a, b) && Less(b, c)
    ensures Less(a, c)
  {
    if a != [] && a[0] == b[0] == c[0] {
      LessTransitive(a[1..], b[1..], c[1..]);
    }
  }

  lemma {:induction false} LessTotal(a: string, b: string)
    ensures a == b || Less(a, b) || Less(b, a)
  {
    if a != [] && b != [] && a[0] == b[0] {
      LessTotal(a[1..], b[1..]);
      assert a == [a[0]] + a[1..] && b == [b[0]] + b[1..];
    }
  }

  lemma LessAsymmetric(a: string, b: string)
    requires Less(a, b)
    ensures !Less(b, a)
  {
    if Less(b, a) {
      LessTransitive(a, b, a);
      LessIrreflexive(a);
    }
  }

  predicate IsLeast(s: set<string>, m: string)
  {
    m in s && forall x :: x in s && x != m ==> Less(m, x)
  }

  /** Every non-empty set of strings has a first one. */
  lemma {:induction false} LeastExists(s: set<string>)
    requires s != {}
    ensures exists m :: IsLeast(s, m)
    decreases |s|
  {
    var y :| y in s;
    var rest := s - {y};
    if rest == {} {
      assert s == {y};
      assert IsLeast(s, y);
    } else {
      LeastExists(rest);
      var m :| IsLeast(rest, m);
      LeastOfTwo(s, rest, m, y);
    }
  }

  lemma LeastOfTwo(s: set<string>, rest: set<string>, m: string, y: string)
    requires s == rest + {y} && IsLeast(rest, m) && y != m
    ensures exists k :: IsLeast(s, k)
  {
    LessTotal(m, y);
    if Less(y, m) {
      forall x | x in s && x != y ensures Less(y, x) {
        if x != m { LessTransitive(y, m, x); }
      }
      assert IsLeast(s, y);
    } else {
      assert IsLeast(s, m);
    }
  }

  lemma LeastUnique(s: set<string>, m: string, n: string)
    requires IsLeast(s, m) && IsLeast(s, n)
    ensures m == n
  {
    if m != n { LessAsymmetric(m, n); }
  }

  function Least(s: set<string>): (m: string)
    requires s != {}
    ensures IsLeast(s, m)
  {
    LeastExists(s);
    assert forall m, n | IsLeast(s, m) && IsLeast(s, n) :: m == n by {
      forall m, n | IsLeast(s, m) && IsLeast(s, n) ensures m == n { LeastUnique(s, m, n); }
    }
    var m :| m in s && IsLeast(s, m);
    m
  }

  lemma NonEmptyHasElements(s: seq<string>)
    ensures s != [] ==> Elements(s) != {}
  {
    if s != [] { assert s[0] in Elements(s); }
  }

  /** `sorted(set(...))`: ascending, and exactly the set's members. */
  function Sorted(s: set<string>): (r: seq<string>)
    ensures Ascending(r)
    ensures forall x :: x in r <==> x in s
    ensures |r| == |s|
    decreases |s|
  {
    if s == {} then []
    else
      var m := Least(s);
      var rest := Sorted(s - {m});
      assert forall x :: x in rest ==> x in s && x != m && Less(m, x);
      [m] + rest
  }

  lemma SortedElements(s: set<string>)
    ensures Elements(Sorted(s)) == s
  {
  }

  /** Two ascending lists with the same members are the same list. */
  lemma {:induction false} AscendingUnique(a: seq<string>, b: seq<string>)
    requires Ascending(a) && Ascending(b)
    requires forall x :: x in a <==> x in b
    ensures a == b
  {
    assert forall k :: 0 <= k < |a| ==> a[k] in b;
    assert forall k :: 0 <= k < |b| ==> b[k] in a;
    if a != [] && b != [] {
      assert a[0] in b && b[0] in a;
      if a[0] != b[0] { LessAsymmetric(a[0], b[0]); }
      var a', b' := a[1..], b[1..];
      assert a == [a[0]] + a' && b == [b[0]] + b';
      forall x ensures x in a' <==> x in b' {
        if x in a' || x in b' {
          assert x in a && x in b;
          LessIrreflexive(a[0]);
        }
      }
      AscendingUnique(a', b');
    }
  }

  /** Alike before the `k`th character; there the one ends or has the smaller character. */
  predicate ComesAt(a: string, b: string, k: nat): (at: bool)
    ensures at && k > 0 ==> a != [] && b != [] && a[0] == b[0]
  {
    assert k > 0 && k <= |a| && k < |b| && a[..k] == b[..k] ==> a[..k][0] == b[..k][0];
    k <= |a| && k < |b| && a[..k] == b[..k] && (k == |a| || a[k] < b[k])
  }

  /** The earlier text begins the later one, or has the smaller character where they first
      differ. */
  ghost predicate ComesBefore(a: string, b: string)
  {
    exists k: nat :: ComesAt(a, b, k)
  }

  lemma {:induction false} LessMeans(a: string, b: string)
    ensures Less(a, b) <==> ComesBefore(a, b)
  {
    if a == [] || b == [] || a[0] != b[0] {
      if Less(a, b) { assert ComesAt(a, b, 0); }
    } else {
      LessMeans(a[1..], b[1..]);
      if k: nat :| ComesAt(a[1..], b[1..], k) {
        assert a[..k + 1] == [a[0]] + a[1..][..k] && b[..k + 1] == [b[0]] + b[1..][..k];
        assert ComesAt(a, b, k + 1);
      }
      if k: nat :| ComesAt(a, b, k) {
        assert k > 0 && a[1..][..k - 1] == a[..k][1..] && b[1..][..k - 1] == b[..k][1..];
        assert ComesAt(a[1..], b[1..], k - 1);
      }
    }
  }

  /** `sorted` puts texts in that order. */
  lemma SortedComesInOrder(s: set<string>, i: nat, j: nat)
    requires i < j < |Sorted(s)|
    ensures ComesBefore(Sorted(s)[i], Sorted(s)[j])
  {
    LessMeans(Sorted(s)[i], Sorted(s)[j]);
  }
}
