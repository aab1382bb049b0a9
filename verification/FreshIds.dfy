/** Fresh ids: a base name and the first number no one has taken. */
module FreshIds {
  import opened Basics

  function Digit(d: nat): char
    requires d < 10
  {
    '0' + d as char
  }

  /** A number as it is written. */
  function Decimal(n: nat): (s: string)
    ensures s != ""
  {
    if n < 10 then [Digit(n)] else Decimal(n / 10) + [Digit(n % 10)]
  }

  /** The number a text of digits stands for. */
  ghost function ValueOf(s: string): int
  {
    if s == "" then 0 else 10 * ValueOf(s[..|s| - 1]) + (s[|s| - 1] as int - '0' as int)
  }

  /** Digits only, no zero in front, and read as a decimal number it is the number. */
  lemma {:induction false} DecimalMeans(n: nat)
    ensures ValueOf(Decimal(n)) == n
    ensures forall c :: c in Decimal(n) ==> '0' <= c <= '9'
    ensures n > 0 ==> Decimal(n)[0] != '0'
  {
    var s := Decimal(n);
    if n >= 10 {
      DecimalMeans(n / 10);
      assert s[..|s| - 1] == Decimal(n / 10) && s[|s| - 1] == Digit(n % 10);
      assert s[0] == Decimal(n / 10)[0];
    } else {
      assert s[..|s| - 1] == "" && s[|s| - 1] == Digit(n);
    }
  }

  lemma {:induction false} DecimalInjective(a: nat, b: nat)
    requires Decimal(a) == Decimal(b)
    ensures a == b
  {
    var s, t := Decimal(a), Decimal(b);
    assert s[|s| - 1] == Digit(a % 10) && t[|t| - 1] == Digit(b % 10);
    assert a % 10 == b % 10;
    if a >= 10 && b >= 10 {
      assert s[..|s| - 1] == Decimal(a / 10) && t[..|t| - 1] == Decimal(b / 10);
      DecimalInjective(a / 10, b / 10);
    }
  }

  function Name(base: string, n: nat): string
  {
    base + "_" + Decimal(n)
  }

  lemma NameInjective(base: string, a: nat, b: nat)
    requires Name(base, a) == Name(base, b)
    ensures a == b
  {
    assert Name(base, a)[|base| + 1..] == Decimal(a) && Name(base, b)[|base| + 1..] == Decimal(b);
    DecimalInjective(a, b);
  }

  /** The names numbered from 1 up to but not including `n`. */
  ghost function Names(base: string, n: nat): (s: set<string>)
    requires n >= 1
    ensures forall x :: x in s <==> exists k: nat :: 1 <= k < n && x == Name(base, k)
  {
    if n == 1 then {} else Names(base, n - 1) + {Name(base, n - 1)}
  }

  lemma {:induction false} NamesCount(base: string, n: nat)
    requires n >= 1
    ensures |Names(base, n)| == n - 1
  {
    hide Name, Decimal;
    if n > 1 {
      NamesCount(base, n - 1);
      if Name(base, n - 1) in Names(base, n - 1) {
        var k: nat :| 1 <= k < n - 1 && Name(base, n - 1) == Name(base, k);
        NameInjective(base, n - 1, k);
      }
    }
  }

  /** There are at most so many names in a set of taken ids. */
  lemma Pigeonhole(base: string, n: nat, taken: set<string>)
    requires n >= 1 && forall k: nat :: 1 <= k < n ==> Name(base, k) in taken
    ensures n - 1 <= |taken|
  {
    NamesCount(base, n);
    SubsetCount(Names(base, n), taken);
  }

  /** Free, and every lower number is taken. */
  ghost predicate IsNext(base: string, taken: set<string>, id: string)
  {
    id !in taken && exists n: nat :: n >= 1 && id == Name(base, n) &&
                                     forall k: nat :: 1 <= k < n ==> Name(base, k) in taken
  }

  /** Ends whatever is taken, with the first free number. */
  method NextName(base: string, taken: set<string>) returns (id: string)
    ensures IsNext(base, taken, id)
  {
    var n: nat := 1;
    Pigeonhole(base, n, taken);
    while Name(base, n) in taken
      invariant n >= 1 && forall k: nat :: 1 <= k < n ==> Name(base, k) in taken
      invariant n - 1 <= |taken|
      decreases |taken| + 1 - n
    {
      n := n + 1;
      Pigeonhole(base, n, taken);
    }
    id := Name(base, n);
  }

  /** A component's kind names its ids, but for a memory namespace's. */
  method NextId(kind: string, taken: set<string>) returns (id: string)
    ensures IsNext(if kind == "memory_namespace" then "namespace" else kind, taken, id)
  {
    var base := if kind == "memory_namespace" then "namespace" else kind;
    id := NextName(base, taken);
  }

  method NewDiagramId(taken: set<string>) returns (id: string)
    ensures IsNext("dia", taken, id)
  {
    id := NextName("dia", taken);
  }

  /** The answer is the only one there could be. */
  lemma NextIsUnique(base: string, taken: set<string>, a: string, b: string)
    requires IsNext(base, taken, a) && IsNext(base, taken, b)
    ensures a == b
  {
  }
}
