/** Splitting, joining and trimming text, and how they undo each other. */
module Text {
  import opened Basics

  /** `split` on one character: always at least one part. */
  function Split(s: string, sep: char): (parts: seq<string>)
    ensures |parts| >= 1
    ensures forall p :: p in parts ==> PieceOf(p, s, sep)
  {
    if s == [] then [""]
    else
      var rest := Split(s[1..], sep);
      PiecesGrow(s, sep, rest);
      if s[0] == sep then [""] + rest else [[s[0]] + rest[0]] + rest[1..]
  }

  predicate PieceOf(p: string, s: string, sep: char)
  {
    sep !in p && forall c :: c in p ==> c in s
  }

  lemma PiecesGrow(s: string, sep: char, rest: seq<string>)
    requires s != [] && rest != [] && forall p :: p in rest ==> PieceOf(p, s[1..], sep)
    ensures forall p :: p in rest ==> PieceOf(p, s, sep)
    ensures s[0] != sep ==> PieceOf([s[0]] + rest[0], s, sep)
  {
    assert rest[0] in rest;
  }

  lemma NothingSplits(sep: char)
    ensures Split("", sep) == [""]
  {
  }

  function Join(parts: seq<string>, glue: string): string
  {
    if parts == [] then ""
    else if |parts| == 1 then parts[0]
    else parts[0] + glue + Join(parts[1..], glue)
  }

  lemma {:induction false} SplitWhole(s: string, sep: char)
    requires sep !in s
    ensures Split(s, sep) == [s]
  {
    if s != [] {
      SplitWhole(s[1..], sep);
      assert s == [s[0]] + s[1..];
    }
  }

  /** Up to the first separator, then the rest. */
  lemma {:induction false} SplitFirst(a: string, sep: char, b: string)
    requires sep !in a
    ensures Split(a + [sep] + b, sep) == [a] + Split(b, sep)
  {
    var s := a + [sep] + b;
    if a == [] {
      assert s[1..] == b;
    } else {
      assert s[1..] == a[1..] + [sep] + b;
      SplitFirst(a[1..], sep, b);
      assert a == [a[0]] + a[1..];
      assert ([a[1..]] + Split(b, sep))[1..] == Split(b, sep);
    }
  }

  /** What `join` makes of two lists: the one, the glue, and the other. */
  lemma {:induction false} JoinBetween(a: seq<string>, b: seq<string>, glue: string)
    requires a != [] && b != []
    ensures Join(a + b, glue) == Join(a, glue) + glue + Join(b, glue)
  {
    assert (a + b)[1..] == a[1..] + b;
    if |a| > 1 {
      JoinBetween(a[1..], b, glue);
      assert a[0] + glue + (Join(a[1..], glue) + glue + Join(b, glue))
          == a[0] + glue + Join(a[1..], glue) + glue + Join(b, glue);
    }
  }

  /** Splitting gives back the parts that were joined. */
  lemma {:induction false} SplitJoin(parts: seq<string>, sep: char)
    requires parts != [] && forall p :: p in parts ==> sep !in p
    ensures Split(Join(parts, [sep]), sep) == parts
  {
    if |parts| == 1 {
      SplitWhole(parts[0], sep);
    } else {
      SplitFirst(parts[0], sep, Join(parts[1..], [sep]));
      SplitJoin(parts[1..], sep);
      assert parts == [parts[0]] + parts[1..];
    }
  }

  /** And joining gives back the text that was split. */
  lemma {:induction false} JoinSplit(s: string, sep: char)
    ensures Join(Split(s, sep), [sep]) == s
  {
    if s != [] {
      JoinSplit(s[1..], sep);
      var rest := Split(s[1..], sep);
      if s[0] == sep {
        assert ([""] + rest)[1..] == rest;
        assert s == [sep] + s[1..];
      } else {
        assert ([[s[0]] + rest[0]] + rest[1..])[1..] == rest[1..];
        assert s == [s[0]] + s[1..];
        if |rest| > 1 {
          assert [s[0]] + (rest[0] + [sep] + Join(rest[1..], [sep]))
                 == ([s[0]] + rest[0]) + [sep] + Join(rest[1..], [sep]);
        }
      }
    }
  }

  lemma {:induction false} JoinChars(parts: seq<string>, glue: string, c: char)
    requires c in Join(parts, glue)
    ensures c in glue || exists p :: p in parts && c in p
  {
    if |parts| == 1 {
      assert parts[0] in parts;
    } else if |parts| > 1 {
      if c in parts[0] {
        assert parts[0] in parts;
      } else if c !in glue {
        JoinChars(parts[1..], glue, c);
      }
    }
  }

  // ---- white space ------------------------------------------------------------------

  /** What JavaScript's `trim` removes: white space and line ends. */
  predicate Space(c: char)
  {
    c == ' ' || c == '\t' || c == '\n' || c == '\r' || c == '\U{000B}' || c == '\U{000C}'
    || c == '\U{00A0}' || c == '\U{1680}' || ('\U{2000}' <= c <= '\U{200A}')
    || c == '\U{2028}' || c == '\U{2029}' || c == '\U{202F}' || c == '\U{205F}' || c == '\U{3000}' || c == '\U{FEFF}'
  }

  function TrimStart(s: string): (r: string)
    ensures r == [] || !Space(r[0])
    ensures forall c :: c in r ==> c in s
  {
    if s != [] && Space(s[0]) then TrimStart(s[1..]) else s
  }

  function TrimEnd(s: string): (r: string)
    ensures r == [] || !Space(r[|r| - 1])
    ensures r != [] ==> s != [] && r[0] == s[0]
    ensures forall c :: c in r ==> c in s
  {
    if s != [] && Space(s[|s| - 1]) then TrimEnd(s[..|s| - 1]) else s
  }

  predicate Trimmed(s: string)
  {
    s == [] || (!Space(s[0]) && !Space(s[|s| - 1]))
  }

  function Trim(s: string): (r: string)
    ensures Trimmed(r)
    ensures forall c :: c in r ==> c in s
  {
    TrimEnd(TrimStart(s))
  }

  lemma TrimOfTrimmed(s: string)
    requires Trimmed(s)
    ensures Trim(s) == s
  {
  }

  /** A blank on either side goes. */
  lemma TrimBlanks(s: string)
    requires Trimmed(s)
    ensures Trim(s + " ") == s && Trim(" " + s) == s && Trim(" " + s + " ") == s
  {
    hide TrimStart, TrimEnd, Space;
    TrimOfTrimmed(s);
    TrimEndBlank(s);
    TrimStartBlank(s);
    TrimStartBlank(s + " ");
    TrimStartBefore(s);
    Regroup(" ", s, " ");
  }

  lemma TrimStartBefore(s: string)
    requires Trimmed(s)
    ensures TrimStart(s + " ") == if s == [] then [] else s + " "
  {
  }

  lemma TrimStartBlank(s: string)
    ensures TrimStart(" " + s) == TrimStart(s)
  {
  }

  lemma TrimEndBlank(s: string)
    requires Trimmed(s)
    ensures TrimEnd(s + " ") == s
  {
  }

  predicate Blank(s: string)
  {
    Trim(s) == ""
  }

  ghost predicate AllSpace(s: string)
  {
    forall c :: c in s ==> Space(c)
  }

  lemma {:induction false} TrimStartMeans(s: string) returns (a: string)
    ensures AllSpace(a) && s == a + TrimStart(s)
  {
    hide Space;
    if s != [] && Space(s[0]) {
      a := TrimStartMeans(s[1..]);
      Regroup([s[0]], a, TrimStart(s[1..]));
      a := [s[0]] + a;
      assert s == [s[0]] + s[1..];
    } else {
      a := "";
    }
  }

  lemma {:induction false} TrimEndMeans(s: string) returns (b: string)
    ensures AllSpace(b) && s == TrimEnd(s) + b
  {
    hide Space;
    if s != [] && Space(s[|s| - 1]) {
      b := TrimEndMeans(s[..|s| - 1]);
      Regroup(TrimEnd(s[..|s| - 1]), b, [s[|s| - 1]]);
      b := b + [s[|s| - 1]];
      assert s == s[..|s| - 1] + [s[|s| - 1]];
    } else {
      b := "";
    }
  }

  /** Trimming takes white space off both ends, all of it and nothing else. */
  lemma TrimMeans(s: string)
    ensures Trimmed(Trim(s)) && exists a, b :: AllSpace(a) && AllSpace(b) && s == a + Trim(s) + b
  {
    hide TrimStart, TrimEnd, Space, AllSpace;
    var a := TrimStartMeans(s);
    var b := TrimEndMeans(TrimStart(s));
    Regroup(a, Trim(s), b);
  }

  /** Blank is nothing but white space. */
  lemma BlankMeans(s: string)
    ensures Blank(s) <==> AllSpace(s)
  {
    hide Space;
    TrimMeans(s);
    if c :| c in s && !Space(c) { VisibleNotBlank(s, c); }
  }

  /** Text with a visible character in it is not blank. */
  lemma {:induction false} VisibleNotBlank(s: string, c: char)
    requires c in s && !Space(c)
    ensures !Blank(s)
  {
    TrimStartKeeps(s, c);
    TrimEndKeeps(TrimStart(s), c);
  }

  lemma {:induction false} TrimStartKeeps(s: string, c: char)
    requires c in s && !Space(c)
    ensures c in TrimStart(s)
  {
    if Space(s[0]) { TrimStartKeeps(s[1..], c); }
  }

  lemma {:induction false} TrimEndKeeps(s: string, c: char)
    requires c in s && !Space(c)
    ensures c in TrimEnd(s)
  {
    if Space(s[|s| - 1]) { TrimEndKeeps(s[..|s| - 1], c); }
  }
}
