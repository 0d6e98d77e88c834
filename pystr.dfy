/**
 * Python's string operations on a one-character separator, as the location
 * codec uses them: `s.count(sep)`, `s.split(sep)` and `sep.join(parts)`.
 * Strings are sequences of characters; there is no encoding here.
 */
module PyStr {

  /** `s.count(c)`: how many times `c` occurs in `s`. */
  function Count(s: string, c: char): nat
  {
    if s == [] then 0
    else (if s[0] == c then 1 else 0) + Count(s[1..], c)
  }

  /** A string counts no `c` exactly when it holds none. */
  lemma {:induction false} CountZero(s: string, c: char)
    ensures Count(s, c) == 0 <==> c !in s
  {
    if s != [] {
      assert s == [s[0]] + s[1..];
      CountZero(s[1..], c);
    }
  }

  /** Counting distributes over concatenation. */
  lemma {:induction false} CountConcat(a: string, b: string, c: char)
    ensures Count(a + b, c) == Count(a, c) + Count(b, c)
  {
    if a == [] {
      assert a + b == b;
    } else {
      assert (a + b)[1..] == a[1..] + b;
      CountConcat(a[1..], b, c);
    }
  }

  /** `sep.join(parts)`: the parts with one separator between neighbours. */
  function Join(parts: seq<string>, sep: char): (s: string)
  {
    if |parts| == 0 then []
    else if |parts| == 1 then parts[0]
    else parts[0] + [sep] + Join(parts[1..], sep)
  }

  /** No part holds the separator. */
  ghost predicate FreeOf(parts: seq<string>, sep: char)
  {
    forall i :: 0 <= i < |parts| ==> sep !in parts[i]
  }

  /**
   * `s.split(sep)` for a one-character separator: always one more part than
   * there are separators (so the empty string gives one empty part), the
   * parts hold no separator, and joining them again gives back `s`.
   */
  function Split(s: string, sep: char): (parts: seq<string>)
    ensures |parts| == Count(s, sep) + 1
    ensures FreeOf(parts, sep)
    ensures Join(parts, sep) == s
  {
    if s == [] then [[]]
    else
      var rest := Split(s[1..], sep);
      assert s == [s[0]] + s[1..];
      if s[0] == sep then
        var parts := [[]] + rest;
        assert parts[1..] == rest;
        assert Join(parts, sep) == s;
        assert FreeOf(parts, sep) by {
          forall i | 0 <= i < |parts| ensures sep !in parts[i] {
            if i > 0 { assert parts[i] == rest[i - 1]; }
          }
        }
        parts
      else
        var head := [s[0]] + rest[0];
        var parts := [head] + rest[1..];
        assert parts[1..] == rest[1..];
        assert Join(parts, sep) == s by {
          if |rest| > 1 {
            assert Join(rest, sep) == rest[0] + [sep] + Join(rest[1..], sep);
          }
        }
        assert FreeOf(parts, sep) by {
          forall i | 0 <= i < |parts| ensures sep !in parts[i] {
            if i > 0 { assert parts[i] == rest[i]; }
          }
        }
        parts
  }

  /** Position of the first `c` in `s`, or `|s|` when there is none. */
  function Find(s: string, c: char): (i: nat)
    ensures i <= |s|
    ensures i < |s| ==> s[i] == c
    ensures c !in s[..i]
  {
    if s == [] then 0
    else if s[0] == c then 0
    else
      var j := Find(s[1..], c);
      assert s[..j + 1] == [s[0]] + s[1..][..j];
      1 + j
  }

  /** The first separator of `a + [c] + b` is the one after `a` when `a` holds none. */
  lemma {:induction false} FindAfterFree(a: string, b: string, c: char)
    requires c !in a
    ensures Find(a + [c] + b, c) == |a|
  {
    if a != [] {
      assert (a + [c] + b)[1..] == a[1..] + [c] + b;
      FindAfterFree(a[1..], b, c);
    }
  }

  /** Cutting a string at its first separator can be done in only one way. */
  lemma FirstSeparator(a: string, b: string, c: string, d: string, sep: char)
    requires sep !in a && sep !in c
    requires a + [sep] + b == c + [sep] + d
    ensures a == c && b == d
  {
    var s := a + [sep] + b;
    FindAfterFree(a, b, sep);
    FindAfterFree(c, d, sep);
    assert a == s[..|a|] && c == s[..|c|];
    assert b == s[|a| + 1..] && d == s[|c| + 1..];
  }

  /** Joining separator-free parts gives a string with one separator fewer than parts. */
  lemma {:induction false} CountJoin(parts: seq<string>, sep: char)
    requires |parts| > 0 && FreeOf(parts, sep)
    ensures Count(Join(parts, sep), sep) == |parts| - 1
  {
    if |parts| == 1 {
      CountZero(parts[0], sep);
    } else {
      assert FreeOf(parts[1..], sep) by {
        forall i | 0 <= i < |parts| - 1 ensures sep !in parts[1..][i] {
          assert parts[1..][i] == parts[i + 1];
        }
      }
      CountJoin(parts[1..], sep);
      CountZero(parts[0], sep);
      CountConcat(parts[0], [sep], sep);
      CountConcat(parts[0] + [sep], Join(parts[1..], sep), sep);
      assert Count([sep], sep) == 1 by {
        assert [sep][1..] == [];
      }
    }
  }

  /** Two non-empty lists of separator-free parts that join to the same string are equal. */
  lemma {:induction false} JoinInjective(p: seq<string>, q: seq<string>, sep: char)
    requires |p| > 0 && |q| > 0
    requires FreeOf(p, sep) && FreeOf(q, sep)
    requires Join(p, sep) == Join(q, sep)
    ensures p == q
  {
    CountJoin(p, sep);
    CountJoin(q, sep);
    if |p| > 1 {
      FirstSeparator(p[0], Join(p[1..], sep), q[0], Join(q[1..], sep), sep);
      assert FreeOf(p[1..], sep) by {
        forall i | 0 <= i < |p| - 1 ensures sep !in p[1..][i] {
          assert p[1..][i] == p[i + 1];
        }
      }
      assert FreeOf(q[1..], sep) by {
        forall i | 0 <= i < |q| - 1 ensures sep !in q[1..][i] {
          assert q[1..][i] == q[i + 1];
        }
      }
      JoinInjective(p[1..], q[1..], sep);
      assert p == [p[0]] + p[1..] && q == [q[0]] + q[1..];
    }
  }

  /**
   * `Split` is the only way to cut `s` into separator-free parts that join
   * back to `s`: an independent description of what Python's split returns.
   */
  lemma SplitUnique(s: string, sep: char, parts: seq<string>)
    requires |parts| > 0 && FreeOf(parts, sep) && Join(parts, sep) == s
    ensures Split(s, sep) == parts
  {
    JoinInjective(Split(s, sep), parts, sep);
  }

  /** A string with exactly one separator splits into the text before it and the text after it. */
  lemma SplitAtOnly(a: string, b: string, sep: char)
    requires sep !in a && sep !in b
    ensures Split(a + [sep] + b, sep) == [a, b]
  {
    assert Join([a, b], sep) == a + [sep] + b by {
      assert [a, b][1..] == [b];
    }
    SplitUnique(a + [sep] + b, sep, [a, b]);
  }
}
