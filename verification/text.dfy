/**
 String primitives the frontend relies on: character classes, the global
 `replace(/[^…]/g, "")` filters, `split` on one character, `join`.
 Strings are `seq<char>`.
 */
module Text {

  predicate IsDigit(c: char) {
    '0' <= c <= '9'
  }

  predicate IsDigitOrDot(c: char) {
    IsDigit(c) || c == '.'
  }

  /** The class `\w` of a JavaScript regular expression without the `u` flag. */
  predicate IsWordChar(c: char) {
    IsDigit(c) || ('a' <= c <= 'z') || ('A' <= c <= 'Z') || c == '_'
  }

  predicate AllDigits(s: string) {
    forall i :: 0 <= i < |s| ==> IsDigit(s[i])
  }

  predicate AllDigitsOrDots(s: string) {
    forall i :: 0 <= i < |s| ==> IsDigitOrDot(s[i])
  }

  /** Number of occurrences of `c` in `s`. */
  function Count(s: string, c: char): nat {
    if |s| == 0 then 0
    else (if s[0] == c then 1 else 0) + Count(s[1..], c)
  }

  lemma {:induction false} CountAppend(a: string, b: string, c: char)
    ensures Count(a + b, c) == Count(a, c) + Count(b, c)
  {
    if |a| == 0 {
      assert a + b == b;
    } else {
      assert (a + b)[1..] == a[1..] + b;
      CountAppend(a[1..], b, c);
    }
  }

  lemma {:induction false} CountZero(s: string, c: char)
    ensures Count(s, c) == 0 <==> c !in s
  {
    if |s| > 0 {
      CountZero(s[1..], c);
      assert c in s <==> s[0] == c || c in s[1..];
    }
  }

  /** The characters of `s` for which `keep` holds, in their original order. */
  function Filter(s: string, keep: char -> bool): (r: string)
    ensures |r| <= |s|
    ensures forall i :: 0 <= i < |r| ==> keep(r[i])
  {
    if |s| == 0 then ""
    else
      var rest := Filter(s[1..], keep);
      if keep(s[0]) then [s[0]] + rest else rest
  }

  /** Everything a filter keeps comes from its input. */
  lemma {:induction false} FilterFrom(s: string, keep: char -> bool)
    ensures forall i :: 0 <= i < |Filter(s, keep)| ==> Filter(s, keep)[i] in s
  {
    if |s| > 0 {
      FilterFrom(s[1..], keep);
      var r, rest := Filter(s, keep), Filter(s[1..], keep);
      forall i | 0 <= i < |r|
        ensures r[i] in s
      {
        if keep(s[0]) && i == 0 {
          assert r[i] == s[0];
        } else {
          var j := if keep(s[0]) then i - 1 else i;
          assert r[i] == rest[j] && rest[j] in s[1..];
        }
      }
    }
  }

  /** Filtering is a homomorphism of concatenation: it keeps the relative order of what it keeps. */
  lemma {:induction false} FilterAppend(a: string, b: string, keep: char -> bool)
    ensures Filter(a + b, keep) == Filter(a, keep) + Filter(b, keep)
  {
    if |a| == 0 {
      assert a + b == b;
    } else {
      assert (a + b)[1..] == a[1..] + b;
      FilterAppend(a[1..], b, keep);
    }
  }

  /** Every kept character is kept as often as it occurs; every other one is dropped. */
  lemma {:induction false} FilterCount(s: string, keep: char -> bool, c: char)
    ensures keep(c) ==> Count(Filter(s, keep), c) == Count(s, c)
    ensures !keep(c) ==> Count(Filter(s, keep), c) == 0
  {
    if |s| > 0 {
      FilterCount(s[1..], keep, c);
    }
  }

  /** A string whose characters all pass is left as it is. */
  lemma {:induction false} FilterKeepsAll(s: string, keep: char -> bool)
    requires forall i :: 0 <= i < |s| ==> keep(s[i])
    ensures Filter(s, keep) == s
  {
    if |s| > 0 {
      FilterKeepsAll(s[1..], keep);
    }
  }

  lemma FilterIdempotent(s: string, keep: char -> bool)
    ensures Filter(Filter(s, keep), keep) == Filter(s, keep)
  {
    FilterKeepsAll(Filter(s, keep), keep);
  }

  /** Two filters that agree on every character of `s` give the same result. */
  lemma {:induction false} FilterAgree(s: string, p: char -> bool, q: char -> bool)
    requires forall i :: 0 <= i < |s| ==> p(s[i]) == q(s[i])
    ensures Filter(s, p) == Filter(s, q)
  {
    if |s| > 0 {
      FilterAgree(s[1..], p, q);
    }
  }

  /** Filtering twice keeps what passes both tests. */
  lemma {:induction false} FilterCompose(s: string, p: char -> bool, q: char -> bool, both: char -> bool)
    requires forall c :: both(c) == (p(c) && q(c))
    ensures Filter(Filter(s, p), q) == Filter(s, both)
  {
    if |s| > 0 {
      FilterCompose(s[1..], p, q, both);
    }
  }

  function NotChar(c: char): char -> bool {
    x => x != c
  }

  /** `s.replace(/c/g, "")`: every `c` deleted. */
  function Remove(s: string, c: char): (r: string)
    ensures c !in r
    ensures |r| == |s| - Count(s, c)
  {
    var r := Filter(s, NotChar(c));
    CountZero(r, c);
    RemoveLength(s, c);
    r
  }

  /** Deleting every `c` shortens the string by exactly the number of `c`s. */
  lemma {:induction false} RemoveLength(s: string, c: char)
    ensures |Filter(s, NotChar(c))| == |s| - Count(s, c)
  {
    if |s| > 0 {
      RemoveLength(s[1..], c);
    }
  }

  /** `s.split(sep)` for a one-character separator. */
  function Split(s: string, sep: char): (parts: seq<string>)
    ensures |parts| == Count(s, sep) + 1
  {
    if |s| == 0 then [""]
    else
      var rest := Split(s[1..], sep);
      if s[0] == sep then [""] + rest
      else [[s[0]] + rest[0]] + rest[1..]
  }

  /** `parts.join(sep)`. */
  function Join(parts: seq<string>, sep: char): string {
    if |parts| == 0 then ""
    else if |parts| == 1 then parts[0]
    else parts[0] + [sep] + Join(parts[1..], sep)
  }

  /** `parts.join("")`. */
  function Concat(parts: seq<string>): string {
    if |parts| == 0 then "" else parts[0] + Concat(parts[1..])
  }

  /** Joining the pieces with the separator gives back the original string. */
  lemma {:induction false} JoinSplit(s: string, sep: char)
    ensures Join(Split(s, sep), sep) == s
  {
    if |s| > 0 {
      JoinSplit(s[1..], sep);
      var rest := Split(s[1..], sep);
      if s[0] != sep {
        var parts := Split(s, sep);
        assert parts[1..] == rest[1..];
        if |rest| == 1 {
          assert Join(parts, sep) == parts[0];
        } else {
          assert Join(rest, sep) == rest[0] + [sep] + Join(rest[1..], sep);
        }
      }
    }
  }

  lemma SplitNoSep(s: string, sep: char)
    requires sep !in s
    ensures Split(s, sep) == [s]
  {
    CountZero(s, sep);
    var parts := Split(s, sep);
    JoinSplit(s, sep);
  }

  /** A separator splits the string into the pieces of each side. */
  lemma {:induction false} SplitAround(a: string, b: string, sep: char)
    ensures Split(a + [sep] + b, sep) == Split(a, sep) + Split(b, sep)
  {
    if |a| == 0 {
      assert a + [sep] + b == [sep] + b;
      assert ([sep] + b)[1..] == b;
    } else {
      var t := a[1..] + [sep] + b;
      assert a + [sep] + b == [a[0]] + t && ([a[0]] + t)[1..] == t;
      SplitAround(a[1..], b, sep);
    }
  }

  /** Every character of `s` satisfies `p`. */
  predicate AllOf(s: string, p: char -> bool) {
    forall i :: 0 <= i < |s| ==> p(s[i])
  }

  /** The pieces of a split contain only characters of the original string. */
  lemma {:induction false} SplitKeepsClass(s: string, sep: char, p: char -> bool)
    requires forall i :: 0 <= i < |s| ==> p(s[i]) || s[i] == sep
    ensures forall k :: 0 <= k < |Split(s, sep)| ==> AllOf(Split(s, sep)[k], p)
  {
    if |s| > 0 {
      SplitKeepsClass(s[1..], sep, p);
      var rest := Split(s[1..], sep);
      if s[0] != sep {
        var head := [s[0]] + rest[0];
        assert AllOf(rest[0], p);
        forall i | 0 <= i < |head|
          ensures p(head[i])
        {
          if i > 0 {
            assert head[i] == rest[0][i - 1];
          }
        }
      }
    }
  }

  /** The first piece is the prefix before the first separator. */
  lemma {:induction false} SplitFirst(s: string, sep: char)
    ensures var parts := Split(s, sep);
            |parts[0]| <= |s| && s[..|parts[0]|] == parts[0] && sep !in parts[0] &&
            (|parts| > 1 ==> |parts[0]| < |s| && s[|parts[0]|] == sep)
  {
    if |s| > 0 {
      SplitFirst(s[1..], sep);
    }
  }

  /** No piece of a split holds the separator. */
  lemma {:induction false} SplitPiecesLackSep(s: string, sep: char)
    ensures forall k :: 0 <= k < |Split(s, sep)| ==> sep !in Split(s, sep)[k]
  {
    if |s| > 0 {
      SplitPiecesLackSep(s[1..], sep);
      var rest, parts := Split(s[1..], sep), Split(s, sep);
      forall k | 0 <= k < |parts|
        ensures sep !in parts[k]
      {
        if s[0] == sep {
          if k > 0 {
            assert parts[k] == rest[k - 1];
          }
        } else if k > 0 {
          assert parts[k] == rest[k];
        } else {
          assert parts[0] == [s[0]] + rest[0];
        }
      }
    }
  }

  /** Deleting the separators from a join is the plain concatenation. */
  lemma {:induction false} RemoveJoin(parts: seq<string>, sep: char)
    requires forall k :: 0 <= k < |parts| ==> sep !in parts[k]
    ensures Remove(Join(parts, sep), sep) == Concat(parts)
  {
    if |parts| == 1 {
      FilterKeepsAll(parts[0], NotChar(sep));
    } else if |parts| > 1 {
      RemoveJoin(parts[1..], sep);
      FilterKeepsAll(parts[0], NotChar(sep));
      FilterAppend(parts[0] + [sep], Join(parts[1..], sep), NotChar(sep));
      FilterAppend(parts[0], [sep], NotChar(sep));
    }
  }

  /** The first `n` characters of `s`, or all of it when it is shorter: `s.slice(0, n)`. */
  function Prefix(s: string, n: nat): (r: string)
    ensures |r| <= n
  {
    if |s| <= n then s else s[..n]
  }
}
