/** The Python string operations the analyzer calls: `str.split` with a
    separator and a split limit, and `str.strip()`. `Join` (`sep.join`) and
    `Occurrences` (`str.count`) are not called by it; they serve to state
    what a split does. */
module Text {

  /** Index of the first occurrence of `c` in `s` (Python's `s.index(c)`). */
  function IndexOf<T(==)>(s: seq<T>, c: T): (i: nat)
    requires c in s
    ensures i < |s| && s[i] == c && c !in s[..i]
  {
    if s[0] == c then 0
    else
      var i := IndexOf(s[1..], c) + 1;
      assert s[..i] == [s[0]] + s[1..][..i - 1];
      i
  }

  /** The first occurrence is the only position holding `c` with no `c` before it. */
  lemma IndexOfUnique<T>(s: seq<T>, c: T, i: nat)
    requires i < |s| && s[i] == c && c !in s[..i]
    ensures IndexOf(s, c) == i
  {
  }

  /** The longest prefix of `s` that does not contain `c`. */
  function TakeUntil(s: string, c: char): (w: string)
    ensures c !in w && w <= s
    ensures w == s || s[|w|] == c
  {
    if c in s then s[..IndexOf(s, c)] else s
  }

  /** Python's `s.split(sep, maxsplit)` for a one-character separator; a
      negative `maxsplit` means "no limit", as in Python. */
  function Split(s: string, sep: char, maxsplit: int): (parts: seq<string>)
    ensures |parts| >= 1
    decreases |s|
  {
    if maxsplit == 0 || sep !in s then [s]
    else
      var i := IndexOf(s, sep);
      [s[..i]] + Split(s[i + 1..], sep, Fewer(maxsplit))
  }

  /** The split limit left after one cut: a negative limit stays unlimited. */
  function Fewer(maxsplit: int): int
  {
    if maxsplit < 0 then maxsplit else maxsplit - 1
  }

  /** One cut of a split that may still cut. */
  lemma SplitStep(s: string, sep: char, maxsplit: int)
    requires maxsplit != 0 && sep in s
    ensures Split(s, sep, maxsplit)
            == [s[..IndexOf(s, sep)]] + Split(s[IndexOf(s, sep) + 1..], sep, Fewer(maxsplit))
  {
    var i := IndexOf(s, sep);
    assert Split(s, sep, maxsplit) == [s[..i]] + Split(s[i + 1..], sep, Fewer(maxsplit));
  }

  /** Python's `s.count(c)` for one character. */
  function Occurrences(s: string, c: char): nat
  {
    if s == [] then 0 else (if s[0] == c then 1 else 0) + Occurrences(s[1..], c)
  }

  /** Splitting at most `maxsplit` times yields one piece more than the number
      of separators used: all of them, or `maxsplit` when there are more. */
  lemma {:induction false} SplitCount(s: string, sep: char, maxsplit: int)
    ensures |Split(s, sep, maxsplit)| == 1 + (if maxsplit < 0 || Occurrences(s, sep) <= maxsplit
                                             then Occurrences(s, sep) else maxsplit)
    decreases |s|
  {
    if sep !in s {
      NoOccurrences(s, sep);
    } else if maxsplit != 0 {
      var i := IndexOf(s, sep);
      SplitStep(s, sep, maxsplit);
      SplitCount(s[i + 1..], sep, Fewer(maxsplit));
      SeparatorSplitsCount(s, sep);
    }
  }

  /** A character that does not occur is counted zero times. */
  lemma {:induction false} NoOccurrences(s: string, c: char)
    requires c !in s
    ensures Occurrences(s, c) == 0
    decreases |s|
  {
    if s != [] {
      NoOccurrences(s[1..], c);
    }
  }

  /** Cutting `s` at its first `sep` leaves one `sep` fewer in the tail. */
  lemma {:induction false} SeparatorSplitsCount(s: string, sep: char)
    requires sep in s
    ensures Occurrences(s, sep) == Occurrences(s[IndexOf(s, sep) + 1..], sep) + 1
    decreases |s|
  {
    if s[0] != sep {
      SeparatorSplitsCount(s[1..], sep);
      assert s[1..][IndexOf(s[1..], sep) + 1..] == s[IndexOf(s, sep) + 1..];
    }
  }

  /** Python's `sep.join(parts)`. */
  function Join(parts: seq<string>, sep: char): string
    requires |parts| > 0
  {
    if |parts| == 1 then parts[0] else parts[0] + [sep] + Join(parts[1..], sep)
  }

  /** Joining the pieces of a split with the same separator gives back the string. */
  lemma {:induction false} SplitJoin(s: string, sep: char, maxsplit: int)
    ensures Join(Split(s, sep, maxsplit), sep) == s
    decreases |s|
  {
    if maxsplit != 0 && sep in s {
      var i := IndexOf(s, sep);
      var m := Fewer(maxsplit);
      var tail := Split(s[i + 1..], sep, m);
      SplitStep(s, sep, maxsplit);
      JoinCons(s[..i], tail, sep);
      SplitJoin(s[i + 1..], sep, m);
      Around(s, i);
    }
  }

  lemma JoinCons(x: string, rest: seq<string>, sep: char)
    requires |rest| > 0
    ensures Join([x] + rest, sep) == x + [sep] + Join(rest, sep)
  {
    assert ([x] + rest)[1..] == rest;
  }

  lemma Around(s: string, i: nat)
    requires i < |s|
    ensures s == s[..i] + [s[i]] + s[i + 1..]
  {
  }

  /** Every piece but the last is free of the separator. */
  lemma {:induction false} SplitInnerPieces(s: string, sep: char, maxsplit: int)
    ensures forall k :: 0 <= k < |Split(s, sep, maxsplit)| - 1 ==> sep !in Split(s, sep, maxsplit)[k]
    decreases |s|
  {
    if maxsplit != 0 && sep in s {
      var i := IndexOf(s, sep);
      var m := Fewer(maxsplit);
      var parts, tail := Split(s, sep, maxsplit), Split(s[i + 1..], sep, m);
      SplitStep(s, sep, maxsplit);
      SplitInnerPieces(s[i + 1..], sep, m);
      forall k | 0 <= k < |parts| - 1 ensures sep !in parts[k] {
        if k > 0 {
          assert sep !in tail[k - 1];
          assert parts[k] == tail[k - 1];
        } else {
          assert parts[0] == s[..i];
        }
      }
    }
  }

  /** The last piece is free of the separator too, unless the split limit
      stopped the splitting before the last separator. */
  lemma {:induction false} SplitLastPiece(s: string, sep: char, maxsplit: int)
    requires maxsplit < 0 || Occurrences(s, sep) <= maxsplit
    ensures sep !in Last(Split(s, sep, maxsplit))
    decreases |s|
  {
    if maxsplit != 0 && sep in s {
      var i := IndexOf(s, sep);
      var tail := Split(s[i + 1..], sep, Fewer(maxsplit));
      assert Last(Split(s, sep, maxsplit)) == Last(tail) by {
        SplitStep(s, sep, maxsplit);
        LastCons(s[..i], tail);
      }
      LimitCoversTail(s, sep, maxsplit);
      SplitLastPiece(s[i + 1..], sep, Fewer(maxsplit));
    } else if sep in s {
      SeparatorSplitsCount(s, sep);
    }
  }

  /** A limit that covers every separator of `s` still covers those after the
      first cut once it is lowered by one. */
  lemma LimitCoversTail(s: string, sep: char, maxsplit: int)
    requires sep in s && maxsplit != 0
    requires maxsplit < 0 || Occurrences(s, sep) <= maxsplit
    ensures Fewer(maxsplit) < 0 || Occurrences(s[IndexOf(s, sep) + 1..], sep) <= Fewer(maxsplit)
  {
    SeparatorSplitsCount(s, sep);
  }

  lemma LastCons(x: string, rest: seq<string>)
    requires |rest| > 0
    ensures Last([x] + rest) == Last(rest)
  {
  }

  function Last(parts: seq<string>): string
    requires |parts| > 0
  {
    parts[|parts| - 1]
  }

  /** Cutting `x + [sep] + y` at its first separator, when `x` holds none. */
  lemma CutAtFirst(x: string, sep: char, y: string)
    requires sep !in x
    ensures sep in x + [sep] + y
    ensures var s := x + [sep] + y; IndexOf(s, sep) == |x| && s[..|x|] == x && s[|x| + 1..] == y
  {
    var s := x + [sep] + y;
    assert s[..|x|] == x;
    IndexOfUnique(s, sep, |x|);
  }

  /** A split that may still cut peels off the text before the first separator. */
  lemma SplitAtFirst(x: string, sep: char, y: string, maxsplit: int)
    requires sep !in x && maxsplit != 0
    ensures Split(x + [sep] + y, sep, maxsplit)
            == [x] + Split(y, sep, Fewer(maxsplit))
  {
    CutAtFirst(x, sep, y);
  }

  /** The text before the first `sep` of `x + [sep] + y`, when `x` holds none, is `x`. */
  lemma TakeUntilFirst(x: string, sep: char, y: string)
    requires sep !in x
    ensures TakeUntil(x + [sep] + y, sep) == x
  {
    CutAtFirst(x, sep, y);
  }

  /** When splitting is allowed at all, the first piece is the text before the
      first separator. */
  lemma SplitHead(s: string, sep: char, maxsplit: int)
    requires maxsplit != 0
    ensures Split(s, sep, maxsplit)[0] == TakeUntil(s, sep)
  {
  }

  /** `str.isspace()`: the characters Python's `str.strip()` removes when it is
      called without arguments. */
  predicate IsSpace(c: char)
  {
    ('\t' <= c <= '\r') || ('\U{1C}' <= c <= '\U{1F}') || c == ' '
    || c == '\U{85}' || c == '\U{A0}' || c == '\U{1680}'
    || ('\U{2000}' <= c <= '\U{200A}') || c == '\U{2028}' || c == '\U{2029}'
    || c == '\U{202F}' || c == '\U{205F}' || c == '\U{3000}'
  }

  predicate AllSpace(s: string)
  {
    forall k :: 0 <= k < |s| ==> IsSpace(s[k])
  }

  /** Number of whitespace characters at the front of `s`. */
  function LeadingSpaces(s: string): (n: nat)
    ensures n <= |s|
    ensures n < |s| ==> !IsSpace(s[n])
  {
    if s == [] || !IsSpace(s[0]) then 0 else LeadingSpaces(s[1..]) + 1
  }

  /** Everything `LeadingSpaces` counts is whitespace. */
  lemma {:induction false} LeadingAllSpace(s: string)
    ensures AllSpace(s[..LeadingSpaces(s)])
    decreases |s|
  {
    if s != [] && IsSpace(s[0]) {
      var n := LeadingSpaces(s);
      LeadingAllSpace(s[1..]);
      assert s[..n] == [s[0]] + s[1..][..n - 1];
    }
  }

  /** Number of whitespace characters at the back of `s`. */
  function TrailingSpaces(s: string): (n: nat)
    ensures n <= |s|
    ensures n < |s| ==> !IsSpace(s[|s| - n - 1])
  {
    if s == [] || !IsSpace(s[|s| - 1]) then 0 else TrailingSpaces(s[..|s| - 1]) + 1
  }

  /** Everything `TrailingSpaces` counts is whitespace. */
  lemma {:induction false} TrailingAllSpace(s: string)
    ensures AllSpace(s[|s| - TrailingSpaces(s)..])
    decreases |s|
  {
    if s != [] && IsSpace(s[|s| - 1]) {
      var init := s[..|s| - 1];
      var n := TrailingSpaces(s);
      TrailingAllSpace(init);
      var back, front := s[|s| - n..], init[|init| - (n - 1)..];
      forall k | 0 <= k < n ensures IsSpace(back[k]) {
        if k < n - 1 {
          assert back[k] == front[k];
        }
      }
    }
  }

  /** Python's `s.strip()`. */
  function Strip(s: string): string
  {
    var t := s[LeadingSpaces(s)..];
    t[..|t| - TrailingSpaces(t)]
  }

  /** `strip` keeps a contiguous stretch of `s` that starts after its
      leading whitespace. */
  lemma StripShape(s: string)
    ensures LeadingSpaces(s) + |Strip(s)| <= |s|
    ensures Strip(s) == s[LeadingSpaces(s)..LeadingSpaces(s) + |Strip(s)|]
  {
  }

  /** What `strip` removes after the kept text is all whitespace. */
  lemma StripTail(s: string)
    ensures LeadingSpaces(s) + |Strip(s)| <= |s|
    ensures AllSpace(s[LeadingSpaces(s) + |Strip(s)|..])
  {
    var i := LeadingSpaces(s);
    var t := s[i..];
    var n := TrailingSpaces(t);
    assert Strip(s) == t[..|t| - n];
    TrailingAllSpace(t);
    assert t[|t| - n..] == s[i + (|t| - n)..];
  }

  /** What `strip` keeps neither starts nor ends with whitespace. */
  lemma StripEnds(s: string)
    ensures Strip(s) != [] ==> !IsSpace(Strip(s)[0]) && !IsSpace(Strip(s)[|Strip(s)| - 1])
  {
    var i := LeadingSpaces(s);
    var t := s[i..];
    var n := TrailingSpaces(t);
    var r := t[..|t| - n];
    if r != [] {
      assert !IsSpace(r[0]) by { assert r[0] == s[i]; }
      assert !IsSpace(r[|r| - 1]) by {
        assert n < |t| && !IsSpace(t[|t| - n - 1]);
        assert r[|r| - 1] == t[|t| - n - 1];
      }
    }
  }

  /** Stripping twice is stripping once. */
  lemma StripIdempotent(s: string)
    ensures Strip(Strip(s)) == Strip(s)
  {
    var r := Strip(s);
    StripEnds(s);
    if r != [] {
      assert LeadingSpaces(r) == 0;
      assert TrailingSpaces(r) == 0;
    }
  }
}
