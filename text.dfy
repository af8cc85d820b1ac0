/**
 * The string operations the journal-maintenance command relies on:
 * `str.split(sep)`, `str.strip()`, `re.split(' +', s)` and the decimal value
 * of an all-digits component.
 */
module Text {

  // ---------------------------------------------------------------- `str.split(sep)`

  /** `s.split(c)`: the pieces of `s` between occurrences of `c`, empty pieces included. */
  function Split(s: string, c: char): (r: seq<string>)
    ensures |r| >= 1
  {
    if s == [] then [[]]
    else
      var rest := Split(s[1..], c);
      if s[0] == c then [[]] + rest else [[s[0]] + rest[0]] + rest[1..]
  }

  /** No piece of a split holds the separator. */
  lemma {:induction false} SplitPieces(s: string, c: char)
    ensures forall i | 0 <= i < |Split(s, c)| :: c !in Split(s, c)[i]
  {
    if s != [] {
      SplitPieces(s[1..], c);
      var rest := Split(s[1..], c);
      if s[0] != c {
        assert forall k | 0 <= k < |rest[0]| :: rest[0][k] != c;
        assert c !in [s[0]] + rest[0];
      }
    }
  }

  /** `c.join(fs)`: the pieces glued back together with `c` between neighbours. */
  function Join(fs: seq<string>, c: char): string
  {
    if |fs| == 0 then []
    else if |fs| == 1 then fs[0]
    else fs[0] + [c] + Join(fs[1..], c)
  }

  /** Joining the pieces of a split gives back the string. */
  lemma {:induction false} JoinSplit(s: string, c: char)
    ensures Join(Split(s, c), c) == s
  {
    if s != [] {
      JoinSplit(s[1..], c);
      var rest := Split(s[1..], c);
      if s[0] != c {
        if |rest| > 1 {
          assert ([[s[0]] + rest[0]] + rest[1..])[1..] == rest[1..];
        }
      } else {
        assert ([[]] + rest)[1..] == rest;
      }
    }
  }

  /** Splitting a string with a first character in front. */
  lemma {:induction false} SplitCons(h: char, t: string, c: char)
    ensures Split([h] + t, c) ==
              if h == c then [[]] + Split(t, c) else [[h] + Split(t, c)[0]] + Split(t, c)[1..]
  {
    assert ([h] + t)[0] == h && ([h] + t)[1..] == t;
  }

  /** Joining pieces whose first piece starts with a character. */
  lemma {:induction false} JoinFirstChar(fs: seq<string>, c: char)
    requires |fs| >= 1 && |fs[0]| > 0
    ensures Join(fs, c) == [fs[0][0]] + Join([fs[0][1..]] + fs[1..], c)
  {
    var fs' := [fs[0][1..]] + fs[1..];
    assert fs[0] == [fs[0][0]] + fs[0][1..];
    if |fs| > 1 {
      assert fs'[1..] == fs[1..];
    }
  }

  /** Joining pieces whose first piece is empty, with more after it. */
  lemma {:induction false} JoinEmptyFirst(fs: seq<string>, c: char)
    requires |fs| > 1 && fs[0] == []
    ensures Join(fs, c) == [c] + Join(fs[1..], c)
  {
  }

  /** Splitting pieces that hold no `c`, once joined with `c`, gives back the pieces. */
  lemma {:induction false} SplitJoin(fs: seq<string>, c: char)
    requires |fs| >= 1
    requires forall i | 0 <= i < |fs| :: c !in fs[i]
    ensures Split(Join(fs, c), c) == fs
    decreases |fs|, |fs[0]|
  {
    if |fs[0]| > 0 {
      var f := fs[0];
      var fs' := [f[1..]] + fs[1..];
      assert c !in f[1..] by {
        assert forall k | 0 <= k < |f[1..]| :: f[1..][k] == f[k + 1];
      }
      assert forall i | 1 <= i < |fs'| :: fs'[i] == fs[i];
      JoinFirstChar(fs, c);
      SplitJoin(fs', c);
      assert f[0] != c by {
        assert f[0] in f;
      }
      SplitCons(f[0], Join(fs', c), c);
      assert [f[0]] + f[1..] == f;
      assert [f] + fs[1..] == fs;
    } else if |fs| > 1 {
      assert forall i | 0 <= i < |fs| - 1 :: fs[1..][i] == fs[i + 1];
      SplitJoin(fs[1..], c);
      JoinEmptyFirst(fs, c);
      SplitCons(c, Join(fs[1..], c), c);
      assert [fs[0]] + fs[1..] == fs;
    }
  }

  /** A string without `c` is a single piece. */
  lemma {:induction false} SplitNoSeparator(s: string, c: char)
    requires c !in s
    ensures Split(s, c) == [s]
  {
    SplitJoin([s], c);
  }

  /** A split yields a second piece exactly when the separator occurs. */
  lemma {:induction false} SplitHasSecond(s: string, c: char)
    ensures |Split(s, c)| >= 2 <==> c in s
  {
    if c !in s {
      SplitNoSeparator(s, c);
    } else if s[0] != c {
      assert c in s[1..];
      SplitHasSecond(s[1..], c);
    }
  }

  /** Joining two non-empty lists of pieces puts one separator between their joins. */
  lemma {:induction false} JoinAppend(a: seq<string>, b: seq<string>, c: char)
    requires |a| >= 1 && |b| >= 1
    ensures Join(a + b, c) == Join(a, c) + [c] + Join(b, c)
  {
    if |a| > 1 {
      JoinAppend(a[1..], b, c);
      assert (a + b)[1..] == a[1..] + b;
    } else {
      assert (a + b)[1..] == b;
    }
  }

  /** Splitting at one occurrence of the separator splits each side independently. */
  lemma {:induction false} SplitConcat(x: string, y: string, c: char)
    ensures Split(x + [c] + y, c) == Split(x, c) + Split(y, c)
  {
    var a, b := Split(x, c), Split(y, c);
    JoinSplit(x, c);
    JoinSplit(y, c);
    JoinAppend(a, b, c);
    SplitPieces(x, c);
    SplitPieces(y, c);
    assert forall i | 0 <= i < |a + b| :: c !in (a + b)[i] by {
      forall i | 0 <= i < |a + b|
        ensures c !in (a + b)[i]
      {
        if i >= |a| {
          assert (a + b)[i] == b[i - |a|];
        }
      }
    }
    SplitJoin(a + b, c);
  }

  // ---------------------------------------------------------------- `str.strip()`

  /** `ch.isspace()`: the characters Python treats as whitespace. */
  predicate IsSpace(ch: char)
  {
    || '\t' <= ch <= '\r'
    || '\U{1C}' <= ch <= '\U{1F}'
    || ch == ' '
    || ch == '\U{85}'
    || ch == '\U{A0}'
    || ch == '\U{1680}'
    || '\U{2000}' <= ch <= '\U{200A}'
    || ch == '\U{2028}'
    || ch == '\U{2029}'
    || ch == '\U{202F}'
    || ch == '\U{205F}'
    || ch == '\U{3000}'
  }

  /** `s.lstrip()`: the longest suffix of `s` that does not start with whitespace. */
  function TrimStart(s: string): (r: string)
    ensures |r| <= |s| && r == s[|s| - |r|..]
    ensures r == [] || !IsSpace(r[0])
    ensures forall k | 0 <= k < |s| - |r| :: IsSpace(s[k])
  {
    if s != [] && IsSpace(s[0]) then TrimStart(s[1..]) else s
  }

  /** `s.rstrip()`: the longest prefix of `s` that does not end with whitespace. */
  function TrimEnd(s: string): (r: string)
    ensures |r| <= |s| && r == s[..|r|]
    ensures r == [] || !IsSpace(r[|r| - 1])
    ensures forall k | |r| <= k < |s| :: IsSpace(s[k])
  {
    if s != [] && IsSpace(s[|s| - 1]) then TrimEnd(s[..|s| - 1]) else s
  }

  /** `s.strip()`: `s` without its leading and trailing whitespace. */
  function Strip(s: string): (r: string)
    ensures |r| <= |s|
    ensures r == [] || (!IsSpace(r[0]) && !IsSpace(r[|r| - 1]))
  {
    TrimEnd(TrimStart(s))
  }

  /** A string all of whose characters are whitespace. */
  predicate AllSpace(s: string)
  {
    forall k | 0 <= k < |s| :: IsSpace(s[k])
  }

  /** Leading whitespace in front of a string that does not start with whitespace is what `lstrip` removes. */
  lemma {:induction false} TrimStartPadded(pre: string, r: string)
    requires AllSpace(pre) && (r == [] || !IsSpace(r[0]))
    ensures TrimStart(pre + r) == r
  {
    var s := pre + r;
    var t := TrimStart(s);
    assert forall k | 0 <= k < |pre| :: IsSpace(s[k]);
    assert r != [] ==> !IsSpace(s[|pre|]);
    assert |t| == |r|;
  }

  /** Trailing whitespace after a string that does not end with whitespace is what `rstrip` removes. */
  lemma {:induction false} TrimEndPadded(r: string, post: string)
    requires AllSpace(post) && (r == [] || !IsSpace(r[|r| - 1]))
    ensures TrimEnd(r + post) == r
  {
    var s := r + post;
    var t := TrimEnd(s);
    assert forall k | |r| <= k < |s| :: IsSpace(s[k]);
    assert r != [] ==> !IsSpace(s[|r| - 1]);
    assert |t| == |r|;
  }

  /** Stripping a string padded with whitespace on both sides gives back the string. */
  lemma {:induction false} StripPadded(pre: string, m: string, post: string)
    requires AllSpace(pre) && AllSpace(post)
    requires m == [] || (!IsSpace(m[0]) && !IsSpace(m[|m| - 1]))
    ensures Strip(pre + m + post) == m
  {
    if m == [] {
      assert pre + m + post == (pre + post) + [];
      assert AllSpace(pre + post) by {
        assert forall k | |pre| <= k < |pre + post| :: (pre + post)[k] == post[k - |pre|];
      }
      TrimStartPadded(pre + post, []);
    } else {
      assert pre + m + post == pre + (m + post);
      TrimStartPadded(pre, m + post);
      TrimEndPadded(m, post);
    }
  }

  // ---------------------------------------------------------------- `re.split(' +', s)`

  /**
   * `re.split(' +', s)`: the pieces of `s` between maximal runs of spaces.
   * A leading or trailing run yields an empty first or last piece.
   */
  function SplitRuns(s: string): (r: seq<string>)
    ensures |r| >= 1
  {
    if s == [] then [[]]
    else
      var rest := SplitRuns(s[1..]);
      if s[0] == ' ' then
        if |s| > 1 && s[1] == ' ' then rest else [[]] + rest
      else
        [[s[0]] + rest[0]] + rest[1..]
  }

  /** No piece of a split at runs of spaces holds a space. */
  lemma {:induction false} SplitRunsPieces(s: string)
    ensures forall i | 0 <= i < |SplitRuns(s)| :: ' ' !in SplitRuns(s)[i]
  {
    if s != [] {
      SplitRunsPieces(s[1..]);
      var rest := SplitRuns(s[1..]);
      if s[0] != ' ' {
        assert forall k | 0 <= k < |rest[0]| :: rest[0][k] != ' ';
        assert ' ' !in [s[0]] + rest[0];
      }
    }
  }

  /**
   * For a string that does not end in a space, every piece after the first is
   * non-empty, and the first is empty exactly when the string is empty or
   * starts with a space.
   */
  lemma {:induction false} SplitRunsNonEmpty(s: string)
    requires s == [] || s[|s| - 1] != ' '
    ensures SplitRuns(s)[0] == [] <==> (s == [] || s[0] == ' ')
    ensures forall i | 1 <= i < |SplitRuns(s)| :: SplitRuns(s)[i] != []
  {
    if s != [] {
      SplitRunsNonEmpty(s[1..]);
    }
  }

  /** The text of all the pieces. */
  function Concat(fs: seq<string>): string
  {
    if fs == [] then [] else fs[0] + Concat(fs[1..])
  }

  /** `s` with its spaces removed. */
  function Unspaced(s: string): string
  {
    if s == [] then [] else (if s[0] == ' ' then [] else [s[0]]) + Unspaced(s[1..])
  }

  /** The pieces hold exactly the non-space characters of the string, in order. */
  lemma {:induction false} SplitRunsText(s: string)
    ensures Concat(SplitRuns(s)) == Unspaced(s)
  {
    if s != [] {
      SplitRunsText(s[1..]);
      var rest := SplitRuns(s[1..]);
      if s[0] != ' ' {
        var r := [[s[0]] + rest[0]] + rest[1..];
        assert r[1..] == rest[1..];
        assert Concat(rest) == rest[0] + Concat(rest[1..]);
      } else if !(|s| > 1 && s[1] == ' ') {
        assert ([[]] + rest)[1..] == rest;
      }
    }
  }

  /** `n` spaces. */
  function Spaces(n: nat): (r: string)
    ensures |r| == n && forall k | 0 <= k < n :: r[k] == ' '
  {
    if n == 0 then [] else [' '] + Spaces(n - 1)
  }

  /** Pieces glued together with the given numbers of spaces between neighbours. */
  function Spaced(fs: seq<string>, gaps: seq<nat>): string
    requires |fs| >= 1 && |gaps| == |fs| - 1
  {
    if |fs| == 1 then fs[0] else fs[0] + Spaces(gaps[0]) + Spaced(fs[1..], gaps[1..])
  }

  /** A space-free piece in front of a string becomes part of that string's first piece. */
  lemma {:induction false} SplitRunsPrefix(f: string, t: string)
    requires ' ' !in f
    ensures SplitRuns(f + t) == [f + SplitRuns(t)[0]] + SplitRuns(t)[1..]
  {
    var r := SplitRuns(t);
    if f == [] {
      assert f + t == t && f + r[0] == r[0];
      assert [r[0]] + r[1..] == r;
    } else {
      SplitRunsPrefix(f[1..], t);
      assert (f + t)[1..] == f[1..] + t;
      assert [f[0]] + (f[1..] + r[0]) == f + r[0];
    }
  }

  /** A run of spaces in front of a string that starts with a non-space yields an empty piece. */
  lemma {:induction false} SplitRunsGap(n: nat, t: string)
    requires n >= 1 && t != [] && t[0] != ' '
    ensures SplitRuns(Spaces(n) + t) == [[]] + SplitRuns(t)
  {
    var s := Spaces(n) + t;
    if n > 1 {
      SplitRunsGap(n - 1, t);
      assert s[1..] == Spaces(n - 1) + t;
    } else {
      assert s[1..] == t;
    }
  }

  /** Non-empty space-free pieces separated by runs of spaces are split back into the same pieces. */
  lemma {:induction false} SplitRunsSpaced(fs: seq<string>, gaps: seq<nat>)
    requires |fs| >= 1 && |gaps| == |fs| - 1
    requires forall i | 0 <= i < |fs| :: fs[i] != [] && ' ' !in fs[i]
    requires forall i | 0 <= i < |gaps| :: gaps[i] >= 1
    ensures SplitRuns(Spaced(fs, gaps)) == fs
  {
    if |fs| == 1 {
      SplitRunsPrefix(fs[0], []);
      assert fs[0] + [] == fs[0];
    } else {
      var t := Spaced(fs[1..], gaps[1..]);
      SplitRunsSpaced(fs[1..], gaps[1..]);
      assert t != [] && t[0] != ' ' by {
        SpacedStart(fs[1..], gaps[1..]);
      }
      SplitRunsGap(gaps[0], t);
      var g := Spaces(gaps[0]) + t;
      assert Spaced(fs, gaps) == fs[0] + g;
      SplitRunsPrefix(fs[0], g);
      assert SplitRuns(g)[0] == [] && SplitRuns(g)[1..] == fs[1..];
      assert fs[0] + [] == fs[0];
      assert [fs[0]] + fs[1..] == fs;
    }
  }

  /** A spaced line starts and ends with its first and last pieces. */
  lemma {:induction false} SpacedStart(fs: seq<string>, gaps: seq<nat>)
    requires |fs| >= 1 && |gaps| == |fs| - 1 && forall i | 0 <= i < |fs| :: fs[i] != []
    ensures Spaced(fs, gaps) != []
    ensures Spaced(fs, gaps)[0] == fs[0][0]
    ensures Spaced(fs, gaps)[|Spaced(fs, gaps)| - 1] == fs[|fs| - 1][|fs[|fs| - 1]| - 1]
  {
    if |fs| > 1 {
      SpacedStart(fs[1..], gaps[1..]);
    }
  }

  // ---------------------------------------------------------------- digit strings

  /** `s.isnumeric()`, for ASCII text: a non-empty string of decimal digits. */
  predicate IsDigits(s: string)
  {
    s != [] && forall k | 0 <= k < |s| :: '0' <= s[k] <= '9'
  }

  /** `int(s)` for a string of decimal digits. */
  function Value(s: string): (n: nat)
    requires forall k | 0 <= k < |s| :: '0' <= s[k] <= '9'
  {
    if s == [] then 0 else 10 * Value(s[..|s| - 1]) + (s[|s| - 1] as int - '0' as int)
  }

  /** The decimal digits of `n`, most significant first, without leading zeros. */
  function Digits(n: nat): (s: string)
    ensures IsDigits(s)
    decreases n
  {
    (if n < 10 then [] else Digits(n / 10)) + ['0' + (n % 10) as char]
  }

  /** Reading back the decimal digits of a number gives that number. */
  lemma {:induction false} ValueDigits(n: nat)
    ensures Value(Digits(n)) == n
    decreases n
  {
    var s := Digits(n);
    assert s[..|s| - 1] == if n < 10 then [] else Digits(n / 10);
    if n >= 10 {
      ValueDigits(n / 10);
    }
  }
}
