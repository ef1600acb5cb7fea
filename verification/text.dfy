/**
 The few .NET string operations the G-code rewriter relies on, as pure functions
 over `string` (a sequence of Unicode scalar values):
 - `Trim`, which strips what `char.IsWhiteSpace` calls whitespace from both ends;
 - `StartsWith` and `IndexOf` under `StringComparison.OrdinalIgnoreCase`;
 - `Split` on a single separator character.
 */
module Text {

  /** The characters `char.IsWhiteSpace` accepts, which are the ones `String.Trim()` removes. */
  predicate IsWhiteSpace(c: char) {
    || ('\t' <= c <= '\r')
    || c == ' '
    || c == '\U{0085}'
    || c == '\U{00A0}'
    || c == '\U{1680}'
    || ('\U{2000}' <= c <= '\U{200A}')
    || c == '\U{2028}'
    || c == '\U{2029}'
    || c == '\U{202F}'
    || c == '\U{205F}'
    || c == '\U{3000}'
  }

  /** Every character of `s` in positions `lo` up to (not including) `hi` is whitespace. */
  ghost predicate WhiteSpaceBetween(s: string, lo: int, hi: int) {
    forall i :: lo <= i < hi && 0 <= i < |s| ==> IsWhiteSpace(s[i])
  }

  /** Neither end of `s` is whitespace. */
  predicate IsTrimmed(s: string) {
    s == [] || (!IsWhiteSpace(s[0]) && !IsWhiteSpace(s[|s| - 1]))
  }

  /** `r` is `s` with a whitespace-only prefix and a whitespace-only suffix removed. */
  ghost predicate StripsTo(s: string, r: string) {
    exists a :: 0 <= a <= |s| - |r| && s[a..a + |r|] == r && WhiteSpaceBetween(s, 0, a) && WhiteSpaceBetween(s, a + |r|, |s|)
  }

  /** `String.TrimStart()`: drops leading whitespace. */
  function TrimStart(s: string): string
  {
    if |s| > 0 && IsWhiteSpace(s[0]) then TrimStart(s[1..]) else s
  }

  /** `TrimStart` returns a suffix, drops only whitespace, and stops at the first other character. */
  lemma {:induction false} TrimStartSpec(s: string)
    ensures var r := TrimStart(s);
      |r| <= |s| && r == s[|s| - |r|..] && WhiteSpaceBetween(s, 0, |s| - |r|) && (r == [] || !IsWhiteSpace(r[0]))
    decreases |s|
  {
    if |s| > 0 && IsWhiteSpace(s[0]) {
      TrimStartSpec(s[1..]);
    }
  }

  /** `String.TrimEnd()`: drops trailing whitespace. */
  function TrimEnd(s: string): string
  {
    if |s| > 0 && IsWhiteSpace(s[|s| - 1]) then TrimEnd(s[..|s| - 1]) else s
  }

  /** `TrimEnd` returns a prefix, drops only whitespace, and stops at the last other character. */
  lemma {:induction false} TrimEndSpec(s: string)
    ensures var r := TrimEnd(s);
      |r| <= |s| && r == s[..|r|] && WhiteSpaceBetween(s, |r|, |s|) && (r == [] || !IsWhiteSpace(r[|r| - 1]))
    decreases |s|
  {
    if |s| > 0 && IsWhiteSpace(s[|s| - 1]) {
      TrimEndSpec(s[..|s| - 1]);
    }
  }

  /** `String.Trim()`: the longest whitespace prefix and suffix are removed, nothing else. */
  function Trim(s: string): (r: string)
    ensures StripsTo(s, r)
    ensures IsTrimmed(r)
  {
    TrimBothEnds(s);
    TrimEnd(TrimStart(s))
  }

  /** Trimming the start and then the end strips `s` to a trimmed string. */
  lemma TrimBothEnds(s: string)
    ensures StripsTo(s, TrimEnd(TrimStart(s))) && IsTrimmed(TrimEnd(TrimStart(s)))
  {
    TrimStartSpec(s);
    var t := TrimStart(s);
    TrimEndSpec(t);
    var r := TrimEnd(t);
    var a := |s| - |t|;
    assert s[a..a + |r|] == r;
    assert WhiteSpaceBetween(s, a + |r|, |s|) by {
      forall i | a + |r| <= i < |s| ensures IsWhiteSpace(s[i]) {
        assert s[i] == t[i - a];
      }
    }
    if r != [] {
      assert r[0] == t[0];
    }
  }

  /** `TrimStart` stops at the first character that is not whitespace. */
  lemma {:induction false} TrimStartAt(s: string, a: nat)
    requires a <= |s| && WhiteSpaceBetween(s, 0, a)
    requires a == |s| || !IsWhiteSpace(s[a])
    ensures TrimStart(s) == s[a..]
    decreases a
  {
    if a > 0 {
      assert IsWhiteSpace(s[0]);
      var s' := s[1..];
      assert WhiteSpaceBetween(s', 0, a - 1) by {
        forall i | 0 <= i < a - 1 ensures IsWhiteSpace(s'[i]) {
          assert s'[i] == s[i + 1];
        }
      }
      TrimStartAt(s', a - 1);
      assert s'[a - 1..] == s[a..];
    }
  }

  /** `TrimEnd` stops at the last character that is not whitespace. */
  lemma {:induction false} TrimEndAt(s: string, e: nat)
    requires e <= |s| && WhiteSpaceBetween(s, e, |s|)
    requires e == 0 || !IsWhiteSpace(s[e - 1])
    ensures TrimEnd(s) == s[..e]
    decreases |s| - e
  {
    if e < |s| {
      assert IsWhiteSpace(s[|s| - 1]);
      var s' := s[..|s| - 1];
      assert WhiteSpaceBetween(s', e, |s'|);
      TrimEndAt(s', e);
      assert s'[..e] == s[..e];
    }
  }

  /** `Trim` keeps exactly the window from the first to the last character that is not whitespace. */
  lemma TrimWindow(s: string, a: nat, e: nat)
    requires a < e <= |s|
    requires WhiteSpaceBetween(s, 0, a) && WhiteSpaceBetween(s, e, |s|)
    requires !IsWhiteSpace(s[a]) && !IsWhiteSpace(s[e - 1])
    ensures Trim(s) == s[a..e]
  {
    TrimStartAt(s, a);
    var u := s[a..];
    assert WhiteSpaceBetween(u, e - a, |u|) by {
      forall i | e - a <= i < |u| ensures IsWhiteSpace(u[i]) {
        assert u[i] == s[a + i];
      }
    }
    assert u[e - a - 1] == s[e - 1];
    TrimEndAt(u, e - a);
    assert u[..e - a] == s[a..e];
  }

  /** A trimmed string that `s` strips to is the one `Trim` returns: the two
      postconditions of `Trim` determine its result completely. */
  lemma {:induction false} TrimUnique(s: string, r: string)
    requires StripsTo(s, r) && IsTrimmed(r)
    ensures r == Trim(s)
  {
    var a :| 0 <= a <= |s| - |r| && s[a..a + |r|] == r && WhiteSpaceBetween(s, 0, a) && WhiteSpaceBetween(s, a + |r|, |s|);
    if r == [] {
      assert WhiteSpaceBetween(s, 0, |s|);
      TrimStartAt(s, |s|);
    } else {
      assert s[a] == r[0] && s[a + |r| - 1] == r[|r| - 1];
      TrimWindow(s, a, a + |r|);
    }
  }

  /** Trimming twice is trimming once. */
  lemma TrimIdempotent(s: string)
    ensures Trim(Trim(s)) == Trim(s)
  {
    var t := Trim(s);
    assert t[0..0 + |t|] == t && WhiteSpaceBetween(t, 0, 0) && WhiteSpaceBetween(t, |t|, |t|);
    TrimUnique(t, t);
  }

  /** `StringComparison.OrdinalIgnoreCase` folds each character to upper case; only
      ASCII letters are folded here, which is exact for the ASCII letters and digits
      this program ever compares against. */
  function Upper(c: char): char
  {
    if 'a' <= c <= 'z' then (c as int - 32) as char else c
  }

  predicate SameIgnoringCase(a: char, b: char) {
    Upper(a) == Upper(b)
  }

  /** `s.StartsWith(p, StringComparison.OrdinalIgnoreCase)`. */
  function StartsWithIgnoreCase(s: string, p: string): (r: bool)
    ensures r <==> |p| <= |s| && forall i :: 0 <= i < |p| ==> SameIgnoringCase(s[i], p[i])
  {
    if |p| == 0 then true
    else if |s| == 0 then false
    else SameIgnoringCase(s[0], p[0]) && StartsWithIgnoreCase(s[1..], p[1..])
  }

  /** A string that starts with `p + q` starts with `p`. */
  lemma LongerPrefixImpliesShorter(s: string, p: string, q: string)
    requires StartsWithIgnoreCase(s, p + q)
    ensures StartsWithIgnoreCase(s, p)
  {
    forall i | 0 <= i < |p| ensures SameIgnoringCase(s[i], p[i]) {
      assert (p + q)[i] == p[i];
    }
  }

  /** `s.IndexOf(c.ToString(), StringComparison.OrdinalIgnoreCase)`, searching from
      position `from`: the first match at or after `from`, or -1 when there is none. */
  function IndexOfIgnoreCase(s: string, c: char, from: nat := 0): (r: int)
    requires from <= |s|
    ensures -1 <= r < |s|
    ensures r == -1 <==> forall i :: from <= i < |s| ==> !SameIgnoringCase(s[i], c)
    ensures r >= 0 ==> from <= r && SameIgnoringCase(s[r], c)
    ensures r >= 0 ==> forall i :: from <= i < r ==> !SameIgnoringCase(s[i], c)
    decreases |s| - from
  {
    if from == |s| then -1
    else if SameIgnoringCase(s[from], c) then from
    else IndexOfIgnoreCase(s, c, from + 1)
  }

  /** Joins non-empty `parts`, putting `sep` between neighbours (`String.Join`). */
  function Join(parts: seq<string>, sep: char): (r: string)
    requires |parts| >= 1
    ensures |r| >= |parts| - 1
  {
    if |parts| == 1 then parts[0]
    else Join(parts[..|parts| - 1], sep) + [sep] + parts[|parts| - 1]
  }

  /** `s.Split(sep)`: the pieces between separators, empty pieces included, so the
      result always has one more piece than `s` has separators. */
  function Split(s: string, sep: char): (r: seq<string>)
    ensures |r| >= 1
  {
    if |s| == 0 then [""]
    else
      var c := s[|s| - 1];
      var init := Split(s[..|s| - 1], sep);
      if c == sep then init + [""]
      else init[..|init| - 1] + [init[|init| - 1] + [c]]
  }

  /** No piece holds the separator, and joining the pieces gives back the string. */
  lemma SplitSpec(s: string, sep: char)
    ensures forall i :: 0 <= i < |Split(s, sep)| ==> sep !in Split(s, sep)[i]
    ensures Join(Split(s, sep), sep) == s
  {
    SplitPiecesClean(s, sep);
    SplitJoinBack(s, sep);
  }

  lemma {:induction false} SplitPiecesClean(s: string, sep: char)
    ensures forall i :: 0 <= i < |Split(s, sep)| ==> sep !in Split(s, sep)[i]
    decreases |s|
  {
    if |s| > 0 {
      var c := s[|s| - 1];
      var init := Split(s[..|s| - 1], sep);
      SplitPiecesClean(s[..|s| - 1], sep);
      var r := Split(s, sep);
      forall i | 0 <= i < |r| ensures sep !in r[i] {
        if i < |init| - 1 || (c == sep && i < |init|) {
          assert r[i] == init[i];
        }
      }
    }
  }

  lemma {:induction false} SplitJoinBack(s: string, sep: char)
    ensures Join(Split(s, sep), sep) == s
    decreases |s|
  {
    if |s| > 0 {
      var c := s[|s| - 1];
      var init := Split(s[..|s| - 1], sep);
      SplitJoinBack(s[..|s| - 1], sep);
      if c == sep {
        assert (init + [""])[..|init|] == init;
        assert s == s[..|s| - 1] + [sep] + "";
      } else {
        JoinExtendLast(init, sep, c);
        assert s == s[..|s| - 1] + [c];
      }
    }
  }

  /** Extending the last piece extends the joined string by the same characters. */
  lemma JoinExtendLast(parts: seq<string>, sep: char, c: char)
    requires |parts| >= 1
    ensures Join(parts[..|parts| - 1] + [parts[|parts| - 1] + [c]], sep) == Join(parts, sep) + [c]
  {
    var r := parts[..|parts| - 1] + [parts[|parts| - 1] + [c]];
    assert r[..|r| - 1] == parts[..|parts| - 1];
  }

  /** Splitting undoes joining pieces that do not contain the separator. */
  lemma {:induction false} SplitJoin(parts: seq<string>, sep: char)
    requires |parts| >= 1
    requires forall i :: 0 <= i < |parts| ==> sep !in parts[i]
    ensures Split(Join(parts, sep), sep) == parts
    decreases |parts|
  {
    var last := parts[|parts| - 1];
    if |parts| > 1 {
      var init := parts[..|parts| - 1];
      assert Split(Join(init, sep), sep) == init by {
        SplitJoin(init, sep);
      }
      assert init + [last] == parts;
      assert Join(parts, sep) == Join(init, sep) + [sep] + last;
      SplitAppend(Join(init, sep), sep, last);
    } else {
      SplitWithoutSeparator(last, sep);
    }
  }

  /** A string without the separator splits into itself alone. */
  lemma {:induction false} SplitWithoutSeparator(s: string, sep: char)
    requires sep !in s
    ensures Split(s, sep) == [s]
    decreases |s|
  {
    if |s| > 0 {
      SplitWithoutSeparator(s[..|s| - 1], sep);
      assert s[..|s| - 1] + [s[|s| - 1]] == s;
    }
  }

  /** Appending a separator and a separator-free tail adds exactly one piece. */
  lemma {:induction false} SplitAppend(a: string, sep: char, b: string)
    requires sep !in b
    ensures Split(a + [sep] + b, sep) == Split(a, sep) + [b]
    decreases |b|
  {
    if |b| == 0 {
      assert a + [sep] + b == a + [sep];
      assert (a + [sep])[..|a + [sep]| - 1] == a;
    } else {
      var s := a + [sep] + b;
      var b' := b[..|b| - 1];
      assert s[..|s| - 1] == a + [sep] + b';
      SplitAppend(a, sep, b');
      assert b' + [b[|b| - 1]] == b;
    }
  }
}
