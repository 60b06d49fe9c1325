/**
 The few Python `str` operations the classifier relies on: `strip()`,
 `split(sep)`, `split(sep, 1)`, `lower()` and `in`. Each is defined once here
 and characterised by what it returns, and `Split` is paired with `Join`,
 its inverse.
 */
module PyStr {

  /** The code points for which Python's `str.isspace()` holds; these are the
      characters `str.strip()` with no argument removes. */
  predicate IsSpace(c: char)
  {
    || c == ' ' || c == '\t' || c == '\n' || c == '\r' || c == '\U{0b}' || c == '\U{0c}'
    || ('\U{1c}' <= c <= '\U{1f}')
    || c == '\U{85}' || c == '\U{a0}' || c == '\U{1680}'
    || ('\U{2000}' <= c <= '\U{200a}')
    || c == '\U{2028}' || c == '\U{2029}' || c == '\U{202f}' || c == '\U{205f}' || c == '\U{3000}'
  }

  /** The number of whitespace characters `s` starts with. */
  function LeadingSpaces(s: string): (n: nat)
    ensures n <= |s|
    ensures forall k :: 0 <= k < n ==> IsSpace(s[k])
    ensures n == |s| || !IsSpace(s[n])
    decreases |s|
  {
    if |s| > 0 && IsSpace(s[0]) then 1 + LeadingSpaces(s[1..]) else 0
  }

  /** The length of `s` without the whitespace it ends with. */
  function TrailingStart(s: string): (n: nat)
    ensures n <= |s|
    ensures forall k :: n <= k < |s| ==> IsSpace(s[k])
    ensures n == 0 || !IsSpace(s[n - 1])
    decreases |s|
  {
    if |s| > 0 && IsSpace(s[|s| - 1]) then TrailingStart(s[..|s| - 1]) else |s|
  }

  /** Python's `s.strip()`: whitespace removed from both ends (see
      `StripIsInfix` for where the result sits in `s`). */
  function Strip(s: string): (r: string)
    ensures |r| <= |s|
    ensures r == [] || (!IsSpace(r[0]) && !IsSpace(r[|r| - 1]))
  {
    var t := s[LeadingSpaces(s)..];
    t[..TrailingStart(t)]
  }

  /** The strip of `s` is an infix of `s` with only whitespace around it: it
      is the longest infix that neither starts nor ends with whitespace. */
  lemma StripIsInfix(s: string)
    ensures exists i :: StrippedAt(s, Strip(s), i)
  {
    var i := LeadingSpaces(s);
    var t := s[i..];
    var r := Strip(s);
    assert r == s[i..i + |r|];
    assert forall k :: i + |r| <= k < |s| ==> s[k] == t[k - i];
    assert StrippedAt(s, r, i);
  }

  /** `r` sits in `s` at offset `i` with only whitespace before and after it. */
  ghost predicate StrippedAt(s: string, r: string, i: int)
  {
    && 0 <= i <= i + |r| <= |s|
    && r == s[i..i + |r|]
    && (forall k :: 0 <= k < i ==> IsSpace(s[k]))
    && (forall k :: i + |r| <= k < |s| ==> IsSpace(s[k]))
  }

  /** Stripping twice is stripping once. */
  lemma StripIdempotent(s: string)
    ensures Strip(Strip(s)) == Strip(s)
  {
    StripNoop(Strip(s));
  }

  /** A string with no whitespace at either end is its own strip. */
  lemma StripNoop(s: string)
    requires s == [] || (!IsSpace(s[0]) && !IsSpace(s[|s| - 1]))
    ensures Strip(s) == s
  {
    assert LeadingSpaces(s) == 0;
    assert TrailingStart(s) == |s|;
  }

  /** `LeadingSpaces` is the position of the first non-whitespace character. */
  lemma LeadingSpacesIs(s: string, n: nat)
    requires n <= |s| && (forall k :: 0 <= k < n ==> IsSpace(s[k]))
    requires n == |s| || !IsSpace(s[n])
    ensures LeadingSpaces(s) == n
  {
  }

  /** Stripping what is left after the leading whitespace is stripping the
      whole string. */
  lemma StripDropLeading(s: string)
    ensures Strip(s[LeadingSpaces(s)..]) == Strip(s)
  {
    var t := s[LeadingSpaces(s)..];
    LeadingSpacesIs(t, 0);
    assert t[0..] == t;
  }

  /** A non-whitespace character survives stripping: the strip is the
      infix starting after the leading whitespace and reaching past it. */
  lemma StripKeeps(t: string, p: nat)
    requires p < |t| && !IsSpace(t[p])
    ensures var i := LeadingSpaces(t);
            i <= p < i + |Strip(t)| <= |t| && Strip(t) == t[i..i + |Strip(t)|]
  {
    var i := LeadingSpaces(t);
    var u := t[i..];
    assert u[p - i] == t[p];
  }

  /** The whitespace `a + [c] + b` starts with is that of `a`, when `c` is
      not whitespace. */
  lemma LeadingSpacesBefore(a: string, c: char, b: string)
    requires !IsSpace(c)
    ensures LeadingSpaces(a + [c] + b) == LeadingSpaces(a)
  {
    var t := a + [c] + b;
    var i := LeadingSpaces(a);
    assert forall k :: 0 <= k < i ==> t[k] == a[k];
    assert t[i] == if i == |a| then c else a[i];
    LeadingSpacesIs(t, i);
  }

  /** Stripping `a + [c] + b`, `c` a non-whitespace character not in `a`,
      keeps the first `c`, and the text before it, once stripped, is `a`
      stripped. */
  lemma StripSplitFirst(a: string, c: char, b: string)
    requires c !in a && !IsSpace(c)
    ensures c in Strip(a + [c] + b)
    ensures Strip(SplitFirst(Strip(a + [c] + b), c).0) == Strip(a)
  {
    var t := a + [c] + b;
    var i := LeadingSpaces(a);
    LeadingSpacesBefore(a, c, b);
    assert t[|a|] == c;
    StripKeeps(t, |a|);
    var part := Strip(t);
    var n := |a| - i;
    assert part[n] == c;
    assert part[..n] == t[i..|a|] == a[i..];
    IndexOfIs(part, c, n);
    StripDropLeading(a);
  }

  /** Python's `s.split(sep)`: the pieces between occurrences of `sep`; there
      is always one more piece than there are separators. */
  function Split(s: string, sep: char): (r: seq<string>)
    ensures |r| >= 1
    ensures forall k :: 0 <= k < |r| ==> sep !in r[k]
    decreases |s|
  {
    if |s| == 0 then [""]
    else
      var rest := Split(s[1..], sep);
      if s[0] == sep then [""] + rest
      else [[s[0]] + rest[0]] + rest[1..]
  }

  /** `sep.join(pieces)` for a non-empty list of pieces. */
  function Join(pieces: seq<string>, sep: char): string
    requires |pieces| >= 1
  {
    if |pieces| == 1 then pieces[0] else pieces[0] + [sep] + Join(pieces[1..], sep)
  }

  /** Joining the pieces of a split gives back the string. */
  lemma {:induction false} JoinSplit(s: string, sep: char)
    ensures Join(Split(s, sep), sep) == s
    decreases |s|
  {
    if |s| > 0 {
      JoinSplit(s[1..], sep);
      var rest := Split(s[1..], sep);
      var p := Split(s, sep);
      assert s == [s[0]] + s[1..];
      if s[0] == sep {
        assert p[0] == "" && p[1..] == rest;
        assert Join(p, sep) == p[0] + [sep] + Join(rest, sep);
      } else if |rest| == 1 {
        assert p == [[s[0]] + rest[0]];
      } else {
        assert p[0] == [s[0]] + rest[0] && p[1..] == rest[1..];
        assert Join(p, sep) == p[0] + [sep] + Join(rest[1..], sep);
        assert Join(rest, sep) == rest[0] + [sep] + Join(rest[1..], sep);
      }
    }
  }

  /** Splitting a join of separator-free pieces gives back the pieces. */
  lemma {:induction false} SplitJoin(pieces: seq<string>, sep: char)
    requires |pieces| >= 1
    requires forall k :: 0 <= k < |pieces| ==> sep !in pieces[k]
    ensures Split(Join(pieces, sep), sep) == pieces
    decreases |pieces|
  {
    if |pieces| == 1 {
      SplitNoSep(pieces[0], sep);
    } else {
      SplitJoin(pieces[1..], sep);
      SplitConcat(pieces[0], Join(pieces[1..], sep), sep);
      SplitNoSep(pieces[0], sep);
      assert [pieces[0]] + pieces[1..] == pieces;
    }
  }

  /** A string without the separator splits into itself alone. */
  lemma {:induction false} SplitNoSep(s: string, sep: char)
    requires sep !in s
    ensures Split(s, sep) == [s]
    decreases |s|
  {
    if |s| > 0 {
      assert sep !in s[1..] by {
        forall k | 0 <= k < |s[1..]| ensures s[1..][k] != sep {
          assert s[1..][k] == s[k + 1];
        }
      }
      SplitNoSep(s[1..], sep);
      assert [s[0]] + s[1..] == s;
    }
  }

  /** Splitting `a + sep + b` splits `a` and `b` independently. */
  lemma {:induction false} SplitConcat(a: string, b: string, sep: char)
    ensures Split(a + [sep] + b, sep) == Split(a, sep) + Split(b, sep)
    decreases |a|
  {
    var s := a + [sep] + b;
    if |a| == 0 {
      assert s[1..] == b;
    } else {
      assert s[1..] == a[1..] + [sep] + b;
      SplitConcat(a[1..], b, sep);
    }
  }

  /** Index of the first occurrence of `c` in `s`. */
  function IndexOf(s: string, c: char): (i: nat)
    requires c in s
    ensures i < |s| && s[i] == c
    ensures forall k :: 0 <= k < i ==> s[k] != c
  {
    if s[0] == c then 0 else 1 + IndexOf(s[1..], c)
  }

  /** `IndexOf` is the position of the first occurrence. */
  lemma IndexOfIs(s: string, c: char, n: nat)
    requires n < |s| && s[n] == c && c !in s[..n]
    ensures IndexOf(s, c) == n
  {
    assert forall k :: 0 <= k < n ==> s[k] == s[..n][k];
  }

  /** Python's `s.split(c, 1)` when `c` occurs in `s`: the text before the
      first `c` and everything after it. */
  function SplitFirst(s: string, c: char): (r: (string, string))
    requires c in s
    ensures s == r.0 + [c] + r.1
    ensures c !in r.0
  {
    var i := IndexOf(s, c);
    (s[..i], s[i + 1..])
  }

  /** Python's `ch.lower()` for every character whose lower case is an ASCII
      letter: `A`-`Z` and the Kelvin sign U+212A. Every other character is
      kept as it is. */
  function LowerChar(c: char): char
  {
    if 'A' <= c <= 'Z' then (c as int + 32) as char
    else if c == '\U{212a}' then 'k'
    else c
  }

  /** Python's `s.lower()`, per `LowerChar`. */
  function Lower(s: string): (r: string)
    ensures |r| == |s|
    ensures forall k :: 0 <= k < |s| ==> r[k] == LowerChar(s[k])
  {
    seq(|s|, k requires 0 <= k < |s| => LowerChar(s[k]))
  }

  /** Lower-case ASCII letters only. */
  predicate LowerAscii(t: string)
  {
    forall k :: 0 <= k < |t| ==> 'a' <= t[k] <= 'z'
  }

  /** The characters Python lower-cases to the ASCII letter `l`: `l` itself,
      its upper case, and for `k` also the Kelvin sign. */
  predicate CaseVariant(c: char, l: char)
    requires 'a' <= l <= 'z'
  {
    c == l || c as int == l as int - 32 || (l == 'k' && c == '\U{212a}')
  }

  lemma LowerCharTo(c: char, l: char)
    requires 'a' <= l <= 'z'
    ensures LowerChar(c) == l <==> CaseVariant(c, l)
  {
  }

  /** `s.lower() == t`, for a lower-case ASCII `t`, holds exactly when `s`
      spells `t` letter by letter in any mix of cases. */
  lemma LowerMatches(s: string, t: string)
    requires LowerAscii(t)
    ensures Lower(s) == t <==> |s| == |t| && forall k :: 0 <= k < |s| ==> CaseVariant(s[k], t[k])
  {
    forall k | 0 <= k < |s| && k < |t| {
      LowerCharTo(s[k], t[k]);
    }
    if |s| == |t| && forall k :: 0 <= k < |s| ==> CaseVariant(s[k], t[k]) {
      assert forall k :: 0 <= k < |s| ==> Lower(s)[k] == t[k];
    }
  }
}
