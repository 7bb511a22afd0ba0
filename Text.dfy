/**
 * The string operations the UI code calls on its inputs: upper- and
 * lower-casing (ASCII letters only), substring search (`includes`),
 * whitespace trimming (`trim`), splitting on and joining with a newline.
 */
module Text {

  /** Upper-cases an ASCII letter and leaves every other character alone. */
  function UpperChar(c: char): char
  {
    if 'a' <= c <= 'z' then (c as int - 32) as char else c
  }

  /** Lower-cases an ASCII letter and leaves every other character alone. */
  function LowerChar(c: char): char
  {
    if 'A' <= c <= 'Z' then (c as int + 32) as char else c
  }

  function Upper(s: string): (r: string)
    ensures |r| == |s|
    ensures forall i :: 0 <= i < |s| ==> r[i] == UpperChar(s[i])
  {
    if s == [] then [] else [UpperChar(s[0])] + Upper(s[1..])
  }

  function Lower(s: string): (r: string)
    ensures |r| == |s|
    ensures forall i :: 0 <= i < |s| ==> r[i] == LowerChar(s[i])
  {
    if s == [] then [] else [LowerChar(s[0])] + Lower(s[1..])
  }

  predicate IsAsciiLetter(c: char)
  {
    'A' <= c <= 'Z' || 'a' <= c <= 'z'
  }

  predicate HasAsciiLetter(s: string)
  {
    exists i :: 0 <= i < |s| && IsAsciiLetter(s[i])
  }

  /** Upper-casing maps a non-letter only to itself and nothing else to it. */
  lemma UpperCharFixed(c: char, d: char)
    requires !IsAsciiLetter(d)
    ensures UpperChar(c) == d <==> c == d
  {
    if 'a' <= c <= 'z' {
      assert 'A' <= UpperChar(c) <= 'Z';
    }
  }

  /**
   * A name without ASCII letters (such as the Chinese stage names) is the
   * upper-case form of itself only.
   */
  lemma {:induction false} UpperEqualsPlain(s: string, t: string)
    requires !HasAsciiLetter(t)
    ensures Upper(s) == t <==> s == t
  {
    if Upper(s) == t {
      forall i | 0 <= i < |s| ensures s[i] == t[i] {
        UpperCharFixed(s[i], t[i]);
      }
    }
    if s == t {
      forall i | 0 <= i < |s| ensures Upper(s)[i] == t[i] {
        UpperCharFixed(s[i], t[i]);
      }
    }
  }

  /** The strings whose upper-case form is "OC" are the four spellings of it. */
  lemma UpperIsOC(s: string)
    ensures Upper(s) == "OC" <==> s in {"OC", "Oc", "oC", "oc"}
  {
    if Upper(s) == "OC" {
      assert |s| == 2;
      assert UpperChar(s[0]) == 'O' && UpperChar(s[1]) == 'C';
      assert s[0] == 'O' || s[0] == 'o';
      assert s[1] == 'C' || s[1] == 'c';
      assert s == [s[0], s[1]];
    }
  }

  /** `t` occurs in `s` at position `k`. */
  predicate OccursAt(s: string, t: string, k: int)
  {
    0 <= k && k + |t| <= |s| && s[k..k + |t|] == t
  }

  /** `s.includes(t)`: decided by trying every start position in turn. */
  function Contains(s: string, t: string): (b: bool)
    ensures t == [] ==> b
    ensures b ==> |t| <= |s|
    decreases |s|
  {
    t <= s || (s != [] && Contains(s[1..], t))
  }

  /** The search agrees with its declarative meaning. */
  lemma {:induction false} ContainsMeansOccurs(s: string, t: string)
    ensures Contains(s, t) <==> exists k :: OccursAt(s, t, k)
    decreases |s|
  {
    if t <= s {
      assert OccursAt(s, t, 0);
    } else if s == [] {
    } else {
      ContainsMeansOccurs(s[1..], t);
      if Contains(s[1..], t) {
        var k :| OccursAt(s[1..], t, k);
        assert s[1..][k..k + |t|] == s[k + 1..k + 1 + |t|];
        assert OccursAt(s, t, k + 1);
      }
      forall k | OccursAt(s, t, k) && k > 0 ensures Contains(s[1..], t) {
        assert s[1..][k - 1..k - 1 + |t|] == s[k..k + |t|];
        assert OccursAt(s[1..], t, k - 1);
      }
    }
  }

  /**
   * The characters `String.prototype.trim` removes: ECMAScript WhiteSpace
   * (tab, vertical tab, form feed, space, no-break space, byte order mark and
   * the other space separators) and LineTerminator.
   */
  predicate IsWhitespace(c: char)
  {
    c == '\t' || c == '\U{000B}' || c == '\U{000C}' || c == ' ' || c == '\U{00A0}'
    || c == '\U{FEFF}' || c == '\U{1680}' || ('\U{2000}' <= c <= '\U{200A}')
    || c == '\U{202F}' || c == '\U{205F}' || c == '\U{3000}'
    || c == '\n' || c == '\r' || c == '\U{2028}' || c == '\U{2029}'
  }

  /** Neither the first nor the last character is whitespace. */
  predicate Trimmed(s: string)
  {
    s == [] || (!IsWhitespace(s[0]) && !IsWhitespace(s[|s| - 1]))
  }

  /** Where the leading whitespace ends. */
  function TrimStartIndex(s: string): (i: nat)
    ensures i <= |s|
    ensures forall k :: 0 <= k < i ==> IsWhitespace(s[k])
    ensures i == |s| || !IsWhitespace(s[i])
  {
    if s != [] && IsWhitespace(s[0]) then 1 + TrimStartIndex(s[1..]) else 0
  }

  /** Where the trailing whitespace of `s[lo..hi]` starts. */
  function TrimEndIndex(s: string, lo: nat, hi: nat): (j: nat)
    requires lo <= hi <= |s|
    ensures lo <= j <= hi
    ensures forall k :: j <= k < hi ==> IsWhitespace(s[k])
    ensures j == lo || !IsWhitespace(s[j - 1])
    decreases hi
  {
    if hi > lo && IsWhitespace(s[hi - 1]) then TrimEndIndex(s, lo, hi - 1) else hi
  }

  /**
   * `s.trim()`: the result is a slice of `s`, everything cut off is
   * whitespace, and the result itself neither starts nor ends with it.
   */
  function Trim(s: string): (r: string)
    ensures Trimmed(r)
    ensures exists k ::
      && OccursAt(s, r, k)
      && (forall m :: 0 <= m < k ==> IsWhitespace(s[m]))
      && (forall m :: k + |r| <= m < |s| ==> IsWhitespace(s[m]))
    ensures (forall k :: 0 <= k < |s| ==> IsWhitespace(s[k])) <==> r == []
  {
    var i := TrimStartIndex(s);
    var j := TrimEndIndex(s, i, |s|);
    var r := s[i..j];
    assert OccursAt(s, r, i);
    assert r != [] ==> r[0] == s[i] && r[|r| - 1] == s[j - 1];
    r
  }

  lemma TrimOfTrimmed(s: string)
    requires Trimmed(s)
    ensures Trim(s) == s
  {
  }

  /** A slice of a newline-free string is newline-free. */
  lemma TrimKeepsNoNewline(s: string)
    requires '\n' !in s
    ensures '\n' !in Trim(s)
  {
    var r := Trim(s);
    var i :| OccursAt(s, r, i);
    forall k | 0 <= k < |r| ensures r[k] != '\n' {
      assert r[k] == s[i + k];
    }
  }

  /**
   * `s.split('\n')`: the pieces between newlines, in order; the empty string
   * splits into one empty piece and a trailing newline leaves an empty last
   * piece.
   */
  function SplitLines(s: string): (r: seq<string>)
    ensures |r| >= 1
    ensures forall i :: 0 <= i < |r| ==> '\n' !in r[i]
  {
    if s == [] then [[]]
    else if s[0] == '\n' then [[]] + SplitLines(s[1..])
    else
      var rest := SplitLines(s[1..]);
      [[s[0]] + rest[0]] + rest[1..]
  }

  /** `xs.join('\n')`. */
  function JoinLines(xs: seq<string>): string
  {
    if |xs| == 0 then []
    else if |xs| == 1 then xs[0]
    else xs[0] + ['\n'] + JoinLines(xs[1..])
  }

  lemma {:induction false} SplitPrefix(a: string, b: string)
    requires '\n' !in a
    ensures SplitLines(a + b) == [a + SplitLines(b)[0]] + SplitLines(b)[1..]
  {
    if a != [] {
      assert (a + b)[0] == a[0];
      assert (a + b)[1..] == a[1..] + b;
      SplitPrefix(a[1..], b);
      assert [a[0]] + (a[1..] + SplitLines(b)[0]) == a + SplitLines(b)[0];
    } else {
      assert a + b == b;
      assert a + SplitLines(b)[0] == SplitLines(b)[0];
      assert SplitLines(b) == [SplitLines(b)[0]] + SplitLines(b)[1..];
    }
  }

  /** Splitting undoes joining for newline-free, non-empty lists. */
  lemma {:induction false} SplitJoin(xs: seq<string>)
    requires |xs| >= 1
    requires forall i :: 0 <= i < |xs| ==> '\n' !in xs[i]
    ensures SplitLines(JoinLines(xs)) == xs
  {
    if |xs| == 1 {
      SplitPrefix(xs[0], []);
      assert xs[0] + [] == xs[0];
      assert SplitLines(xs[0] + []) == [xs[0]];
    } else {
      var b := ['\n'] + JoinLines(xs[1..]);
      assert JoinLines(xs) == xs[0] + b;
      SplitPrefix(xs[0], b);
      assert b[0] == '\n' && b[1..] == JoinLines(xs[1..]);
      SplitJoin(xs[1..]);
      assert SplitLines(b) == [[]] + xs[1..];
      assert xs[0] + [] == xs[0];
      assert xs == [xs[0]] + xs[1..];
    }
  }

  /** Joining undoes splitting for every string. */
  lemma {:induction false} JoinSplit(s: string)
    ensures JoinLines(SplitLines(s)) == s
  {
    if s == [] {
    } else if s[0] == '\n' {
      JoinSplit(s[1..]);
      var rest := SplitLines(s[1..]);
      assert SplitLines(s)[1..] == rest;
      assert s == ['\n'] + s[1..];
    } else {
      JoinSplit(s[1..]);
      var rest := SplitLines(s[1..]);
      if |rest| == 1 {
        assert SplitLines(s) == [[s[0]] + rest[0]];
        assert s == [s[0]] + s[1..];
      } else {
        var r := SplitLines(s);
        assert r[1..] == rest[1..];
        assert JoinLines(rest) == rest[0] + ['\n'] + JoinLines(rest[1..]);
        assert JoinLines(r) == ([s[0]] + rest[0]) + ['\n'] + JoinLines(rest[1..]);
        assert s == [s[0]] + s[1..];
      }
    }
  }
}
