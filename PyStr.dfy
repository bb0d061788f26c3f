/**
 * The parts of Python's `str` that the core relies on, over `seq<char>`
 * (one `char` per Unicode code point, as a Python `str` is indexed).
 */
module PyStr {

  /** `str.isspace()`, which is also what `\s` matches in a `re` pattern
      over `str`: the ASCII whitespace and separator controls, NEL,
      NO-BREAK SPACE and the Unicode space separators. */
  predicate IsSpace(c: char) {
    ('\t' <= c <= '\r') || ('\U{1C}' <= c <= ' ') || c == '\U{85}' || c == '\U{A0}'
    || c == '\U{1680}' || ('\U{2000}' <= c <= '\U{200A}') || c == '\U{2028}' || c == '\U{2029}'
    || c == '\U{202F}' || c == '\U{205F}' || c == '\U{3000}'
  }

  predicate IsAsciiDigit(c: char) { '0' <= c <= '9' }

  predicate IsAsciiAlpha(c: char) { ('a' <= c <= 'z') || ('A' <= c <= 'Z') }

  /** `c.isalnum() and c.isascii()` */
  predicate IsAsciiAlnum(c: char) { IsAsciiDigit(c) || IsAsciiAlpha(c) }

  lemma SpaceIsNotAlnum(c: char)
    requires IsAsciiAlnum(c)
    ensures !IsSpace(c)
  {
  }

  /** `s.isdigit()` restricted to ASCII digits: false on the empty string. */
  predicate IsDigits(s: string)
    ensures IsDigits(s) <==> |s| > 0 && forall i :: 0 <= i < |s| ==> IsAsciiDigit(s[i])
  {
    |s| > 0 && IsAsciiDigit(s[0]) && (|s| == 1 || IsDigits(s[1..]))
  }

  /** `s[:n]` for a non-negative `n`: a slice past the end stops at the end. */
  function Take(s: string, n: nat): (r: string)
    ensures r <= s
    ensures |r| == if n < |s| then n else |s|
  {
    if n < |s| then s[..n] else s
  }

  /** `s.find(c)`, with "not found" written `|s|` instead of -1. */
  function IndexOf(s: string, c: char): (i: nat)
    ensures i <= |s|
    ensures i < |s| ==> s[i] == c
    ensures forall j :: 0 <= j < i ==> s[j] != c
  {
    if s == [] then 0 else if s[0] == c then 0 else 1 + IndexOf(s[1..], c)
  }

  /** `s.lstrip()` */
  function TrimStart(s: string): (r: string)
    ensures |r| <= |s| && r == s[|s| - |r|..]
    ensures forall i :: 0 <= i < |s| - |r| ==> IsSpace(s[i])
    ensures r == [] || !IsSpace(r[0])
  {
    if s != [] && IsSpace(s[0]) then TrimStart(s[1..]) else s
  }

  /** `s.rstrip()` */
  function TrimEnd(s: string): (r: string)
    ensures |r| <= |s| && r == s[..|r|]
    ensures forall i :: |r| <= i < |s| ==> IsSpace(s[i])
    ensures r == [] || !IsSpace(r[|r| - 1])
  {
    if s != [] && IsSpace(s[|s| - 1]) then TrimEnd(s[..|s| - 1]) else s
  }

  /** `s.strip()` */
  function Strip(s: string): (r: string)
    ensures |r| <= |s|
    ensures r == [] || (!IsSpace(r[0]) && !IsSpace(r[|r| - 1]))
    ensures (forall i :: 0 <= i < |s| ==> !IsSpace(s[i])) ==> r == s
  {
    TrimEnd(TrimStart(s))
  }

  /** The ASCII lower-case form of a character (`str.lower()` on ASCII). */
  function AsciiLower(c: char): (r: char)
    ensures IsAsciiAlpha(c) ==> 'a' <= r <= 'z'
    ensures IsAsciiAlpha(r) <==> IsAsciiAlpha(c)
    ensures !('A' <= c <= 'Z') ==> r == c
  {
    if 'A' <= c <= 'Z' then (c as int - 'A' as int + 'a' as int) as char else c
  }

  function AsciiLowerString(s: string): (r: string)
    ensures |r| == |s|
    ensures forall i :: 0 <= i < |s| ==> r[i] == AsciiLower(s[i])
  {
    if s == [] then [] else [AsciiLower(s[0])] + AsciiLowerString(s[1..])
  }

  /** `str(n)` for a natural number: its decimal digits, no leading zero. */
  function NatToString(n: nat): (r: string)
    ensures IsDigits(r)
    ensures r[0] == '0' ==> n == 0
    decreases n
  {
    if n < 10 then [('0' as int + n) as char]
    else NatToString(n / 10) + [('0' as int + n % 10) as char]
  }

  /** Python's `a < b` on `str`: lexicographic order on code points, where a
      proper prefix comes first. (Dafny's own `<` on sequences means "proper
      prefix" only.) */
  predicate LexLess(a: string, b: string)
    decreases |a|
  {
    if b == [] then false
    else if a == [] then true
    else if a[0] != b[0] then a[0] < b[0]
    else LexLess(a[1..], b[1..])
  }

  lemma {:induction false} LexLessIrreflexive(a: string)
    ensures !LexLess(a, a)
    decreases |a|
  {
    if a != [] {
      LexLessIrreflexive(a[1..]);
    }
  }

  lemma {:induction false} LexLessTrichotomy(a: string, b: string)
    ensures LexLess(a, b) || a == b || LexLess(b, a)
    ensures !(LexLess(a, b) && LexLess(b, a))
    decreases |a|
  {
    if a != [] && b != [] && a[0] == b[0] {
      LexLessTrichotomy(a[1..], b[1..]);
      if a[1..] == b[1..] {
        assert a == [a[0]] + a[1..] && b == [b[0]] + b[1..];
      }
    }
  }

  lemma {:induction false} LexLessTransitive(a: string, b: string, c: string)
    requires LexLess(a, b) && LexLess(b, c)
    ensures LexLess(a, c)
    decreases |a|
  {
    if a != [] && a[0] == b[0] && b[0] == c[0] {
      LexLessTransitive(a[1..], b[1..], c[1..]);
    }
  }

  /** A proper prefix is lexicographically smaller. */
  lemma {:induction false} ProperPrefixIsLexLess(a: string, b: string)
    requires a < b
    ensures LexLess(a, b)
    decreases |a|
  {
    if a != [] {
      assert a[1..] < b[1..];
      ProperPrefixIsLexLess(a[1..], b[1..]);
    }
  }

  /** `s.rfind(c)`: the last position of `c`, or -1. */
  function LastIndexOf(s: string, c: char): (i: int)
    ensures -1 <= i < |s|
    ensures 0 <= i ==> s[i] == c
    ensures forall j :: i < j < |s| ==> s[j] != c
  {
    if s == [] then -1
    else if s[|s| - 1] == c then |s| - 1
    else LastIndexOf(s[..|s| - 1], c)
  }

  /** Appending text without `c` does not move the last `c`. */
  lemma LastIndexOfAppendWithout(s: string, t: string, c: char)
    requires forall j :: 0 <= j < |t| ==> t[j] != c
    ensures LastIndexOf(s + t, c) == LastIndexOf(s, c)
  {
    var i, k := LastIndexOf(s + t, c), LastIndexOf(s, c);
    assert 0 <= k ==> (s + t)[k] == s[k];
    assert 0 <= i < |s| ==> (s + t)[i] == s[i];
  }

  /** Appending text that does contain `c` puts the last `c` inside it. */
  lemma LastIndexOfAppendWith(s: string, t: string, c: char)
    requires 0 <= LastIndexOf(t, c)
    ensures LastIndexOf(s + t, c) == |s| + LastIndexOf(t, c)
  {
    var k := |s| + LastIndexOf(t, c);
    assert (s + t)[k] == t[k - |s|];
  }

  /** `s.split(sep)` for a one-character separator: the pieces between the
      separators, in order, always at least one. */
  function Split(s: string, sep: char): (r: seq<string>)
    ensures |r| >= 1
    ensures forall k, j :: 0 <= k < |r| && 0 <= j < |r[k]| ==> r[k][j] != sep && r[k][j] in s
  {
    if s == [] then [""]
    else
      var rest := Split(s[1..], sep);
      if s[0] == sep then [""] + rest
      else [[s[0]] + rest[0]] + rest[1..]
  }

  /** `sep.join(pieces)` */
  function Join(pieces: seq<string>, sep: string): string {
    if pieces == [] then ""
    else if |pieces| == 1 then pieces[0]
    else pieces[0] + sep + Join(pieces[1..], sep)
  }

  /** Joining the pieces back with the separator gives the original string. */
  lemma {:induction false} JoinSplit(s: string, sep: char)
    ensures Join(Split(s, sep), [sep]) == s
  {
    if s != [] {
      var rest := Split(s[1..], sep);
      JoinSplit(s[1..], sep);
      if s[0] == sep {
        assert Join(Split(s, sep), [sep]) == "" + [sep] + Join(rest, [sep]);
      } else if |rest| == 1 {
        assert Split(s, sep) == [[s[0]] + rest[0]];
      } else {
        var r := Split(s, sep);
        assert r[1..] == rest[1..];
        assert Join(rest, [sep]) == rest[0] + [sep] + Join(rest[1..], [sep]);
        assert Join(r, [sep]) == ([s[0]] + rest[0]) + [sep] + Join(rest[1..], [sep]);
      }
    }
  }

  /** A string without the separator is a single piece. */
  lemma {:induction false} SplitWithout(p: string, sep: char)
    requires forall j :: 0 <= j < |p| ==> p[j] != sep
    ensures Split(p, sep) == [p]
  {
    if p != [] {
      SplitWithout(p[1..], sep);
      assert [p[0]] + p[1..] == p;
    }
  }

  /** A leading piece without the separator splits off as it is. */
  lemma {:induction false} SplitAfterPiece(p: string, t: string, sep: char)
    requires forall j :: 0 <= j < |p| ==> p[j] != sep
    ensures Split(p + [sep] + t, sep) == [p] + Split(t, sep)
  {
    if p == [] {
      assert p + [sep] + t == [sep] + t;
      assert ([sep] + t)[1..] == t;
    } else {
      var u := p + [sep] + t;
      assert u[0] == p[0] && u[1..] == p[1..] + [sep] + t;
      SplitAfterPiece(p[1..], t, sep);
      assert [p[0]] + p[1..] == p;
    }
  }

  /** Splitting pieces without the separator after joining them gives them
      back. */
  lemma {:induction false} SplitJoin(pieces: seq<string>, sep: char)
    requires |pieces| >= 1
    requires forall k, j :: 0 <= k < |pieces| && 0 <= j < |pieces[k]| ==> pieces[k][j] != sep
    ensures Split(Join(pieces, [sep]), sep) == pieces
  {
    if |pieces| == 1 {
      SplitWithout(pieces[0], sep);
    } else {
      SplitJoin(pieces[1..], sep);
      SplitAfterPiece(pieces[0], Join(pieces[1..], [sep]), sep);
      assert [pieces[0]] + pieces[1..] == pieces;
    }
  }
}
