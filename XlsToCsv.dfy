/**
 * The file name chosen for one sheet of a workbook converted to CSV: the
 * sheet name reduced to a safe file-name fragment, inserted between the stem
 * and the extension of the output base path, with a numbered fallback when
 * nothing of the sheet name survives.
 */
module XlsToCsv {
  import opened PyStr

  predicate IsSafeChar(c: char) { IsAsciiAlnum(c) || c == '_' }

  /** Each character of the sheet name is kept when it is an ASCII letter or
      digit and replaced by `_` otherwise. */
  function Sanitize(name: string): (r: string)
    ensures |r| == |name|
    ensures forall i :: 0 <= i < |r| ==> IsSafeChar(r[i])
    ensures forall i :: 0 <= i < |r| ==>
              (IsAsciiAlnum(name[i]) ==> r[i] == name[i]) && (!IsAsciiAlnum(name[i]) ==> r[i] == '_')
  {
    if name == [] then []
    else [if IsAsciiAlnum(name[0]) then name[0] else '_'] + Sanitize(name[1..])
  }

  /** `filter(None, pieces)`: the non-empty pieces, in order. */
  function NonEmpty(pieces: seq<string>): (r: seq<string>)
    ensures forall k :: 0 <= k < |r| ==> r[k] != "" && r[k] in pieces
    ensures forall p :: p in pieces && p != "" ==> p in r
    ensures |r| <= |pieces|
    ensures (forall k :: 0 <= k < |pieces| ==> pieces[k] != "") ==> r == pieces
  {
    if pieces == [] then []
    else (if pieces[0] == "" then [] else [pieces[0]]) + NonEmpty(pieces[1..])
  }

  /** The safe sheet name: the sanitised name split on `_`, empty pieces
      dropped, the rest joined with single `_`. */
  function SafeName(name: string): string {
    Join(NonEmpty(Split(Sanitize(name), '_')), "_")
  }

  /** A safe name uses only ASCII letters, digits and `_`, never two `_` in a
      row, and neither begins nor ends with `_`. */
  predicate IsSafeName(s: string) {
    (forall i :: 0 <= i < |s| ==> IsSafeChar(s[i]))
    && (forall i :: 0 <= i < |s| - 1 ==> !(s[i] == '_' && s[i + 1] == '_'))
    && (s == [] || (s[0] != '_' && s[|s| - 1] != '_'))
  }

  /** Pieces that are non-empty and made of ASCII letters and digits. */
  predicate AreRuns(pieces: seq<string>) {
    forall k, j :: 0 <= k < |pieces| && 0 <= j < |pieces[k]| ==> IsAsciiAlnum(pieces[k][j])
  }

  predicate AllNonEmpty(pieces: seq<string>) {
    forall k :: 0 <= k < |pieces| ==> pieces[k] != ""
  }

  /** The pieces the safe name is joined from are non-empty runs of ASCII
      letters and digits. */
  lemma SafePiecesAreRuns(name: string)
    ensures var pieces := NonEmpty(Split(Sanitize(name), '_'));
            AreRuns(pieces) && AllNonEmpty(pieces)
  {
    var s := Sanitize(name);
    var parts := Split(s, '_');
    var pieces := NonEmpty(parts);
    forall k, j | 0 <= k < |pieces| && 0 <= j < |pieces[k]| ensures IsAsciiAlnum(pieces[k][j]) {
      var c := pieces[k][j];
      var k' :| 0 <= k' < |parts| && parts[k'] == pieces[k];
      assert c == parts[k'][j];
      assert c != '_' && c in s;
    }
  }

  /** Joining non-empty runs with `_` gives a safe name. */
  lemma {:induction false} JoinedRunsAreSafe(pieces: seq<string>)
    requires AreRuns(pieces) && AllNonEmpty(pieces)
    ensures IsSafeName(Join(pieces, "_"))
    ensures pieces != [] ==> Join(pieces, "_") != []
  {
    if |pieces| == 1 {
      assert Join(pieces, "_") == pieces[0];
      forall i | 0 <= i < |pieces[0]| ensures IsAsciiAlnum(pieces[0][i]) { }
    } else if |pieces| > 1 {
      var p, rest := pieces[0], Join(pieces[1..], "_");
      assert AreRuns(pieces[1..]) by {
        forall k, j | 0 <= k < |pieces[1..]| && 0 <= j < |pieces[1..][k]|
          ensures IsAsciiAlnum(pieces[1..][k][j])
        {
          assert pieces[1..][k] == pieces[k + 1];
        }
      }
      JoinedRunsAreSafe(pieces[1..]);
      var r := p + "_" + rest;
      assert Join(pieces, "_") == r;
      assert forall i :: 0 <= i < |p| ==> IsAsciiAlnum(p[i]) by {
        forall i | 0 <= i < |p| ensures IsAsciiAlnum(p[i]) { assert p[i] == pieces[0][i]; }
      }
      forall i | 0 <= i < |r| ensures IsSafeChar(r[i]) && (r[i] == '_' ==> i == |p| || i > |p| + 1) {
        if i < |p| { assert r[i] == p[i]; }
        else if i > |p| {
          assert r[i] == rest[i - |p| - 1];
          if i == |p| + 1 { assert rest[0] != '_'; }
        }
      }
      forall i | 0 <= i < |r| - 1 ensures !(r[i] == '_' && r[i + 1] == '_') {
        if i > |p| {
          assert r[i] == rest[i - |p| - 1] && r[i + 1] == rest[i - |p|];
        }
      }
      assert r[|r| - 1] == rest[|rest| - 1];
    }
  }

  /** Every safe name satisfies `IsSafeName`. */
  lemma SafeNameIsSafe(name: string)
    ensures IsSafeName(SafeName(name))
  {
    SafePiecesAreRuns(name);
    JoinedRunsAreSafe(NonEmpty(Split(Sanitize(name), '_')));
  }

  /** Sanitising a string made of letters, digits and `_` changes nothing. */
  lemma SanitizeKeepsSafe(s: string)
    requires forall i :: 0 <= i < |s| ==> IsSafeChar(s[i])
    ensures Sanitize(s) == s
  {
    var r := Sanitize(s);
    assert forall i :: 0 <= i < |s| ==> r[i] == s[i];
  }

  /** A sheet name made only of ASCII letters and digits is its own safe name. */
  lemma AlnumNameUnchanged(name: string)
    requires forall i :: 0 <= i < |name| ==> IsAsciiAlnum(name[i])
    ensures SafeName(name) == name
  {
    SanitizeKeepsSafe(name);
    SplitWithout(name, '_');
  }

  /** Taking the safe name of a safe name changes nothing. */
  lemma SafeNameIdempotent(name: string)
    ensures SafeName(SafeName(name)) == SafeName(name)
  {
    var pieces := NonEmpty(Split(Sanitize(name), '_'));
    var safe := Join(pieces, "_");
    SafePiecesAreRuns(name);
    JoinedRunsAreSafe(pieces);
    SanitizeKeepsSafe(safe);
    if pieces != [] {
      SplitJoin(pieces, '_');
      assert NonEmpty(pieces) == pieces;
    }
  }

  // ---------------------------------------------------------------------
  // Independent description: the maximal runs of letters and digits
  // ---------------------------------------------------------------------

  /** The maximal runs of ASCII letters and digits of `s`, in order, the first
      one continuing the run `current` already begun. */
  function RunsFrom(s: string, current: string): (r: seq<string>)
    requires forall j :: 0 <= j < |current| ==> IsAsciiAlnum(current[j])
    ensures AreRuns(r) && AllNonEmpty(r)
  {
    if s == [] then (if current == "" then [] else [current])
    else if IsAsciiAlnum(s[0]) then RunsFrom(s[1..], current + [s[0]])
    else (if current == "" then [] else [current]) + RunsFrom(s[1..], "")
  }

  /** The maximal runs of ASCII letters and digits of a sheet name. */
  function Runs(name: string): seq<string> {
    RunsFrom(name, "")
  }

  lemma NonEmptyCons(p: string, rest: seq<string>)
    ensures NonEmpty([p] + rest) == (if p == "" then [] else [p]) + NonEmpty(rest)
  {
    assert ([p] + rest)[1..] == rest;
  }

  /** A letter or digit extends the current run. */
  lemma RunsStepAlnum(s: string, current: string)
    requires s != [] && IsAsciiAlnum(s[0])
    ensures current + Sanitize(s) == (current + [s[0]]) + Sanitize(s[1..])
  {
    assert Sanitize(s) == [s[0]] + Sanitize(s[1..]);
  }

  /** A `_` after a run closes it. */
  lemma CloseRun(current: string, t: string)
    requires forall j :: 0 <= j < |current| ==> IsAsciiAlnum(current[j])
    ensures NonEmpty(Split(current + ['_'] + t, '_'))
            == (if current == "" then [] else [current]) + NonEmpty(Split(t, '_'))
  {
    SplitAfterPiece(current, t, '_');
    NonEmptyCons(current, Split(t, '_'));
  }

  /** Any other character closes the current run. */
  lemma RunsStepOther(s: string, current: string)
    requires s != [] && !IsAsciiAlnum(s[0])
    requires forall j :: 0 <= j < |current| ==> IsAsciiAlnum(current[j])
    ensures NonEmpty(Split(current + Sanitize(s), '_'))
            == (if current == "" then [] else [current]) + NonEmpty(Split(Sanitize(s[1..]), '_'))
  {
    var t := Sanitize(s[1..]);
    assert Sanitize(s) == ['_'] + t;
    assert current + Sanitize(s) == current + ['_'] + t;
    CloseRun(current, t);
  }

  lemma {:induction false} RunsFromAreSafePieces(s: string, current: string)
    requires forall j :: 0 <= j < |current| ==> IsAsciiAlnum(current[j])
    ensures RunsFrom(s, current) == NonEmpty(Split(current + Sanitize(s), '_'))
  {
    if s == [] {
      assert current + Sanitize(s) == current;
      SplitWithout(current, '_');
    } else if IsAsciiAlnum(s[0]) {
      RunsFromAreSafePieces(s[1..], current + [s[0]]);
      RunsStepAlnum(s, current);
    } else {
      RunsFromAreSafePieces(s[1..], "");
      assert "" + Sanitize(s[1..]) == Sanitize(s[1..]);
      RunsStepOther(s, current);
    }
  }

  /** The safe name is the maximal runs of ASCII letters and digits of the
      sheet name, in order, joined by single `_`. */
  lemma SafeNameIsJoinedRuns(name: string)
    ensures SafeName(name) == Join(Runs(name), "_")
  {
    RunsFromAreSafePieces(name, "");
    assert "" + Sanitize(name) == Sanitize(name);
  }

  // ---------------------------------------------------------------------
  // Output path
  // ---------------------------------------------------------------------

  /** `os.path.splitext` on a POSIX path: the extension is the text from the
      last `.` of the last path component, unless that component is only dots
      up to there. */
  function SplitExt(p: string): (r: (string, string))
    ensures r.0 + r.1 == p
    ensures r.1 == "" || (r.1[0] == '.' && forall j :: 0 < j < |r.1| ==> r.1[j] != '.' && r.1[j] != '/')
    ensures var s := LastIndexOf(p, '/');
            r.1 != "" ==> s < |r.0| && exists k :: s < k < |r.0| && p[k] != '.'
    ensures var s := LastIndexOf(p, '/');
            r.1 == "" ==> forall k :: s < k < |p| && p[k] == '.' ==> forall j :: s < j < k ==> p[j] == '.'
  {
    var sepIndex := LastIndexOf(p, '/');
    var dotIndex := LastIndexOf(p, '.');
    if dotIndex > sepIndex && exists k :: sepIndex + 1 <= k < dotIndex && p[k] != '.' then
      (p[..dotIndex], p[dotIndex..])
    else (p, "")
  }

  /** `sheet_names.index(name)`: the first position of `name`. */
  function FirstIndex(names: seq<string>, name: string): (i: nat)
    requires name in names
    ensures i < |names| && names[i] == name
    ensures forall j :: 0 <= j < i ==> names[j] != name
  {
    if names[0] == name then 0 else 1 + FirstIndex(names[1..], name)
  }

  /** The part of the file name that comes from the sheet: its safe name, or
      `sheet_` and its first position when the safe name is empty. */
  function SheetPart(names: seq<string>, name: string): (m: string)
    requires name in names
    ensures m != ""
    ensures forall j :: 0 <= j < |m| ==> IsSafeChar(m[j])
    ensures SafeName(name) != "" ==> m == SafeName(name)
    ensures SafeName(name) == "" ==> m == "sheet_" + NatToString(FirstIndex(names, name))
  {
    var safe := SafeName(name);
    if safe != "" then
      SafeNameIsSafe(name);
      safe
    else
      var digits := NatToString(FirstIndex(names, name));
      SheetWordIsSafe();
      SafeAfterWord("sheet_", digits);
      "sheet_" + digits
  }

  lemma SheetWordIsSafe()
    ensures forall j :: 0 <= j < |"sheet_"| ==> IsSafeChar("sheet_"[j])
  {
  }

  lemma SafeAfterWord(w: string, digits: string)
    requires forall j :: 0 <= j < |w| ==> IsSafeChar(w[j])
    requires IsDigits(digits)
    ensures w + digits != ""
    ensures forall j :: 0 <= j < |w + digits| ==> IsSafeChar((w + digits)[j])
  {
    var m := w + digits;
    forall j | 0 <= j < |m| ensures IsSafeChar(m[j]) {
      if j < |w| { assert m[j] == w[j]; } else { assert m[j] == digits[j - |w|]; }
    }
  }

  /** The CSV path of sheet `name` of a workbook whose sheets are `names`,
      for the output base path `outputBase`. */
  function OutputPath(outputBase: string, names: seq<string>, name: string): string
    requires name in names
  {
    var (base, ext) := SplitExt(outputBase);
    var safe := SafeName(name);
    if safe != "" then base + "_" + safe + ext
    else base + "_" + "sheet_" + NatToString(FirstIndex(names, name)) + ext
  }

  /** The output path is the stem of the base path, `_`, the sheet part, and
      the extension of the base path. */
  lemma OutputPathShape(outputBase: string, names: seq<string>, name: string)
    requires name in names
    ensures OutputPath(outputBase, names, name)
            == SplitExt(outputBase).0 + "_" + SheetPart(names, name) + SplitExt(outputBase).1
  {
    var base, ext := SplitExt(outputBase).0, SplitExt(outputBase).1;
    if SafeName(name) == "" {
      var d := NatToString(FirstIndex(names, name));
      assert base + "_" + "sheet_" + d == base + "_" + ("sheet_" + d);
    }
  }

  /** No `.` and no `/`. */
  predicate Plain(t: string) {
    forall j :: 0 <= j < |t| ==> t[j] != '.' && t[j] != '/'
  }

  /** `_` and a sheet part contain no `.` and no `/`. */
  lemma SheetPartIsPlain(m: string)
    requires forall j :: 0 <= j < |m| ==> IsSafeChar(m[j])
    ensures Plain("_" + m)
  {
    var tail := "_" + m;
    forall j | 0 <= j < |tail| ensures tail[j] != '.' && tail[j] != '/' {
      if j > 0 { assert tail[j] == m[j - 1]; }
    }
  }

  /** Text without `.` or `/` put after a path with no extension still gives
      no extension. */
  lemma SplitExtInsertNoExt(p: string, tail: string)
    requires SplitExt(p).1 == ""
    requires Plain(tail)
    ensures SplitExt(p + tail) == (p + tail, "")
  {
    LastIndexOfAppendWithout(p, tail, '/');
    LastIndexOfAppendWithout(p, tail, '.');
    var sepIndex, dotIndex := LastIndexOf(p, '/'), LastIndexOf(p, '.');
    if dotIndex > sepIndex {
      forall k | sepIndex + 1 <= k < dotIndex ensures (p + tail)[k] == p[k] { }
    }
  }

  /** Non-empty text without `.` or `/` put between the stem and the
      extension of a path leaves the extension as it is. */
  lemma SplitExtInsertExt(p: string, tail: string)
    requires SplitExt(p).1 != ""
    requires tail != [] && Plain(tail)
    ensures var (base, ext) := SplitExt(p);
            SplitExt(base + tail + ext) == (base + tail, ext)
  {
    var (base, ext) := SplitExt(p);
    var stem := base + tail;
    var r := stem + ext;
    LastIndexOfAppendWithout(base, tail, '/');
    assert forall j :: 0 <= j < |ext| ==> ext[j] != '/';
    LastIndexOfAppendWithout(stem, ext, '/');
    assert LastIndexOf(ext, '.') == 0;
    LastIndexOfAppendWith(stem, ext, '.');
    assert r[|base|] == tail[0];
    assert r[..|stem|] == stem && r[|stem|..] == ext;
  }

  /** Splitting the output path gives back the extension of the base path:
      the sheet name can add neither a directory nor an extension. */
  lemma OutputPathKeepsExtension(outputBase: string, names: seq<string>, name: string)
    requires name in names
    ensures SplitExt(OutputPath(outputBase, names, name))
            == (SplitExt(outputBase).0 + "_" + SheetPart(names, name), SplitExt(outputBase).1)
  {
    OutputPathShape(outputBase, names, name);
    var base, ext := SplitExt(outputBase).0, SplitExt(outputBase).1;
    var tail := "_" + SheetPart(names, name);
    SheetPartIsPlain(SheetPart(names, name));
    assert base + "_" + SheetPart(names, name) == base + tail;
    if ext == "" {
      assert base == outputBase;
      SplitExtInsertNoExt(outputBase, tail);
    } else {
      SplitExtInsertExt(outputBase, tail);
    }
  }
}
