/** `clean_filename` of the `utf8fix` package: only the first run of control
    characters is replaced, there is no umlaut table and the mode is not
    checked (any mode other than `'ascii'` behaves like `'preserve'`). */
module Utf8fixClean {
  import opened Text
  import opened Nfkd
  import Fs

  /** The replacement for the first run of control characters. */
  const NullToken: string := "withNull"

  /** The index of the first control character of `s`, or `|s|`. */
  function FirstControl(s: string): (i: nat)
    ensures i <= |s|
    ensures NoControls(s[..i])
    ensures i < |s| ==> IsControl(s[i])
  {
    if s == [] then 0
    else if IsControl(s[0]) then 0
    else
      var k := FirstControl(s[1..]);
      assert s[..k + 1] == [s[0]] + s[1..][..k];
      k + 1
  }

  /** The end of the run of control characters that starts at `i`. */
  function RunEnd(s: string, i: nat): (j: nat)
    requires i <= |s|
    ensures i <= j <= |s|
    ensures forall k :: i <= k < j ==> IsControl(s[k])
    ensures j < |s| ==> !IsControl(s[j])
    decreases |s| - i
  {
    if i < |s| && IsControl(s[i]) then RunEnd(s, i + 1) else i
  }

  /** `re.sub(r'[\x00-\x1f]+', 'withNull', s, count=1)`. */
  function ReplaceFirstRun(s: string): string {
    var i := FirstControl(s);
    if i == |s| then s else s[..i] + NullToken + s[RunEnd(s, i)..]
  }

  /** `clean_filename(filename, mode)` for a `str` filename. */
  function CleanFilename(filename: string, mode: string, fold: Fold): (r: string)
    ensures mode == "ascii" ==> AllAscii(r)
    ensures mode != "ascii" && NoControls(filename) ==> r == filename
  {
    var replaced := ReplaceFirstRun(filename);
    if mode == "ascii" then KeepAscii(Decompose(fold, replaced)) else replaced
  }

  /** `lambda name: clean_filename(name, mode)`. */
  function Cleaner(mode: string, fold: Fold): string -> string {
    name => CleanFilename(name, mode, fold)
  }

  // ---------------------------------------------------------------------------
  // Runs of control characters

  /** The number of maximal runs of control characters in `s`, counted by the
      character that ends each run. */
  function ControlRuns(s: string): nat {
    if s == [] then 0
    else (if IsControl(s[0]) && (|s| == 1 || !IsControl(s[1])) then 1 else 0) + ControlRuns(s[1..])
  }

  /** Runs add up across a seam that does not join two of them. */
  lemma {:induction false} ControlRunsConcat(a: string, b: string)
    requires a == [] || b == [] || !IsControl(a[|a| - 1]) || !IsControl(b[0])
    ensures ControlRuns(a + b) == ControlRuns(a) + ControlRuns(b)
  {
    if a == [] {
      assert a + b == b;
    } else {
      assert (a + b)[1..] == a[1..] + b;
      ControlRunsConcat(a[1..], b);
    }
  }

  lemma {:induction false} ControlRunsNone(s: string)
    requires NoControls(s)
    ensures ControlRuns(s) == 0
  {
    if s != [] { ControlRunsNone(s[1..]); }
  }

  lemma {:induction false} ControlRunsOne(s: string)
    requires s != [] && forall k :: 0 <= k < |s| ==> IsControl(s[k])
    ensures ControlRuns(s) == 1
  {
    if |s| > 1 { ControlRunsOne(s[1..]); }
  }

  /** What `count=1` means: in `a + run + b`, where `a` has no control
      character, `run` is a non-empty run of them and `b` does not continue it,
      only `run` is replaced. */
  lemma FirstRunOnly(a: string, run: string, b: string)
    requires NoControls(a)
    requires run != [] && forall k :: 0 <= k < |run| ==> IsControl(run[k])
    requires b == [] || !IsControl(b[0])
    ensures ReplaceFirstRun(a + run + b) == a + NullToken + b
  {
    var s := a + run + b;
    var i := FirstControl(s);
    assert s[|a|] == run[0];
    assert i == |a|;
    var j := RunEnd(s, i);
    assert forall k :: |a| <= k < |a| + |run| ==> s[k] == run[k - |a|];
    assert b != [] ==> s[|a| + |run|] == b[0];
    assert j == |a| + |run|;
    assert s[..i] == a && s[j..] == b;
  }

  /** The runs of `a + run + b` when `run` is a whole run. */
  lemma RunsAround(a: string, run: string, b: string)
    requires a == [] || !IsControl(a[|a| - 1])
    requires run != [] && forall k :: 0 <= k < |run| ==> IsControl(run[k])
    requires b == [] || !IsControl(b[0])
    ensures ControlRuns(a + run + b) == ControlRuns(a) + 1 + ControlRuns(b)
  {
    ControlRunsOne(run);
    ControlRunsConcat(run, b);
    ControlRunsConcat(a, run + b);
    assert a + run + b == a + (run + b);
  }

  /** The runs of `a + NullToken + b`. */
  lemma RunsAroundToken(a: string, b: string)
    ensures ControlRuns(a + NullToken + b) == ControlRuns(a) + ControlRuns(b)
  {
    assert NoControls(NullToken);
    ControlRunsNone(NullToken);
    ControlRunsConcat(NullToken, b);
    ControlRunsConcat(a, NullToken + b);
    assert a + NullToken + b == a + (NullToken + b);
  }

  /** Each call removes exactly one run of control characters when there is one. */
  lemma ReplaceFirstRunCount(s: string)
    requires !NoControls(s)
    ensures ControlRuns(ReplaceFirstRun(s)) == ControlRuns(s) - 1
  {
    var i := FirstControl(s);
    var j := RunEnd(s, i);
    var a, run, b := s[..i], s[i..j], s[j..];
    assert s == a + run + b;
    assert forall k :: 0 <= k < |run| ==> run[k] == s[i + k];
    assert b != [] ==> b[0] == s[j];
    FirstRunOnly(a, run, b);
    RunsAround(a, run, b);
    RunsAroundToken(a, b);
  }

  /** Outside ascii mode the cleaner is not idempotent on a name with two or
      more runs: the second call removes another run. */
  lemma NotIdempotent(s: string, mode: string, fold: Fold)
    requires mode != "ascii" && ControlRuns(s) >= 2
    ensures CleanFilename(CleanFilename(s, mode, fold), mode, fold) != CleanFilename(s, mode, fold)
  {
    if NoControls(s) { ControlRunsNone(s); }
    ReplaceFirstRunCount(s);
    var r := ReplaceFirstRun(s);
    if NoControls(r) { ControlRunsNone(r); }
    ReplaceFirstRunCount(r);
  }

  /** A name without control characters is left alone by the first step. */
  lemma ReplaceFirstRunNone(s: string)
    requires NoControls(s)
    ensures ReplaceFirstRun(s) == s
  {
  }

  /** In ascii mode a control-free name with one non-ASCII character keeps
      everything but that character, which is replaced by its decomposition. */
  lemma OneFolded(pre: string, c: char, post: string, fold: Fold)
    requires FoldOk(fold) && AllAscii(pre) && AllAscii(post) && AllAscii(fold(c))
    requires NoControls(pre + [c] + post)
    ensures CleanFilename(pre + [c] + post, "ascii", fold) == pre + fold(c) + post
  {
    ReplaceFirstRunNone(pre + [c] + post);
    DecomposeOne(fold, pre, c, post);
    AllAsciiConcat(pre, fold(c));
    AllAsciiConcat(pre + fold(c), post);
    assert KeepAscii(pre + fold(c) + post) == pre + fold(c) + post;
  }

  /** With no umlaut table an umlaut goes through the decomposition:
      `"m\u00fcnchen.doc"` becomes `"munchen.doc"`. */
  lemma MunchenExample(fold: Fold)
    requires FoldOk(fold) && fold('\U{FC}') == "u"
    ensures CleanFilename("m\U{FC}nchen.doc", "ascii", fold) == "munchen.doc"
  {
    var pre, post := "m", "nchen.doc";
    assert "m\U{FC}nchen.doc" == pre + ['\U{FC}'] + post;
    assert "munchen.doc" == pre + "u" + post;
    OneFolded(pre, '\U{FC}', post, fold);
  }

  /** The same for a fold that meets `FoldOk`. */
  lemma MunchenSample()
    ensures CleanFilename("m\U{FC}nchen.doc", "ascii", SampleFold) == "munchen.doc"
  {
    SampleFoldOk();
    MunchenExample(SampleFold);
  }

  /** Only the first run goes: in `a + [x] + b` with a control character `x`
      that starts the first run, whatever follows the run is kept as it is,
      later control characters included (so `"file\x00with\x1fnull.txt"`
      becomes `"filewithNullwith\x1fnull.txt"`). */
  lemma LaterRunsKept(a: string, x: char, b: string, mode: string, fold: Fold)
    requires mode != "ascii" && NoControls(a) && IsControl(x)
    requires b == [] || !IsControl(b[0])
    ensures CleanFilename(a + [x] + b, mode, fold) == a + NullToken + b
  {
    FirstRunOnly(a, [x], b);
  }

  // ---------------------------------------------------------------------------
  // Cleaned names stay in their directory, except through NFKD

  /** Every name a directory can hold cleans to one that, joined to the
      directory, stays in it: no slash and not `..`. */
  ghost predicate CleanStaysIn(mode: string, fold: Fold) {
    forall n :: Fs.PlainName(n) ==> Fs.StaysIn(CleanFilename(n, mode, fold))
  }

  /** The replacement of the first control run keeps a name without a
      slash, other than `..`, so. */
  lemma ReplaceStaysIn(name: string)
    requires Fs.StaysIn(name)
    ensures Fs.StaysIn(ReplaceFirstRun(name))
  {
    var i := FirstControl(name);
    if i < |name| {
      var j := RunEnd(name, i);
      var r := name[..i] + NullToken + name[j..];
      assert forall k :: 0 <= k < |r| ==> r[k] == (if k < i then name[k] else if k < i + |NullToken| then NullToken[k - i] else name[k - i - |NullToken| + j]);
      assert |r| >= |NullToken|;
    }
  }

  /** Outside ascii mode the hypothesis holds whatever `fold` is. */
  lemma CleanStaysInUnlessAscii(mode: string, fold: Fold)
    requires mode != "ascii"
    ensures CleanStaysIn(mode, fold)
  {
    forall n | Fs.PlainName(n)
      ensures Fs.StaysIn(CleanFilename(n, mode, fold))
    {
      ReplaceStaysIn(n);
    }
  }
}
