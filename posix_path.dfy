/** `os.path.splitext` on POSIX (`posixpath.splitext`): split a name at its last
    dot, where the dots leading the final path component do not count. */
module PosixPath {
  import Text

  /** `s.rfind(c)`: the index of the last `c` in `s`, or -1. */
  function RFind(s: string, c: char): (i: int)
    ensures -1 <= i < |s|
    ensures i >= 0 ==> s[i] == c
    ensures forall k :: i < k < |s| ==> s[k] != c
  {
    if s == [] then -1
    else if s[|s| - 1] == c then |s| - 1
    else RFind(s[..|s| - 1], c)
  }

  /** The final component of a slash-separated string. */
  function Basename(s: string): string {
    s[RFind(s, '/') + 1..]
  }

  predicate AllDots(s: string) {
    forall i :: 0 <= i < |s| ==> s[i] == '.'
  }

  /** `p[k..]` is an extension of `p`: it starts with the dot at `k`, has no
      further dot and no slash, and the final component before it is not made
      of dots alone. */
  predicate ExtStart(p: string, k: int) {
    && 0 <= k < |p|
    && p[k] == '.'
    && (forall j :: k < j < |p| ==> p[j] != '.' && p[j] != '/')
    && !AllDots(Basename(p[..k]))
  }

  /** `os.path.splitext(p)` as `(root, ext)`. */
  function SplitExt(p: string): (r: (string, string))
    ensures r.0 + r.1 == p
  {
    var sep := RFind(p, '/');
    var dot := RFind(p, '.');
    if dot > sep && !AllDots(p[sep + 1..dot]) then (p[..dot], p[dot..]) else (p, "")
  }

  /** `splitext` splits exactly at the one dot where an extension starts, and
      leaves the name whole when there is no such dot. */
  lemma SplitExtSpec(p: string)
    ensures SplitExt(p).1 != [] ==> ExtStart(p, |SplitExt(p).0|)
    ensures SplitExt(p).1 == [] ==> forall k :: 0 <= k < |p| ==> !ExtStart(p, k)
  {
    var sep := RFind(p, '/');
    var dot := RFind(p, '.');
    if dot > sep {
      RFindPrefix(p, '/', dot);
      assert Basename(p[..dot]) == p[sep + 1..dot];
    }
    forall k | 0 <= k < |p| && ExtStart(p, k) ensures k == dot && sep < dot {
      OnlyLastDotStarts(p, k);
    }
  }

  /** An extension can only start at the last dot, after the last slash. */
  lemma OnlyLastDotStarts(p: string, k: int)
    requires ExtStart(p, k)
    ensures k == RFind(p, '.') && RFind(p, '/') < k
  {
  }

  /** The last `c` of `p` is also the last `c` of any prefix that contains it. */
  lemma RFindPrefix(p: string, c: char, k: int)
    requires RFind(p, c) < k <= |p|
    ensures RFind(p[..k], c) == RFind(p, c)
  {
  }

  /** The name `{base}-{n}{ext}` that the collision search tries for counter `n`. */
  function Suffixed(base: string, n: nat, ext: string): string {
    base + "-" + Text.Decimal(n) + ext
  }

  /** Different counters give different names, each longer than `base + ext`. */
  lemma SuffixedInjective(base: string, ext: string, m: nat, n: nat)
    ensures Suffixed(base, m, ext) == Suffixed(base, n, ext) <==> m == n
    ensures |Suffixed(base, n, ext)| > |base + ext|
  {
    var dm, dn := Text.Decimal(m), Text.Decimal(n);
    if Suffixed(base, m, ext) == Suffixed(base, n, ext) {
      assert |dm| == |dn|;
      var k := |base| + 1;
      assert Suffixed(base, m, ext)[k..k + |dm|] == dm;
      assert Suffixed(base, n, ext)[k..k + |dn|] == dn;
      Text.DecimalInjective(m, n);
    }
  }

  /** Wherever an extension starts, `splitext` splits there. */
  lemma SplitExtAt(p: string, k: int)
    requires ExtStart(p, k)
    ensures SplitExt(p) == (p[..k], p[k..])
  {
    SplitExtSpec(p);
    OnlyLastDotStarts(p, k);
    OnlyLastDotStarts(p, |SplitExt(p).0|);
  }

  /** A name with no extension start is its own root. */
  lemma SplitExtNone(p: string)
    requires forall k :: 0 <= k < |p| ==> !ExtStart(p, k)
    ensures SplitExt(p) == (p, "")
  {
    SplitExtSpec(p);
  }

  /** A basename that ends in a non-dot character is not all dots. */
  lemma BasenameNotAllDots(s: string)
    requires s != [] && s[|s| - 1] != '.' && s[|s| - 1] != '/'
    ensures !AllDots(Basename(s))
  {
    var b := Basename(s);
    assert b[|b| - 1] == s[|s| - 1];
  }

  /** The collision candidate `{base}-{n}{ext}` built from `splitext(name)` has
      the same extension as `name`: the counter goes in front of the extension. */
  lemma SuffixedKeepsExt(name: string, n: nat)
    ensures SplitExt(Suffixed(SplitExt(name).0, n, SplitExt(name).1))
            == (SplitExt(name).0 + "-" + Text.Decimal(n), SplitExt(name).1)
  {
    var (base, ext) := SplitExt(name);
    var tail := "-" + Text.Decimal(n);
    assert Suffixed(base, n, ext) == base + tail + ext;
    assert base + "-" + Text.Decimal(n) == base + tail;
    DashDigitsPlain(n);
    SplitExtSpec(name);
    if ext == [] {
      SuffixNoExt(base, tail);
    } else {
      SuffixBeforeExt(base, tail, ext);
    }
  }

  /** `"-"` followed by decimal digits holds no dot and no slash and ends in
      neither. */
  lemma DashDigitsPlain(n: nat)
    ensures var tail := "-" + Text.Decimal(n);
      && tail != [] && tail[|tail| - 1] != '.' && tail[|tail| - 1] != '/'
      && forall j :: 0 <= j < |tail| ==> tail[j] != '.' && tail[j] != '/'
  {
    var digits := Text.Decimal(n);
    assert forall j :: 0 <= j < |digits| ==> digits[j] != '.' && digits[j] != '/';
  }

  lemma SuffixNoExt(base: string, tail: string)
    requires forall k :: 0 <= k < |base| ==> !ExtStart(base, k)
    requires forall j :: 0 <= j < |tail| ==> tail[j] != '.' && tail[j] != '/'
    ensures SplitExt(base + tail + []) == (base + tail, [])
  {
    NoExtAppended(base, tail);
    assert base + tail + [] == base + tail;
    SplitExtNone(base + tail);
  }

  lemma SuffixBeforeExt(base: string, tail: string, ext: string)
    requires ext != [] && ExtStart(base + ext, |base|)
    requires tail != [] && tail[|tail| - 1] != '.' && tail[|tail| - 1] != '/'
    ensures SplitExt(base + tail + ext) == (base + tail, ext)
  {
    var stem := base + tail;
    var q := stem + ext;
    BasenameNotAllDots(stem);
    assert q[..|stem|] == stem;
    assert forall j :: |stem| < j < |q| ==> q[j] == (base + ext)[j - |tail|];
    assert ExtStart(q, |stem|);
    SplitExtAt(q, |stem|);
  }

  /** Appending text free of dots and slashes to a name without an extension
      makes no extension. */
  lemma NoExtAppended(name: string, tail: string)
    requires forall k :: 0 <= k < |name| ==> !ExtStart(name, k)
    requires forall j :: 0 <= j < |tail| ==> tail[j] != '.' && tail[j] != '/'
    ensures forall k :: 0 <= k < |name + tail| ==> !ExtStart(name + tail, k)
  {
    var q := name + tail;
    forall k | 0 <= k < |q|
      ensures !ExtStart(q, k)
    {
      if k >= |name| {
        assert q[k] == tail[k - |name|];
      } else {
        ExtStartPrefix(name, tail, k);
      }
    }
  }

  /** A dot that starts the extension of `name + tail` inside `name` starts that of `name`. */
  lemma ExtStartPrefix(name: string, tail: string, k: int)
    requires 0 <= k < |name|
    ensures ExtStart(name + tail, k) ==> ExtStart(name, k)
  {
    var q := name + tail;
    assert q[..k] == name[..k];
    assert forall j :: k < j < |name| ==> name[j] == q[j];
  }

  /** A stem without dots or slashes and a dot-led extension without further
      dots or slashes split apart again. */
  lemma PlainSplit(stem: string, ext: string)
    requires stem != [] && forall j :: 0 <= j < |stem| ==> stem[j] != '.' && stem[j] != '/'
    requires ext != [] && ext[0] == '.' && forall j :: 0 < j < |ext| ==> ext[j] != '.' && ext[j] != '/'
    ensures SplitExt(stem + ext) == (stem, ext)
  {
    var p := stem + ext;
    assert p[..|stem|] == stem;
    BasenameNotAllDots(stem);
    assert ExtStart(p, |stem|);
    SplitExtAt(p, |stem|);
  }
}
