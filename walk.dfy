/** `os.walk(top)` over the file system model: one step per directory below
    `top` (inclusive), with that directory's subdirectory and file names, in
    the order `os.walk` yields them. Listing order within a directory is
    whatever the file system gives. */
module Walk {
  import opened Fs

  /** One `(root, dirs, files)` triple. */
  datatype Step = Step(root: Path, dirs: seq<string>, files: seq<string>)

  /** `s` lists the directory `s.root` exactly: each subdirectory and each
      file once. */
  predicate Listed(e: map<Path, Node>, s: Step) {
    && s.root in e && e[s.root].Dir?
    && Distinct(s.dirs) && (set n | n in s.dirs) == DirNames(e, s.root)
    && Distinct(s.files) && (set n | n in s.files) == FileNames(e, s.root)
  }

  /** The directories at or below `top`. */
  function DirsAt(e: map<Path, Node>, top: Path): set<Path> {
    set p | p in e && IsPrefix(top, p) && e[p].Dir?
  }

  /** The entries at or below `top`. */
  function Subtree(e: map<Path, Node>, top: Path): set<Path> {
    set p | p in e && IsPrefix(top, p)
  }

  function Roots(w: seq<Step>): set<Path> {
    set k | 0 <= k < |w| :: w[k].root
  }

  /** `w` lists every directory at or below `top` exactly once. */
  ghost predicate IsWalk(e: map<Path, Node>, top: Path, w: seq<Step>) {
    && AllListed(e, w)
    && Roots(w) == DirsAt(e, top)
  }

  /** `topdown=False`: a directory comes after everything below it. */
  ghost predicate BottomUp(w: seq<Step>) {
    forall i, j :: 0 <= i < j < |w| ==> !IsPrefix(w[i].root, w[j].root)
  }

  /** `topdown=True`: a directory comes before everything below it. */
  ghost predicate TopDown(w: seq<Step>) {
    forall i, j :: 0 <= i < j < |w| ==> !IsPrefix(w[j].root, w[i].root)
  }

  /** `os.walk(top, topdown=False)`. */
  method WalkBottomUp(e: map<Path, Node>, top: Path) returns (w: seq<Step>)
    requires Tree(e)
    ensures IsWalk(e, top, w) && BottomUp(w)
    decreases Subtree(e, top)
  {
    if top !in e || e[top].File? {
      DirsAtEmpty(e, top);
      return [];
    }
    var dirs := Enumerate(DirNames(e, top));
    var files := Enumerate(FileNames(e, top));
    w := [];
    for i := 0 to |dirs|
      invariant AllListed(e, w) && BottomUp(w)
      invariant Roots(w) == DirsUnder(e, top, dirs[..i])
    {
      SubtreeShrinks(e, top, dirs[i]);
      var sub := WalkBottomUp(e, top + [dirs[i]]);
      ExtendBottomUp(e, top, dirs, i, w, sub);
      w := w + sub;
    }
    FinishBottomUp(e, top, dirs, files, w);
    w := w + [Step(top, dirs, files)];
  }

  /** `os.walk(top, topdown=True)`, with `dirs` left as listed. */
  method WalkTopDown(e: map<Path, Node>, top: Path) returns (w: seq<Step>)
    requires Tree(e)
    ensures IsWalk(e, top, w) && TopDown(w)
    decreases Subtree(e, top)
  {
    if top !in e || e[top].File? {
      DirsAtEmpty(e, top);
      return [];
    }
    var dirs := Enumerate(DirNames(e, top));
    var files := Enumerate(FileNames(e, top));
    w := [Step(top, dirs, files)];
    StartTopDown(e, top, dirs, files);
    for i := 0 to |dirs|
      invariant AllListed(e, w) && TopDown(w)
      invariant Roots(w) == {top} + DirsUnder(e, top, dirs[..i])
    {
      SubtreeShrinks(e, top, dirs[i]);
      var sub := WalkTopDown(e, top + [dirs[i]]);
      ExtendTopDown(e, top, dirs, i, w, sub);
      w := w + sub;
    }
    assert dirs[..|dirs|] == dirs;
    DirsAtSplit(e, top, dirs);
  }

  predicate AllListed(e: map<Path, Node>, w: seq<Step>) {
    forall k :: 0 <= k < |w| ==> Listed(e, w[k])
  }

  lemma ListedConcat(e: map<Path, Node>, a: seq<Step>, b: seq<Step>)
    requires AllListed(e, a) && AllListed(e, b)
    ensures AllListed(e, a + b)
  {
    forall k | 0 <= k < |a + b|
      ensures Listed(e, (a + b)[k])
    {
      if k < |a| {
        assert (a + b)[k] == a[k];
      } else {
        assert (a + b)[k] == b[k - |a|];
      }
    }
  }

  /** One more subdirectory's bottom-up walk appended to those before it. */
  lemma ExtendBottomUp(e: map<Path, Node>, top: Path, dirs: seq<string>, i: nat, w: seq<Step>, sub: seq<Step>)
    requires i < |dirs| && Distinct(dirs)
    requires AllListed(e, w) && BottomUp(w) && Roots(w) == DirsUnder(e, top, dirs[..i])
    requires IsWalk(e, top + [dirs[i]], sub) && BottomUp(sub)
    ensures AllListed(e, w + sub) && BottomUp(w + sub)
    ensures Roots(w + sub) == DirsUnder(e, top, dirs[..i + 1])
  {
    assert dirs[i] !in dirs[..i];
    SiblingsApart(w, sub, top, dirs[..i], dirs[i], e);
    ConcatBottomUp(w, sub);
    DirsUnderStep(e, top, dirs, i);
    RootsConcat(w, sub);
    ListedConcat(e, w, sub);
  }

  /** The same for the top-down walk, which starts with `top`'s own step. */
  lemma ExtendTopDown(e: map<Path, Node>, top: Path, dirs: seq<string>, i: nat, w: seq<Step>, sub: seq<Step>)
    requires i < |dirs| && Distinct(dirs)
    requires AllListed(e, w) && TopDown(w) && Roots(w) == {top} + DirsUnder(e, top, dirs[..i])
    requires IsWalk(e, top + [dirs[i]], sub) && TopDown(sub)
    ensures AllListed(e, w + sub) && TopDown(w + sub)
    ensures Roots(w + sub) == {top} + DirsUnder(e, top, dirs[..i + 1])
  {
    assert dirs[i] !in dirs[..i];
    forall a, b | a in Roots(w) && b in Roots(sub)
      ensures !IsPrefix(b, a)
    {
      if a != top {
        SiblingApart(e, top, dirs[..i], dirs[i], a, b);
      }
    }
    ConcatTopDown(w, sub);
    DirsUnderStep(e, top, dirs, i);
    RootsConcat(w, sub);
    ListedConcat(e, w, sub);
  }

  /** The bottom-up walk ends with `top`'s own step. */
  lemma FinishBottomUp(e: map<Path, Node>, top: Path, dirs: seq<string>, files: seq<string>, w: seq<Step>)
    requires Tree(e) && top in e && e[top].Dir?
    requires Distinct(dirs) && (set n | n in dirs) == DirNames(e, top)
    requires Distinct(files) && (set n | n in files) == FileNames(e, top)
    requires AllListed(e, w) && BottomUp(w) && Roots(w) == DirsUnder(e, top, dirs[..|dirs|])
    ensures IsWalk(e, top, w + [Step(top, dirs, files)]) && BottomUp(w + [Step(top, dirs, files)])
  {
    var s := Step(top, dirs, files);
    assert dirs[..|dirs|] == dirs;
    DirsAtSplit(e, top, dirs);
    RootsConcat(w, [s]);
    assert [s][0].root == top;
    assert Roots([s]) == {top};
    ListedConcat(e, w, [s]);
    forall i, j | 0 <= i < j < |w| + 1
      ensures !IsPrefix((w + [s])[i].root, (w + [s])[j].root)
    {
      if j == |w| {
        assert (w + [s])[i].root == w[i].root && w[i].root in Roots(w);
      } else {
        assert (w + [s])[i] == w[i] && (w + [s])[j] == w[j];
      }
    }
  }

  /** The top-down walk starts with `top`'s own step. */
  lemma StartTopDown(e: map<Path, Node>, top: Path, dirs: seq<string>, files: seq<string>)
    requires top in e && e[top].Dir?
    requires Distinct(dirs) && (set n | n in dirs) == DirNames(e, top)
    requires Distinct(files) && (set n | n in files) == FileNames(e, top)
    ensures AllListed(e, [Step(top, dirs, files)]) && TopDown([Step(top, dirs, files)])
    ensures Roots([Step(top, dirs, files)]) == {top} + DirsUnder(e, top, dirs[..0])
  {
    assert dirs[..0] == [] && DirsUnder(e, top, []) == {};
    assert [Step(top, dirs, files)][0].root == top;
  }

  /** Every entry below `top` is listed, under its own kind, in the step of
      its parent directory. */
  lemma WalkCovers(e: map<Path, Node>, top: Path, w: seq<Step>, p: Path) returns (k: nat)
    requires Tree(e) && IsWalk(e, top, w) && p in e && Below(top, p)
    ensures k < |w| && w[k].root == Parent(p)
    ensures e[p].Dir? ==> Last(p) in w[k].dirs
    ensures e[p].File? ==> Last(p) in w[k].files
  {
    var pp := Parent(p);
    ParentBelow(e, top, p);
    assert pp in Roots(w);
    k :| 0 <= k < |w| && w[k].root == pp;
    ChildListed(e, p);
  }

  /** The parent of an entry below `top` is a directory at or below `top`. */
  lemma ParentBelow(e: map<Path, Node>, top: Path, p: Path)
    requires Tree(e) && p in e && Below(top, p)
    ensures Parent(p) in DirsAt(e, top)
  {
    assert Parent(p)[..|top|] == top;
  }

  /** An entry's name is among its parent's names of its kind. */
  lemma ChildListed(e: map<Path, Node>, p: Path)
    requires p in e && p != []
    ensures e[p].Dir? ==> Last(p) in DirNames(e, Parent(p))
    ensures e[p].File? ==> Last(p) in FileNames(e, Parent(p))
  {
    assert p[..|Parent(p)|] == Parent(p);
  }

  /** A listed name is an entry of that kind inside the step's root. */
  lemma ListedEntry(e: map<Path, Node>, s: Step, n: string)
    requires Tree(e) && Listed(e, s) && (n in s.dirs || n in s.files)
    ensures s.root + [n] in e && PlainName(n)
    ensures n in s.dirs ==> e[s.root + [n]].Dir?
    ensures n in s.files ==> e[s.root + [n]].File?
  {
    if n in s.dirs {
      assert n in DirNames(e, s.root);
      DirNameEntry(e, s.root, n);
    }
    if n in s.files {
      assert n in FileNames(e, s.root);
      FileNameEntry(e, s.root, n);
    }
  }

  /** Every step's root lies at or below `top` and every name it lists is
      plain. */
  ghost predicate WellListed(w: seq<Step>, top: Path) {
    forall k :: 0 <= k < |w| ==>
      && IsPrefix(top, w[k].root)
      && (forall n :: n in w[k].files ==> PlainName(n))
      && (forall n :: n in w[k].dirs ==> PlainName(n))
  }

  lemma WellListedRest(w: seq<Step>, top: Path)
    requires w != [] && WellListed(w, top)
    ensures WellListed(w[1..], top)
  {
    forall k | 0 <= k < |w[1..]|
      ensures IsPrefix(top, w[1..][k].root)
      ensures forall n :: n in w[1..][k].files ==> PlainName(n)
      ensures forall n :: n in w[1..][k].dirs ==> PlainName(n)
    {
      assert w[1..][k] == w[k + 1];
    }
  }

  lemma WalkWellListed(e: map<Path, Node>, top: Path, w: seq<Step>)
    requires Tree(e) && IsWalk(e, top, w)
    ensures WellListed(w, top)
  {
    forall k | 0 <= k < |w|
      ensures IsPrefix(top, w[k].root)
      ensures forall n :: n in w[k].files ==> PlainName(n)
      ensures forall n :: n in w[k].dirs ==> PlainName(n)
    {
      assert w[k].root in Roots(w);
      forall n | n in w[k].files || n in w[k].dirs
        ensures PlainName(n)
      {
        ListedEntry(e, w[k], n);
      }
    }
  }

  /** Some step lists a name exactly when something lies below `top`. */
  lemma WalkListsSomething(e: map<Path, Node>, top: Path, w: seq<Step>)
    requires Tree(e) && IsWalk(e, top, w)
    ensures (exists k :: 0 <= k < |w| && (w[k].files != [] || w[k].dirs != []))
        <==> (exists p :: p in e && Below(top, p))
  {
    if k :| 0 <= k < |w| && (w[k].files != [] || w[k].dirs != []) {
      var n := if w[k].files != [] then w[k].files[0] else w[k].dirs[0];
      assert w[k].root in Roots(w);
      ListedEntry(e, w[k], n);
      var p := w[k].root + [n];
      assert p[..|top|] == w[k].root[..|top|];
      assert Below(top, p);
    }
    if p :| p in e && Below(top, p) {
      var k := WalkCovers(e, top, w, p);
    }
  }

  // ---------------------------------------------------------------------------
  // Helpers for the two walks

  /** The directories below the listed subdirectories `names` of `top`. */
  function DirsUnder(e: map<Path, Node>, top: Path, names: seq<string>): set<Path> {
    set p | p in e && e[p].Dir? && |p| > |top| && p[..|top|] == top && p[|top|] in names
  }

  lemma DirsAtEmpty(e: map<Path, Node>, top: Path)
    requires Tree(e) && (top !in e || e[top].File?)
    ensures DirsAt(e, top) == {}
  {
    forall p | p in e && IsPrefix(top, p)
      ensures !e[p].Dir?
    {
      if p != top {
        NothingBelow(e, top, p);
      }
    }
  }

  lemma SubtreeShrinks(e: map<Path, Node>, top: Path, c: string)
    requires top in e
    ensures Subtree(e, top + [c]) < Subtree(e, top)
  {
    forall p | p in Subtree(e, top + [c])
      ensures p in Subtree(e, top)
    {
      assert p[..|top|] == (top + [c])[..|top|];
    }
    assert top !in Subtree(e, top + [c]);
  }

  lemma DirsUnderStep(e: map<Path, Node>, top: Path, dirs: seq<string>, i: nat)
    requires i < |dirs|
    ensures DirsUnder(e, top, dirs[..i + 1]) == DirsUnder(e, top, dirs[..i]) + DirsAt(e, top + [dirs[i]])
  {
    assert dirs[..i + 1] == dirs[..i] + [dirs[i]];
    forall p | p in DirsAt(e, top + [dirs[i]])
      ensures p in DirsUnder(e, top, dirs[..i + 1])
    {
      assert p[..|top|] == (top + [dirs[i]])[..|top|];
      assert p[|top|] == dirs[i];
    }
    forall p | p in DirsUnder(e, top, dirs[..i + 1]) && p[|top|] == dirs[i]
      ensures p in DirsAt(e, top + [dirs[i]])
    {
      assert p[..|top| + 1] == top + [dirs[i]];
    }
  }

  /** Everything below `top` is a listed subdirectory or below one. */
  lemma DirsAtSplit(e: map<Path, Node>, top: Path, dirs: seq<string>)
    requires Tree(e) && top in e && e[top].Dir?
    requires (set n | n in dirs) == DirNames(e, top)
    ensures DirsAt(e, top) == {top} + DirsUnder(e, top, dirs)
  {
    forall p | p in DirsAt(e, top) && p != top
      ensures p in DirsUnder(e, top, dirs)
    {
      var c := p[..|top| + 1];
      if |p| > |top| + 1 {
        AncestorIsDir(e, p, |top| + 1);
      } else {
        assert c == p;
      }
      assert c[..|top|] == top && c[|top|] == p[|top|];
      assert p[|top|] in DirNames(e, top);
    }
  }

  lemma RootsConcat(a: seq<Step>, b: seq<Step>)
    ensures Roots(a + b) == Roots(a) + Roots(b)
  {
    forall r | r in Roots(b)
      ensures r in Roots(a + b)
    {
      var k :| 0 <= k < |b| && b[k].root == r;
      assert (a + b)[|a| + k] == b[k];
    }
    forall r | r in Roots(a)
      ensures r in Roots(a + b)
    {
      var k :| 0 <= k < |a| && a[k].root == r;
      assert (a + b)[k] == a[k];
    }
  }

  /** Paths below two different children of `top` are not nested. */
  lemma SiblingApart(e: map<Path, Node>, top: Path, done: seq<string>, c: string, a: Path, b: Path)
    requires c !in done
    requires a in DirsUnder(e, top, done)
    requires IsPrefix(top + [c], b)
    ensures !IsPrefix(a, b) && !IsPrefix(b, a)
  {
    assert b[|top|] == c;
    assert a[|top|] in done;
  }

  lemma SiblingsApart(w: seq<Step>, sub: seq<Step>, top: Path, done: seq<string>, c: string, e: map<Path, Node>)
    requires c !in done
    requires Roots(w) == DirsUnder(e, top, done)
    requires Roots(sub) == DirsAt(e, top + [c])
    ensures forall a, b :: a in Roots(w) && b in Roots(sub) ==> !IsPrefix(a, b)
  {
    forall a, b | a in Roots(w) && b in Roots(sub)
      ensures !IsPrefix(a, b)
    {
      SiblingApart(e, top, done, c, a, b);
    }
  }

  lemma ConcatBottomUp(a: seq<Step>, b: seq<Step>)
    requires BottomUp(a) && BottomUp(b)
    requires forall x, y :: x in Roots(a) && y in Roots(b) ==> !IsPrefix(x, y)
    ensures BottomUp(a + b)
  {
    forall i, j | 0 <= i < j < |a + b|
      ensures !IsPrefix((a + b)[i].root, (a + b)[j].root)
    {
      if j < |a| {
        assert (a + b)[i] == a[i] && (a + b)[j] == a[j];
      } else if i >= |a| {
        assert (a + b)[i] == b[i - |a|] && (a + b)[j] == b[j - |a|];
      } else {
        assert (a + b)[i] == a[i] && (a + b)[j] == b[j - |a|];
        assert a[i].root in Roots(a) && b[j - |a|].root in Roots(b);
      }
    }
  }

  lemma ConcatTopDown(a: seq<Step>, b: seq<Step>)
    requires TopDown(a) && TopDown(b)
    requires forall x, y :: x in Roots(a) && y in Roots(b) ==> !IsPrefix(y, x)
    ensures TopDown(a + b)
  {
    forall i, j | 0 <= i < j < |a + b|
      ensures !IsPrefix((a + b)[j].root, (a + b)[i].root)
    {
      if j < |a| {
        assert (a + b)[i] == a[i] && (a + b)[j] == a[j];
      } else if i >= |a| {
        assert (a + b)[i] == b[i - |a|] && (a + b)[j] == b[j - |a|];
      } else {
        assert (a + b)[i] == a[i] && (a + b)[j] == b[j - |a|];
        assert a[i].root in Roots(a) && b[j - |a|].root in Roots(b);
      }
    }
  }
}
