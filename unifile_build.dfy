/** `process_directory` and the per-item step of `process_path` in the copy of
    `unifile` under `build/lib`: a bottom-up walk that renames every entry to
    its cleaned name, moves a file aside to the first free `{base}-{n}{ext}`
    rather than onto an existing path, and merges a directory into an existing
    one of the cleaned name. */
module UnifileBuild {
  import opened Errors
  import opened Fs
  import opened Walk
  import opened Report
  import opened Nfkd
  import UnifileClean
  import PosixPath

  /** The `directory` argument: `None`, the empty string, a path, or some
      other object (truthy or not). */
  datatype DirArg = NoneArg | EmptyStr | PathArg(at: Path) | OtherArg(truthy: bool)

  /** The checks before the walk, in their order: `None`, falsy, missing,
      then read and execute permission (`os.access`, given as `accessOk`). */
  function Validate(directory: DirArg, e: map<Path, Node>, accessOk: bool): (r: Result<Path>)
    ensures r.Ok? <==> directory.PathArg? && directory.at in e && accessOk
    ensures r.Ok? ==> r.value == directory.at
    ensures directory.NoneArg? || directory == OtherArg(true) ==> r == Err(TypeError)
    ensures directory.EmptyStr? || directory == OtherArg(false) ==> r == Err(ValueError)
    ensures directory.PathArg? && directory.at !in e ==> r == Err(ValueError)
    ensures directory.PathArg? && directory.at in e && !accessOk ==> r == Err(PermissionError)
  {
    match directory
    case NoneArg => Err(TypeError)
    case EmptyStr => Err(ValueError)
    case OtherArg(truthy) => if truthy then Err(TypeError) else Err(ValueError)
    case PathArg(p) =>
      if p !in e then Err(ValueError)
      else if !accessOk then Err(PermissionError)
      else Ok(p)
  }

  // ---------------------------------------------------------------------------
  // The suffix search

  /** The extension `os.path.splitext` finds in `name`. */
  function Ext(name: string): string {
    PosixPath.SplitExt(name).1
  }

  /** The part of the stem of `name` after its last slash. */
  function Stem(name: string): string {
    var parts := Split(PosixPath.SplitExt(name).0);
    parts[|parts| - 1]
  }

  /** The directory the suffix search for `name` in `root` tries its paths
      in: `root`, or the directory the parts of `name` before its last slash
      lead to. */
  function SearchDir(root: Path, name: string): Path {
    var base := PosixPath.SplitExt(name).0;
    var parts := Split(base);
    Resolve(if base != [] && base[0] == '/' then [] else root, parts[..|parts| - 1])
  }

  /** The `n`-th path the suffix search tries in `root` for `name`: the name
      itself for 0, else `{base}-{n}{ext}` with `base, ext = splitext(name)`,
      each joined to `root`. */
  function Candidate(root: Path, name: string, n: nat): Path {
    var split := PosixPath.SplitExt(name);
    Join(root, if n == 0 then name else PosixPath.Suffixed(split.0, n, split.1))
  }

  /** An extension holds no slash, and only a name with a stem has one. */
  lemma ExtShape(name: string)
    ensures '/' !in Ext(name)
    ensures Ext(name) != [] ==> PosixPath.SplitExt(name).0 != []
  {
    PosixPath.SplitExtSpec(name);
    var split := PosixPath.SplitExt(name);
    if split.1 != [] {
      var k := |split.0|;
      assert split.1 == name[k..];
      assert forall j :: 0 < j < |split.1| ==> split.1[j] == name[k + j];
      assert split.1[0] == '.';
    }
  }

  /** What the search appends to the stem: `-{n}{ext}`. */
  function Tail(n: nat, ext: string): string {
    "-" + Text.Decimal(n) + ext
  }

  lemma TailShape(n: nat, ext: string)
    requires '/' !in ext
    ensures '/' !in Tail(n, ext) && Tail(n, ext)[0] == '-'
  {
    PosixPath.DashDigitsPlain(n);
    var dash := "-" + Text.Decimal(n);
    assert forall j :: 0 <= j < |Tail(n, ext)| ==> Tail(n, ext)[j] == (if j < |dash| then dash[j] else ext[j - |dash|]);
  }

  /** The parts of a suffixed name: those of the stem, its last one with the
      tail appended. */
  lemma SplitSuffixed(name: string, n: nat)
    requires n >= 1
    ensures var parts := Split(PosixPath.SplitExt(name).0);
      Split(PosixPath.Suffixed(PosixPath.SplitExt(name).0, n, Ext(name))) == parts[..|parts| - 1] + [Stem(name) + Tail(n, Ext(name))]
  {
    var base, ext := PosixPath.SplitExt(name).0, Ext(name);
    ExtShape(name);
    TailShape(n, ext);
    assert PosixPath.Suffixed(base, n, ext) == base + Tail(n, ext);
    SplitAppend(base, Tail(n, ext));
  }

  /** A suffixed last part is a plain name. */
  lemma SuffixedPlain(stem: string, n: nat, ext: string)
    requires '/' !in stem && '/' !in ext
    ensures PosixPath.Suffixed(stem, n, ext) == stem + Tail(n, ext)
    ensures PlainName(PosixPath.Suffixed(stem, n, ext))
  {
    TailShape(n, ext);
    var last := stem + Tail(n, ext);
    assert last[|stem|] == '-';
    assert forall j :: 0 <= j < |last| ==> last[j] == (if j < |stem| then stem[j] else Tail(n, ext)[j - |stem|]);
  }

  /** A suffixed name starts with a slash exactly when its stem does. */
  lemma SuffixedAbsolute(name: string, n: nat)
    requires n >= 1
    ensures var base := PosixPath.SplitExt(name).0; var s := PosixPath.Suffixed(base, n, Ext(name));
      (s != [] && s[0] == '/') <==> (base != [] && base[0] == '/')
  {
    var base := PosixPath.SplitExt(name).0;
    assert PosixPath.Suffixed(base, n, Ext(name)) == base + Tail(n, Ext(name));
  }

  /** A suffixed candidate is one plain entry in the search directory. */
  lemma SuffixedCandidate(root: Path, name: string, n: nat)
    requires n >= 1
    ensures PlainName(PosixPath.Suffixed(Stem(name), n, Ext(name)))
    ensures Candidate(root, name, n) == SearchDir(root, name) + [PosixPath.Suffixed(Stem(name), n, Ext(name))]
  {
    var base, ext, stem := PosixPath.SplitExt(name).0, Ext(name), Stem(name);
    var parts := Split(base);
    ExtShape(name);
    SuffixedPlain(stem, n, ext);
    SplitSuffixed(name, n);
    SuffixedAbsolute(name, n);
    ResolveSnoc(if base != [] && base[0] == '/' then [] else root, parts[..|parts| - 1], stem + Tail(n, ext));
  }

  /** The first candidate is the last part of the name, resolved in the
      search directory. */
  lemma FirstCandidate(root: Path, name: string)
    ensures Candidate(root, name, 0) == Enter(SearchDir(root, name), Stem(name) + Ext(name))
  {
    var base, ext := PosixPath.SplitExt(name).0, Ext(name);
    ExtShape(name);
    SplitAppend(base, ext);
    var parts := Split(base);
    assert name == base + ext;
    assert name != [] && base != [] ==> name[0] == base[0];
    ResolveSnoc(if base != [] && base[0] == '/' then [] else root, parts[..|parts| - 1], Stem(name) + ext);
  }

  /** The search never tries the same path twice. */
  lemma CandidatesDiffer(root: Path, name: string, m: nat, n: nat)
    ensures Candidate(root, name, m) == Candidate(root, name, n) <==> m == n
  {
    if m != n {
      if m != 0 && n != 0 {
        SuffixedCandidatesDiffer(root, name, m, n);
      } else {
        FirstCandidateDiffers(root, name, if m == 0 then n else m);
      }
    }
  }

  lemma SuffixedCandidatesDiffer(root: Path, name: string, m: nat, n: nat)
    requires m >= 1 && n >= 1 && m != n
    ensures Candidate(root, name, m) != Candidate(root, name, n)
  {
    var dir := SearchDir(root, name);
    SuffixedCandidate(root, name, m);
    SuffixedCandidate(root, name, n);
    PosixPath.SuffixedInjective(Stem(name), Ext(name), m, n);
    assert Candidate(root, name, m)[|dir|] != Candidate(root, name, n)[|dir|];
  }

  lemma FirstCandidateDiffers(root: Path, name: string, k: nat)
    requires k >= 1
    ensures Candidate(root, name, 0) != Candidate(root, name, k)
  {
    var stem, ext, dir := Stem(name), Ext(name), SearchDir(root, name);
    SuffixedCandidate(root, name, k);
    FirstCandidate(root, name);
    PosixPath.SuffixedInjective(stem, ext, k, k);
    var first := Candidate(root, name, 0);
    if |first| == |dir| + 1 {
      assert first == dir + [stem + ext];
      assert first[|dir|] != Candidate(root, name, k)[|dir|];
    }
  }

  /** The candidates tried before the `n`-th. */
  function Tried(root: Path, name: string, n: nat): set<Path> {
    set m | 0 <= m < n :: Candidate(root, name, m)
  }

  /** Each round of the search tries a path it has not tried before. */
  lemma TriedGrows(root: Path, name: string, n: nat)
    ensures Candidate(root, name, n) !in Tried(root, name, n)
    ensures Tried(root, name, n + 1) == Tried(root, name, n) + {Candidate(root, name, n)}
  {
    forall m | 0 <= m < n
      ensures Candidate(root, name, m) != Candidate(root, name, n)
    {
      CandidatesDiffer(root, name, m, n);
    }
  }

  /** Where the `while os.path.exists(...)` loop stops when it starts at
      candidate `n`: the first candidate from `n` on that does not exist. The
      search ends because the candidates differ and there are finitely many
      entries. */
  function FreeIndex(e: map<Path, Node>, root: Path, name: string, n: nat): (k: nat)
    ensures n <= k && Candidate(root, name, k) !in e
    decreases e.Keys - Tried(root, name, n)
  {
    if Candidate(root, name, n) !in e then n
    else
      TriedShrinks(e, root, name, n);
      FreeIndex(e, root, name, n + 1)
  }

  /** Every candidate the search passes over exists: the free one it stops
      at is the first. */
  lemma {:induction false} FreeIndexFirst(e: map<Path, Node>, root: Path, name: string, n: nat, m: nat)
    requires n <= m < FreeIndex(e, root, name, n)
    ensures Candidate(root, name, m) in e
    decreases e.Keys - Tried(root, name, n)
  {
    FreeIndexTaken(e, root, name, n);
    if m > n {
      TriedShrinks(e, root, name, n);
      FreeIndexNext(e, root, name, n);
      FreeIndexFirst(e, root, name, n + 1, m);
    }
  }

  lemma FreeIndexTaken(e: map<Path, Node>, root: Path, name: string, n: nat)
    requires n < FreeIndex(e, root, name, n)
    ensures Candidate(root, name, n) in e
  {
  }

  lemma FreeIndexNext(e: map<Path, Node>, root: Path, name: string, n: nat)
    requires Candidate(root, name, n) in e
    ensures FreeIndex(e, root, name, n) == FreeIndex(e, root, name, n + 1)
  {
  }

  lemma TriedShrinks(e: map<Path, Node>, root: Path, name: string, n: nat)
    requires Candidate(root, name, n) in e
    ensures e.Keys - Tried(root, name, n + 1) < e.Keys - Tried(root, name, n)
  {
    TriedGrows(root, name, n);
  }

  /** The search loop itself, started at the name (`start == 0`, a renamed
      file) or at `-1` (`start == 1`, a file merged into an existing
      directory). */
  method FirstFree(fs: FileSystem, root: Path, name: string, start: nat) returns (n: nat, target: Path)
    ensures n == FreeIndex(fs.entries, root, name, start)
    ensures target == Candidate(root, name, n)
  {
    n := start;
    target := Candidate(root, name, n);
    while target in fs.entries
      invariant start <= n && target == Candidate(root, name, n)
      invariant FreeIndex(fs.entries, root, name, n) == FreeIndex(fs.entries, root, name, start)
      decreases fs.entries.Keys - Tried(root, name, n)
    {
      TriedShrinks(fs.entries, root, name, n);
      n := n + 1;
      target := Candidate(root, name, n);
    }
  }

  /** For a name that stays in its directory every candidate is `root` itself
      or an entry directly inside it, and for a plain name never `root`. */
  lemma CandidateInside(root: Path, name: string, n: nat, top: Path)
    requires IsPrefix(top, root) && StaysIn(name)
    ensures var c := Candidate(root, name, n);
      (c == root && !PlainName(name)) || (Below(top, c) && Parent(c) == root)
  {
    var c := Candidate(root, name, n);
    if n >= 1 {
      SearchDirStays(root, name);
      SuffixedCandidate(root, name, n);
      ChildBelow(top, root, PosixPath.Suffixed(Stem(name), n, Ext(name)));
    } else {
      JoinStaysIn(root, name);
      if c != root {
        ChildBelow(top, root, name);
      }
    }
  }

  /** A name without a slash is searched for in `root` itself. */
  lemma SearchDirStays(root: Path, name: string)
    requires StaysIn(name)
    ensures SearchDir(root, name) == root
  {
    var base := PosixPath.SplitExt(name).0;
    assert name == base + Ext(name);
    assert '/' !in base by {
      assert forall j :: 0 <= j < |base| ==> base[j] == name[j];
    }
    SplitNoSlash(base);
  }

  /** The parent of an existing entry exists, so a free path is never it. */
  lemma FreeIsNotParent(e: map<Path, Node>, src: Path, target: Path)
    requires Tree(e) && src in e && src != [] && target !in e
    ensures target != Parent(src)
  {
    AncestorIsDir(e, src, |src| - 1);
  }

  // ---------------------------------------------------------------------------
  // Merging a directory into an existing one

  /** One child `item` of `src` (lines 142-164): when `dst/item` exists, a
      file goes to the first free `{base}-{n}{ext}` from `-1` on and anything
      else is emptied into its namesake; otherwise the child is moved to
      `dst/item`. */
  function MergeItemRun(e: map<Path, Node>, order: Order, src: Path, dst: Path, item: string): Run {
    var s, d := Join(src, item), Join(dst, item);
    if d in e then
      if s in e && e[s].File? then MoveRun(e, s, Candidate(dst, item, FreeIndex(e, dst, item, 1)))
      else MergeChildRun(e, order, s, d)
    else MoveRun(e, s, d)
  }

  /** The children in listing order; the first exception ends the merge. */
  function MergeItemsRun(e: map<Path, Node>, order: Order, src: Path, dst: Path, items: seq<string>): Run
    decreases |items|
  {
    if items == [] then Run(Pass, e, [])
    else
      var r := MergeItemRun(e, order, src, dst, items[0]);
      if r.outcome.Fail? then r else MergeItemsRun(r.after, order, src, dst, items[1..])
  }

  /** Lines 141-163 (and 238-257 of `process_path`): the listed children of
      `src` move into `dst`, then `src` is removed. It raises what `listdir`,
      a move or `rmdir` raises, and logs nothing itself. */
  function MergeRun(e: map<Path, Node>, order: Order, src: Path, dst: Path): Run {
    if !(src in e && e[src].Dir?) then Run(Fail(OSError), e, [])
    else
      var r := MergeItemsRun(e, order, src, dst, order(Names(e, src)));
      if r.outcome.Fail? then r else RmdirRun(r.after, src)
  }

  /** Where the corrected inner merge puts the grandchild `s/name`: `d/name`
      when that is free, else the first free `{base}-{n}{ext}` in `d`, as a
      clashing file one level up. */
  function GrandchildRun(e: map<Path, Node>, s: Path, d: Path, name: string): Run {
    MoveRun(e, Join(s, name), Candidate(d, name, FreeIndex(e, d, name, 0)))
  }

  function GrandchildrenRun(e: map<Path, Node>, s: Path, d: Path, subs: seq<string>): Run
    decreases |subs|
  {
    if subs == [] then Run(Pass, e, [])
    else
      var r := GrandchildRun(e, s, d, subs[0]);
      if r.outcome.Fail? then r else GrandchildrenRun(r.after, s, d, subs[1..])
  }

  /** The clashing subdirectory `s` emptied into `d` and removed, corrected
      so that no grandchild overwrites anything. */
  function MergeChildRun(e: map<Path, Node>, order: Order, s: Path, d: Path): Run {
    if !(s in e && e[s].Dir?) then Run(Fail(OSError), e, [])
    else
      var r := GrandchildrenRun(e, s, d, order(Names(e, s)));
      if r.outcome.Fail? then r else RmdirRun(r.after, s)
  }

  /** Lines 159-161 as written: `shutil.move(s/sub, d/sub)` for every
      grandchild, with no check. */
  function GrandchildrenAsWrittenRun(e: map<Path, Node>, s: Path, d: Path, subs: seq<string>): Run
    decreases |subs|
  {
    if subs == [] then Run(Pass, e, [])
    else
      var r := MoveRun(e, Join(s, subs[0]), Join(d, subs[0]));
      if r.outcome.Fail? then r else GrandchildrenAsWrittenRun(r.after, s, d, subs[1..])
  }

  function MergeChildAsWrittenRun(e: map<Path, Node>, order: Order, s: Path, d: Path): Run {
    if !(s in e && e[s].Dir?) then Run(Fail(OSError), e, [])
    else
      var r := GrandchildrenAsWrittenRun(e, s, d, order(Names(e, s)));
      if r.outcome.Fail? then r else RmdirRun(r.after, s)
  }

  /** The loop of lines 141-163 and the `rmdir` after it. */
  method Merge(fs: FileSystem, src: Path, dst: Path) returns (r: Outcome)
    requires fs.Valid()
    modifies fs
    ensures fs.Valid()
    ensures Run(r, fs.entries, []) == MergeRun(old(fs.entries), fs.order, src, dst)
  {
    ghost var e0 := fs.entries;
    var listing := fs.ListDir(src);
    if listing.Err? {
      return Fail(OSError);
    }
    var items := listing.value;
    ghost var all := MergeItemsRun(e0, fs.order, src, dst, items);
    assert MergeRun(e0, fs.order, src, dst) == if all.outcome.Fail? then all else RmdirRun(all.after, src);
    for i := 0 to |items|
      invariant fs.Valid()
      invariant all == MergeItemsRun(fs.entries, fs.order, src, dst, items[i..])
    {
      ghost var e1 := fs.entries;
      MergeItemsUnfold(e1, fs.order, src, dst, items, i);
      var o := MergeItem(fs, src, dst, items[i]);
      if o.Fail? {
        return o;
      }
    }
    assert items[|items|..] == [];
    r := fs.Rmdir(src);
  }

  /** The body of that loop for one child. */
  method MergeItem(fs: FileSystem, src: Path, dst: Path, item: string) returns (o: Outcome)
    requires fs.Valid()
    modifies fs
    ensures fs.Valid()
    ensures Run(o, fs.entries, []) == MergeItemRun(old(fs.entries), fs.order, src, dst, item)
  {
    ghost var e0 := fs.entries;
    var s, d := Join(src, item), Join(dst, item);
    if fs.Exists(d) {
      if fs.IsFile(s) {
        var n, target := FirstFree(fs, dst, item, 1);
        assert MergeItemRun(e0, fs.order, src, dst, item) == MoveRun(e0, s, target);
        o := fs.Move(s, target);
        assert Run(o, fs.entries, []) == MoveRun(e0, s, target);
      } else {
        assert MergeItemRun(e0, fs.order, src, dst, item) == MergeChildRun(e0, fs.order, s, d);
        o := MergeChild(fs, s, d);
      }
    } else {
      assert MergeItemRun(e0, fs.order, src, dst, item) == MoveRun(e0, s, d);
      o := fs.Move(s, d);
      assert Run(o, fs.entries, []) == MoveRun(e0, s, d);
    }
  }

  /** The corrected inner merge. */
  method MergeChild(fs: FileSystem, s: Path, d: Path) returns (r: Outcome)
    requires fs.Valid()
    modifies fs
    ensures fs.Valid()
    ensures Run(r, fs.entries, []) == MergeChildRun(old(fs.entries), fs.order, s, d)
  {
    ghost var e0 := fs.entries;
    var listing := fs.ListDir(s);
    if listing.Err? {
      return Fail(OSError);
    }
    var subs := listing.value;
    ghost var all := GrandchildrenRun(e0, s, d, subs);
    assert MergeChildRun(e0, fs.order, s, d) == if all.outcome.Fail? then all else RmdirRun(all.after, s);
    for i := 0 to |subs|
      invariant fs.Valid()
      invariant all == GrandchildrenRun(fs.entries, s, d, subs[i..])
    {
      ghost var e1 := fs.entries;
      GrandchildrenUnfold(e1, s, d, subs, i);
      var n, to := FirstFree(fs, d, subs[i], 0);
      assert GrandchildRun(e1, s, d, subs[i]) == MoveRun(e1, Join(s, subs[i]), to);
      var o := fs.Move(Join(s, subs[i]), to);
      if o.Fail? {
        return o;
      }
    }
    assert subs[|subs|..] == [];
    r := fs.Rmdir(s);
  }

  /** The inner merge of lines 159-161 as written. */
  method MergeChildAsWritten(fs: FileSystem, s: Path, d: Path) returns (r: Outcome)
    requires fs.Valid()
    modifies fs
    ensures fs.Valid()
    ensures Run(r, fs.entries, []) == MergeChildAsWrittenRun(old(fs.entries), fs.order, s, d)
  {
    ghost var e0 := fs.entries;
    var listing := fs.ListDir(s);
    if listing.Err? {
      return Fail(OSError);
    }
    var subs := listing.value;
    ghost var all := GrandchildrenAsWrittenRun(e0, s, d, subs);
    assert MergeChildAsWrittenRun(e0, fs.order, s, d) == if all.outcome.Fail? then all else RmdirRun(all.after, s);
    for i := 0 to |subs|
      invariant fs.Valid()
      invariant all == GrandchildrenAsWrittenRun(fs.entries, s, d, subs[i..])
    {
      GrandchildrenAsWrittenUnfold(fs.entries, s, d, subs, i);
      var o := fs.Move(Join(s, subs[i]), Join(d, subs[i]));
      if o.Fail? {
        return o;
      }
    }
    assert subs[|subs|..] == [];
    r := fs.Rmdir(s);
  }

  lemma MergeItemsUnfold(e: map<Path, Node>, order: Order, src: Path, dst: Path, items: seq<string>, i: nat)
    requires i < |items|
    ensures var r := MergeItemRun(e, order, src, dst, items[i]);
      MergeItemsRun(e, order, src, dst, items[i..]) ==
        if r.outcome.Fail? then r else MergeItemsRun(r.after, order, src, dst, items[i + 1..])
  {
    assert items[i..][1..] == items[i + 1..];
  }

  lemma GrandchildrenUnfold(e: map<Path, Node>, s: Path, d: Path, subs: seq<string>, i: nat)
    requires i < |subs|
    ensures var r := GrandchildRun(e, s, d, subs[i]);
      GrandchildrenRun(e, s, d, subs[i..]) == if r.outcome.Fail? then r else GrandchildrenRun(r.after, s, d, subs[i + 1..])
  {
    assert subs[i..][1..] == subs[i + 1..];
  }

  lemma GrandchildrenAsWrittenUnfold(e: map<Path, Node>, s: Path, d: Path, subs: seq<string>, i: nat)
    requires i < |subs|
    ensures var r := MoveRun(e, Join(s, subs[i]), Join(d, subs[i]));
      GrandchildrenAsWrittenRun(e, s, d, subs[i..]) ==
        if r.outcome.Fail? then r else GrandchildrenAsWrittenRun(r.after, s, d, subs[i + 1..])
  {
    assert subs[i..][1..] == subs[i + 1..];
  }

  // What a merge keeps

  /** Every move of the corrected merge goes to a free path, so the merge
      keeps every file, whether it ends normally or not. */
  lemma {:induction false} GrandchildrenKeep(e: map<Path, Node>, s: Path, d: Path, subs: seq<string>)
    requires Tree(e)
    ensures Keeps(e, GrandchildrenRun(e, s, d, subs).after)
    decreases |subs|
  {
    if subs != [] {
      var r := GrandchildRun(e, s, d, subs[0]);
      MoveToFreeRun(e, Join(s, subs[0]), Candidate(d, subs[0], FreeIndex(e, d, subs[0], 0)));
      if r.outcome.Pass? {
        GrandchildrenKeep(r.after, s, d, subs[1..]);
      }
    }
  }

  lemma MergeChildKeeps(e: map<Path, Node>, order: Order, s: Path, d: Path)
    requires Tree(e)
    ensures Keeps(e, MergeChildRun(e, order, s, d).after)
  {
    if s in e && e[s].Dir? {
      var r := GrandchildrenRun(e, s, d, order(Names(e, s)));
      GrandchildrenKeep(e, s, d, order(Names(e, s)));
      RmdirRunKeeps(r.after, s);
    }
  }

  lemma MergeItemKeeps(e: map<Path, Node>, order: Order, src: Path, dst: Path, item: string)
    requires Tree(e)
    ensures Keeps(e, MergeItemRun(e, order, src, dst, item).after)
  {
    var s, d := Join(src, item), Join(dst, item);
    if d in e {
      if s in e && e[s].File? {
        MoveToFreeRun(e, s, Candidate(dst, item, FreeIndex(e, dst, item, 1)));
      } else {
        MergeChildKeeps(e, order, s, d);
      }
    } else {
      MoveToFreeRun(e, s, d);
    }
  }

  lemma {:induction false} MergeItemsKeep(e: map<Path, Node>, order: Order, src: Path, dst: Path, items: seq<string>)
    requires Tree(e)
    ensures Keeps(e, MergeItemsRun(e, order, src, dst, items).after)
    decreases |items|
  {
    if items != [] {
      var r := MergeItemRun(e, order, src, dst, items[0]);
      MergeItemKeeps(e, order, src, dst, items[0]);
      if r.outcome.Pass? {
        MergeItemsKeep(r.after, order, src, dst, items[1..]);
      }
    }
  }

  /** A merge keeps every file of the tree, whether it ends normally or
      not. */
  lemma MergeKeeps(e: map<Path, Node>, order: Order, src: Path, dst: Path)
    requires Tree(e)
    ensures Keeps(e, MergeRun(e, order, src, dst).after)
  {
    if src in e && e[src].Dir? {
      var r := MergeItemsRun(e, order, src, dst, order(Names(e, src)));
      MergeItemsKeep(e, order, src, dst, order(Names(e, src)));
      RmdirRunKeeps(r.after, src);
    }
  }

  /** When the merge returns, neither `src` nor anything below it is left:
      with `MergeKeeps`, every file that was below `src` now lies elsewhere
      in the tree. */
  lemma MergeEmptiesSource(e: map<Path, Node>, order: Order, src: Path, dst: Path)
    requires Tree(e)
    ensures var m := MergeRun(e, order, src, dst);
      m.outcome.Pass? ==> forall p :: p in m.after ==> !IsPrefix(src, p)
  {
    if src in e && e[src].Dir? {
      var r := MergeItemsRun(e, order, src, dst, order(Names(e, src)));
      MergeItemsKeep(e, order, src, dst, order(Names(e, src)));
      if r.outcome.Pass? && RmdirOk(r.after, src) {
        forall p | p in r.after - {src}
          ensures !IsPrefix(src, p)
        {
          if IsPrefix(src, p) {
            NothingBelow(r.after, src, p);
          }
        }
      }
    }
  }

  /** A merge passes when `src` is an empty directory other than the top of
      the tree, and removes it; it raises `OSError` when `src` is no
      directory. */
  lemma MergeWhenEmpty(e: map<Path, Node>, order: Order, src: Path, dst: Path)
    requires OrderOk(order)
    ensures src in e && src != [] && e[src].Dir? && Names(e, src) == {} ==>
      MergeRun(e, order, src, dst) == Run(Pass, e - {src}, [])
    ensures !(src in e && e[src].Dir?) ==> MergeRun(e, order, src, dst) == Run(Fail(OSError), e, [])
  {
    if src in e && e[src].Dir? && Names(e, src) == {} {
      NothingListed(order);
    }
  }

  /** The inner merge as written creates no content (but may lose some, see
      `GrandchildClobbered`). */
  lemma {:induction false} GrandchildrenAsWrittenShrink(e: map<Path, Node>, s: Path, d: Path, subs: seq<string>)
    requires Tree(e)
    ensures Shrinks(e, GrandchildrenAsWrittenRun(e, s, d, subs).after)
    decreases |subs|
  {
    if subs != [] {
      var r := MoveRun(e, Join(s, subs[0]), Join(d, subs[0]));
      MoveRunShrinks(e, Join(s, subs[0]), Join(d, subs[0]));
      if r.outcome.Pass? {
        GrandchildrenAsWrittenShrink(r.after, s, d, subs[1..]);
      }
    }
  }

  lemma MergeChildAsWrittenShrinks(e: map<Path, Node>, order: Order, s: Path, d: Path)
    requires Tree(e)
    ensures Shrinks(e, MergeChildAsWrittenRun(e, order, s, d).after)
  {
    if s in e && e[s].Dir? {
      var r := GrandchildrenAsWrittenRun(e, s, d, order(Names(e, s)));
      GrandchildrenAsWrittenShrink(e, s, d, order(Names(e, s)));
      RmdirRunKeeps(r.after, s);
    }
  }

  // Where a merge acts

  /** The names listed in a directory of a tree are plain. */
  lemma ListingPlain(e: map<Path, Node>, order: Order, p: Path)
    requires Tree(e) && OrderOk(order)
    ensures forall n :: n in order(Names(e, p)) ==> PlainName(n)
  {
    forall n | n in order(Names(e, p))
      ensures PlainName(n)
    {
      NameEntry(e, p, n);
    }
  }

  /** A path one plain name inside a path at or below `top` lies below it. */
  lemma ChildBelow(top: Path, p: Path, n: string)
    requires IsPrefix(top, p) && PlainName(n)
    ensures Join(p, n) == p + [n] && Below(top, p + [n]) && Parent(p + [n]) == p
  {
    assert (p + [n])[..|top|] == p[..|top|];
    assert (p + [n])[..|p|] == p;
  }

  lemma {:induction false} GrandchildrenInside(e: map<Path, Node>, s: Path, d: Path, subs: seq<string>, top: Path)
    requires Tree(e) && Below(top, s) && Below(top, d)
    requires forall n :: n in subs ==> PlainName(n)
    ensures SameOutside(e, GrandchildrenRun(e, s, d, subs).after, top)
    decreases |subs|
  {
    if subs != [] {
      var n := subs[0];
      var to := Candidate(d, n, FreeIndex(e, d, n, 0));
      ChildBelow(top, s, n);
      CandidateInside(d, n, FreeIndex(e, d, n, 0), top);
      MoveRunInside(e, s + [n], to, top);
      var r := GrandchildRun(e, s, d, n);
      MoveToFreeRun(e, s + [n], to);
      if r.outcome.Pass? {
        GrandchildrenInside(r.after, s, d, subs[1..], top);
      }
    }
  }

  lemma MergeChildInside(e: map<Path, Node>, order: Order, s: Path, d: Path, top: Path)
    requires Tree(e) && OrderOk(order) && Below(top, s) && Below(top, d)
    ensures SameOutside(e, MergeChildRun(e, order, s, d).after, top)
  {
    if s in e && e[s].Dir? {
      var subs := order(Names(e, s));
      ListingPlain(e, order, s);
      GrandchildrenInside(e, s, d, subs, top);
    }
  }

  lemma MergeItemInside(e: map<Path, Node>, order: Order, src: Path, dst: Path, item: string, top: Path)
    requires Tree(e) && OrderOk(order) && Below(top, src) && IsPrefix(top, dst) && PlainName(item)
    ensures SameOutside(e, MergeItemRun(e, order, src, dst, item).after, top)
  {
    ChildBelow(top, src, item);
    ChildBelow(top, dst, item);
    var s, d := src + [item], dst + [item];
    if d in e {
      if s in e && e[s].File? {
        CandidateInside(dst, item, FreeIndex(e, dst, item, 1), top);
        MoveRunInside(e, s, Candidate(dst, item, FreeIndex(e, dst, item, 1)), top);
      } else {
        MergeChildInside(e, order, s, d, top);
      }
    } else {
      MoveRunInside(e, s, d, top);
    }
  }

  lemma {:induction false} MergeItemsInside(e: map<Path, Node>, order: Order, src: Path, dst: Path, items: seq<string>, top: Path)
    requires Tree(e) && OrderOk(order) && Below(top, src) && IsPrefix(top, dst)
    requires forall n :: n in items ==> PlainName(n)
    ensures SameOutside(e, MergeItemsRun(e, order, src, dst, items).after, top)
    decreases |items|
  {
    if items != [] {
      var r := MergeItemRun(e, order, src, dst, items[0]);
      MergeItemInside(e, order, src, dst, items[0], top);
      MergeItemKeeps(e, order, src, dst, items[0]);
      if r.outcome.Pass? {
        MergeItemsInside(r.after, order, src, dst, items[1..], top);
      }
    }
  }

  /** A merge of a directory below `top` into one at or below it changes
      nothing outside `top`. */
  lemma MergeInside(e: map<Path, Node>, order: Order, src: Path, dst: Path, top: Path)
    requires Tree(e) && OrderOk(order) && Below(top, src) && IsPrefix(top, dst)
    ensures SameOutside(e, MergeRun(e, order, src, dst).after, top)
  {
    if src in e && e[src].Dir? {
      var items := order(Names(e, src));
      ListingPlain(e, order, src);
      MergeItemsInside(e, order, src, dst, items, top);
    }
  }

  // ---------------------------------------------------------------------------
  // One listed name

  /** A real file rename (lines 116-128): onto the first free path among the
      cleaned name and its `{base}-{n}{ext}` variants, from `n = 1`; an
      `OSError` is logged and the walk goes on. */
  function RenameFileRun(e: map<Path, Node>, root: Path, name: string, newName: string): Run {
    var src := Join(root, name);
    var target := Candidate(root, newName, FreeIndex(e, root, newName, 0));
    var r := RenameRun(e, src, target);
    Run(Pass, r.after, [if r.outcome.Pass? then Renamed(FileKind, src, target) else Failed(src)])
  }

  /** A real directory rename (lines 139-172): a merge into the existing
      path of the cleaned name, whose exceptions propagate, else a rename
      whose `OSError` is logged. */
  function RenameDirRun(e: map<Path, Node>, order: Order, root: Path, name: string, newName: string): Run {
    var src, dst := Join(root, name), Join(root, newName);
    if dst in e then
      var m := MergeRun(e, order, src, dst);
      Run(m.outcome, m.after, if m.outcome.Pass? then [Merged(src, dst)] else m.log)
    else
      var r := RenameRun(e, src, dst);
      Run(Pass, r.after, [if r.outcome.Pass? then Renamed(DirKind, src, dst) else Failed(src)])
  }

  /** One listed name of kind `kind` in `root` (lines 109-128 for a file,
      132-172 for a directory): an invalid mode raises `ValueError`, a name
      that cleaning leaves alone is skipped, a dry run logs the proposal. */
  function EntryRun(e: map<Path, Node>, order: Order, kind: Kind, root: Path, name: string,
                    mode: string, dryRun: bool, fold: Fold): Run {
    match UnifileClean.CleanFilename(UnifileClean.Str(name), mode, fold)
    case Err(error) => Run(Fail(error), e, [])
    case Ok(newName) =>
      if newName == name then Run(Pass, e, [])
      else if dryRun then Run(Pass, e, [WouldRename(kind, Join(root, name), Join(root, newName))])
      else if kind == FileKind then RenameFileRun(e, root, name, newName)
      else RenameDirRun(e, order, root, name, newName)
  }

  /** The names of one kind in one step, in order; an exception ends the
      walk. */
  function NamesRun(e: map<Path, Node>, order: Order, kind: Kind, root: Path, names: seq<string>,
                    mode: string, dryRun: bool, fold: Fold): Run
    decreases |names|
  {
    if names == [] then Run(Pass, e, [])
    else
      var r := EntryRun(e, order, kind, root, names[0], mode, dryRun, fold);
      if r.outcome.Fail? then r else Prepend(r.log, NamesRun(r.after, order, kind, root, names[1..], mode, dryRun, fold))
  }

  /** One `(root, dirs, files)` step: its files, then its subdirectories. */
  function StepRun(e: map<Path, Node>, order: Order, s: Step, mode: string, dryRun: bool, fold: Fold): Run {
    var r := NamesRun(e, order, FileKind, s.root, s.files, mode, dryRun, fold);
    if r.outcome.Fail? then r else Prepend(r.log, NamesRun(r.after, order, DirKind, s.root, s.dirs, mode, dryRun, fold))
  }

  /** The steps of a walk in order (the loop at line 106). */
  function StepsRun(e: map<Path, Node>, order: Order, w: seq<Step>, mode: string, dryRun: bool, fold: Fold): Run
    decreases |w|
  {
    if w == [] then Run(Pass, e, [])
    else
      var r := StepRun(e, order, w[0], mode, dryRun, fold);
      if r.outcome.Fail? then r else Prepend(r.log, StepsRun(r.after, order, w[1..], mode, dryRun, fold))
  }

  method ProcessEntry(fs: FileSystem, kind: Kind, root: Path, name: string, mode: string, dryRun: bool, fold: Fold)
    returns (r: Outcome, log: seq<Record>)
    requires fs.Valid()
    modifies fs
    ensures fs.Valid()
    ensures Run(r, fs.entries, log) == EntryRun(old(fs.entries), fs.order, kind, root, name, mode, dryRun, fold)
  {
    var cleaned := UnifileClean.CleanFilename(UnifileClean.Str(name), mode, fold);
    if cleaned.Err? {
      return Fail(cleaned.error), [];
    }
    var newName := cleaned.value;
    if newName == name {
      return Pass, [];
    }
    if dryRun {
      return Pass, [WouldRename(kind, Join(root, name), Join(root, newName))];
    }
    if kind == FileKind {
      var rec := RenameFile(fs, root, name, newName);
      r, log := Pass, [rec];
    } else {
      r, log := RenameDir(fs, root, name, newName);
    }
  }

  method RenameFile(fs: FileSystem, root: Path, name: string, newName: string) returns (rec: Record)
    requires fs.Valid()
    modifies fs
    ensures fs.Valid()
    ensures Run(Pass, fs.entries, [rec]) == RenameFileRun(old(fs.entries), root, name, newName)
  {
    var src := Join(root, name);
    var n, target := FirstFree(fs, root, newName, 0);
    var o := fs.Rename(src, target);
    rec := if o.Pass? then Renamed(FileKind, src, target) else Failed(src);
  }

  method RenameDir(fs: FileSystem, root: Path, name: string, newName: string) returns (r: Outcome, log: seq<Record>)
    requires fs.Valid()
    modifies fs
    ensures fs.Valid()
    ensures Run(r, fs.entries, log) == RenameDirRun(old(fs.entries), fs.order, root, name, newName)
  {
    var src, dst := Join(root, name), Join(root, newName);
    if fs.Exists(dst) {
      r := Merge(fs, src, dst);
      log := if r.Pass? then [Merged(src, dst)] else [];
    } else {
      var o := fs.Rename(src, dst);
      r, log := Pass, if o.Pass? then [Renamed(DirKind, src, dst)] else [Failed(src)];
    }
  }

  method ProcessNames(fs: FileSystem, kind: Kind, root: Path, names: seq<string>, mode: string, dryRun: bool, fold: Fold)
    returns (r: Outcome, log: seq<Record>)
    requires fs.Valid()
    modifies fs
    ensures fs.Valid()
    ensures Run(r, fs.entries, log) == NamesRun(old(fs.entries), fs.order, kind, root, names, mode, dryRun, fold)
  {
    ghost var all := NamesRun(fs.entries, fs.order, kind, root, names, mode, dryRun, fold);
    log := [];
    NamesStart(fs.entries, fs.order, kind, root, names, mode, dryRun, fold);
    for i := 0 to |names|
      invariant fs.Valid()
      invariant all == Prepend(log, NamesRun(fs.entries, fs.order, kind, root, names[i..], mode, dryRun, fold))
    {
      r, log := ProcessNameAt(fs, kind, root, names, i, mode, dryRun, fold, all, log);
      if r.Fail? {
        return;
      }
    }
    NamesEnd(fs.entries, fs.order, kind, root, names, mode, dryRun, fold, log);
    r := Pass;
  }

  /** Before the first name the loop of `ProcessNames` owes the whole run. */
  lemma NamesStart(e: map<Path, Node>, order: Order, kind: Kind, root: Path, names: seq<string>,
                   mode: string, dryRun: bool, fold: Fold)
    ensures Prepend([], NamesRun(e, order, kind, root, names[0..], mode, dryRun, fold)) == NamesRun(e, order, kind, root, names, mode, dryRun, fold)
  {
    assert names[0..] == names;
    assert [] + NamesRun(e, order, kind, root, names, mode, dryRun, fold).log == NamesRun(e, order, kind, root, names, mode, dryRun, fold).log;
  }

  /** Past the last name the loop of `ProcessNames` adds nothing. */
  lemma NamesEnd(e: map<Path, Node>, order: Order, kind: Kind, root: Path, names: seq<string>,
                 mode: string, dryRun: bool, fold: Fold, log: seq<Record>)
    ensures Prepend(log, NamesRun(e, order, kind, root, names[|names|..], mode, dryRun, fold)) == Run(Pass, e, log)
  {
    assert names[|names|..] == [];
    assert log + [] == log;
  }

  /** One round of the loop of `ProcessNames`: the `i`-th name, with the
      records so far extended by its own; a failure ends the loop. */
  method ProcessNameAt(fs: FileSystem, kind: Kind, root: Path, names: seq<string>, i: nat, mode: string, dryRun: bool, fold: Fold,
                       ghost all: Run, log: seq<Record>) returns (r: Outcome, log': seq<Record>)
    requires fs.Valid() && i < |names|
    requires all == Prepend(log, NamesRun(fs.entries, fs.order, kind, root, names[i..], mode, dryRun, fold))
    modifies fs
    ensures fs.Valid()
    ensures r.Fail? ==> all == Run(r, fs.entries, log')
    ensures r.Pass? ==> all == Prepend(log', NamesRun(fs.entries, fs.order, kind, root, names[i + 1..], mode, dryRun, fold))
  {
    NamesUnfold(fs.entries, fs.order, kind, root, names, i, mode, dryRun, fold);
    var more;
    r, more := ProcessEntry(fs, kind, root, names[i], mode, dryRun, fold);
    if r.Pass? {
      PrependTwice(log, more, NamesRun(fs.entries, fs.order, kind, root, names[i + 1..], mode, dryRun, fold));
    }
    log' := log + more;
  }

  method ProcessStep(fs: FileSystem, s: Step, mode: string, dryRun: bool, fold: Fold) returns (r: Outcome, log: seq<Record>)
    requires fs.Valid()
    modifies fs
    ensures fs.Valid()
    ensures Run(r, fs.entries, log) == StepRun(old(fs.entries), fs.order, s, mode, dryRun, fold)
  {
    var fileLog, dirLog;
    r, fileLog := ProcessNames(fs, FileKind, s.root, s.files, mode, dryRun, fold);
    if r.Fail? {
      return r, fileLog;
    }
    r, dirLog := ProcessNames(fs, DirKind, s.root, s.dirs, mode, dryRun, fold);
    log := fileLog + dirLog;
  }

  method ProcessSteps(fs: FileSystem, w: seq<Step>, mode: string, dryRun: bool, fold: Fold) returns (r: Outcome, log: seq<Record>)
    requires fs.Valid()
    modifies fs
    ensures fs.Valid()
    ensures Run(r, fs.entries, log) == StepsRun(old(fs.entries), fs.order, w, mode, dryRun, fold)
  {
    ghost var all := StepsRun(fs.entries, fs.order, w, mode, dryRun, fold);
    log := [];
    for k := 0 to |w|
      invariant fs.Valid()
      invariant all == Prepend(log, StepsRun(fs.entries, fs.order, w[k..], mode, dryRun, fold))
    {
      StepsUnfold(fs.entries, fs.order, w, k, mode, dryRun, fold);
      var o, more := ProcessStep(fs, w[k], mode, dryRun, fold);
      if o.Fail? {
        return o, log + more;
      }
      PrependTwice(log, more, StepsRun(fs.entries, fs.order, w[k + 1..], mode, dryRun, fold));
      log := log + more;
    }
    assert w[|w|..] == [];
    r := Pass;
  }

  /** `process_directory(directory, mode, dry_run)` (lines 94-172): the
      checks, then the bottom-up walk, taken from the tree as it is before
      any rename. `accessOk` is `os.access(directory, R_OK | X_OK)`; `walk`
      is the walk it made. */
  method ProcessDirectory(fs: FileSystem, directory: DirArg, mode: string, dryRun: bool, fold: Fold, accessOk: bool)
    returns (r: Outcome, log: seq<Record>, walk: seq<Step>)
    requires fs.Valid()
    modifies fs
    ensures fs.Valid()
    ensures Validate(directory, old(fs.entries), accessOk).Err? ==>
      r == Fail(Validate(directory, old(fs.entries), accessOk).error) && log == [] && fs.entries == old(fs.entries)
    ensures Validate(directory, old(fs.entries), accessOk).Ok? ==>
      var top := directory.at;
      && IsWalk(old(fs.entries), top, walk) && BottomUp(walk)
      && Run(r, fs.entries, log) == StepsRun(old(fs.entries), fs.order, walk, mode, dryRun, fold)
      && Keeps(old(fs.entries), fs.entries)
      && (UnifileClean.CleanStaysIn(mode, fold) ==> SameOutside(old(fs.entries), fs.entries, top))
  {
    walk := [];
    var top := Validate(directory, fs.entries, accessOk);
    if top.Err? {
      return Fail(top.error), [], walk;
    }
    ghost var e0 := fs.entries;
    walk := WalkBottomUp(fs.entries, top.value);
    r, log := ProcessSteps(fs, walk, mode, dryRun, fold);
    StepsKeep(e0, fs.order, walk, mode, dryRun, fold);
    if UnifileClean.CleanStaysIn(mode, fold) {
      WalkWellListed(e0, top.value, walk);
      WalkRootsAreDirs(e0, top.value, walk);
      StepsInside(e0, fs.order, walk, mode, dryRun, fold, top.value);
    }
  }

  lemma NamesUnfold(e: map<Path, Node>, order: Order, kind: Kind, root: Path, names: seq<string>, i: nat,
                    mode: string, dryRun: bool, fold: Fold)
    requires i < |names|
    ensures var r := EntryRun(e, order, kind, root, names[i], mode, dryRun, fold);
      NamesRun(e, order, kind, root, names[i..], mode, dryRun, fold) ==
        if r.outcome.Fail? then r else Prepend(r.log, NamesRun(r.after, order, kind, root, names[i + 1..], mode, dryRun, fold))
  {
    assert names[i..][1..] == names[i + 1..];
  }

  lemma StepsUnfold(e: map<Path, Node>, order: Order, w: seq<Step>, k: nat, mode: string, dryRun: bool, fold: Fold)
    requires k < |w|
    ensures var r := StepRun(e, order, w[k], mode, dryRun, fold);
      StepsRun(e, order, w[k..], mode, dryRun, fold) ==
        if r.outcome.Fail? then r else Prepend(r.log, StepsRun(r.after, order, w[k + 1..], mode, dryRun, fold))
  {
    assert w[k..][1..] == w[k + 1..];
  }

  /** The roots of a walk are directories of the tree it walks. */
  lemma WalkRootsAreDirs(e: map<Path, Node>, top: Path, w: seq<Step>)
    requires IsWalk(e, top, w)
    ensures forall k :: 0 <= k < |w| ==> w[k].root in e && e[w[k].root].Dir?
  {
    forall k | 0 <= k < |w|
      ensures w[k].root in e && e[w[k].root].Dir?
    {
      assert w[k].root in Roots(w);
    }
  }

  // ---------------------------------------------------------------------------
  // No content is lost (with the corrected inner merge)

  lemma RenameFileKeeps(e: map<Path, Node>, root: Path, name: string, newName: string)
    requires Tree(e)
    ensures Keeps(e, RenameFileRun(e, root, name, newName).after)
  {
    var src, target := Join(root, name), Candidate(root, newName, FreeIndex(e, root, newName, 0));
    if RenameOk(e, src, target) {
      RenamedTree(e, src, target);
      RenameToFreeKeepsData(e, src, target);
    }
  }

  lemma RenameDirKeeps(e: map<Path, Node>, order: Order, root: Path, name: string, newName: string)
    requires Tree(e)
    ensures Keeps(e, RenameDirRun(e, order, root, name, newName).after)
  {
    var src, dst := Join(root, name), Join(root, newName);
    if dst in e {
      MergeKeeps(e, order, src, dst);
    } else if RenameOk(e, src, dst) {
      RenamedTree(e, src, dst);
      RenameToFreeKeepsData(e, src, dst);
    }
  }

  lemma EntryKeeps(e: map<Path, Node>, order: Order, kind: Kind, root: Path, name: string,
                   mode: string, dryRun: bool, fold: Fold)
    requires Tree(e)
    ensures Keeps(e, EntryRun(e, order, kind, root, name, mode, dryRun, fold).after)
  {
    var cleaned := UnifileClean.CleanFilename(UnifileClean.Str(name), mode, fold);
    if cleaned.Ok? && cleaned.value != name && !dryRun {
      if kind == FileKind {
        RenameFileKeeps(e, root, name, cleaned.value);
      } else {
        RenameDirKeeps(e, order, root, name, cleaned.value);
      }
    }
  }

  lemma {:induction false} NamesKeep(e: map<Path, Node>, order: Order, kind: Kind, root: Path, names: seq<string>,
                                     mode: string, dryRun: bool, fold: Fold)
    requires Tree(e)
    ensures Keeps(e, NamesRun(e, order, kind, root, names, mode, dryRun, fold).after)
    decreases |names|
  {
    if names != [] {
      var r := EntryRun(e, order, kind, root, names[0], mode, dryRun, fold);
      EntryKeeps(e, order, kind, root, names[0], mode, dryRun, fold);
      NamesAfter(e, order, kind, root, names, mode, dryRun, fold);
      if r.outcome.Pass? {
        NamesKeep(r.after, order, kind, root, names[1..], mode, dryRun, fold);
        KeepsTrans(e, r.after, NamesRun(r.after, order, kind, root, names[1..], mode, dryRun, fold).after);
      }
    }
  }

  lemma NamesAfter(e: map<Path, Node>, order: Order, kind: Kind, root: Path, names: seq<string>,
                   mode: string, dryRun: bool, fold: Fold)
    requires names != []
    ensures var r := EntryRun(e, order, kind, root, names[0], mode, dryRun, fold);
      NamesRun(e, order, kind, root, names, mode, dryRun, fold).after ==
        if r.outcome.Fail? then r.after else NamesRun(r.after, order, kind, root, names[1..], mode, dryRun, fold).after
  {
  }

  lemma StepKeeps(e: map<Path, Node>, order: Order, s: Step, mode: string, dryRun: bool, fold: Fold)
    requires Tree(e)
    ensures Keeps(e, StepRun(e, order, s, mode, dryRun, fold).after)
  {
    var r := NamesRun(e, order, FileKind, s.root, s.files, mode, dryRun, fold);
    NamesKeep(e, order, FileKind, s.root, s.files, mode, dryRun, fold);
    if r.outcome.Pass? {
      NamesKeep(r.after, order, DirKind, s.root, s.dirs, mode, dryRun, fold);
    }
  }

  /** Whatever the outcome, the entries after the walk form a tree holding
      exactly the file contents it held before. */
  lemma {:induction false} StepsKeep(e: map<Path, Node>, order: Order, w: seq<Step>, mode: string, dryRun: bool, fold: Fold)
    requires Tree(e)
    ensures Keeps(e, StepsRun(e, order, w, mode, dryRun, fold).after)
    decreases |w|
  {
    if w != [] {
      var r := StepRun(e, order, w[0], mode, dryRun, fold);
      StepKeeps(e, order, w[0], mode, dryRun, fold);
      if r.outcome.Pass? {
        StepsKeep(r.after, order, w[1..], mode, dryRun, fold);
      }
    }
  }

  // ---------------------------------------------------------------------------
  // Nothing outside the directory changes

  /** A file rename in `root` changes nothing outside `root`. When the
      entry is gone the rename fails and nothing changes. */
  lemma FileInside(e: map<Path, Node>, root: Path, name: string, newName: string)
    requires Tree(e) && PlainName(name) && Fs.StaysIn(newName)
    ensures SameOutside(e, RenameFileRun(e, root, name, newName).after, root)
  {
    var k := FreeIndex(e, root, newName, 0);
    var src, target := root + [name], Candidate(root, newName, k);
    ChildBelow(root, root, name);
    if src in e {
      assert src[..|src| - 1] == root;
      assert root in e;
      CandidateInside(root, newName, k, root);
      assert target != root;
      RenameRunInside(e, src, target, root);
    } else {
      assert !RenameOk(e, src, target);
    }
  }

  /** A directory rename or merge in `root` changes nothing outside `root`. */
  lemma DirInside(e: map<Path, Node>, order: Order, root: Path, name: string, newName: string)
    requires Tree(e) && OrderOk(order) && PlainName(name) && Fs.StaysIn(newName)
    ensures SameOutside(e, RenameDirRun(e, order, root, name, newName).after, root)
  {
    if Join(root, newName) in e {
      DirMergeInside(e, order, root, name, newName);
    } else {
      DirRenameInside(e, order, root, name, newName);
    }
  }

  lemma DirMergeInside(e: map<Path, Node>, order: Order, root: Path, name: string, newName: string)
    requires Tree(e) && OrderOk(order) && PlainName(name) && Fs.StaysIn(newName)
    requires Join(root, newName) in e
    ensures SameOutside(e, RenameDirRun(e, order, root, name, newName).after, root)
  {
    var src, dst := Join(root, name), Join(root, newName);
    ChildBelow(root, root, name);
    JoinStaysIn(root, newName);
    MergeInside(e, order, src, dst, root);
  }

  lemma DirRenameInside(e: map<Path, Node>, order: Order, root: Path, name: string, newName: string)
    requires Tree(e) && PlainName(name) && Fs.StaysIn(newName)
    requires Join(root, newName) !in e
    ensures SameOutside(e, RenameDirRun(e, order, root, name, newName).after, root)
  {
    var src, dst := root + [name], Join(root, newName);
    ChildBelow(root, root, name);
    JoinStaysIn(root, newName);
    if src in e {
      assert src[..|src| - 1] == root;
      assert root in e;
      ChildBelow(root, root, newName);
      RenameRunInside(e, src, dst, root);
    } else {
      assert !RenameOk(e, src, dst);
    }
  }

  /** A step in `root` changes nothing outside `root`, when the cleaned
      names stay in it. */
  lemma EntryInside(e: map<Path, Node>, order: Order, kind: Kind, root: Path, name: string,
                    mode: string, dryRun: bool, fold: Fold)
    requires Tree(e) && OrderOk(order) && root in e && PlainName(name)
    requires Fs.StaysIn(UnifileClean.CleanedName(name, mode, fold))
    ensures SameOutside(e, EntryRun(e, order, kind, root, name, mode, dryRun, fold).after, root)
  {
    var cleaned := UnifileClean.CleanFilename(UnifileClean.Str(name), mode, fold);
    if cleaned.Ok? && cleaned.value != name && !dryRun {
      if kind == FileKind {
        FileInside(e, root, name, cleaned.value);
      } else {
        DirInside(e, order, root, name, cleaned.value);
      }
    }
  }

  lemma {:induction false} NamesInside(e: map<Path, Node>, order: Order, kind: Kind, root: Path, names: seq<string>,
                                       mode: string, dryRun: bool, fold: Fold)
    requires Tree(e) && OrderOk(order) && root in e && e[root].Dir?
    requires forall n :: n in names ==> PlainName(n)
    requires UnifileClean.CleanStaysIn(mode, fold)
    ensures SameOutside(e, NamesRun(e, order, kind, root, names, mode, dryRun, fold).after, root)
    decreases |names|
  {
    if names != [] {
      var r := EntryRun(e, order, kind, root, names[0], mode, dryRun, fold);
      EntryInside(e, order, kind, root, names[0], mode, dryRun, fold);
      NamesAfter(e, order, kind, root, names, mode, dryRun, fold);
      if r.outcome.Pass? {
        EntryKeeps(e, order, kind, root, names[0], mode, dryRun, fold);
        assert !Below(root, root);
        NamesInside(r.after, order, kind, root, names[1..], mode, dryRun, fold);
        SameOutsideTrans(e, r.after, NamesRun(r.after, order, kind, root, names[1..], mode, dryRun, fold).after, root);
      }
    }
  }

  lemma StepInside(e: map<Path, Node>, order: Order, s: Step, mode: string, dryRun: bool, fold: Fold)
    requires Tree(e) && OrderOk(order) && s.root in e && e[s.root].Dir?
    requires (forall n :: n in s.files ==> PlainName(n)) && (forall n :: n in s.dirs ==> PlainName(n))
    requires UnifileClean.CleanStaysIn(mode, fold)
    ensures SameOutside(e, StepRun(e, order, s, mode, dryRun, fold).after, s.root)
  {
    var r := NamesRun(e, order, FileKind, s.root, s.files, mode, dryRun, fold);
    NamesInside(e, order, FileKind, s.root, s.files, mode, dryRun, fold);
    if r.outcome.Pass? {
      NamesKeep(e, order, FileKind, s.root, s.files, mode, dryRun, fold);
      assert !Below(s.root, s.root);
      NamesInside(r.after, order, DirKind, s.root, s.dirs, mode, dryRun, fold);
      SameOutsideTrans(e, r.after, NamesRun(r.after, order, DirKind, s.root, s.dirs, mode, dryRun, fold).after, s.root);
    }
  }

  /** What stays the same outside a directory stays the same outside any
      directory above it. */
  lemma SameOutsideWiden(e1: map<Path, Node>, e2: map<Path, Node>, top: Path, root: Path)
    requires IsPrefix(top, root) && SameOutside(e1, e2, root)
    ensures SameOutside(e1, e2, top)
  {
    forall p | Below(root, p)
      ensures Below(top, p)
    {
      assert p[..|top|] == root[..|top|];
    }
  }

  /** A bottom-up walk of the tree below `top` changes nothing outside
      `top`, when the cleaned names stay in their directories: each step
      changes only what lies below its own root, and no later root lies
      there. */
  lemma {:induction false} StepsInside(e: map<Path, Node>, order: Order, w: seq<Step>, mode: string, dryRun: bool,
                                       fold: Fold, top: Path)
    requires Tree(e) && OrderOk(order) && BottomUp(w) && WellListed(w, top)
    requires forall k :: 0 <= k < |w| ==> w[k].root in e && e[w[k].root].Dir?
    requires UnifileClean.CleanStaysIn(mode, fold)
    ensures SameOutside(e, StepsRun(e, order, w, mode, dryRun, fold).after, top)
    decreases |w|
  {
    if w != [] {
      var r := StepRun(e, order, w[0], mode, dryRun, fold);
      assert w[0].root in e && IsPrefix(top, w[0].root);
      StepInside(e, order, w[0], mode, dryRun, fold);
      SameOutsideWiden(e, r.after, top, w[0].root);
      if r.outcome.Pass? {
        StepKeeps(e, order, w[0], mode, dryRun, fold);
        RestOfWalk(e, r.after, w, top);
        StepsInside(r.after, order, w[1..], mode, dryRun, fold, top);
        SameOutsideTrans(e, r.after, StepsRun(r.after, order, w[1..], mode, dryRun, fold).after, top);
      }
    }
  }

  /** After the first step, the rest of a bottom-up walk still meets the
      hypotheses: its roots lie outside the first root, so they are still
      there. */
  lemma RestOfWalk(e: map<Path, Node>, e': map<Path, Node>, w: seq<Step>, top: Path)
    requires w != [] && BottomUp(w) && WellListed(w, top)
    requires forall k :: 0 <= k < |w| ==> w[k].root in e && e[w[k].root].Dir?
    requires SameOutside(e, e', w[0].root)
    ensures BottomUp(w[1..]) && WellListed(w[1..], top)
    ensures forall k :: 0 <= k < |w[1..]| ==> w[1..][k].root in e' && e'[w[1..][k].root].Dir?
  {
    forall k | 0 <= k < |w[1..]|
      ensures w[1..][k].root in e' && e'[w[1..][k].root].Dir?
    {
      assert w[1..][k] == w[k + 1];
      assert !IsPrefix(w[0].root, w[k + 1].root);
    }
    forall i, j | 0 <= i < j < |w[1..]|
      ensures !IsPrefix(w[1..][i].root, w[1..][j].root)
    {
      assert w[1..][i] == w[i + 1] && w[1..][j] == w[j + 1];
    }
    forall k | 0 <= k < |w[1..]|
      ensures IsPrefix(top, w[1..][k].root)
      ensures forall n :: n in w[1..][k].files ==> PlainName(n)
      ensures forall n :: n in w[1..][k].dirs ==> PlainName(n)
    {
      assert w[1..][k] == w[k + 1];
    }
  }

  // ---------------------------------------------------------------------------
  // A dry run logs exactly the proposals

  lemma {:induction false} NamesDryRun(e: map<Path, Node>, order: Order, kind: Kind, root: Path, names: seq<string>,
                                       mode: string, fold: Fold)
    requires UnifileClean.ValidMode(mode)
    ensures NamesRun(e, order, kind, root, names, mode, true, fold) ==
      Run(Pass, e, Proposals(kind, root, names, UnifileClean.Cleaner(mode, fold)))
    decreases |names|
  {
    if names != [] {
      NamesDryRun(e, order, kind, root, names[1..], mode, fold);
    }
  }

  lemma StepDryRun(e: map<Path, Node>, order: Order, s: Step, mode: string, fold: Fold)
    requires UnifileClean.ValidMode(mode)
    ensures StepRun(e, order, s, mode, true, fold) == Run(Pass, e, StepProposals(s, UnifileClean.Cleaner(mode, fold)))
  {
    NamesDryRun(e, order, FileKind, s.root, s.files, mode, fold);
    NamesDryRun(e, order, DirKind, s.root, s.dirs, mode, fold);
  }

  /** A dry run changes nothing, returns normally and logs one proposal per
      listed name that cleaning changes, in walk order. */
  lemma {:induction false} StepsDryRun(e: map<Path, Node>, order: Order, w: seq<Step>, mode: string, fold: Fold)
    requires UnifileClean.ValidMode(mode)
    ensures StepsRun(e, order, w, mode, true, fold) == Run(Pass, e, WalkProposals(w, UnifileClean.Cleaner(mode, fold)))
    decreases |w|
  {
    if w != [] {
      StepDryRun(e, order, w[0], mode, fold);
      StepsDryRun(e, order, w[1..], mode, fold);
    }
  }

  // ---------------------------------------------------------------------------
  // An invalid mode

  /** A step that lists no name. */
  predicate Empty(s: Step) {
    s.files == [] && s.dirs == []
  }

  predicate AllEmpty(w: seq<Step>) {
    forall k :: 0 <= k < |w| ==> Empty(w[k])
  }

  lemma {:induction false} NamesInvalid(e: map<Path, Node>, order: Order, kind: Kind, root: Path, names: seq<string>,
                                        mode: string, dryRun: bool, fold: Fold)
    requires !UnifileClean.ValidMode(mode)
    ensures NamesRun(e, order, kind, root, names, mode, dryRun, fold) ==
      if names == [] then Run(Pass, e, []) else Run(Fail(ValueError), e, [])
  {
  }

  lemma StepInvalid(e: map<Path, Node>, order: Order, s: Step, mode: string, dryRun: bool, fold: Fold)
    requires !UnifileClean.ValidMode(mode)
    ensures StepRun(e, order, s, mode, dryRun, fold) ==
      if Empty(s) then Run(Pass, e, []) else Run(Fail(ValueError), e, [])
  {
    NamesInvalid(e, order, FileKind, s.root, s.files, mode, dryRun, fold);
    NamesInvalid(e, order, DirKind, s.root, s.dirs, mode, dryRun, fold);
  }

  /** Under an invalid mode the first listed name raises `ValueError`;
      nothing changes and nothing is logged, and the call returns normally
      only when no step lists a name. */
  lemma {:induction false} StepsInvalid(e: map<Path, Node>, order: Order, w: seq<Step>, mode: string, dryRun: bool, fold: Fold)
    requires !UnifileClean.ValidMode(mode)
    ensures StepsRun(e, order, w, mode, dryRun, fold) ==
      if AllEmpty(w) then Run(Pass, e, []) else Run(Fail(ValueError), e, [])
    decreases |w|
  {
    if w != [] {
      StepInvalid(e, order, w[0], mode, dryRun, fold);
      StepsInvalid(e, order, w[1..], mode, dryRun, fold);
      AllEmptySplit(w);
    }
  }

  lemma AllEmptySplit(w: seq<Step>)
    requires w != []
    ensures AllEmpty(w) <==> Empty(w[0]) && AllEmpty(w[1..])
  {
    if Empty(w[0]) && AllEmpty(w[1..]) {
      forall k | 0 <= k < |w|
        ensures Empty(w[k])
      {
        if k > 0 {
          assert w[k] == w[1..][k - 1];
        }
      }
    }
    if AllEmpty(w) {
      forall k | 0 <= k < |w[1..]|
        ensures Empty(w[1..][k])
      {
        assert w[1..][k] == w[k + 1];
      }
    }
  }

  /** A walk lists no name exactly when nothing lies below its top. */
  lemma WalkEmpty(e: map<Path, Node>, top: Path, w: seq<Step>)
    requires Tree(e) && IsWalk(e, top, w)
    ensures AllEmpty(w) <==> forall p :: p in e ==> !Below(top, p)
  {
    WalkListsSomething(e, top, w);
  }

  // ---------------------------------------------------------------------------
  // A real run settles the proposals of a dry run, one by one

  /** `rec`, logged by a real run, settles the proposal `prop` a dry run logs
      for the same entry: a file was renamed onto a candidate for its
      cleaned name, a directory renamed or merged onto the proposed path, or
      an error was logged for the entry. */
  ghost predicate Settles(rec: Record, prop: Record, clean: string -> string) {
    && prop.WouldRename?
    && match rec
       case WouldRename(_, _, _) => false
       case Renamed(kind, from, to) =>
         && kind == prop.kind && from == prop.from
         && (if kind == FileKind then from != [] && exists n :: to == Candidate(Parent(from), clean(Last(from)), n) else to == prop.to)
       case Merged(from, to) => prop.kind == DirKind && from == prop.from && to == prop.to
       case Failed(at) => at == prop.from
  }

  /** Record by record, `log` settles the first `|log|` proposals. */
  ghost predicate SettlesPrefix(log: seq<Record>, props: seq<Record>, clean: string -> string) {
    |log| <= |props| && forall i :: 0 <= i < |log| ==> Settles(log[i], props[i], clean)
  }

  /** The exceptions a real run lets through: none, or an `OSError` out of a
      merge. */
  predicate PassOrOs(o: Outcome) {
    o == Pass || o == Fail(OSError)
  }

  lemma SettlesConcat(a: seq<Record>, pa: seq<Record>, b: seq<Record>, pb: seq<Record>, clean: string -> string)
    requires SettlesPrefix(a, pa, clean) && |a| == |pa| && SettlesPrefix(b, pb, clean)
    ensures SettlesPrefix(a + b, pa + pb, clean)
  {
    forall i | 0 <= i < |a + b|
      ensures Settles((a + b)[i], (pa + pb)[i], clean)
    {
      if i >= |a| {
        assert (a + b)[i] == b[i - |a|] && (pa + pb)[i] == pb[i - |a|];
      }
    }
  }

  lemma SettlesExtend(a: seq<Record>, pa: seq<Record>, pb: seq<Record>, clean: string -> string)
    requires SettlesPrefix(a, pa, clean)
    ensures SettlesPrefix(a, pa + pb, clean)
  {
    forall i | 0 <= i < |a|
      ensures Settles(a[i], (pa + pb)[i], clean)
    {
      assert (pa + pb)[i] == pa[i];
    }
  }

  /** A merge raises nothing but `OSError`, and logs nothing itself. */
  lemma {:induction false} GrandchildrenOs(e: map<Path, Node>, s: Path, d: Path, subs: seq<string>)
    ensures PassOrOs(GrandchildrenRun(e, s, d, subs).outcome) && GrandchildrenRun(e, s, d, subs).log == []
    decreases |subs|
  {
    if subs != [] {
      var r := GrandchildRun(e, s, d, subs[0]);
      if r.outcome.Pass? {
        GrandchildrenOs(r.after, s, d, subs[1..]);
      }
    }
  }

  lemma MoveOs(e: map<Path, Node>, s: Path, t: Path)
    ensures PassOrOs(MoveRun(e, s, t).outcome) && MoveRun(e, s, t).log == []
  {
  }

  lemma MergeChildOs(e: map<Path, Node>, order: Order, s: Path, d: Path)
    ensures PassOrOs(MergeChildRun(e, order, s, d).outcome) && MergeChildRun(e, order, s, d).log == []
  {
    if s in e && e[s].Dir? {
      GrandchildrenOs(e, s, d, order(Names(e, s)));
    }
  }

  lemma MergeItemOs(e: map<Path, Node>, order: Order, src: Path, dst: Path, item: string)
    ensures PassOrOs(MergeItemRun(e, order, src, dst, item).outcome) && MergeItemRun(e, order, src, dst, item).log == []
  {
    var s, d := Join(src, item), Join(dst, item);
    if d in e {
      if s in e && e[s].File? {
        MoveOs(e, s, Candidate(dst, item, FreeIndex(e, dst, item, 1)));
      } else {
        MergeChildOs(e, order, s, d);
      }
    } else {
      MoveOs(e, s, d);
    }
  }

  lemma {:induction false} MergeItemsOs(e: map<Path, Node>, order: Order, src: Path, dst: Path, items: seq<string>)
    ensures PassOrOs(MergeItemsRun(e, order, src, dst, items).outcome) && MergeItemsRun(e, order, src, dst, items).log == []
    decreases |items|
  {
    if items != [] {
      var r := MergeItemRun(e, order, src, dst, items[0]);
      MergeItemOs(e, order, src, dst, items[0]);
      if r.outcome.Pass? {
        MergeItemsOs(r.after, order, src, dst, items[1..]);
      }
    }
  }

  lemma MergeOs(e: map<Path, Node>, order: Order, src: Path, dst: Path)
    ensures PassOrOs(MergeRun(e, order, src, dst).outcome) && MergeRun(e, order, src, dst).log == []
  {
    if src in e && e[src].Dir? {
      MergeItemsOs(e, order, src, dst, order(Names(e, src)));
    }
  }

  /** One listed name under a valid mode: it logs nothing when cleaning
      leaves it alone, else one record settling its proposal, unless a
      merge raised `OSError`. */
  lemma FileSettles(e: map<Path, Node>, root: Path, name: string, clean: string -> string)
    requires PlainName(name) && clean(name) != name
    ensures var r := RenameFileRun(e, root, name, clean(name));
      && r.outcome == Pass && |r.log| == 1
      && Settles(r.log[0], WouldRename(FileKind, root + [name], Join(root, clean(name))), clean)
  {
    var src := root + [name];
    var k := FreeIndex(e, root, clean(name), 0);
    assert Parent(src) == root && Last(src) == name;
    var rec := RenameFileRun(e, root, name, clean(name)).log[0];
    if rec.Renamed? {
      assert rec.to == Candidate(Parent(rec.from), clean(Last(rec.from)), k);
    }
  }

  /** A real file rename logs `Renamed` exactly when POSIX allows renaming
      the file onto the first free candidate, and the file is then there;
      otherwise it logs `Failed` and nothing changes. The walk goes on
      either way. */
  lemma FileRenameRecord(e: map<Path, Node>, root: Path, name: string, newName: string)
    ensures var src, target := Join(root, name), Candidate(root, newName, FreeIndex(e, root, newName, 0));
      var r := RenameFileRun(e, root, name, newName);
      && r.outcome == Pass && |r.log| == 1
      && (r.log[0] == Renamed(FileKind, src, target) <==> RenameOk(e, src, target))
      && (r.log[0] == Failed(src) <==> !RenameOk(e, src, target))
      && r.after == if RenameOk(e, src, target) then Fs.Renamed(e, src, target) else e
  {
  }

  /** A directory whose cleaned name is free is renamed, and `Renamed`
      logged, exactly when POSIX allows it; one whose cleaned name exists is
      merged into it, and `Merged` logged, exactly when the merge returns. */
  lemma DirRenameRecord(e: map<Path, Node>, order: Order, root: Path, name: string, newName: string)
    ensures var src, dst := Join(root, name), Join(root, newName);
      var r := RenameDirRun(e, order, root, name, newName);
      && (dst !in e ==>
            && r.outcome == Pass
            && (r.log == [Renamed(DirKind, src, dst)] <==> RenameOk(e, src, dst))
            && (r.log == [Failed(src)] <==> !RenameOk(e, src, dst))
            && r.after == if RenameOk(e, src, dst) then Fs.Renamed(e, src, dst) else e)
      && (dst in e ==>
            && r.after == MergeRun(e, order, src, dst).after
            && (r.outcome.Pass? <==> r.log == [Merged(src, dst)]))
  {
    var src, dst := Join(root, name), Join(root, newName);
    if dst in e {
      MergeOs(e, order, src, dst);
    }
  }

  lemma DirSettles(e: map<Path, Node>, order: Order, root: Path, name: string, clean: string -> string)
    requires PlainName(name) && clean(name) != name
    ensures var r := RenameDirRun(e, order, root, name, clean(name));
      && PassOrOs(r.outcome) && (r.outcome.Pass? <==> |r.log| == 1) && |r.log| <= 1
      && (r.log != [] ==> Settles(r.log[0], WouldRename(DirKind, root + [name], Join(root, clean(name))), clean))
  {
    if Join(root, clean(name)) in e {
      MergeOs(e, order, root + [name], Join(root, clean(name)));
    }
  }

  /** One listed name under a valid mode: it logs nothing when cleaning
      leaves it alone, else one record settling its proposal, unless a
      merge raised `OSError`. */
  lemma EntrySettles(e: map<Path, Node>, order: Order, kind: Kind, root: Path, name: string, mode: string, fold: Fold)
    requires UnifileClean.ValidMode(mode) && PlainName(name)
    ensures var r := EntryRun(e, order, kind, root, name, mode, false, fold);
      var props := Proposal(kind, root, name, UnifileClean.Cleaner(mode, fold));
      && SettlesPrefix(r.log, props, UnifileClean.Cleaner(mode, fold))
      && PassOrOs(r.outcome)
      && (r.outcome.Pass? ==> |r.log| == |props|)
  {
    var clean := UnifileClean.Cleaner(mode, fold);
    assert clean(name) == UnifileClean.CleanedName(name, mode, fold);
    if clean(name) != name {
      if kind == FileKind {
        FileSettles(e, root, name, clean);
      } else {
        DirSettles(e, order, root, name, clean);
      }
    }
  }

  lemma {:induction false} NamesSettle(e: map<Path, Node>, order: Order, kind: Kind, root: Path, names: seq<string>,
                                       mode: string, fold: Fold)
    requires UnifileClean.ValidMode(mode) && forall n :: n in names ==> PlainName(n)
    ensures var r := NamesRun(e, order, kind, root, names, mode, false, fold);
      var props := Proposals(kind, root, names, UnifileClean.Cleaner(mode, fold));
      && SettlesPrefix(r.log, props, UnifileClean.Cleaner(mode, fold))
      && PassOrOs(r.outcome)
      && (r.outcome.Pass? ==> |r.log| == |props|)
    decreases |names|
  {
    if names != [] {
      var clean := UnifileClean.Cleaner(mode, fold);
      var r := EntryRun(e, order, kind, root, names[0], mode, false, fold);
      EntrySettles(e, order, kind, root, names[0], mode, fold);
      var p0, p1 := Proposal(kind, root, names[0], clean), Proposals(kind, root, names[1..], clean);
      assert Proposals(kind, root, names, clean) == p0 + p1;
      if r.outcome.Pass? {
        NamesSettle(r.after, order, kind, root, names[1..], mode, fold);
        SettlesConcat(r.log, p0, NamesRun(r.after, order, kind, root, names[1..], mode, false, fold).log, p1, clean);
      } else {
        SettlesExtend(r.log, p0, p1, clean);
      }
    }
  }

  lemma StepSettles(e: map<Path, Node>, order: Order, s: Step, mode: string, fold: Fold)
    requires UnifileClean.ValidMode(mode)
    requires (forall n :: n in s.files ==> PlainName(n)) && (forall n :: n in s.dirs ==> PlainName(n))
    ensures var r := StepRun(e, order, s, mode, false, fold);
      var props := StepProposals(s, UnifileClean.Cleaner(mode, fold));
      && SettlesPrefix(r.log, props, UnifileClean.Cleaner(mode, fold))
      && PassOrOs(r.outcome)
      && (r.outcome.Pass? ==> |r.log| == |props|)
  {
    var clean := UnifileClean.Cleaner(mode, fold);
    var r := NamesRun(e, order, FileKind, s.root, s.files, mode, false, fold);
    NamesSettle(e, order, FileKind, s.root, s.files, mode, fold);
    var p0, p1 := Proposals(FileKind, s.root, s.files, clean), Proposals(DirKind, s.root, s.dirs, clean);
    if r.outcome.Pass? {
      NamesSettle(r.after, order, DirKind, s.root, s.dirs, mode, fold);
      SettlesConcat(r.log, p0, NamesRun(r.after, order, DirKind, s.root, s.dirs, mode, false, fold).log, p1, clean);
    } else {
      SettlesExtend(r.log, p0, p1, clean);
    }
  }

  /** A real run under a valid mode logs, in walk order, one record for
      each proposal of the dry run over the same walk, settling it; it
      raises only an `OSError` out of a merge, and when it returns it has
      settled every proposal. */
  lemma {:induction false} StepsSettle(e: map<Path, Node>, order: Order, w: seq<Step>, mode: string, fold: Fold, top: Path)
    requires UnifileClean.ValidMode(mode) && WellListed(w, top)
    ensures var r := StepsRun(e, order, w, mode, false, fold);
      var props := WalkProposals(w, UnifileClean.Cleaner(mode, fold));
      && SettlesPrefix(r.log, props, UnifileClean.Cleaner(mode, fold))
      && PassOrOs(r.outcome)
      && (r.outcome.Pass? ==> |r.log| == |props|)
    decreases |w|
  {
    if w != [] {
      var clean := UnifileClean.Cleaner(mode, fold);
      var r := StepRun(e, order, w[0], mode, false, fold);
      StepSettles(e, order, w[0], mode, fold);
      var p0, p1 := StepProposals(w[0], clean), WalkProposals(w[1..], clean);
      if r.outcome.Pass? {
        WellListedRest(w, top);
        StepsSettle(r.after, order, w[1..], mode, fold, top);
        SettlesConcat(r.log, p0, StepsRun(r.after, order, w[1..], mode, false, fold).log, p1, clean);
      } else {
        SettlesExtend(r.log, p0, p1, clean);
      }
    }
  }

  // ---------------------------------------------------------------------------
  // Names that are already clean

  /** Cleaning leaves every name the walk lists alone. */
  ghost predicate AllClean(w: seq<Step>, clean: string -> string) {
    forall k :: 0 <= k < |w| ==> CleanStep(w[k], clean)
  }

  /** Cleaning leaves every name listed in the step alone. */
  ghost predicate CleanStep(s: Step, clean: string -> string) {
    (forall n :: n in s.files ==> clean(n) == n) && (forall n :: n in s.dirs ==> clean(n) == n)
  }

  lemma AllCleanHead(w: seq<Step>, clean: string -> string)
    requires w != [] && AllClean(w, clean)
    ensures CleanStep(w[0], clean)
  {
  }

  lemma AllCleanRest(w: seq<Step>, clean: string -> string)
    requires w != [] && AllClean(w, clean)
    ensures AllClean(w[1..], clean)
  {
    forall k | 0 <= k < |w[1..]|
      ensures CleanStep(w[1..][k], clean)
    {
      assert w[1..][k] == w[k + 1];
    }
  }

  lemma {:induction false} NamesClean(e: map<Path, Node>, order: Order, kind: Kind, root: Path, names: seq<string>,
                                      mode: string, dryRun: bool, fold: Fold)
    requires UnifileClean.ValidMode(mode)
    requires forall n :: n in names ==> UnifileClean.CleanedName(n, mode, fold) == n
    ensures NamesRun(e, order, kind, root, names, mode, dryRun, fold) == Run(Pass, e, [])
    decreases |names|
  {
    if names != [] {
      EntryClean(e, order, kind, root, names[0], mode, dryRun, fold);
      NamesClean(e, order, kind, root, names[1..], mode, dryRun, fold);
    }
  }

  lemma EntryClean(e: map<Path, Node>, order: Order, kind: Kind, root: Path, name: string,
                   mode: string, dryRun: bool, fold: Fold)
    requires UnifileClean.ValidMode(mode) && UnifileClean.CleanedName(name, mode, fold) == name
    ensures EntryRun(e, order, kind, root, name, mode, dryRun, fold) == Run(Pass, e, [])
  {
  }

  /** Over a walk whose names are all clean, nothing is renamed and nothing
      is logged, dry run or not (the `new_name != name` tests of lines 111
      and 134). */
  lemma {:induction false} StepsClean(e: map<Path, Node>, order: Order, w: seq<Step>, mode: string, dryRun: bool, fold: Fold)
    requires UnifileClean.ValidMode(mode) && AllClean(w, UnifileClean.Cleaner(mode, fold))
    ensures StepsRun(e, order, w, mode, dryRun, fold) == Run(Pass, e, [])
    decreases |w|
  {
    if w != [] {
      AllCleanHead(w, UnifileClean.Cleaner(mode, fold));
      StepClean(e, order, w[0], mode, dryRun, fold);
      AllCleanRest(w, UnifileClean.Cleaner(mode, fold));
      StepsClean(e, order, w[1..], mode, dryRun, fold);
    }
  }

  lemma StepClean(e: map<Path, Node>, order: Order, s: Step, mode: string, dryRun: bool, fold: Fold)
    requires UnifileClean.ValidMode(mode) && CleanStep(s, UnifileClean.Cleaner(mode, fold))
    ensures StepRun(e, order, s, mode, dryRun, fold) == Run(Pass, e, [])
  {
    NamesClean(e, order, FileKind, s.root, s.files, mode, dryRun, fold);
    NamesClean(e, order, DirKind, s.root, s.dirs, mode, dryRun, fold);
  }

  // ---------------------------------------------------------------------------
  // The inner merge as written loses content

  /** The discrepancy of lines 160-162: when the grandchild `name` is a file
      in both `s` and `d`, the unchecked `shutil.move` of the as-written
      inner merge succeeds and the content of `d/name` is gone from the tree. */
  lemma GrandchildClobbered(e: map<Path, Node>, s: Path, d: Path, name: string)
    requires Tree(e) && |s| == |d| && s != d
    requires s + [name] in e && e[s + [name]].File?
    requires d + [name] in e && e[d + [name]].File?
    requires forall p :: p in e && p != d + [name] && e[p].File? ==> e[p].data != e[d + [name]].data
    ensures MoveOk(e, s + [name], d + [name]) && MoveTarget(e, s + [name], d + [name]) == d + [name]
    ensures e[d + [name]].data in FileData(e)
    ensures e[d + [name]].data !in FileData(Fs.Renamed(e, s + [name], d + [name]))
  {
    var from, to := s + [name], d + [name];
    assert from != to && |from| == |to| by {
      assert from[..|s|] == s && to[..|d|] == d;
    }
    FileOverFile(e, from, to);
    OverwriteLoses(e, from, to);
  }

  /** The concrete case: `tést/a/x.txt` (content 1) and `test/a/x.txt`
      (content 2); `tést` cleans to `test` in ascii mode, and moving the
      grandchild loses content 2. */
  lemma GrandchildClobberedExample()
    ensures 2 in FileData(ClobberTree())
    ensures 2 !in FileData(Fs.Renamed(ClobberTree(), ["t\U{E9}st", "a", "x.txt"], ["test", "a", "x.txt"]))
  {
    var e := ClobberTree();
    ClobberTreeShape();
    assert ["t\U{E9}st", "a"] + ["x.txt"] == ["t\U{E9}st", "a", "x.txt"];
    assert ["test", "a"] + ["x.txt"] == ["test", "a", "x.txt"];
    GrandchildClobbered(e, ["t\U{E9}st", "a"], ["test", "a"], "x.txt");
  }

  /** The whole inner merge as written, when `s` holds just the file
      `name` and `d` holds a file of that name too: it returns normally and
      the content only `d/name` held is gone. */
  lemma MergeChildAsWrittenClobbers(e: map<Path, Node>, order: Order, s: Path, d: Path, name: string)
    requires Tree(e) && OrderOk(order) && |s| == |d| && s != d
    requires s in e && e[s].Dir? && Names(e, s) == {name}
    requires s + [name] in e && e[s + [name]].File?
    requires d + [name] in e && e[d + [name]].File?
    requires forall p :: p in e && p != d + [name] && e[p].File? ==> e[p].data != e[d + [name]].data
    ensures MergeChildAsWrittenRun(e, order, s, d).outcome == Pass
    ensures e[d + [name]].data in FileData(e)
    ensures e[d + [name]].data !in FileData(MergeChildAsWrittenRun(e, order, s, d).after)
  {
    GrandchildClobbered(e, s, d, name);
    SingleFileMerge(e, order, s, d, name);
    var moved := Fs.Renamed(e, s + [name], d + [name]);
    RmdirKeepsData(moved, s);
  }

  /** The steps of that inner merge: one move onto `d/name`, then the
      `rmdir` of the emptied `s`. */
  lemma SingleFileMerge(e: map<Path, Node>, order: Order, s: Path, d: Path, name: string)
    requires Tree(e) && OrderOk(order) && |s| == |d| && s != d
    requires s in e && e[s].Dir? && Names(e, s) == {name}
    requires MoveOk(e, s + [name], d + [name]) && MoveTarget(e, s + [name], d + [name]) == d + [name]
    ensures var moved := Fs.Renamed(e, s + [name], d + [name]);
      RmdirOk(moved, s) && MergeChildAsWrittenRun(e, order, s, d) == Run(Pass, moved - {s}, [])
  {
    NameEntry(e, s, name);
    SingleName(order, name);
    var moved := Fs.Renamed(e, s + [name], d + [name]);
    assert GrandchildrenAsWrittenRun(e, s, d, [name]) == Run(Pass, moved, []) by {
      assert [name][1..] == [];
    }
    assert !IsPrefix(s, d + [name]) by {
      assert (d + [name])[..|s|] == d;
    }
    RenamedLeavesEmpty(e, s, name, d + [name]);
    RenamedKept(e, s + [name], d + [name], s);
  }

  /** The concrete case through the whole inner merge, in any listing
      order. */
  lemma MergeChildAsWrittenLoses(order: Order)
    requires OrderOk(order)
    ensures MergeChildAsWrittenRun(ClobberTree(), order, ["t\U{E9}st", "a"], ["test", "a"]).outcome == Pass
    ensures 2 in FileData(ClobberTree())
    ensures 2 !in FileData(MergeChildAsWrittenRun(ClobberTree(), order, ["t\U{E9}st", "a"], ["test", "a"]).after)
  {
    var s, d := ["t\U{E9}st", "a"], ["test", "a"];
    ClobberTreeShape();
    ClobberNames();
    assert s + ["x.txt"] == ["t\U{E9}st", "a", "x.txt"] && d + ["x.txt"] == ["test", "a", "x.txt"];
    MergeChildAsWrittenClobbers(ClobberTree(), order, s, d, "x.txt");
  }

  /** A directory holding one name is listed as just that name. */
  lemma SingleName(order: Order, name: string)
    requires OrderOk(order)
    ensures order({name}) == [name]
  {
    var l := order({name});
    var listed := set n | n in l;
    assert Distinct(l) && listed == {name};
    assert name in listed;
    forall i | 0 <= i < |l|
      ensures l[i] == name
    {
      assert l[i] in listed;
    }
    if |l| > 1 {
      DistinctFirstTwo(l);
      assert false;
    }
  }

  lemma DistinctFirstTwo(l: seq<string>)
    requires Distinct(l) && |l| > 1
    ensures l[0] != l[1]
  {
  }

  lemma ClobberNames()
    ensures Names(ClobberTree(), ["t\U{E9}st", "a"]) == {"x.txt"}
  {
    var s := ["t\U{E9}st", "a"];
    assert (s + ["x.txt"])[..|s|] == s;
  }

  /** Moving the only entry of `s` somewhere not inside `s` empties it. */
  lemma RenamedLeavesEmpty(e: map<Path, Node>, s: Path, n: string, dst: Path)
    requires Names(e, s) == {n} && |dst| > |s| && !IsPrefix(s, dst)
    ensures Names(Fs.Renamed(e, s + [n], dst), s) == {}
  {
    forall q | q in Fs.Renamed(e, s + [n], dst) && |q| == |s| + 1 && q[..|s|] == s
      ensures false
    {
      if q in Moved(e, s + [n], dst) {
        assert false;
      } else {
        ChildName(e, s, q);
        assert false;
      }
    }
  }

  lemma ChildName(e: map<Path, Node>, s: Path, q: Path)
    requires q in e && |q| == |s| + 1 && q[..|s|] == s
    ensures q[|s|] in Names(e, s) && q == s + [q[|s|]]
  {
  }

  lemma ClobberTreeShape()
    ensures Tree(ClobberTree())
    ensures forall p :: p in ClobberTree() && p != ["test", "a", "x.txt"] && ClobberTree()[p].File? ==> ClobberTree()[p].data != 2
  {
    var e := ClobberTree();
    forall p | p in e
      ensures p != [] ==> PlainName(p[|p| - 1]) && p[..|p| - 1] in e && e[p[..|p| - 1]].Dir?
      ensures p != ["test", "a", "x.txt"] && e[p].File? ==> e[p].data != 2
    {
      if p == ["t\U{E9}st", "a", "x.txt"] {
        assert p[..|p| - 1] == ["t\U{E9}st", "a"];
      } else if p == ["test", "a", "x.txt"] {
        assert p[..|p| - 1] == ["test", "a"];
      } else if p == ["t\U{E9}st", "a"] {
        assert p[..|p| - 1] == ["t\U{E9}st"];
      } else if p == ["test", "a"] {
        assert p[..|p| - 1] == ["test"];
      } else if p != [] {
        assert p[..|p| - 1] == [];
      }
    }
  }

  function ClobberTree(): map<Path, Node> {
    map[[] := Dir, ["t\U{E9}st"] := Dir, ["t\U{E9}st", "a"] := Dir, ["t\U{E9}st", "a", "x.txt"] := File(1),
        ["test"] := Dir, ["test", "a"] := Dir, ["test", "a", "x.txt"] := File(2)]
  }

  /** `shutil.move` of a file onto another file of the same depth goes ahead. */
  lemma FileOverFile(e: map<Path, Node>, from: Path, to: Path)
    requires Tree(e) && |from| == |to| && from != to
    requires from in e && e[from].File? && to in e && e[to].File?
    ensures MoveOk(e, from, to) && MoveTarget(e, from, to) == to
  {
    assert to != [] && Parent(to) in e;
    assert !IsPrefix(from, to);
  }

  /** A rename onto `to` drops the content only `to` held. */
  lemma OverwriteLoses(e: map<Path, Node>, from: Path, to: Path)
    requires |from| == |to| && from != to && to in e && e[to].File?
    requires forall p :: p in e && p != to && e[p].File? ==> e[p].data != e[to].data
    ensures e[to].data in FileData(e)
    ensures e[to].data !in FileData(Fs.Renamed(e, from, to))
  {
    var lost := e[to].data;
    var r := Fs.Renamed(e, from, to);
    forall p | p in r && r[p].File?
      ensures r[p].data != lost
    {
      if p in Moved(e, from, to) {
        var q :| q in e && IsPrefix(from, q) && Reroot(q, from, to) == p;
        RerootInjective(from, to);
        assert r[p] == Moved(e, from, to)[p] == e[q];
      } else {
        assert p in Kept(e, from, to);
      }
    }
  }
}
