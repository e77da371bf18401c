/** The file system the rewriters act on: a map from absolute paths (lists of
    path components) to files and directories, with the POSIX `os.rename`,
    `shutil.move`, `os.rmdir` and `os.listdir` that the rewriters call. */
module Fs {
  import opened Errors

  type Path = seq<string>

  /** A file carries an opaque content marker, so that losing a file's
      content is observable. */
  datatype Node = File(data: nat) | Dir

  predicate IsPrefix(p: Path, q: Path) {
    |p| <= |q| && q[..|p|] == p
  }

  function Parent(p: Path): Path
    requires p != []
  {
    p[..|p| - 1]
  }

  function Last(p: Path): string
    requires p != []
  {
    p[|p| - 1]
  }

  /** A name a directory can hold: not empty, not `.` or `..`, and without
      a slash. */
  predicate PlainName(n: string) {
    n != "" && n != "." && n != ".." && '/' !in n
  }

  /** The slash-separated parts of `s`, as `s.split('/')`: always at least
      one, none holding a slash. */
  function Split(s: string): (r: seq<string>)
    ensures |r| >= 1
    ensures forall i :: 0 <= i < |r| ==> '/' !in r[i]
  {
    if s == [] then [""]
    else if s[|s| - 1] == '/' then Split(s[..|s| - 1]) + [""]
    else
      var r := Split(s[..|s| - 1]);
      r[..|r| - 1] + [r[|r| - 1] + [s[|s| - 1]]]
  }

  /** One step of path resolution: `""` and `.` stay, `..` goes up (the root
      is its own parent), any other part goes down. */
  function Enter(p: Path, part: string): Path {
    if part == "" || part == "." then p
    else if part == ".." then (if p == [] then [] else Parent(p))
    else p + [part]
  }

  /** The parts resolved from `base` one after the other. */
  function Resolve(base: Path, parts: seq<string>): Path {
    if parts == [] then base else Enter(Resolve(base, parts[..|parts| - 1]), parts[|parts| - 1])
  }

  /** The entry `os.path.join(root, name)` names, resolved lexically: a
      name that starts with a slash starts again from `/`, and the parts of
      the name are resolved from there, without asking whether a part exists
      or is a directory. A plain name is one entry inside `root`; `''` and
      `.` name `root` itself. */
  function Join(root: Path, name: string): (r: Path)
    ensures PlainName(name) ==> r == root + [name]
    ensures name == "" || name == "." ==> r == root
  {
    SplitNoSlash(name);
    ResolveOne(root, name);
    Resolve(if name != [] && name[0] == '/' then [] else root, Split(name))
  }

  lemma ResolveOne(base: Path, part: string)
    ensures Resolve(base, [part]) == Enter(base, part)
  {
    assert [part][..0] == [];
  }

  lemma ResolveSnoc(base: Path, parts: seq<string>, part: string)
    ensures Resolve(base, parts + [part]) == Enter(Resolve(base, parts), part)
  {
    assert (parts + [part])[..|parts|] == parts;
  }

  /** A string without a slash is one part. */
  lemma {:induction false} SplitNoSlash(s: string)
    ensures '/' !in s ==> Split(s) == [s]
    decreases |s|
  {
    if '/' !in s && s != [] {
      var init := s[..|s| - 1];
      assert '/' !in init by {
        assert forall j :: 0 <= j < |init| ==> init[j] == s[j];
      }
      SplitNoSlash(init);
      assert init + [s[|s| - 1]] == s;
    }
  }

  /** Text without a slash, appended to `a`, extends the last part of `a`. */
  lemma {:induction false} SplitAppend(a: string, b: string)
    requires '/' !in b
    ensures var r := Split(a); Split(a + b) == r[..|r| - 1] + [r[|r| - 1] + b]
    decreases |b|
  {
    var r := Split(a);
    if b == [] {
      assert a + b == a;
      assert r[|r| - 1] + b == r[|r| - 1];
      assert r[..|r| - 1] + [r[|r| - 1]] == r;
    } else {
      var b' := b[..|b| - 1];
      assert (a + b)[..|a + b| - 1] == a + b';
      SplitAppend(a, b');
      assert r[|r| - 1] + b' + [b[|b| - 1]] == r[|r| - 1] + b;
    }
  }

  /** The parts of `a/b`, for `b` without a slash, are those of `a` and then
      `b`. */
  lemma SplitSlash(a: string, b: string)
    requires '/' !in b
    ensures Split(a + "/" + b) == Split(a) + [b]
  {
    SplitAppend(a + "/", b);
    assert (a + "/")[..|a + "/"| - 1] == a;
    var ra := Split(a) + [""];
    assert Split(a + "/") == ra;
    assert ra[..|ra| - 1] == Split(a);
    assert ra[|ra| - 1] + b == b;
  }

  /** Joining a name with a slash in it joins the part before the last slash
      first and then the part after it. */
  lemma JoinSlash(root: Path, a: string, b: string)
    requires a != "" && '/' !in b
    ensures Join(root, a + "/" + b) == Join(Join(root, a), b)
  {
    var s := a + "/" + b;
    SplitSlash(a, b);
    assert s[0] == a[0];
    ResolveSnoc(if a[0] == '/' then [] else root, Split(a), b);
    SplitNoSlash(b);
    ResolveOne(Join(root, a), b);
  }

  /** A name that starts with a slash names the same entry wherever it is
      joined. */
  lemma JoinAbsolute(root1: Path, root2: Path, name: string)
    requires name != "" && name[0] == '/'
    ensures Join(root1, name) == Join(root2, name)
  {
  }

  /** The names the ascii-mode decomposition can produce leave the directory
      they are joined to: `..` names its parent, `/tmp` an entry of the root. */
  lemma JoinLeaves()
    ensures Join(["home", "u"], "..") == ["home"]
    ensures Join(["home", "u"], "/tmp") == ["tmp"]
  {
    JoinDotDot(["home", "u"]);
    assert "/tmp" == "/" + "tmp";
    JoinRooted(["home", "u"], "tmp");
  }

  /** `..` names the parent. */
  lemma JoinDotDot(root: Path)
    requires root != []
    ensures Join(root, "..") == Parent(root)
  {
    SplitNoSlash("..");
    ResolveOne(root, "..");
  }

  /** `/n`, for a plain `n`, names the entry `n` of the root. */
  lemma JoinRooted(root: Path, n: string)
    requires PlainName(n)
    ensures Join(root, "/" + n) == [n]
  {
    var s := "/" + n;
    assert s == "" + "/" + n && s[0] == '/';
    SplitSlash("", n);
    assert Split(s) == [""] + [n];
    ResolveSnoc([], [""], n);
    ResolveOne([], "");
    assert Resolve([], [""] + [n]) == [n];
  }

  /** A name that holds no slash and is not `..`: joined to a directory it
      names that directory or an entry directly inside it. */
  predicate StaysIn(name: string) {
    '/' !in name && name != ".."
  }

  lemma JoinStaysIn(root: Path, name: string)
    requires StaysIn(name)
    ensures Join(root, name) == root || (PlainName(name) && Join(root, name) == root + [name])
  {
  }

  /** The root `/` is a directory, every other entry has a plain name and
      lives in a directory. */
  ghost predicate Tree(e: map<Path, Node>) {
    && [] in e && e[[]].Dir?
    && forall p :: p in e && p != [] ==> PlainName(p[|p| - 1]) && p[..|p| - 1] in e && e[p[..|p| - 1]].Dir?
  }

  /** The names of the entries directly inside `p`. */
  function Names(e: map<Path, Node>, p: Path): set<string> {
    set q | q in e && |q| == |p| + 1 && q[..|p|] == p :: q[|p|]
  }

  /** The names of the subdirectories and of the files directly inside `p`. */
  function DirNames(e: map<Path, Node>, p: Path): set<string> {
    set q | q in e && |q| == |p| + 1 && q[..|p|] == p && e[q].Dir? :: q[|p|]
  }

  function FileNames(e: map<Path, Node>, p: Path): set<string> {
    set q | q in e && |q| == |p| + 1 && q[..|p|] == p && e[q].File? :: q[|p|]
  }

  /** The contents of all files. */
  function FileData(e: map<Path, Node>): set<nat> {
    set p | p in e && e[p].File? :: e[p].data
  }

  /** When `os.rename(src, dst)` succeeds on POSIX: `src` exists and is not the
      root, the parent of `dst` is a directory, a directory is not moved into
      itself, and an existing `dst` is either a file replaced by a file or an
      empty directory replaced by a directory. */
  predicate RenameOk(e: map<Path, Node>, src: Path, dst: Path) {
    && src in e && src != [] && dst != [] && PlainName(Last(dst))
    && Parent(dst) in e && e[Parent(dst)].Dir?
    && (src == dst
        || (&& !IsPrefix(src, dst)
            && (|| dst !in e
                || (e[src].File? && e[dst].File?)
                || (e[src].Dir? && e[dst].Dir? && Names(e, dst) == {}))))
  }

  /** `q` with its prefix `src` replaced by `dst`. */
  function Reroot(q: Path, src: Path, dst: Path): Path
    requires IsPrefix(src, q)
  {
    dst + q[|src|..]
  }

  /** The entries after a successful rename: the subtree at `src` is now at
      `dst`, and whatever was at `dst` is gone. */
  function Renamed(e: map<Path, Node>, src: Path, dst: Path): map<Path, Node> {
    Kept(e, src, dst) + Moved(e, src, dst)
  }

  /** The entries a rename leaves where they are. */
  function Kept(e: map<Path, Node>, src: Path, dst: Path): map<Path, Node> {
    map p | p in e && !IsPrefix(src, p) && !IsPrefix(dst, p) :: e[p]
  }

  /** The subtree at `src`, rerooted at `dst`. */
  function Moved(e: map<Path, Node>, src: Path, dst: Path): map<Path, Node> {
    RerootInjective(src, dst);
    map q | q in e && IsPrefix(src, q) :: Reroot(q, src, dst) := e[q]
  }

  lemma RerootInjective(src: Path, dst: Path)
    ensures forall q1, q2 :: IsPrefix(src, q1) && IsPrefix(src, q2) && Reroot(q1, src, dst) == Reroot(q2, src, dst) ==> q1 == q2
  {
    forall q1, q2 | IsPrefix(src, q1) && IsPrefix(src, q2) && Reroot(q1, src, dst) == Reroot(q2, src, dst)
      ensures q1 == q2
    {
      assert q1[|src|..] == Reroot(q1, src, dst)[|dst|..];
      assert q1 == src + q1[|src|..] && q2 == src + q2[|src|..];
    }
  }

  /** Where `shutil.move(src, dst)` puts `src`: inside `dst` when that is an
      existing directory, else at `dst`. */
  function MoveTarget(e: map<Path, Node>, src: Path, dst: Path): Path
    requires src != []
  {
    if dst in e && e[dst].Dir? && src != dst then dst + [Last(src)] else dst
  }

  /** When `shutil.move(src, dst)` succeeds without its copy fallback. */
  predicate MoveOk(e: map<Path, Node>, src: Path, dst: Path) {
    && src != []
    && (MoveTarget(e, src, dst) != dst ==> MoveTarget(e, src, dst) !in e)
    && RenameOk(e, src, MoveTarget(e, src, dst))
  }

  /** Moving to a free path is a plain rename. */
  lemma MoveToFree(e: map<Path, Node>, src: Path, dst: Path)
    requires src != [] && dst !in e
    ensures MoveTarget(e, src, dst) == dst
    ensures MoveOk(e, src, dst) <==> RenameOk(e, src, dst)
  {
  }

  /** When `os.rmdir(p)` succeeds: `p` is an empty directory other than the root. */
  predicate RmdirOk(e: map<Path, Node>, p: Path) {
    p in e && p != [] && e[p].Dir? && Names(e, p) == {}
  }

  /** What one call does to the file system: how it ends (`Pass` when it
      returns, else the exception it raises) and the entries it leaves. */
  datatype Effect = Effect(outcome: Outcome, after: map<Path, Node>)

  /** `os.rename(src, dst)`: it raises `OSError` and changes nothing unless
      `RenameOk` holds. */
  function RenameEffect(e: map<Path, Node>, src: Path, dst: Path): Effect {
    if RenameOk(e, src, dst) then Effect(Pass, Renamed(e, src, dst)) else Effect(Fail(OSError), e)
  }

  /** `shutil.move(src, dst)`: a rename onto `dst`, or into it when it is a
      directory. */
  function MoveEffect(e: map<Path, Node>, src: Path, dst: Path): Effect {
    if MoveOk(e, src, dst) then Effect(Pass, Renamed(e, src, MoveTarget(e, src, dst))) else Effect(Fail(OSError), e)
  }

  /** `os.rmdir(p)`. */
  function RmdirEffect(e: map<Path, Node>, p: Path): Effect {
    if RmdirOk(e, p) then Effect(Pass, e - {p}) else Effect(Fail(OSError), e)
  }

  // ---------------------------------------------------------------------------
  // The file system object

  /** The order in which `os.listdir` returns the names of a directory. The
      operating system decides it; the model takes it to depend on the names
      alone. */
  type Order = set<string> -> seq<string>

  /** An order lists every name once and nothing else. */
  ghost predicate OrderOk(order: Order) {
    forall names: set<string> :: Distinct(order(names)) && (set n | n in order(names)) == names
  }

  /** An order lists no name that is not there. */
  lemma NotListed(order: Order, names: set<string>, n: string)
    requires OrderOk(order) && n !in names
    ensures n !in order(names)
  {
    assert (set m | m in order(names)) == names;
  }

  /** An empty directory lists nothing. */
  lemma NothingListed(order: Order)
    requires OrderOk(order)
    ensures order({}) == []
  {
    var l := order({});
    NotListed(order, {}, if l == [] then "" else l[0]);
  }

  /** Some order exists: any choice of one name after another. */
  ghost function SomeOrder(names: set<string>): seq<string>
    decreases names
  {
    if names == {} then [] else var n :| n in names; [n] + SomeOrder(names - {n})
  }

  lemma {:induction false} SomeOrderLists(names: set<string>)
    ensures Distinct(SomeOrder(names)) && (set n | n in SomeOrder(names)) == names
    decreases names
  {
    if names != {} {
      var n :| n in names && SomeOrder(names) == [n] + SomeOrder(names - {n});
      var rest := SomeOrder(names - {n});
      SomeOrderLists(names - {n});
      assert forall i :: 0 <= i < |rest| ==> rest[i] in names - {n};
      assert (set m | m in [n] + rest) == {n} + (set m | m in rest);
    }
  }

  lemma SomeOrderOk()
    ensures OrderOk(SomeOrder)
  {
    forall names: set<string> ensures Distinct(SomeOrder(names)) && (set n | n in SomeOrder(names)) == names {
      SomeOrderLists(names);
    }
  }

  class FileSystem {
    var entries: map<Path, Node>
    const order: Order

    ghost predicate Valid()
      reads this
    {
      Tree(entries) && OrderOk(order)
    }

    constructor (e: map<Path, Node>, order: Order)
      requires Tree(e) && OrderOk(order)
      ensures Valid() && entries == e && this.order == order
    {
      entries := e;
      this.order := order;
    }

    /** `os.path.exists(p)`. */
    predicate Exists(p: Path)
      reads this
    {
      p in entries
    }

    /** `os.path.isfile(p)`. */
    predicate IsFile(p: Path)
      reads this
    {
      p in entries && entries[p].File?
    }

    /** `os.path.isdir(p)`. */
    predicate IsDir(p: Path)
      reads this
    {
      p in entries && entries[p].Dir?
    }

    /** `os.rename(src, dst)`, POSIX semantics. */
    method Rename(src: Path, dst: Path) returns (r: Outcome)
      requires Valid()
      modifies this
      ensures Valid()
      ensures Effect(r, entries) == RenameEffect(old(entries), src, dst)
    {
      if RenameOk(entries, src, dst) {
        RenamedTree(entries, src, dst);
        entries := Renamed(entries, src, dst);
        r := Pass;
      } else {
        r := Fail(OSError);
      }
    }

    /** `shutil.move(src, dst)` on one device. */
    method Move(src: Path, dst: Path) returns (r: Outcome)
      requires Valid()
      modifies this
      ensures Valid()
      ensures Effect(r, entries) == MoveEffect(old(entries), src, dst)
    {
      if src == [] {
        return Fail(OSError);
      }
      var target := MoveTarget(entries, src, dst);
      if target != dst && target in entries {
        return Fail(OSError);
      }
      r := Rename(src, target);
    }

    /** `os.rmdir(p)`. */
    method Rmdir(p: Path) returns (r: Outcome)
      requires Valid()
      modifies this
      ensures Valid()
      ensures Effect(r, entries) == RmdirEffect(old(entries), p)
    {
      if RmdirOk(entries, p) {
        RmdirTree(entries, p);
        entries := entries - {p};
        r := Pass;
      } else {
        r := Fail(OSError);
      }
    }

    /** `os.listdir(p)`: the names of directory `p` in the listing order,
        each once. */
    method ListDir(p: Path) returns (r: Result<seq<string>>)
      requires Valid()
      ensures r.Ok? <==> p in entries && entries[p].Dir?
      ensures r.Ok? ==> r.value == order(Names(entries, p))
      ensures r.Ok? ==> Distinct(r.value) && (set n | n in r.value) == Names(entries, p)
      ensures r.Err? ==> r.error == OSError
    {
      if p in entries && entries[p].Dir? {
        r := Ok(order(Names(entries, p)));
      } else {
        r := Err(OSError);
      }
    }
  }

  predicate Distinct(s: seq<string>) {
    forall i, j :: 0 <= i < j < |s| ==> s[i] != s[j]
  }

  /** The elements of a finite set, in an order the caller does not choose. */
  method Enumerate(names: set<string>) returns (r: seq<string>)
    ensures Distinct(r) && (set n | n in r) == names
  {
    r := [];
    var rest := names;
    while rest != {}
      invariant Distinct(r)
      invariant (set n | n in r) + rest == names
      invariant forall n :: n in r ==> n !in rest
      decreases rest
    {
      var n :| n in rest;
      r := r + [n];
      rest := rest - {n};
    }
  }

  // ---------------------------------------------------------------------------
  // The tree invariant

  /** Every proper prefix of an entry is a directory. */
  lemma {:induction false} AncestorIsDir(e: map<Path, Node>, p: Path, k: nat)
    requires Tree(e) && p in e && k < |p|
    ensures p[..k] in e && e[p[..k]].Dir?
    decreases |p|
  {
    var q := p[..|p| - 1];
    if k < |q| {
      AncestorIsDir(e, q, k);
      assert q[..k] == p[..k];
    }
  }

  /** Below a file, or an empty directory, or a path that does not exist,
      there is nothing. */
  lemma NothingBelow(e: map<Path, Node>, d: Path, p: Path)
    requires Tree(e) && p in e && IsPrefix(d, p) && p != d
    ensures d in e && e[d].Dir? && p[|d|] in Names(e, d)
  {
    AncestorIsDir(e, p, |d|);
    var c := p[..|d| + 1];
    if |d| + 1 < |p| {
      AncestorIsDir(e, p, |d| + 1);
    } else {
      assert c == p;
    }
    assert c[..|d|] == d;
    assert c in e && |c| == |d| + 1 && c[|d|] == p[|d|];
  }

  lemma DirNameEntry(e: map<Path, Node>, p: Path, n: string)
    requires Tree(e) && n in DirNames(e, p)
    ensures p + [n] in e && e[p + [n]].Dir? && PlainName(n)
  {
    var q :| q in e && |q| == |p| + 1 && q[..|p|] == p && e[q].Dir? && q[|p|] == n;
    assert q == p + [n];
  }

  lemma FileNameEntry(e: map<Path, Node>, p: Path, n: string)
    requires Tree(e) && n in FileNames(e, p)
    ensures p + [n] in e && e[p + [n]].File? && PlainName(n)
  {
    var q :| q in e && |q| == |p| + 1 && q[..|p|] == p && e[q].File? && q[|p|] == n;
    assert q == p + [n];
  }

  /** A listed name is a plain name of an entry. */
  lemma NameEntry(e: map<Path, Node>, p: Path, n: string)
    requires Tree(e) && n in Names(e, p)
    ensures p + [n] in e && PlainName(n)
  {
    var q :| q in e && |q| == |p| + 1 && q[..|p|] == p && q[|p|] == n;
    assert q == p + [n];
  }

  /** After a successful rename neither path lies inside the other. */
  lemma RenameApart(e: map<Path, Node>, src: Path, dst: Path)
    requires Tree(e) && RenameOk(e, src, dst) && src != dst
    ensures !IsPrefix(src, dst) && !IsPrefix(dst, src)
    ensures forall p :: p in e && IsPrefix(dst, p) ==> p == dst
  {
    forall p | p in e && IsPrefix(dst, p)
      ensures p == dst
    {
      if p != dst {
        NothingBelow(e, dst, p);
      }
    }
  }

  lemma RenamedTree(e: map<Path, Node>, src: Path, dst: Path)
    requires Tree(e) && RenameOk(e, src, dst)
    ensures Tree(Renamed(e, src, dst))
  {
    var r := Renamed(e, src, dst);
    if src != dst {
      RenameApart(e, src, dst);
    }
    assert [] in r && r[[]] == Dir by {
      assert !IsPrefix(src, []) && !IsPrefix(dst, []);
    }
    forall p | p in r && p != []
      ensures PlainName(p[|p| - 1]) && p[..|p| - 1] in r && r[p[..|p| - 1]].Dir?
    {
      RenamedParent(e, src, dst, p);
    }
  }

  lemma RenamedParent(e: map<Path, Node>, src: Path, dst: Path, p: Path)
    requires Tree(e) && RenameOk(e, src, dst)
    requires src != dst ==> !IsPrefix(src, dst) && !IsPrefix(dst, src)
    requires p in Renamed(e, src, dst) && p != []
    ensures PlainName(p[|p| - 1]) && p[..|p| - 1] in Renamed(e, src, dst) && Renamed(e, src, dst)[p[..|p| - 1]].Dir?
  {
    if p in Moved(e, src, dst) {
      MovedParent(e, src, dst, p);
    } else {
      KeptParent(e, src, dst, p);
    }
  }

  /** Every moved entry comes from the subtree at `src`. */
  lemma MovedSource(e: map<Path, Node>, src: Path, dst: Path, p: Path)
    requires p in Moved(e, src, dst)
    ensures IsPrefix(dst, p)
    ensures var q := src + p[|dst|..]; q in e && IsPrefix(src, q) && Reroot(q, src, dst) == p
  {
    var q :| q in e && IsPrefix(src, q) && Reroot(q, src, dst) == p;
    assert q == src + q[|src|..];
    assert p[|dst|..] == q[|src|..];
  }

  /** A moved entry keeps its node. */
  lemma RenamedMoved(e: map<Path, Node>, src: Path, dst: Path, q: Path)
    requires q in e && IsPrefix(src, q)
    ensures Reroot(q, src, dst) in Renamed(e, src, dst) && Renamed(e, src, dst)[Reroot(q, src, dst)] == e[q]
  {
    RerootInjective(src, dst);
    assert Reroot(q, src, dst) in Moved(e, src, dst);
  }

  /** An entry outside both paths keeps its node. */
  lemma RenamedKept(e: map<Path, Node>, src: Path, dst: Path, p: Path)
    requires p in e && !IsPrefix(src, p) && !IsPrefix(dst, p)
    ensures p in Renamed(e, src, dst) && Renamed(e, src, dst)[p] == e[p]
  {
    if p in Moved(e, src, dst) {
      MovedSource(e, src, dst, p);
    }
  }

  lemma RerootParent(q: Path, src: Path, dst: Path)
    requires IsPrefix(src, q) && q != src
    ensures IsPrefix(src, q[..|q| - 1]) && Reroot(q[..|q| - 1], src, dst) == Reroot(q, src, dst)[..|Reroot(q, src, dst)| - 1]
  {
    var t := q[|src|..];
    assert q[..|q| - 1][|src|..] == t[..|t| - 1];
  }

  /** The parent of a moved entry is the moved parent of its source. */
  lemma MovedParent(e: map<Path, Node>, src: Path, dst: Path, p: Path)
    requires Tree(e) && RenameOk(e, src, dst)
    requires src != dst ==> !IsPrefix(src, dst) && !IsPrefix(dst, src)
    requires p in Moved(e, src, dst)
    ensures p != [] && PlainName(p[|p| - 1]) && p[..|p| - 1] in Renamed(e, src, dst) && Renamed(e, src, dst)[p[..|p| - 1]].Dir?
  {
    MovedSource(e, src, dst, p);
    var q := src + p[|dst|..];
    if |p| == |dst| {
      assert p == dst by { assert p[..|dst|] == dst; }
      DstParentKept(e, src, dst);
    } else {
      assert |q| > |src|;
      MovedChildParent(e, src, dst, q, p);
    }
  }

  /** The parent of the destination is left where it is. */
  lemma DstParentKept(e: map<Path, Node>, src: Path, dst: Path)
    requires Tree(e) && RenameOk(e, src, dst)
    requires src != dst ==> !IsPrefix(src, dst) && !IsPrefix(dst, src)
    ensures Parent(dst) in Renamed(e, src, dst) && Renamed(e, src, dst)[Parent(dst)].Dir?
  {
    var pp := Parent(dst);
    PrefixTrans(src, pp, dst);
    RenamedKept(e, src, dst, pp);
  }

  lemma PrefixTrans(a: Path, b: Path, c: Path)
    ensures IsPrefix(a, b) && IsPrefix(b, c) ==> IsPrefix(a, c)
  {
    if IsPrefix(a, b) && IsPrefix(b, c) {
      assert c[..|a|] == c[..|b|][..|a|];
    }
  }

  /** An entry strictly below `src` is moved into the moved copy of its parent. */
  lemma MovedChildParent(e: map<Path, Node>, src: Path, dst: Path, q: Path, p: Path)
    requires Tree(e) && q in e && IsPrefix(src, q) && |q| > |src| && p == Reroot(q, src, dst)
    ensures p != [] && PlainName(p[|p| - 1]) && p[..|p| - 1] in Renamed(e, src, dst) && Renamed(e, src, dst)[p[..|p| - 1]].Dir?
  {
    var qq := q[..|q| - 1];
    RerootParent(q, src, dst);
    RenamedMoved(e, src, dst, qq);
    assert p[|p| - 1] == q[|q| - 1];
    SameKey(Renamed(e, src, dst), Reroot(qq, src, dst), p[..|p| - 1]);
  }

  /** Equal keys name the same entry. */
  lemma SameKey(m: map<Path, Node>, a: Path, b: Path)
    requires a in m && a == b
    ensures b in m && m[b] == m[a]
  {
  }

  /** A kept entry keeps its parent. */
  lemma KeptParent(e: map<Path, Node>, src: Path, dst: Path, p: Path)
    requires Tree(e) && RenameOk(e, src, dst)
    requires p in Renamed(e, src, dst) && p != [] && p !in Moved(e, src, dst)
    ensures PlainName(p[|p| - 1]) && p[..|p| - 1] in Renamed(e, src, dst) && Renamed(e, src, dst)[p[..|p| - 1]].Dir?
  {
    var pp := p[..|p| - 1];
    assert p in Kept(e, src, dst);
    assert !IsPrefix(src, pp) && !IsPrefix(dst, pp);
    RenamedKept(e, src, dst, pp);
  }

  lemma RmdirTree(e: map<Path, Node>, p: Path)
    requires Tree(e) && RmdirOk(e, p)
    ensures Tree(e - {p})
  {
    forall q | q in e && q != [] && q != p
      ensures q[..|q| - 1] == p ==> q[|q| - 1] in Names(e, p)
    {
    }
  }

  // ---------------------------------------------------------------------------
  // What survives a rename

  /** A rename never invents content: every file afterwards held that content
      before. */
  lemma RenamedDataFrom(e: map<Path, Node>, src: Path, dst: Path)
    ensures FileData(Renamed(e, src, dst)) <= FileData(e)
  {
    var r := Renamed(e, src, dst);
    forall d | d in FileData(r)
      ensures d in FileData(e)
    {
      var p :| p in r && r[p].File? && r[p].data == d;
      if p in Moved(e, src, dst) {
        MovedSource(e, src, dst, p);
        RenamedMoved(e, src, dst, src + p[|dst|..]);
      }
    }
  }

  /** Never clobber: a rename onto a free path keeps the content of every file. */
  lemma RenameToFreeKeepsData(e: map<Path, Node>, src: Path, dst: Path)
    requires Tree(e) && RenameOk(e, src, dst) && dst !in e
    ensures FileData(Renamed(e, src, dst)) == FileData(e)
  {
    RenamedDataFrom(e, src, dst);
    forall d | d in FileData(e)
      ensures d in FileData(Renamed(e, src, dst))
    {
      var p :| p in e && e[p].File? && e[p].data == d;
      if IsPrefix(src, p) {
        RenamedMoved(e, src, dst, p);
      } else {
        if IsPrefix(dst, p) {
          NothingBelow(e, dst, p);
        }
        RenamedKept(e, src, dst, p);
      }
    }
  }

  /** Removing an empty directory loses no file. */
  lemma RmdirKeepsData(e: map<Path, Node>, p: Path)
    requires RmdirOk(e, p)
    ensures FileData(e - {p}) == FileData(e)
  {
    forall d | d in FileData(e)
      ensures d in FileData(e - {p})
    {
      var q :| q in e && e[q].File? && e[q].data == d;
      assert q in e - {p} && (e - {p})[q] == e[q];
    }
  }

  /** `p` lies strictly inside `top`. */
  predicate Below(top: Path, p: Path) {
    IsPrefix(top, p) && |p| > |top|
  }

  /** Outside the strict inside of `top`, including `top` itself, `e1` and
      `e2` agree. */
  ghost predicate SameOutside(e1: map<Path, Node>, e2: map<Path, Node>, top: Path) {
    forall p :: !Below(top, p) ==> (p in e1 <==> p in e2) && (p in e1 ==> e1[p] == e2[p])
  }

  /** A rename between two paths inside `top` changes nothing outside it. */
  lemma RenameInside(e: map<Path, Node>, src: Path, dst: Path, top: Path)
    requires Below(top, src) && Below(top, dst)
    ensures SameOutside(e, Renamed(e, src, dst), top)
  {
    forall p | !Below(top, p)
      ensures (p in e <==> p in Renamed(e, src, dst)) && (p in e ==> e[p] == Renamed(e, src, dst)[p])
    {
      if p in e {
        RenamedKept(e, src, dst, p);
      }
      if p in Moved(e, src, dst) {
        MovedSource(e, src, dst, p);
      }
    }
  }

  lemma SameOutsideTrans(e1: map<Path, Node>, e2: map<Path, Node>, e3: map<Path, Node>, top: Path)
    requires SameOutside(e1, e2, top) && SameOutside(e2, e3, top)
    ensures SameOutside(e1, e3, top)
  {
  }

  /** A rename onto a free path inside `top` keeps all content and changes
      nothing outside `top`. */
  lemma RenameInsideToFree(e: map<Path, Node>, src: Path, dst: Path, top: Path)
    requires Tree(e) && RenameOk(e, src, dst) && dst !in e && Below(top, src) && Below(top, dst)
    ensures SameOutside(e, Renamed(e, src, dst), top)
    ensures FileData(Renamed(e, src, dst)) == FileData(e)
  {
    RenameInside(e, src, dst, top);
    RenameToFreeKeepsData(e, src, dst);
  }

  /** A move between two paths inside `top` changes nothing outside it and
      creates no content. */
  lemma MoveInside(e: map<Path, Node>, src: Path, dst: Path, top: Path)
    requires MoveOk(e, src, dst) && Below(top, src) && Below(top, dst)
    ensures Below(top, MoveTarget(e, src, dst))
    ensures SameOutside(e, Renamed(e, src, MoveTarget(e, src, dst)), top)
    ensures FileData(Renamed(e, src, MoveTarget(e, src, dst))) <= FileData(e)
  {
    var t := MoveTarget(e, src, dst);
    assert t[..|top|] == dst[..|top|];
    RenameInside(e, src, t, top);
    RenamedDataFrom(e, src, t);
  }

  /** Removing an empty directory inside `top` keeps all content and changes
      nothing outside `top`. */
  lemma RmdirInside(e: map<Path, Node>, p: Path, top: Path)
    requires RmdirOk(e, p) && Below(top, p)
    ensures SameOutside(e, e - {p}, top)
    ensures FileData(e - {p}) == FileData(e)
  {
    RmdirKeepsData(e, p);
  }
}
