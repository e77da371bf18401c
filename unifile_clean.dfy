/** `clean_filename` of the `unifile` package. The copy under `build/lib` and
    the one under `src/unifile` are the same function line for line (only their
    line numbers differ), so one definition models both. */
module UnifileClean {
  import opened Errors
  import opened Text
  import opened Nfkd
  import PosixPath
  import Fs

  /** The `filename` argument: a `str`, or some other Python object. */
  datatype Arg = Str(s: string) | NotStr

  /** The token that replaces a name with control characters. */
  const NullToken: string := "filewithNull"

  /** `UMLAUT_MAP`, in its insertion order: a-, o-, u-umlaut and sharp s, small then capital. */
  const UmlautMap: seq<(char, string)> := [
    ('\U{E4}', "ae"), ('\U{C4}', "Ae"),
    ('\U{F6}', "oe"), ('\U{D6}', "Oe"),
    ('\U{FC}', "ue"), ('\U{DC}', "Ue"),
    ('\U{DF}', "ss"), ('\U{1E9E}', "Ss")
  ]

  predicate ValidMode(mode: string) {
    mode == "preserve" || mode == "ascii"
  }

  // ---------------------------------------------------------------------------
  // Control characters

  /** The text after the last control character of `s`, or all of `s` when it
      has none: the last part of `re.split(r'[\x00-\x1f]+', s)`. It is the
      longest suffix of `s` free of control characters. */
  function AfterLastControl(s: string): (r: string)
    ensures |r| <= |s| && r == s[|s| - |r|..]
    ensures NoControls(r)
    ensures |r| < |s| ==> IsControl(s[|s| - |r| - 1])
  {
    if s == [] then []
    else if IsControl(s[|s| - 1]) then []
    else AfterLastControl(s[..|s| - 1]) + [s[|s| - 1]]
  }

  /** Step 1: a name with any control character becomes the token plus the
      extension of its last control-free segment, or `''` when that segment is
      empty (Python reads the conditional as `('filewithNull' + ext) if parts[-1] else ''`). */
  function CollapseControls(s: string): string {
    if NoControls(s) then s
    else
      var last := AfterLastControl(s);
      if last != [] then NullToken + PosixPath.SplitExt(last).1 else []
  }

  // ---------------------------------------------------------------------------
  // Umlaut table

  /** `s.replace(c, rep)` for a one-character needle. */
  function ReplaceChar(s: string, c: char, rep: string): string {
    if s == [] then [] else (if s[0] == c then rep else [s[0]]) + ReplaceChar(s[1..], c, rep)
  }

  /** The loop over the table: each entry's `replace` in turn. */
  function ApplyTable(s: string, table: seq<(char, string)>): string
    decreases table
  {
    if table == [] then s else ApplyTable(ReplaceChar(s, table[0].0, table[0].1), table[1..])
  }

  /** What the table does to one character, read as a substitution. */
  function Transliterate(c: char): string {
    if c == '\U{E4}' then "ae" else if c == '\U{C4}' then "Ae"
    else if c == '\U{F6}' then "oe" else if c == '\U{D6}' then "Oe"
    else if c == '\U{FC}' then "ue" else if c == '\U{DC}' then "Ue"
    else if c == '\U{DF}' then "ss" else if c == '\U{1E9E}' then "Ss"
    else [c]
  }

  function TransliterateAll(s: string): string {
    if s == [] then [] else Transliterate(s[0]) + TransliterateAll(s[1..])
  }

  // ---------------------------------------------------------------------------
  // The whole cleaner

  /** `clean_filename(filename, mode)`; `fold` is the per-character NFKD with
      combining marks dropped. */
  function CleanFilename(filename: Arg, mode: string, fold: Fold): (r: Result<string>)
    ensures filename.NotStr? ==> r == Err(TypeError)
    ensures filename.Str? && !ValidMode(mode) ==> r == Err(ValueError)
    ensures r.Ok? <==> filename.Str? && ValidMode(mode)
    ensures r.Ok? && mode == "ascii" ==> AllAscii(r.value)
    ensures filename.Str? && mode == "preserve" && NoControls(filename.s) ==> r == Ok(filename.s)
  {
    match filename
    case NotStr => Err(TypeError)
    case Str(s) =>
      if !ValidMode(mode) then Err(ValueError)
      else
        var collapsed := CollapseControls(s);
        if mode == "ascii" then Ok(KeepAscii(Decompose(fold, ApplyTable(collapsed, UmlautMap))))
        else Ok(collapsed)
  }

  /** The cleaned name under a valid mode, as the rewriters use it. */
  function CleanedName(name: string, mode: string, fold: Fold): (r: string)
    ensures ValidMode(mode) ==> CleanFilename(Str(name), mode, fold) == Ok(r)
  {
    match CleanFilename(Str(name), mode, fold)
    case Ok(v) => v
    case Err(_) => name
  }

  /** `lambda name: clean_filename(name, mode)`. */
  function Cleaner(mode: string, fold: Fold): string -> string {
    name => CleanedName(name, mode, fold)
  }

  // ---------------------------------------------------------------------------
  // The umlaut table acts character by character

  lemma {:induction false} ReplaceCharConcat(a: string, b: string, c: char, rep: string)
    ensures ReplaceChar(a + b, c, rep) == ReplaceChar(a, c, rep) + ReplaceChar(b, c, rep)
  {
    if a == [] {
      assert a + b == b;
    } else {
      assert (a + b)[1..] == a[1..] + b;
      ReplaceCharConcat(a[1..], b, c, rep);
    }
  }

  lemma {:induction false} ReplaceCharAbsent(s: string, c: char, rep: string)
    requires c !in s
    ensures ReplaceChar(s, c, rep) == s
  {
    if s != [] {
      ReplaceCharAbsent(s[1..], c, rep);
    }
  }

  lemma {:induction false} ApplyTableConcat(a: string, b: string, table: seq<(char, string)>)
    ensures ApplyTable(a + b, table) == ApplyTable(a, table) + ApplyTable(b, table)
    decreases table
  {
    if table != [] {
      ReplaceCharConcat(a, b, table[0].0, table[0].1);
      ApplyTableConcat(ReplaceChar(a, table[0].0, table[0].1), ReplaceChar(b, table[0].0, table[0].1), table[1..]);
    }
  }

  /** A string holding none of the table's keys passes through it unchanged. */
  lemma {:induction false} ApplyTableAbsent(s: string, table: seq<(char, string)>)
    requires forall i :: 0 <= i < |table| ==> table[i].0 !in s
    ensures ApplyTable(s, table) == s
    decreases table
  {
    if table != [] {
      ReplaceCharAbsent(s, table[0].0, table[0].1);
      ApplyTableAbsent(s, table[1..]);
    }
  }

  lemma {:induction false} ApplyTableSplit(s: string, t1: seq<(char, string)>, t2: seq<(char, string)>)
    ensures ApplyTable(s, t1 + t2) == ApplyTable(ApplyTable(s, t1), t2)
    decreases t1
  {
    if t1 == [] {
      assert t1 + t2 == t2;
    } else {
      assert (t1 + t2)[1..] == t1[1..] + t2;
      ApplyTableSplit(ReplaceChar(s, t1[0].0, t1[0].1), t1[1..], t2);
    }
  }

  /** Keys pairwise distinct, and no key occurs in any replacement. */
  predicate TableIndependent(table: seq<(char, string)>) {
    && (forall i, j :: 0 <= i < j < |table| ==> table[i].0 != table[j].0)
    && (forall i, j :: 0 <= i < |table| && 0 <= j < |table| ==> table[i].0 !in table[j].1)
  }

  /** In an independent table, a key becomes its replacement however late its
      entry comes. */
  lemma TableOnKey(table: seq<(char, string)>, k: nat)
    requires TableIndependent(table) && k < |table|
    ensures ApplyTable([table[k].0], table) == table[k].1
  {
    var c, rep := table[k].0, table[k].1;
    assert table == table[..k] + table[k..];
    ApplyTableSplit([c], table[..k], table[k..]);
    ApplyTableAbsent([c], table[..k]);
    assert ReplaceChar([c], c, rep) == rep + ReplaceChar([], c, rep);
    assert rep + [] == rep;
    ApplyTableAbsent(rep, table[k + 1..]);
  }

  lemma UmlautMapIndependent()
    ensures TableIndependent(UmlautMap)
  {
    forall i, j | 0 <= i < |UmlautMap| && 0 <= j < |UmlautMap|
      ensures UmlautMap[i].0 !in UmlautMap[j].1
    {
      UmlautKeyWide(i);
      UmlautReplacementAscii(j);
    }
  }

  /** Every key of the umlaut table lies outside ASCII. */
  lemma UmlautKeyWide(i: int)
    requires 0 <= i < |UmlautMap|
    ensures UmlautMap[i].0 as int >= 0x80
  {
  }

  /** Every replacement of the umlaut table is ASCII. */
  lemma UmlautReplacementAscii(j: int)
    requires 0 <= j < |UmlautMap|
    ensures AllAscii(UmlautMap[j].1)
  {
  }

  lemma UmlautOnChar(c: char)
    ensures ApplyTable([c], UmlautMap) == Transliterate(c)
  {
    UmlautMapIndependent();
    if c == UmlautMap[0].0 { TableOnKey(UmlautMap, 0); }
    else if c == UmlautMap[1].0 { TableOnKey(UmlautMap, 1); }
    else if c == UmlautMap[2].0 { TableOnKey(UmlautMap, 2); }
    else if c == UmlautMap[3].0 { TableOnKey(UmlautMap, 3); }
    else if c == UmlautMap[4].0 { TableOnKey(UmlautMap, 4); }
    else if c == UmlautMap[5].0 { TableOnKey(UmlautMap, 5); }
    else if c == UmlautMap[6].0 { TableOnKey(UmlautMap, 6); }
    else if c == UmlautMap[7].0 { TableOnKey(UmlautMap, 7); }
    else { ApplyTableAbsent([c], UmlautMap); }
  }

  /** The umlaut loop is the per-character substitution `Transliterate`:
      the order of the table's entries does not matter. */
  lemma {:induction false} UmlautTableIsPerChar(s: string)
    ensures ApplyTable(s, UmlautMap) == TransliterateAll(s)
  {
    if s != [] {
      assert s == [s[0]] + s[1..];
      ApplyTableConcat([s[0]], s[1..], UmlautMap);
      UmlautTableIsPerChar(s[1..]);
      UmlautOnChar(s[0]);
    }
  }

  // ---------------------------------------------------------------------------
  // Control characters are gone after cleaning; cleaning is idempotent


  lemma {:induction false} TransliterateNoControls(s: string)
    requires NoControls(s)
    ensures NoControls(TransliterateAll(s))
  {
    if s != [] {
      TransliterateNoControls(s[1..]);
      NoControlsConcat(Transliterate(s[0]), TransliterateAll(s[1..]));
    }
  }

  /** ASCII text holds no umlaut, so the table leaves it alone. */
  lemma {:induction false} TransliterateAscii(s: string)
    requires AllAscii(s)
    ensures TransliterateAll(s) == s
  {
    if s != [] {
      TransliterateAscii(s[1..]);
    }
  }

  lemma TokenPrintable()
    ensures NoControls(NullToken) && AllAscii(NullToken)
    ensures forall j :: 0 <= j < |NullToken| ==> NullToken[j] != '.' && NullToken[j] != '/'
  {
  }

  /** The token followed by an extension splits back into the two. */
  lemma TokenKeepsExt(ext: string)
    requires ext == [] || (ext[0] == '.' && forall j :: 0 < j < |ext| ==> ext[j] != '.' && ext[j] != '/')
    ensures PosixPath.SplitExt(NullToken + ext) == (NullToken, ext)
  {
    var r := NullToken + ext;
    assert forall j :: 0 <= j < |NullToken| ==> NullToken[j] != '.' && NullToken[j] != '/';
    if ext == [] {
      assert r == NullToken;
      PosixPath.SplitExtNone(r);
    } else {
      assert r[..|NullToken|] == NullToken;
      PosixPath.BasenameNotAllDots(NullToken);
      assert PosixPath.ExtStart(r, |NullToken|);
      PosixPath.SplitExtAt(r, |NullToken|);
    }
  }

  /** After step 1 no control character is left. */
  lemma CollapseNoControls(s: string)
    ensures NoControls(CollapseControls(s))
  {
    if !NoControls(s) {
      var last := AfterLastControl(s);
      if last != [] {
        var split := PosixPath.SplitExt(last);
        assert split.1 == last[|split.0|..];
        NoControlsSuffix(last, |split.0|);
        TokenPrintable();
        NoControlsConcat(NullToken, split.1);
      }
    }
  }

  /** A name with control characters becomes `''` exactly when it ends in one;
      otherwise it becomes the token followed by the extension of the segment
      after its last control run. */
  lemma CollapseControlsSpec(s: string)
    requires !NoControls(s)
    ensures IsControl(s[|s| - 1]) ==> CollapseControls(s) == []
    ensures !IsControl(s[|s| - 1]) ==>
      PosixPath.SplitExt(CollapseControls(s)) == (NullToken, PosixPath.SplitExt(AfterLastControl(s)).1)
  {
    var last := AfterLastControl(s);
    if last != [] {
      PosixPath.SplitExtSpec(last);
      TokenKeepsExt(PosixPath.SplitExt(last).1);
    }
  }

  /** A cleaned name holds no control character, in either mode. */
  lemma CleanNoControls(s: string, mode: string, fold: Fold)
    requires FoldOk(fold) && ValidMode(mode)
    ensures NoControls(CleanFilename(Str(s), mode, fold).value)
  {
    var collapsed := CollapseControls(s);
    CollapseNoControls(s);
    if mode == "ascii" {
      UmlautTableIsPerChar(collapsed);
      TransliterateNoControls(collapsed);
      DecomposeNoControls(fold, TransliterateAll(collapsed));
    }
  }

  /** Printable ASCII names are fixed points of the cleaner in both modes,
      e.g. `"File-Name_123.txt"` and `""`. */
  lemma CleanPrintableAscii(s: string, mode: string, fold: Fold)
    requires FoldOk(fold) && ValidMode(mode) && NoControls(s) && AllAscii(s)
    ensures CleanFilename(Str(s), mode, fold) == Ok(s)
  {
    if mode == "ascii" {
      UmlautTableIsPerChar(s);
      TransliterateAscii(s);
      DecomposeAscii(fold, s);
    }
  }

  /** Cleaning a cleaned name changes nothing: `clean(clean(x)) == clean(x)`. */
  lemma CleanIdempotent(s: string, mode: string, fold: Fold)
    requires FoldOk(fold) && ValidMode(mode)
    ensures var r := CleanFilename(Str(s), mode, fold).value;
            CleanFilename(Str(r), mode, fold) == Ok(r)
  {
    var r := CleanFilename(Str(s), mode, fold).value;
    CleanNoControls(s, mode, fold);
    if mode == "ascii" {
      CleanPrintableAscii(r, mode, fold);
    }
  }

  // ---------------------------------------------------------------------------
  // Examples

  /** In ascii mode a name whose only non-ASCII characters are in the table
      comes out as its transliteration, whatever the Unicode tables say. */
  lemma AsciiUmlautsOnly(s: string, fold: Fold)
    requires FoldOk(fold) && NoControls(s) && AllAscii(TransliterateAll(s))
    ensures CleanFilename(Str(s), "ascii", fold) == Ok(TransliterateAll(s))
  {
    UmlautTableIsPerChar(s);
    DecomposeAscii(fold, TransliterateAll(s));
  }

  lemma {:induction false} TransliterateAllConcat(a: string, b: string)
    ensures TransliterateAll(a + b) == TransliterateAll(a) + TransliterateAll(b)
  {
    if a == [] {
      assert a + b == b;
    } else {
      assert (a + b)[1..] == a[1..] + b;
      TransliterateAllConcat(a[1..], b);
    }
  }


  /** An ASCII name with one non-ASCII character `c` in it, cleaned in ascii
      mode, has `c` replaced by its table entry. */
  lemma OneUmlaut(pre: string, c: char, post: string, fold: Fold)
    requires FoldOk(fold) && NoControls(pre + [c] + post) && AllAscii(pre) && AllAscii(post)
    requires AllAscii(Transliterate(c))
    ensures CleanFilename(Str(pre + [c] + post), "ascii", fold) == Ok(pre + Transliterate(c) + post)
  {
    TransliterateOne(pre, c, post);
    AllAsciiConcat(pre, Transliterate(c));
    AllAsciiConcat(pre + Transliterate(c), post);
    AsciiUmlautsOnly(pre + [c] + post, fold);
  }

  /** Only the one non-ASCII character of `pre + [c] + post` is transliterated. */
  lemma TransliterateOne(pre: string, c: char, post: string)
    requires AllAscii(pre) && AllAscii(post)
    ensures TransliterateAll(pre + [c] + post) == pre + Transliterate(c) + post
  {
    TransliterateAllConcat(pre + [c], post);
    TransliterateAllConcat(pre, [c]);
    TransliterateSingle(c);
    TransliterateAscii(pre);
    TransliterateAscii(post);
  }

  /** A one-character name is transliterated by its table entry. */
  lemma TransliterateSingle(c: char)
    ensures TransliterateAll([c]) == Transliterate(c)
  {
    assert [c][1..] == [];
  }

  /** The table entry replaces `c` in an otherwise printable ASCII name. */
  lemma UmlautWord(pre: string, c: char, post: string, fold: Fold, rep: string)
    requires FoldOk(fold) && NoControls(pre + [c] + post) && AllAscii(pre) && AllAscii(post)
    requires Transliterate(c) == rep && AllAscii(rep)
    ensures CleanFilename(Str(pre + [c] + post), "ascii", fold) == Ok(pre + rep + post)
  {
    OneUmlaut(pre, c, post, fold);
  }

  /** The umlaut table comes before decomposition: `"über.txt"` gives
      `"ueber.txt"`, not `"ber.txt"` or `"uber.txt"`. */
  lemma UeberExample(fold: Fold)
    requires FoldOk(fold)
    ensures CleanFilename(Str("\U{FC}ber.txt"), "ascii", fold) == Ok("ueber.txt")
  {
    assert "\U{FC}ber.txt" == "" + ['\U{FC}'] + "ber.txt" && "ueber.txt" == "" + "ue" + "ber.txt";
    UmlautWord("", '\U{FC}', "ber.txt", fold, "ue");
  }

  /** `"München.txt"` gives `"Muenchen.txt"`. */
  lemma MuenchenExample(fold: Fold)
    requires FoldOk(fold)
    ensures CleanFilename(Str("M\U{FC}nchen.txt"), "ascii", fold) == Ok("Muenchen.txt")
  {
    assert "M\U{FC}nchen.txt" == "M" + ['\U{FC}'] + "nchen.txt" && "Muenchen.txt" == "M" + "ue" + "nchen.txt";
    UmlautWord("M", '\U{FC}', "nchen.txt", fold, "ue");
  }

  /** Capital sharp s gives `"Ss"`. */
  lemma CapitalSharpSExample(fold: Fold)
    requires FoldOk(fold)
    ensures CleanFilename(Str("\U{1E9E}"), "ascii", fold) == Ok("Ss")
  {
    assert "\U{1E9E}" == "" + ['\U{1E9E}'] + "" && "Ss" == "" + "Ss" + "";
    UmlautWord("", '\U{1E9E}', "", fold, "Ss");
  }

  /** A non-ASCII character outside the table goes through the
      decomposition: in an otherwise printable ASCII name it is replaced by
      its fold. */
  lemma OneAccent(pre: string, c: char, post: string, fold: Fold)
    requires FoldOk(fold) && NoControls(pre + [c] + post) && AllAscii(pre) && AllAscii(post)
    requires Transliterate(c) == [c] && AllAscii(fold(c))
    ensures CleanFilename(Str(pre + [c] + post), "ascii", fold) == Ok(pre + fold(c) + post)
  {
    var s := pre + [c] + post;
    UmlautTableIsPerChar(s);
    TransliterateOne(pre, c, post);
    DecomposeOne(fold, pre, c, post);
    AllAsciiConcat(pre, fold(c));
    AllAsciiConcat(pre + fold(c), post);
  }

  /** `"café.txt"` gives `"cafe.txt"` when the decomposition of e-acute is
      `e` followed by a combining mark. */
  lemma CafeExample(fold: Fold)
    requires FoldOk(fold) && fold('\U{E9}') == "e"
    ensures CleanFilename(Str("caf\U{E9}.txt"), "ascii", fold) == Ok("cafe.txt")
  {
    assert "caf\U{E9}.txt" == "caf" + ['\U{E9}'] + ".txt" && "cafe.txt" == "caf" + "e" + ".txt";
    OneAccent("caf", '\U{E9}', ".txt", fold);
  }

  /** The documented examples hold for a fold that meets `FoldOk`. */
  lemma SampleFoldExamples()
    ensures CleanFilename(Str("caf\U{E9}.txt"), "ascii", SampleFold) == Ok("cafe.txt")
    ensures CleanFilename(Str("\U{FC}ber.txt"), "ascii", SampleFold) == Ok("ueber.txt")
    ensures CleanFilename(Str("M\U{FC}nchen.txt"), "ascii", SampleFold) == Ok("Muenchen.txt")
  {
    SampleFoldOk();
    CafeExample(SampleFold);
    UeberExample(SampleFold);
    MuenchenExample(SampleFold);
  }

  /** A name whose last control character is followed by the non-empty,
      control-free `seg` collapses to the token plus the extension of `seg`. */
  lemma CollapseLastSegment(a: string, x: char, seg: string)
    requires IsControl(x) && NoControls(seg) && seg != []
    ensures CollapseControls(a + [x] + seg) == NullToken + PosixPath.SplitExt(seg).1
  {
    var s := a + [x] + seg;
    assert s[|a|] == x;
    var last := AfterLastControl(s);
    assert |last| <= |seg| by { assert IsControl(s[|s| - |seg| - 1]); }
    assert last == seg;
  }

  /** Whatever precedes the last control character, a name ending in
      `"null.txt"` after it cleans to `"filewithNull.txt"` in both modes, as
      `"file\x00with\x1fnull.txt"` does. */
  lemma NullExample(a: string, x: char, mode: string, fold: Fold)
    requires IsControl(x) && ValidMode(mode) && FoldOk(fold)
    ensures CleanFilename(Str(a + [x] + "null.txt"), mode, fold) == Ok("filewithNull.txt")
  {
    NullCollapse(a, x);
    TokenPrintable();
    assert NoControls(".txt") && AllAscii(".txt");
    NoControlsConcat(NullToken, ".txt");
    AllAsciiConcat(NullToken, ".txt");
    CleanCollapsedPrintable(a + [x] + "null.txt", mode, fold);
  }

  lemma NullCollapse(a: string, x: char)
    requires IsControl(x)
    ensures CollapseControls(a + [x] + "null.txt") == "filewithNull.txt"
  {
    NullSegment();
    CollapseLastSegment(a, x, "null.txt");
    NullSplit();
    TokenTxt();
  }

  lemma NullSegment()
    ensures NoControls("null.txt") && "null.txt" != []
  {
  }

  lemma NullSplit()
    ensures PosixPath.SplitExt("null.txt").1 == ".txt"
  {
    PosixPath.PlainSplit("null", ".txt");
    assert "null" + ".txt" == "null.txt";
  }

  lemma TokenTxt()
    ensures NullToken + ".txt" == "filewithNull.txt"
  {
  }

  /** A name that collapses to printable ASCII cleans to what it collapses
      to, in both modes. */
  lemma CleanCollapsedPrintable(s: string, mode: string, fold: Fold)
    requires FoldOk(fold) && ValidMode(mode)
    requires NoControls(CollapseControls(s)) && AllAscii(CollapseControls(s))
    ensures CleanFilename(Str(s), mode, fold) == Ok(CollapseControls(s))
  {
    var r := CollapseControls(s);
    CleanPrintableAscii(r, mode, fold);
    assert CollapseControls(r) == r;
  }

  // ---------------------------------------------------------------------------
  // Cleaned names stay in their directory, except through NFKD

  /** Every name a directory can hold cleans to one that, joined to the
      directory, stays in it: no slash and not `..`. */
  ghost predicate CleanStaysIn(mode: string, fold: Fold) {
    forall n :: Fs.PlainName(n) ==> Fs.StaysIn(CleanedName(n, mode, fold))
  }

  /** Step 1 gives a name without a slash, other than `..`, from one. */
  lemma CollapseStaysIn(name: string)
    requires Fs.StaysIn(name)
    ensures Fs.StaysIn(CollapseControls(name))
  {
    if !NoControls(name) {
      var last := AfterLastControl(name);
      if last != [] {
        var ext := PosixPath.SplitExt(last).1;
        assert ext == last[|last| - |ext|..];
        assert forall j :: 0 <= j < |ext| ==> ext[j] == name[|name| - |ext| + j];
        TokenPrintable();
        var r := NullToken + ext;
        assert forall j :: 0 <= j < |r| ==> r[j] == (if j < |NullToken| then NullToken[j] else ext[j - |NullToken|]);
        assert r[0] == 'f';
      }
    }
  }

  /** Outside ascii mode the hypothesis holds whatever `fold` is: preserve
      mode only collapses control characters, and an invalid mode leaves the
      name as it is. */
  lemma CleanStaysInUnlessAscii(mode: string, fold: Fold)
    requires mode != "ascii"
    ensures CleanStaysIn(mode, fold)
  {
    forall n | Fs.PlainName(n)
      ensures Fs.StaysIn(CleanedName(n, mode, fold))
    {
      CollapseStaysIn(n);
    }
  }

  /** A fold that meets `FoldOk` and, as NFKD does, decomposes the fullwidth
      solidus U+FF0F to `/`. */
  function SolidusFold(c: char): string {
    if IsAscii(c) then [c] else if c == '\U{FF0F}' then "/" else ""
  }

  lemma SolidusFoldOk()
    ensures FoldOk(SolidusFold)
  {
  }

  lemma SolidusClean()
    ensures CleanFilename(Str("a\U{FF0F}b"), "ascii", SolidusFold) == Ok("a/b")
  {
    SolidusFoldOk();
    assert "a\U{FF0F}b" == "a" + ['\U{FF0F}'] + "b" && "a/b" == "a" + "/" + "b";
    OneAccent("a", '\U{FF0F}', "b", SolidusFold);
  }

  /** In ascii mode the hypothesis can fail: the plain name `a／b` cleans to
      `a/b`. */
  lemma AsciiMayLeave()
    ensures FoldOk(SolidusFold) && !CleanStaysIn("ascii", SolidusFold)
  {
    SolidusFoldOk();
    var n := "a\U{FF0F}b";
    assert Fs.PlainName(n);
    assert CleanedName(n, "ascii", SolidusFold) == "a/b" by {
      SolidusClean();
    }
    assert "a/b"[1] == '/';
  }
}
