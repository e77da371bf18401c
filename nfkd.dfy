/** Compatibility decomposition (Normalization Form KD of Unicode Standard
    Annex #15) followed by the removal of combining marks, as the cleaners use
    it: `unicodedata.normalize('NFKD', s)` and then dropping every `c` with
    `unicodedata.combining(c) != 0`.

    Canonical reordering in NFKD only permutes characters whose combining
    class is non-zero, and exactly those are dropped afterwards, so the pair of
    steps acts character by character. The Unicode Character Database is not
    part of this model: the per-character result is a parameter `fold`, and
    `FoldOk` states the two facts about it that the cleaners rely on. */
module Nfkd {
  import opened Text

  /** The decomposition of one character with its combining marks removed. */
  type Fold = char -> string

  /** ASCII characters have no decomposition and no combining class, and the
      decomposition of any other character holds no control character. */
  ghost predicate FoldOk(fold: Fold) {
    && (forall c :: IsAscii(c) ==> fold(c) == [c])
    && (forall c, i :: !IsAscii(c) && 0 <= i < |fold(c)| ==> !IsControl(fold(c)[i]))
  }

  /** A small fold of the kind `FoldOk` describes: ASCII kept, e-acute and
      u-umlaut to their base letters, every other character dropped. */
  function SampleFold(c: char): string {
    if IsAscii(c) then [c] else if c == '\U{E9}' then "e" else if c == '\U{FC}' then "u" else ""
  }

  /** `FoldOk` can be met, so the lemmas that assume it are about real folds. */
  lemma SampleFoldOk()
    ensures FoldOk(SampleFold)
  {
  }

  /** NFKD of `s` with combining marks dropped. */
  function Decompose(fold: Fold, s: string): string {
    if s == [] then [] else fold(s[0]) + Decompose(fold, s[1..])
  }

  /** Decomposition leaves ASCII text alone. */
  lemma {:induction false} DecomposeAscii(fold: Fold, s: string)
    requires FoldOk(fold) && AllAscii(s)
    ensures Decompose(fold, s) == s
  {
    if s != [] {
      DecomposeAscii(fold, s[1..]);
    }
  }

  /** Decomposition never introduces a control character. */
  lemma {:induction false} DecomposeNoControls(fold: Fold, s: string)
    requires FoldOk(fold) && NoControls(s)
    ensures NoControls(Decompose(fold, s))
  {
    if s != [] {
      DecomposeNoControls(fold, s[1..]);
      var head, tail := fold(s[0]), Decompose(fold, s[1..]);
      assert Decompose(fold, s) == head + tail;
      assert !IsControl(s[0]);
      forall i | 0 <= i < |head + tail| ensures !IsControl((head + tail)[i]) {
        if i >= |head| { assert (head + tail)[i] == tail[i - |head|]; }
      }
    }
  }

  /** Decomposition acts character by character. */
  lemma {:induction false} DecomposeConcat(fold: Fold, a: string, b: string)
    ensures Decompose(fold, a + b) == Decompose(fold, a) + Decompose(fold, b)
  {
    if a == [] {
      assert a + b == b;
    } else {
      assert (a + b)[1..] == a[1..] + b;
      DecomposeConcat(fold, a[1..], b);
    }
  }

  /** In ASCII text, only the one other character is decomposed. */
  lemma DecomposeOne(fold: Fold, pre: string, c: char, post: string)
    requires FoldOk(fold) && AllAscii(pre) && AllAscii(post)
    ensures Decompose(fold, pre + [c] + post) == pre + fold(c) + post
  {
    DecomposeConcat(fold, pre + [c], post);
    DecomposeConcat(fold, pre, [c]);
    DecomposeAscii(fold, pre);
    DecomposeAscii(fold, post);
    assert Decompose(fold, [c]) == fold(c) + Decompose(fold, []);
  }
}
