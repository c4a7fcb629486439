/** The chat filter of the online mode (`filterBadWords`): each listed word is
    replaced, wherever it stands as a whole word in any letter case, by as
    many asterisks as it has characters. */
module ChatFilter {
  import opened Text

  const BAD_WORDS: seq<string> := ["badword1", "badword2", "ass", "shit", "fuck"]

  /** `\b` at position `i`: exactly one of the characters around it is a word character. */
  predicate Boundary(s: string, i: int)
    requires 0 <= i <= |s|
  {
    (0 < i && IsWordChar(s[i - 1])) != (i < |s| && IsWordChar(s[i]))
  }

  /** A non-empty word made of word characters, as every listed word is. */
  predicate WholeWord(w: string)
  {
    |w| > 0 && forall k :: 0 <= k < |w| ==> IsWordChar(w[k])
  }

  /** The pattern `\bw\b` with the `i` flag matches at `j` (ASCII letters
      compare without case; the listed words are in lower case). */
  predicate MatchAt(s: string, w: string, j: int)
  {
    0 <= j && j + |w| <= |s| && Boundary(s, j) && Boundary(s, j + |w|)
    && forall k :: 0 <= k < |w| ==> Lower(s[j + k]) == w[k]
  }

  /** Position `q` lies inside a match of `w` that starts at or after `from`. */
  predicate CoveredFrom(s: string, w: string, from: int, q: int)
  {
    exists j :: from <= j <= q < j + |w| && MatchAt(s, w, j)
  }

  predicate Covered(s: string, w: string, q: int)
  {
    CoveredFrom(s, w, 0, q)
  }

  /** Position `q` lies inside a match of one of `words`. */
  predicate CoveredAny(s: string, words: seq<string>, q: int)
  {
    exists m :: 0 <= m < |words| && Covered(s, words[m], q)
  }

  /** A whole-word match is a maximal run of word characters. */
  lemma MatchRun(s: string, w: string, j: int)
    requires WholeWord(w) && MatchAt(s, w, j)
    ensures forall q :: j <= q < j + |w| ==> IsWordChar(s[q])
    ensures j > 0 ==> !IsWordChar(s[j - 1])
    ensures j + |w| < |s| ==> !IsWordChar(s[j + |w|])
  {
    forall q | j <= q < j + |w| ensures IsWordChar(s[q]) {
      assert Lower(s[j + (q - j)]) == w[q - j];
    }
  }

  /** Two whole-word matches that overlap start at the same place and have the same length. */
  lemma NoOverlap(s: string, u: string, p: int, w: string, j: int)
    requires WholeWord(u) && WholeWord(w) && MatchAt(s, u, p) && MatchAt(s, w, j)
    requires p <= j < p + |u|
    ensures p == j && |u| == |w|
  {
    MatchRun(s, u, p);
    MatchRun(s, w, j);
  }

  /** Overlapping whole-word matches are matches of the same word at the same place. */
  lemma SameMatch(s: string, u: string, p: int, w: string, j: int, q: int)
    requires WholeWord(u) && WholeWord(w)
    requires MatchAt(s, u, p) && MatchAt(s, w, j)
    requires p <= q < p + |u| && j <= q < j + |w|
    ensures p == j && u == w
  {
    if p <= j { NoOverlap(s, u, p, w, j); } else { NoOverlap(s, w, j, u, p); }
    assert forall k :: 0 <= k < |u| ==> u[k] == Lower(s[p + k]) == w[k];
  }

  // ---------------------------------------------------------------------------
  // One pass: `out.replace(re, m => '*'.repeat(m.length))`

  /** The replacement scanning from `i`: a match is starred and skipped,
      otherwise one character is kept. */
  function MaskFrom(s: string, w: string, i: int): (r: string)
    requires WholeWord(w) && 0 <= i <= |s|
    ensures |r| == |s| - i
    decreases |s| - i
  {
    if i == |s| then []
    else if MatchAt(s, w, i) then Repeat('*', |w|) + MaskFrom(s, w, i + |w|)
    else [s[i]] + MaskFrom(s, w, i + 1)
  }

  function MaskWord(s: string, w: string): (r: string)
    requires WholeWord(w)
    ensures |r| == |s|
  {
    MaskFrom(s, w, 0)
  }

  /** The scan never skips past the start of a match, so it stars exactly the
      positions inside matches. */
  lemma {:induction false} MaskFromAt(s: string, w: string, i: int, q: int)
    requires WholeWord(w) && 0 <= i <= q < |s|
    ensures MaskFrom(s, w, i)[q - i] == if CoveredFrom(s, w, i, q) then '*' else s[q]
    decreases |s| - i
  {
    var r := MaskFrom(s, w, i);
    if MatchAt(s, w, i) {
      var rest := MaskFrom(s, w, i + |w|);
      assert r == Repeat('*', |w|) + rest;
      if q < i + |w| {
        assert r[q - i] == '*';
        assert CoveredFrom(s, w, i, q);
      } else {
        MaskFromAt(s, w, i + |w|, q);
        assert r[q - i] == rest[q - (i + |w|)];
        if CoveredFrom(s, w, i, q) {
          var j :| i <= j <= q < j + |w| && MatchAt(s, w, j);
          if j < i + |w| { NoOverlap(s, w, i, w, j); }
          assert CoveredFrom(s, w, i + |w|, q);
        }
      }
    } else {
      var rest := MaskFrom(s, w, i + 1);
      assert r == [s[i]] + rest;
      if q == i {
        assert !CoveredFrom(s, w, i, q);
      } else {
        MaskFromAt(s, w, i + 1, q);
        assert r[q - i] == rest[q - (i + 1)];
        if CoveredFrom(s, w, i, q) {
          var j :| i <= j <= q < j + |w| && MatchAt(s, w, j);
          assert j != i;
          assert CoveredFrom(s, w, i + 1, q);
        }
      }
    }
  }

  /** One pass stars exactly the whole-word occurrences of `w` and keeps every
      other character. */
  lemma MaskWordAt(s: string, w: string, q: int)
    requires WholeWord(w) && 0 <= q < |s|
    ensures MaskWord(s, w)[q] == if Covered(s, w, q) then '*' else s[q]
  {
    MaskFromAt(s, w, 0, q);
  }

  // ---------------------------------------------------------------------------
  // All passes, one word after the other

  /** The passes for `words`, in order, each on the output of the one before. */
  function FilterWith(s: string, words: seq<string>): (r: string)
    requires forall m :: 0 <= m < |words| ==> WholeWord(words[m])
    ensures |r| == |s|
  {
    if words == [] then s
    else MaskWord(FilterWith(s, words[..|words| - 1]), words[|words| - 1])
  }

  predicate Distinct(words: seq<string>)
  {
    forall m, n :: 0 <= m < n < |words| ==> words[m] != words[n]
  }

  /** `t` is `s` with exactly the whole-word occurrences of `words` starred. */
  predicate StarredExactly(s: string, words: seq<string>, t: string)
  {
    |t| == |s| && forall q :: 0 <= q < |s| ==> t[q] == if CoveredAny(s, words, q) then '*' else s[q]
  }

  lemma StarredAt(s: string, words: seq<string>, t: string, q: int)
    requires StarredExactly(s, words, t) && 0 <= q < |s|
    ensures t[q] == if CoveredAny(s, words, q) then '*' else s[q]
  {
  }

  /** Inside a match of a word that is not in `words`, no position is covered by `words`. */
  lemma NotCoveredInMatch(s: string, words: seq<string>, w: string, j: int, q: int)
    requires forall m :: 0 <= m < |words| ==> WholeWord(words[m])
    requires WholeWord(w) && w !in words
    requires MatchAt(s, w, j) && j <= q < j + |w|
    ensures !CoveredAny(s, words, q)
  {
    if CoveredAny(s, words, q) {
      var m :| 0 <= m < |words| && Covered(s, words[m], q);
      var p :| 0 <= p <= q < p + |words[m]| && MatchAt(s, words[m], p);
      SameMatch(s, words[m], p, w, j, q);
    }
  }

  /** A match of another word in the original survives the starring. */
  lemma TransferIn(s: string, words: seq<string>, t: string, w: string, j: int)
    requires forall m :: 0 <= m < |words| ==> WholeWord(words[m])
    requires WholeWord(w) && w !in words
    requires StarredExactly(s, words, t) && MatchAt(s, w, j)
    ensures MatchAt(t, w, j)
  {
    MatchRun(s, w, j);
    forall q | j <= q < j + |w| ensures t[q] == s[q] {
      NotCoveredInMatch(s, words, w, j, q);
      StarredAt(s, words, t, q);
    }
    if j > 0 { StarredAt(s, words, t, j - 1); }
    if j + |w| < |s| { StarredAt(s, words, t, j + |w|); }
    assert Boundary(t, j);
    assert Boundary(t, j + |w|);
  }

  /** A word character of the starred text is the original character, uncovered. */
  lemma WordCharKept(s: string, words: seq<string>, t: string, q: int)
    requires StarredExactly(s, words, t) && 0 <= q < |s| && IsWordChar(t[q])
    ensures !CoveredAny(s, words, q) && t[q] == s[q]
  {
    StarredAt(s, words, t, q);
  }

  /** A match of another word in the starred text was a match in the original. */
  lemma TransferOut(s: string, words: seq<string>, t: string, w: string, j: int)
    requires forall m :: 0 <= m < |words| ==> WholeWord(words[m])
    requires WholeWord(w)
    requires StarredExactly(s, words, t) && MatchAt(t, w, j)
    ensures MatchAt(s, w, j)
  {
    MatchRun(t, w, j);
    forall q | j <= q < j + |w| ensures t[q] == s[q] {
      WordCharKept(s, words, t, q);
    }
    var e := j + |w|;
    if j > 0 {
      StarredAt(s, words, t, j - 1);
      if CoveredAny(s, words, j - 1) {
        var m :| 0 <= m < |words| && Covered(s, words[m], j - 1);
        var p :| 0 <= p <= j - 1 < p + |words[m]| && MatchAt(s, words[m], p);
        MatchRun(s, words[m], p);
        WordCharKept(s, words, t, j);
      }
    }
    if e < |s| {
      StarredAt(s, words, t, e);
      if CoveredAny(s, words, e) {
        var m :| 0 <= m < |words| && Covered(s, words[m], e);
        var p :| 0 <= p <= e < p + |words[m]| && MatchAt(s, words[m], p);
        MatchRun(s, words[m], p);
        WordCharKept(s, words, t, e - 1);
      }
    }
    assert Boundary(s, j);
    assert Boundary(s, e);
  }

  lemma CoveredTransfer(s: string, words: seq<string>, t: string, w: string, q: int)
    requires forall m :: 0 <= m < |words| ==> WholeWord(words[m])
    requires WholeWord(w) && w !in words
    requires StarredExactly(s, words, t)
    ensures Covered(t, w, q) <==> Covered(s, w, q)
  {
    if Covered(t, w, q) {
      var j :| 0 <= j <= q < j + |w| && MatchAt(t, w, j);
      TransferOut(s, words, t, w, j);
    }
    if Covered(s, w, q) {
      var j :| 0 <= j <= q < j + |w| && MatchAt(s, w, j);
      TransferIn(s, words, t, w, j);
    }
  }

  lemma CoveredAnySnoc(s: string, init: seq<string>, w: string, q: int)
    ensures CoveredAny(s, init + [w], q) <==> CoveredAny(s, init, q) || Covered(s, w, q)
  {
    var words := init + [w];
    if CoveredAny(s, words, q) {
      var m :| 0 <= m < |words| && Covered(s, words[m], q);
      if m < |init| { assert init[m] == words[m]; }
    }
    if CoveredAny(s, init, q) {
      var m :| 0 <= m < |init| && Covered(s, init[m], q);
      assert words[m] == init[m];
    }
    if Covered(s, w, q) {
      assert words[|init|] == w;
    }
  }

  /** For distinct whole words, the passes together star exactly the positions
      inside a whole-word occurrence, in the original text, of one of the words. */
  lemma {:induction false} FilterWithStarsExactly(s: string, words: seq<string>)
    requires forall m :: 0 <= m < |words| ==> WholeWord(words[m])
    requires Distinct(words)
    ensures StarredExactly(s, words, FilterWith(s, words))
  {
    if words != [] {
      var init := words[..|words| - 1];
      var w := words[|words| - 1];
      assert words == init + [w];
      assert Distinct(init);
      FilterWithStarsExactly(s, init);
      var t := FilterWith(s, init);
      assert w !in init by {
        forall m | 0 <= m < |init| ensures init[m] != w { assert init[m] == words[m]; }
      }
      forall q | 0 <= q < |s|
        ensures FilterWith(s, words)[q] == if CoveredAny(s, words, q) then '*' else s[q]
      {
        MaskWordAt(t, w, q);
        CoveredTransfer(s, init, t, w, q);
        CoveredAnySnoc(s, init, w, q);
        StarredAt(s, init, t, q);
      }
    }
  }

  /** The text after the passes for every listed word. */
  function Filtered(text: string): (r: string)
    ensures |r| == |text|
  {
    assert forall m :: 0 <= m < |BAD_WORDS| ==> WholeWord(BAD_WORDS[m]);
    FilterWith(text, BAD_WORDS)
  }

  /** `filterBadWords`: an empty text is returned as it is; otherwise each
      listed word is starred in turn. The result has the text's length and
      differs from it exactly at the whole-word, any-case occurrences of the
      listed words in the original message. */
  method FilterBadWords(text: string) returns (out: string)
    ensures out == Filtered(text)
    ensures |out| == |text|
    ensures forall q :: 0 <= q < |text| ==>
              out[q] == if CoveredAny(text, BAD_WORDS, q) then '*' else text[q]
  {
    assert forall m :: 0 <= m < |BAD_WORDS| ==> WholeWord(BAD_WORDS[m]);
    if text == [] {
      return text;
    }
    out := text;
    var i := 0;
    while i < |BAD_WORDS|
      invariant 0 <= i <= |BAD_WORDS|
      invariant out == FilterWith(text, BAD_WORDS[..i])
    {
      assert BAD_WORDS[..i + 1][..i] == BAD_WORDS[..i];
      out := MaskWord(out, BAD_WORDS[i]);
      i := i + 1;
    }
    assert BAD_WORDS[..i] == BAD_WORDS;
    FilterWithStarsExactly(text, BAD_WORDS);
  }
}
