/**
 * `CaptionEnhance.enhance_dense_captions`: sort a copy of the dense captions
 * by confidence, clean every text, and apply the intro rule to the two
 * highest-ranked entries only. The random phrase choices for rank 0 and
 * rank 1 are the caller-supplied indices `k0` and `k1`.
 */
module DenseEnhancer {
  import opened Wrappers
  import opened CaptionCleaner
  import opened Intro
  import opened CaptionEnhancer
  import opened DenseSort

  /** What the loop makes of the entry `c` found at position `rank` of the sorted list. */
  function EnhancedEntry(c: DenseCaption, rank: nat, k0: nat, k1: nat): DenseCaption
    requires k0 < |IntroPhrases| && k1 < |IntroPhrases|
  {
    var cleaned := CleanText(c.text);
    DenseCaption(if rank < 2 then WithIntro(cleaned, if rank == 0 then k0 else k1) else cleaned, c.confidence)
  }

  /**
   * An entry keeps its confidence; at rank 0 or 1 its text starts with a
   * catalogue phrase and ends with the cleaned text, and equals the cleaned text
   * exactly when that already has an intro (otherwise the phrase `k0` or `k1`
   * and a space are put in front); at any later rank it is the cleaned text.
   */
  lemma EnhancedEntryText(c: DenseCaption, rank: nat, k0: nat, k1: nat)
    requires k0 < |IntroPhrases| && k1 < |IntroPhrases|
    ensures var e := EnhancedEntry(c, rank, k0, k1);
      var cleaned := CleanText(c.text);
      var k := if rank == 0 then k0 else k1;
      && e.confidence == c.confidence
      && (rank >= 2 ==> e.text == cleaned)
      && (rank < 2 ==>
        && HasIntro(e.text)
        && (e.text == cleaned <==> HasIntro(cleaned))
        && (!HasIntro(cleaned) ==> e.text == IntroPhrases[k] + " " + cleaned)
        && |cleaned| <= |e.text| && e.text[|e.text| - |cleaned|..] == cleaned)
  {
    var cleaned := CleanText(c.text);
    if rank < 2 {
      var k := if rank == 0 then k0 else k1;
      assert EnhancedEntry(c, rank, k0, k1).text == WithIntro(cleaned, k);
    }
  }

  /** The list the loop has built after the first `n` entries of `sorted`. */
  function EnhancedUpTo(sorted: seq<DenseCaption>, n: nat, k0: nat, k1: nat): (r: seq<DenseCaption>)
    requires n <= |sorted|
    requires k0 < |IntroPhrases| && k1 < |IntroPhrases|
    ensures |r| == n
  {
    if n == 0 then [] else EnhancedUpTo(sorted, n - 1, k0, k1) + [EnhancedEntry(sorted[n - 1], n - 1, k0, k1)]
  }

  /** What `enhance_dense_captions(dense_captions)` returns; `None` stands for a missing list. */
  function EnhancedDense(dense: Option<seq<DenseCaption>>, k0: nat, k1: nat): (r: seq<DenseCaption>)
    requires k0 < |IntroPhrases| && k1 < |IntroPhrases|
    ensures dense.None? || dense == Some([]) ==> r == []
    ensures dense.Some? ==> |r| == |dense.value|
  {
    if dense.None? || dense.value == [] then []
    else
      var sorted := SortByConfidence(dense.value);
      SortIsPermutation(dense.value);
      EnhancedUpTo(sorted, |sorted|, k0, k1)
  }

  /** Appending never disturbs what is already built: entry `i` is the entry made at rank `i`. */
  lemma {:induction false} EnhancedUpToAt(sorted: seq<DenseCaption>, n: nat, k0: nat, k1: nat, i: nat)
    requires i < n <= |sorted|
    requires k0 < |IntroPhrases| && k1 < |IntroPhrases|
    ensures EnhancedUpTo(sorted, n, k0, k1)[i] == EnhancedEntry(sorted[i], i, k0, k1)
  {
    if i < n - 1 {
      EnhancedUpToAt(sorted, n - 1, k0, k1, i);
    }
  }

  /** The result is the sorted input, entry by entry, each made over by `EnhancedEntry` at its rank. */
  lemma EnhancedDenseByRank(dense: seq<DenseCaption>, k0: nat, k1: nat, i: nat)
    requires k0 < |IntroPhrases| && k1 < |IntroPhrases|
    requires i < |dense|
    ensures var r := EnhancedDense(Some(dense), k0, k1);
      var sorted := SortByConfidence(dense);
      && |r| == |sorted| == |dense|
      && r[i] == EnhancedEntry(sorted[i], i, k0, k1)
  {
    SortIsPermutation(dense);
    EnhancedUpToAt(SortByConfidence(dense), |dense|, k0, k1, i);
  }

  /**
   * The entry at rank `i` of the result comes from the entry at rank `i` of the
   * sorted input and keeps its confidence: ranks 0 and 1 start with a catalogue
   * phrase and end with the cleaned text, which they equal exactly when that
   * already has an intro; every later rank is exactly the cleaned text.
   */
  lemma EnhancedDenseEntries(dense: seq<DenseCaption>, k0: nat, k1: nat, i: nat)
    requires k0 < |IntroPhrases| && k1 < |IntroPhrases|
    requires i < |dense|
    ensures var r := EnhancedDense(Some(dense), k0, k1);
      var sorted := SortByConfidence(dense);
      var cleaned := CleanText(sorted[i].text);
      var k := if i == 0 then k0 else k1;
      && |r| == |sorted| == |dense|
      && r[i].confidence == sorted[i].confidence
      && (i >= 2 ==> r[i].text == cleaned)
      && (i < 2 ==>
        && HasIntro(r[i].text)
        && (r[i].text == cleaned <==> HasIntro(cleaned))
        && (!HasIntro(cleaned) ==> r[i].text == IntroPhrases[k] + " " + cleaned)
        && |cleaned| <= |r[i].text| && r[i].text[|r[i].text| - |cleaned|..] == cleaned)
  {
    EnhancedDenseByRank(dense, k0, k1, i);
    EnhancedEntryText(SortByConfidence(dense)[i], i, k0, k1);
  }

  /** The result has the confidences of the sorted input, in the same order. */
  lemma EnhancedDenseConfidences(dense: seq<DenseCaption>, k0: nat, k1: nat)
    requires k0 < |IntroPhrases| && k1 < |IntroPhrases|
    ensures Confidences(EnhancedDense(Some(dense), k0, k1)) == Confidences(SortByConfidence(dense))
  {
    var r := EnhancedDense(Some(dense), k0, k1);
    var sorted := SortByConfidence(dense);
    SortIsPermutation(dense);
    forall i | 0 <= i < |r| ensures r[i].confidence == sorted[i].confidence {
      EnhancedDenseByRank(dense, k0, k1, i);
      EnhancedEntryText(sorted[i], i, k0, k1);
    }
  }

  /**
   * The result's confidences are those of the input, rearranged, and never
   * increase along the result under the key that puts an absent confidence at -1.
   */
  lemma EnhancedDenseOrder(dense: Option<seq<DenseCaption>>, k0: nat, k1: nat)
    requires k0 < |IntroPhrases| && k1 < |IntroPhrases|
    ensures var r := EnhancedDense(dense, k0, k1);
      && (dense.Some? ==> multiset(Confidences(r)) == multiset(Confidences(dense.value)))
      && SortedDesc(r)
  {
    if dense.Some? && dense.value != [] {
      SortIsSorted(dense.value);
      ConfidencesOfSort(dense.value);
      EnhancedDenseConfidences(dense.value, k0, k1);
      SameConfidencesSorted(EnhancedDense(dense, k0, k1), SortByConfidence(dense.value));
    }
  }

  /**
   * The `for i, caption in enumerate(sorted_captions)` loop, building the new
   * list by appending, after the early return for a missing or empty list.
   */
  method EnhanceDenseCaptions(dense: Option<seq<DenseCaption>>, k0: nat, k1: nat) returns (enhanced: seq<DenseCaption>)
    requires k0 < |IntroPhrases| && k1 < |IntroPhrases|
    ensures enhanced == EnhancedDense(dense, k0, k1)
  {
    if dense.None? || dense.value == [] {
      return [];
    }
    var sorted := SortByConfidence(dense.value);
    enhanced := [];
    for i := 0 to |sorted|
      invariant enhanced == EnhancedUpTo(sorted, i, k0, k1)
    {
      var caption := sorted[i];
      var cleanedText := CleanCaptionText(caption.text);
      if i < 2 {
        var hasIntro := StartsWithIntro(cleanedText);
        if !hasIntro {
          cleanedText := GetRandomIntro(if i == 0 then k0 else k1) + " " + cleanedText;
        }
      }
      var entry := DenseCaption(cleanedText, caption.confidence);
      assert entry == EnhancedEntry(caption, i, k0, k1);
      enhanced := enhanced + [entry];
    }
  }
}
