# Caption enhancer, modelled and proved in Dafny

This project models `CaptionEnhance` in `caption_enhance.py`. That is the
post-processor that rewrites the captions an image-analysis service returns.
It has four parts:

- **Repetition cleaner** (`clean_caption_text`). It splits a caption into
  whitespace tokens and makes one greedy left-to-right pass. At each cursor it
  tries unit lengths 2..7, shortest first.
  - A unit immediately followed by an identical copy is output once, the first
    time it is met in the call.
  - A later site of the same unit outputs nothing.
  - Either way, both copies are skipped.
  - Otherwise the token at the cursor is output.
  - Empty texts and texts of at most three tokens come back as they are.
- **Intro rule** (`enhance_caption`, `get_random_intro`). The cleaned caption
  gets one of 15 fixed intro phrases and a space in front. This happens unless
  the cleaned caption, lower-cased, already starts with a lower-cased phrase.
- **Dense captions** (`enhance_dense_captions`). A copy of the list is sorted
  by confidence, highest first, with a missing confidence keyed as -1. Every
  text is cleaned, and the intro rule applies to the first two entries only.
- **Response merge** (`enhance_response`). This is a copy of the response
  dictionary in which only the `caption` and `dense_captions` entries are
  rewritten, and only when present.

Modules:

- `Text`: `str.split()`, `" ".join`, and `str.lower()` restricted to ASCII.
- `CaptionCleaner`: the pass as the function `Scan`, and the two loops as
  methods proved to compute it.
- `CleanerTrace`: the pass as a list of decisions. Each decision is a single
  token, a kept unit or a dropped unit.
- `CleanerProperties` and `CleanerExamples`: what the pass guarantees, and
  worked examples of it.
- `Intro`: the phrase catalogue and the intro rule.
- `CaptionEnhancer`: `enhance_caption`.
- `DenseSort`: the stable confidence sort.
- `DenseEnhancer`: `enhance_dense_captions`.
- `ResponseEnhancer`: `enhance_response`.

The random choice in `get_random_intro` is a parameter. `k` is the caption's
phrase index. `k0` and `k1` are the indices for dense ranks 0 and 1.

Three behaviours of `clean_caption_text` and the confidence sort are easy to
miss:

1. A unit already seen in the call is dropped completely at a later site, not
   kept once. `x a b a b y a b a b z` cleans to `x a b y z`
   (`CleanerExamples.SecondOccurrenceDropped`).
2. Cleaning is not idempotent. `a b a b a b` cleans to `a b a b`, and that
   cleans to `a b` (`CleanerExamples.NotIdempotent`).
   - At cursor 4 only two tokens remain, so `range(2, 2)` is empty and no length is tried.
3. A missing confidence does not always sort last. It is keyed as -1, so a
   confidence below -1 sorts after it (`DenseSort.Key`).

## Model

| member | source | states |
|---|---|---|
| Intro.GetRandomIntro | caption_enhance.py:26-29 | The phrase returned for any valid choice `k` is one of the 15 catalogue phrases, and it is non-empty |
| Intro.WithIntro | caption_enhance.py:81-87 | The result always starts with a catalogue phrase, ignoring ASCII case. It equals the text exactly when the text already starts with one. Otherwise it is phrase `k`, a space and the text. In both cases it ends with the text |
| Intro.PrefixedHasIntro | caption_enhance.py:87 | Phrase `k` followed by a space and any text passes the case-insensitive prefix check |
| Text.SplitYieldsWords | caption_enhance.py:37 | Every token of `split()` is non-empty and contains no whitespace |
| Text.SplitJoin | caption_enhance.py:70 | Splitting the single-space join of tokens gives back exactly those tokens |
| Text.LowerPrefix | caption_enhance.py:82-84 | `a` lower-cased is a prefix of `a + b` lower-cased |
| CaptionCleaner.SameRunIsSliceEquality | caption_enhance.py:52-58 | The token-by-token comparison agrees with tuple equality of the two slices |
| CaptionCleaner.FirstRepeat | caption_enhance.py:51-58 | Every unit length found satisfies 2 <= L <= 7, L < len(words) - i and i + 2L <= len(words) |
| CaptionCleaner.FirstRepeatIsFirst | caption_enhance.py:51-64 | The length found repeats, and no shorter tried length does. No length means no tried length repeats |
| CaptionCleaner.UnitRepeats | caption_enhance.py:55-58 | The unit found at the cursor is immediately followed by an identical copy within the token list |
| CaptionCleaner.ScanAtRepeat | caption_enhance.py:58-64 | At a repeat, the unit is output only if unseen. The scan resumes 2L tokens later with the unit added to the seen set |
| CaptionCleaner.ScanAtSingle | caption_enhance.py:66-68 | With no repeat, the token at the cursor is output and the scan resumes one token later |
| CaptionCleaner.ScanKeepStep | caption_enhance.py:60-63 | The loop invariant survives a first sighting: append the unit, add it to the seen set, advance by 2L |
| CaptionCleaner.ScanDropStep | caption_enhance.py:60-63 | The loop invariant survives a sighting of a seen unit: output and seen set unchanged, advance by 2L |
| CaptionCleaner.ScanSingleStep | caption_enhance.py:66-68 | The loop invariant survives a non-repeat: append the token, advance by 1 |
| CaptionCleaner.FindRepeat | caption_enhance.py:50-64 | The inner `for` loop returns the smallest repeating length among those tried, or none, within the bounds above |
| CaptionCleaner.CollapseRepeats | caption_enhance.py:41-68 | The `while` loop, with cursor, output list and seen set, outputs exactly the tokens of the reference pass `Scan` |
| CaptionCleaner.CleanCaptionText | caption_enhance.py:32-70 | Empty text and text of at most 3 tokens are returned verbatim. Any other text is the single-space join of the pass's output |
| CleanerTrace.SitesAtRepeat | caption_enhance.py:58-64 | At a repeat, the pass records a kept unit if unseen and a dropped unit if seen, then resumes after the copy |
| CleanerTrace.SitesAtSingle | caption_enhance.py:66-68 | With no repeat, the pass records the single token and resumes one token later |
| CleanerTrace.ScanIsEmitted | caption_enhance.py:46-68 | The tokens the decisions output are exactly the tokens the pass outputs |
| CleanerProperties.SitesCoverInput | caption_enhance.py:46-68 | The cursor moves by exactly 2L at a repeat and by 1 otherwise. The decisions step over the remaining tokens exactly once, in order |
| CleanerProperties.EmittedWithinCovered | caption_enhance.py:60-68 | Each decision outputs a subsequence of the tokens it steps over |
| CleanerProperties.CollapseIsSubsequence | caption_enhance.py:46-68 | The output tokens are a subsequence of the input tokens, so there are no more of them |
| CleanerProperties.KeptAtMostOnce | caption_enhance.py:60-63 | A unit is output at most once per call. A kept unit was not seen before, and no two kept sites carry the same unit |
| CleanerProperties.DroppedOnlyAfterKept | caption_enhance.py:60-63 | A site that contributes no tokens carries a unit that was seen on entry or kept at an earlier site |
| CleanerProperties.NoRepeatKeepsTokens | caption_enhance.py:66-68 | If no unit of 2..7 tokens repeats immediately anywhere, the pass outputs its input tokens unchanged |
| CleanerProperties.CleanTextDeletesTokens | caption_enhance.py:32-70 | For every text, the tokens of the cleaned text are a subsequence of the input's tokens and no more numerous |
| CleanerProperties.CleanTextWithoutRepeats | caption_enhance.py:66-70 | A text of more than 3 tokens with no immediate repeat comes back as its tokens joined by single spaces |
| CleanerExamples.CleanJoined | caption_enhance.py:37-70 | For a single-space join of more than 3 words, cleaning re-joins the pass's output on those words |
| CleanerExamples.RepeatedPairCollapses | caption_enhance.py:58-64 | `a b a b` becomes `a b` |
| CleanerExamples.RepeatedTripleCollapses | caption_enhance.py:51-64 | `a b c a b c d` becomes `a b c d`, because length 2 does not repeat and length 3 does |
| CleanerExamples.SecondOccurrenceDropped | caption_enhance.py:60-63 | `x a b a b y a b a b z` becomes `x a b y z`. The later site of a seen unit contributes nothing |
| CleanerExamples.NotIdempotent | caption_enhance.py:51 | `a b a b a b` becomes `a b a b`, which becomes `a b`. One pass is not a fixed point |
| CaptionEnhancer.EnhancedCaption | caption_enhance.py:73-87 | A missing or empty caption is returned unchanged. Any other caption is cleaned. The result is the cleaned caption exactly when that already has an intro. Otherwise it is phrase `k`, a space and the cleaned caption |
| CaptionEnhancer.StartsWithIntro | caption_enhance.py:81-85 | The loop over the catalogue answers true exactly when the text, lower-cased, starts with some lower-cased phrase |
| CaptionEnhancer.EnhanceCaption | caption_enhance.py:73-87 | `enhance_caption` with early returns computes `EnhancedCaption` |
| DenseSort.Insert | caption_enhance.py:96-100 | Inserting adds exactly one entry, and the multiset of entries grows by that entry |
| DenseSort.InsertSorted | caption_enhance.py:96-100 | Inserting into a list with non-increasing keys keeps the keys non-increasing |
| DenseSort.WithKeyInsert | caption_enhance.py:96-100 | Among the entries with any one key, an inserted entry comes before those already there |
| DenseSort.SortIsPermutation | caption_enhance.py:96-100 | The sorted copy has the same length and the same multiset of entries as the input |
| DenseSort.SortIsSorted | caption_enhance.py:96-100 | The sorted copy's keys, with a missing confidence as -1, never increase |
| DenseSort.SortIsStable | caption_enhance.py:96-100 | For every key value, the entries with that key appear in input order |
| DenseSort.ConfidencesOfSort | caption_enhance.py:96-100 | Sorting keeps the multiset of confidences |
| DenseSort.SameConfidencesSorted | caption_enhance.py:119-122 | A list with the same confidences, in the same order, as a sorted list is sorted too |
| DenseEnhancer.EnhancedDense | caption_enhance.py:90-93 | A missing or empty list gives an empty list. Otherwise the result has as many entries as the input |
| DenseEnhancer.EnhancedEntryText | caption_enhance.py:104-122 | An entry keeps its confidence. At rank 0 or 1, its text is the cleaned text with the intro rule applied using choice `k0` or `k1`. At later ranks, it is the cleaned text |
| DenseEnhancer.EnhancedUpToAt | caption_enhance.py:103-122 | Appending in the loop never changes earlier entries. Entry `i` is the one made from sorted entry `i` at rank `i` |
| DenseEnhancer.EnhancedDenseByRank | caption_enhance.py:96-122 | Result entry `i` is made from entry `i` of the sorted copy |
| DenseEnhancer.EnhancedDenseEntries | caption_enhance.py:104-122 | Result entry `i` keeps the confidence of sorted entry `i`. For i >= 2 its text is exactly the cleaned text. For i < 2 it starts with a phrase, ends with the cleaned text, and equals it exactly when the cleaned text has an intro. Otherwise it is phrase `k0`/`k1`, a space and the cleaned text |
| DenseEnhancer.EnhancedDenseConfidences | caption_enhance.py:119-122 | The result carries the sorted copy's confidences, in order |
| DenseEnhancer.EnhancedDenseOrder | caption_enhance.py:96-122 | The result's confidences are a permutation of the input's, and they never increase under the key that maps a missing confidence to -1 |
| DenseEnhancer.EnhanceDenseCaptions | caption_enhance.py:90-124 | The early return, the sort and the appending `for` loop together compute `EnhancedDense` |
| ResponseEnhancer.EnhanceResponse | caption_enhance.py:126-138 | The copy has the same keys, and every other key keeps its value. `caption` is replaced by its enhanced form exactly when present, and so is `dense_captions` |

## Left out

- `main.py` and `models.py` are not part of this model: HTTP routing, environment checks, blob upload, the vision service call and record declarations. `DenseCaption` mirrors the record's two fields.
- `get_random_intro` uses randomness. The choice is a parameter (`k`, `k0`, `k1`), so the model says nothing about the distribution. Each of the two dense ranks has its own index. This covers every sequence of choices the code can make.
- Text.Lower: models `str.lower()` on ASCII letters only. Unicode case mapping is not modelled.
- DenseSort.Key: confidences are reals. Floating-point rounding and NaN (which `sorted` does not order consistently) are not modelled.
- ResponseEnhancer.EnhanceResponse: requires `caption` to hold a string or `None`, and `dense_captions` to hold a list or `None`. Other values are not modelled. A falsy `caption` comes back as it is (caption_enhance.py:75-76), a falsy `dense_captions` becomes `[]` (caption_enhance.py:92-93), and most other types raise.
- ResponseEnhancer.EnhanceResponse: dictionaries are values, so "the input dictionary is not changed" holds by construction and aliasing is not modelled. The same holds for the sorted copy in `enhance_dense_captions`.
- The cleaner examples are stated on token lists (`CleanerExamples.CleanJoined` links them to texts of single-space-separated words), not on literal strings.
