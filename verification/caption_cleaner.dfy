/**
 * `CaptionEnhance.clean_caption_text`: a greedy, single left-to-right pass over
 * the whitespace tokens of a caption that collapses a unit of 2..7 tokens
 * immediately followed by an identical copy, and outputs each such unit only
 * the first time it is met in the call.
 *
 * `Scan` is the reference definition of the tokens the pass outputs;
 * `CollapseRepeats` is the loop itself, proved to compute it, and
 * `CleanCaptionText` is the whole operation, proved to compute `CleanText`.
 */
module CaptionCleaner {
  import opened Wrappers
  import opened Text

  function Min(a: int, b: int): int { if a <= b then a else b }

  /** The unit `words[i..i+L]` is immediately followed by an identical copy. */
  predicate RepeatsAt<T(==)>(words: seq<T>, i: nat, L: nat)
  {
    i + 2 * L <= |words| && SameRun(words, i, i + L, L)
  }

  /** `words[a..a + n] == words[b..b + n]`, compared token by token. */
  predicate SameRun<T(==)>(words: seq<T>, a: nat, b: nat, n: nat)
    requires a + n <= |words| && b + n <= |words|
    decreases n
  {
    n == 0 || (words[a] == words[b] && SameRun(words, a + 1, b + 1, n - 1))
  }

  lemma {:induction false} SameRunIsSliceEquality<T>(words: seq<T>, a: nat, b: nat, n: nat)
    requires a + n <= |words| && b + n <= |words|
    ensures SameRun(words, a, b, n) <==> words[a..a + n] == words[b..b + n]
    decreases n
  {
    if n > 0 {
      SameRunIsSliceEquality(words, a + 1, b + 1, n - 1);
      assert words[a..a + n] == [words[a]] + words[a + 1..a + n];
      assert words[b..b + n] == [words[b]] + words[b + 1..b + n];
    }
  }

  /** Exclusive upper bound of the unit lengths tried at `i`: `min(8, len(words) - i)`. */
  function LengthBound<T>(words: seq<T>, i: nat): int
  {
    Min(8, |words| - i)
  }

  /**
   * The unit length the inner `for` loop settles on at cursor `i`, trying the
   * lengths `from, from + 1, ...` below `LengthBound`: the smallest one that
   * repeats, or None.
   */
  function FirstRepeat<T(==)>(words: seq<T>, i: nat, from: nat): (r: Option<nat>)
    requires 2 <= from
    ensures r.Some? ==> from <= r.value <= 7 && r.value < |words| - i && i + 2 * r.value <= |words|
    decreases 8 - from
  {
    if from >= LengthBound(words, i) then None
    else if RepeatsAt(words, i, from) then Some(from)
    else FirstRepeat(words, i, from + 1)
  }

  /**
   * Only lengths `from <= L < min(8, len(words) - i)` are tried, in ascending
   * order, and the first that repeats wins: the result repeats, no shorter tried
   * length does, and None means no tried length repeats.
   */
  lemma {:induction false} FirstRepeatIsFirst<T>(words: seq<T>, i: nat, from: nat)
    requires 2 <= from
    ensures var r := FirstRepeat(words, i, from);
      && (r.Some? ==> RepeatsAt(words, i, r.value) && forall L :: from <= L < r.value ==> !RepeatsAt(words, i, L))
      && (r.None? ==> forall L :: from <= L < LengthBound(words, i) ==> !RepeatsAt(words, i, L))
    decreases 8 - from
  {
    if from < LengthBound(words, i) && !RepeatsAt(words, i, from) {
      FirstRepeatIsFirst(words, i, from + 1);
    }
  }

  /** A length that does not repeat hands the search on to the next length. */
  lemma FirstRepeatSkip<T>(words: seq<T>, i: nat, L: nat)
    requires 2 <= L < LengthBound(words, i)
    requires !RepeatsAt(words, i, L)
    ensures FirstRepeat(words, i, L + 1) == FirstRepeat(words, i, L)
  {
  }

  /** The unit the search settles on is immediately followed by an identical copy. */
  lemma UnitRepeats<T>(words: seq<T>, i: nat, L: nat)
    requires FirstRepeat(words, i, 2) == Some(L)
    ensures i + 2 * L <= |words|
    ensures words[i..i + L] == words[i + L..i + 2 * L]
  {
    FirstRepeatIsFirst(words, i, 2);
    SameRunIsSliceEquality(words, i, i + L, L);
  }

  /** The tokens the scan outputs from cursor `i`, having already seen the units in `seen`. */
  function Scan<T(==)>(words: seq<T>, i: nat, seen: set<seq<T>>): seq<T>
    requires i <= |words|
    decreases |words| - i, 1
  {
    if i == |words| then []
    else
      match FirstRepeat(words, i, 2)
      case Some(L) => ScanRepeat(words, i, seen, L)
      case None => [words[i]] + Scan(words, i + 1, seen)
  }

  /** The tokens output from cursor `i` where the unit `words[i..i + L]` repeats. */
  function ScanRepeat<T(==)>(words: seq<T>, i: nat, seen: set<seq<T>>, L: nat): seq<T>
    requires 2 <= L && i + 2 * L <= |words|
    decreases |words| - i, 0
  {
    var p := words[i..i + L];
    (if p in seen then [] else p) + Scan(words, i + 2 * L, seen + {p})
  }

  /** `clean_caption_text(text)` as a function of the input. */
  function CleanText(text: string): string
  {
    if text == "" then text
    else
      var words := Split(text);
      if |words| <= 3 then text
      else Join(Scan(words, 0, {}))
  }

  /**
   * At a repeat of length `L` the unit is output the first time it is seen and
   * not after that, and the scan resumes after the copy with the unit seen.
   */
  lemma ScanAtRepeat<T>(words: seq<T>, i: nat, seen: set<seq<T>>, L: nat)
    requires i < |words|
    requires FirstRepeat(words, i, 2) == Some(L)
    ensures i + 2 * L <= |words|
    ensures Scan(words, i, seen) ==
      (if words[i..i + L] in seen then [] else words[i..i + L]) + Scan(words, i + 2 * L, seen + {words[i..i + L]})
  {
    assert Scan(words, i, seen) == ScanRepeat(words, i, seen, L);
    ScanRepeatUnfold(words, i, seen, L);
  }

  lemma ScanRepeatUnfold<T>(words: seq<T>, i: nat, seen: set<seq<T>>, L: nat)
    requires 2 <= L && i + 2 * L <= |words|
    ensures ScanRepeat(words, i, seen, L) ==
      (if words[i..i + L] in seen then [] else words[i..i + L]) + Scan(words, i + 2 * L, seen + {words[i..i + L]})
  {
  }

  /** Where no unit repeats, the token at the cursor is output and the scan moves on by one. */
  lemma ScanAtSingle<T>(words: seq<T>, i: nat, seen: set<seq<T>>)
    requires i < |words|
    requires FirstRepeat(words, i, 2) == None
    ensures Scan(words, i, seen) == [words[i]] + Scan(words, i + 1, seen)
  {
  }

  /** The pass has output `done` before cursor `i` with the units `seen`, and will output `Scan` from there: `total` in all. */
  predicate OutputSoFar<T(==)>(words: seq<T>, i: nat, seen: set<seq<T>>, done: seq<T>, total: seq<T>)
  {
    i <= |words| && done + Scan(words, i, seen) == total
  }

  /** One step of the loop at the first sighting of a repeated unit: the unit is output once. */
  lemma ScanKeepStep<T>(words: seq<T>, i: nat, seen: set<seq<T>>, L: nat, done: seq<T>, total: seq<T>)
    requires i < |words|
    requires FirstRepeat(words, i, 2) == Some(L)
    requires words[i..i + L] !in seen
    requires OutputSoFar(words, i, seen, done, total)
    ensures OutputSoFar(words, i + 2 * L, seen + {words[i..i + L]}, done + words[i..i + L], total)
  {
    var p := words[i..i + L];
    ScanAtRepeat(words, i, seen, L);
    assert done + (p + Scan(words, i + 2 * L, seen + {p})) == (done + p) + Scan(words, i + 2 * L, seen + {p});
  }

  /** One step of the loop at a unit seen before: nothing is output. */
  lemma ScanDropStep<T>(words: seq<T>, i: nat, seen: set<seq<T>>, L: nat, done: seq<T>, total: seq<T>)
    requires i < |words|
    requires FirstRepeat(words, i, 2) == Some(L)
    requires words[i..i + L] in seen
    requires OutputSoFar(words, i, seen, done, total)
    ensures OutputSoFar(words, i + 2 * L, seen, done, total)
  {
    var p := words[i..i + L];
    ScanAtRepeat(words, i, seen, L);
    assert seen + {p} == seen;
    assert [] + Scan(words, i + 2 * L, seen) == Scan(words, i + 2 * L, seen);
  }

  /** One step of the loop where no unit repeats: the token at the cursor is output. */
  lemma ScanSingleStep<T>(words: seq<T>, i: nat, seen: set<seq<T>>, done: seq<T>, total: seq<T>)
    requires i < |words|
    requires FirstRepeat(words, i, 2) == None
    requires OutputSoFar(words, i, seen, done, total)
    ensures OutputSoFar(words, i + 1, seen, done + [words[i]], total)
  {
    ScanAtSingle(words, i, seen);
    assert done + ([words[i]] + Scan(words, i + 1, seen)) == (done + [words[i]]) + Scan(words, i + 1, seen);
  }

  /**
   * The inner `for pattern_length in range(2, min(8, len(words) - i))` loop:
   * the first length whose unit at `i` is immediately repeated, if any.
   */
  method FindRepeat<T(==)>(words: seq<T>, i: nat) returns (found: Option<nat>)
    requires i < |words|
    ensures found == FirstRepeat(words, i, 2)
    ensures found.Some? ==> 2 <= found.value <= 7 && i + 2 * found.value <= |words|
  {
    var patternLength := 2;
    while patternLength < Min(8, |words| - i)
      invariant 2 <= patternLength
      invariant FirstRepeat(words, i, patternLength) == FirstRepeat(words, i, 2)
      decreases 8 - patternLength
    {
      if i + 2 * patternLength <= |words| {
        SameRunIsSliceEquality(words, i, i + patternLength, patternLength);
        if words[i..i + patternLength] == words[i + patternLength..i + 2 * patternLength] {
          return Some(patternLength);
        }
      }
      FirstRepeatSkip(words, i, patternLength);
      patternLength := patternLength + 1;
    }
    return None;
  }

  /**
   * The `while i < len(words)` loop of `clean_caption_text`: one left-to-right
   * pass with the cursor `i`, the output `clean_words` and the set `seen_patterns`.
   */
  method CollapseRepeats<T(==)>(words: seq<T>) returns (cleanWords: seq<T>)
    ensures cleanWords == Scan(words, 0, {})
  {
    ghost var total := Scan(words, 0, {});
    cleanWords := [];
    var i := 0;
    var seen: set<seq<T>> := {};
    assert cleanWords + total == total;
    assert OutputSoFar(words, i, seen, cleanWords, total);
    while i < |words|
      invariant OutputSoFar(words, i, seen, cleanWords, total)
      decreases |words| - i
    {
      var found := FindRepeat(words, i);
      if found.Some? {
        var patternLength := found.value;
        var pattern := words[i..i + patternLength];
        if pattern !in seen {
          ScanKeepStep(words, i, seen, patternLength, cleanWords, total);
          cleanWords := cleanWords + pattern;
          seen := seen + {pattern};
        } else {
          ScanDropStep(words, i, seen, patternLength, cleanWords, total);
        }
        i := i + 2 * patternLength;
      } else {
        ScanSingleStep(words, i, seen, cleanWords, total);
        cleanWords := cleanWords + [words[i]];
        i := i + 1;
      }
    }
    assert Scan(words, i, seen) == [];
    assert cleanWords + [] == cleanWords;
  }

  /** `clean_caption_text`: falsy and short texts come back as they are, others are re-joined after the pass. */
  method CleanCaptionText(text: string) returns (r: string)
    ensures text == "" ==> r == text
    ensures |Split(text)| <= 3 ==> r == text
    ensures r == CleanText(text)
  {
    if text == "" {
      return text;
    }
    var words := Split(text);
    if |words| <= 3 {
      return text;
    }
    var cleanWords := CollapseRepeats(words);
    r := Join(cleanWords);
  }
}
