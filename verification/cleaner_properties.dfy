/**
 * What `clean_caption_text` promises, proved about the reference definitions
 * `Scan` and `CleanText` of module CaptionCleaner and the decision trace of
 * module CleanerTrace: the output is a subsequence of the input, a repeated
 * unit is output at most once per call, and input without immediate
 * repetitions only has its whitespace normalised.
 */
module CleanerProperties {
  import opened Wrappers
  import opened Text
  import opened CaptionCleaner
  import opened CleanerTrace

  /** `xs` is obtained from `ys` by deleting elements. */
  ghost predicate IsSubseq<T>(xs: seq<T>, ys: seq<T>)
    decreases |ys|
  {
    if xs == [] then true
    else if ys == [] then false
    else (xs[0] == ys[0] && IsSubseq(xs[1..], ys[1..])) || IsSubseq(xs, ys[1..])
  }

  lemma {:induction false} SubseqRefl<T>(xs: seq<T>)
    ensures IsSubseq(xs, xs)
    decreases |xs|
  {
    if xs != [] {
      SubseqRefl(xs[1..]);
    }
  }

  lemma {:induction false} SubseqPrefix<T>(p: seq<T>, xs: seq<T>, ys: seq<T>)
    requires IsSubseq(xs, ys)
    ensures IsSubseq(p + xs, p + ys)
    decreases |p|
  {
    if p == [] {
      assert p + xs == xs && p + ys == ys;
    } else {
      SubseqPrefix(p[1..], xs, ys);
      assert (p + xs)[1..] == p[1..] + xs;
      assert (p + ys)[1..] == p[1..] + ys;
    }
  }

  lemma {:induction false} SubseqDrop<T>(p: seq<T>, xs: seq<T>, ys: seq<T>)
    requires IsSubseq(xs, ys)
    ensures IsSubseq(xs, p + ys)
    decreases |p|
  {
    if p == [] {
      assert p + ys == ys;
    } else if xs != [] {
      SubseqDrop(p[1..], xs, ys);
      assert (p + ys)[1..] == p[1..] + ys;
    }
  }

  lemma {:induction false} SubseqLength<T>(xs: seq<T>, ys: seq<T>)
    requires IsSubseq(xs, ys)
    ensures |xs| <= |ys|
    decreases |ys|
  {
    if xs != [] {
      if xs[0] == ys[0] && IsSubseq(xs[1..], ys[1..]) {
        SubseqLength(xs[1..], ys[1..]);
      } else {
        SubseqLength(xs, ys[1..]);
      }
    }
  }

  lemma {:induction false} SubseqMembers<T>(xs: seq<T>, ys: seq<T>)
    requires IsSubseq(xs, ys)
    ensures forall j :: 0 <= j < |xs| ==> xs[j] in ys
    decreases |ys|
  {
    if xs != [] {
      if xs[0] == ys[0] && IsSubseq(xs[1..], ys[1..]) {
        SubseqMembers(xs[1..], ys[1..]);
        forall j | 0 <= j < |xs| ensures xs[j] in ys {
          if j > 0 { assert xs[j] == xs[1..][j - 1]; }
        }
      } else {
        SubseqMembers(xs, ys[1..]);
      }
    }
  }

  lemma SuffixSplit<T>(words: seq<T>, i: nat, j: nat)
    requires i <= j <= |words|
    ensures words[i..] == words[i..j] + words[j..]
  {
  }

  /**
   * The decisions tile the input: a single-token decision steps over its token,
   * a repeat decision over its unit and the identical copy after it, and
   * together they step over exactly `words[i..]`.
   */
  lemma {:induction false} SitesCoverInput<T>(words: seq<T>, i: nat, seen: set<seq<T>>)
    requires i <= |words|
    ensures Covered(Sites(words, i, seen)) == words[i..]
    decreases |words| - i, 1
  {
    if i == |words| {
      assert Sites(words, i, seen) == [];
    } else {
      var r := FirstRepeat(words, i, 2);
      if r.Some? {
        SitesIsRepeatSites(words, i, seen, r.value);
        DoubledUnit(words, i, r.value);
        CoverAtRepeat(words, i, seen, r.value);
      } else {
        CoverAtSingle(words, i, seen);
      }
    }
  }

  /** A repeat decision steps over `words[i..i + 2L]`: its unit and the identical copy. */
  lemma {:induction false} CoverAtRepeat<T>(words: seq<T>, i: nat, seen: set<seq<T>>, L: nat)
    requires 2 <= L && i + 2 * L <= |words|
    requires words[i..i + L] + words[i..i + L] == words[i..i + 2 * L]
    ensures Covered(RepeatSites(words, i, seen, L)) == words[i..]
    decreases |words| - i, 0
  {
    var p := words[i..i + L];
    RepeatSitesCovered(words, i, seen, L);
    SitesCoverInput(words, i + 2 * L, seen + {p});
    UnitThenRest(words, i, L);
  }

  /** The unit, its copy and the tokens after them make up `words[i..]`. */
  lemma UnitThenRest<T>(words: seq<T>, i: nat, L: nat)
    requires i + 2 * L <= |words|
    requires words[i..i + L] + words[i..i + L] == words[i..i + 2 * L]
    ensures (words[i..i + L] + words[i..i + L]) + words[i + 2 * L..] == words[i..]
  {
    SuffixSplit(words, i, i + 2 * L);
  }

  lemma RepeatSitesCovered<T>(words: seq<T>, i: nat, seen: set<seq<T>>, L: nat)
    requires 2 <= L && i + 2 * L <= |words|
    ensures Covered(RepeatSites(words, i, seen, L)) ==
      (words[i..i + L] + words[i..i + L]) + Covered(Sites(words, i + 2 * L, seen + {words[i..i + L]}))
  {
    var p := words[i..i + L];
    var site := if p in seen then Dropped(p) else Kept(p);
    RepeatSitesUnfold(words, i, seen, L);
    CoveredCons(site, Sites(words, i + 2 * L, seen + {p}));
    assert Span(site) == p + p;
  }

  lemma DoubledUnit<T>(words: seq<T>, i: nat, L: nat)
    requires FirstRepeat(words, i, 2) == Some(L)
    ensures i + 2 * L <= |words|
    ensures words[i..i + L] + words[i..i + L] == words[i..i + 2 * L]
  {
    UnitRepeats(words, i, L);
    assert words[i..i + 2 * L] == words[i..i + L] + words[i + L..i + 2 * L];
  }

  lemma {:induction false} CoverAtSingle<T>(words: seq<T>, i: nat, seen: set<seq<T>>)
    requires i < |words|
    requires FirstRepeat(words, i, 2) == None
    ensures Covered(Sites(words, i, seen)) == words[i..]
    decreases |words| - i, 0
  {
    SitesCoverInput(words, i + 1, seen);
    SitesAtSingle(words, i, seen);
    CoveredCons(Single(words[i]), Sites(words, i + 1, seen));
    SuffixSplit(words, i, i + 1);
  }

  /** What the decisions output is a subsequence of what they step over. */
  lemma {:induction false} EmittedWithinCovered<T>(ss: seq<Site<T>>)
    ensures IsSubseq(Emitted(ss), Covered(ss))
  {
    if ss == [] {
    } else {
      var e, c := Emitted(ss[1..]), Covered(ss[1..]);
      EmittedWithinCovered(ss[1..]);
      assert Emitted(ss) == Output(ss[0]) + e;
      assert Covered(ss) == Span(ss[0]) + c;
      match ss[0]
      case Single(w) =>
        SubseqPrefix([w], e, c);
      case Kept(p) =>
        SubseqDrop(p, e, c);
        SubseqPrefix(p, e, p + c);
        assert p + p + c == p + (p + c);
      case Dropped(p) =>
        SubseqDrop(p + p, e, c);
        assert Output(ss[0]) + e == e;
    }
  }

  /** The pass only deletes tokens: its output is a subsequence of its input, hence no longer. */
  lemma CollapseIsSubsequence<T>(words: seq<T>)
    ensures IsSubseq(Scan(words, 0, {}), words)
    ensures |Scan(words, 0, {})| <= |words|
  {
    ScanIsEmitted(words, 0, {});
    SitesCoverInput(words, 0, {});
    assert words[0..] == words;
    EmittedWithinCovered(Sites(words, 0, {}));
    SubseqLength(Scan(words, 0, {}), words);
  }

  /** Each kept unit is new: not seen before the scan started, and different from every other kept unit. */
  ghost predicate KeptOnce<T>(ss: seq<Site<T>>, seen: set<seq<T>>)
  {
    && (forall j :: 0 <= j < |ss| && ss[j].Kept? ==> ss[j].pattern !in seen)
    && (forall j, k :: 0 <= j < k < |ss| && ss[j].Kept? && ss[k].Kept? ==> ss[j].pattern != ss[k].pattern)
  }

  /** Each dropped unit was seen before the scan started or kept at an earlier site. */
  ghost predicate DroppedWereKept<T>(ss: seq<Site<T>>, seen: set<seq<T>>)
  {
    forall k :: 0 <= k < |ss| && ss[k].Dropped? ==>
      ss[k].pattern in seen || exists j :: 0 <= j < k && ss[j] == Kept(ss[k].pattern)
  }

  /** Where the scan's next step leaves the set of seen units. */
  ghost function SeenAfter<T>(s: Site<T>, seen: set<seq<T>>): set<seq<T>>
  {
    match s
    case Single(_) => seen
    case Kept(p) => seen + {p}
    case Dropped(p) => seen + {p}
  }

  lemma SitesStep<T>(words: seq<T>, i: nat, seen: set<seq<T>>)
    requires i < |words|
    ensures var ss := Sites(words, i, seen);
      && ss != []
      && (ss[0].Kept? ==> ss[0].pattern !in seen)
      && (ss[0].Dropped? ==> ss[0].pattern in seen)
      && exists i' :: i < i' <= |words| && ss[1..] == Sites(words, i', SeenAfter(ss[0], seen))
  {
    match FirstRepeat(words, i, 2)
    case Some(L) =>
      SitesAtRepeat(words, i, seen, L);
      var ss := Sites(words, i, seen);
      assert ss[1..] == Sites(words, i + 2 * L, SeenAfter(ss[0], seen));
    case None =>
      var ss := Sites(words, i, seen);
      assert ss == [Single(words[i])] + Sites(words, i + 1, seen);
      assert ss[1..] == Sites(words, i + 1, SeenAfter(ss[0], seen));
  }

  /** A repeated unit is output at most once per call: no unit is kept twice, nor kept after it was seen. */
  lemma {:induction false} KeptAtMostOnce<T>(words: seq<T>, i: nat, seen: set<seq<T>>)
    requires i <= |words|
    ensures KeptOnce(Sites(words, i, seen), seen)
    decreases |words| - i
  {
    if i < |words| {
      SitesStep(words, i, seen);
      var ss := Sites(words, i, seen);
      var seen' := SeenAfter(ss[0], seen);
      var i' :| i < i' <= |words| && ss[1..] == Sites(words, i', seen');
      KeptAtMostOnce(words, i', seen');
      var rest := ss[1..];
      assert forall j :: 1 <= j < |ss| ==> ss[j] == rest[j - 1];
      assert seen <= seen';
    }
  }

  /** A later site of a unit seen earlier in the call contributes nothing: it is dropped only because it was kept before. */
  lemma {:induction false} DroppedOnlyAfterKept<T>(words: seq<T>, i: nat, seen: set<seq<T>>)
    requires i <= |words|
    ensures DroppedWereKept(Sites(words, i, seen), seen)
    decreases |words| - i
  {
    if i < |words| {
      SitesStep(words, i, seen);
      var ss := Sites(words, i, seen);
      var seen' := SeenAfter(ss[0], seen);
      var i' :| i < i' <= |words| && ss[1..] == Sites(words, i', seen');
      DroppedOnlyAfterKept(words, i', seen');
      var rest := ss[1..];
      forall k | 0 <= k < |ss| && ss[k].Dropped?
        ensures ss[k].pattern in seen || exists j :: 0 <= j < k && ss[j] == Kept(ss[k].pattern)
      {
        if k > 0 {
          assert ss[k] == rest[k - 1];
          var q := ss[k].pattern;
          if q in seen' && q !in seen {
            assert ss[0] == Kept(q);
          } else if q !in seen' {
            var j' :| 0 <= j' < k - 1 && rest[j'] == Kept(q);
            assert ss[j' + 1] == Kept(q);
          }
        }
      }
    }
  }

  /** With no unit of 2..7 tokens immediately repeated anywhere, the pass outputs its input unchanged. */
  lemma {:induction false} NoRepeatKeepsTokens<T>(words: seq<T>, i: nat, seen: set<seq<T>>)
    requires i <= |words|
    requires forall j, L :: 0 <= j && 2 <= L <= 7 ==> !RepeatsAt(words, j, L)
    ensures Scan(words, i, seen) == words[i..]
    decreases |words| - i
  {
    if i < |words| {
      FirstRepeatIsFirst(words, i, 2);
      assert FirstRepeat(words, i, 2) == None;
      ScanAtSingle(words, i, seen);
      NoRepeatKeepsTokens(words, i + 1, seen);
      SuffixSplit(words, i, i + 1);
    }
  }

  /**
   * On texts: the tokens of the cleaned text are a subsequence of the tokens
   * of the input (hence no more of them), for every input, short or not.
   */
  lemma CleanTextDeletesTokens(text: string)
    ensures IsSubseq(Split(CleanText(text)), Split(text))
    ensures |Split(CleanText(text))| <= |Split(text)|
  {
    var words := Split(text);
    if text == "" || |words| <= 3 {
      SubseqRefl(words);
    } else {
      var out := Scan(words, 0, {});
      CollapseIsSubsequence(words);
      SubseqMembers(out, words);
      SplitYieldsWords(text);
      assert forall j :: 0 <= j < |out| ==> IsWord(out[j]);
      SplitJoin(out);
    }
    SubseqLength(Split(CleanText(text)), words);
  }

  /**
   * A text of more than three tokens without an immediate repetition comes
   * back with its tokens unchanged, re-joined by single spaces.
   */
  lemma CleanTextWithoutRepeats(text: string)
    requires |Split(text)| > 3
    requires forall j, L :: 0 <= j && 2 <= L <= 7 ==> !RepeatsAt(Split(text), j, L)
    ensures CleanText(text) == Join(Split(text))
  {
    NoRepeatKeepsTokens(Split(text), 0, {});
    assert Split(text)[0..] == Split(text);
  }
}
