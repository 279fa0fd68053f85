/**
 * The decisions `clean_caption_text` takes, one per cursor position the pass
 * visits: a token output on its own, a repeated unit output for the first
 * time, or a repeated unit skipped because it was output before. The trace
 * states what each step reads and what it outputs; `ScanIsEmitted` ties it to
 * the output function `Scan` of module CaptionCleaner.
 */
module CleanerTrace {
  import opened Wrappers
  import opened CaptionCleaner

  /** One decision of the pass. */
  datatype Site<T> =
    | Single(word: T)              // no repeat here: the token is output, cursor + 1
    | Kept(pattern: seq<T>)        // first sighting of a repeated unit: output once, cursor + 2L
    | Dropped(pattern: seq<T>)     // unit seen before in this call: nothing output, cursor + 2L

  /** The decisions the pass takes from cursor `i`, having already seen the units in `seen`. */
  function Sites<T(==)>(words: seq<T>, i: nat, seen: set<seq<T>>): seq<Site<T>>
    requires i <= |words|
    decreases |words| - i, 1
  {
    if i == |words| then []
    else
      match FirstRepeat(words, i, 2)
      case Some(L) => RepeatSites(words, i, seen, L)
      case None => [Single(words[i])] + Sites(words, i + 1, seen)
  }

  /** The decisions from cursor `i` where the unit `words[i..i + L]` repeats. */
  function RepeatSites<T(==)>(words: seq<T>, i: nat, seen: set<seq<T>>, L: nat): seq<Site<T>>
    requires 2 <= L && i + 2 * L <= |words|
    decreases |words| - i, 0
  {
    var p := words[i..i + L];
    [if p in seen then Dropped(p) else Kept(p)] + Sites(words, i + 2 * L, seen + {p})
  }

  /** The tokens a decision appends to `clean_words`. */
  function Output<T>(s: Site<T>): seq<T>
  {
    match s
    case Single(w) => [w]
    case Kept(p) => p
    case Dropped(_) => []
  }

  function Emitted<T>(ss: seq<Site<T>>): seq<T>
  {
    if ss == [] then [] else Output(ss[0]) + Emitted(ss[1..])
  }

  /** The input tokens a decision steps over. */
  function Span<T>(s: Site<T>): seq<T>
  {
    match s
    case Single(w) => [w]
    case Kept(p) => p + p
    case Dropped(p) => p + p
  }

  function Covered<T>(ss: seq<Site<T>>): seq<T>
  {
    if ss == [] then [] else Span(ss[0]) + Covered(ss[1..])
  }

  lemma EmittedCons<T>(s: Site<T>, ss: seq<Site<T>>)
    ensures Emitted([s] + ss) == Output(s) + Emitted(ss)
  {
    assert ([s] + ss)[1..] == ss;
  }

  lemma CoveredCons<T>(s: Site<T>, ss: seq<Site<T>>)
    ensures Covered([s] + ss) == Span(s) + Covered(ss)
  {
    assert ([s] + ss)[1..] == ss;
  }

  lemma RepeatSitesUnfold<T>(words: seq<T>, i: nat, seen: set<seq<T>>, L: nat)
    requires 2 <= L && i + 2 * L <= |words|
    ensures RepeatSites(words, i, seen, L) ==
      [if words[i..i + L] in seen then Dropped(words[i..i + L]) else Kept(words[i..i + L])]
      + Sites(words, i + 2 * L, seen + {words[i..i + L]})
  {
  }

  /** At a repeat of length `L` the pass records the unit, kept or dropped, and resumes after its copy. */
  lemma SitesAtRepeat<T>(words: seq<T>, i: nat, seen: set<seq<T>>, L: nat)
    requires i < |words|
    requires FirstRepeat(words, i, 2) == Some(L)
    ensures i + 2 * L <= |words|
    ensures Sites(words, i, seen) ==
      [if words[i..i + L] in seen then Dropped(words[i..i + L]) else Kept(words[i..i + L])]
      + Sites(words, i + 2 * L, seen + {words[i..i + L]})
  {
    SitesIsRepeatSites(words, i, seen, L);
    RepeatSitesUnfold(words, i, seen, L);
  }

  lemma SitesIsRepeatSites<T>(words: seq<T>, i: nat, seen: set<seq<T>>, L: nat)
    requires i < |words|
    requires FirstRepeat(words, i, 2) == Some(L)
    ensures 2 <= L && i + 2 * L <= |words|
    ensures Sites(words, i, seen) == RepeatSites(words, i, seen, L)
  {
  }

  lemma SitesAtSingle<T>(words: seq<T>, i: nat, seen: set<seq<T>>)
    requires i < |words|
    requires FirstRepeat(words, i, 2) == None
    ensures Sites(words, i, seen) == [Single(words[i])] + Sites(words, i + 1, seen)
  {
  }

  /** The trace outputs exactly what the pass outputs. */
  lemma {:induction false} ScanIsEmitted<T>(words: seq<T>, i: nat, seen: set<seq<T>>)
    requires i <= |words|
    ensures Scan(words, i, seen) == Emitted(Sites(words, i, seen))
    decreases |words| - i, 1
  {
    if i == |words| {
      assert Sites(words, i, seen) == [];
    } else {
      var r := FirstRepeat(words, i, 2);
      if r.Some? {
        SitesIsRepeatSites(words, i, seen, r.value);
        assert Scan(words, i, seen) == ScanRepeat(words, i, seen, r.value);
        EmittedAtRepeat(words, i, seen, r.value);
      } else {
        EmittedAtSingle(words, i, seen);
      }
    }
  }

  lemma {:induction false} EmittedAtRepeat<T>(words: seq<T>, i: nat, seen: set<seq<T>>, L: nat)
    requires 2 <= L && i + 2 * L <= |words|
    ensures ScanRepeat(words, i, seen, L) == Emitted(RepeatSites(words, i, seen, L))
    decreases |words| - i, 0
  {
    var p := words[i..i + L];
    var site := if p in seen then Dropped(p) else Kept(p);
    var rest := Sites(words, i + 2 * L, seen + {p});
    calc {
      ScanRepeat(words, i, seen, L);
      { ScanRepeatUnfold(words, i, seen, L); }
      (if p in seen then [] else p) + Scan(words, i + 2 * L, seen + {p});
      { ScanIsEmitted(words, i + 2 * L, seen + {p}); }
      (if p in seen then [] else p) + Emitted(rest);
      { assert Output(site) == if p in seen then [] else p; }
      Output(site) + Emitted(rest);
      { EmittedCons(site, rest); }
      Emitted([site] + rest);
      { RepeatSitesUnfold(words, i, seen, L); }
      Emitted(RepeatSites(words, i, seen, L));
    }
  }

  lemma {:induction false} EmittedAtSingle<T>(words: seq<T>, i: nat, seen: set<seq<T>>)
    requires i < |words|
    requires FirstRepeat(words, i, 2) == None
    ensures Scan(words, i, seen) == Emitted(Sites(words, i, seen))
    decreases |words| - i, 0
  {
    ScanIsEmitted(words, i + 1, seen);
    SitesAtSingle(words, i, seen);
    EmittedCons(Single(words[i]), Sites(words, i + 1, seen));
    ScanAtSingle(words, i, seen);
  }
}
