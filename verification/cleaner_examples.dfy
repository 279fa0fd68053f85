/**
 * Worked inputs of `clean_caption_text`, at the level of the token sequence the
 * pass runs on (a text of single-space-separated words has exactly these tokens,
 * by `CleanJoined`).
 */
module CleanerExamples {
  import opened Wrappers
  import opened Text
  import opened CaptionCleaner

  /** For a text of single-space-separated words, cleaning is the pass on those words, re-joined. */
  lemma CleanJoined(ws: seq<string>)
    requires |ws| > 3
    requires forall j :: 0 <= j < |ws| ==> IsWord(ws[j])
    ensures Split(Join(ws)) == ws
    ensures CleanText(Join(ws)) == Join(Scan(ws, 0, {}))
  {
    SplitJoin(ws);
  }

  /** "a b a b" becomes "a b". */
  lemma RepeatedPairCollapses()
    ensures Scan(["a", "b", "a", "b"], 0, {}) == ["a", "b"]
  {
    var w := ["a", "b", "a", "b"];
    assert FirstRepeat(w, 0, 2) == Some(2);
    calc {
      Scan(w, 0, {});
      { ScanAtRepeat(w, 0, {}, 2); }
      w[0..2] + Scan(w, 4, {w[0..2]});
      ["a", "b"];
    }
  }

  /** "a b c a b c d" becomes "a b c d": the shortest length that repeats is 3 here. */
  lemma RepeatedTripleCollapses()
    ensures Scan(["a", "b", "c", "a", "b", "c", "d"], 0, {}) == ["a", "b", "c", "d"]
  {
    var w := ["a", "b", "c", "a", "b", "c", "d"];
    assert FirstRepeat(w, 0, 2) == Some(3);
    assert FirstRepeat(w, 6, 2) == None;
    calc {
      Scan(w, 0, {});
      { ScanAtRepeat(w, 0, {}, 3); }
      w[0..3] + Scan(w, 6, {w[0..3]});
      { ScanAtSingle(w, 6, {w[0..3]}); }
      w[0..3] + (["d"] + Scan(w, 7, {w[0..3]}));
      ["a", "b", "c", "d"];
    }
  }

  /**
   * "x a b a b y a b a b z" becomes "x a b y z": the second "a b a b" is a unit
   * already seen in this call, so neither of its copies is output.
   */
  lemma SecondOccurrenceDropped()
    ensures Scan(["x", "a", "b", "a", "b", "y", "a", "b", "a", "b", "z"], 0, {}) == ["x", "a", "b", "y", "z"]
  {
    var w := ["x", "a", "b", "a", "b", "y", "a", "b", "a", "b", "z"];
    var ab := ["a", "b"];
    assert w[1..3] == ab && w[6..8] == ab;
    assert FirstRepeat(w, 0, 2) == None;
    assert FirstRepeat(w, 1, 2) == Some(2);
    assert FirstRepeat(w, 5, 2) == None;
    assert FirstRepeat(w, 6, 2) == Some(2);
    assert FirstRepeat(w, 10, 2) == None;
    calc {
      Scan(w, 0, {});
      { ScanAtSingle(w, 0, {}); }
      ["x"] + Scan(w, 1, {});
      { ScanAtRepeat(w, 1, {}, 2); }
      ["x"] + (ab + Scan(w, 5, {ab}));
      { ScanAtSingle(w, 5, {ab}); }
      ["x"] + (ab + (["y"] + Scan(w, 6, {ab})));
      { ScanAtRepeat(w, 6, {ab}, 2); assert {ab} + {ab} == {ab}; }
      ["x"] + (ab + (["y"] + ([] + Scan(w, 10, {ab}))));
      { ScanAtSingle(w, 10, {ab}); }
      ["x"] + (ab + (["y"] + ([] + (["z"] + Scan(w, 11, {ab})))));
      ["x", "a", "b", "y", "z"];
    }
  }

  /**
   * One pass is not always enough: "a b a b a b" becomes "a b a b", which a
   * second pass turns into "a b". Cleaning is not idempotent.
   */
  lemma NotIdempotent()
    ensures Scan(["a", "b", "a", "b", "a", "b"], 0, {}) == ["a", "b", "a", "b"]
    ensures Scan(["a", "b", "a", "b"], 0, {}) == ["a", "b"]
  {
    var w := ["a", "b", "a", "b", "a", "b"];
    var ab := ["a", "b"];
    assert w[0..2] == ab;
    assert FirstRepeat(w, 0, 2) == Some(2);
    assert FirstRepeat(w, 4, 2) == None;
    assert FirstRepeat(w, 5, 2) == None;
    calc {
      Scan(w, 0, {});
      { ScanAtRepeat(w, 0, {}, 2); }
      ab + Scan(w, 4, {ab});
      { ScanAtSingle(w, 4, {ab}); }
      ab + (["a"] + Scan(w, 5, {ab}));
      { ScanAtSingle(w, 5, {ab}); }
      ab + (["a"] + (["b"] + Scan(w, 6, {ab})));
      ["a", "b", "a", "b"];
    }
    RepeatedPairCollapses();
  }
}
