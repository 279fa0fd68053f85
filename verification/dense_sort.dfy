/**
 * The ordering step of `CaptionEnhance.enhance_dense_captions`: a copy of the
 * dense captions sorted by confidence, highest first, with an absent
 * confidence keyed as -1. Python's `sorted` is stable, also with
 * `reverse=True`, so entries with equal keys keep their input order.
 */
module DenseSort {
  import opened Wrappers

  /** A dense caption: its text and its confidence, which may be absent (`None`). */
  datatype DenseCaption = DenseCaption(text: string, confidence: Option<real>)

  /** The sort key: the confidence, or -1 when it is absent. */
  function Key(c: DenseCaption): real
  {
    match c.confidence
    case Some(v) => v
    case None => -1.0
  }

  /** Keys never increase along `s`. */
  predicate SortedDesc(s: seq<DenseCaption>)
  {
    forall i, j :: 0 <= i < j < |s| ==> Key(s[i]) >= Key(s[j])
  }

  /** The entries of `s` whose key is `v`, in the order of `s`. */
  function WithKey(s: seq<DenseCaption>, v: real): (r: seq<DenseCaption>)
    ensures |r| <= |s|
    ensures forall j :: 0 <= j < |r| ==> Key(r[j]) == v
  {
    if s == [] then []
    else (if Key(s[0]) == v then [s[0]] else []) + WithKey(s[1..], v)
  }

  /**
   * Places `x` into the descending list `ys` ahead of every entry whose key is
   * not greater than its own, so that `x` stays ahead of the entries with an
   * equal key that came after it in the input.
   */
  function Insert(x: DenseCaption, ys: seq<DenseCaption>): (r: seq<DenseCaption>)
    ensures |r| == |ys| + 1
    ensures multiset(r) == multiset{x} + multiset(ys)
  {
    if ys == [] || Key(ys[0]) <= Key(x) then [x] + ys
    else
      assert ys == [ys[0]] + ys[1..];
      [ys[0]] + Insert(x, ys[1..])
  }

  /** `sorted(dense_captions, key=..., reverse=True)`: a stable sort, highest key first. */
  function SortByConfidence(xs: seq<DenseCaption>): seq<DenseCaption>
  {
    if xs == [] then [] else Insert(xs[0], SortByConfidence(xs[1..]))
  }

  /** No key in `s` exceeds `b`. */
  predicate KeysAtMost(s: seq<DenseCaption>, b: real)
  {
    forall j :: 0 <= j < |s| ==> Key(s[j]) <= b
  }

  /** Inserting an entry whose key does not exceed `b` keeps every key at most `b`. */
  lemma {:induction false} InsertKeysAtMost(x: DenseCaption, ys: seq<DenseCaption>, b: real)
    requires KeysAtMost(ys, b) && Key(x) <= b
    ensures KeysAtMost(Insert(x, ys), b)
  {
    if ys != [] && Key(ys[0]) > Key(x) {
      InsertKeysAtMost(x, ys[1..], b);
      var t := Insert(x, ys[1..]);
      assert Insert(x, ys) == [ys[0]] + t;
    }
  }

  /** Inserting into a descending list keeps it descending. */
  lemma {:induction false} InsertSorted(x: DenseCaption, ys: seq<DenseCaption>)
    requires SortedDesc(ys)
    ensures SortedDesc(Insert(x, ys))
  {
    if ys != [] && Key(ys[0]) > Key(x) {
      var y, t := ys[0], Insert(x, ys[1..]);
      InsertSorted(x, ys[1..]);
      assert KeysAtMost(ys[1..], Key(y)) by {
        forall j | 0 <= j < |ys[1..]| ensures Key(ys[1..][j]) <= Key(y) {
          assert ys[1..][j] == ys[j + 1];
        }
      }
      InsertKeysAtMost(x, ys[1..], Key(y));
      var r := [y] + t;
      assert Insert(x, ys) == r;
      forall i, j | 0 <= i < j < |r| ensures Key(r[i]) >= Key(r[j]) {
        assert r[j] == t[j - 1];
        if i > 0 {
          assert r[i] == t[i - 1];
        }
      }
    }
  }

  /** The key filter distributes over `+`. */
  lemma {:induction false} WithKeyAppend(a: seq<DenseCaption>, b: seq<DenseCaption>, v: real)
    ensures WithKey(a + b, v) == WithKey(a, v) + WithKey(b, v)
  {
    if a == [] {
      assert a + b == b;
    } else {
      assert (a + b)[1..] == a[1..] + b;
      WithKeyAppend(a[1..], b, v);
    }
  }

  /** The key filter of a single entry. */
  lemma WithKeyOne(c: DenseCaption, v: real)
    ensures WithKey([c], v) == if Key(c) == v then [c] else []
  {
    assert [c][1..] == [];
  }

  /** Entries with different keys never both pass the key filter, so their filters commute. */
  lemma WithKeySwap(x: DenseCaption, y: DenseCaption, t: seq<DenseCaption>, v: real)
    requires Key(x) != Key(y)
    ensures WithKey([y], v) + (WithKey([x], v) + t) == WithKey([x], v) + (WithKey([y], v) + t)
  {
    WithKeyOne(x, v);
    WithKeyOne(y, v);
    var fx, fy := WithKey([x], v), WithKey([y], v);
    if Key(x) == v {
      calc {
        fy + (fx + t);
        { assert fy == []; }
        [] + (fx + t);
        fx + t;
        { assert fy + t == t; }
        fx + (fy + t);
      }
    } else {
      calc {
        fy + (fx + t);
        { assert fx == []; }
        fy + ([] + t);
        { assert [] + t == t; }
        fy + t;
        [] + (fy + t);
        fx + (fy + t);
      }
    }
  }

  /**
   * Inserting `x` puts it ahead of every entry with its own key, so among the
   * entries with any one key, `x` simply comes first.
   */
  lemma {:induction false} WithKeyInsert(x: DenseCaption, ys: seq<DenseCaption>, v: real)
    ensures WithKey(Insert(x, ys), v) == WithKey([x] + ys, v)
  {
    if ys != [] && Key(ys[0]) > Key(x) {
      var y, rest := ys[0], ys[1..];
      calc {
        WithKey(Insert(x, ys), v);
        { assert Insert(x, ys) == [y] + Insert(x, rest); }
        WithKey([y] + Insert(x, rest), v);
        { WithKeyAppend([y], Insert(x, rest), v); }
        WithKey([y], v) + WithKey(Insert(x, rest), v);
        { WithKeyInsert(x, rest, v); }
        WithKey([y], v) + WithKey([x] + rest, v);
        { WithKeyAppend([x], rest, v); }
        WithKey([y], v) + (WithKey([x], v) + WithKey(rest, v));
        { WithKeySwap(x, y, WithKey(rest, v), v); }
        WithKey([x], v) + (WithKey([y], v) + WithKey(rest, v));
        { WithKeyAppend([y], rest, v); assert ys == [y] + rest; }
        WithKey([x], v) + WithKey(ys, v);
        { WithKeyAppend([x], ys, v); }
        WithKey([x] + ys, v);
      }
    }
  }

  /** The sort returns a permutation of its input, of the same length. */
  lemma {:induction false} SortIsPermutation(xs: seq<DenseCaption>)
    ensures |SortByConfidence(xs)| == |xs|
    ensures multiset(SortByConfidence(xs)) == multiset(xs)
  {
    if xs != [] {
      SortIsPermutation(xs[1..]);
      assert xs == [xs[0]] + xs[1..];
    }
  }

  /** The sort returns its entries with keys never increasing. */
  lemma {:induction false} SortIsSorted(xs: seq<DenseCaption>)
    ensures SortedDesc(SortByConfidence(xs))
  {
    if xs != [] {
      SortIsSorted(xs[1..]);
      InsertSorted(xs[0], SortByConfidence(xs[1..]));
    }
  }

  /** Stability: the entries with any one key come out in their input order. */
  lemma {:induction false} SortIsStable(xs: seq<DenseCaption>, v: real)
    ensures WithKey(SortByConfidence(xs), v) == WithKey(xs, v)
  {
    if xs != [] {
      var x, rest := xs[0], xs[1..];
      calc {
        WithKey(SortByConfidence(xs), v);
        WithKey(Insert(x, SortByConfidence(rest)), v);
        { WithKeyInsert(x, SortByConfidence(rest), v); }
        WithKey([x] + SortByConfidence(rest), v);
        { WithKeyAppend([x], SortByConfidence(rest), v); }
        WithKey([x], v) + WithKey(SortByConfidence(rest), v);
        { SortIsStable(rest, v); }
        WithKey([x], v) + WithKey(rest, v);
        { WithKeyAppend([x], rest, v); assert xs == [x] + rest; }
        WithKey(xs, v);
      }
    }
  }

  /** The confidences of `s`, in order. */
  function Confidences(s: seq<DenseCaption>): (r: seq<Option<real>>)
    ensures |r| == |s|
    ensures forall j :: 0 <= j < |s| ==> r[j] == s[j].confidence
  {
    if s == [] then [] else [s[0].confidence] + Confidences(s[1..])
  }

  lemma ConfidencesCons(x: DenseCaption, ys: seq<DenseCaption>)
    ensures Confidences([x] + ys) == [x.confidence] + Confidences(ys)
  {
    assert ([x] + ys)[1..] == ys;
  }

  /** Inserting an entry adds its confidence to the multiset of confidences. */
  lemma {:induction false} ConfidencesOfInsert(x: DenseCaption, ys: seq<DenseCaption>)
    ensures multiset(Confidences(Insert(x, ys))) == multiset{x.confidence} + multiset(Confidences(ys))
  {
    if ys != [] && Key(ys[0]) > Key(x) {
      var y, rest := ys[0], ys[1..];
      assert ys == [y] + rest;
      calc {
        multiset(Confidences(Insert(x, ys)));
        multiset(Confidences([y] + Insert(x, rest)));
        { ConfidencesCons(y, Insert(x, rest)); }
        multiset([y.confidence] + Confidences(Insert(x, rest)));
        multiset{y.confidence} + multiset(Confidences(Insert(x, rest)));
        { ConfidencesOfInsert(x, rest); }
        multiset{y.confidence} + (multiset{x.confidence} + multiset(Confidences(rest)));
        multiset{x.confidence} + (multiset{y.confidence} + multiset(Confidences(rest)));
        multiset{x.confidence} + multiset([y.confidence] + Confidences(rest));
        { ConfidencesCons(y, rest); }
        multiset{x.confidence} + multiset(Confidences(ys));
      }
    } else {
      ConfidencesCons(x, ys);
    }
  }

  /** Sorting only moves entries around: the multiset of confidences is kept. */
  lemma {:induction false} ConfidencesOfSort(xs: seq<DenseCaption>)
    ensures multiset(Confidences(SortByConfidence(xs))) == multiset(Confidences(xs))
  {
    if xs != [] {
      ConfidencesOfSort(xs[1..]);
      ConfidencesOfInsert(xs[0], SortByConfidence(xs[1..]));
    }
  }

  /** Two lists with the same confidences, in order, have the same keys. */
  lemma SameConfidencesSorted(a: seq<DenseCaption>, b: seq<DenseCaption>)
    requires Confidences(a) == Confidences(b)
    requires SortedDesc(b)
    ensures SortedDesc(a)
  {
    forall i, j | 0 <= i < j < |a| ensures Key(a[i]) >= Key(a[j]) {
      assert a[i].confidence == Confidences(a)[i] == b[i].confidence;
      assert a[j].confidence == Confidences(a)[j] == b[j].confidence;
    }
  }
}
