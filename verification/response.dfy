/**
 * `CaptionEnhance.enhance_response`: a shallow copy of the response dictionary
 * in which only the `caption` and `dense_captions` entries, when present, are
 * replaced by their enhanced forms. Dictionaries are values here, so the
 * caller's dictionary is left as it was by construction.
 */
module ResponseEnhancer {
  import opened Wrappers
  import opened Intro
  import opened CaptionEnhancer
  import opened DenseSort
  import opened DenseEnhancer

  /** A value of the response dictionary, as far as the enhancer distinguishes them. */
  datatype Value =
    | Null
    | Str(s: string)
    | Captions(items: seq<DenseCaption>)
    | Other(repr: string)

  const CaptionKey := "caption"
  const DenseKey := "dense_captions"

  /** The caption entry as `enhance_caption` receives it: a string or `None`. */
  function AsCaption(v: Value): (c: Option<string>)
    requires v.Null? || v.Str?
  {
    if v.Str? then Some(v.s) else None
  }

  /** The value stored back for what `enhance_caption` returned. */
  function CaptionValue(c: Option<string>): (v: Value)
    ensures v.Null? || v.Str?
    ensures AsCaption(v) == c
  {
    if c.Some? then Str(c.value) else Null
  }

  /** The dense-caption entry as `enhance_dense_captions` receives it: a list or `None`. */
  function AsDense(v: Value): (d: Option<seq<DenseCaption>>)
    requires v.Null? || v.Captions?
  {
    if v.Captions? then Some(v.items) else None
  }

  /**
   * `enhance_response(response)` with the random phrase choices fixed to `k`
   * for the caption and `k0`, `k1` for the two top dense captions: the same
   * keys, every other entry untouched, and each of the two entries replaced by
   * its enhanced form exactly when it is present.
   */
  method EnhanceResponse(response: map<string, Value>, k: nat, k0: nat, k1: nat) returns (enhanced: map<string, Value>)
    requires k < |IntroPhrases| && k0 < |IntroPhrases| && k1 < |IntroPhrases|
    requires CaptionKey in response ==> response[CaptionKey].Null? || response[CaptionKey].Str?
    requires DenseKey in response ==> response[DenseKey].Null? || response[DenseKey].Captions?
    ensures enhanced.Keys == response.Keys
    ensures forall key :: key in response && key != CaptionKey && key != DenseKey ==> enhanced[key] == response[key]
    ensures CaptionKey in response ==>
      enhanced[CaptionKey] == CaptionValue(EnhancedCaption(AsCaption(response[CaptionKey]), k))
    ensures DenseKey in response ==>
      enhanced[DenseKey] == Captions(EnhancedDense(AsDense(response[DenseKey]), k0, k1))
  {
    enhanced := response;
    if CaptionKey in enhanced {
      var caption := EnhanceCaption(AsCaption(enhanced[CaptionKey]), k);
      enhanced := enhanced[CaptionKey := CaptionValue(caption)];
    }
    if DenseKey in enhanced {
      var dense := EnhanceDenseCaptions(AsDense(enhanced[DenseKey]), k0, k1);
      enhanced := enhanced[DenseKey := Captions(dense)];
    }
  }
}
