/**
 * `CaptionEnhance.enhance_caption`: clean the caption, then give it an intro
 * phrase unless it already starts with one. A missing (`None`) or empty
 * caption is returned as it is.
 */
module CaptionEnhancer {
  import opened Wrappers
  import opened Text
  import opened CaptionCleaner
  import opened Intro

  /** What `enhance_caption(caption)` returns when the random phrase choice is `k`. */
  function EnhancedCaption(caption: Option<string>, k: nat): (r: Option<string>)
    requires k < |IntroPhrases|
    ensures caption.None? || caption == Some("") ==> r == caption
    ensures caption.Some? && caption.value != "" ==>
      && r.Some?
      && HasIntro(r.value)
      && (r.value == CleanText(caption.value) <==> HasIntro(CleanText(caption.value)))
      && (!HasIntro(CleanText(caption.value)) ==> r.value == IntroPhrases[k] + " " + CleanText(caption.value))
  {
    if caption.None? || caption.value == "" then caption
    else Some(WithIntro(CleanText(caption.value), k))
  }

  /**
   * The scan of the catalogue in `enhance_caption` (and the `any(...)` over it
   * in `enhance_dense_captions`): does the lower-cased text start with one of
   * the phrases, lower-cased?
   */
  method StartsWithIntro(text: string) returns (found: bool)
    ensures found == HasIntro(text)
  {
    var lowerText := Lower(text);
    for j := 0 to |IntroPhrases|
      invariant forall j' :: 0 <= j' < j ==> !(Lower(IntroPhrases[j']) <= lowerText)
    {
      if Lower(IntroPhrases[j]) <= lowerText {
        return true;
      }
    }
    return false;
  }

  /** `enhance_caption`: the early return for a falsy caption, the cleaning pass, then the intro rule. */
  method EnhanceCaption(caption: Option<string>, k: nat) returns (r: Option<string>)
    requires k < |IntroPhrases|
    ensures r == EnhancedCaption(caption, k)
  {
    if caption.None? || caption.value == "" {
      return caption;
    }
    var cleaned := CleanCaptionText(caption.value);
    var hasIntro := StartsWithIntro(cleaned);
    if hasIntro {
      return Some(cleaned);
    }
    return Some(GetRandomIntro(k) + " " + cleaned);
  }
}
