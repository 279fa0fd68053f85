/**
 * The intro-phrase catalogue of `CaptionEnhance` and the rule that prepends
 * one of its phrases to a caption that does not already start with one.
 * The random choice of `get_random_intro` is the caller-supplied index `k`.
 */
module Intro {
  import opened Text

  /** `CaptionEnhance.INTRO_PHRASES`, in order. */
  const IntroPhrases: seq<string> := [
    "In this picture we can see",
    "The image shows",
    "This photograph captures",
    "The scene displays",
    "This view presents",
    "Looking at this image, we observe",
    "The photograph reveals",
    "In this scene, we can identify",
    "This snapshot features",
    "Visible in this image is",
    "The picture depicts",
    "Within this frame, we notice",
    "This visual captures",
    "The image portrays",
    "From this perspective, we can see"
  ]

  /** `get_random_intro()`, with the random choice fixed to the index `k`: always a catalogue phrase. */
  function GetRandomIntro(k: nat): (phrase: string)
    requires k < |IntroPhrases|
    ensures phrase in IntroPhrases
    ensures |phrase| > 0
  {
    IntroPhrases[k]
  }

  /** The text, lower-cased, starts with some catalogue phrase, lower-cased. */
  predicate HasIntro(s: string)
  {
    exists j :: 0 <= j < |IntroPhrases| && Lower(IntroPhrases[j]) <= Lower(s)
  }

  /**
   * The intro rule: a text that already starts with a catalogue phrase is kept
   * as it is; any other text gets the phrase `IntroPhrases[k]` and a single space
   * in front. Either way the result starts with a phrase and ends with the text.
   */
  function WithIntro(cleaned: string, k: nat): (r: string)
    requires k < |IntroPhrases|
    ensures HasIntro(r)
    ensures r == cleaned <==> HasIntro(cleaned)
    ensures !HasIntro(cleaned) ==> r == GetRandomIntro(k) + " " + cleaned
    ensures |cleaned| <= |r| && r[|r| - |cleaned|..] == cleaned
  {
    if HasIntro(cleaned) then cleaned
    else
      var phrase := GetRandomIntro(k);
      PrefixedHasIntro(k, cleaned);
      phrase + " " + cleaned
  }

  /** A text that starts with catalogue phrase `k` and a space has an intro. */
  lemma PrefixedHasIntro(k: nat, s: string)
    requires k < |IntroPhrases|
    ensures HasIntro(IntroPhrases[k] + " " + s)
  {
    LowerPrefix(IntroPhrases[k], " " + s);
    assert IntroPhrases[k] + " " + s == IntroPhrases[k] + (" " + s);
  }
}
