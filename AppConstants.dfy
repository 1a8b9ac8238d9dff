/** The app-wide configuration tables: the speech models and the transcription languages. */
module AppConstants {
  import opened Wrappers
  import opened TextOps

  /** The model presets offered, smallest first. */
  const AvailableModels: seq<string> := ["tiny", "base", "small", "medium", "large"]
  const DefaultModel := "small"

  /** `modelSizeMB(for:)`: the download size of a preset, 0 for a name that is not one. */
  function ModelSizeMB(model: string): (mb: nat)
    ensures mb > 0 <==> model in AvailableModels
  {
    match model
    case "tiny" => 75
    case "base" => 142
    case "small" => 244
    case "medium" => 769
    case "large" => 1550
    case _ => 0
  }

  const AvailableLanguages: seq<string> := ["English", "한국어"]
  const DefaultLanguage := "English"

  /** `languageCode(for:)`: the two-letter code of an offered language, nil for any other name. */
  function LanguageCode(language: string): (code: Option<string>)
    ensures code.Some? <==> language in AvailableLanguages
    ensures code.Some? ==> |code.value| == 2
  {
    match language
    case "English" => Some("en")
    case "한국어" => Some("ko")
    case _ => None
  }

  /** Listing order is size order: each preset is strictly larger than the ones before it. */
  lemma ModelSizesIncrease()
    ensures forall i, j :: 0 <= i < j < |AvailableModels| ==>
      ModelSizeMB(AvailableModels[i]) < ModelSizeMB(AvailableModels[j])
  {
  }

  /** The defaults are among the offered choices, and no choice is offered twice. */
  lemma DefaultsAreOffered()
    ensures DefaultModel in AvailableModels && DefaultLanguage in AvailableLanguages
    ensures Distinct(AvailableModels) && Distinct(AvailableLanguages)
    ensures LanguageCode(DefaultLanguage) == Some("en")
  {
  }
}
