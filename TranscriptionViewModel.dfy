/**
 * `TranscriptionViewModel`: runs a transcription with the selected model and
 * language, keeps either its result or its error, and turns a result into a
 * `Note`. The transcription engine and the summarization service are
 * collaborators given as functions.
 */
module TranscriptionFeature {
  import opened Wrappers
  import opened TextOps
  import opened Transcripts
  import opened Notes
  import opened NoteSummarization
  import opened AppConstants

  /**
   * `generateTitle`: text of at most five words is its own title; longer text
   * is titled by its first five words, single-spaced, followed by "...".
   */
  function GenerateTitle(text: string, isSpace: char -> bool): (title: string)
    ensures |Words(text, isSpace)| <= 5 ==> title == text
    ensures |Words(text, isSpace)| > 5 ==> |title| >= 3 && title[|title| - 3..] == "..."
  {
    var words := Words(text, isSpace);
    if |words| <= 5 then text else Join(words[..5], " ") + "..."
  }

  /**
   * Read back as words, a long text's title is its first five words, the
   * fifth carrying the "..."; a short text's title has the text's own words.
   */
  lemma TitleWords(text: string, isSpace: char -> bool)
    requires isSpace(' ') && !isSpace('.')
    ensures var ws := Words(text, isSpace);
      Words(GenerateTitle(text, isSpace), isSpace) == if |ws| <= 5 then ws else ws[..4] + [ws[4] + "..."]
    ensures var ws := Words(text, isSpace);
      |ws| > 5 ==> GenerateTitle(text, isSpace) == Join(Words(GenerateTitle(text, isSpace), isSpace), " ")
  {
    var ws := Words(text, isSpace);
    if |ws| > 5 {
      var five := ws[..5];
      JoinAppendLast(five, " ", "...");
      var qs := five[..4] + [five[4] + "..."];
      assert five[4] in ws;
      assert NoSep("...", isSpace);
      NoSepAppend(five[4], "...", isSpace);
      forall w | w in qs ensures w != [] && NoSep(w, isSpace) {
        if w != five[4] + "..." {
          assert w in ws;
        }
      }
      JoinedWords(qs, isSpace);
      assert five[..4] == ws[..4];
    }
  }

  /** A title never has more than five words, and has as many as the text when that is five or fewer. */
  lemma TitleWordCount(text: string, isSpace: char -> bool)
    requires isSpace(' ') && !isSpace('.')
    ensures RunCount(GenerateTitle(text, isSpace), isSpace) == Min(5, RunCount(text, isSpace))
  {
    TitleWords(text, isSpace);
    WordsAreRuns(text, isSpace);
    WordsAreRuns(GenerateTitle(text, isSpace), isSpace);
  }

  /**
   * `createNote(from:)` of a view-model whose summarization service is
   * `service`: the note's content is the transcript, its summary, keywords
   * and category are what the service returns for it, and the result is
   * attached. `id` and `now` stand for the note's generated identifier and
   * creation time.
   */
  function CreateNote(service: Summarizer, isSpace: char -> bool, tr: TranscriptionResult,
                      id: string, now: int): (n: Note)
    ensures n.content == tr.text && n.title == GenerateTitle(tr.text, isSpace)
    ensures n.summary == Some(service.generateSummary(tr.text))
    ensures n.keywords == service.extractKeywords(tr.text)
    ensures n.category == service.categorizeNote(tr.text)
    ensures n.transcriptionResult == Some(tr)
    ensures n.createdAt == n.updatedAt == now
  {
    MakeNote(GenerateTitle(tr.text, isSpace), tr.text, Some(service.generateSummary(tr.text)),
             service.extractKeywords(tr.text), service.categorizeNote(tr.text), Some(tr), id, now)
  }

  /**
   * With the app's own summarization service, a created note is never filed
   * as personal, carries at most five distinct keywords, and is summarised by
   * the extractive summary.
   */
  lemma CreateNoteWithService(cc: CharClasses, tr: TranscriptionResult, id: string, now: int)
    ensures var n := CreateNote(Service(cc), cc.isSpace, tr, id, now);
      && n.category == CategorizeNoteSimple(tr.text, cc.lower) && n.category != Personal
      && |n.keywords| <= 5 && Distinct(n.keywords)
      && n.summary == Some(ExtractiveSummary(tr.text, cc.isSpace))
  {
    var n := CreateNote(Service(cc), cc.isSpace, tr, id, now);
    assert n.category == CategorizeNote(tr.text, cc);
    assert n.keywords == ExtractKeywords(tr.text, cc);
    assert n.summary == Some(GenerateSummary(tr.text, cc));
  }

  class TranscriptionViewModel {
    var isTranscribing: bool
    var transcriptionResult: Option<TranscriptionResult>
    var progressMessage: string
    var errorMessage: Option<string>
    var selectedLanguage: string
    var selectedModelName: string
    const summarizer: Summarizer
    const isSpace: char -> bool

    /**
     * `createNote(from:)` with this view-model's own summarization service:
     * the transcript is the content, the service's answers for it are the
     * summary, keywords and category, and the result is attached.
     */
    function NoteFrom(tr: TranscriptionResult, id: string, now: int): (n: Note)
      ensures n.content == tr.text && n.title == GenerateTitle(tr.text, isSpace)
      ensures n.summary == Some(summarizer.generateSummary(tr.text))
      ensures n.keywords == summarizer.extractKeywords(tr.text)
      ensures n.category == summarizer.categorizeNote(tr.text)
      ensures n.transcriptionResult == Some(tr)
    {
      CreateNote(summarizer, isSpace, tr, id, now)
    }

    /** A result and an error are never shown together. */
    ghost predicate Valid()
      reads this
    {
      transcriptionResult.None? || errorMessage.None?
    }

    /** `init`: idle, nothing shown, the default language and model selected. */
    constructor (summarizer: Summarizer, isSpace: char -> bool)
      ensures Valid()
      ensures !isTranscribing && transcriptionResult == None && progressMessage == "" && errorMessage == None
      ensures selectedLanguage == DefaultLanguage && selectedModelName == DefaultModel
      ensures this.summarizer == summarizer && this.isSpace == isSpace
    {
      isTranscribing := false;
      transcriptionResult := None;
      progressMessage := "";
      errorMessage := None;
      selectedLanguage := DefaultLanguage;
      selectedModelName := DefaultModel;
      this.summarizer := summarizer;
      this.isSpace := isSpace;
    }

    /**
     * `transcribe(audioRecording:)`: `engine` is the transcription service,
     * asked with the selected model and language. Success shows the result
     * and clears the error; failure shows the error's description and clears
     * the result.
     */
    method Transcribe(recording: AudioRecording,
                      engine: (AudioRecording, string, string) -> Result<TranscriptionResult>)
      requires Valid()
      modifies this
      ensures Valid()
      ensures var outcome := engine(recording, selectedModelName, selectedLanguage);
        && (outcome.Success? ==> transcriptionResult == Some(outcome.value) && errorMessage == None)
        && (outcome.Failure? ==> errorMessage == Some(outcome.description) && transcriptionResult == None)
      ensures selectedLanguage == old(selectedLanguage) && selectedModelName == old(selectedModelName)
      ensures isTranscribing == old(isTranscribing) && progressMessage == old(progressMessage)
    {
      var outcome := engine(recording, selectedModelName, selectedLanguage);
      match outcome {
        case Success(result) =>
          transcriptionResult := Some(result);
          errorMessage := None;
        case Failure(description) =>
          errorMessage := Some(description);
          transcriptionResult := None;
      }
    }

    /** `clearTranscription`: no result, no error, no progress message. */
    method ClearTranscription()
      requires Valid()
      modifies this
      ensures Valid()
      ensures transcriptionResult == None && errorMessage == None && progressMessage == ""
      ensures selectedLanguage == old(selectedLanguage) && selectedModelName == old(selectedModelName)
      ensures isTranscribing == old(isTranscribing)
    {
      transcriptionResult := None;
      errorMessage := None;
      progressMessage := "";
    }

    /** `clearError`: no error; nothing else changes. */
    method ClearError()
      requires Valid()
      modifies this
      ensures Valid()
      ensures errorMessage == None
      ensures transcriptionResult == old(transcriptionResult) && progressMessage == old(progressMessage)
      ensures selectedLanguage == old(selectedLanguage) && selectedModelName == old(selectedModelName)
      ensures isTranscribing == old(isTranscribing)
    {
      errorMessage := None;
    }
  }
}
