/** The record a finished transcription produces, and the recording it consumes. */
module Transcripts {
  import opened TextOps

  /** A finished recording, as far as transcription needs it (a file location, length and size). */
  datatype AudioRecording = AudioRecording(url: string, duration: real, fileSize: int)

  /**
   * `TranscriptionResult`. The durations are seconds; `createdAt` is a clock
   * reading and `id` a generated identifier, both supplied by the caller.
   */
  datatype TranscriptionResult = TranscriptionResult(
    id: string,
    text: string,
    language: string,
    model: string,
    audioDuration: real,
    processingTime: real,
    wordCount: nat,
    createdAt: int)

  /**
   * `TranscriptionResult.init`: stores its arguments and derives the word
   * count by splitting the text at whitespace. `id` and `now` stand for the
   * `UUID()` and `Date()` the initialiser generates.
   */
  function MakeTranscriptionResult(
    text: string, language: string, model: string, audioDuration: real, processingTime: real,
    id: string, now: int, isSpace: char -> bool): (r: TranscriptionResult)
    ensures r.text == text && r.language == language && r.model == model
    ensures r.audioDuration == audioDuration && r.processingTime == processingTime
    ensures r.id == id && r.createdAt == now
    ensures r.wordCount == RunCount(text, isSpace)
  {
    WordsAreRuns(text, isSpace);
    TranscriptionResult(id, text, language, model, audioDuration, processingTime, |Words(text, isSpace)|, now)
  }

  /** There are never more words than characters, and blank text has none. */
  lemma WordCountBounds(text: string, language: string, model: string, audioDuration: real,
                        processingTime: real, id: string, now: int, isSpace: char -> bool)
    ensures MakeTranscriptionResult(text, language, model, audioDuration, processingTime, id, now, isSpace).wordCount <= |text|
    ensures IsBlank(text, isSpace) ==>
      MakeTranscriptionResult(text, language, model, audioDuration, processingTime, id, now, isSpace).wordCount == 0
  {
    if IsBlank(text, isSpace) {
      BlankHasNoRuns(text, isSpace);
    }
  }

  /** Words joined by single spaces are counted one each. */
  lemma WordCountOfJoinedWords(ws: seq<string>, language: string, model: string, audioDuration: real,
                               processingTime: real, id: string, now: int, isSpace: char -> bool)
    requires isSpace(' ')
    requires forall w :: w in ws ==> w != [] && NoSep(w, isSpace)
    ensures MakeTranscriptionResult(Join(ws, " "), language, model, audioDuration, processingTime, id, now, isSpace).wordCount == |ws|
  {
    JoinedWords(ws, isSpace);
    WordsAreRuns(Join(ws, " "), isSpace);
  }
}
