# CleoAI logic core in Dafny

CleoAI is an iOS app that records speech, transcribes it with a Whisper model
and files the transcript as a note. This project models the logic underneath
the audio and speech-recognition glue and proves properties of it:

- **Note analysis** (`NoteSummarizationService`):
  - the extractive summary (cut at `.!?`, drop blank fragments, keep up to three, join with `". "`, close with `"."`);
  - the frequency-ranked keyword list;
  - the priority-ordered meeting / lecture / interview classifier.
- **Transcription screen** (`TranscriptionViewModel`):
  - the five-word title;
  - how a note is assembled from a transcript;
  - the result/error state after a transcription attempt;
  - the reset operations.
- **Notes list** (`NotesViewModel`):
  - the search and category filter;
  - selection;
  - reloading from the note store.
- **Note store** (`FileUtils`):
  - the `note-<id>.json` and `trans-yyyyMMdd-HHmmss.txt` file names;
  - the load pipeline: filter the Documents listing by name, skip unreadable files, sort newest first.
- **Data model and tables** (`Note`, `NoteCategory`, `TranscriptionResult`, `AppConstants`):
  - field copying and defaults;
  - the category raw values and icons;
  - the derived word count;
  - the model-size and language-code tables.

Modules:

| file | module | contents |
|---|---|---|
| `Wrappers.dfy` | `Wrappers` | `Option` (Swift optionals); `Result` (a call that returns or throws) |
| `TextOps.dfy` | `TextOps` | the Foundation string operations the logic uses: `components(separatedBy:)`, `joined(separator:)`, `filter`, whitespace words, `lowercased()`, `contains` |
| `AppConstants.dfy` | `AppConstants` | model presets and languages |
| `TranscriptionResult.dfy` | `Transcripts` | `AudioRecording`, `TranscriptionResult` |
| `Note.dfy` | `Notes` | `NoteCategory`, `Note` |
| `NoteSummarization.dfy` | `NoteSummarization` | summary, keywords, category |
| `FileUtils.dfy` | `FileUtils` | file names, the export timestamp, loading |
| `NotesViewModel.dfy` | `NotesFeature` | `filteredNotes` and the `NotesViewModel` class |
| `TranscriptionViewModel.dfy` | `TranscriptionFeature` | title, `createNote` and the `TranscriptionViewModel` class |

Outside the program proper:
- The locale's character sets and case mapping form one `CharClasses` value: whitespace, alphanumerics, lower-casing.
- `localizedCaseInsensitiveContains` is a function parameter.
- Clock readings are integers, or a broken-down `LocalTime` for the export file name.
- Generated UUIDs are `id` parameters.
- The transcription engine is a function from (recording, model, language) to a `Result`.
- The summarization collaborator is a `Summarizer` record of three functions.
- The Documents directory is a listing of file URLs. Each URL is paired with what reading and JSON-decoding that file gives (`None` when either throws). The whole listing is `None` when `contentsOfDirectory` throws.
- A file write is a `written` flag.

## Model

| member | source | states |
|---|---|---|
| `AppConstants.ModelSizeMB` | CleoAI/Shared/Constants/AppConstants.swift:13-22 | the size is positive exactly for the five listed presets and 0 for any other name |
| `AppConstants.ModelSizesIncrease` | CleoAI/Shared/Constants/AppConstants.swift:10-19 | sizes strictly increase along the listed order tiny < base < small < medium < large |
| `AppConstants.LanguageCode` | CleoAI/Shared/Constants/AppConstants.swift:28-34 | a code exists exactly for the offered languages and has two letters; nil for anything else |
| `AppConstants.DefaultsAreOffered` | CleoAI/Shared/Constants/AppConstants.swift:10-26 | the default model and language are offered; no preset or language is listed twice; the default language's code is "en" |
| `Notes.NoteCategory.RawValue` | CleoAI/Core/Models/Note.swift:26-31 | decoding a category's raw value gives the category back |
| `Notes.NoteCategory.Icon` | CleoAI/Core/Models/Note.swift:33-41 | every category has an icon, and the icon identifies the category |
| `Notes.CategoryTables` | CleoAI/Core/Models/Note.swift:26-41 | exactly five categories, each once; raw values and icons pairwise distinct; a raw value that decodes re-encodes to itself |
| `Notes.CategoryFromRawValue` | CleoAI/Core/Models/Note.swift:26-31 | `NoteCategory(rawValue:)` yields a category exactly for the five declared raw values and nil for any other string |
| `Notes.MakeNote` | CleoAI/Core/Models/Note.swift:14-23 | `init` stores title, content, summary, keywords, category and transcription result as given; both timestamps are the creation time |
| `Notes.NoteWithDefaults` | CleoAI/Core/Models/Note.swift:14 | the defaults: no summary, no keywords, category general, no transcription result |
| `Transcripts.MakeTranscriptionResult` | CleoAI/Core/Models/TranscriptionResult.swift:13-20 | `init` copies text, language, model and both durations; `wordCount` is the number of maximal non-whitespace runs of the text |
| `Transcripts.WordCountBounds` | CleoAI/Core/Models/TranscriptionResult.swift:19 | the word count is at most the text's length, and 0 for blank text |
| `Transcripts.WordCountOfJoinedWords` | CleoAI/Core/Models/TranscriptionResult.swift:19 | k non-empty whitespace-free words joined by single spaces count as k |
| `TextOps.Filter` | CleoAI/Core/Services/NoteSummarizationService.swift:25 | `filter` keeps exactly the elements that pass, from the input, no longer than it |
| `TextOps.FilterMultiplicity` | CleoAI/Features/Notes/ViewModels/NotesViewModel.swift:22-30 | filtering keeps every occurrence of an accepted element and none of a rejected one |
| `TextOps.FilterTwice` | CleoAI/Features/Notes/ViewModels/NotesViewModel.swift:19-33 | two filters in a row are one filter by their conjunction |
| `TextOps.ComponentsShape` | CleoAI/Core/Services/NoteSummarizationService.swift:24 | `components(separatedBy:)` gives one piece more than there are separators, and no piece contains a separator |
| `TextOps.Components` | CleoAI/Core/Services/NoteSummarizationService.swift:24 | `components(separatedBy:)` always yields at least one piece, even for empty text |
| `TextOps.ComponentsRoundTrip` | CleoAI/Core/Services/NoteSummarizationService.swift:24 | putting the separators back between the pieces rebuilds the text |
| `TextOps.Join` | CleoAI/Core/Services/NoteSummarizationService.swift:31 | `joined(separator:)` of n ≥ 1 parts is as long as the parts together plus n - 1 separators |
| `TextOps.Words` | CleoAI/Features/Transcription/ViewModels/TranscriptionViewModel.swift:73-74 | the non-empty whitespace components, in order: a subsequence of the components holding every non-empty one exactly as often as it occurs, and each word is non-empty and free of whitespace |
| `TextOps.WordsAreRuns` | CleoAI/Core/Models/TranscriptionResult.swift:19 | the non-empty whitespace components and the maximal non-whitespace runs agree in number |
| `TextOps.JoinedWords` | CleoAI/Features/Transcription/ViewModels/TranscriptionViewModel.swift:73-79 | splitting words joined by single spaces gives the words back |
| `TextOps.Lowercased` | CleoAI/Core/Services/NoteSummarizationService.swift:47 | `lowercased()` maps each character through the case mapping and keeps the length |
| `TextOps.Contains` | CleoAI/Core/Services/NoteSummarizationService.swift:49-53 | `contains` needs the needle to fit in the text, and holds whenever the text starts with the needle |
| `NoteSummarization.Sentences` | CleoAI/Core/Services/NoteSummarizationService.swift:24-25 | the non-blank `.!?` fragments, in order: a subsequence of the fragments holding every non-blank one exactly as often as it occurs, and each sentence is free of `.!?` and not blank |
| `NoteSummarization.ExtractiveSummary` | CleoAI/Core/Services/NoteSummarizationService.swift:23-32 | at most one sentence: the text unchanged; otherwise a non-empty summary ending in "." |
| `NoteSummarization.SummaryKeepsLeadingSentences` | CleoAI/Core/Services/NoteSummarizationService.swift:27-31 | cutting the summary into sentences again gives the first min(3, n) sentences of the text (the later ones behind the space of ". "), so the summary has min(3, n) sentences; with more than one sentence, the summary is exactly those pieces joined by "." and closed with "." |
| `NoteSummarization.JoinDotSpace` | CleoAI/Core/Services/NoteSummarizationService.swift:31 | joining sentences with ". " is joining them with "." once every sentence after the first carries a leading space |
| `NoteSummarization.KeywordCandidates` | CleoAI/Core/Services/NoteSummarizationService.swift:35-37 | every candidate is a piece of the lowercased text between non-alphanumerics, all alphanumeric, longer than two; every such piece longer than two is a candidate exactly as often as it occurs |
| `NoteSummarization.DistinctWords` | CleoAI/Core/Services/NoteSummarizationService.swift:39 | the grouping dictionary's keys: no repeats, and exactly the candidates |
| `NoteSummarization.MostFrequent` | CleoAI/Core/Services/NoteSummarizationService.swift:41 | the chosen candidate is at least as frequent as every other |
| `NoteSummarization.TopByFrequency` | CleoAI/Core/Services/NoteSummarizationService.swift:39-43 | the min(k, n) most frequent distinct candidates, in non-increasing frequency, none left out more frequent than one taken |
| `NoteSummarization.TopStep` | CleoAI/Core/Services/NoteSummarizationService.swift:41-43 | a most frequent candidate followed by the top k-1 of the rest is the top k |
| `NoteSummarization.ExtractKeywordsSimple` | CleoAI/Core/Services/NoteSummarizationService.swift:34-44 | at most 5 distinct candidates in non-increasing frequency; any left out is no more frequent than every one returned; with fewer than 5, every candidate is returned |
| `NoteSummarization.TopOfDistinctIsRanking` | CleoAI/Core/Services/NoteSummarizationService.swift:39-43 | the top of the dictionary keys is such a ranking of the candidates, including the "fewer than 5 means all" case |
| `NoteSummarization.CategorizeNoteSimple` | CleoAI/Core/Services/NoteSummarizationService.swift:46-58 | the first category in priority order whose keywords the lowercased text contains; never personal |
| `NoteSummarization.MentionsByKeyword` | CleoAI/Core/Services/NoteSummarizationService.swift:49-53 | a category is mentioned exactly when its Korean or its English keyword occurs |
| `NoteSummarization.CategoryPriorityOrder` | CleoAI/Core/Services/NoteSummarizationService.swift:49-57 | meeting beats lecture beats interview; no mention gives general |
| `NoteSummarization.GenerateSummary` | CleoAI/Core/Services/NoteSummarizationService.swift:5-9 | returns the extractive summary, which has min(3, n) sentences |
| `NoteSummarization.ExtractKeywords` | CleoAI/Core/Services/NoteSummarizationService.swift:11-15 | returns the simple keyword list: at most 5, no repeats |
| `NoteSummarization.CategorizeNote` | CleoAI/Core/Services/NoteSummarizationService.swift:17-21 | returns the rule-based category, never personal |
| `NoteSummarization.Service` | CleoAI/Core/Services/NoteSummarizationService.swift:3-21 | the app's own service never files a note as personal and never returns more than 5 or repeated keywords |
| `FileUtils.PathExtension` | CleoAI/Core/Utils/FileUtils.swift:39 | the extension is dot-free, empty when the name has no ".", else exactly what follows the last "." |
| `FileUtils.ExtensionAfterLastDot` | CleoAI/Core/Utils/FileUtils.swift:39 | the extension of `stem.ext` is `ext` whenever `ext` has no "." |
| `FileUtils.IsNoteFile` | CleoAI/Core/Utils/FileUtils.swift:39 | the load filter accepts a name exactly when it starts with `note-` and ends with `.json`, so such a name has at least 10 characters |
| `FileUtils.NoteFileName` | CleoAI/Core/Utils/FileUtils.swift:22 | `note-<id>.json` passes the load filter (extension `json`, prefix `note-`) |
| `FileUtils.NoteFileNameInjective` | CleoAI/Core/Utils/FileUtils.swift:22 | different ids give different file names |
| `FileUtils.SaveNoteToFile` | CleoAI/Core/Utils/FileUtils.swift:20-32 | the URL in Documents named after the note's id when the write succeeds, nil when it fails; the name passes the load filter |
| `FileUtils.ZeroPadValue` | CleoAI/Core/Utils/FileUtils.swift:8 | a zero-padded date field reads back as its number |
| `FileUtils.FormatTimestamp` | CleoAI/Core/Utils/FileUtils.swift:7-9 | for a valid time before year 10000 the stamp has 15 characters with "-" at position 8 |
| `FileUtils.TimestampRoundTrip` | CleoAI/Core/Utils/FileUtils.swift:8-9 | parsing the `yyyyMMdd-HHmmss` stamp gives back every field of the time |
| `FileUtils.TempFileName` | CleoAI/Core/Utils/FileUtils.swift:10 | `trans-<stamp>.txt` starts with `trans-`, has extension `txt`, and never passes the note filter |
| `FileUtils.TempFileNamesDistinct` | CleoAI/Core/Utils/FileUtils.swift:8-10 | exports at different seconds get different file names |
| `FileUtils.TextToTempFile` | CleoAI/Core/Utils/FileUtils.swift:5-18 | the temp-directory URL named after the time when the write succeeds, nil when it fails |
| `FileUtils.Decoded` | CleoAI/Core/Utils/FileUtils.swift:41-47 | no more notes than files; every note comes from a decodable file, and every decodable file's note is there |
| `FileUtils.NoteFiles` | CleoAI/Core/Utils/FileUtils.swift:39 | the filtered listing keeps listing order and holds exactly the entries whose names pass the load filter |
| `FileUtils.DecodeAll` | CleoAI/Core/Utils/FileUtils.swift:41-47 | the loop collects, in listing order, the note of every file that reads and decodes, and skips the others |
| `FileUtils.InsertByDate` | CleoAI/Core/Utils/FileUtils.swift:49 | inserting keeps newest-first order and adds exactly that note |
| `FileUtils.SortNewestFirst` | CleoAI/Core/Utils/FileUtils.swift:49 | the same notes (as a multiset), in non-increasing `createdAt` |
| `FileUtils.LoadNotesFromFiles` | CleoAI/Core/Utils/FileUtils.swift:34-53 | a failed listing gives []; otherwise exactly the notes of the decodable files named `note-*.json` (as a multiset), no more than the matching files, newest first |
| `FileUtils.LoadedNotesOrigin` | CleoAI/Core/Utils/FileUtils.swift:39-47 | a note is loaded exactly when some listed file passes the name filter and decodes to it |
| `FileUtils.ExportedTranscriptIsIgnored` | CleoAI/Core/Utils/FileUtils.swift:39 | an exported transcript file in the listing does not change what loads |
| `NotesFeature.FilterNotes` | CleoAI/Features/Notes/ViewModels/NotesViewModel.swift:18-34 | an order-preserving subsequence holding each admitted note exactly as often as the input and no other; with empty search and no category, the input itself |
| `NotesFeature.NotesViewModel.FilteredNotes` | CleoAI/Features/Notes/ViewModels/NotesViewModel.swift:18-34 | a subsequence of `allNotes` holding exactly the notes that match the search (title, content or a keyword) and the category |
| `NotesFeature.NotesViewModel.constructor` | CleoAI/Features/Notes/ViewModels/NotesViewModel.swift:6-16 | empty filters, no selection, detail closed, notes loaded from the store |
| `NotesFeature.NotesViewModel.LoadNotes` | CleoAI/Features/Notes/ViewModels/NotesViewModel.swift:36-39 | `notes` and `allNotes` both become the store's load result; nothing else changes |
| `NotesFeature.NotesViewModel.SaveNote` | CleoAI/Features/Notes/ViewModels/NotesViewModel.swift:41-46 | reloads only when the write succeeds, and a decodable file under the note's name then shows up; otherwise nothing changes |
| `NotesFeature.NotesViewModel.DeleteNote` | CleoAI/Features/Notes/ViewModels/NotesViewModel.swift:48-51 | deletes nothing; reloads from the store |
| `NotesFeature.NotesViewModel.SelectNote` | CleoAI/Features/Notes/ViewModels/NotesViewModel.swift:53-56 | the note becomes selected and the detail is shown; notes and filters are unchanged |
| `NotesFeature.NotesViewModel.ClearSelection` | CleoAI/Features/Notes/ViewModels/NotesViewModel.swift:58-61 | no selection and detail closed; notes and filters are unchanged |
| `NotesFeature.NotesViewModel.ClearSearch` | CleoAI/Features/Notes/ViewModels/NotesViewModel.swift:63-65 | only the search text changes, to "" |
| `NotesFeature.NotesViewModel.ClearCategoryFilter` | CleoAI/Features/Notes/ViewModels/NotesViewModel.swift:67-69 | only the category filter changes, to none |
| `TranscriptionFeature.GenerateTitle` | CleoAI/Features/Transcription/ViewModels/TranscriptionViewModel.swift:72-81 | a text of at most five words is its own title, unchanged; a longer text's title ends in "..." |
| `TranscriptionFeature.TitleWords` | CleoAI/Features/Transcription/ViewModels/TranscriptionViewModel.swift:72-81 | read as words, a short text's title has the text's words; a longer text's title reads as its first five words, the fifth followed by "...", and is exactly those words joined by single spaces, with nothing before or between them |
| `TranscriptionFeature.TitleWordCount` | CleoAI/Features/Transcription/ViewModels/TranscriptionViewModel.swift:72-81 | a title has min(5, n) words, n the text's word count |
| `TranscriptionFeature.CreateNote` | CleoAI/Features/Transcription/ViewModels/TranscriptionViewModel.swift:55-70 | content is the transcript; summary, keywords and category are the service's answers unchanged; the result is attached; the title is the generated one |
| `TranscriptionFeature.CreateNoteWithService` | CleoAI/Features/Transcription/ViewModels/TranscriptionViewModel.swift:55-70 | with the app's own service, the note is never personal, has at most 5 distinct keywords and carries the extractive summary |
| `TranscriptionFeature.TranscriptionViewModel.constructor` | CleoAI/Features/Transcription/ViewModels/TranscriptionViewModel.swift:6-24 | idle, no result or error, empty progress, default language and model; the given summarization service is the one `NoteFrom` asks |
| `TranscriptionFeature.TranscriptionViewModel.NoteFrom` | CleoAI/Features/Transcription/ViewModels/TranscriptionViewModel.swift:55-70 | `createNote(from:)` asks the view-model's own summarization service: content is the transcript; summary, keywords and category are that service's answers; the result is attached; the title is the generated one |
| `TranscriptionFeature.TranscriptionViewModel.Transcribe` | CleoAI/Features/Transcription/ViewModels/TranscriptionViewModel.swift:38-53 | the engine is asked with the selected model and language; success sets the result and clears the error; failure sets the error's description and clears the result; result and error are never both set |
| `TranscriptionFeature.TranscriptionViewModel.ClearTranscription` | CleoAI/Features/Transcription/ViewModels/TranscriptionViewModel.swift:83-87 | result, error and progress message cleared; selections unchanged |
| `TranscriptionFeature.TranscriptionViewModel.ClearError` | CleoAI/Features/Transcription/ViewModels/TranscriptionViewModel.swift:89-91 | only the error changes, to none |

## Left out

- Audio capture (`AudioRecordingService`, the level meter, `AudioUtils`), the WhisperKit call and its progress animation (`TranscriptionService`), `RecordingViewModel` and all SwiftUI views. They are hardware, library and presentation code with no logic of their own. The engine is a function parameter.
- `AudioRecording`: the `AVAudioFormat` field and the `fileSizeString`/format descriptions (floating-point formatting). `TranscriptionResult.metadata` is left out for the same reason.
- `TranscriptionFeature.TranscriptionViewModel.Transcribe`:
  - it does not set `isTranscribing` or `progressMessage`, which the source binds to the service's Combine publishers;
  - the `Task` it runs in is applied at once, so interleaving of overlapping transcriptions is not modelled.
- `FileUtils.SaveNoteToFile` and `FileUtils.TextToTempFile`:
  - what is written (the JSON bytes, the text) is not modelled;
  - JSON encoding and decoding are abstract. `DirectoryEntry.contents` stands for the decoded note.
  - A decoded note's `id` is not claimed to equal the saved one: `let id = UUID()` is not decoded.
  - The Documents and temporary directories are parameters.
- `NotesFeature.NotesViewModel.SaveNote`: the listing it reloads from is a parameter, not derived from the write. The `print` of the saved path is left out.
- `Notes.MakeNote`: uses one clock reading for both `createdAt` and `updatedAt`. The initialiser reads `Date()` twice, so the two can differ by the time between the reads.
- `FileUtils.FormatTimestamp`:
  - the calendar, time zone and locale `DateFormatter` uses are replaced by a given `LocalTime`;
  - the round trip is proved only for years below 10000, where `yyyy` has exactly four digits.
- `FileUtils.PathExtension`: does not model Foundation's special cases, such as names that begin with "." or end in "/".
- Unicode and locale:
  - whitespace, alphanumerics and lower-casing are the abstract `CharClasses`;
  - `lowercased()` is applied one character at a time, so case mappings that change a string's length are not modelled;
  - the keyword length test `count > 2` counts Dafny characters, not Swift grapheme clusters;
  - `TranscriptionResult.wordCount` (`isWhitespace || isNewline`) and the title and summary (`.whitespacesAndNewlines`) share one whitespace class.
  - Swift compares `String`s by Unicode canonical equivalence, and the model compares them as sequences of scalars. This affects:
    - the `Dictionary(grouping:)` keys behind the keyword frequencies (`NoteSummarization.Frequency`, `NoteSummarization.DistinctWords`);
    - `contains` in categorisation and search (`TextOps.Contains`);
    - `hasPrefix("note-")` in the load filter (`TextOps.HasPrefix`);
    - the `"한국어"` case of `languageCode(for:)` (`AppConstants.LanguageCode`);
    - `NoteCategory(rawValue:)` when a stored category is decoded (`Notes.CategoryFromRawValue`).

    So text in decomposed form (NFD Korean, say) can be counted, categorised and filtered differently from Swift.
- `NoteSummarization.ExtractKeywordsSimple`: the order among keywords of equal frequency is left open, because Swift's dictionary order and sort are not specified there. The model picks a most frequent candidate by first occurrence, and the contract states only what holds for every tie order.
- `FileUtils.SortNewestFirst`: notes with equal `createdAt` may come in any order; the contract states only newest-first order and the same notes.
- `AppConstants`: `appName`, `bundleIdentifier`, the audio-buffer and UI constants and the file-extension constants are not modelled; no logic reads them.
