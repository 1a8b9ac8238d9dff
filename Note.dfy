/** The note record and its category enumeration. */
module Notes {
  import opened Wrappers
  import opened Transcripts

  /** `NoteCategory`, whose raw values are the Korean category names. */
  datatype NoteCategory = General | Meeting | Lecture | Interview | Personal
  {
    /** The raw value, which is what a note file stores; it decodes back to this category. */
    function RawValue(): (raw: string)
      ensures CategoryFromRawValue(raw) == Some(this)
    {
      match this
      case General => "일반"
      case Meeting => "회의"
      case Lecture => "강의"
      case Interview => "인터뷰"
      case Personal => "개인"
    }

    /** The SF Symbol shown for the category; no two categories share one. */
    function Icon(): (name: string)
      ensures CategoryFromIcon(name) == Some(this)
    {
      match this
      case General => "doc.text"
      case Meeting => "person.2"
      case Lecture => "graduationcap"
      case Interview => "mic"
      case Personal => "person"
    }
  }

  /** `NoteCategory.allCases`, in declaration order. */
  const AllCategories: seq<NoteCategory> := [General, Meeting, Lecture, Interview, Personal]

  /** The raw values of `AllCategories`, in the same order. */
  const RawValues: seq<string> := ["일반", "회의", "강의", "인터뷰", "개인"]

  /** `NoteCategory(rawValue:)`: a category exactly for the five raw values, nil for any other string. */
  function CategoryFromRawValue(raw: string): (c: Option<NoteCategory>)
    ensures c.Some? <==> raw in RawValues
  {
    match raw
    case "일반" => Some(General)
    case "회의" => Some(Meeting)
    case "강의" => Some(Lecture)
    case "인터뷰" => Some(Interview)
    case "개인" => Some(Personal)
    case _ => None
  }

  /** The category an icon name stands for, if any: the inverse of `Icon`. */
  function CategoryFromIcon(name: string): Option<NoteCategory>
  {
    match name
    case "doc.text" => Some(General)
    case "person.2" => Some(Meeting)
    case "graduationcap" => Some(Lecture)
    case "mic" => Some(Interview)
    case "person" => Some(Personal)
    case _ => None
  }

  /** Every category is listed once, raw values are pairwise distinct and decoding only yields what encoding produced. */
  lemma CategoryTables()
    ensures |AllCategories| == 5
    ensures forall c: NoteCategory :: c in AllCategories
    ensures forall i, j :: 0 <= i < j < |AllCategories| ==> AllCategories[i] != AllCategories[j]
    ensures forall c, d: NoteCategory :: c != d ==> c.RawValue() != d.RawValue() && c.Icon() != d.Icon()
    ensures forall raw :: CategoryFromRawValue(raw).Some? ==> CategoryFromRawValue(raw).value.RawValue() == raw
    ensures forall i :: 0 <= i < |AllCategories| ==> AllCategories[i].RawValue() == RawValues[i]
  {
    forall c: NoteCategory ensures c in AllCategories {
      match c
      case General => assert AllCategories[0] == c;
      case Meeting => assert AllCategories[1] == c;
      case Lecture => assert AllCategories[2] == c;
      case Interview => assert AllCategories[3] == c;
      case Personal => assert AllCategories[4] == c;
    }
  }

  /**
   * `Note`. The timestamps are clock readings; `id` is the identifier the
   * note generated when it was constructed.
   */
  datatype Note = Note(
    id: string,
    title: string,
    content: string,
    summary: Option<string>,
    keywords: seq<string>,
    category: NoteCategory,
    transcriptionResult: Option<TranscriptionResult>,
    createdAt: int,
    updatedAt: int)

  /** `Note.init` with every argument given. `id` and `now` stand for `UUID()` and `Date()`. */
  function MakeNote(title: string, content: string, summary: Option<string>, keywords: seq<string>,
                    category: NoteCategory, transcriptionResult: Option<TranscriptionResult>,
                    id: string, now: int): (n: Note)
    ensures n.title == title && n.content == content && n.summary == summary
    ensures n.keywords == keywords && n.category == category && n.transcriptionResult == transcriptionResult
    ensures n.id == id && n.createdAt == now && n.updatedAt == now
  {
    Note(id, title, content, summary, keywords, category, transcriptionResult, now, now)
  }

  /** `Note.init(title:content:)`, every other argument left at its default. */
  function NoteWithDefaults(title: string, content: string, id: string, now: int): (n: Note)
    ensures n.title == title && n.content == content
    ensures n.summary == None && n.keywords == [] && n.category == General && n.transcriptionResult == None
    ensures n.createdAt == n.updatedAt == now
  {
    MakeNote(title, content, None, [], General, None, id, now)
  }
}
