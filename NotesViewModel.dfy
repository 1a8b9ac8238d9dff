/**
 * `NotesViewModel`: the saved notes, the search and category filters over
 * them, and which note is open. The note store is the abstract Documents
 * listing of `FileUtils`; every method that reloads takes the listing as it
 * stands at that moment.
 */
module NotesFeature {
  import opened Wrappers
  import opened TextOps
  import opened Notes
  import opened FileUtils

  // ---------------------------------------------------------------------------
  // `filteredNotes`
  // ---------------------------------------------------------------------------

  /**
   * The search test: the title, the content or one of the keywords contains
   * `search`. `contains(hay, needle)` is `localizedCaseInsensitiveContains`.
   */
  predicate MatchesSearch(n: Note, search: string, contains: (string, string) -> bool)
  {
    || contains(n.title, search)
    || contains(n.content, search)
    || exists k :: k in n.keywords && contains(k, search)
  }

  function SearchStage(search: string, contains: (string, string) -> bool): Note -> bool
  {
    (n: Note) => MatchesSearch(n, search, contains)
  }

  function InCategory(c: NoteCategory): Note -> bool
  {
    (n: Note) => n.category == c
  }

  /** Both active filters let `n` through: an empty search and no category filter nothing. */
  predicate Admits(n: Note, search: string, category: Option<NoteCategory>, contains: (string, string) -> bool)
  {
    (search == "" || MatchesSearch(n, search, contains)) && (category.None? || n.category == category.value)
  }

  /**
   * `filteredNotes`: the search filter when the search text is not empty,
   * then the category filter when a category is selected. The result keeps
   * the order of `all`, and holds every note both filters admit, as often as
   * `all` does, and no other.
   */
  function FilterNotes(all: seq<Note>, search: string, category: Option<NoteCategory>,
                       contains: (string, string) -> bool): (r: seq<Note>)
    ensures IsSubsequence(r, all)
    ensures forall n :: multiset(r)[n] == if Admits(n, search, category, contains) then multiset(all)[n] else 0
    ensures forall n :: n in r <==> n in all && Admits(n, search, category, contains)
    ensures search == "" && category.None? ==> r == all
  {
    var searched := if search != "" then Filter(all, SearchStage(search, contains)) else all;
    var r := if category.Some? then Filter(searched, InCategory(category.value)) else searched;
    assert IsSubsequence(r, all) by {
      if search != "" && category.Some? {
        FilterTwice(all, SearchStage(search, contains), InCategory(category.value),
                    (n: Note) => Admits(n, search, category, contains));
        FilterIsSubsequence(all, (n: Note) => Admits(n, search, category, contains));
      } else if search != "" {
        FilterIsSubsequence(all, SearchStage(search, contains));
      } else if category.Some? {
        FilterIsSubsequence(all, InCategory(category.value));
      } else {
        SubsequenceOfSelf(all);
      }
    }
    assert forall n :: multiset(r)[n] == if Admits(n, search, category, contains) then multiset(all)[n] else 0 by {
      forall n
        ensures multiset(r)[n] == if Admits(n, search, category, contains) then multiset(all)[n] else 0
      {
        if search != "" {
          FilterMultiplicity(all, SearchStage(search, contains), n);
        }
        if category.Some? {
          FilterMultiplicity(searched, InCategory(category.value), n);
        }
      }
    }
    assert forall n :: n in r <==> n in all && Admits(n, search, category, contains) by {
      forall n ensures n in r <==> n in all && Admits(n, search, category, contains) {
        assert n in r <==> multiset(r)[n] > 0;
        assert n in all <==> multiset(all)[n] > 0;
      }
    }
    r
  }

  lemma {:induction false} SubsequenceOfSelf<T>(s: seq<T>)
    ensures IsSubsequence(s, s)
  {
    if s != [] {
      SubsequenceOfSelf(s[1..]);
    }
  }

  // ---------------------------------------------------------------------------
  // The view-model
  // ---------------------------------------------------------------------------

  class NotesViewModel {
    var notes: seq<Note>
    var selectedNote: Option<Note>
    var searchText: string
    var selectedCategory: Option<NoteCategory>
    var isShowingNoteDetail: bool
    var allNotes: seq<Note>

    /**
     * `notes` and `allNotes` are always assigned together from one load, so
     * they agree and are newest first; the detail sheet is shown only for a
     * selected note.
     */
    ghost predicate Valid()
      reads this
    {
      && notes == allNotes
      && NewestFirst(allNotes)
      && (isShowingNoteDetail ==> selectedNote.Some?)
    }

    /** `init()`: empty filters, nothing selected, then a first load of `listing`. */
    constructor (listing: Option<seq<DirectoryEntry>>)
      ensures Valid()
      ensures IsLoadOf(notes, listing)
      ensures selectedNote == None && searchText == "" && selectedCategory == None && !isShowingNoteDetail
    {
      var loaded := LoadNotesFromFiles(listing);
      notes := loaded;
      allNotes := loaded;
      selectedNote := None;
      searchText := "";
      selectedCategory := None;
      isShowingNoteDetail := false;
    }

    /** `filteredNotes` for the current search text and category. */
    function FilteredNotes(contains: (string, string) -> bool): (r: seq<Note>)
      reads this
      ensures IsSubsequence(r, allNotes)
      ensures forall n :: n in r <==> n in allNotes && Admits(n, searchText, selectedCategory, contains)
      ensures searchText == "" && selectedCategory.None? ==> r == allNotes
    {
      FilterNotes(allNotes, searchText, selectedCategory, contains)
    }

    /** `loadNotes`: `notes` and `allNotes` both become the load of `listing`. */
    method LoadNotes(listing: Option<seq<DirectoryEntry>>)
      requires Valid()
      modifies this
      ensures Valid()
      ensures IsLoadOf(notes, listing) && allNotes == notes
      ensures listing.Some? ==> forall n :: n in notes <==>
        exists e :: e in listing.value && IsNoteEntry(e) && e.contents == Some(n)
      ensures selectedNote == old(selectedNote) && searchText == old(searchText)
      ensures selectedCategory == old(selectedCategory) && isShowingNoteDetail == old(isShowingNoteDetail)
    {
      var loaded := LoadNotesFromFiles(listing);
      notes := loaded;
      allNotes := notes;
    }

    /**
     * `saveNote`: when the note is written (`written`), reload from `listing`,
     * the Documents directory after the write; otherwise change nothing.
     */
    method SaveNote(note: Note, documents: string, written: bool, listing: Option<seq<DirectoryEntry>>)
      requires Valid()
      modifies this
      ensures Valid()
      ensures written ==> IsLoadOf(notes, listing)
      ensures !written ==> notes == old(notes) && allNotes == old(allNotes)
      ensures written && listing.Some? ==> forall m ::
        DirectoryEntry(FileURL(documents, NoteFileName(note.id)), Some(m)) in listing.value ==> m in notes
      ensures selectedNote == old(selectedNote) && searchText == old(searchText)
      ensures selectedCategory == old(selectedCategory) && isShowingNoteDetail == old(isShowingNoteDetail)
    {
      var url := SaveNoteToFile(documents, note, written);
      if url.Some? {
        LoadNotes(listing);
        if listing.Some? {
          forall m | DirectoryEntry(url.value, Some(m)) in listing.value ensures m in notes {
            assert IsNoteEntry(DirectoryEntry(url.value, Some(m)));
          }
        }
      }
    }

    /** `deleteNote`: removes no file; it only reloads from `listing`. */
    method DeleteNote(note: Note, listing: Option<seq<DirectoryEntry>>)
      requires Valid()
      modifies this
      ensures Valid()
      ensures IsLoadOf(notes, listing) && allNotes == notes
      ensures selectedNote == old(selectedNote) && searchText == old(searchText)
      ensures selectedCategory == old(selectedCategory) && isShowingNoteDetail == old(isShowingNoteDetail)
    {
      LoadNotes(listing);
    }

    /** `selectNote`: open the detail of `note`. */
    method SelectNote(note: Note)
      requires Valid()
      modifies this
      ensures Valid()
      ensures selectedNote == Some(note) && isShowingNoteDetail
      ensures notes == old(notes) && allNotes == old(allNotes)
      ensures searchText == old(searchText) && selectedCategory == old(selectedCategory)
    {
      selectedNote := Some(note);
      isShowingNoteDetail := true;
    }

    /** `clearSelection`: nothing selected, detail closed. */
    method ClearSelection()
      requires Valid()
      modifies this
      ensures Valid()
      ensures selectedNote == None && !isShowingNoteDetail
      ensures notes == old(notes) && allNotes == old(allNotes)
      ensures searchText == old(searchText) && selectedCategory == old(selectedCategory)
    {
      selectedNote := None;
      isShowingNoteDetail := false;
    }

    /** `clearSearch`: the search text becomes empty; nothing else changes. */
    method ClearSearch()
      requires Valid()
      modifies this
      ensures Valid()
      ensures searchText == ""
      ensures selectedCategory == old(selectedCategory) && selectedNote == old(selectedNote)
      ensures isShowingNoteDetail == old(isShowingNoteDetail) && notes == old(notes) && allNotes == old(allNotes)
    {
      searchText := "";
    }

    /** `clearCategoryFilter`: no category selected; nothing else changes. */
    method ClearCategoryFilter()
      requires Valid()
      modifies this
      ensures Valid()
      ensures selectedCategory == None
      ensures searchText == old(searchText) && selectedNote == old(selectedNote)
      ensures isShowingNoteDetail == old(isShowingNoteDetail) && notes == old(notes) && allNotes == old(allNotes)
    {
      selectedCategory := None;
    }
  }
}
