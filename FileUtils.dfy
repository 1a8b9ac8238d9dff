/**
 * `FileUtils`: where notes and exported transcripts are written, and how the
 * saved notes are read back. The file system is abstract: a write either
 * succeeds or fails (a parameter), and the Documents directory is a listing
 * of file URLs, each paired with what reading and JSON-decoding it gives.
 */
module FileUtils {
  import opened Wrappers
  import opened TextOps
  import opened Notes

  /** A file URL: the directory it lives in and its last path component. */
  datatype FileURL = FileURL(directory: string, lastPathComponent: string)

  // ---------------------------------------------------------------------------
  // File names
  // ---------------------------------------------------------------------------

  /** `s` ends with `suffix`. */
  predicate HasSuffix(s: string, suffix: string)
  {
    |suffix| <= |s| && s[|s| - |suffix|..] == suffix
  }

  /** `URL.pathExtension`: what follows the last "." of the file name; "" when there is none. */
  function PathExtension(name: string): (ext: string)
    ensures '.' !in ext
    ensures '.' !in name ==> ext == ""
    ensures '.' in name ==> |ext| < |name| && name[|name| - |ext| - 1] == '.' && name[|name| - |ext|..] == ext
  {
    if '.' !in name then ""
    else if name[|name| - 1] == '.' then ""
    else
      var init := name[..|name| - 1];
      assert name == init + [name[|name| - 1]];
      PathExtension(init) + [name[|name| - 1]]
  }

  /** The extension of `stem.ext` is `ext`, whatever `stem` holds, as long as `ext` has no ".". */
  lemma {:induction false} ExtensionAfterLastDot(stem: string, ext: string)
    requires '.' !in ext
    ensures PathExtension(stem + "." + ext) == ext
  {
    var name := stem + "." + ext;
    assert name[|stem|] == '.';
    if ext != [] {
      var init := stem + "." + ext[..|ext| - 1];
      assert name == init + [ext[|ext| - 1]];
      assert name[..|name| - 1] == init;
      ExtensionAfterLastDot(stem, ext[..|ext| - 1]);
      assert ext == ext[..|ext| - 1] + [ext[|ext| - 1]];
    }
  }

  /** The load filter: extension `json` and prefix `note-`. */
  predicate IsNoteFile(name: string)
    ensures IsNoteFile(name) <==> HasPrefix(name, "note-") && HasSuffix(name, ".json")
    ensures IsNoteFile(name) ==> |name| >= 10
  {
    assert PathExtension(name) == "json" <==> HasSuffix(name, ".json") by {
      if HasSuffix(name, ".json") {
        var stem := name[..|name| - 5];
        assert name == stem + "." + "json";
        ExtensionAfterLastDot(stem, "json");
      }
    }
    PathExtension(name) == "json" && HasPrefix(name, "note-")
  }

  /** The name a note is saved under: `note-<id>.json`. Every such name passes the load filter. */
  function NoteFileName(id: string): (name: string)
    ensures IsNoteFile(name)
  {
    assert ".json" == "." + "json";
    assert "note-" + id + ".json" == ("note-" + id) + "." + "json";
    ExtensionAfterLastDot("note-" + id, "json");
    "note-" + id + ".json"
  }

  /** Different notes are saved to different files. */
  lemma NoteFileNameInjective(a: string, b: string)
    requires NoteFileName(a) == NoteFileName(b)
    ensures a == b
  {
    assert a == NoteFileName(a)[5..|NoteFileName(a)| - 5];
    assert b == NoteFileName(b)[5..|NoteFileName(b)| - 5];
  }

  /**
   * `saveNoteToFile`: the URL `<documents>/note-<id>.json` when encoding and
   * writing succeed (`written`), nil otherwise.
   */
  function SaveNoteToFile(documents: string, note: Note, written: bool): (url: Option<FileURL>)
    ensures url.Some? <==> written
    ensures url.Some? ==> url.value.directory == documents && url.value.lastPathComponent == NoteFileName(note.id)
    ensures url.Some? ==> IsNoteFile(url.value.lastPathComponent)
  {
    if written then Some(FileURL(documents, NoteFileName(note.id))) else None
  }

  // ---------------------------------------------------------------------------
  // The export file name: `trans-yyyyMMdd-HHmmss.txt`
  // ---------------------------------------------------------------------------

  /** A clock reading in the user's calendar and time zone, as `DateFormatter` breaks it down. */
  datatype LocalTime = LocalTime(year: nat, month: nat, day: nat, hour: nat, minute: nat, second: nat)

  predicate ValidTime(t: LocalTime)
  {
    1 <= t.month <= 12 && 1 <= t.day <= 31 && t.hour < 24 && t.minute < 60 && t.second < 60
  }

  predicate IsDigit(c: char)
  {
    '0' <= c <= '9'
  }

  predicate AllDigits(s: string)
  {
    forall i :: 0 <= i < |s| ==> IsDigit(s[i])
  }

  function DigitChar(d: nat): (c: char)
    requires d < 10
    ensures IsDigit(c)
  {
    ('0' as int + d) as char
  }

  function Pow10(k: nat): (p: nat)
    ensures p >= 1
  {
    if k == 0 then 1 else 10 * Pow10(k - 1)
  }

  /** The decimal digits of `n`, without leading zeros ("0" for zero). */
  function Decimal(n: nat): (s: string)
    ensures |s| >= 1 && AllDigits(s)
  {
    if n < 10 then [DigitChar(n)] else Decimal(n / 10) + [DigitChar(n % 10)]
  }

  function Zeros(k: nat): (s: string)
    ensures |s| == k && AllDigits(s)
  {
    if k == 0 then "" else Zeros(k - 1) + "0"
  }

  /** A `DateFormatter` field of width `w`: at least `w` digits, padded with leading zeros. */
  function ZeroPad(n: nat, w: nat): (s: string)
    ensures AllDigits(s)
    ensures 1 <= w && n < Pow10(w) ==> |s| == w
  {
    var d := Decimal(n);
    assert 1 <= w && n < Pow10(w) ==> |d| <= w by {
      if 1 <= w && n < Pow10(w) {
        DecimalFits(n, w);
      }
    }
    if |d| < w then Zeros(w - |d|) + d else d
  }

  /** The number a string of digits spells. */
  function DigitsValue(s: string): nat
    requires AllDigits(s)
  {
    if s == [] then 0 else 10 * DigitsValue(s[..|s| - 1]) + (s[|s| - 1] as int - '0' as int)
  }

  lemma {:induction false} DecimalFits(n: nat, w: nat)
    requires 1 <= w && n < Pow10(w)
    ensures |Decimal(n)| <= w
  {
    if n >= 10 {
      assert n / 10 < Pow10(w - 1);
      DecimalFits(n / 10, w - 1);
    }
  }

  lemma {:induction false} DecimalValue(n: nat)
    ensures DigitsValue(Decimal(n)) == n
  {
    if n >= 10 {
      DecimalValue(n / 10);
      var d := Decimal(n);
      assert d[..|d| - 1] == Decimal(n / 10);
    }
  }

  lemma {:induction false} ZerosValue(k: nat)
    ensures DigitsValue(Zeros(k)) == 0
  {
    if k > 0 {
      ZerosValue(k - 1);
      assert Zeros(k)[..k - 1] == Zeros(k - 1);
    }
  }

  /** Leading zeros do not change the number. */
  lemma {:induction false} LeadingZerosValue(k: nat, s: string)
    requires AllDigits(s)
    ensures DigitsValue(Zeros(k) + s) == DigitsValue(s)
  {
    if s == [] {
      assert Zeros(k) + s == Zeros(k);
      ZerosValue(k);
    } else {
      LeadingZerosValue(k, s[..|s| - 1]);
      assert (Zeros(k) + s)[..|Zeros(k) + s| - 1] == Zeros(k) + s[..|s| - 1];
    }
  }

  /** A padded field reads back as the number it was made from. */
  lemma ZeroPadValue(n: nat, w: nat)
    ensures DigitsValue(ZeroPad(n, w)) == n
  {
    var d := Decimal(n);
    DecimalValue(n);
    if |d| < w {
      LeadingZerosValue(w - |d|, d);
    }
  }

  /** `DateFormatter` with format `yyyyMMdd-HHmmss`. */
  function FormatTimestamp(t: LocalTime): (s: string)
    ensures ValidTime(t) && t.year < 10000 ==> |s| == 15 && s[8] == '-'
  {
    Fields(t.year, 4, t.month, t.day) + "-" + Fields(t.hour, 2, t.minute, t.second)
  }

  /** Three fields written side by side: `w` digits, then two and two (`yyyyMMdd` or `HHmmss`). */
  function Fields(a: nat, w: nat, b: nat, c: nat): string
  {
    ZeroPad(a, w) + ZeroPad(b, 2) + ZeroPad(c, 2)
  }

  /** Reading a `yyyyMMdd-HHmmss` string back into its fields. */
  function ParseTimestamp(s: string): Option<LocalTime>
  {
    if |s| == 15 && s[8] == '-' && AllDigits(s[..8]) && AllDigits(s[9..]) then
      Some(LocalTime(DigitsValue(s[0..4]), DigitsValue(s[4..6]), DigitsValue(s[6..8]),
                     DigitsValue(s[9..11]), DigitsValue(s[11..13]), DigitsValue(s[13..15])))
    else None
  }

  /** Every clock reading before the year 10000 can be recovered from its timestamp. */
  lemma TimestampRoundTrip(t: LocalTime)
    requires ValidTime(t) && t.year < 10000
    ensures ParseTimestamp(FormatTimestamp(t)) == Some(t)
  {
    var date, time := Fields(t.year, 4, t.month, t.day), Fields(t.hour, 2, t.minute, t.second);
    assert Pow10(4) == 10000;
    FieldsRoundTrip(t.year, 4, t.month, t.day);
    FieldsRoundTrip(t.hour, 2, t.minute, t.second);
    ParseJoined(date, time);
  }

  /** A date part and a time part joined by "-" parse into their six fields. */
  lemma ParseJoined(date: string, time: string)
    requires |date| == 8 && |time| == 6 && AllDigits(date) && AllDigits(time)
    ensures ParseTimestamp(date + "-" + time) ==
      Some(LocalTime(DigitsValue(date[0..4]), DigitsValue(date[4..6]), DigitsValue(date[6..8]),
                     DigitsValue(time[0..2]), DigitsValue(time[2..4]), DigitsValue(time[4..6])))
  {
    var s := date + "-" + time;
    assert s[..8] == date && s[9..] == time && s[8] == '-';
    assert s[0..4] == date[0..4] && s[4..6] == date[4..6] && s[6..8] == date[6..8];
    assert s[9..11] == time[0..2] && s[11..13] == time[2..4] && s[13..15] == time[4..6];
  }

  /** Each of three fields that fit their widths can be read back from its position. */
  lemma FieldsRoundTrip(a: nat, w: nat, b: nat, c: nat)
    requires 1 <= w && a < Pow10(w) && b < 100 && c < 100
    ensures var f := Fields(a, w, b, c);
      && |f| == w + 4 && AllDigits(f)
      && DigitsValue(f[0..w]) == a && DigitsValue(f[w..w + 2]) == b && DigitsValue(f[w + 2..w + 4]) == c
  {
    assert Pow10(2) == 100;
    var x, y, z := ZeroPad(a, w), ZeroPad(b, 2), ZeroPad(c, 2);
    var f := Fields(a, w, b, c);
    assert f == x + y + z;
    assert f[0..w] == x && f[w..w + 2] == y && f[w + 2..w + 4] == z;
    ZeroPadValue(a, w);
    ZeroPadValue(b, 2);
    ZeroPadValue(c, 2);
  }

  /** The export name for a clock reading: `trans-<timestamp>.txt`. It never passes the note filter. */
  function TempFileName(t: LocalTime): (name: string)
    ensures HasPrefix(name, "trans-") && PathExtension(name) == "txt"
    ensures !IsNoteFile(name)
  {
    var stem := "trans-" + FormatTimestamp(t);
    assert ".txt" == "." + "txt";
    assert stem + ".txt" == stem + "." + "txt";
    ExtensionAfterLastDot(stem, "txt");
    assert (stem + ".txt")[..6] == "trans-";
    stem + ".txt"
  }

  /** Exports made at two different seconds get two different files. */
  lemma TempFileNamesDistinct(t1: LocalTime, t2: LocalTime)
    requires ValidTime(t1) && t1.year < 10000 && ValidTime(t2) && t2.year < 10000
    requires TempFileName(t1) == TempFileName(t2)
    ensures t1 == t2
  {
    var n1, n2 := TempFileName(t1), TempFileName(t2);
    assert FormatTimestamp(t1) == n1[6..21];
    assert FormatTimestamp(t2) == n2[6..21];
    TimestampRoundTrip(t1);
    TimestampRoundTrip(t2);
  }

  /**
   * `textToTempFile`: the URL `<tempDir>/trans-<now>.txt` when the write
   * succeeds (`written`), nil otherwise.
   */
  function TextToTempFile(tempDir: string, now: LocalTime, written: bool): (url: Option<FileURL>)
    ensures url.Some? <==> written
    ensures url.Some? ==> url.value.directory == tempDir && url.value.lastPathComponent == TempFileName(now)
    ensures url.Some? ==> !IsNoteFile(url.value.lastPathComponent)
  {
    if written then Some(FileURL(tempDir, TempFileName(now))) else None
  }

  // ---------------------------------------------------------------------------
  // Loading
  // ---------------------------------------------------------------------------

  /**
   * One file of the Documents directory, with what `Data(contentsOf:)`
   * followed by `JSONDecoder().decode(Note.self, ...)` gives: None when
   * either of them throws.
   */
  datatype DirectoryEntry = DirectoryEntry(url: FileURL, contents: Option<Note>)

  predicate IsNoteEntry(e: DirectoryEntry)
  {
    IsNoteFile(e.url.lastPathComponent)
  }

  /** The entries the load filter keeps, in listing order. */
  function NoteFiles(listing: seq<DirectoryEntry>): (r: seq<DirectoryEntry>)
    ensures IsSubsequence(r, listing)
    ensures forall e :: e in r <==> e in listing && IsNoteEntry(e)
  {
    FilterIsSubsequence(listing, IsNoteEntry);
    Filter(listing, IsNoteEntry)
  }

  /** The notes the readable, decodable entries hold, in listing order; the others are skipped. */
  function Decoded(entries: seq<DirectoryEntry>): (notes: seq<Note>)
    ensures |notes| <= |entries|
    ensures forall n :: n in notes ==> exists e :: e in entries && e.contents == Some(n)
    ensures forall e :: e in entries && e.contents.Some? ==> e.contents.value in notes
  {
    if entries == [] then []
    else
      var last := entries[|entries| - 1];
      var init := entries[..|entries| - 1];
      assert entries == init + [last];
      Decoded(init) + (if last.contents.Some? then [last.contents.value] else [])
  }

  /** Newest first: `createdAt` does not increase along the sequence. */
  predicate NewestFirst(notes: seq<Note>)
  {
    forall i, j :: 0 <= i < j < |notes| ==> notes[i].createdAt >= notes[j].createdAt
  }

  /** `n` placed into a newest-first sequence where it belongs. */
  function InsertByDate(n: Note, s: seq<Note>): (r: seq<Note>)
    requires NewestFirst(s)
    ensures NewestFirst(r) && multiset(r) == multiset{n} + multiset(s)
  {
    if s == [] || n.createdAt >= s[0].createdAt then [n] + s
    else
      var rest := InsertByDate(n, s[1..]);
      InsertStep(n, s, rest);
      [s[0]] + rest
  }

  /** The step of `InsertByDate` past a newer first note. */
  lemma InsertStep(n: Note, s: seq<Note>, rest: seq<Note>)
    requires NewestFirst(s) && s != [] && n.createdAt < s[0].createdAt
    requires NewestFirst(rest) && multiset(rest) == multiset{n} + multiset(s[1..])
    ensures NewestFirst([s[0]] + rest) && multiset([s[0]] + rest) == multiset{n} + multiset(s)
  {
    forall x | x in rest ensures x.createdAt <= s[0].createdAt {
      assert x in multiset(rest);
      if x != n {
        assert x in multiset(s[1..]);
        var j :| 0 <= j < |s[1..]| && s[1..][j] == x;
        assert s[j + 1] == x;
      }
    }
    NewerInFront(s[0], rest);
    assert s == [s[0]] + s[1..];
    assert multiset(s) == multiset{s[0]} + multiset(s[1..]);
  }

  /** A note no older than any of a newest-first sequence can go in front of it. */
  lemma NewerInFront(h: Note, rest: seq<Note>)
    requires NewestFirst(rest)
    requires forall x :: x in rest ==> x.createdAt <= h.createdAt
    ensures NewestFirst([h] + rest)
  {
    var r := [h] + rest;
    forall i, j | 0 <= i < j < |r| ensures r[i].createdAt >= r[j].createdAt {
      assert r[j] == rest[j - 1];
      if i > 0 {
        assert r[i] == rest[i - 1];
      }
    }
  }

  /** `sorted { $0.createdAt > $1.createdAt }`: the same notes, newest first. */
  function SortNewestFirst(s: seq<Note>): (r: seq<Note>)
    ensures NewestFirst(r) && multiset(r) == multiset(s)
  {
    if s == [] then []
    else
      assert s == [s[0]] + s[1..];
      InsertByDate(s[0], SortNewestFirst(s[1..]))
  }

  /**
   * What loading `listing` may give: nothing when the listing failed, otherwise
   * the notes of the decodable files that pass the name filter, newest first.
   */
  predicate IsLoadOf(notes: seq<Note>, listing: Option<seq<DirectoryEntry>>)
  {
    && (listing.None? ==> notes == [])
    && (listing.Some? ==> multiset(notes) == multiset(Decoded(NoteFiles(listing.value))))
    && NewestFirst(notes)
  }

  /**
   * `loadNotesFromFiles`: `listing` is what `contentsOfDirectory` returns for
   * the Documents directory, None when it throws. The result holds exactly the
   * decodable files that pass the name filter, newest first.
   */
  method LoadNotesFromFiles(listing: Option<seq<DirectoryEntry>>) returns (notes: seq<Note>)
    ensures IsLoadOf(notes, listing)
    ensures listing.None? ==> notes == []
    ensures listing.Some? ==> |notes| <= |NoteFiles(listing.value)|
    ensures listing.Some? ==> forall n :: n in notes <==>
      exists e :: e in listing.value && IsNoteEntry(e) && e.contents == Some(n)
    ensures NewestFirst(notes)
  {
    if listing.None? {
      return [];
    }
    var noteFiles := Filter(listing.value, IsNoteEntry);
    var loaded := DecodeAll(noteFiles);
    notes := SortNewestFirst(loaded);
    LoadedNotesOrigin(listing.value, notes);
  }

  /** The loop of `loadNotesFromFiles`: append each file's note, skipping the files that fail. */
  method DecodeAll(noteFiles: seq<DirectoryEntry>) returns (loaded: seq<Note>)
    ensures loaded == Decoded(noteFiles)
  {
    loaded := [];
    for i := 0 to |noteFiles|
      invariant loaded == Decoded(noteFiles[..i])
    {
      assert noteFiles[..i + 1] == noteFiles[..i] + [noteFiles[i]];
      if noteFiles[i].contents.Some? {
        loaded := loaded + [noteFiles[i].contents.value];
      }
    }
    assert noteFiles[..|noteFiles|] == noteFiles;
  }

  /** Any arrangement of the decoded matching files holds exactly the notes of matching, decodable entries. */
  lemma LoadedNotesOrigin(listing: seq<DirectoryEntry>, notes: seq<Note>)
    requires multiset(notes) == multiset(Decoded(NoteFiles(listing)))
    ensures |notes| <= |NoteFiles(listing)|
    ensures forall n :: n in notes <==> exists e :: e in listing && IsNoteEntry(e) && e.contents == Some(n)
  {
    var noteFiles := NoteFiles(listing);
    var decoded := Decoded(noteFiles);
    assert |notes| == |multiset(notes)| == |decoded|;
    forall n | n in notes ensures exists e :: e in listing && IsNoteEntry(e) && e.contents == Some(n) {
      assert n in multiset(decoded);
      var e :| e in noteFiles && e.contents == Some(n);
    }
    forall e | e in listing && IsNoteEntry(e) && e.contents.Some?
      ensures e.contents.value in notes
    {
      assert e in noteFiles;
      assert e.contents.value in multiset(decoded);
    }
  }

  /** A file the export wrote to the Documents directory would not change what loads. */
  lemma ExportedTranscriptIsIgnored(listing: seq<DirectoryEntry>, e: DirectoryEntry, t: LocalTime)
    requires e.url.lastPathComponent == TempFileName(t)
    ensures Decoded(NoteFiles(listing + [e])) == Decoded(NoteFiles(listing))
  {
    FilterAppend(listing, [e], IsNoteEntry);
    assert Filter([e], IsNoteEntry) == [];
    assert NoteFiles(listing) + [] == NoteFiles(listing);
  }
}
