/**
 * `NoteSummarizationService`: the rule-based summary, keyword list and
 * category a note is given from its text.
 */
module NoteSummarization {
  import opened TextOps
  import opened Notes

  // ---------------------------------------------------------------------------
  // Extractive summary
  // ---------------------------------------------------------------------------

  /** The characters the summary cuts sentences at. */
  predicate IsSentenceEnd(c: char)
  {
    c == '.' || c == '!' || c == '?'
  }

  /** The test `!$0.trimmingCharacters(in: .whitespacesAndNewlines).isEmpty`. */
  function NotBlank(isSpace: char -> bool): string -> bool
  {
    s => !IsBlank(s, isSpace)
  }

  /** The sentence fragments of `text` that are not blank, in order. */
  function Sentences(text: string, isSpace: char -> bool): (r: seq<string>)
    ensures forall i :: 0 <= i < |r| ==> NoSep(r[i], IsSentenceEnd) && !IsBlank(r[i], isSpace)
    ensures IsSubsequence(r, Components(text, IsSentenceEnd))
    ensures forall f :: !IsBlank(f, isSpace) ==> multiset(r)[f] == multiset(Components(text, IsSentenceEnd))[f]
  {
    var pieces := Components(text, IsSentenceEnd);
    ComponentsShape(text, IsSentenceEnd);
    FilterIsSubsequence(pieces, NotBlank(isSpace));
    forall f | !IsBlank(f, isSpace)
      ensures multiset(Filter(pieces, NotBlank(isSpace)))[f] == multiset(pieces)[f]
    {
      FilterMultiplicity(pieces, NotBlank(isSpace), f);
    }
    Filter(pieces, NotBlank(isSpace))
  }

  /**
   * `extractiveSummary(from:)`: a text with at most one sentence is returned
   * as it is; otherwise its first three sentences (or two) are joined with
   * ". " and closed with ".".
   */
  function ExtractiveSummary(text: string, isSpace: char -> bool): (summary: string)
    ensures |Sentences(text, isSpace)| <= 1 ==> summary == text
    ensures |Sentences(text, isSpace)| > 1 ==> |summary| > 0 && summary[|summary| - 1] == '.'
  {
    var sentences := Sentences(text, isSpace);
    if |sentences| <= 1 then text
    else Join(sentences[..Min(3, |sentences|)], ". ") + "."
  }

  /**
   * Cutting the summary into sentences again gives the sentences it kept: the
   * first as it was, the others behind the space the ". " separator leaves.
   * So a summary has min(3, n) sentences, where n is the text's count.
   */
  lemma {:induction false} SummaryKeepsLeadingSentences(text: string, isSpace: char -> bool)
    ensures var s := Sentences(text, isSpace);
      Sentences(ExtractiveSummary(text, isSpace), isSpace) ==
        if |s| <= 1 then s else [s[0]] + PrefixEach(" ", s[1..Min(3, |s|)])
    ensures |Sentences(ExtractiveSummary(text, isSpace), isSpace)| == Min(3, |Sentences(text, isSpace)|)
    ensures var summary := ExtractiveSummary(text, isSpace);
      |Sentences(text, isSpace)| > 1 ==> summary == Join(Sentences(summary, isSpace), ".") + "."
  {
    var s := Sentences(text, isSpace);
    if |s| > 1 {
      var ps := s[..Min(3, |s|)];
      ResplitJoinedSentences(ps, isSpace);
      assert ps[1..] == s[1..Min(3, |s|)];
      JoinDotSpace(ps);
    }
  }

  /** Joining with ". " is joining with "." after putting a space in front of every sentence but the first. */
  lemma {:induction false} JoinDotSpace(ps: seq<string>)
    requires |ps| >= 1
    ensures Join(ps, ". ") == Join([ps[0]] + PrefixEach(" ", ps[1..]), ".")
  {
    if |ps| > 1 {
      var qs := ps[1..];
      var a := Join(qs, ". ");
      var k := [ps[0]] + PrefixEach(" ", qs);
      assert Join(ps, ". ") == ps[0] + ". " + a;
      assert k[0] == ps[0] && k[1..] == PrefixEach(" ", qs);
      assert Join(k, ".") == ps[0] + "." + Join(PrefixEach(" ", qs), ".");
      SpaceBeforeJoin(qs);
      assert ps[0] + ". " + a == ps[0] + "." + (" " + a);
    }
  }

  /** A space in front of a ". "-joined list is a space in front of each part, joined with ".". */
  lemma {:induction false} SpaceBeforeJoin(qs: seq<string>)
    requires |qs| >= 1
    ensures " " + Join(qs, ". ") == Join(PrefixEach(" ", qs), ".")
    decreases |qs|
  {
    if |qs| > 1 {
      var a := Join(qs[1..], ". ");
      var k := PrefixEach(" ", qs);
      assert Join(qs, ". ") == qs[0] + ". " + a;
      assert k[0] == " " + qs[0] && k[1..] == PrefixEach(" ", qs[1..]);
      assert Join(k, ".") == k[0] + "." + Join(k[1..], ".");
      SpaceBeforeJoin(qs[1..]);
      assert " " + (qs[0] + ". " + a) == (" " + qs[0]) + "." + (" " + a);
    }
  }

  /** Sentences joined the way the summary joins them come apart into the same sentences. */
  lemma {:induction false} ResplitJoinedSentences(ps: seq<string>, isSpace: char -> bool)
    requires |ps| >= 1
    requires forall p :: p in ps ==> NoSep(p, IsSentenceEnd) && !IsBlank(p, isSpace)
    ensures Sentences(Join(ps, ". ") + ".", isSpace) == [ps[0]] + PrefixEach(" ", ps[1..])
  {
    var kept := [ps[0]] + PrefixEach(" ", ps[1..]);
    JoinedSentencePieces(ps);
    FilterAppend(kept, [[]], NotBlank(isSpace));
    assert Filter([[]], NotBlank(isSpace)) == [];
    forall x | x in kept ensures NotBlank(isSpace)(x) {
      if x != ps[0] {
        var i :| 0 <= i < |ps| - 1 && PrefixEach(" ", ps[1..])[i] == x;
        assert ps[1..][i] in ps;
        NotBlankAfterPrefix(" ", ps[1..][i], isSpace);
      }
    }
    FilterAll(kept, NotBlank(isSpace));
  }

  /** The pieces of a joined summary: the sentences, then the empty piece after the final ".". */
  lemma {:induction false} JoinedSentencePieces(ps: seq<string>)
    requires |ps| >= 1
    requires forall p :: p in ps ==> NoSep(p, IsSentenceEnd)
    ensures Components(Join(ps, ". ") + ".", IsSentenceEnd) == [ps[0]] + PrefixEach(" ", ps[1..]) + [[]]
  {
    var joined := Join(ps, ". ");
    assert ". " == ['.'] + " ";
    assert NoSep(" ", IsSentenceEnd);
    JoinComponents([], ps, '.', " ", IsSentenceEnd);
    assert [] + joined == joined;
    assert [] + ps[0] == ps[0];
    assert joined + "." == joined + ['.'] + [];
    ComponentsAtSeparator(joined, '.', [], IsSentenceEnd);
  }

  // ---------------------------------------------------------------------------
  // Keywords
  // ---------------------------------------------------------------------------

  /** The characters that break words: everything outside the alphanumerics. */
  function WordBreaks(cc: CharClasses): char -> bool
  {
    c => !cc.isAlnum(c)
  }

  /**
   * The keyword candidates: the lowercased text cut at every non-alphanumeric
   * character, keeping the pieces longer than two characters, repeats included.
   */
  function KeywordCandidates(text: string, cc: CharClasses): (words: seq<string>)
    ensures forall i :: 0 <= i < |words| ==>
      |words[i]| > 2 && words[i] in Components(Lowercased(text, cc.lower), WordBreaks(cc))
    ensures forall i, j :: 0 <= i < |words| && 0 <= j < |words[i]| ==> cc.isAlnum(words[i][j])
    ensures forall w :: |w| > 2 ==>
      multiset(words)[w] == multiset(Components(Lowercased(text, cc.lower), WordBreaks(cc)))[w]
  {
    var pieces := Components(Lowercased(text, cc.lower), WordBreaks(cc));
    var words := Filter(pieces, (w: string) => |w| > 2);
    ComponentsShape(Lowercased(text, cc.lower), WordBreaks(cc));
    forall w | |w| > 2 ensures multiset(words)[w] == multiset(pieces)[w] {
      FilterMultiplicity(pieces, (w: string) => |w| > 2, w);
    }
    assert forall i :: 0 <= i < |words| ==> words[i] in pieces && NoSep(words[i], WordBreaks(cc));
    words
  }

  /** How often `w` occurs among the candidates: the count the grouping dictionary holds for it. */
  function Frequency(words: seq<string>, w: string): nat
  {
    multiset(words)[w]
  }

  /** The keys of the grouping dictionary: each candidate once, in order of first occurrence. */
  function DistinctWords(words: seq<string>): (r: seq<string>)
    ensures Distinct(r)
    ensures forall w :: w in r <==> w in words
  {
    if words == [] then []
    else
      var front := words[..|words| - 1];
      var last := words[|words| - 1];
      assert words == front + [last];
      var d := DistinctWords(front);
      if last in d then d else d + [last]
  }

  /** The position of a most frequent candidate (the first one, among equals). */
  function MostFrequent(cands: seq<string>, words: seq<string>): (m: nat)
    requires cands != []
    ensures m < |cands|
    ensures forall i :: 0 <= i < |cands| ==> Frequency(words, cands[i]) <= Frequency(words, cands[m])
  {
    if |cands| == 1 then 0
    else
      var rest := MostFrequent(cands[1..], words);
      if Frequency(words, cands[0]) >= Frequency(words, cands[rest + 1]) then 0 else rest + 1
  }

  /** `s` with the element at `m` taken out. */
  function Without(s: seq<string>, m: nat): (r: seq<string>)
    requires m < |s| && Distinct(s)
    ensures |r| == |s| - 1 && Distinct(r)
    ensures forall x :: x in r <==> x in s && x != s[m]
  {
    var r := s[..m] + s[m + 1..];
    assert forall i :: 0 <= i < |r| ==> r[i] == if i < m then s[i] else s[i + 1];
    r
  }

  /**
   * `r` lists the `k` most frequent of the distinct `cands` (all of them when
   * there are fewer), most frequent first: no candidate left out is more
   * frequent than one taken.
   */
  ghost predicate IsTop(r: seq<string>, cands: seq<string>, words: seq<string>, k: nat)
  {
    && |r| == Min(k, |cands|)
    && Distinct(r)
    && (forall i :: 0 <= i < |r| ==> r[i] in cands)
    && (forall i, j :: 0 <= i < j < |r| ==> Frequency(words, r[i]) >= Frequency(words, r[j]))
    && (forall w, i :: w in cands && w !in r && 0 <= i < |r| ==> Frequency(words, w) <= Frequency(words, r[i]))
  }

  /**
   * The `k` most frequent candidates, most frequent first: what sorting the
   * dictionary by count and taking a prefix gives, up to the order of equal counts.
   */
  function TopByFrequency(cands: seq<string>, words: seq<string>, k: nat): (r: seq<string>)
    requires Distinct(cands)
    ensures IsTop(r, cands, words, k)
    decreases k
  {
    if k == 0 || cands == [] then []
    else
      var m := MostFrequent(cands, words);
      var rest := TopByFrequency(Without(cands, m), words, k - 1);
      TopStep(cands, words, k, m, rest);
      [cands[m]] + rest
  }

  /** Taking a most frequent candidate first, then the top `k - 1` of the others, gives the top `k`. */
  lemma TopStep(cands: seq<string>, words: seq<string>, k: nat, m: nat, rest: seq<string>)
    requires Distinct(cands) && k >= 1 && m < |cands|
    requires forall i :: 0 <= i < |cands| ==> Frequency(words, cands[i]) <= Frequency(words, cands[m])
    requires IsTop(rest, Without(cands, m), words, k - 1)
    ensures IsTop([cands[m]] + rest, cands, words, k)
  {
    var rem := Without(cands, m);
    TopStepTaken(cands, words, m, rem, rest);
    TopStepLeftOut(cands, words, m, rem, rest);
  }

  /** The taken part of `TopStep`: members of `cands`, no repeats, most frequent first. */
  lemma TopStepTaken(cands: seq<string>, words: seq<string>, m: nat, rem: seq<string>, rest: seq<string>)
    requires m < |cands|
    requires forall i :: 0 <= i < |cands| ==> Frequency(words, cands[i]) <= Frequency(words, cands[m])
    requires forall x :: x in rem <==> x in cands && x != cands[m]
    requires Distinct(rest) && forall i :: 0 <= i < |rest| ==> rest[i] in rem
    requires forall i, j :: 0 <= i < j < |rest| ==> Frequency(words, rest[i]) >= Frequency(words, rest[j])
    ensures var r := [cands[m]] + rest;
      && Distinct(r)
      && (forall i :: 0 <= i < |r| ==> r[i] in cands)
      && (forall i, j :: 0 <= i < j < |r| ==> Frequency(words, r[i]) >= Frequency(words, r[j]))
  {
    var c := cands[m];
    var r := [c] + rest;
    forall i | 0 <= i < |r| ensures r[i] in cands && Frequency(words, r[i]) <= Frequency(words, c) {
      if i > 0 {
        assert r[i] == rest[i - 1] && rest[i - 1] in rem;
      }
    }
    forall i, j | 0 <= i < j < |r| ensures r[i] != r[j] {
      assert r[j] == rest[j - 1] && rest[j - 1] in rem;
      if i > 0 {
        assert r[i] == rest[i - 1];
      }
    }
    forall i, j | 0 <= i < j < |r| ensures Frequency(words, r[i]) >= Frequency(words, r[j]) {
      if i > 0 {
        assert r[i] == rest[i - 1] && r[j] == rest[j - 1];
      }
    }
  }

  /** The left-out part of `TopStep`: no candidate outside the result beats one inside. */
  lemma TopStepLeftOut(cands: seq<string>, words: seq<string>, m: nat, rem: seq<string>, rest: seq<string>)
    requires m < |cands|
    requires forall i :: 0 <= i < |cands| ==> Frequency(words, cands[i]) <= Frequency(words, cands[m])
    requires forall x :: x in rem <==> x in cands && x != cands[m]
    requires forall w, i :: w in rem && w !in rest && 0 <= i < |rest| ==> Frequency(words, w) <= Frequency(words, rest[i])
    ensures var r := [cands[m]] + rest;
      forall w, i :: w in cands && w !in r && 0 <= i < |r| ==> Frequency(words, w) <= Frequency(words, r[i])
  {
    var r := [cands[m]] + rest;
    forall w, i | w in cands && w !in r && 0 <= i < |r| ensures Frequency(words, w) <= Frequency(words, r[i]) {
      assert w in rem && w !in rest;
      if i > 0 {
        assert r[i] == rest[i - 1];
      }
    }
  }

  /**
   * What the keyword list promises, whatever order equal counts come in: at
   * most `limit` distinct candidates, most frequent first; every candidate left
   * out is no more frequent than any that is in; with fewer than `limit`, none
   * is left out.
   */
  ghost predicate IsFrequencyRanking(r: seq<string>, words: seq<string>, limit: nat)
  {
    && |r| <= limit
    && Distinct(r)
    && (forall i :: 0 <= i < |r| ==> r[i] in words)
    && (forall i, j :: 0 <= i < j < |r| ==> Frequency(words, r[i]) >= Frequency(words, r[j]))
    && (forall w, i :: w in words && w !in r && 0 <= i < |r| ==> Frequency(words, w) <= Frequency(words, r[i]))
    && (|r| < limit ==> forall w :: w in words ==> w in r)
  }

  /** `extractKeywordsSimple(from:)`: the five most frequent candidates. */
  function ExtractKeywordsSimple(text: string, cc: CharClasses): (keywords: seq<string>)
    ensures IsFrequencyRanking(keywords, KeywordCandidates(text, cc), 5)
  {
    var words := KeywordCandidates(text, cc);
    var keywords := TopByFrequency(DistinctWords(words), words, 5);
    TopOfDistinctIsRanking(keywords, words, 5);
    keywords
  }

  /** The top of the distinct candidates is a frequency ranking of the candidates. */
  lemma TopOfDistinctIsRanking(r: seq<string>, words: seq<string>, limit: nat)
    requires IsTop(r, DistinctWords(words), words, limit)
    ensures IsFrequencyRanking(r, words, limit)
  {
    var d := DistinctWords(words);
    if |r| < limit {
      assert |r| == |d|;
      forall w | w in words ensures w in r {
        if w !in r {
          assert w in d;
          DistinctSubsetIsAll(r, d, w);
        }
      }
    }
  }

  /** A repeat-free list inside another of the same length cannot miss any of its elements. */
  lemma DistinctSubsetIsAll(r: seq<string>, d: seq<string>, w: string)
    requires Distinct(r) && Distinct(d) && |r| == |d|
    requires forall i :: 0 <= i < |r| ==> r[i] in d
    requires w in d
    ensures w in r
  {
    if w !in r {
      var sr := set x | x in r;
      var sd := set x | x in d;
      assert sr <= sd - {w};
      DistinctCard(r);
      DistinctCard(d);
      SubsetCard(sr, sd - {w});
    }
  }

  /** A subset is no larger than the set that holds it. */
  lemma {:induction false} SubsetCard(a: set<string>, b: set<string>)
    requires a <= b
    ensures |a| <= |b|
    decreases a
  {
    if a != {} {
      var x :| x in a;
      SubsetCard(a - {x}, b - {x});
    }
  }

  /** A repeat-free list has as many elements as its set. */
  lemma {:induction false} DistinctCard(s: seq<string>)
    requires Distinct(s)
    ensures |set x | x in s| == |s|
  {
    if s != [] {
      DistinctCard(s[1..]);
      assert (set x | x in s) == (set x | x in s[1..]) + {s[0]};
      assert s[0] !in s[1..];
    }
  }

  // ---------------------------------------------------------------------------
  // Category
  // ---------------------------------------------------------------------------

  /**
   * The words that put a text in a category: the category's own (Korean)
   * name and its English name. The two remaining categories have none.
   */
  function CategoryKeywords(c: NoteCategory): seq<string>
  {
    match c
    case Meeting => ["회의", "meeting"]
    case Lecture => ["강의", "lecture"]
    case Interview => ["인터뷰", "interview"]
    case _ => []
  }

  /** The order in which categories are tried. */
  const CategoryPriority: seq<NoteCategory> := [Meeting, Lecture, Interview]

  predicate Mentions(lowered: string, c: NoteCategory)
  {
    exists k :: k in CategoryKeywords(c) && Contains(lowered, k)
  }

  /** The first category in `order` whose keywords occur in `lowered`; General when none does. */
  function FirstMentioned(lowered: string, order: seq<NoteCategory>): NoteCategory
  {
    if order == [] then General
    else if Mentions(lowered, order[0]) then order[0]
    else FirstMentioned(lowered, order[1..])
  }

  /** `categorizeNoteSimple(from:)`: the first category by priority that the lowercased text mentions. */
  function CategorizeNoteSimple(text: string, lower: char -> char): (c: NoteCategory)
    ensures c == FirstMentioned(Lowercased(text, lower), CategoryPriority)
    ensures c != Personal
  {
    var t := Lowercased(text, lower);
    CategoryPriorityOrder(t);
    MentionsByKeyword(t);
    if Contains(t, "회의") || Contains(t, "meeting") then Meeting
    else if Contains(t, "강의") || Contains(t, "lecture") then Lecture
    else if Contains(t, "인터뷰") || Contains(t, "interview") then Interview
    else General
  }

  /** A category is mentioned exactly when one of its two keywords occurs. */
  lemma MentionsByKeyword(t: string)
    ensures Mentions(t, Meeting) <==> Contains(t, "회의") || Contains(t, "meeting")
    ensures Mentions(t, Lecture) <==> Contains(t, "강의") || Contains(t, "lecture")
    ensures Mentions(t, Interview) <==> Contains(t, "인터뷰") || Contains(t, "interview")
  {
    assert "회의" in CategoryKeywords(Meeting) && "meeting" in CategoryKeywords(Meeting);
    assert "강의" in CategoryKeywords(Lecture) && "lecture" in CategoryKeywords(Lecture);
    assert "인터뷰" in CategoryKeywords(Interview) && "interview" in CategoryKeywords(Interview);
  }

  /**
   * Priority, spelled out: a text that mentions a meeting is a meeting note
   * whatever else it mentions; lecture beats interview; a text that mentions
   * none of the three is general.
   */
  lemma {:induction false} CategoryPriorityOrder(t: string)
    ensures FirstMentioned(t, CategoryPriority) ==
      if Mentions(t, Meeting) then Meeting
      else if Mentions(t, Lecture) then Lecture
      else if Mentions(t, Interview) then Interview
      else General
  {
    var p := CategoryPriority;
    assert p[0] == Meeting && p[1..] == [Lecture, Interview];
    assert [Lecture, Interview][1..] == [Interview];
    assert [Interview][1..] == [];
    assert FirstMentioned(t, [Interview]) == if Mentions(t, Interview) then Interview else General;
    assert FirstMentioned(t, [Lecture, Interview]) ==
      if Mentions(t, Lecture) then Lecture else FirstMentioned(t, [Interview]);
  }

  // ---------------------------------------------------------------------------
  // The service's public (async) entry points
  // ---------------------------------------------------------------------------

  /** `generateSummary(from:)`. */
  function GenerateSummary(text: string, cc: CharClasses): (summary: string)
    ensures summary == ExtractiveSummary(text, cc.isSpace)
    ensures |Sentences(summary, cc.isSpace)| == Min(3, |Sentences(text, cc.isSpace)|)
  {
    SummaryKeepsLeadingSentences(text, cc.isSpace);
    ExtractiveSummary(text, cc.isSpace)
  }

  /** `extractKeywords(from:)`. */
  function ExtractKeywords(text: string, cc: CharClasses): (keywords: seq<string>)
    ensures keywords == ExtractKeywordsSimple(text, cc)
    ensures |keywords| <= 5 && Distinct(keywords)
  {
    ExtractKeywordsSimple(text, cc)
  }

  /** `categorizeNote(from:)`. */
  function CategorizeNote(text: string, cc: CharClasses): (category: NoteCategory)
    ensures category == CategorizeNoteSimple(text, cc.lower)
    ensures category != Personal
  {
    CategorizeNoteSimple(text, cc.lower)
  }

  /** The `NoteSummarizationProviding` interface: the three analyses a note is built from. */
  datatype Summarizer = Summarizer(
    generateSummary: string -> string,
    extractKeywords: string -> seq<string>,
    categorizeNote: string -> NoteCategory)

  /** `NoteSummarizationService()` as a collaborator. */
  function Service(cc: CharClasses): (s: Summarizer)
    ensures forall t :: s.categorizeNote(t) != Personal
    ensures forall t :: |s.extractKeywords(t)| <= 5 && Distinct(s.extractKeywords(t))
  {
    Summarizer(t => GenerateSummary(t, cc), t => ExtractKeywords(t, cc), t => CategorizeNote(t, cc))
  }
}
