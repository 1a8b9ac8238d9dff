/**
 * The Foundation string operations the app's logic is built from:
 * `components(separatedBy:)`, `joined(separator:)`, `filter`, whitespace
 * splitting and substring search. Characters are classified through an
 * abstract `CharClasses` value standing for the locale's character sets.
 */
module TextOps {

  /** The character sets and case mapping Foundation consults. */
  datatype CharClasses = CharClasses(
    isSpace: char -> bool,  // CharacterSet.whitespacesAndNewlines
    isAlnum: char -> bool,  // CharacterSet.alphanumerics
    lower: char -> char)    // String.lowercased(), one character at a time

  // ---------------------------------------------------------------------------
  // Filtering (Swift's `filter`)
  // ---------------------------------------------------------------------------

  /** The elements of `s` that satisfy `p`, in their original order. */
  function Filter<T>(s: seq<T>, p: T -> bool): (r: seq<T>)
    ensures |r| <= |s|
    ensures forall i :: 0 <= i < |r| ==> r[i] in s && p(r[i])
    ensures forall i :: 0 <= i < |s| && p(s[i]) ==> s[i] in r
  {
    if s == [] then [] else (if p(s[0]) then [s[0]] else []) + Filter(s[1..], p)
  }

  /** `sub` is `s` with some elements deleted, order kept. */
  predicate IsSubsequence<T(==)>(sub: seq<T>, s: seq<T>)
  {
    if sub == [] then true
    else if s == [] then false
    else (sub[0] == s[0] && IsSubsequence(sub[1..], s[1..])) || IsSubsequence(sub, s[1..])
  }

  lemma {:induction false} FilterIsSubsequence<T>(s: seq<T>, p: T -> bool)
    ensures IsSubsequence(Filter(s, p), s)
  {
    if s != [] {
      FilterIsSubsequence(s[1..], p);
      var rest := Filter(s[1..], p);
      if p(s[0]) {
        assert Filter(s, p) == [s[0]] + rest;
        assert ([s[0]] + rest)[1..] == rest;
      } else {
        assert Filter(s, p) == rest;
        SubsequenceOfTail(rest, s);
      }
    }
  }

  lemma {:induction false} SubsequenceOfTail<T>(sub: seq<T>, s: seq<T>)
    requires s != [] && IsSubsequence(sub, s[1..])
    ensures IsSubsequence(sub, s)
  {
  }

  /** Filtering keeps every occurrence of an element it accepts and none of one it rejects. */
  lemma {:induction false} FilterMultiplicity<T>(s: seq<T>, p: T -> bool, x: T)
    ensures multiset(Filter(s, p))[x] == if p(x) then multiset(s)[x] else 0
  {
    if s != [] {
      FilterMultiplicity(s[1..], p, x);
      var head := if p(s[0]) then [s[0]] else [];
      assert Filter(s, p) == head + Filter(s[1..], p);
      assert multiset(Filter(s, p)) == multiset(head) + multiset(Filter(s[1..], p));
      assert s == [s[0]] + s[1..];
      assert multiset(s) == multiset([s[0]]) + multiset(s[1..]);
    }
  }

  lemma {:induction false} FilterAppend<T>(a: seq<T>, b: seq<T>, p: T -> bool)
    ensures Filter(a + b, p) == Filter(a, p) + Filter(b, p)
  {
    if a != [] {
      assert (a + b)[0] == a[0];
      assert (a + b)[1..] == a[1..] + b;
      FilterAppend(a[1..], b, p);
      var head := if p(a[0]) then [a[0]] else [];
      assert Filter(a + b, p) == head + Filter(a[1..] + b, p);
      assert Filter(a, p) == head + Filter(a[1..], p);
    } else {
      assert a + b == b;
    }
  }

  /** Filtering by `p` and then by `q` is filtering once by their conjunction. */
  lemma {:induction false} FilterTwice<T>(s: seq<T>, p: T -> bool, q: T -> bool, pq: T -> bool)
    requires forall x :: pq(x) == (p(x) && q(x))
    ensures Filter(Filter(s, p), q) == Filter(s, pq)
  {
    if s != [] {
      FilterTwice(s[1..], p, q, pq);
      var rest := Filter(s[1..], p);
      if p(s[0]) {
        assert Filter(s, p) == [s[0]] + rest;
        FilterAppend([s[0]], rest, q);
        assert [s[0]][1..] == [];
      } else {
        assert Filter(s, p) == rest;
        assert Filter(s, pq) == Filter(s[1..], pq);
      }
    }
  }

  lemma {:induction false} FilterAll<T>(s: seq<T>, p: T -> bool)
    requires forall x :: x in s ==> p(x)
    ensures Filter(s, p) == s
  {
    if s != [] {
      FilterAll(s[1..], p);
    }
  }

  // ---------------------------------------------------------------------------
  // Splitting (`components(separatedBy:)` with a character set)
  // ---------------------------------------------------------------------------

  /** No character of `s` is a separator. */
  predicate NoSep(s: string, sep: char -> bool)
  {
    forall i :: 0 <= i < |s| ==> !sep(s[i])
  }

  /** The separator characters of `s`, in order. */
  function Separators(s: string, sep: char -> bool): string
  {
    Filter(s, sep)
  }

  /**
   * `s.components(separatedBy: set)`: the pieces between separator characters,
   * one more piece than there are separators, empty pieces included.
   */
  function Components(s: string, sep: char -> bool): (r: seq<string>)
    ensures |r| >= 1
  {
    if s == [] then [[]]
    else
      var rest := Components(s[1..], sep);
      if sep(s[0]) then [[]] + rest else [[s[0]] + rest[0]] + rest[1..]
  }

  /** There is one piece more than there are separators, and no piece holds a separator. */
  lemma {:induction false} ComponentsShape(s: string, sep: char -> bool)
    ensures |Components(s, sep)| == |Separators(s, sep)| + 1
    ensures forall c :: c in Components(s, sep) ==> NoSep(c, sep)
  {
    if s != [] {
      ComponentsShape(s[1..], sep);
      var rest := Components(s[1..], sep);
      assert rest[0] in rest;
      if sep(s[0]) {
        assert Separators(s, sep) == [s[0]] + Separators(s[1..], sep);
      } else {
        assert Separators(s, sep) == Separators(s[1..], sep);
        assert NoSep([s[0]] + rest[0], sep);
      }
    }
  }

  /** The pieces put back together with the separators they were cut at. */
  function Interleave(parts: seq<string>, seps: string): string
  {
    if parts == [] then []
    else if seps == [] then parts[0]
    else parts[0] + [seps[0]] + Interleave(parts[1..], seps[1..])
  }

  /** Splitting loses nothing: the pieces and the separators rebuild the string. */
  lemma {:induction false} ComponentsRoundTrip(s: string, sep: char -> bool)
    ensures Interleave(Components(s, sep), Separators(s, sep)) == s
  {
    if s != [] {
      var t := s[1..];
      ComponentsRoundTrip(t, sep);
      assert s == [s[0]] + t;
      if sep(s[0]) {
        ComponentsConsSep(s[0], t, sep);
        assert Separators(s, sep) == [s[0]] + Separators(t, sep);
        InterleaveSepStep(s[0], Components(t, sep), Separators(t, sep));
      } else {
        ComponentsConsWord(s[0], t, sep);
        assert Separators(s, sep) == Separators(t, sep);
        InterleaveWordStep(s[0], Components(t, sep), Separators(t, sep));
      }
    }
  }

  /** Interleaving behind a leading empty piece and separator `x`. */
  lemma InterleaveSepStep(x: char, rest: seq<string>, seps: string)
    ensures Interleave([[]] + rest, [x] + seps) == [x] + Interleave(rest, seps)
  {
    var parts := [[]] + rest;
    assert parts[0] == [] && parts[1..] == rest;
    assert ([x] + seps)[0] == x && ([x] + seps)[1..] == seps;
  }

  /** Interleaving with `x` put in front of the first piece. */
  lemma InterleaveWordStep(x: char, rest: seq<string>, seps: string)
    requires rest != []
    ensures Interleave([[x] + rest[0]] + rest[1..], seps) == [x] + Interleave(rest, seps)
  {
    var parts := [[x] + rest[0]] + rest[1..];
    assert parts[0] == [x] + rest[0] && parts[1..] == rest[1..];
  }

  /** A string with no separator is a single piece. */
  lemma {:induction false} ComponentsOfSepFree(s: string, sep: char -> bool)
    requires NoSep(s, sep)
    ensures Components(s, sep) == [s]
  {
    if s != [] {
      ComponentsOfSepFree(s[1..], sep);
      assert [s[0]] + s[1..] == s;
    }
  }

  /** Cutting at one separator splits the pieces into those before and after it. */
  lemma {:induction false} ComponentsAtSeparator(a: string, c: char, b: string, sep: char -> bool)
    requires sep(c)
    ensures Components(a + [c] + b, sep) == Components(a, sep) + Components(b, sep)
  {
    if a == [] {
      assert a + [c] + b == [c] + b;
      assert ([c] + b)[1..] == b;
    } else {
      ComponentsAtSeparator(a[1..], c, b, sep);
      if sep(a[0]) {
        SeparatorFirstStep(a, c, b, sep);
      } else {
        WordFirstStep(a, c, b, sep);
      }
    }
  }

  /** One step of `Components` at a separator: it starts a new, empty piece. */
  lemma ComponentsConsSep(x: char, t: string, sep: char -> bool)
    requires sep(x)
    ensures Components([x] + t, sep) == [[]] + Components(t, sep)
  {
    assert ([x] + t)[0] == x && ([x] + t)[1..] == t;
  }

  /** One step of `Components` at any other character: it joins the first piece. */
  lemma ComponentsConsWord(x: char, t: string, sep: char -> bool)
    requires !sep(x)
    ensures var rest := Components(t, sep);
      Components([x] + t, sep) == [[x] + rest[0]] + rest[1..]
  {
    assert ([x] + t)[0] == x && ([x] + t)[1..] == t;
  }

  /** The step of ComponentsAtSeparator when `a` starts with a separator. */
  lemma {:induction false} SeparatorFirstStep(a: string, c: char, b: string, sep: char -> bool)
    requires a != [] && sep(a[0])
    requires Components(a[1..] + [c] + b, sep) == Components(a[1..], sep) + Components(b, sep)
    ensures Components(a + [c] + b, sep) == Components(a, sep) + Components(b, sep)
  {
    var tail, cb := Components(a[1..], sep), Components(b, sep);
    var t := a[1..] + [c] + b;
    assert a + [c] + b == [a[0]] + t;
    ComponentsConsSep(a[0], t, sep);
    assert a == [a[0]] + a[1..];
    ComponentsConsSep(a[0], a[1..], sep);
    ConsAssoc([], tail, cb);
  }

  /** The step of ComponentsAtSeparator when `a` starts with a non-separator. */
  lemma {:induction false} WordFirstStep(a: string, c: char, b: string, sep: char -> bool)
    requires a != [] && !sep(a[0])
    requires Components(a[1..] + [c] + b, sep) == Components(a[1..], sep) + Components(b, sep)
    ensures Components(a + [c] + b, sep) == Components(a, sep) + Components(b, sep)
  {
    var tail, cb := Components(a[1..], sep), Components(b, sep);
    var t := a[1..] + [c] + b;
    var rs := Components(t, sep);
    assert a + [c] + b == [a[0]] + t;
    ComponentsConsWord(a[0], t, sep);
    assert a == [a[0]] + a[1..];
    ComponentsConsWord(a[0], a[1..], sep);
    DropFirstOfAppend(tail, cb);
    assert rs[0] == tail[0] && rs[1..] == tail[1..] + cb;
    ConsAssoc([a[0]] + tail[0], tail[1..], cb);
  }

  lemma ConsAssoc<T>(x: T, y: seq<T>, z: seq<T>)
    ensures [x] + (y + z) == ([x] + y) + z
  {
  }

  lemma DropFirstOfAppend<T>(x: seq<T>, y: seq<T>)
    requires x != []
    ensures (x + y)[0] == x[0] && (x + y)[1..] == x[1..] + y
  {
  }

  // ---------------------------------------------------------------------------
  // Joining (`joined(separator:)`)
  // ---------------------------------------------------------------------------

  /** The summed lengths of `parts`. */
  function TotalLength(parts: seq<string>): nat
  {
    if parts == [] then 0 else |parts[0]| + TotalLength(parts[1..])
  }

  /** `parts.joined(separator: sep)`: the parts in order with `sep` between neighbours. */
  function Join(parts: seq<string>, sep: string): (r: string)
    ensures parts != [] ==> |r| == TotalLength(parts) + (|parts| - 1) * |sep|
  {
    if parts == [] then []
    else if |parts| == 1 then parts[0]
    else parts[0] + sep + Join(parts[1..], sep)
  }

  /** Each part with `head` put in front of it. */
  function PrefixEach(head: string, parts: seq<string>): (r: seq<string>)
    ensures |r| == |parts|
    ensures forall i :: 0 <= i < |r| ==> r[i] == head + parts[i]
  {
    if parts == [] then [] else [head + parts[0]] + PrefixEach(head, parts[1..])
  }

  lemma {:induction false} PrefixEachEmpty(parts: seq<string>)
    ensures PrefixEach([], parts) == parts
  {
    if parts != [] {
      PrefixEachEmpty(parts[1..]);
      assert [] + parts[0] == parts[0];
    }
  }

  /**
   * Splitting `q + Join(ps, [c] + tail)` at `c` gives back the parts, the first
   * with `q` in front and the others with the separator's `tail` in front.
   */
  lemma {:induction false} JoinComponents(q: string, ps: seq<string>, c: char, tail: string, sep: char -> bool)
    requires sep(c) && NoSep(q, sep) && NoSep(tail, sep)
    requires |ps| >= 1 && forall p :: p in ps ==> NoSep(p, sep)
    ensures Components(q + Join(ps, [c] + tail), sep) == [q + ps[0]] + PrefixEach(tail, ps[1..])
    decreases |ps|
  {
    assert ps[0] in ps;
    NoSepAppend(q, ps[0], sep);
    if |ps| == 1 {
      ComponentsOfSepFree(q + ps[0], sep);
    } else {
      var rest := Join(ps[1..], [c] + tail);
      assert q + Join(ps, [c] + tail) == (q + ps[0]) + [c] + (tail + rest);
      ComponentsAtSeparator(q + ps[0], c, tail + rest, sep);
      ComponentsOfSepFree(q + ps[0], sep);
      forall p | p in ps[1..] ensures NoSep(p, sep) {
        assert p in ps;
      }
      JoinComponents(tail, ps[1..], c, tail, sep);
      assert ps[1..][1..] == ps[2..];
    }
  }

  lemma NoSepAppend(a: string, b: string, sep: char -> bool)
    ensures NoSep(a + b, sep) <==> NoSep(a, sep) && NoSep(b, sep)
  {
    if NoSep(a, sep) && NoSep(b, sep) {
      forall i | 0 <= i < |a + b| ensures !sep((a + b)[i]) {
        if i < |a| { assert (a + b)[i] == a[i]; } else { assert (a + b)[i] == b[i - |a|]; }
      }
    }
    if NoSep(a + b, sep) {
      forall i | 0 <= i < |b| ensures !sep(b[i]) {
        assert (a + b)[|a| + i] == b[i];
      }
      forall i | 0 <= i < |a| ensures !sep(a[i]) {
        assert (a + b)[i] == a[i];
      }
    }
  }

  /** Appending to the joined string appends to its last part. */
  lemma {:induction false} JoinAppendLast(ps: seq<string>, sep: string, suffix: string)
    requires |ps| >= 1
    ensures Join(ps, sep) + suffix == Join(ps[..|ps| - 1] + [ps[|ps| - 1] + suffix], sep)
  {
    var qs := ps[..|ps| - 1] + [ps[|ps| - 1] + suffix];
    if |ps| > 1 {
      JoinAppendLast(ps[1..], sep, suffix);
      assert qs[0] == ps[0];
      assert qs[1..] == ps[1..][..|ps| - 2] + [ps[|ps| - 1] + suffix];
    }
  }

  // ---------------------------------------------------------------------------
  // Whitespace runs
  // ---------------------------------------------------------------------------

  predicate NonEmpty(s: string)
  {
    s != []
  }

  /** Every character of `s` is whitespace (so trimming whitespace empties it). */
  predicate IsBlank(s: string, isSpace: char -> bool)
  {
    forall i :: 0 <= i < |s| ==> isSpace(s[i])
  }

  /** Putting characters in front of a string that is not blank leaves it not blank. */
  lemma NotBlankAfterPrefix(head: string, s: string, isSpace: char -> bool)
    requires !IsBlank(s, isSpace)
    ensures !IsBlank(head + s, isSpace)
  {
    var i :| 0 <= i < |s| && !isSpace(s[i]);
    assert (head + s)[|head| + i] == s[i];
  }

  /**
   * The non-empty pieces between whitespace: both
   * `components(separatedBy: .whitespacesAndNewlines).filter { !$0.isEmpty }`
   * and `split(whereSeparator:)` compute this.
   */
  function Words(s: string, isSpace: char -> bool): (r: seq<string>)
    ensures forall w :: w in r ==> w != [] && NoSep(w, isSpace)
    ensures IsSubsequence(r, Components(s, isSpace))
    ensures forall w :: w != [] ==> multiset(r)[w] == multiset(Components(s, isSpace))[w]
  {
    var comps := Components(s, isSpace);
    ComponentsShape(s, isSpace);
    var r := Filter(comps, NonEmpty);
    FilterIsSubsequence(comps, NonEmpty);
    forall w | w != [] ensures multiset(r)[w] == multiset(comps)[w] {
      FilterMultiplicity(comps, NonEmpty, w);
    }
    assert forall w :: w in r ==> w in comps && w != [] by {
      forall w | w in r ensures w in comps && w != [] {
        var i :| 0 <= i < |r| && r[i] == w;
      }
    }
    r
  }

  /**
   * The number of maximal runs of non-whitespace characters, counted by their
   * last characters: a non-space followed by a space or by the end.
   */
  function RunCount(s: string, isSpace: char -> bool): (n: nat)
    ensures n <= |s|
  {
    if s == [] then 0
    else RunCount(s[1..], isSpace) + (if !isSpace(s[0]) && (|s| == 1 || isSpace(s[1])) then 1 else 0)
  }

  /** The words are exactly the maximal non-whitespace runs. */
  lemma {:induction false} WordsAreRuns(s: string, isSpace: char -> bool)
    ensures |Words(s, isSpace)| == RunCount(s, isSpace)
  {
    if s != [] {
      WordsAreRuns(s[1..], isSpace);
      var t := s[1..];
      var rest := Components(t, isSpace);
      FilterAppend([rest[0]], rest[1..], NonEmpty);
      assert rest == [rest[0]] + rest[1..];
      assert NonEmpty(rest[0]) <==> t != [] && !isSpace(t[0]);
      if isSpace(s[0]) {
        FilterAppend([[]], rest, NonEmpty);
      } else {
        FilterAppend([[s[0]] + rest[0]], rest[1..], NonEmpty);
      }
    }
  }

  /** A blank string has no words. */
  lemma {:induction false} BlankHasNoRuns(s: string, isSpace: char -> bool)
    requires IsBlank(s, isSpace)
    ensures RunCount(s, isSpace) == 0
  {
    if s != [] {
      BlankHasNoRuns(s[1..], isSpace);
    }
  }

  /** Splitting words joined by single spaces gives the words back. */
  lemma JoinedWords(ws: seq<string>, isSpace: char -> bool)
    requires isSpace(' ')
    requires forall w :: w in ws ==> w != [] && NoSep(w, isSpace)
    ensures Words(Join(ws, " "), isSpace) == ws
  {
    if ws != [] {
      JoinComponents([], ws, ' ', [], isSpace);
      assert [' '] + [] == " ";
      assert [] + Join(ws, " ") == Join(ws, " ");
      PrefixEachEmpty(ws[1..]);
      assert [] + ws[0] == ws[0];
      assert [ws[0]] + ws[1..] == ws;
      FilterAll(ws, NonEmpty);
    }
  }

  // ---------------------------------------------------------------------------
  // Case mapping and substring search
  // ---------------------------------------------------------------------------

  function Min(a: int, b: int): int
  {
    if a <= b then a else b
  }

  /** Distinct elements. */
  predicate Distinct<T(==)>(s: seq<T>)
  {
    forall i, j :: 0 <= i < j < |s| ==> s[i] != s[j]
  }

  /** `s.lowercased()`. */
  function Lowercased(s: string, lower: char -> char): (r: string)
    ensures |r| == |s|
    ensures forall i :: 0 <= i < |s| ==> r[i] == lower(s[i])
  {
    seq(|s|, i requires 0 <= i < |s| => lower(s[i]))
  }

  /** `hay.contains(needle)`: `needle` occurs in `hay` at some position. */
  predicate Contains(hay: string, needle: string)
    ensures Contains(hay, needle) ==> |needle| <= |hay|
    ensures HasPrefix(hay, needle) ==> Contains(hay, needle)
  {
    assert HasPrefix(hay, needle) ==> OccursAt(hay, needle, 0);
    exists i :: 0 <= i <= |hay| - |needle| && OccursAt(hay, needle, i)
  }

  /** `s.hasPrefix(prefix)`. */
  predicate HasPrefix(s: string, prefix: string)
  {
    |prefix| <= |s| && s[..|prefix|] == prefix
  }

  /** `needle` occurs in `hay` starting at position `i`. */
  predicate OccursAt(hay: string, needle: string, i: int)
  {
    0 <= i <= |hay| - |needle| && hay[i..i + |needle|] == needle
  }
}
