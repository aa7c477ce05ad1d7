/** The boundary-marker escaper and the control-word escaper applied to text
    from a peer (molecule_runtime/_sanitize_a2a.py). */
module SanitizeA2A {
  import opened Edits
  import opened Wrappers

  const BOUNDARY_START := "[A2A_RESULT_FROM_PEER]"
  const BOUNDARY_END := "[/A2A_RESULT_FROM_PEER]"
  const BOUNDARY_START_ESCAPED := "[/ A2A_RESULT_FROM_PEER]"
  const BOUNDARY_END_ESCAPED := "[/ /A2A_RESULT_FROM_PEER]"

  ghost predicate FreeOfMarkers(s: string) {
    !Contains(s, BOUNDARY_START) && !Contains(s, BOUNDARY_END)
  }

  // ---- str.replace -------------------------------------------------------

  /** The pass `str.replace(w, put)` makes: leftmost, non-overlapping. */
  function ReplaceScan(s: string, w: string, put: string): (edits: seq<Edit>)
    requires w != ""
    ensures Source(edits) == s
  {
    if s == "" then []
    else if w <= s then [Put(w, put)] + ReplaceScan(s[|w|..], w, put)
    else [Copy(s[0])] + ReplaceScan(s[1..], w, put)
  }

  function Replace(s: string, w: string, put: string): string
    requires w != ""
  {
    Target(ReplaceScan(s, w, put))
  }

  lemma {:induction false} ReplaceScanInert(s: string, w: string, put: string, m: string)
    requires w != "" && Inert(put, m)
    ensures AllInert(ReplaceScan(s, w, put), m)
  {
    if s == "" {
    } else {
      if w <= s { ReplaceScanInert(s[|w|..], w, put, m); } else { ReplaceScanInert(s[1..], w, put, m); }
    }
  }

  /** What is left to scan after the first edit. */
  function Rest(s: string, w: string): string
    requires s != ""
  {
    if w <= s then s[|w|..] else s[1..]
  }

  lemma ReplaceScanTail(s: string, w: string, put: string)
    requires w != "" && s != ""
    ensures ReplaceScan(s, w, put) != []
    ensures ReplaceScan(s, w, put)[1..] == ReplaceScan(Rest(s, w), w, put)
  {
  }

  lemma NoneFurtherOn(edits: seq<Edit>, rest: seq<Edit>, w: string, i: nat)
    requires i > 0 && edits != [] && edits[1..] == rest && !CopiesWordAt(rest, w, i - 1)
    ensures !CopiesWordAt(edits, w, i)
  {
    CopiesInTail(edits, w, i - 1);
  }

  lemma ReplaceCopiesNoneFirst(s: string, w: string, put: string)
    requires w != ""
    ensures !CopiesWordAt(ReplaceScan(s, w, put), w, 0)
  {
    var edits := ReplaceScan(s, w, put);
    if CopiesWordAt(edits, w, 0) {
      assert edits[0] == Copy(w[0]);
      CopiedPrefix(edits, w);
    }
  }

  lemma ReplaceCopiesNoneLater(s: string, w: string, put: string, i: nat)
    requires w != "" && s != "" && i > 0
    requires !CopiesWordAt(ReplaceScan(Rest(s, w), w, put), w, i - 1)
    ensures !CopiesWordAt(ReplaceScan(s, w, put), w, i)
  {
    ReplaceScanTail(s, w, put);
    NoneFurtherOn(ReplaceScan(s, w, put), ReplaceScan(Rest(s, w), w, put), w, i);
  }

  /** The scan would have replaced a full occurrence, so it never copies one. */
  lemma {:induction false} ReplaceCopiesNoOccurrence(s: string, w: string, put: string, i: nat)
    requires w != ""
    ensures !CopiesWordAt(ReplaceScan(s, w, put), w, i)
    decreases i
  {
    if i == 0 {
      ReplaceCopiesNoneFirst(s, w, put);
    } else if s != "" {
      ReplaceCopiesNoOccurrence(Rest(s, w), w, put, i - 1);
      ReplaceCopiesNoneLater(s, w, put, i);
    }
  }

  /** Replacing every `w` by a text inert for it leaves no `w`. */
  lemma ReplaceRemovesAll(s: string, w: string, put: string)
    requires Inert(put, w)
    ensures !Contains(Replace(s, w, put), w)
  {
    var edits := ReplaceScan(s, w, put);
    ReplaceScanInert(s, w, put, w);
    if Contains(Target(edits), w) {
      var p :| 0 <= p <= |Target(edits)| && OccursAt(Target(edits), w, p);
      var i := OccurrenceWasCopied(edits, w, p);
      ReplaceCopiesNoOccurrence(s, w, put, i);
    }
  }

  lemma {:induction false} ReplaceAbsentIsIdentity(s: string, w: string, put: string)
    requires w != "" && !Contains(s, w)
    ensures Replace(s, w, put) == s
  {
    if s == "" {
    } else {
      assert w <= s ==> OccursAt(s, w, 0);
      if Contains(s[1..], w) {
        var p :| 0 <= p <= |s[1..]| && OccursAt(s[1..], w, p);
        assert s[p + 1..p + 1 + |w|] == w;
        assert OccursAt(s, w, p + 1);
      }
      ReplaceAbsentIsIdentity(s[1..], w, put);
    }
  }

  /** The pieces joined by `w`. */
  function Joined(pieces: seq<string>, w: string): string {
    if pieces == [] then ""
    else if |pieces| == 1 then pieces[0]
    else pieces[0] + w + Joined(pieces[1..], w)
  }

  /** The pieces lie between the leftmost occurrences of `w` that do not overlap: each, with
      the `w` after it, has no occurrence but that one, and the last has none. */
  ghost predicate Leftmost(pieces: seq<string>, w: string) {
    && pieces != [] && !Contains(pieces[|pieces| - 1], w)
    && forall i, p | 0 <= i < |pieces| - 1 && 0 <= p < |pieces[i]| :: !OccursAt(pieces[i] + w, w, p)
  }

  lemma PieceGrows(pieces: seq<string>, w: string, s: string, c: char)
    requires Leftmost(pieces, w) && w != "" && s == Joined(pieces, w) && !(w <= [c] + s)
    ensures Leftmost([[c] + pieces[0]] + pieces[1..], w)
    ensures forall put: string :: Joined([[c] + pieces[0]] + pieces[1..], put) == [c] + Joined(pieces, put)
  {
    var longer := [[c] + pieces[0]] + pieces[1..];
    forall put: string ensures Joined(longer, put) == [c] + Joined(pieces, put) {
      assert longer[1..] == pieces[1..];
      if |pieces| > 1 {
        assert ([c] + pieces[0]) + put + Joined(pieces[1..], put) == [c] + (pieces[0] + put + Joined(pieces[1..], put));
      }
    }
    if |pieces| == 1 {
      FirstOccurrence(pieces[0], w, c);
    } else {
      assert longer[|longer| - 1] == pieces[|pieces| - 1];
      forall i, p | 0 <= i < |longer| - 1 && 0 <= p < |longer[i]| ensures !OccursAt(longer[i] + w, w, p) {
        if i == 0 {
          FirstPiece(pieces[0], w, Joined(pieces[1..], w), c, p);
        } else {
          assert longer[i] == pieces[i];
        }
      }
    }
  }

  lemma OccursInTail(c: char, s: string, w: string, p: nat)
    requires p > 0
    ensures OccursAt([c] + s, w, p) <==> OccursAt(s, w, p - 1)
  {
    if p + |w| <= |s| + 1 {
      assert ([c] + s)[p..p + |w|] == s[p - 1..p - 1 + |w|];
    }
  }

  lemma FirstOccurrence(s: string, w: string, c: char)
    requires w != "" && !Contains(s, w) && !(w <= [c] + s)
    ensures !Contains([c] + s, w)
  {
    forall p | 0 <= p <= |[c] + s| ensures !OccursAt([c] + s, w, p) {
      if p > 0 {
        OccursInTail(c, s, w, p);
      }
    }
  }

  lemma StartsAlike(a: string, w: string, rest: string)
    ensures w <= a + w + rest <==> OccursAt(a + w, w, 0)
  {
    assert (a + w + rest)[..|w|] == (a + w)[..|w|];
  }

  lemma FirstPiece(first: string, w: string, rest: string, c: char, p: nat)
    requires w != "" && p < |first| + 1 && !(w <= [c] + (first + w + rest))
    requires forall q | 0 <= q < |first| :: !OccursAt(first + w, w, q)
    ensures !OccursAt([c] + first + w, w, p)
  {
    assert [c] + first + w == [c] + (first + w);
    if p == 0 {
      assert [c] + (first + w + rest) == ([c] + first) + w + rest;
      StartsAlike([c] + first, w, rest);
    } else {
      OccursInTail(c, first + w, w, p);
    }
  }

  lemma PieceEnds(pieces: seq<string>, w: string)
    requires Leftmost(pieces, w)
    ensures Leftmost([""] + pieces, w)
    ensures forall put: string :: Joined([""] + pieces, put) == put + Joined(pieces, put)
  {
    var longer := [""] + pieces;
    assert longer[1..] == pieces && longer[|longer| - 1] == pieces[|pieces| - 1];
    forall put: string ensures Joined(longer, put) == put + Joined(pieces, put) {
      assert "" + put == put;
    }
    forall i, p | 0 <= i < |longer| - 1 && 0 <= p < |longer[i]| ensures !OccursAt(longer[i] + w, w, p) {
      assert longer[i] == pieces[i - 1];
    }
  }

  lemma ReplaceTail(s: string, w: string, put: string)
    requires w != "" && s != ""
    ensures Replace(s, w, put) == (if w <= s then put else [s[0]]) + Replace(Rest(s, w), w, put)
  {
    ReplaceScanTail(s, w, put);
  }

  /** `str.replace`, whole: the text falls into pieces between the leftmost occurrences of the
      word, and the result joins the same pieces by the new text. */
  lemma {:induction false} ReplaceJoinsPieces(s: string, w: string, put: string) returns (pieces: seq<string>)
    requires w != ""
    ensures Leftmost(pieces, w) && s == Joined(pieces, w) && Replace(s, w, put) == Joined(pieces, put)
  {
    if s == "" {
      pieces := [""];
      assert !Contains("", w);
    } else if w <= s {
      var rest := ReplaceJoinsPieces(s[|w|..], w, put);
      PieceEnds(rest, w);
      pieces := [""] + rest;
      assert w + s[|w|..] == s;
      ReplaceTail(s, w, put);
    } else {
      var rest := ReplaceJoinsPieces(s[1..], w, put);
      assert [s[0]] + s[1..] == s;
      PieceGrows(rest, w, s[1..], s[0]);
      pieces := [[s[0]] + rest[0]] + rest[1..];
      ReplaceTail(s, w, put);
    }
  }

  // ---- escaping the markers ---------------------------------------------

  function EscapeBoundaryMarkers(text: string): string {
    Replace(Replace(text, BOUNDARY_START, BOUNDARY_START_ESCAPED), BOUNDARY_END, BOUNDARY_END_ESCAPED)
  }

  lemma StartEscapeIsInert()
    ensures Inert(BOUNDARY_START_ESCAPED, BOUNDARY_START)
  {
  }

  lemma EndEscapeIsInert(m: string)
    requires m == BOUNDARY_START || m == BOUNDARY_END
    ensures Inert(BOUNDARY_END_ESCAPED, m)
  {
  }

  lemma EscapesAreInert()
    ensures Inert(BOUNDARY_START_ESCAPED, BOUNDARY_START)
    ensures Inert(BOUNDARY_END_ESCAPED, BOUNDARY_START)
    ensures Inert(BOUNDARY_END_ESCAPED, BOUNDARY_END)
  {
    StartEscapeIsInert();
    EndEscapeIsInert(BOUNDARY_START);
    EndEscapeIsInert(BOUNDARY_END);
  }

  /** No marker survives the two replacements: the second cannot bring the first marker back. */
  lemma EscapedIsFreeOfMarkers(text: string)
    ensures FreeOfMarkers(EscapeBoundaryMarkers(text))
  {
    EscapesAreInert();
    var once := Replace(text, BOUNDARY_START, BOUNDARY_START_ESCAPED);
    ReplaceRemovesAll(text, BOUNDARY_START, BOUNDARY_START_ESCAPED);
    ReplaceScanInert(once, BOUNDARY_END, BOUNDARY_END_ESCAPED, BOUNDARY_START);
    NothingSpliced(ReplaceScan(once, BOUNDARY_END, BOUNDARY_END_ESCAPED), BOUNDARY_START);
    ReplaceRemovesAll(once, BOUNDARY_END, BOUNDARY_END_ESCAPED);
  }

  /** A text free of markers is left alone, and only such a text is. */
  lemma EscapeFixesExactlyMarkerFree(text: string)
    ensures EscapeBoundaryMarkers(text) == text <==> FreeOfMarkers(text)
  {
    EscapedIsFreeOfMarkers(text);
    if FreeOfMarkers(text) {
      ReplaceAbsentIsIdentity(text, BOUNDARY_START, BOUNDARY_START_ESCAPED);
      ReplaceAbsentIsIdentity(text, BOUNDARY_END, BOUNDARY_END_ESCAPED);
    }
  }

  /** What the escape does to a text: between the leftmost start markers, and then between
      the leftmost end markers of the result, all pieces stay, and only the markers change. */
  lemma EscapeReplacesMarkers(text: string) returns (pieces: seq<string>, later: seq<string>)
    ensures Leftmost(pieces, BOUNDARY_START) && text == Joined(pieces, BOUNDARY_START)
    ensures Leftmost(later, BOUNDARY_END) && Joined(pieces, BOUNDARY_START_ESCAPED) == Joined(later, BOUNDARY_END)
    ensures EscapeBoundaryMarkers(text) == Joined(later, BOUNDARY_END_ESCAPED)
  {
    pieces := ReplaceJoinsPieces(text, BOUNDARY_START, BOUNDARY_START_ESCAPED);
    later := ReplaceJoinsPieces(Replace(text, BOUNDARY_START, BOUNDARY_START_ESCAPED), BOUNDARY_END,
                                BOUNDARY_END_ESCAPED);
  }

  lemma EscapeIsIdempotent(text: string)
    ensures EscapeBoundaryMarkers(EscapeBoundaryMarkers(text)) == EscapeBoundaryMarkers(text)
  {
    EscapedIsFreeOfMarkers(text);
    EscapeFixesExactlyMarkerFree(EscapeBoundaryMarkers(text));
  }

  // ---- the five control-word patterns ------------------------------------

  /** What the pattern engine takes for `\w`, `\s` and case folding. The results
      below hold for every choice, so for ASCII and for Unicode alike. */
  datatype CharClasses = CharClasses(isWord: char -> bool, isSpace: char -> bool, fold: char -> char)

  /** What precedes the control words: `(^|[^\w])`, kept in the output, or
      `(^|\n)`, dropped. */
  datatype Lead = NonWordKept | NewlineDropped

  /** One pattern: `words` joined by `\s+`, an optional final S, and `\b`. */
  datatype Pattern = Pattern(lead: Lead, words: seq<string>, optionalS: bool, put: string)

  const SYSTEM_PATTERN := Pattern(NonWordKept, ["SYSTEM"], false, "[ESCAPED_SYSTEM]")
  const OVERRIDE_PATTERN := Pattern(NonWordKept, ["OVERRIDE"], false, "[ESCAPED_OVERRIDE]")
  const INSTRUCTIONS_PATTERN := Pattern(NewlineDropped, ["INSTRUCTION"], true, " [ESCAPED_INSTRUCTIONS]")
  const IGNORE_ALL_PATTERN := Pattern(NonWordKept, ["IGNORE", "ALL"], false, "[ESCAPED_IGNORE_ALL]")
  const YOU_ARE_NOW_PATTERN := Pattern(NonWordKept, ["YOU", "ARE", "NOW"], false, "[ESCAPED_YOU_ARE_NOW]")

  const INJECTION_PATTERNS: seq<Pattern> :=
    [SYSTEM_PATTERN, OVERRIDE_PATTERN, INSTRUCTIONS_PATTERN, IGNORE_ALL_PATTERN, YOU_ARE_NOW_PATTERN]

  /** Nothing the patterns put in can form or complete a marker. */
  predicate SafeTable(patterns: seq<Pattern>) {
    forall p | p in patterns :: Inert(p.put, BOUNDARY_START) && Inert(p.put, BOUNDARY_END)
  }

  function WordEnd(cc: CharClasses, word: string, s: string, i: nat): (r: Option<nat>)
    requires i <= |s|
    ensures r.Some? ==> r.value == i + |word| <= |s|
  {
    if word == "" then Some(i)
    else if i < |s| && cc.fold(s[i]) == cc.fold(word[0]) then WordEnd(cc, word[1..], s, i + 1)
    else None
  }

  function SkipSpaces(cc: CharClasses, s: string, i: nat): (j: nat)
    requires i <= |s|
    ensures i <= j <= |s|
    decreases |s| - i
  {
    if i < |s| && cc.isSpace(s[i]) then SkipSpaces(cc, s, i + 1) else i
  }

  function WordsEnd(cc: CharClasses, words: seq<string>, s: string, i: nat): (r: Option<nat>)
    requires i <= |s|
    ensures r.Some? ==> i <= r.value <= |s|
    decreases |words|
  {
    if words == [] then Some(i)
    else
      match WordEnd(cc, words[0], s, i)
      case None => None
      case Some(j) =>
        if |words| == 1 then Some(j)
        else
          var k := SkipSpaces(cc, s, j);
          if k == j then None else WordsEnd(cc, words[1..], s, k)
  }

  /** `\b` after a word character. */
  predicate BoundaryAt(cc: CharClasses, s: string, i: nat)
    requires i <= |s|
  {
    i == |s| || !cc.isWord(s[i])
  }

  /** Where the control words of `pattern` end if they start at `i`. */
  function KeywordEnd(cc: CharClasses, pattern: Pattern, s: string, i: nat): (r: Option<nat>)
    requires i <= |s|
    ensures r.Some? ==> i <= r.value <= |s|
  {
    match WordsEnd(cc, pattern.words, s, i)
    case None => None
    case Some(j) =>
      if pattern.optionalS && j < |s| && cc.fold(s[j]) == cc.fold('S') && BoundaryAt(cc, s, j + 1) then Some(j + 1)
      else if BoundaryAt(cc, s, j) then Some(j)
      else None
  }

  lemma CopyThenPutReads(s: string, i: nat, end: nat, put: string)
    requires i < end <= |s|
    ensures Source([Copy(s[i])] + [Put(s[i + 1..end], put)]) == s[i..end]
  {
    ConcatEdits([Copy(s[i])], [Put(s[i + 1..end], put)]);
    assert [s[i]] + s[i + 1..end] == s[i..end];
  }

  /** One step of `pattern.sub(put, s)` at index `i`: what it writes there and where
      it goes on. `^` matches at index 0 only; the lead is consumed by the match. */
  function PatternStep(cc: CharClasses, pattern: Pattern, s: string, i: nat): (r: (seq<Edit>, nat))
    requires i < |s|
    ensures i < r.1 <= |s| && Source(r.0) == s[i..r.1]
    ensures forall e | e in r.0 && e.Put? :: e.put == pattern.put
  {
    var atStart := if i == 0 then KeywordEnd(cc, pattern, s, 0) else None;
    var led := if pattern.lead.NonWordKept? then !cc.isWord(s[i]) else s[i] == '\n';
    var end := if led then KeywordEnd(cc, pattern, s, i + 1) else None;
    if atStart.Some? && atStart.value > 0 then
      ([Put(s[..atStart.value], pattern.put)], atStart.value)
    else if end.None? then
      ([Copy(s[i])], i + 1)
    else if pattern.lead.NonWordKept? then
      CopyThenPutReads(s, i, end.value, pattern.put);
      ([Copy(s[i])] + [Put(s[i + 1..end.value], pattern.put)], end.value)
    else
      ([Put(s[i..end.value], pattern.put)], end.value)
  }

  /** The pass `pattern.sub(put, s)` makes, from index `i` on. */
  function PatternScan(cc: CharClasses, pattern: Pattern, s: string, i: nat): seq<Edit>
    requires i <= |s|
    decreases |s| - i
  {
    if i == |s| then []
    else
      var (edits, next) := PatternStep(cc, pattern, s, i);
      edits + PatternScan(cc, pattern, s, next)
  }

  lemma SlicesJoin(s: string, i: nat, next: nat)
    requires i <= next <= |s|
    ensures s[i..next] + s[next..] == s[i..]
  {
  }

  lemma JoinedReads(edits: seq<Edit>, rest: seq<Edit>, s: string, i: nat, next: nat)
    requires i <= next <= |s| && Source(edits) == s[i..next] && Source(rest) == s[next..]
    ensures Source(edits + rest) == s[i..]
  {
    ConcatEdits(edits, rest);
    SlicesJoin(s, i, next);
  }

  lemma {:induction false} PatternScanReads(cc: CharClasses, pattern: Pattern, s: string, i: nat)
    requires i <= |s|
    ensures Source(PatternScan(cc, pattern, s, i)) == s[i..]
    decreases |s| - i
  {
    if i == |s| {
    } else {
      var (edits, next) := PatternStep(cc, pattern, s, i);
      PatternScanReads(cc, pattern, s, next);
      JoinedReads(edits, PatternScan(cc, pattern, s, next), s, i, next);
    }
  }

  lemma {:induction false} PatternScanPuts(cc: CharClasses, pattern: Pattern, s: string, i: nat)
    requires i <= |s|
    ensures forall e | e in PatternScan(cc, pattern, s, i) && e.Put? :: e.put == pattern.put
    decreases |s| - i
  {
    if i == |s| {
    } else {
      PatternScanPuts(cc, pattern, s, PatternStep(cc, pattern, s, i).1);
    }
  }

  function PatternSub(cc: CharClasses, pattern: Pattern, s: string): string {
    Target(PatternScan(cc, pattern, s, 0))
  }

  // ---- what a pass matches, and what it leaves alone -----------------------

  /** What is so of every character class the engine has: what folds with a letter is a word
      character and no blank; a newline, a blank and a bracket are no word characters. */
  ghost predicate Sane(cc: CharClasses) {
    && (forall c, letter | 'A' <= letter <= 'Z' && cc.fold(c) == cc.fold(letter) :: cc.isWord(c) && !cc.isSpace(c))
    && !cc.isWord('\n') && !cc.isWord(' ') && !cc.isWord('[')
  }

  predicate Letters(word: string) {
    word != "" && forall k | 0 <= k < |word| :: 'A' <= word[k] <= 'Z'
  }

  /** Words of letters, and a replacement that starts with a blank or a bracket. */
  predicate Lettered(pattern: Pattern) {
    && pattern.words != [] && (forall w | w in pattern.words :: Letters(w))
    && pattern.put != "" && (pattern.put[0] == ' ' || pattern.put[0] == '[')
  }

  /** The text spells the word, in any letter case. */
  predicate Alike(cc: CharClasses, text: string, word: string) {
    |text| == |word| && forall k | 0 <= k < |word| :: cc.fold(text[k]) == cc.fold(word[k])
  }

  predicate Blanks(cc: CharClasses, text: string) {
    forall k | 0 <= k < |text| :: cc.isSpace(text[k])
  }

  /** The text spells the words, with one blank or more between each two. */
  ghost predicate Spells(cc: CharClasses, words: seq<string>, text: string)
    decreases |words|
  {
    words != [] &&
    if |words| == 1 then Alike(cc, text, words[0])
    else
      exists p, q | 0 <= p < q <= |text| ::
        Alike(cc, text[..p], words[0]) && Blanks(cc, text[p..q]) && Spells(cc, words[1..], text[q..])
  }

  /** The text is the control phrase of the pattern, with its final S if it may have one. */
  ghost predicate Phrase(cc: CharClasses, pattern: Pattern, text: string) {
    || Spells(cc, pattern.words, text)
    || (pattern.optionalS && text != "" && cc.fold(text[|text| - 1]) == cc.fold('S')
        && Spells(cc, pattern.words, text[..|text| - 1]))
  }

  /** A match: it starts at its lead, the phrase begins at `word`. */
  datatype Match = Match(start: nat, word: nat, end: nat)

  /** The phrase stands between its lead and a character that is no word character: it starts
      the text, or follows a character that is no word character (a newline, for the other
      lead); and it ends the text, or such a character follows. */
  ghost predicate IsMatch(cc: CharClasses, pattern: Pattern, s: string, m: Match) {
    && m.start <= m.word <= m.end <= |s|
    && (|| m.start == m.word == 0
        || (m.word == m.start + 1
            && if pattern.lead.NonWordKept? then !cc.isWord(s[m.start]) else s[m.start] == '\n'))
    && Phrase(cc, pattern, s[m.word..m.end])
    && (m.end == |s| || !cc.isWord(s[m.end]))
  }

  lemma {:induction false} WordEndIff(cc: CharClasses, word: string, s: string, i: nat)
    requires i <= |s|
    ensures WordEnd(cc, word, s, i).Some? <==> i + |word| <= |s| && Alike(cc, s[i..i + |word|], word)
  {
    if word == "" {
    } else if i < |s| {
      WordEndIff(cc, word[1..], s, i + 1);
      if i + |word| <= |s| {
        assert s[i..i + |word|][0] == s[i] && s[i..i + |word|][1..] == s[i + 1..i + |word|];
        AlikeByFirst(cc, s[i..i + |word|], word);
      }
    }
  }

  lemma AlikeByFirst(cc: CharClasses, text: string, word: string)
    requires |text| == |word| > 0
    ensures Alike(cc, text, word) <==> cc.fold(text[0]) == cc.fold(word[0]) && Alike(cc, text[1..], word[1..])
  {
    if cc.fold(text[0]) == cc.fold(word[0]) && Alike(cc, text[1..], word[1..]) {
      forall k | 0 <= k < |word| ensures cc.fold(text[k]) == cc.fold(word[k]) {
        if k > 0 { assert text[1..][k - 1] == text[k] && word[1..][k - 1] == word[k]; }
      }
    }
  }

  lemma {:induction false} SkipsAllBlanks(cc: CharClasses, s: string, i: nat)
    requires i <= |s|
    ensures var j := SkipSpaces(cc, s, i); Blanks(cc, s[i..j]) && (j < |s| ==> !cc.isSpace(s[j]))
    decreases |s| - i
  {
    if i < |s| && cc.isSpace(s[i]) {
      SkipsAllBlanks(cc, s, i + 1);
      var j := SkipSpaces(cc, s, i);
      assert forall k | 0 < k < j - i :: s[i..j][k] == s[i + 1..j][k - 1];
    }
  }

  lemma {:induction false} SkipsExactly(cc: CharClasses, s: string, i: nat, j: nat)
    requires i <= j <= |s| && Blanks(cc, s[i..j]) && (j < |s| ==> !cc.isSpace(s[j]))
    ensures SkipSpaces(cc, s, i) == j
    decreases j - i
  {
    if i == j {
    } else {
      assert s[i..j][0] == s[i];
      var rest := s[i + 1..j];
      forall k | 0 <= k < |rest| ensures cc.isSpace(rest[k]) {
        assert rest[k] == s[i..j][k + 1];
      }
      SkipsExactly(cc, s, i + 1, j);
    }
  }

  lemma SliceOfSlice(s: string, i: nat, j: nat, p: nat, q: nat)
    requires i <= j <= |s| && p <= q <= j - i
    ensures s[i..j][p..q] == s[i + p..i + q] && s[i..j][..p] == s[i..i + p] && s[i..j][q..] == s[i + q..j]
  {
    var t := s[i..j];
    assert |t[p..q]| == q - p;
    assert forall k | 0 <= k < q - p :: t[p..q][k] == t[p + k] == s[i + p..i + q][k];
  }

  lemma SpellsFrom(cc: CharClasses, words: seq<string>, text: string, p: nat, q: nat)
    requires |words| > 1 && p < q <= |text|
    requires Alike(cc, text[..p], words[0]) && Blanks(cc, text[p..q]) && Spells(cc, words[1..], text[q..])
    ensures Spells(cc, words, text)
  {
  }

  lemma SpellsByParts(cc: CharClasses, words: seq<string>, s: string, i: nat, p: nat, q: nat, j: nat)
    requires |words| > 1 && i <= p < q <= j <= |s|
    requires Alike(cc, s[i..p], words[0]) && Blanks(cc, s[p..q]) && Spells(cc, words[1..], s[q..j])
    ensures Spells(cc, words, s[i..j])
  {
    var a, b := p - i, q - i;
    SliceOfSlice(s, i, j, a, b);
    SpellsFrom(cc, words, s[i..j], a, b);
  }

  lemma {:induction false} WordsEndSpells(cc: CharClasses, words: seq<string>, s: string, i: nat, j: nat)
    requires i <= |s| && words != [] && WordsEnd(cc, words, s, i) == Some(j)
    ensures Spells(cc, words, s[i..j])
    decreases |words|
  {
    WordEndIff(cc, words[0], s, i);
    if |words| == 1 {
    } else {
      var p := i + |words[0]|;
      var q := SkipSpaces(cc, s, p);
      SkipsAllBlanks(cc, s, p);
      WordsEndSpells(cc, words[1..], s, q, j);
      SpellsByParts(cc, words, s, i, p, q, j);
    }
  }

  lemma SpelledStart(cc: CharClasses, words: seq<string>, text: string)
    requires Sane(cc) && (forall w | w in words :: Letters(w)) && Spells(cc, words, text)
    ensures text != "" && cc.isWord(text[0]) && !cc.isSpace(text[0])
  {
    assert words[0] in words;
    if |words| == 1 {
      assert cc.fold(text[0]) == cc.fold(words[0][0]);
    } else {
      var p, q :| 0 <= p < q <= |text| && Alike(cc, text[..p], words[0]) && Blanks(cc, text[p..q])
                  && Spells(cc, words[1..], text[q..]);
      assert cc.fold(text[..p][0]) == cc.fold(words[0][0]);
    }
  }

  /** The first word of the rest comes after exactly the blanks that are skipped. */
  lemma BlanksBeforeWord(cc: CharClasses, words: seq<string>, s: string, p: nat, q: nat, j: nat)
    requires Sane(cc) && forall w | w in words :: Letters(w)
    requires p < q <= j <= |s| && Blanks(cc, s[p..q]) && Spells(cc, words, s[q..j])
    ensures SkipSpaces(cc, s, p) == q
  {
    SpelledStart(cc, words, s[q..j]);
    assert s[q..j][0] == s[q];
    SkipsExactly(cc, s, p, q);
  }

  /** The same, with the text cut out of a longer one. */
  lemma SpelledInSlice(cc: CharClasses, words: seq<string>, s: string, i: nat, j: nat) returns (p: nat, q: nat)
    requires |words| > 1 && i <= j <= |s| && Spells(cc, words, s[i..j])
    ensures i <= p < q <= j && Alike(cc, s[i..p], words[0]) && Blanks(cc, s[p..q]) && Spells(cc, words[1..], s[q..j])
  {
    var a, b :| 0 <= a < b <= |s[i..j]| && Alike(cc, s[i..j][..a], words[0]) && Blanks(cc, s[i..j][a..b])
                && Spells(cc, words[1..], s[i..j][b..]);
    SliceOfSlice(s, i, j, a, b);
    p, q := i + a, i + b;
  }

  lemma {:induction false} SpellsWordsEnd(cc: CharClasses, words: seq<string>, s: string, i: nat, j: nat)
    requires Sane(cc) && (forall w | w in words :: Letters(w))
    requires i <= j <= |s| && Spells(cc, words, s[i..j])
    ensures WordsEnd(cc, words, s, i) == Some(j)
    decreases |words|
  {
    WordEndIff(cc, words[0], s, i);
    if |words| == 1 {
    } else {
      var p, q := SpelledInSlice(cc, words, s, i, j);
      assert forall w | w in words[1..] :: w in words;
      BlanksBeforeWord(cc, words[1..], s, p, q, j);
      SpellsWordsEnd(cc, words[1..], s, q, j);
    }
  }

  /** The phrase at `i` ends at `j`, as the scan finds it, if and only if it is a phrase. */
  lemma KeywordEndIff(cc: CharClasses, pattern: Pattern, s: string, i: nat, j: nat)
    requires Sane(cc) && Lettered(pattern) && i <= j <= |s|
    ensures KeywordEnd(cc, pattern, s, i) == Some(j) <==>
              Phrase(cc, pattern, s[i..j]) && (j == |s| || !cc.isWord(s[j]))
  {
    if KeywordEnd(cc, pattern, s, i) == Some(j) {
      KeywordIsPhrase(cc, pattern, s, i, j);
    }
    if Phrase(cc, pattern, s[i..j]) && (j == |s| || !cc.isWord(s[j])) {
      PhraseIsKeyword(cc, pattern, s, i, j);
    }
  }

  lemma SliceLast(s: string, i: nat, j: nat)
    requires i < j <= |s|
    ensures var text := s[i..j]; |text| == j - i && text[|text| - 1] == s[j - 1] && text[..|text| - 1] == s[i..j - 1]
  {
  }

  lemma KeywordIsPhrase(cc: CharClasses, pattern: Pattern, s: string, i: nat, j: nat)
    requires Lettered(pattern) && i <= j <= |s| && KeywordEnd(cc, pattern, s, i) == Some(j)
    ensures Phrase(cc, pattern, s[i..j]) && (j == |s| || !cc.isWord(s[j]))
  {
    var k := WordsEnd(cc, pattern.words, s, i).value;
    WordsEndSpells(cc, pattern.words, s, i, k);
    if k < j {
      SliceLast(s, i, j);
    }
  }

  lemma PhraseIsKeyword(cc: CharClasses, pattern: Pattern, s: string, i: nat, j: nat)
    requires Sane(cc) && Lettered(pattern) && i <= j <= |s|
    requires Phrase(cc, pattern, s[i..j]) && (j == |s| || !cc.isWord(s[j]))
    ensures KeywordEnd(cc, pattern, s, i) == Some(j)
  {
    if Spells(cc, pattern.words, s[i..j]) {
      SpellsWordsEnd(cc, pattern.words, s, i, j);
      assert 'A' <= 'S' <= 'Z';
    } else {
      SliceLast(s, i, j);
      SpellsWordsEnd(cc, pattern.words, s, i, j - 1);
    }
  }

  lemma PhraseStart(cc: CharClasses, pattern: Pattern, text: string)
    requires Sane(cc) && Lettered(pattern) && Phrase(cc, pattern, text)
    ensures text != "" && cc.isWord(text[0])
  {
    if Spells(cc, pattern.words, text) {
      SpelledStart(cc, pattern.words, text);
    } else {
      SpelledStart(cc, pattern.words, text[..|text| - 1]);
    }
  }

  /** No two matches start at one place. */
  lemma MatchIsUnique(cc: CharClasses, pattern: Pattern, s: string, m: Match, n: Match)
    requires Sane(cc) && Lettered(pattern) && IsMatch(cc, pattern, s, m) && IsMatch(cc, pattern, s, n)
    requires m.start == n.start
    ensures m == n
  {
    PhraseStart(cc, pattern, s[m.word..m.end]);
    PhraseStart(cc, pattern, s[n.word..n.end]);
    KeywordEndIff(cc, pattern, s, m.word, m.end);
    KeywordEndIff(cc, pattern, s, n.word, n.end);
  }

  /** The text from `from` on with the matches replaced: what precedes the phrase in a match
      is kept for one lead and dropped for the other; all else is copied. */
  function Rewritten(pattern: Pattern, s: string, from: nat, ms: seq<Match>): string
    requires from <= |s|
    decreases |ms|
  {
    if ms == [] then s[from..]
    else
      var m := ms[0];
      if !(from <= m.start <= m.word <= m.end <= |s|) then ""
      else
        s[from..if pattern.lead.NonWordKept? then m.word else m.start] + pattern.put
        + Rewritten(pattern, s, m.end, ms[1..])
  }

  /** The matches a pass takes from `from` on: each time the first to start at or after the
      end of the one before. */
  ghost predicate TakenFrom(cc: CharClasses, pattern: Pattern, s: string, from: nat, ms: seq<Match>)
    decreases |ms|
  {
    if ms == [] then forall m | IsMatch(cc, pattern, s, m) :: m.start < from
    else
      && IsMatch(cc, pattern, s, ms[0]) && from <= ms[0].start
      && (forall m | IsMatch(cc, pattern, s, m) && from <= m.start :: ms[0].start <= m.start)
      && TakenFrom(cc, pattern, s, ms[0].end, ms[1..])
  }

  lemma TargetOfOne(e: Edit)
    ensures Target([e]) == WrittenBy(e)
  {
    assert WrittenBy(e) + "" == WrittenBy(e) && [e][1..] == [];
  }

  lemma TargetOfMatch(pattern: Pattern, s: string, i: nat, end: nat)
    requires i < end <= |s|
    ensures Target([Copy(s[i])] + [Put(s[i + 1..end], pattern.put)]) == s[i..i + 1] + pattern.put
    ensures Target([Put(s[i..end], pattern.put)]) == s[i..i] + pattern.put
  {
    TargetOfOne(Copy(s[i]));
    TargetOfOne(Put(s[i + 1..end], pattern.put));
    TargetOfOne(Put(s[i..end], pattern.put));
    ConcatEdits([Copy(s[i])], [Put(s[i + 1..end], pattern.put)]);
    assert s[i..i + 1] == [s[i]] && s[i..i] + pattern.put == pattern.put;
  }

  lemma CopyFirst(pattern: Pattern, s: string, i: nat, ms: seq<Match>)
    requires i < |s|
    requires ms != [] ==> i + 1 <= ms[0].start <= ms[0].word <= ms[0].end <= |s|
    ensures Rewritten(pattern, s, i, ms) == [s[i]] + Rewritten(pattern, s, i + 1, ms)
  {
    if ms == [] {
      assert s[i..] == [s[i]] + s[i + 1..];
    } else {
      var stop := if pattern.lead.NonWordKept? then ms[0].word else ms[0].start;
      assert s[i..stop] == [s[i]] + s[i + 1..stop];
      Associate([s[i]], s[i + 1..stop], pattern.put);
      Associate([s[i]], s[i + 1..stop] + pattern.put, Rewritten(pattern, s, ms[0].end, ms[1..]));
    }
  }

  lemma NoMatchAtEnd(cc: CharClasses, pattern: Pattern, s: string, m: Match)
    requires Sane(cc) && Lettered(pattern) && IsMatch(cc, pattern, s, m)
    ensures m.start < |s| && m.start < m.end
  {
    PhraseStart(cc, pattern, s[m.word..m.end]);
  }

  /** The phrase a step finds at index `i`: at the start of the text, or after the lead. */
  function FoundAt(cc: CharClasses, pattern: Pattern, s: string, i: nat): (r: Option<Match>)
    requires i < |s|
    ensures r.Some? ==> r.value.start == i && r.value.word <= r.value.end <= |s| && i <= r.value.word <= i + 1
  {
    var atStart := if i == 0 then KeywordEnd(cc, pattern, s, 0) else None;
    var led := if pattern.lead.NonWordKept? then !cc.isWord(s[i]) else s[i] == '\n';
    var end := if led then KeywordEnd(cc, pattern, s, i + 1) else None;
    if atStart.Some? && atStart.value > 0 then Some(Match(0, 0, atStart.value))
    else if end.Some? then Some(Match(i, i + 1, end.value))
    else None
  }

  lemma FoundIsMatch(cc: CharClasses, pattern: Pattern, s: string, i: nat)
    requires Sane(cc) && Lettered(pattern) && i < |s| && FoundAt(cc, pattern, s, i).Some?
    ensures IsMatch(cc, pattern, s, FoundAt(cc, pattern, s, i).value)
  {
    var m := FoundAt(cc, pattern, s, i).value;
    KeywordIsPhrase(cc, pattern, s, m.word, m.end);
  }

  lemma MatchIsFound(cc: CharClasses, pattern: Pattern, s: string, m: Match)
    requires Sane(cc) && Lettered(pattern) && IsMatch(cc, pattern, s, m)
    ensures m.start < |s| && FoundAt(cc, pattern, s, m.start).Some?
  {
    NoMatchAtEnd(cc, pattern, s, m);
    PhraseIsKeyword(cc, pattern, s, m.word, m.end);
  }

  lemma FoundIsTaken(cc: CharClasses, pattern: Pattern, s: string, i: nat)
    requires i < |s| && (i == 0 ==> KeywordEnd(cc, pattern, s, 0) != Some(0))
    ensures var (edits, next) := PatternStep(cc, pattern, s, i);
            match FoundAt(cc, pattern, s, i)
            case None => edits == [Copy(s[i])] && next == i + 1
            case Some(m) =>
              && next == m.end
              && Target(edits) == s[i..if pattern.lead.NonWordKept? then m.word else m.start] + pattern.put
  {
    match FoundAt(cc, pattern, s, i)
    case None =>
    case Some(m) =>
      if m.word == i {
        TargetOfOne(Put(s[..m.end], pattern.put));
        assert s[i..i] + pattern.put == pattern.put;
      } else {
        TargetOfMatch(pattern, s, i, m.end);
      }
  }

  lemma NoEmptyKeyword(cc: CharClasses, pattern: Pattern, s: string)
    requires Sane(cc) && Lettered(pattern)
    ensures KeywordEnd(cc, pattern, s, 0) != Some(0)
  {
    if KeywordEnd(cc, pattern, s, 0) == Some(0) {
      KeywordIsPhrase(cc, pattern, s, 0, 0);
      PhraseStart(cc, pattern, s[0..0]);
    }
  }

  /** One step of the pass takes the match that starts at `i`, or copies a character if
      there is none. */
  lemma StepTakesMatch(cc: CharClasses, pattern: Pattern, s: string, i: nat) returns (m: Option<Match>)
    requires Sane(cc) && Lettered(pattern) && i < |s|
    ensures var (edits, next) := PatternStep(cc, pattern, s, i);
            && (m.Some? ==>
                  && IsMatch(cc, pattern, s, m.value) && m.value.start == i && next == m.value.end
                  && Target(edits)
                     == s[i..if pattern.lead.NonWordKept? then m.value.word else m.value.start] + pattern.put)
            && (m.None? ==>
                  && (forall n | IsMatch(cc, pattern, s, n) :: n.start != i)
                  && edits == [Copy(s[i])] && next == i + 1)
  {
    m := FoundAt(cc, pattern, s, i);
    NoEmptyKeyword(cc, pattern, s);
    FoundIsTaken(cc, pattern, s, i);
    if m.Some? {
      FoundIsMatch(cc, pattern, s, i);
    } else {
      forall n | IsMatch(cc, pattern, s, n) ensures n.start != i {
        MatchIsFound(cc, pattern, s, n);
      }
    }
  }

  lemma {:induction false} ScanTakesMatches(cc: CharClasses, pattern: Pattern, s: string, i: nat)
    returns (ms: seq<Match>)
    requires Sane(cc) && Lettered(pattern) && i <= |s|
    ensures TakenFrom(cc, pattern, s, i, ms)
    ensures Target(PatternScan(cc, pattern, s, i)) == Rewritten(pattern, s, i, ms)
    decreases |s| - i
  {
    if i == |s| {
      ms := [];
      forall m | IsMatch(cc, pattern, s, m) ensures m.start < i {
        NoMatchAtEnd(cc, pattern, s, m);
      }
    } else {
      var (edits, next) := PatternStep(cc, pattern, s, i);
      var taken := StepTakesMatch(cc, pattern, s, i);
      var rest := ScanTakesMatches(cc, pattern, s, next);
      ConcatEdits(edits, PatternScan(cc, pattern, s, next));
      if taken.Some? {
        ms := [taken.value] + rest;
        assert ms[1..] == rest;
      } else {
        ms := rest;
        CopyFirst(pattern, s, i, ms);
        assert Target(edits) == [s[i]];
      }
    }
  }

  /** `text` becomes `after` by one pass of the pattern: the matches the pass takes are
      replaced, in place, and all else is copied. */
  ghost predicate Substituted(cc: CharClasses, pattern: Pattern, text: string, after: string) {
    exists ms :: TakenFrom(cc, pattern, text, 0, ms) && after == Rewritten(pattern, text, 0, ms)
  }

  lemma SubTakesMatches(cc: CharClasses, pattern: Pattern, s: string)
    requires Sane(cc) && Lettered(pattern)
    ensures Substituted(cc, pattern, s, PatternSub(cc, pattern, s))
  {
    var ms := ScanTakesMatches(cc, pattern, s, 0);
  }

  /** Where the first match is replaced, the text had another character. */
  lemma FirstMatchChanges(cc: CharClasses, pattern: Pattern, s: string, m: Match)
    requires Sane(cc) && Lettered(pattern) && IsMatch(cc, pattern, s, m)
    ensures var at := if pattern.lead.NonWordKept? then m.word else m.start; at < |s| && s[at] != pattern.put[0]
  {
    PhraseStart(cc, pattern, s[m.word..m.end]);
    assert s[m.word..m.end][0] == s[m.word];
  }

  lemma PutStandsAt(before: string, put: string, rest: string)
    requires put != ""
    ensures |before| < |before + put + rest| && (before + put + rest)[|before|] == put[0]
  {
  }

  /** A pass leaves a text as it was if and only if the text has no match. */
  lemma SubChangesIffMatch(cc: CharClasses, pattern: Pattern, s: string)
    requires Sane(cc) && Lettered(pattern)
    ensures PatternSub(cc, pattern, s) == s <==> forall m :: !IsMatch(cc, pattern, s, m)
  {
    var ms := ScanTakesMatches(cc, pattern, s, 0);
    if ms == [] {
      assert s[0..] == s;
    } else {
      var m := ms[0];
      var at := if pattern.lead.NonWordKept? then m.word else m.start;
      FirstMatchChanges(cc, pattern, s, m);
      PutStandsAt(s[0..at], pattern.put, Rewritten(pattern, s, m.end, ms[1..]));
      assert |s[0..at]| == at;
    }
  }

  lemma TableIsLettered()
    ensures forall p | p in INJECTION_PATTERNS :: Lettered(p)
  {
  }

  /** Each text comes from the one before by one pass of a pattern. */
  ghost predicate Stages(cc: CharClasses, patterns: seq<Pattern>, stages: seq<string>) {
    && |stages| == |patterns| + 1
    && forall k | 0 <= k < |patterns| :: Substituted(cc, patterns[k], stages[k], stages[k + 1])
  }

  lemma StagesSnoc(cc: CharClasses, patterns: seq<Pattern>, stages: seq<string>, pattern: Pattern, after: string)
    requires Stages(cc, patterns, stages) && Substituted(cc, pattern, stages[|patterns|], after)
    ensures Stages(cc, patterns + [pattern], stages + [after])
  {
    var longer, texts := patterns + [pattern], stages + [after];
    forall k | 0 <= k < |longer| ensures Substituted(cc, longer[k], texts[k], texts[k + 1]) {
      if k < |patterns| {
        assert longer[k] == patterns[k] && texts[k] == stages[k] && texts[k + 1] == stages[k + 1];
      }
    }
  }

  lemma {:induction false} PatternsByStages(cc: CharClasses, patterns: seq<Pattern>, s: string)
    returns (stages: seq<string>)
    requires Sane(cc) && forall p | p in patterns :: Lettered(p)
    ensures Stages(cc, patterns, stages) && stages[0] == s && stages[|patterns|] == ApplyPatterns(cc, patterns, s)
  {
    if patterns == [] {
      stages := [s];
    } else {
      var n := |patterns| - 1;
      assert patterns == patterns[..n] + [patterns[n]] && patterns[n] in patterns;
      assert forall p | p in patterns[..n] :: p in patterns;
      stages := PatternsByStages(cc, patterns[..n], s);
      SubTakesMatches(cc, patterns[n], stages[n]);
      StagesSnoc(cc, patterns[..n], stages, patterns[n], ApplyPatterns(cc, patterns, s));
      stages := stages + [ApplyPatterns(cc, patterns, s)];
    }
  }

  /** The sanitiser, whole: from the text with its markers escaped, each of the five patterns
      in turn replaces the matches it takes and copies everything else. */
  lemma SanitizedByStages(cc: CharClasses, text: string) returns (stages: seq<string>)
    requires Sane(cc) && text != ""
    ensures |stages| == 6 && stages[0] == EscapeBoundaryMarkers(text) && stages[5] == Sanitized(cc, text)
    ensures Substituted(cc, SYSTEM_PATTERN, stages[0], stages[1])
         && Substituted(cc, OVERRIDE_PATTERN, stages[1], stages[2])
         && Substituted(cc, INSTRUCTIONS_PATTERN, stages[2], stages[3])
         && Substituted(cc, IGNORE_ALL_PATTERN, stages[3], stages[4])
         && Substituted(cc, YOU_ARE_NOW_PATTERN, stages[4], stages[5])
  {
    TableIsLettered();
    stages := PatternsByStages(cc, INJECTION_PATTERNS, EscapeBoundaryMarkers(text));
    assert Substituted(cc, INJECTION_PATTERNS[0], stages[0], stages[1]);
    assert Substituted(cc, INJECTION_PATTERNS[1], stages[1], stages[2]);
    assert Substituted(cc, INJECTION_PATTERNS[2], stages[2], stages[3]);
    assert Substituted(cc, INJECTION_PATTERNS[3], stages[3], stages[4]);
    assert Substituted(cc, INJECTION_PATTERNS[4], stages[4], stages[5]);
  }

  lemma OneWordPutsAreInert(m: string)
    requires m == BOUNDARY_START || m == BOUNDARY_END
    ensures Inert("[ESCAPED_SYSTEM]", m)
    ensures Inert("[ESCAPED_OVERRIDE]", m)
  {
  }

  lemma InstructionsPutIsInert(m: string)
    requires m == BOUNDARY_START || m == BOUNDARY_END
    ensures Inert(" [ESCAPED_INSTRUCTIONS]", m)
  {
  }

  lemma IgnoreAllPutIsInert(m: string)
    requires m == BOUNDARY_START || m == BOUNDARY_END
    ensures Inert("[ESCAPED_IGNORE_ALL]", m)
  {
  }

  lemma YouAreNowPutIsInert(m: string)
    requires m == BOUNDARY_START || m == BOUNDARY_END
    ensures Inert("[ESCAPED_YOU_ARE_NOW]", m)
  {
  }

  lemma InjectionTableIsInert(m: string)
    requires m == BOUNDARY_START || m == BOUNDARY_END
    ensures forall p | p in INJECTION_PATTERNS :: Inert(p.put, m)
  {
    OneWordPutsAreInert(m);
    InstructionsPutIsInert(m);
    IgnoreAllPutIsInert(m);
    YouAreNowPutIsInert(m);
  }

  lemma InjectionTableIsSafe()
    ensures SafeTable(INJECTION_PATTERNS)
  {
    InjectionTableIsInert(BOUNDARY_START);
    InjectionTableIsInert(BOUNDARY_END);
  }

  /** No pattern of the table splices a marker out of a text that has none. */
  lemma PatternKeepsMarkerFree(cc: CharClasses, pattern: Pattern, s: string)
    requires SafeTable([pattern]) && FreeOfMarkers(s)
    ensures FreeOfMarkers(PatternSub(cc, pattern, s))
  {
    var edits := PatternScan(cc, pattern, s, 0);
    assert pattern in [pattern];
    PatternScanReads(cc, pattern, s, 0);
    PatternScanPuts(cc, pattern, s, 0);
    assert Source(edits) == s;
    NothingSpliced(edits, BOUNDARY_START);
    NothingSpliced(edits, BOUNDARY_END);
  }

  function ApplyPatterns(cc: CharClasses, patterns: seq<Pattern>, s: string): string {
    if patterns == [] then s
    else PatternSub(cc, patterns[|patterns| - 1], ApplyPatterns(cc, patterns[..|patterns| - 1], s))
  }

  function Sanitized(cc: CharClasses, text: string): string {
    if text == "" then "" else ApplyPatterns(cc, INJECTION_PATTERNS, EscapeBoundaryMarkers(text))
  }

  lemma {:induction false} ApplyPatternsKeepsMarkerFree(cc: CharClasses, patterns: seq<Pattern>, s: string)
    requires SafeTable(patterns) && FreeOfMarkers(s)
    ensures FreeOfMarkers(ApplyPatterns(cc, patterns, s))
  {
    if patterns == [] {
    } else {
      ApplyPatternsKeepsMarkerFree(cc, patterns[..|patterns| - 1], s);
      PatternKeepsMarkerFree(cc, patterns[|patterns| - 1], ApplyPatterns(cc, patterns[..|patterns| - 1], s));
    }
  }

  /** Whatever the peer sends, the sanitised text contains neither marker. */
  lemma SanitizedIsFreeOfMarkers(cc: CharClasses, text: string)
    ensures FreeOfMarkers(Sanitized(cc, text))
  {
    EscapedIsFreeOfMarkers(text);
    InjectionTableIsSafe();
    if text != "" {
      ApplyPatternsKeepsMarkerFree(cc, INJECTION_PATTERNS, EscapeBoundaryMarkers(text));
    } else {
      EscapeFixesExactlyMarkerFree("");
      assert EscapeBoundaryMarkers("") == "";
    }
  }

  method RunPatterns(cc: CharClasses, patterns: seq<Pattern>, text: string) returns (escaped: string)
    ensures escaped == ApplyPatterns(cc, patterns, text)
  {
    escaped := text;
    for i := 0 to |patterns|
      invariant escaped == ApplyPatterns(cc, patterns[..i], text)
    {
      assert patterns[..i + 1][..i] == patterns[..i];
      escaped := PatternSub(cc, patterns[i], escaped);
    }
    assert patterns[..|patterns|] == patterns;
  }

  /** `sanitize_a2a_result`. */
  method SanitizeA2aResult(cc: CharClasses, text: string) returns (escaped: string)
    ensures escaped == Sanitized(cc, text)
    ensures FreeOfMarkers(escaped)
    ensures Sane(cc) && text != "" ==>
              exists stages :: Stages(cc, INJECTION_PATTERNS, stages)
                && stages[0] == EscapeBoundaryMarkers(text) && stages[|INJECTION_PATTERNS|] == escaped
  {
    if text == "" {
      escaped := text;
    } else {
      escaped := RunPatterns(cc, INJECTION_PATTERNS, EscapeBoundaryMarkers(text));
    }
    SanitizedIsFreeOfMarkers(cc, text);
    if Sane(cc) && text != "" {
      TableIsLettered();
      ghost var stages := PatternsByStages(cc, INJECTION_PATTERNS, EscapeBoundaryMarkers(text));
    }
  }
}
