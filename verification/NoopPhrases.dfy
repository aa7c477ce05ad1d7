/** When the replay guard takes an output for a no-op (molecule_runtime/autonomous_loop_guard.py,
    `looks_like_noop`): said on the output itself, not on its normal form. */
module NoopPhrases {
  import opened OutputNormalizer
  import opened OutputWords
  import opened Edits
  import opened Text
  import opened Wrappers

  /** The marker phrases, word by word. */
  const NOOP_PHRASES: seq<seq<string>> := [
    ["no", "new", "info"], ["no", "new", "information"], ["no", "state", "change"], ["no", "state", "changes"],
    ["no", "changes"], ["nothing", "new"], ["nothing", "to", "report"], ["already", "delivered"],
    ["already", "reported"], ["already", "completed"], ["already", "merged"], ["replay", "of"],
    ["no", "action", "needed"], ["no", "further", "action"], ["still", "pending", "your", "decision"]
  ]

  /** The text spells the words, in any letter case, with one blank or more between each two. */
  ghost predicate Phrase(words: seq<string>, text: string)
    decreases |words|
  {
    words != [] &&
    if |words| == 1 then Lower(text) == words[0]
    else
      exists p, q | 0 <= p < q <= |text| ::
        Lower(text[..p]) == words[0] && Blank(text[p..q]) && Phrase(words[1..], text[q..])
  }

  /** Somewhere in the text stands a marker phrase. */
  ghost predicate SaysPhrase(text: string) {
    exists k | 0 <= k < |NOOP_PHRASES| :: Says(NOOP_PHRASES[k], text)
  }

  ghost predicate Says(words: seq<string>, text: string) {
    exists i, j | 0 <= i <= j <= |text| :: Phrase(words, text[i..j])
  }

  /** Lower-case letters, one of them no hex digit. */
  predicate SteadyWord(w: string) {
    && w != "" && (forall i | 0 <= i < |w| :: 'a' <= w[i] <= 'z')
    && exists i | 0 <= i < |w| :: !IsHex(w[i])
  }

  predicate Steady(words: seq<string>) {
    words != [] && forall w | w in words :: SteadyWord(w)
  }

  function JoinWords(words: seq<string>): string {
    if words == [] then ""
    else if |words| == 1 then words[0]
    else words[0] + " " + JoinWords(words[1..])
  }

  // ---- the table --------------------------------------------------------------

  lemma SteadyTail(words: seq<string>)
    requires Steady(words) && |words| > 1
    ensures Steady(words[1..]) && SteadyWord(words[0])
  {
    assert words[0] in words && forall w | w in words[1..] :: w in words;
  }

  lemma SteadyBy(w: string, n: nat)
    requires n < |w| && !IsHex(w[n]) && forall i | 0 <= i < |w| :: 'a' <= w[i] <= 'z'
    ensures SteadyWord(w)
  {
  }

  lemma SteadyPair(a: string, m: nat, b: string, n: nat)
    requires m < |a| && !IsHex(a[m]) && forall i | 0 <= i < |a| :: 'a' <= a[i] <= 'z'
    requires n < |b| && !IsHex(b[n]) && forall i | 0 <= i < |b| :: 'a' <= b[i] <= 'z'
    ensures Steady([a, b])
  {
    SteadyBy(a, m);
    SteadyBy(b, n);
  }

  lemma SteadyCons(a: string, m: nat, words: seq<string>)
    requires m < |a| && !IsHex(a[m]) && (forall i | 0 <= i < |a| :: 'a' <= a[i] <= 'z') && Steady(words)
    ensures Steady([a] + words)
  {
    SteadyBy(a, m);
  }

  lemma NoNewInfoIsSteady()
    ensures Steady(["no", "new", "info"])
  {
    SteadyPair("new", 0, "info", 0);
    SteadyCons("no", 0, ["new", "info"]);
    assert ["no"] + ["new", "info"] == ["no", "new", "info"];
  }

  lemma NoNewInformationIsSteady()
    ensures Steady(["no", "new", "information"])
  {
    SteadyPair("new", 0, "information", 0);
    SteadyCons("no", 0, ["new", "information"]);
    assert ["no"] + ["new", "information"] == ["no", "new", "information"];
  }

  lemma NoStateChangeIsSteady()
    ensures Steady(["no", "state", "change"])
  {
    SteadyPair("state", 0, "change", 1);
    SteadyCons("no", 0, ["state", "change"]);
    assert ["no"] + ["state", "change"] == ["no", "state", "change"];
  }

  lemma NoStateChangesIsSteady()
    ensures Steady(["no", "state", "changes"])
  {
    SteadyPair("state", 0, "changes", 1);
    SteadyCons("no", 0, ["state", "changes"]);
    assert ["no"] + ["state", "changes"] == ["no", "state", "changes"];
  }

  lemma NoChangesIsSteady()
    ensures Steady(["no", "changes"])
  {
    SteadyPair("no", 0, "changes", 1);
  }

  lemma NothingNewIsSteady()
    ensures Steady(["nothing", "new"])
  {
    SteadyPair("nothing", 0, "new", 0);
  }

  lemma NothingToReportIsSteady()
    ensures Steady(["nothing", "to", "report"])
  {
    SteadyPair("to", 0, "report", 0);
    SteadyCons("nothing", 0, ["to", "report"]);
    assert ["nothing"] + ["to", "report"] == ["nothing", "to", "report"];
  }

  lemma AlreadyDeliveredIsSteady()
    ensures Steady(["already", "delivered"])
  {
    SteadyPair("already", 1, "delivered", 2);
  }

  lemma AlreadyReportedIsSteady()
    ensures Steady(["already", "reported"])
  {
    SteadyPair("already", 1, "reported", 0);
  }

  lemma AlreadyCompletedIsSteady()
    ensures Steady(["already", "completed"])
  {
    SteadyPair("already", 1, "completed", 1);
  }

  lemma AlreadyMergedIsSteady()
    ensures Steady(["already", "merged"])
  {
    SteadyPair("already", 1, "merged", 0);
  }

  lemma ReplayOfIsSteady()
    ensures Steady(["replay", "of"])
  {
    SteadyPair("replay", 0, "of", 0);
  }

  lemma NoActionNeededIsSteady()
    ensures Steady(["no", "action", "needed"])
  {
    SteadyPair("action", 2, "needed", 0);
    SteadyCons("no", 0, ["action", "needed"]);
    assert ["no"] + ["action", "needed"] == ["no", "action", "needed"];
  }

  lemma NoFurtherActionIsSteady()
    ensures Steady(["no", "further", "action"])
  {
    SteadyPair("further", 1, "action", 2);
    SteadyCons("no", 0, ["further", "action"]);
    assert ["no"] + ["further", "action"] == ["no", "further", "action"];
  }

  lemma StillPendingYourDecisionIsSteady()
    ensures Steady(["still", "pending", "your", "decision"])
  {
    SteadyPair("your", 0, "decision", 3);
    SteadyCons("pending", 0, ["your", "decision"]);
    assert ["pending"] + ["your", "decision"] == ["pending", "your", "decision"];
    SteadyCons("still", 0, ["pending", "your", "decision"]);
    assert ["still"] + ["pending", "your", "decision"] == ["still", "pending", "your", "decision"];
  }

  lemma PhraseIsSteady(k: nat)
    requires k < |NOOP_PHRASES|
    ensures Steady(NOOP_PHRASES[k]) && |NOOP_PHRASES[k]| >= 2
  {
    match k {
      case 0 => NoNewInfoIsSteady();
      case 1 => NoNewInformationIsSteady();
      case 2 => NoStateChangeIsSteady();
      case 3 => NoStateChangesIsSteady();
      case 4 => NoChangesIsSteady();
      case 5 => NothingNewIsSteady();
      case 6 => NothingToReportIsSteady();
      case 7 => AlreadyDeliveredIsSteady();
      case 8 => AlreadyReportedIsSteady();
      case 9 => AlreadyCompletedIsSteady();
      case 10 => AlreadyMergedIsSteady();
      case 11 => ReplayOfIsSteady();
      case 12 => NoActionNeededIsSteady();
      case 13 => NoFurtherActionIsSteady();
      case _ => StillPendingYourDecisionIsSteady();
    }
  }

  lemma JoinTwo(a: string, b: string, marker: string)
    requires a + " " + b == marker
    ensures JoinWords([a, b]) == marker
  {
    assert [a, b][1..] == [b];
  }

  lemma JoinThree(a: string, b: string, c: string, marker: string)
    requires a + " " + (b + " " + c) == marker
    ensures JoinWords([a, b, c]) == marker
  {
    assert [a, b, c][1..] == [b, c];
    JoinTwo(b, c, b + " " + c);
  }

  lemma InfoMarkersJoin()
    ensures JoinWords(NOOP_PHRASES[0]) == NOOP_MARKERS[0]
    ensures JoinWords(NOOP_PHRASES[1]) == NOOP_MARKERS[1]
  {
    JoinThree("no", "new", "info", "no new info");
    JoinThree("no", "new", "information", "no new information");
  }

  lemma StateMarkersJoin()
    ensures JoinWords(NOOP_PHRASES[2]) == NOOP_MARKERS[2]
    ensures JoinWords(NOOP_PHRASES[3]) == NOOP_MARKERS[3]
  {
    JoinThree("no", "state", "change", "no state change");
    JoinThree("no", "state", "changes", "no state changes");
  }

  lemma NextMarkersJoin()
    ensures JoinWords(NOOP_PHRASES[4]) == NOOP_MARKERS[4]
    ensures JoinWords(NOOP_PHRASES[5]) == NOOP_MARKERS[5]
    ensures JoinWords(NOOP_PHRASES[6]) == NOOP_MARKERS[6]
    ensures JoinWords(NOOP_PHRASES[7]) == NOOP_MARKERS[7]
  {
    JoinTwo("no", "changes", "no changes");
    JoinTwo("nothing", "new", "nothing new");
    JoinThree("nothing", "to", "report", "nothing to report");
    JoinTwo("already", "delivered", "already delivered");
  }

  lemma LaterMarkersJoin()
    ensures JoinWords(NOOP_PHRASES[8]) == NOOP_MARKERS[8]
    ensures JoinWords(NOOP_PHRASES[9]) == NOOP_MARKERS[9]
    ensures JoinWords(NOOP_PHRASES[10]) == NOOP_MARKERS[10]
    ensures JoinWords(NOOP_PHRASES[11]) == NOOP_MARKERS[11]
  {
    JoinTwo("already", "reported", "already reported");
    JoinTwo("already", "completed", "already completed");
    JoinTwo("already", "merged", "already merged");
    JoinTwo("replay", "of", "replay of");
  }

  lemma FourWordMarkerJoins()
    ensures JoinWords(["still", "pending", "your", "decision"]) == "still pending your decision"
  {
    JoinThree("pending", "your", "decision", "pending your decision");
    assert ["still", "pending", "your", "decision"][1..] == ["pending", "your", "decision"];
    assert "still" + " " + "pending your decision" == "still pending your decision";
  }

  lemma ActionMarkersJoin()
    ensures JoinWords(NOOP_PHRASES[12]) == NOOP_MARKERS[12]
    ensures JoinWords(NOOP_PHRASES[13]) == NOOP_MARKERS[13]
  {
    JoinThree("no", "action", "needed", "no action needed");
    JoinThree("no", "further", "action", "no further action");
  }

  /** The phrases are the markers of the source. */
  lemma MarkersJoin()
    ensures |NOOP_PHRASES| == |NOOP_MARKERS|
    ensures forall k | 0 <= k < |NOOP_PHRASES| :: JoinWords(NOOP_PHRASES[k]) == NOOP_MARKERS[k]
  {
    InfoMarkersJoin();
    StateMarkersJoin();
    NextMarkersJoin();
    LaterMarkersJoin();
    ActionMarkersJoin();
    FourWordMarkerJoins();
  }

  // ---- phrases without letter case ------------------------------------------------

  /** The text spells the words exactly, with blanks between them. */
  ghost predicate Exact(words: seq<string>, text: string)
    decreases |words|
  {
    words != [] &&
    if |words| == 1 then text == words[0]
    else
      exists p, q | 0 <= p < q <= |text| ::
        text[..p] == words[0] && Blank(text[p..q]) && Exact(words[1..], text[q..])
  }

  lemma ExactFrom(words: seq<string>, first: string, blanks: string, rest: string)
    requires |words| > 1 && first == words[0] && Blank(blanks) && blanks != "" && Exact(words[1..], rest)
    ensures Exact(words, first + blanks + rest)
  {
    var text, p, q := first + blanks + rest, |first|, |first| + |blanks|;
    assert text[..p] == first && text[p..q] == blanks && text[q..] == rest;
  }

  /** An exact phrase in its parts. */
  lemma ExactParts(words: seq<string>, text: string) returns (blanks: string, rest: string)
    requires |words| > 1 && Exact(words, text)
    ensures text == words[0] + blanks + rest && blanks != "" && Blank(blanks) && Exact(words[1..], rest)
  {
    var p, q :| 0 <= p < q <= |text| && text[..p] == words[0] && Blank(text[p..q]) && Exact(words[1..], text[q..]);
    blanks, rest := text[p..q], text[q..];
    assert text == text[..p] + text[p..q] + text[q..];
  }

  lemma BlankInAnyCase(s: string)
    ensures Blank(Lower(s)) <==> Blank(s)
  {
    LowerAt(s);
    if Blank(Lower(s)) {
      forall i | 0 <= i < |s| ensures IsSpace(s[i]) { assert IsSpace(Lower(s)[i]); }
    }
  }

  lemma LowerSlice(s: string, i: nat, j: nat)
    requires i <= j <= |s|
    ensures |Lower(s)| == |s| && Lower(s)[i..j] == Lower(s[i..j])
  {
    LowerAt(s);
    LowerAt(s[i..j]);
  }

  lemma {:induction false} PhraseIffExact(words: seq<string>, text: string)
    ensures Phrase(words, text) <==> Exact(words, Lower(text))
    decreases |words|
  {
    LowerAt(text);
    if |words| > 1 {
      forall p, q | 0 <= p < q <= |text|
        ensures Lower(text[..p]) == words[0] && Blank(text[p..q]) && Phrase(words[1..], text[q..])
           <==> Lower(text)[..p] == words[0] && Blank(Lower(text)[p..q]) && Exact(words[1..], Lower(text)[q..])
      {
        PartsIffExact(words, text, p, q);
      }
    }
  }

  lemma {:induction false} PartsIffExact(words: seq<string>, text: string, p: nat, q: nat)
    requires |words| > 1 && p < q <= |text| == |Lower(text)|
    ensures Lower(text[..p]) == words[0] && Blank(text[p..q]) && Phrase(words[1..], text[q..])
       <==> Lower(text)[..p] == words[0] && Blank(Lower(text)[p..q]) && Exact(words[1..], Lower(text)[q..])
    decreases |words|, 0
  {
    LowerSlice(text, 0, p);
    LowerSlice(text, p, q);
    LowerSlice(text, q, |text|);
    assert text[0..p] == text[..p] && Lower(text)[0..p] == Lower(text)[..p];
    assert text[q..|text|] == text[q..] && Lower(text)[q..|text|] == Lower(text)[q..];
    BlankInAnyCase(text[p..q]);
    PhraseIffExact(words[1..], text[q..]);
  }

  /** An exact phrase stands in the text. */
  ghost predicate Has(words: seq<string>, text: string) {
    exists a, phrase, b :: Around(text, a, phrase, b) && Exact(words, phrase)
  }

  predicate Around(text: string, a: string, phrase: string, b: string) {
    text == a + phrase + b
  }

  lemma SaysIffHas(words: seq<string>, text: string)
    ensures Says(words, text) <==> Has(words, Lower(text))
  {
    LowerAt(text);
    if Says(words, text) {
      var i, j :| 0 <= i <= j <= |text| && Phrase(words, text[i..j]);
      PhraseIffExact(words, text[i..j]);
      LowerSlice(text, i, j);
      var low := Lower(text);
      assert low == low[..i] + low[i..j] + low[j..];
      assert Around(low, low[..i], low[i..j], low[j..]);
    }
    if Has(words, Lower(text)) {
      var a, phrase, b :| Around(Lower(text), a, phrase, b) && Exact(words, phrase);
      var i, j := |a|, |a| + |phrase|;
      LowerSlice(text, i, j);
      assert Lower(text)[i..j] == phrase;
      PhraseIffExact(words, text[i..j]);
    }
  }

  // ---- what a phrase is made of -----------------------------------------------------

  predicate PhraseChar(c: char) { 'a' <= c <= 'z' || IsSpace(c) }

  /** A steady phrase starts and ends with a letter and holds letters and blanks only. */
  lemma {:induction false} PhraseIsSolid(words: seq<string>, text: string)
    requires Steady(words) && Exact(words, text)
    ensures text != "" && 'a' <= text[0] <= 'z' && 'a' <= text[|text| - 1] <= 'z' && All(PhraseChar, text)
    ensures |words| >= 2 ==> |text| >= 3
    decreases |words|
  {
    assert words[0] in words;
    if |words| > 1 {
      var blanks, rest := ExactParts(words, text);
      SteadyTail(words);
      PhraseIsSolid(words[1..], rest);
      PartsAreSolid(words[0], blanks, rest);
    }
  }

  lemma PartsAreSolid(w: string, blanks: string, rest: string)
    requires SteadyWord(w) && Blank(blanks) && blanks != "" && rest != "" && All(PhraseChar, rest)
    ensures var text := w + blanks + rest;
            && text != "" && text[0] == w[0] && text[|text| - 1] == rest[|rest| - 1]
            && All(PhraseChar, text) && |text| >= 3
  {
    var text := w + blanks + rest;
    forall i | 0 <= i < |text| ensures PhraseChar(text[i]) {
      if i >= |w| + |blanks| { assert text[i] == rest[i - |w| - |blanks|]; }
    }
  }

  // ---- stripping ---------------------------------------------------------------------

  lemma HasInLonger(words: seq<string>, before: string, text: string, after: string)
    requires Has(words, text)
    ensures Has(words, before + text + after)
  {
    var a, phrase, b :| Around(text, a, phrase, b) && Exact(words, phrase);
    assert before + (a + phrase + b) + after == (before + a) + phrase + (b + after);
    assert Around(before + text + after, before + a, phrase, b + after);
  }

  /** A phrase does not reach into blanks around the text. */
  lemma HasInside(words: seq<string>, before: string, text: string, after: string)
    requires Steady(words) && Has(words, before + text + after) && Blank(before) && Blank(after)
    ensures Has(words, text)
  {
    var whole := before + text + after;
    var a, phrase, b :| Around(whole, a, phrase, b) && Exact(words, phrase);
    PhraseIsSolid(words, phrase);
    var i, j := |a|, |a| + |phrase|;
    assert whole[i] == phrase[0] && whole[j - 1] == phrase[|phrase| - 1];
    NoLetterInBlanks(before, text, after, i);
    NoLetterInBlanks(before, text, after, j - 1);
    var m := |before|;
    assert whole[i..j] == phrase;
    assert text[i - m..j - m] == whole[i..j];
    assert text == text[..i - m] + text[i - m..j - m] + text[j - m..];
    assert Around(text, text[..i - m], phrase, text[j - m..]);
  }

  lemma CharOfThree(before: string, text: string, after: string, i: nat)
    requires i < |before + text + after|
    ensures i < |before| ==> (before + text + after)[i] == before[i]
    ensures i >= |before| + |text| ==> (before + text + after)[i] == after[i - |before| - |text|]
  {
  }

  lemma NoLetterInBlanks(before: string, text: string, after: string, i: nat)
    requires Blank(before) && Blank(after) && i < |before + text + after|
    requires 'a' <= (before + text + after)[i] <= 'z'
    ensures |before| <= i < |before| + |text|
  {
    CharOfThree(before, text, after, i);
  }

  lemma HasIffStripped(words: seq<string>, text: string)
    requires Steady(words)
    ensures Has(words, Lower(text)) <==> Has(words, Lower(Strip(text)))
  {
    var before, after := StripTrims(text);
    LowerThree(before, Strip(text), after);
    BlankInAnyCase(before);
    BlankInAnyCase(after);
    if Has(words, Lower(text)) {
      HasInside(words, Lower(before), Lower(Strip(text)), Lower(after));
    }
    if Has(words, Lower(Strip(text))) {
      HasInLonger(words, Lower(before), Lower(Strip(text)), Lower(after));
    }
  }

  // ---- hiding the tokens: a phrase is copied, and nothing else makes one ---------------

  function Copies(s: string): seq<Edit> {
    if s == "" then [] else [Copy(s[0])] + Copies(s[1..])
  }

  lemma {:induction false} CopiesCopy(s: string)
    ensures Source(Copies(s)) == s && Target(Copies(s)) == s
    ensures forall e | e in Copies(s) :: e.Copy?
  {
    if s == "" {
    } else {
      CopiesCopy(s[1..]);
      assert Copies(s)[1..] == Copies(s[1..]) && [s[0]] + s[1..] == s;
    }
  }

  lemma PieceAsEdits(w: string, after: string) returns (edits: seq<Edit>)
    requires after == w || after == "#"
    ensures Source(edits) == w && Target(edits) == after
    ensures forall e | e in edits && e.Put? :: e.put == "#"
  {
    if after == w {
      CopiesCopy(w);
      edits := Copies(w);
    } else {
      edits := [Put(w, "#")];
      assert edits[1..] == [] && w + "" == w && "#" + "" == "#";
    }
  }

  /** A rewriting of runs into `#`, or not at all, as a pass of edits. */
  lemma {:induction false} RunsAsEdits(p: char -> bool, f: string -> string, s: string) returns (edits: seq<Edit>)
    requires forall w :: f(w) == w || f(w) == "#"
    ensures Source(edits) == s && Target(edits) == MapRuns(p, f, s)
    ensures forall e | e in edits && e.Put? :: e.put == "#"
    decreases |s|
  {
    if s == "" {
      edits := [];
    } else {
      var k := if p(s[0]) then Run(p, s) else 1;
      var piece, tail := s[..k], s[k..];
      assert piece + tail == s && (!p(s[0]) ==> piece == [s[0]]);
      var first := PieceAsEdits(piece, if p(s[0]) then f(piece) else piece);
      var rest := RunsAsEdits(p, f, tail);
      ConcatEdits(first, rest);
      MapRunsUnfold(p, f, s, k);
      edits := first + rest;
    }
  }

  lemma HashIsInert(phrase: string)
    requires |phrase| >= 3 && All(PhraseChar, phrase)
    ensures Inert("#", phrase)
  {
    forall k | 0 <= k < |phrase| ensures phrase[k] != '#' { assert PhraseChar(phrase[k]); }
  }

  lemma HidingMakesNoPhrase(s: string, phrase: string)
    requires |phrase| >= 3 && All(PhraseChar, phrase) && Contains(HideTokens(s), phrase)
    ensures Contains(s, phrase)
  {
    HashIsInert(phrase);
    var first := RunsAsEdits(IsWordChar, HashHexWord, s);
    var second := RunsAsEdits(IsDigit, HashDigits, Target(first));
    if !Contains(s, phrase) {
      NothingSpliced(first, phrase);
      NothingSpliced(second, phrase);
    }
  }

  lemma RegroupParts(u: string, w: string, blanks: string, rest: string, v: string)
    ensures u + (w + blanks + rest) + v == (u + w + "") + blanks + ("" + rest + v)
  {
  }

  lemma WordChars(u: string, w: string, v: string)
    requires All(IsWordChar, u) && All(IsWordChar, w) && All(IsWordChar, v)
    ensures All(IsWordChar, u + w + v)
  {
    var whole := u + w + v;
    forall i | 0 <= i < |whole| ensures IsWordChar(whole[i]) {
      if i < |u| {
        assert whole[i] == u[i];
      } else if i < |u| + |w| {
        assert whole[i] == w[i - |u|];
      } else {
        assert whole[i] == v[i - |u| - |w|];
      }
    }
  }

  lemma WordIsNotHashed(u: string, w: string, v: string)
    requires SteadyWord(w) && All(IsWordChar, u) && All(IsWordChar, v)
    ensures MapRuns(IsWordChar, HashHexWord, u + w + v) == u + w + v
  {
    var n :| 0 <= n < |w| && !IsHex(w[n]);
    assert (u + w + v)[|u| + n] == w[n];
    WordChars(u, w, v);
    MapRunsWhole(IsWordChar, HashHexWord, u + w + v);
  }

  lemma {:induction false} BlanksAreCopied(blanks: string)
    requires Blank(blanks)
    ensures MapRuns(IsWordChar, HashHexWord, blanks) == blanks
  {
    if blanks == "" {
    } else {
      BlanksAreCopied(blanks[1..]);
      assert [blanks[0]] + blanks[1..] == blanks;
    }
  }

  lemma BlanksThenPhrase(first: string, blanks: string, rest: string)
    requires Blank(blanks) && blanks != ""
    requires MapRuns(IsWordChar, HashHexWord, first) == first && MapRuns(IsWordChar, HashHexWord, rest) == rest
    ensures MapRuns(IsWordChar, HashHexWord, first + blanks + rest) == first + blanks + rest
  {
    BlanksAreCopied(blanks);
    MapRunsSplit(IsWordChar, HashHexWord, first, blanks);
    assert (first + blanks)[|first + blanks| - 1] == blanks[|blanks| - 1];
    MapRunsSplit(IsWordChar, HashHexWord, first + blanks, rest);
  }

  /** A phrase, with what is left of words before and after it, is hidden nowhere. */
  lemma {:induction false} PhraseIsNotHashed(u: string, words: seq<string>, phrase: string, v: string)
    requires Steady(words) && Exact(words, phrase) && All(IsWordChar, u) && All(IsWordChar, v)
    ensures MapRuns(IsWordChar, HashHexWord, u + phrase + v) == u + phrase + v
    decreases |words|
  {
    assert words[0] in words;
    if |words| == 1 {
      WordIsNotHashed(u, phrase, v);
    } else {
      var blanks, rest := ExactParts(words, phrase);
      SteadyTail(words);
      WordIsNotHashed(u, words[0], "");
      PhraseIsNotHashed("", words[1..], rest, v);
      BlanksThenPhrase(u + words[0] + "", blanks, "" + rest + v);
      RegroupParts(u, words[0], blanks, rest, v);
    }
  }

  /** The word characters at the end of a text. */
  lemma {:induction false} WordTail(s: string) returns (a: string, u: string)
    ensures s == a + u && All(IsWordChar, u) && WordStarts(a)
  {
    if s == "" || !IsWordChar(s[|s| - 1]) {
      a, u := s, "";
      assert s == s + "";
    } else {
      var n := |s| - 1;
      a, u := WordTail(s[..n]);
      assert s == s[..n] + [s[n]];
      assert a + (u + [s[n]]) == a + u + [s[n]];
      u := u + [s[n]];
    }
  }

  lemma WordHead(s: string) returns (v: string, b: string)
    ensures s == v + b && All(IsWordChar, v) && WordEnds(b)
  {
    var k := Run(IsWordChar, s);
    v, b := s[..k], s[k..];
  }

  lemma HashAroundPhrase(a: string, words: seq<string>, phrase: string, b: string)
    requires Steady(words) && Exact(words, phrase)
    ensures Contains(MapRuns(IsWordChar, HashHexWord, a + phrase + b), phrase)
  {
    var a1, u := WordTail(a);
    var v, b1 := WordHead(b);
    var kept := u + phrase + v;
    PhraseIsSolid(words, phrase);
    PhraseIsNotHashed(u, words, phrase, v);
    RegroupAround(a1, u, phrase, v, b1);
    assert kept != "";
    MapRunsSplit(IsWordChar, HashHexWord, a1, kept + b1);
    MapRunsSplit(IsWordChar, HashHexWord, kept, b1);
    var before, after := MapRuns(IsWordChar, HashHexWord, a1), MapRuns(IsWordChar, HashHexWord, b1);
    RegroupAround(before, u, phrase, v, after);
    ContainsAround(before + u, phrase, v + after);
  }

  lemma RegroupAround(a: string, u: string, phrase: string, v: string, b: string)
    ensures (a + u) + phrase + (v + b) == a + ((u + phrase + v) + b)
  {
  }

  lemma ContainsAround(a: string, phrase: string, b: string)
    ensures Contains(a + phrase + b, phrase)
  {
    assert (a + phrase + b)[|a|..|a| + |phrase|] == phrase;
    assert OccursAt(a + phrase + b, phrase, |a|);
  }

  lemma ContainsSplits(s: string, phrase: string) returns (a: string, b: string)
    requires Contains(s, phrase)
    ensures s == a + phrase + b
  {
    var p :| 0 <= p <= |s| && OccursAt(s, phrase, p);
    a, b := s[..p], s[p + |phrase|..];
  }

  /** Digits are hidden around a phrase, not in it. */
  lemma DigitsAroundPhrase(a: string, phrase: string, b: string)
    requires phrase != "" && All(PhraseChar, phrase)
    ensures Contains(MapRuns(IsDigit, HashDigits, a + phrase + b), phrase)
  {
    forall i | 0 <= i < |phrase| ensures !IsDigit(phrase[i]) { assert PhraseChar(phrase[i]); }
    NoDigitsNoChange(phrase);
    Associate(a, phrase, b);
    MapRunsSplit(IsDigit, HashDigits, a, phrase + b);
    MapRunsSplit(IsDigit, HashDigits, phrase, b);
    var before, after := MapRuns(IsDigit, HashDigits, a), MapRuns(IsDigit, HashDigits, b);
    Associate(before, phrase, after);
    ContainsAround(before, phrase, after);
  }

  /** Hiding the tokens keeps the phrases and makes none. */
  lemma HideKeepsPhrases(words: seq<string>, s: string)
    requires Steady(words) && |words| >= 2
    ensures Has(words, HideTokens(s)) <==> Has(words, s)
  {
    if Has(words, s) {
      var a, phrase, b :| Around(s, a, phrase, b) && Exact(words, phrase);
      PhraseIsSolid(words, phrase);
      HashAroundPhrase(a, words, phrase, b);
      var a1, b1 := ContainsSplits(MapRuns(IsWordChar, HashHexWord, s), phrase);
      DigitsAroundPhrase(a1, phrase, b1);
      var a2, b2 := ContainsSplits(HideTokens(s), phrase);
      assert Around(HideTokens(s), a2, phrase, b2);
    }
    if Has(words, HideTokens(s)) {
      var a, phrase, b :| Around(HideTokens(s), a, phrase, b) && Exact(words, phrase);
      PhraseIsSolid(words, phrase);
      ContainsAround(a, phrase, b);
      HidingMakesNoPhrase(s, phrase);
      var a1, b1 := ContainsSplits(s, phrase);
      assert Around(s, a1, phrase, b1);
    }
  }

  // ---- joining the blanks: a phrase becomes its marker ----------------------------------

  function JoinBlanks(s: string): string {
    MapRuns(IsSpace, OneSpace, s)
  }

  lemma LettersAreNoBlanks(w: string)
    requires SteadyWord(w)
    ensures JoinBlanks(w) == w && forall i | 0 <= i < |w| :: !IsSpace(w[i])
  {
    NoBlanksNoChange(w);
  }

  lemma BlanksBecomeOne(blanks: string)
    requires blanks != "" && Blank(blanks)
    ensures JoinBlanks(blanks) == " "
  {
    assert All(IsSpace, blanks);
    MapRunsWhole(IsSpace, OneSpace, blanks);
  }

  lemma {:induction false} PhraseBecomesMarker(words: seq<string>, phrase: string)
    requires Steady(words) && Exact(words, phrase)
    ensures JoinBlanks(phrase) == JoinWords(words)
    decreases |words|
  {
    assert words[0] in words;
    LettersAreNoBlanks(words[0]);
    if |words| > 1 {
      var blanks, rest := ExactParts(words, phrase);
      SteadyTail(words);
      PhraseIsSolid(words[1..], rest);
      PhraseBecomesMarker(words[1..], rest);
      BlanksBecomeOne(blanks);
      Associate(words[0], blanks, rest);
      MapRunsSplit(IsSpace, OneSpace, words[0], blanks + rest);
      MapRunsSplit(IsSpace, OneSpace, blanks, rest);
      Associate(words[0], " ", JoinWords(words[1..]));
    }
  }

  lemma HasBecomesContains(words: seq<string>, s: string)
    requires Steady(words) && Has(words, s)
    ensures Contains(JoinBlanks(s), JoinWords(words))
  {
    var a, phrase, b :| Around(s, a, phrase, b) && Exact(words, phrase);
    PhraseIsSolid(words, phrase);
    PhraseBecomesMarker(words, phrase);
    Associate(a, phrase, b);
    MapRunsSplit(IsSpace, OneSpace, a, phrase + b);
    MapRunsSplit(IsSpace, OneSpace, phrase, b);
    Associate(JoinBlanks(a), JoinBlanks(phrase), JoinBlanks(b));
    ContainsAround(JoinBlanks(a), JoinWords(words), JoinBlanks(b));
  }

  lemma JoinTail(s: string)
    requires s != ""
    ensures !IsSpace(s[0]) ==> JoinBlanks(s) == [s[0]] + JoinBlanks(s[1..])
    ensures IsSpace(s[0]) ==> var k := Run(IsSpace, s); k > 0 && JoinBlanks(s) == " " + JoinBlanks(s[k..])
  {
  }

  lemma PrefixTail(w: string, c: char, rest: string)
    requires w != "" && w <= [c] + rest
    ensures w[0] == c && w[1..] <= rest
  {
    assert ([c] + rest)[1..] == rest;
  }

  lemma StartChar(w: string, s: string)
    requires w != "" && !IsSpace(w[0]) && w <= JoinBlanks(s)
    ensures s != "" && s[0] == w[0] && JoinBlanks(s) == [w[0]] + JoinBlanks(s[1..]) && w[1..] <= JoinBlanks(s[1..])
  {
    JoinTail(s);
    if IsSpace(s[0]) {
      PrefixTail(w, ' ', JoinBlanks(s[Run(IsSpace, s)..]));
    } else {
      PrefixTail(w, s[0], JoinBlanks(s[1..]));
    }
  }

  lemma PrefixByFirst(w: string, s: string)
    requires w != "" && s != "" && s[0] == w[0] && w[1..] <= s[1..]
    ensures w <= s && s[1..][|w| - 1..] == s[|w|..]
  {
    assert w == [w[0]] + w[1..] && s == [s[0]] + s[1..];
  }

  /** A word at the start of the joined text was at the start of the text. */
  lemma {:induction false} WordAtStart(w: string, s: string)
    requires (forall i | 0 <= i < |w| :: !IsSpace(w[i])) && w <= JoinBlanks(s)
    ensures w <= s && JoinBlanks(s) == w + JoinBlanks(s[|w|..])
  {
    if w == "" {
      assert s[0..] == s && "" + JoinBlanks(s) == JoinBlanks(s);
    } else {
      StartChar(w, s);
      WordAtStart(w[1..], s[1..]);
      PrefixByFirst(w, s);
      Associate([w[0]], w[1..], JoinBlanks(s[|w|..]));
      assert [w[0]] + w[1..] == w;
    }
  }

  lemma PrefixAfter(first: string, second: string, third: string, rest: string)
    requires first + second + third <= first + rest
    ensures second + third <= rest
  {
    assert (first + rest)[|first|..] == rest;
    assert (first + second + third)[|first|..] == second + third;
  }

  lemma BlankAtStart(tail: string, rest: string)
    requires " " + rest <= JoinBlanks(tail)
    ensures var k := Run(IsSpace, tail); k > 0 && Blank(tail[..k]) && rest <= JoinBlanks(tail[k..])
  {
    assert JoinBlanks(tail) != "" && JoinBlanks(tail)[0] == ' ';
    JoinTail(tail);
    var k := Run(IsSpace, tail);
    assert (" " + JoinBlanks(tail[k..]))[1..] == JoinBlanks(tail[k..]);
    assert (" " + rest)[1..] == rest;
  }

  lemma FirstWordAtStart(words: seq<string>, s: string)
    requires Steady(words) && |words| > 1 && JoinWords(words) <= JoinBlanks(s)
    ensures words[0] <= s && " " + JoinWords(words[1..]) <= JoinBlanks(s[|words[0]|..])
  {
    var w := words[0];
    SteadyTail(words);
    LettersAreNoBlanks(w);
    assert w <= JoinWords(words);
    WordAtStart(w, s);
    PrefixAfter(w, " ", JoinWords(words[1..]), JoinBlanks(s[|w|..]));
  }

  lemma OnlyWordAtStart(w: string, s: string)
    requires SteadyWord(w) && w <= JoinBlanks(s)
    ensures w <= s
  {
    LettersAreNoBlanks(w);
    WordAtStart(w, s);
  }

  lemma JoinFour(w: string, blanks: string, rest: string, b: string)
    ensures w + (blanks + (rest + b)) == (w + blanks + rest) + b
  {
  }

  lemma Assembled(words: seq<string>, s: string, k: nat, rest: string, b: string) returns (phrase: string)
    requires |words| > 1 && words[0] <= s && 0 < k <= |s| - |words[0]|
    requires var tail := s[|words[0]|..]; Blank(tail[..k]) && tail[k..] == rest + b && Exact(words[1..], rest)
    ensures s == phrase + b && Exact(words, phrase)
  {
    var tail := s[|words[0]|..];
    ExactFrom(words, words[0], tail[..k], rest);
    phrase := words[0] + tail[..k] + rest;
    JoinFour(words[0], tail[..k], rest, b);
    assert tail == tail[..k] + tail[k..] && s == words[0] + tail;
  }

  /** A marker at the start of the joined text was a phrase at the start of the text. */
  lemma {:induction false} MarkerAtStart(words: seq<string>, s: string) returns (phrase: string, b: string)
    requires Steady(words) && JoinWords(words) <= JoinBlanks(s)
    ensures s == phrase + b && Exact(words, phrase)
    decreases |words|
  {
    var w := words[0];
    assert w in words;
    if |words| == 1 {
      OnlyWordAtStart(w, s);
      phrase, b := w, s[|w|..];
    } else {
      SteadyTail(words);
      FirstWordAtStart(words, s);
      var tail := s[|w|..];
      BlankAtStart(tail, JoinWords(words[1..]));
      var k := Run(IsSpace, tail);
      var rest;
      rest, b := MarkerAtStart(words[1..], tail[k..]);
      phrase := Assembled(words, s, k, rest, b);
    }
  }

  lemma LaterInTail(s: string, tail: string, marker: string, p: nat)
    requires p > 0 && |s| == |tail| + 1 && s[1..] == tail && OccursAt(s, marker, p)
    ensures OccursAt(tail, marker, p - 1)
  {
    assert tail[p - 1..p - 1 + |marker|] == s[p..p + |marker|];
  }

  lemma MarkerFirst(words: seq<string>, s: string)
    requires Steady(words) && OccursAt(JoinBlanks(s), JoinWords(words), 0)
    ensures Has(words, s)
  {
    assert JoinWords(words) <= JoinBlanks(s);
    var phrase, b := MarkerAtStart(words, s);
    assert "" + phrase + b == s;
    assert Around(s, "", phrase, b);
  }

  lemma JoinedTail(s: string, k: nat)
    requires s != "" && k == if IsSpace(s[0]) then Run(IsSpace, s) else 1
    ensures 0 < k <= |s| && |JoinBlanks(s)| == |JoinBlanks(s[k..])| + 1 && JoinBlanks(s)[1..] == JoinBlanks(s[k..])
  {
    JoinTail(s);
  }

  lemma HasInTail(words: seq<string>, s: string, k: nat)
    requires k <= |s| && Has(words, s[k..])
    ensures Has(words, s)
  {
    HasInLonger(words, s[..k], s[k..], "");
    assert s[..k] + s[k..] + "" == s;
  }

  lemma {:induction false} ContainsComesFromHas(words: seq<string>, s: string, p: nat)
    requires Steady(words) && OccursAt(JoinBlanks(s), JoinWords(words), p)
    ensures Has(words, s)
    decreases |s|
  {
    if p == 0 {
      MarkerFirst(words, s);
    } else {
      var k := if IsSpace(s[0]) then Run(IsSpace, s) else 1;
      JoinedTail(s, k);
      LaterInTail(JoinBlanks(s), JoinBlanks(s[k..]), JoinWords(words), p);
      ContainsComesFromHas(words, s[k..], p - 1);
      HasInTail(words, s, k);
    }
  }

  lemma JoinKeepsPhrases(words: seq<string>, s: string)
    requires Steady(words)
    ensures Contains(JoinBlanks(s), JoinWords(words)) <==> Has(words, s)
  {
    if Has(words, s) {
      HasBecomesContains(words, s);
    }
    if Contains(JoinBlanks(s), JoinWords(words)) {
      var p :| 0 <= p <= |JoinBlanks(s)| && OccursAt(JoinBlanks(s), JoinWords(words), p);
      ContainsComesFromHas(words, s, p);
    }
  }

  // ---- the whole ----------------------------------------------------------------------

  lemma MarkerIffSays(words: seq<string>, text: string)
    requires Steady(words) && |words| >= 2
    ensures Contains(Normalize(text), JoinWords(words)) <==> Says(words, text)
  {
    JoinKeepsPhrases(words, HideTokens(Lower(Strip(text))));
    HideKeepsPhrases(words, Lower(Strip(text)));
    HasIffStripped(words, text);
    SaysIffHas(words, text);
  }

  /** An output is taken for a no-op if and only if a marker phrase stands in it, in any
      letter case and with any blanks between its words. */
  lemma NoopIffSaysPhrase(text: string)
    ensures LooksLikeNoop(text) <==> SaysPhrase(text)
  {
    MarkersJoin();
    forall k | 0 <= k < |NOOP_PHRASES|
      ensures Contains(Normalize(text), NOOP_MARKERS[k]) <==> Says(NOOP_PHRASES[k], text)
    {
      PhraseIsSteady(k);
      MarkerIffSays(NOOP_PHRASES[k], text);
    }
    if LooksLikeNoop(text) {
      var marker :| marker in NOOP_MARKERS && Contains(Normalize(text), marker);
      var k :| 0 <= k < |NOOP_MARKERS| && NOOP_MARKERS[k] == marker;
      assert Says(NOOP_PHRASES[k], text);
    }
    if SaysPhrase(text) {
      var k :| 0 <= k < |NOOP_PHRASES| && Says(NOOP_PHRASES[k], text);
      assert NOOP_MARKERS[k] in NOOP_MARKERS;
    }
  }
}
