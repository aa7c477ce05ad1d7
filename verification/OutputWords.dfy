/** What the normaliser of the replay guard keeps and what it forgets
    (molecule_runtime/autonomous_loop_guard.py): words without digits keep apart the outputs
    that differ in them; ids and digits keep none apart. */
module OutputWords {
  import opened OutputNormalizer
  import opened Text
  import opened Wrappers

  /** A word the normaliser leaves as it is: no digit, and not six hex digits or more. */
  predicate Lasting(w: string) {
    (forall i | 0 <= i < |w| :: !IsDigit(w[i])) && (|w| < 6 || !All(IsHex, w))
  }

  /** The lasting words of a text that do not touch a `#`, in order; `hash` says whether a
      `#` stands just before the text. */
  function Standing(hash: bool, s: string): seq<string>
    decreases |s|
  {
    if s == "" then []
    else if IsWordChar(s[0]) then
      var k := Run(IsWordChar, s);
      (if !hash && !(k < |s| && s[k] == '#') && Lasting(s[..k]) then [s[..k]] else []) + Standing(false, s[k..])
    else Standing(s[0] == '#', s[1..])
  }

  predicate WordEnds(rest: string) {
    rest == "" || !IsWordChar(rest[0])
  }

  lemma RunOfWord(w: string, rest: string)
    requires w != "" && All(IsWordChar, w) && WordEnds(rest)
    ensures Run(IsWordChar, w + rest) == |w| && (w + rest)[..|w|] == w && (w + rest)[|w|..] == rest
    ensures (w + rest)[0] == w[0] && IsWordChar(w[0])
  {
    RunSplit(IsWordChar, w, rest);
    assert Run(IsWordChar, w) == |w|;
  }

  lemma StandingAfterWord(hash: bool, w: string, rest: string)
    requires w != "" && All(IsWordChar, w) && WordEnds(rest)
    ensures Standing(hash, w + rest)
         == (if !hash && !(rest != "" && rest[0] == '#') && Lasting(w) then [w] else []) + Standing(false, rest)
  {
    RunOfWord(w, rest);
    assert rest != "" ==> (w + rest)[|w|] == rest[0];
  }

  lemma StandingAfterOther(hash: bool, c: char, rest: string)
    requires !IsWordChar(c)
    ensures Standing(hash, [c] + rest) == Standing(c == '#', rest)
  {
    assert ([c] + rest)[1..] == rest;
  }

  lemma HashBeforeOther(rest: string)
    requires WordEnds(rest)
    ensures Standing(true, rest) == Standing(false, rest)
  {
  }

  // ---- hiding the tokens ----------------------------------------------------

  /** Hiding keeps what is no word character where it is. */
  lemma {:induction false} HideKeepsOther(c: char, rest: string)
    requires !IsWordChar(c)
    ensures HideTokens([c] + rest) == [c] + HideTokens(rest)
  {
    HideTokensSplit([c], rest);
    assert [c][1..] == "" && [c] + "" == [c];
    assert MapRuns(IsWordChar, HashHexWord, [c]) == [c];
    assert MapRuns(IsDigit, HashDigits, [c]) == [c];
  }

  lemma HideKeepsEnd(rest: string)
    requires WordEnds(rest)
    ensures WordEnds(HideTokens(rest)) && (rest != "" <==> HideTokens(rest) != "")
    ensures rest != "" ==> HideTokens(rest)[0] == rest[0]
  {
    if rest != "" {
      assert [rest[0]] + rest[1..] == rest;
      HideKeepsOther(rest[0], rest[1..]);
    }
  }

  lemma HideOfWord(w: string, rest: string)
    requires w != "" && All(IsWordChar, w) && WordEnds(rest)
    ensures HideTokens(w + rest) ==
            (if |w| >= 6 && All(IsHex, w) then "#" else MapRuns(IsDigit, HashDigits, w)) + HideTokens(rest)
  {
    HideTokensSplit(w, rest);
    MapRunsWhole(IsWordChar, HashHexWord, w);
    assert MapRuns(IsDigit, HashDigits, "#") == "#";
  }

  lemma {:induction false} NoDigitsNoChange(w: string)
    requires forall i | 0 <= i < |w| :: !IsDigit(w[i])
    ensures MapRuns(IsDigit, HashDigits, w) == w
  {
    if w == "" {
    } else {
      NoDigitsNoChange(w[1..]);
      assert [w[0]] + w[1..] == w;
    }
  }

  predicate HasDigit(w: string) {
    exists i | 0 <= i < |w| :: IsDigit(w[i])
  }

  predicate NotDigit(c: char) { !IsDigit(c) }

  lemma DigitsFirst(w: string)
    requires w != "" && IsDigit(w[0])
    ensures var k := Run(IsDigit, w); MapRuns(IsDigit, HashDigits, w) == "#" + MapRuns(IsDigit, HashDigits, w[k..])
  {
  }

  lemma LettersFirst(w: string, k: nat)
    requires k <= |w| && All(NotDigit, w[..k]) && (k < |w| ==> IsDigit(w[k]))
    ensures MapRuns(IsDigit, HashDigits, w) == w[..k] + MapRuns(IsDigit, HashDigits, w[k..])
    ensures k < |w| ==> MapRuns(IsDigit, HashDigits, w[k..]) != "" && MapRuns(IsDigit, HashDigits, w[k..])[0] == '#'
  {
    assert w[..k] + w[k..] == w;
    forall i | 0 <= i < k ensures !IsDigit(w[..k][i]) {
      assert NotDigit(w[..k][i]);
    }
    NoDigitsNoChange(w[..k]);
    MapRunsSplit(IsDigit, HashDigits, w[..k], w[k..]);
    if k < |w| { DigitsFirst(w[k..]); }
  }

  lemma HashFirst(hash: bool, tail: string, rest: string)
    ensures Standing(hash, "#" + tail + rest) == Standing(true, tail + rest)
  {
    assert "#" + tail + rest == ['#'] + (tail + rest);
    StandingAfterOther(hash, '#', tail + rest);
  }

  /** What is left of a word with a digit in it touches a `#` everywhere. */
  lemma {:induction false} FragmentsAreNotStanding(hash: bool, w: string, rest: string)
    requires All(IsWordChar, w) && WordEnds(rest) && (hash || w == "" || HasDigit(w))
    ensures Standing(hash, MapRuns(IsDigit, HashDigits, w) + rest) == Standing(false, rest)
    decreases |w|
  {
    if w == "" {
      assert "" + rest == rest;
      if hash { HashBeforeOther(rest); }
    } else if IsDigit(w[0]) {
      var k := Run(IsDigit, w);
      DigitsFirst(w);
      HashFirst(hash, MapRuns(IsDigit, HashDigits, w[k..]), rest);
      assert All(IsWordChar, w[k..]);
      FragmentsAreNotStanding(true, w[k..], rest);
    } else {
      FragmentBeforeHash(hash, w, rest);
    }
  }

  lemma WordBeforeHash(hash: bool, u: string, tail: string, rest: string)
    requires u != "" && All(IsWordChar, u) && tail != "" && tail[0] == '#'
    ensures Standing(hash, u + tail + rest) == Standing(false, tail + rest)
  {
    assert u + tail + rest == u + (tail + rest);
    assert (tail + rest)[0] == '#';
    StandingAfterWord(hash, u, tail + rest);
  }

  /** A word up to its first digit, and from there on. */
  lemma SplitAtDigit(w: string, k: nat)
    requires k == Run(NotDigit, w) < |w| && All(IsWordChar, w)
    ensures IsDigit(w[k]) && All(NotDigit, w[..k])
    ensures All(IsWordChar, w[..k]) && All(IsWordChar, w[k..]) && HasDigit(w[k..])
  {
    assert !NotDigit(w[k]);
    assert w[k..][0] == w[k];
  }

  lemma {:induction false} FragmentBeforeHash(hash: bool, w: string, rest: string)
    requires w != "" && !IsDigit(w[0]) && All(IsWordChar, w) && WordEnds(rest) && (hash || HasDigit(w))
    ensures Standing(hash, MapRuns(IsDigit, HashDigits, w) + rest) == Standing(false, rest)
    decreases |w|, 0
  {
    var k := Run(NotDigit, w);
    if k == |w| {
      NoDigitIn(w, k);
      NoDigitsNoChange(w);
      StandingAfterWord(hash, w, rest);
    } else {
      SplitAtDigit(w, k);
      LettersFirst(w, k);
      WordBeforeHash(hash, w[..k], MapRuns(IsDigit, HashDigits, w[k..]), rest);
      FragmentsAreNotStanding(false, w[k..], rest);
    }
  }

  lemma NoDigitIn(w: string, k: nat)
    requires k == |w| && All(NotDigit, w[..k])
    ensures !HasDigit(w)
  {
    assert w[..k] == w;
    forall i | 0 <= i < |w| ensures !IsDigit(w[i]) {
      assert NotDigit(w[..k][i]);
    }
  }

  lemma WordStands(hash: bool, w: string, rest: string)
    requires w != "" && All(IsWordChar, w) && WordEnds(rest)
    requires Standing(false, HideTokens(rest)) == Standing(false, rest)
    ensures Standing(hash, HideTokens(w + rest)) == Standing(hash, w + rest)
  {
    HideKeepsEnd(rest);
    HideOfWord(w, rest);
    StandingAfterWord(hash, w, rest);
    if |w| >= 6 && All(IsHex, w) {
      StandingAfterOther(hash, '#', HideTokens(rest));
      HashBeforeOther(HideTokens(rest));
    } else if HasDigit(w) {
      FragmentsAreNotStanding(hash, w, HideTokens(rest));
    } else {
      NoDigitsNoChange(w);
      StandingAfterWord(hash, w, HideTokens(rest));
    }
  }

  /** Hiding the tokens keeps the standing words. */
  lemma {:induction false} HideKeepsStanding(hash: bool, s: string)
    ensures Standing(hash, HideTokens(s)) == Standing(hash, s)
    decreases |s|
  {
    if s == "" {
    } else if IsWordChar(s[0]) {
      var k := Run(IsWordChar, s);
      assert s[..k] + s[k..] == s;
      HideKeepsStanding(false, s[k..]);
      WordStands(hash, s[..k], s[k..]);
    } else {
      assert [s[0]] + s[1..] == s;
      HideKeepsStanding(s[0] == '#', s[1..]);
      HideKeepsOther(s[0], s[1..]);
      StandingAfterOther(hash, s[0], HideTokens(s[1..]));
    }
  }

  // ---- joining the blanks ------------------------------------------------------

  lemma {:induction false} BlanksAreSkipped(hash: bool, blanks: string, rest: string)
    requires Blank(blanks) && blanks != ""
    ensures Standing(hash, blanks + rest) == Standing(false, rest)
  {
    assert blanks + rest == [blanks[0]] + (blanks[1..] + rest);
    StandingAfterOther(hash, blanks[0], blanks[1..] + rest);
    if |blanks| == 1 {
      assert blanks[1..] + rest == rest;
    } else {
      BlanksAreSkipped(false, blanks[1..], rest);
    }
  }

  lemma {:induction false} NoBlanksNoChange(w: string)
    requires forall i | 0 <= i < |w| :: !IsSpace(w[i])
    ensures MapRuns(IsSpace, OneSpace, w) == w
  {
    if w == "" {
    } else {
      NoBlanksNoChange(w[1..]);
      assert [w[0]] + w[1..] == w;
    }
  }

  lemma JoinKeepsEnd(rest: string)
    requires WordEnds(rest)
    ensures var joined := MapRuns(IsSpace, OneSpace, rest);
            && WordEnds(joined) && (rest != "" <==> joined != "")
            && (rest != "" ==> (rest[0] == '#' <==> joined[0] == '#'))
  {
  }

  /** So does joining the blanks. */
  lemma {:induction false} JoinKeepsStanding(hash: bool, s: string)
    ensures Standing(hash, MapRuns(IsSpace, OneSpace, s)) == Standing(hash, s)
    decreases |s|
  {
    if s == "" {
    } else if IsWordChar(s[0]) {
      var k := Run(IsWordChar, s);
      var w, rest := s[..k], s[k..];
      assert w + rest == s;
      JoinKeepsStanding(false, rest);
      NoBlanksNoChange(w);
      MapRunsSplit(IsSpace, OneSpace, w, rest);
      JoinKeepsEnd(rest);
      StandingAfterWord(hash, w, rest);
      StandingAfterWord(hash, w, MapRuns(IsSpace, OneSpace, rest));
    } else if IsSpace(s[0]) {
      var k := Run(IsSpace, s);
      assert s[..k] + s[k..] == s;
      JoinKeepsStanding(false, s[k..]);
      BlanksAreSkipped(hash, s[..k], s[k..]);
      BlanksAreSkipped(hash, " ", MapRuns(IsSpace, OneSpace, s[k..]));
    } else {
      assert [s[0]] + s[1..] == s;
      JoinKeepsStanding(s[0] == '#', s[1..]);
      StandingAfterOther(hash, s[0], MapRuns(IsSpace, OneSpace, s[1..]));
    }
  }

  // ---- dropping the blanks at the ends -------------------------------------------

  lemma {:induction false} LastBlankIsSkipped(hash: bool, s: string, c: char)
    requires IsSpace(c)
    ensures Standing(hash, s + [c]) == Standing(hash, s)
    decreases |s|
  {
    if s == "" {
      assert s + [c] == [c] + "";
      StandingAfterOther(hash, c, "");
    } else if IsWordChar(s[0]) {
      var k := Run(IsWordChar, s);
      var w, rest := s[..k], s[k..];
      assert w + rest == s && s + [c] == w + (rest + [c]);
      LastBlankIsSkipped(false, rest, c);
      StandingAfterWord(hash, w, rest);
      StandingAfterWord(hash, w, rest + [c]);
    } else {
      assert [s[0]] + s[1..] == s && s + [c] == [s[0]] + (s[1..] + [c]);
      LastBlankIsSkipped(s[0] == '#', s[1..], c);
      StandingAfterOther(hash, s[0], s[1..]);
      StandingAfterOther(hash, s[0], s[1..] + [c]);
    }
  }

  lemma {:induction false} StripRightKeepsStanding(s: string)
    ensures Standing(false, Lower(StripRight(s))) == Standing(false, Lower(s))
  {
    if s != "" && IsSpace(s[|s| - 1]) {
      var n := |s| - 1;
      StripRightKeepsStanding(s[..n]);
      assert s == s[..n] + [s[n]];
      LowerSplit(s[..n], [s[n]]);
      assert Lower([s[n]]) == [s[n]];
      LastBlankIsSkipped(false, Lower(s[..n]), s[n]);
    }
  }

  lemma {:induction false} StripLeftKeepsStanding(s: string)
    ensures Standing(false, Lower(StripLeft(s))) == Standing(false, Lower(s))
  {
    if s != "" && IsSpace(s[0]) {
      StripLeftKeepsStanding(s[1..]);
      assert Lower(s) == [s[0]] + Lower(s[1..]);
      StandingAfterOther(false, s[0], Lower(s[1..]));
    }
  }

  lemma NormalizeKeepsStanding(text: string)
    ensures Standing(false, Normalize(text)) == Standing(false, Lower(text))
  {
    JoinKeepsStanding(false, HideTokens(Lower(Strip(text))));
    HideKeepsStanding(false, Lower(Strip(text)));
    StripRightKeepsStanding(StripLeft(text));
    StripLeftKeepsStanding(text);
  }

  /** Outputs that normalise alike have the same standing words, lower-cased, in the same
      order: the normaliser makes no two outputs equal that differ in one. */
  lemma AlikeHaveSameWords(x: string, y: string)
    requires Normalize(x) == Normalize(y)
    ensures Standing(false, Lower(x)) == Standing(false, Lower(y))
  {
    NormalizeKeepsStanding(x);
    NormalizeKeepsStanding(y);
  }

  lemma LowerWord(w: string)
    ensures |Lower(w)| == |w|
    ensures All(IsWordChar, w) ==> All(IsWordChar, Lower(w))
    ensures All(IsHex, Lower(w)) <==> All(IsHex, w)
    ensures HasDigit(Lower(w)) <==> HasDigit(w)
  {
    LowerAt(w);
    assert forall i | 0 <= i < |w| :: IsHex(Lower(w)[i]) <==> IsHex(w[i]);
    assert forall i | 0 <= i < |w| :: IsDigit(Lower(w)[i]) <==> IsDigit(w[i]);
    if HasDigit(w) {
      var i :| 0 <= i < |w| && IsDigit(w[i]);
      assert IsDigit(Lower(w)[i]);
    }
  }

  lemma WordThenHash(w: string)
    requires w != "" && All(IsWordChar, w) && !All(IsHex, w) && !HasDigit(w)
    ensures HideTokens(w + "#") == w + "#" && Standing(false, w + "#") == []
  {
    HideOfWord(w, "#");
    HideKeepsOther('#', "");
    assert "#" + "" == "#";
    NoDigitsNoChange(w);
    StandingAfterWord(false, w, "#");
    StandingAfterOther(false, '#', "");
  }

  lemma WordThenDigit(w: string)
    requires w != "" && All(IsWordChar, w) && !All(IsHex, w) && !HasDigit(w)
    ensures HideTokens(w + "1") == w + "#"
  {
    var i :| 0 <= i < |w| && !IsHex(w[i]);
    assert (w + "1")[i] == w[i] && All(IsWordChar, w + "1");
    HideOfWord(w + "1", "");
    MapRunsSplit(IsDigit, HashDigits, w, "1");
    NoDigitsNoChange(w);
    MapRunsWhole(IsDigit, HashDigits, "1");
    assert w + "1" + "" == w + "1" && w + "#" + "" == w + "#";
  }

  lemma LowerTail(w: string, c: char)
    requires w != "" && All(IsWordChar, w) && (c == '#' || c == '1')
    ensures Lower(w + [c]) == Lower(w) + [c] && Lower(Strip(w + [c])) == Lower(w) + [c]
  {
    LowerSplit(w, [c]);
    assert w[0] == (w + [c])[0] && IsWordChar(w[0]);
    StripAround("", w + [c], "");
    assert "" + (w + [c]) + "" == w + [c];
  }

  /** Touching a `#` is what costs a word its standing: whatever the word, written before a
      `#` it normalises like a word with a digit in it. */
  lemma TouchingIsNotStanding(w: string)
    requires w != "" && All(IsWordChar, w) && !All(IsHex, w) && !HasDigit(w)
    ensures Normalize(w + "#") == Normalize(w + "1")
    ensures Standing(false, Lower(w + "#")) == []
  {
    LowerWord(w);
    LowerTail(w, '#');
    LowerTail(w, '1');
    WordThenHash(Lower(w));
    WordThenDigit(Lower(w));
  }

  // ---- blanks are forgotten -------------------------------------------------------

  /** Blanks around an output do not matter. */
  lemma OuterBlanksAreForgotten(before: string, text: string, after: string)
    requires Blank(before) && Blank(after) && text != "" && !IsSpace(text[0]) && !IsSpace(text[|text| - 1])
    ensures Normalize(before + text + after) == Normalize(text)
  {
    StripExact(before, text, after);
    StripExact("", text, "");
    assert "" + text + "" == text;
  }

  lemma {:induction false} BlanksAreLower(blanks: string)
    requires Blank(blanks)
    ensures Lower(blanks) == blanks && HideTokens(blanks) == blanks
  {
    if blanks == "" {
    } else {
      BlanksAreLower(blanks[1..]);
      assert [blanks[0]] + blanks[1..] == blanks;
      HideKeepsOther(blanks[0], blanks[1..]);
    }
  }

  lemma JoinAround(a: string, blanks: string, b: string)
    requires Blank(blanks) && blanks != ""
    requires (a == "" || !IsSpace(a[|a| - 1])) && (b == "" || !IsSpace(b[0]))
    ensures MapRuns(IsSpace, OneSpace, a + blanks + b)
         == MapRuns(IsSpace, OneSpace, a) + " " + MapRuns(IsSpace, OneSpace, b)
  {
    Associate(a, blanks, b);
    assert All(IsSpace, blanks);
    MapRunsSplit(IsSpace, OneSpace, a, blanks + b);
    MapRunsSplit(IsSpace, OneSpace, blanks, b);
    MapRunsWhole(IsSpace, OneSpace, blanks);
    Associate(MapRuns(IsSpace, OneSpace, a), " ", MapRuns(IsSpace, OneSpace, b));
  }

  lemma HideBlanks(a: string, blanks: string, b: string)
    requires Blank(blanks) && blanks != ""
    ensures HideTokens(a + blanks + b) == HideTokens(a) + blanks + HideTokens(b)
  {
    BlanksAreLower(blanks);
    Associate(a, blanks, b);
    HideTokensSplit(a, blanks + b);
    HideTokensSplit(blanks, b);
    Associate(HideTokens(a), blanks, HideTokens(b));
  }

  /** Hiding a text that ends, or starts, with a word character leaves no blank there. */
  lemma HiddenEnds(a: string, b: string)
    requires a != "" && IsWordChar(a[|a| - 1]) && b != "" && IsWordChar(b[0])
    ensures HideTokens(a) != "" && !IsSpace(HideTokens(a)[|HideTokens(a)| - 1])
    ensures HideTokens(b) != "" && !IsSpace(HideTokens(b)[0])
  {
    HiddenEnd(a);
    HiddenStart(b);
  }

  lemma HiddenWord(w: string)
    requires w != "" && All(IsWordChar, w)
    ensures HideTokens(w) != "" && forall i | 0 <= i < |HideTokens(w)| :: !IsSpace(HideTokens(w)[i])
  {
    HideOfWord(w, "");
    assert w + "" == w;
    DigitsLeaveNoBlank(w);
  }

  lemma {:induction false} DigitsLeaveNoBlank(w: string)
    requires All(IsWordChar, w)
    ensures var hidden := MapRuns(IsDigit, HashDigits, w);
            (w != "" ==> hidden != "") && forall i | 0 <= i < |hidden| :: !IsSpace(hidden[i])
    decreases |w|
  {
    if w == "" {
    } else {
      var k := if IsDigit(w[0]) then Run(IsDigit, w) else 1;
      assert All(IsWordChar, w[k..]);
      DigitsLeaveNoBlank(w[k..]);
      MapRunsUnfold(IsDigit, HashDigits, w, k);
    }
  }

  lemma {:induction false} LastWord(s: string) returns (a: string, w: string)
    requires s != "" && IsWordChar(s[|s| - 1])
    ensures s == a + w && w != "" && All(IsWordChar, w) && WordStarts(a)
  {
    var n := |s| - 1;
    if n == 0 || !IsWordChar(s[n - 1]) {
      a, w := s[..n], s[n..];
    } else {
      a, w := LastWord(s[..n]);
      assert s == s[..n] + [s[n]] && a + (w + [s[n]]) == a + w + [s[n]];
      w := w + [s[n]];
    }
  }

  lemma HiddenEnd(a: string)
    requires a != "" && IsWordChar(a[|a| - 1])
    ensures HideTokens(a) != "" && !IsSpace(HideTokens(a)[|HideTokens(a)| - 1])
  {
    var first, w := LastWord(a);
    HideTokensSplit(first, w);
    HiddenWord(w);
    assert HideTokens(a)[|HideTokens(a)| - 1] == HideTokens(w)[|HideTokens(w)| - 1];
  }

  lemma HiddenStart(b: string)
    requires b != "" && IsWordChar(b[0])
    ensures HideTokens(b) != "" && !IsSpace(HideTokens(b)[0])
  {
    var k := Run(IsWordChar, b);
    assert b == b[..k] + b[k..];
    HideTokensSplit(b[..k], b[k..]);
    HiddenWord(b[..k]);
  }

  lemma LowerAround(u: string, blanks: string, v: string)
    requires Blank(blanks) && u != "" && !IsSpace(u[0]) && v != "" && !IsSpace(v[|v| - 1])
    ensures Lower(Strip(u + blanks + v)) == Lower(u) + blanks + Lower(v)
  {
    var text := u + blanks + v;
    assert "" + text + "" == text && text[0] == u[0] && text[|text| - 1] == v[|v| - 1];
    StripAround("", text, "");
    LowerThree(u, blanks, v);
    BlanksAreLower(blanks);
  }

  lemma LowerEndsInWord(u: string, v: string)
    requires u != "" && IsWordChar(u[|u| - 1]) && v != "" && IsWordChar(v[0])
    ensures Lower(u) != "" && IsWordChar(Lower(u)[|Lower(u)| - 1]) && Lower(v) != "" && IsWordChar(Lower(v)[0])
  {
    LowerAt(u);
    LowerAt(v);
  }

  lemma BlanksBetween(u: string, blanks: string, v: string)
    requires Blank(blanks) && blanks != ""
    requires u != "" && !IsSpace(u[0]) && IsWordChar(u[|u| - 1])
    requires v != "" && IsWordChar(v[0]) && !IsSpace(v[|v| - 1])
    ensures Normalize(u + blanks + v)
         == MapRuns(IsSpace, OneSpace, HideTokens(Lower(u))) + " " + MapRuns(IsSpace, OneSpace, HideTokens(Lower(v)))
  {
    LowerAround(u, blanks, v);
    LowerEndsInWord(u, v);
    HideBlanks(Lower(u), blanks, Lower(v));
    HiddenEnds(Lower(u), Lower(v));
    JoinAround(HideTokens(Lower(u)), blanks, HideTokens(Lower(v)));
  }

  /** Nor does how many blanks, and which, stand between two words of it. */
  lemma InnerBlanksAreForgotten(u: string, blanks: string, others: string, v: string)
    requires Blank(blanks) && blanks != "" && Blank(others) && others != ""
    requires u != "" && !IsSpace(u[0]) && IsWordChar(u[|u| - 1])
    requires v != "" && IsWordChar(v[0]) && !IsSpace(v[|v| - 1])
    ensures Normalize(u + blanks + v) == Normalize(u + others + v)
  {
    BlanksBetween(u, blanks, v);
    BlanksBetween(u, others, v);
  }

  // ---- what is forgotten ---------------------------------------------------------

  predicate WordStarts(before: string) {
    before == "" || !IsWordChar(before[|before| - 1])
  }

  lemma LowerEnds(s: string)
    ensures WordEnds(s) ==> WordEnds(Lower(s))
    ensures WordStarts(s) ==> WordStarts(Lower(s))
  {
    LowerAt(s);
  }

  lemma {:induction false} StripLeftEnd(s: string)
    ensures WordStarts(s) ==> WordStarts(StripLeft(s))
  {
    if s != "" && IsSpace(s[0]) {
      StripLeftEnd(s[1..]);
    }
  }

  lemma {:induction false} StripRightEnd(s: string)
    ensures WordEnds(s) ==> WordEnds(StripRight(s))
  {
    if s != "" && IsSpace(s[|s| - 1]) {
      StripRightEnd(s[..|s| - 1]);
    }
  }

  lemma LowerThree(a: string, w: string, b: string)
    ensures Lower(a + w + b) == Lower(a) + Lower(w) + Lower(b)
  {
    LowerSplit(a + w, b);
    LowerSplit(a, w);
  }

  lemma HideThree(a: string, w: string, b: string)
    requires WordStarts(a) && w != "" && All(IsWordChar, w) && WordEnds(b)
    ensures HideTokens(a + w + b) == HideTokens(a) + HideTokens(w) + HideTokens(b)
  {
    Associate(a, w, b);
    HideTokensSplit(a, w + b);
    HideTokensSplit(w, b);
    Associate(HideTokens(a), HideTokens(w), HideTokens(b));
  }

  /** A word that stands alone is hidden by itself. */
  lemma HiddenAround(before: string, w: string, after: string)
    requires WordStarts(before) && w != "" && All(IsWordChar, w) && WordEnds(after)
    ensures HideTokens(Lower(Strip(before + w + after)))
         == HideTokens(Lower(StripLeft(before))) + HideTokens(Lower(w)) + HideTokens(Lower(StripRight(after)))
  {
    var a, b := StripLeft(before), StripRight(after);
    StripAround(before, w, after);
    StripLeftEnd(before);
    StripRightEnd(after);
    LowerThree(a, w, b);
    LowerEnds(a);
    LowerEnds(b);
    LowerWord(w);
    HideThree(Lower(a), Lower(w), Lower(b));
  }

  /** Words hidden alike can stand for each other. */
  lemma HiddenAlike(before: string, v: string, w: string, after: string)
    requires WordStarts(before) && WordEnds(after)
    requires v != "" && All(IsWordChar, v) && w != "" && All(IsWordChar, w)
    requires HideTokens(Lower(v)) == HideTokens(Lower(w))
    ensures Normalize(before + v + after) == Normalize(before + w + after)
  {
    HiddenAround(before, v, after);
    HiddenAround(before, w, after);
  }

  /** Ids of six hex digits or more all look alike, in any letter case. */
  lemma IdsAreAlike(before: string, v: string, w: string, after: string)
    requires WordStarts(before) && WordEnds(after)
    requires |v| >= 6 && All(IsHex, v) && |w| >= 6 && All(IsHex, w)
    ensures Normalize(before + v + after) == Normalize(before + w + after)
  {
    IdIsHidden(v);
    IdIsHidden(w);
    HiddenAlike(before, v, w, after);
  }

  lemma IdIsHidden(w: string)
    requires |w| >= 6 && All(IsHex, w)
    ensures All(IsWordChar, w) && HideTokens(Lower(w)) == "#"
  {
    forall i | 0 <= i < |w| ensures IsWordChar(w[i]) { assert IsHex(w[i]); }
    LowerWord(w);
    HideOfWord(Lower(w), "");
    assert Lower(w) + "" == Lower(w) && "#" + "" == "#";
  }

  /** Digits inside a word that is no hex id look alike too: a time, a version, a label. */
  lemma DigitsAreAlike(before: string, u: string, d: string, e: string, t: string, after: string)
    requires WordStarts(before) && WordEnds(after)
    requires All(IsWordChar, u) && All(IsWordChar, t) && (!All(IsHex, u) || !All(IsHex, t))
    requires d != "" && All(IsDigit, d) && e != "" && All(IsDigit, e)
    requires (u == "" || !IsDigit(u[|u| - 1])) && (t == "" || !IsDigit(t[0]))
    ensures Normalize(before + (u + d + t) + after) == Normalize(before + (u + e + t) + after)
  {
    DigitsAreHidden(u, d, t);
    DigitsAreHidden(u, e, t);
    HiddenAlike(before, u + d + t, u + e + t, after);
  }

  lemma DigitsAreHidden(u: string, d: string, t: string)
    requires All(IsWordChar, u) && All(IsWordChar, t) && (!All(IsHex, u) || !All(IsHex, t))
    requires d != "" && All(IsDigit, d)
    requires (u == "" || !IsDigit(u[|u| - 1])) && (t == "" || !IsDigit(t[0]))
    ensures u + d + t != "" && All(IsWordChar, u + d + t)
    ensures HideTokens(Lower(u + d + t))
         == MapRuns(IsDigit, HashDigits, Lower(u)) + "#" + MapRuns(IsDigit, HashDigits, Lower(t))
  {
    var w := u + d + t;
    assert All(IsWordChar, d);
    LowerWord(w);
    NotHexAround(u, d, t);
    HideOfWord(Lower(w), "");
    assert Lower(w) + "" == Lower(w);
    LowerSplit(u + d, t);
    LowerSplit(u, d);
    LowerDigits(d);
    LowerAt(u);
    LowerAt(t);
    DigitsBetween(Lower(u), d, Lower(t));
    var hidden := MapRuns(IsDigit, HashDigits, Lower(w));
    assert hidden + "" == hidden;
  }

  lemma NotHexAround(u: string, d: string, t: string)
    requires !All(IsHex, u) || !All(IsHex, t)
    ensures !All(IsHex, u + d + t)
  {
    var w := u + d + t;
    if !All(IsHex, u) {
      var i :| 0 <= i < |u| && !IsHex(u[i]);
      assert w[i] == u[i];
    } else {
      var i :| 0 <= i < |t| && !IsHex(t[i]);
      assert w[|u + d| + i] == t[i];
    }
  }

  lemma {:induction false} LowerDigits(d: string)
    requires All(IsDigit, d)
    ensures Lower(d) == d
  {
    LowerAt(d);
    assert forall i | 0 <= i < |d| :: IsDigit(d[i]) && Lower(d)[i] == d[i];
  }

  lemma DigitsBetween(u: string, d: string, t: string)
    requires d != "" && All(IsDigit, d) && (u == "" || !IsDigit(u[|u| - 1])) && (t == "" || !IsDigit(t[0]))
    ensures MapRuns(IsDigit, HashDigits, u + d + t)
         == MapRuns(IsDigit, HashDigits, u) + "#" + MapRuns(IsDigit, HashDigits, t)
  {
    Associate(u, d, t);
    MapRunsSplit(IsDigit, HashDigits, u, d + t);
    MapRunsSplit(IsDigit, HashDigits, d, t);
    MapRunsWhole(IsDigit, HashDigits, d);
    Associate(MapRuns(IsDigit, HashDigits, u), "#", MapRuns(IsDigit, HashDigits, t));
  }
}
