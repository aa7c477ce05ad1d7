/** The normaliser behind the replay guard (molecule_runtime/autonomous_loop_guard.py):
    volatile tokens collapse, so outputs that differ only in counters compare equal.
    Digits, word characters and letter case are the ASCII ones. */
module OutputNormalizer {
  import opened Edits
  import opened Text
  import opened Wrappers

  predicate IsDigit(c: char) { '0' <= c <= '9' }
  predicate IsWordChar(c: char) { IsDigit(c) || 'a' <= c <= 'z' || 'A' <= c <= 'Z' || c == '_' }
  predicate IsHex(c: char) { IsDigit(c) || 'a' <= c <= 'f' || 'A' <= c <= 'F' }

  /** Rewrites every maximal run of `p`-characters by `f` and copies the rest. */
  function MapRuns(p: char -> bool, f: string -> string, s: string): string
    decreases |s|
  {
    if s == "" then ""
    else if p(s[0]) then f(s[..Run(p, s)]) + MapRuns(p, f, s[Run(p, s)..])
    else [s[0]] + MapRuns(p, f, s[1..])
  }

  // `\b[0-9a-f]{6,}\b`: inside a word there is no boundary, so a match is a whole word.
  function HashHexWord(w: string): string { if |w| >= 6 && All(IsHex, w) then "#" else w }
  function HashDigits(w: string): string { "#" }
  function OneSpace(w: string): string { " " }

  function LowerChar(c: char): char {
    if 'A' <= c <= 'Z' then ((c as int) + 32) as char else c
  }

  function Lower(s: string): string {
    if s == "" then "" else [LowerChar(s[0])] + Lower(s[1..])
  }

  function HideTokens(s: string): string {
    MapRuns(IsDigit, HashDigits, MapRuns(IsWordChar, HashHexWord, s))
  }

  function Normalize(text: string): string {
    MapRuns(IsSpace, OneSpace, HideTokens(Lower(Strip(text))))
  }

  const NOOP_MARKERS: seq<string> := [
    "no new info", "no new information", "no state change", "no state changes", "no changes",
    "nothing new", "nothing to report", "already delivered", "already reported",
    "already completed", "already merged", "replay of", "no action needed",
    "no further action", "still pending your decision"
  ]

  predicate LooksLikeNoop(text: string) {
    exists marker | marker in NOOP_MARKERS :: Contains(Normalize(text), marker)
  }

  // ---- outputs that differ only in counters ------------------------------

  function ZeroDecimal(w: string): string { if All(IsDigit, w) then "0" else w }

  /** The text with every decimal number that stands alone as a word written 0.
      Two texts with the same mask differ only in the values of such numbers. */
  function CounterMask(s: string): string {
    MapRuns(IsWordChar, ZeroDecimal, s)
  }

  lemma MapRunsUnfold(p: char -> bool, f: string -> string, s: string, k: nat)
    requires s != "" && k <= |s| && k == if p(s[0]) then Run(p, s) else 1
    ensures MapRuns(p, f, s) == (if p(s[0]) then f(s[..k]) else [s[0]]) + MapRuns(p, f, s[k..])
  {
  }

  predicate RunsMeetAtBoundary(p: char -> bool, a: string, b: string) {
    a == "" || b == "" || !p(a[|a| - 1]) || !p(b[0])
  }

  /** Runs do not reach across a boundary, so a rewriting distributes over it. */
  lemma {:induction false} MapRunsSplit(p: char -> bool, f: string -> string, a: string, b: string)
    requires RunsMeetAtBoundary(p, a, b)
    ensures MapRuns(p, f, a + b) == MapRuns(p, f, a) + MapRuns(p, f, b)
    decreases |a|
  {
    if a == "" {
      assert a + b == b;
    } else {
      var k := if p(a[0]) then Run(p, a) else 1;
      RunSplit(p, a, b);
      assert RunsMeetAtBoundary(p, a[k..], b) by {
        assert k < |a| ==> a[k..][|a| - k - 1] == a[|a| - 1];
      }
      MapRunsSplit(p, f, a[k..], b);
      SplitAfterHead(p, f, a, b, k);
    }
  }

  lemma SplitAfterHead(p: char -> bool, f: string -> string, a: string, b: string, k: nat)
    requires a != "" && k <= |a| && Run(p, a + b) == Run(p, a)
    requires k == if p(a[0]) then Run(p, a) else 1
    requires MapRuns(p, f, a[k..] + b) == MapRuns(p, f, a[k..]) + MapRuns(p, f, b)
    ensures MapRuns(p, f, a + b) == MapRuns(p, f, a) + MapRuns(p, f, b)
  {
    var head := if p(a[0]) then f(a[..k]) else [a[0]];
    calc {
      MapRuns(p, f, a + b);
      { MapRunsUnfold(p, f, a + b, k);
        SlicesOfSum(a, b, k); }
      head + MapRuns(p, f, a[k..] + b);
      head + (MapRuns(p, f, a[k..]) + MapRuns(p, f, b));
      { Associate(head, MapRuns(p, f, a[k..]), MapRuns(p, f, b)); }
      head + MapRuns(p, f, a[k..]) + MapRuns(p, f, b);
      { MapRunsUnfold(p, f, a, k); }
      MapRuns(p, f, a) + MapRuns(p, f, b);
    }
  }

  lemma SlicesOfSum(a: string, b: string, k: nat)
    requires k <= |a|
    ensures (a + b)[..k] == a[..k] && (a + b)[k..] == a[k..] + b
  {
  }

  lemma {:induction false} RunSplit(p: char -> bool, a: string, b: string)
    requires RunsMeetAtBoundary(p, a, b)
    requires a != ""
    ensures Run(p, a + b) == Run(p, a)
  {
    if p(a[0]) {
      assert (a + b)[1..] == a[1..] + b;
      if |a| > 1 {
        RunSplit(p, a[1..], b);
      } else {
        assert a[1..] + b == b;
      }
    }
  }

  /** A text that is one run is rewritten as a whole. */
  lemma MapRunsWhole(p: char -> bool, f: string -> string, w: string)
    requires w != "" && All(p, w)
    ensures MapRuns(p, f, w) == f(w)
  {
    assert Run(p, w) == |w|;
    assert w[..|w|] == w && w[|w|..] == "";
  }

  /** The mask keeps word characters word characters, and everything else as it is. */
  lemma {:induction false} MaskKeepsEnds(s: string)
    requires s != ""
    ensures CounterMask(s) != ""
    ensures IsWordChar(s[0]) <==> IsWordChar(CounterMask(s)[0])
    ensures !IsWordChar(s[0]) ==> CounterMask(s)[0] == s[0]
    ensures IsWordChar(s[|s| - 1]) <==> IsWordChar(CounterMask(s)[|CounterMask(s)| - 1])
    ensures !IsWordChar(s[|s| - 1]) ==> CounterMask(s)[|CounterMask(s)| - 1] == s[|s| - 1]
    decreases |s|
  {
    var k := if IsWordChar(s[0]) then Run(IsWordChar, s) else 1;
    if k < |s| {
      MaskKeepsEnds(s[k..]);
      assert s[k..][|s| - k - 1] == s[|s| - 1];
    } else if IsWordChar(s[0]) {
      assert s[..k] == s;
      MapRunsWhole(IsWordChar, ZeroDecimal, s);
    } else {
      assert s[1..] == "" && [s[0]] + "" == s;
      assert CounterMask(s) == s;
    }
  }

  /** Hiding the tokens of a masked text gives the same as hiding those of the text. */
  lemma {:induction false} HideTokensIgnoresCounters(s: string)
    ensures HideTokens(CounterMask(s)) == HideTokens(s)
    decreases |s|
  {
    if s == "" {
    } else {
      var k := if IsWordChar(s[0]) then Run(IsWordChar, s) else 1;
      var head, rest := s[..k], s[k..];
      var masked := CounterMask(head);
      assert head + rest == s;
      MapRunsSplit(IsWordChar, ZeroDecimal, head, rest);
      if rest != "" { MaskKeepsEnds(rest); }
      MaskKeepsEnds(head);
      HideTokensSplit(head, rest);
      HideTokensSplit(masked, CounterMask(rest));
      HideTokensIgnoresCounters(rest);
      if IsWordChar(s[0]) {
        MapRunsWhole(IsWordChar, ZeroDecimal, head);
        if All(IsDigit, head) { DecimalHides(head); DecimalHides("0"); }
      }
    }
  }

  lemma DecimalHides(w: string)
    requires w != "" && All(IsDigit, w)
    ensures HideTokens(w) == "#"
  {
    assert All(IsWordChar, w);
    MapRunsWhole(IsWordChar, HashHexWord, w);
    if HashHexWord(w) == w {
      MapRunsWhole(IsDigit, HashDigits, w);
    } else {
      assert HashHexWord(w) == "#" && MapRuns(IsDigit, HashDigits, "#") == "#";
    }
  }

  lemma {:induction false} HashKeepsFirst(s: string)
    requires s != ""
    ensures MapRuns(IsWordChar, HashHexWord, s) != ""
    ensures !IsWordChar(s[0]) ==> MapRuns(IsWordChar, HashHexWord, s)[0] == s[0]
  {
  }

  lemma {:induction false} HashKeepsLast(s: string)
    requires s != "" && !IsWordChar(s[|s| - 1])
    ensures var h := MapRuns(IsWordChar, HashHexWord, s); h != "" && h[|h| - 1] == s[|s| - 1]
  {
    var last := s[|s| - 1..];
    assert s == s[..|s| - 1] + last;
    MapRunsSplit(IsWordChar, HashHexWord, s[..|s| - 1], last);
    assert last[1..] == "";
  }

  lemma HideTokensSplit(a: string, b: string)
    requires a == "" || b == "" || !IsWordChar(b[0]) || !IsWordChar(a[|a| - 1])
    ensures HideTokens(a + b) == HideTokens(a) + HideTokens(b)
  {
    var ha, hb := MapRuns(IsWordChar, HashHexWord, a), MapRuns(IsWordChar, HashHexWord, b);
    MapRunsSplit(IsWordChar, HashHexWord, a, b);
    if a != "" && b != "" {
      if !IsWordChar(b[0]) { HashKeepsFirst(b); } else { HashKeepsLast(a); }
    }
    MapRunsSplit(IsDigit, HashDigits, ha, hb);
  }

  lemma {:induction false} LowerSplit(a: string, b: string)
    ensures Lower(a + b) == Lower(a) + Lower(b)
  {
    if a == "" {
      assert a + b == b;
    } else {
      assert (a + b)[1..] == a[1..] + b;
      LowerSplit(a[1..], b);
    }
  }

  lemma {:induction false} LowerAt(s: string)
    ensures |Lower(s)| == |s|
    ensures forall i | 0 <= i < |s| :: Lower(s)[i] == LowerChar(s[i])
  {
    if s == "" {
    } else {
      LowerAt(s[1..]);
    }
  }

  lemma MaskOfWordCommutesWithLower(w: string)
    requires w != "" && All(IsWordChar, w)
    ensures CounterMask(Lower(w)) == Lower(CounterMask(w))
  {
    LowerAt(w);
    MapRunsWhole(IsWordChar, ZeroDecimal, w);
    MapRunsWhole(IsWordChar, ZeroDecimal, Lower(w));
    assert All(IsDigit, Lower(w)) <==> All(IsDigit, w) by {
      forall i | 0 <= i < |w| ensures IsDigit(Lower(w)[i]) <==> IsDigit(w[i]) {}
    }
    assert Lower("0") == "0";
  }

  lemma {:induction false} MaskCommutesWithLower(s: string)
    ensures CounterMask(Lower(s)) == Lower(CounterMask(s))
    decreases |s|
  {
    if s == "" {
    } else {
      var k := if IsWordChar(s[0]) then Run(IsWordChar, s) else 1;
      var head, rest := s[..k], s[k..];
      assert head + rest == s;
      LowerAt(head);
      LowerAt(rest);
      LowerSplit(head, rest);
      MapRunsSplit(IsWordChar, ZeroDecimal, Lower(head), Lower(rest));
      MapRunsSplit(IsWordChar, ZeroDecimal, head, rest);
      LowerSplit(CounterMask(head), CounterMask(rest));
      MaskCommutesWithLower(rest);
      if IsWordChar(s[0]) {
        MaskOfWordCommutesWithLower(head);
      }
    }
  }

  lemma {:induction false} MaskCommutesWithStripLeft(s: string)
    ensures CounterMask(StripLeft(s)) == StripLeft(CounterMask(s))
  {
    if s == "" {
    } else {
      MaskKeepsEnds(s);
      if IsSpace(s[0]) { MaskCommutesWithStripLeft(s[1..]); }
    }
  }

  lemma {:induction false} MaskCommutesWithStripRight(s: string)
    ensures CounterMask(StripRight(s)) == StripRight(CounterMask(s))
  {
    if s == "" {
    } else {
      MaskKeepsEnds(s);
      var n := |s| - 1;
      if IsSpace(s[n]) {
        assert s == s[..n] + s[n..];
        MapRunsSplit(IsWordChar, ZeroDecimal, s[..n], s[n..]);
        assert s[n..][1..] == "" && CounterMask(s[n..]) == s[n..];
        assert CounterMask(s)[..|CounterMask(s)| - 1] == CounterMask(s[..n]);
        MaskCommutesWithStripRight(s[..n]);
      }
    }
  }

  /** Outputs that differ only in counters normalise alike. */
  lemma NormalizeIgnoresCounters(x: string, y: string)
    requires CounterMask(x) == CounterMask(y)
    ensures Normalize(x) == Normalize(y)
  {
    forall t | t == x || t == y
      ensures HideTokens(Lower(Strip(t))) == HideTokens(Lower(Strip(CounterMask(t))))
    {
      MaskCommutesWithStripLeft(t);
      MaskCommutesWithStripRight(StripLeft(t));
      MaskCommutesWithLower(Strip(t));
      HideTokensIgnoresCounters(Lower(Strip(t)));
    }
  }

  lemma MaskOfCounter(before: string, w: string, after: string)
    requires w != "" && All(IsDigit, w)
    requires before == "" || !IsWordChar(before[|before| - 1])
    requires after == "" || !IsWordChar(after[0])
    ensures CounterMask(before + w + after) == CounterMask(before) + "0" + CounterMask(after)
  {
    assert before + w + after == before + (w + after);
    assert All(IsWordChar, w);
    MapRunsSplit(IsWordChar, ZeroDecimal, before, w + after);
    MapRunsSplit(IsWordChar, ZeroDecimal, w, after);
    MapRunsWhole(IsWordChar, ZeroDecimal, w);
    Associate(CounterMask(before), "0", CounterMask(after));
  }

  /** Changing the value of one number that stands alone as a word is such a difference. */
  lemma CounterBumpKeepsMask(before: string, n: string, m: string, after: string)
    requires n != "" && All(IsDigit, n) && m != "" && All(IsDigit, m)
    requires before == "" || !IsWordChar(before[|before| - 1])
    requires after == "" || !IsWordChar(after[0])
    ensures CounterMask(before + n + after) == CounterMask(before + m + after)
  {
    MaskOfCounter(before, n, after);
    MaskOfCounter(before, m, after);
  }
}
