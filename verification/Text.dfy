/** Characters and runs of them, as the string methods of the runtime see them. */
module Text {

  /** What `str.strip()`, `str.isspace()` and `\s` take for a blank, in full. */
  predicate IsSpace(c: char) {
    || c == ' ' || '\t' <= c <= '\r' || '\U{1c}' <= c <= '\U{1f}'
    || c == '\U{85}' || c == '\U{a0}' || c == '\U{1680}' || '\U{2000}' <= c <= '\U{200a}'
    || c == '\U{2028}' || c == '\U{2029}' || c == '\U{202f}' || c == '\U{205f}' || c == '\U{3000}'
  }

  predicate All(p: char -> bool, s: string) {
    forall i | 0 <= i < |s| :: p(s[i])
  }

  /** Length of the longest prefix whose characters all satisfy `p`. */
  function Run(p: char -> bool, s: string): (k: nat)
    ensures k <= |s| && All(p, s[..k]) && (k < |s| ==> !p(s[k]))
    ensures s != "" && p(s[0]) ==> k > 0
  {
    if s != "" && p(s[0]) then Run(p, s[1..]) + 1 else 0
  }

  function StripLeft(s: string): string {
    if s != "" && IsSpace(s[0]) then StripLeft(s[1..]) else s
  }

  function StripRight(s: string): string {
    if s != "" && IsSpace(s[|s| - 1]) then StripRight(s[..|s| - 1]) else s
  }

  function Strip(s: string): string {
    StripRight(StripLeft(s))
  }

  predicate Blank(s: string) {
    forall i | 0 <= i < |s| :: IsSpace(s[i])
  }

  /** What stripping leaves has no blank at either end, and what it takes is blank. */
  predicate Trimmed(s: string, before: string, text: string, after: string) {
    && s == before + text + after && Blank(before) && Blank(after)
    && (text != "" ==> !IsSpace(text[0]) && !IsSpace(text[|text| - 1]))
  }

  lemma {:induction false} LeftTrims(s: string) returns (before: string)
    ensures s == before + StripLeft(s) && Blank(before)
    ensures StripLeft(s) != "" ==> !IsSpace(StripLeft(s)[0])
  {
    before := "";
    if s != "" && IsSpace(s[0]) {
      var rest := LeftTrims(s[1..]);
      before := [s[0]] + rest;
      assert s == [s[0]] + s[1..];
    }
  }

  lemma {:induction false} RightTrims(s: string) returns (after: string)
    ensures s == StripRight(s) + after && Blank(after)
    ensures StripRight(s) != "" ==> !IsSpace(StripRight(s)[|StripRight(s)| - 1]) && StripRight(s)[0] == s[0]
  {
    after := "";
    if s != "" && IsSpace(s[|s| - 1]) {
      var rest := RightTrims(s[..|s| - 1]);
      after := rest + [s[|s| - 1]];
      assert s == s[..|s| - 1] + [s[|s| - 1]];
    }
  }

  lemma {:induction false} LeftStripStops(before: string, rest: string)
    requires Blank(before) && rest != "" && !IsSpace(rest[0])
    ensures StripLeft(before + rest) == rest
  {
    if before == "" {
      assert before + rest == rest;
    } else {
      assert (before + rest)[1..] == before[1..] + rest;
      LeftStripStops(before[1..], rest);
    }
  }

  lemma StripTrims(s: string) returns (before: string, after: string)
    ensures Trimmed(s, before, Strip(s), after)
  {
    before := LeftTrims(s);
    after := RightTrims(StripLeft(s));
    assert before + (Strip(s) + after) == before + Strip(s) + after;
  }

  lemma {:induction false} LeftStripAround(before: string, rest: string)
    requires rest != "" && !IsSpace(rest[0])
    ensures StripLeft(before + rest) == StripLeft(before) + rest
  {
    if before == "" {
      assert before + rest == rest && "" + rest == rest;
    } else {
      assert (before + rest)[1..] == before[1..] + rest;
      LeftStripAround(before[1..], rest);
    }
  }

  lemma {:induction false} RightStripAround(rest: string, after: string)
    requires rest != "" && !IsSpace(rest[|rest| - 1])
    ensures StripRight(rest + after) == rest + StripRight(after)
  {
    if after == "" {
      assert rest + after == rest;
    } else {
      assert (rest + after)[..|rest + after| - 1] == rest + after[..|after| - 1];
      RightStripAround(rest, after[..|after| - 1]);
    }
  }

  /** Stripping reaches no further than the first and the last character that is no blank. */
  lemma StripAround(before: string, w: string, after: string)
    requires w != "" && !IsSpace(w[0]) && !IsSpace(w[|w| - 1])
    ensures Strip(before + w + after) == StripLeft(before) + w + StripRight(after)
  {
    var kept := StripLeft(before) + w;
    assert before + w + after == before + (w + after) && (w + after)[0] == w[0];
    LeftStripAround(before, w + after);
    assert StripLeft(before) + (w + after) == kept + after && kept[|kept| - 1] == w[|w| - 1];
    RightStripAround(kept, after);
  }

  lemma {:induction false} AllBlankStrips(s: string)
    requires Blank(s)
    ensures StripLeft(s) == "" && StripRight(s) == ""
  {
    if s == "" {
    } else {
      AllBlankStrips(s[1..]);
      AllBlankStrips(s[..|s| - 1]);
    }
  }

  /** What stands between blanks is what stripping leaves. */
  lemma StripExact(before: string, text: string, after: string)
    requires Blank(before) && Blank(after) && text != "" && !IsSpace(text[0]) && !IsSpace(text[|text| - 1])
    ensures Strip(before + text + after) == text
  {
    StripAround(before, text, after);
    AllBlankStrips(before);
    AllBlankStrips(after);
    assert "" + text + "" == text;
  }
}
