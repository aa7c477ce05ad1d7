/** The bundle-path validator (molecule_runtime/config_relay.py, `validate_bundle_path`)
    with the `posixpath.normpath` it relies on. */
module BundlePath {
  import opened Wrappers

  /** `s.split("/")`. */
  function Split(s: string): (comps: seq<string>)
    ensures |comps| >= 1
    ensures forall c | c in comps :: '/' !in c
  {
    if s == "" then [""]
    else
      var rest := Split(s[1..]);
      if s[0] == '/' then [""] + rest else [[s[0]] + rest[0]] + rest[1..]
  }

  /** `"/".join(comps)`. */
  function Join(comps: seq<string>): string {
    if comps == [] then ""
    else if |comps| == 1 then comps[0]
    else comps[0] + "/" + Join(comps[1..])
  }

  /** One round of `normpath`'s loop over the components. */
  function Push(slashes: nat, stack: seq<string>, comp: string): seq<string> {
    if comp == "" || comp == "." then stack
    else if comp != ".." || (slashes == 0 && stack == []) || (stack != [] && stack[|stack| - 1] == "..") then
      stack + [comp]
    else if stack != [] then stack[..|stack| - 1]
    else stack
  }

  function Collapse(slashes: nat, comps: seq<string>): seq<string> {
    if comps == [] then []
    else Push(slashes, Collapse(slashes, comps[..|comps| - 1]), comps[|comps| - 1])
  }

  function InitialSlashes(path: string): nat {
    if !("/" <= path) then 0
    else if "//" <= path && !("///" <= path) then 2
    else 1
  }

  function NormPath(path: string): string {
    if path == "" then "."
    else
      var slashes := InitialSlashes(path);
      var joined := Join(Collapse(slashes, Split(path)));
      var full := (if slashes == 2 then "//" else if slashes == 1 then "/" else "") + joined;
      if full == "" then "." else full
  }

  predicate ValidChar(c: char) {
    'A' <= c <= 'Z' || 'a' <= c <= 'z' || '0' <= c <= '9' || c == '.' || c == '_' || c == '/' || c == '-'
  }

  predicate AllValid(s: string) {
    forall i | 0 <= i < |s| :: ValidChar(s[i])
  }

  /** `^[A-Za-z0-9._/-]+$`: `$` also matches before one final newline. */
  predicate MatchesCharset(s: string) {
    || (s != "" && AllValid(s))
    || (|s| > 1 && s[|s| - 1] == '\n' && AllValid(s[..|s| - 1]))
  }

  datatype PathError = InvalidPath | TraversalOrCharset

  function ValidateBundlePath(raw: string): Result<string, PathError> {
    if raw == "" || '\0' in raw then Err(InvalidPath)
    else
      var cleaned := NormPath(raw);
      if cleaned == "." || cleaned == "" || "../" <= cleaned || "/" <= cleaned
         || ".." in Split(cleaned) || !MatchesCharset(cleaned)
      then Err(TraversalOrCharset)
      else Ok(cleaned)
  }

  // ---- walking a path from the base directory ----------------------------

  /** Where a walk stands, as the directories below the base it is in; None once it
      has stepped above the base. */
  type Place = Option<seq<string>>

  function Enter(place: Place, comp: string): Place {
    if place.None? || comp == "" || comp == "." then place
    else if comp != ".." then Some(place.value + [comp])
    else if place.value == [] then None
    else Some(place.value[..|place.value| - 1])
  }

  function Walk(comps: seq<string>): Place {
    if comps == [] then Some([]) else Enter(Walk(comps[..|comps| - 1]), comps[|comps| - 1])
  }

  /** A walk that has not left the base at its end never left it on the way. */
  lemma {:induction false} NeverLeft(comps: seq<string>, k: nat)
    requires k <= |comps| && Walk(comps).Some?
    ensures Walk(comps[..k]).Some?
  {
    if k < |comps| {
      NeverLeft(comps[..|comps| - 1], k);
      assert comps[..|comps| - 1][..k] == comps[..k];
    } else {
      assert comps[..k] == comps;
    }
  }

  predicate PlainName(comp: string) {
    comp != "" && comp != "." && comp != ".." && '/' !in comp
  }

  /** On a relative path the loop of `normpath` follows the walk while it stays below
      the base; once the walk has left, a leading `..` records it for good. */
  lemma {:induction false} CollapseFollowsWalk(comps: seq<string>)
    requires forall c | c in comps :: '/' !in c
    ensures var stack, place := Collapse(0, comps), Walk(comps);
            && (place.Some? ==> stack == place.value && forall c | c in stack :: PlainName(c))
            && (place.None? ==> stack != [] && stack[0] == "..")
            && forall c | c in stack :: c != "" && '/' !in c
  {
    if comps == [] {
    } else {
      var before, comp := comps[..|comps| - 1], comps[|comps| - 1];
      assert comp in comps;
      CollapseFollowsWalk(before);
      var stack := Collapse(0, before);
      if Walk(before).Some? && stack != [] { assert stack[|stack| - 1] in stack; }
    }
  }

  lemma {:induction false} SplitJoin(comps: seq<string>)
    requires comps != [] && forall c | c in comps :: '/' !in c
    ensures Split(Join(comps)) == comps
  {
    assert comps[0] in comps;
    if |comps| == 1 {
      SplitPlain(comps[0], "");
      assert comps[0] + "" == comps[0];
    } else {
      SplitJoin(comps[1..]);
      SplitPlain(comps[0], "/" + Join(comps[1..]));
      assert comps[0] + "/" + Join(comps[1..]) == comps[0] + ("/" + Join(comps[1..]));
      assert ("/" + Join(comps[1..]))[1..] == Join(comps[1..]);
      assert comps[0] + "" == comps[0] && [comps[0]] + comps[1..] == comps;
    }
  }

  lemma {:induction false} SplitPlain(name: string, rest: string)
    requires '/' !in name
    ensures Split(name + rest) == [name + Split(rest)[0]] + Split(rest)[1..]
  {
    if name == "" {
      assert name + rest == rest && name + Split(rest)[0] == Split(rest)[0];
    } else {
      assert (name + rest)[1..] == name[1..] + rest;
      assert name[0] in name && forall i | 0 <= i < |name[1..]| :: name[1..][i] in name;
      SplitPlain(name[1..], rest);
      assert [name[0]] + (name[1..] + Split(rest)[0]) == name + Split(rest)[0];
    }
  }

  lemma {:induction false} WalkPlain(comps: seq<string>)
    requires forall c | c in comps :: PlainName(c)
    ensures Walk(comps) == Some(comps)
  {
    if comps == [] {
    } else {
      assert comps[|comps| - 1] in comps;
      WalkPlain(comps[..|comps| - 1]);
      assert comps[..|comps| - 1] + [comps[|comps| - 1]] == comps;
    }
  }

  /** How the normalised path starts tells whether the raw one was absolute. */
  lemma JoinedStart(comps: seq<string>)
    requires comps != [] && forall c | c in comps :: c != "" && '/' !in c
    ensures comps[0] != "" && Join(comps) != "" && Join(comps)[0] == comps[0][0] != '/'
  {
    assert comps[0] in comps && comps[0][0] in comps[0];
  }

  lemma RelativeNormPath(raw: string)
    requires raw != "" && raw[0] != '/'
    ensures var place := Walk(Split(raw));
            && (place == Some([]) ==> NormPath(raw) == ".")
            && (place.Some? && place.value != [] ==>
                  && NormPath(raw) == Join(place.value) && Split(NormPath(raw)) == place.value
                  && forall c | c in place.value :: PlainName(c))
            && (place.None? ==> ".." in Split(NormPath(raw)))
  {
    var stack := Collapse(0, Split(raw));
    CollapseFollowsWalk(Split(raw));
    assert InitialSlashes(raw) == 0;
    assert "" + Join(stack) == Join(stack);
    if stack != [] {
      JoinedStart(stack);
      SplitJoin(stack);
      assert stack[0] in stack;
    }
  }

  lemma PlainStart(place: seq<string>)
    requires place != [] && forall c | c in place :: PlainName(c)
    ensures var s := Join(place); s != "" && s != "." && !("/" <= s) && !("../" <= s) && ".." !in place
  {
    JoinedStart(place);
    SplitJoin(place);
    assert place[0] in place;
    var s := Join(place);
    DotsSplit(s);
  }

  lemma DotsSplit(s: string)
    ensures "../" <= s ==> Split(s)[0] == ".."
    ensures s == "." ==> Split(s) == ["."]
  {
    if "../" <= s {
      assert s == ".." + s[2..] && s[2..][0] == '/';
      SplitPlain("..", s[2..]);
      assert Split(s)[0] == ".." + "";
    }
    if s == "." {
      SplitPlain(s, "");
      assert s + "" == s;
    }
  }

  /** What is accepted, exactly: a relative path without NUL that, walked component by
      component, ends strictly below the base (so never rises above it on the way, by
      NeverLeft) at a place whose name keeps to the charset. It is returned as that name. */
  lemma AcceptedIffWalksBelowBase(raw: string)
    ensures ValidateBundlePath(raw).Ok?
       <==> && raw != "" && '\0' !in raw && raw[0] != '/'
            && Walk(Split(raw)).Some? && Walk(Split(raw)).value != []
            && MatchesCharset(Join(Walk(Split(raw)).value))
    ensures ValidateBundlePath(raw).Ok? ==>
              && ValidateBundlePath(raw).value == Join(Walk(Split(raw)).value)
              && Split(ValidateBundlePath(raw).value) == Walk(Split(raw)).value
              && forall c | c in Split(ValidateBundlePath(raw).value) :: PlainName(c)
  {
    if raw != "" && raw[0] != '/' {
      RelativeNormPath(raw);
      var place := Walk(Split(raw));
      if place.Some? && place.value != [] { PlainStart(place.value); }
    }
  }

  /** A cleaned path is a fixed point of the validator. */
  lemma ValidationIsIdempotent(raw: string)
    requires ValidateBundlePath(raw).Ok?
    ensures ValidateBundlePath(ValidateBundlePath(raw).value) == ValidateBundlePath(raw)
  {
    AcceptedIffWalksBelowBase(raw);
    var place := Walk(Split(raw)).value;
    WalkPlain(place);
    JoinedStart(place);
    CharsetHasNoNul(Join(place));
    AcceptedIffWalksBelowBase(Join(place));
  }

  lemma CharsetHasNoNul(s: string)
    requires MatchesCharset(s)
    ensures '\0' !in s
  {
    forall i | 0 <= i < |s| ensures s[i] != '\0' {
      if !AllValid(s) && i < |s| - 1 { assert ValidChar(s[..|s| - 1][i]); }
    }
  }

  lemma AcceptedMatches(raw: string)
    requires ValidateBundlePath(raw).Ok?
    ensures MatchesCharset(ValidateBundlePath(raw).value)
  {
  }

  lemma CharsetCharacters(s: string, i: nat)
    requires MatchesCharset(s) && i < |s|
    ensures var c := s[i];
            || 'A' <= c <= 'Z' || 'a' <= c <= 'z' || '0' <= c <= '9' || c in {'.', '_', '/', '-'}
            || (c == '\n' && i == |s| - 1 && i > 0)
  {
    if AllValid(s) {
      assert ValidChar(s[i]);
    } else if i < |s| - 1 {
      assert ValidChar(s[..|s| - 1][i]);
    }
  }

  /** An accepted name consists of letters, digits, dots, underscores, slashes and dashes, but
      for one newline it may end in. */
  lemma AcceptedCharacters(raw: string, i: nat)
    requires ValidateBundlePath(raw).Ok? && i < |ValidateBundlePath(raw).value|
    ensures var name := ValidateBundlePath(raw).value;
            var c := name[i];
            || 'A' <= c <= 'Z' || 'a' <= c <= 'z' || '0' <= c <= '9' || c in {'.', '_', '/', '-'}
            || (c == '\n' && i == |name| - 1 && i > 0)
  {
    AcceptedMatches(raw);
    CharsetCharacters(ValidateBundlePath(raw).value, i);
  }

  /** Every text of such characters is in the charset. */
  lemma CharsetAdmits(s: string)
    requires s != "" && forall i | 0 <= i < |s| ::
               'A' <= s[i] <= 'Z' || 'a' <= s[i] <= 'z' || '0' <= s[i] <= '9' || s[i] in {'.', '_', '/', '-'}
    ensures MatchesCharset(s) && MatchesCharset(s + "\n")
  {
    assert (s + "\n")[..|s + "\n"| - 1] == s;
  }

  function LastChar(s: string): char
    requires s != ""
  {
    s[|s| - 1]
  }

  lemma ConcatEnd(a: string, b: string)
    requires b != ""
    ensures LastChar(a + b) == LastChar(b)
  {
  }

  lemma {:induction false} JoinedEnd(comps: seq<string>)
    requires comps != [] && comps[|comps| - 1] != ""
    ensures Join(comps) != "" && LastChar(Join(comps)) == LastChar(comps[|comps| - 1])
  {
    if |comps| == 1 {
    } else {
      JoinedEnd(comps[1..]);
      ConcatEnd(comps[0] + "/", Join(comps[1..]));
    }
  }

  lemma CharsetByLast(s: string)
    requires MatchesCharset(s)
    ensures s != "" && (AllValid(s) <==> LastChar(s) != '\n')
  {
  }

  lemma AcceptedPlace(raw: string)
    requires ValidateBundlePath(raw).Ok?
    ensures Walk(Split(raw)).Some? && Walk(Split(raw)).value != []
    ensures var place := Walk(Split(raw)).value;
            && ValidateBundlePath(raw).value == Join(place) && MatchesCharset(Join(place))
            && PlainName(place[|place| - 1])
  {
    AcceptedIffWalksBelowBase(raw);
    var place := Walk(Split(raw)).value;
    assert place[|place| - 1] in place;
  }

  lemma JoinedCharset(name: string, place: seq<string>)
    requires place != [] && PlainName(place[|place| - 1]) && name == Join(place) && MatchesCharset(name)
    ensures place[|place| - 1] != "" && (AllValid(name) <==> LastChar(place[|place| - 1]) != '\n')
  {
    JoinedEnd(place);
    CharsetByLast(name);
  }

  /** An accepted path keeps to the documented charset if and only if the last name its walk
      enters does not end in a newline, which `$` lets through. */
  lemma CharsetIffNoFinalNewline(raw: string)
    requires ValidateBundlePath(raw).Ok?
    ensures Walk(Split(raw)).Some? && Walk(Split(raw)).value != []
    ensures var place := Walk(Split(raw)).value;
            var last := place[|place| - 1];
            last != "" && (AllValid(ValidateBundlePath(raw).value) <==> LastChar(last) != '\n')
  {
    AcceptedPlace(raw);
    JoinedCharset(ValidateBundlePath(raw).value, Walk(Split(raw)).value);
  }

  /** A path of plain names is accepted as it is. */
  lemma PlainPathAccepted(comps: seq<string>)
    requires comps != [] && (forall c | c in comps :: PlainName(c)) && MatchesCharset(Join(comps))
    ensures ValidateBundlePath(Join(comps)) == Ok(Join(comps))
  {
    SplitJoin(comps);
    WalkPlain(comps);
    JoinedStart(comps);
    CharsetHasNoNul(Join(comps));
    AcceptedIffWalksBelowBase(Join(comps));
  }

  lemma PlainNameAccepted(name: string)
    requires PlainName(name) && MatchesCharset(name)
    ensures ValidateBundlePath(name) == Ok(name)
  {
    assert Join([name]) == name;
    PlainPathAccepted([name]);
  }

  lemma LinkedPathAccepted()
    ensures ValidateBundlePath("link/new/f") == Ok("link/new/f")
  {
    var comps := ["link", "new", "f"];
    assert comps[1..] == ["new", "f"] && ["new", "f"][1..] == ["f"] && Join(["f"]) == "f";
    assert Join(["new", "f"]) == "new" + "/" + "f";
    assert Join(comps) == "link" + "/" + ("new" + "/" + "f");
    assert Join(comps) == "link/new/f";
    PlainPathAccepted(comps);
  }

  lemma TraversalSplits()
    ensures Split("b/../..") == ["b", "..", ".."]
  {
    assert ["..", ".."][1..] == [".."] && ["b", "..", ".."][1..] == ["..", ".."];
    assert Join([".."]) == "..";
    assert Join(["..", ".."]) == ".." + "/" + "..";
    assert Join(["b", "..", ".."]) == "b" + "/" + (".." + "/" + "..");
    assert "b" + "/" + (".." + "/" + "..") == "b/../..";
    SplitJoin(["b", "..", ".."]);
  }

  lemma TraversalRejected()
    ensures ValidateBundlePath("b/../..").Err?
  {
    TraversalSplits();
    var comps := ["b", "..", ".."];
    assert comps[..2] == ["b", ".."] && ["b", ".."][..1] == ["b"] && ["b"][..0] == [];
    assert Walk(["b"]) == Some([] + ["b"]);
    AcceptedIffWalksBelowBase("b/../..");
  }

  lemma FinalNewlineAccepted()
    ensures ValidateBundlePath("a\n") == Ok("a\n")
  {
    assert "a\n"[..1] == "a";
    PlainNameAccepted("a\n");
  }
}
