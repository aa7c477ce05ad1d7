/** The durable harvest tombstones as text: one `delegation_id<TAB>status` per line
    (molecule_runtime/heartbeat.py, `_save_harvest_tombstones` and `_load_harvest_tombstones`). */
module Tombstones {
  import opened Text

  type Key = (string, string)

  predicate IsBreak(c: char) { c == '\n' || c == '\r' }
  predicate InLine(c: char) { !IsBreak(c) }
  predicate NotTab(c: char) { c != '\t' }

  function TextOf(keys: seq<Key>): string {
    if keys == [] then "" else keys[0].0 + "\t" + keys[0].1 + "\n" + TextOf(keys[1..])
  }

  /** `line.strip().partition("\t")`, kept if there is an id. */
  function ParseLine(line: string): set<Key> {
    var s := Strip(line);
    var n := Run(NotTab, s);
    if n == 0 then {} else {(s[..n], if n < |s| then s[n + 1..] else "")}
  }

  /** Text mode reads `\n`, `\r` and `\r\n` alike as line ends; empty lines add nothing. */
  function Parse(text: string): set<Key>
    decreases |text|
  {
    var n := Run(InLine, text);
    ParseLine(text[..n]) + if n < |text| then Parse(text[n + 1..]) else {}
  }

  /** An id the format keeps: not empty, no leading blank, no tab, no line break. */
  predicate CleanId(id: string) {
    id != "" && !IsSpace(id[0]) && All(NotTab, id) && All(InLine, id)
  }

  /** The only statuses that are ever committed. */
  predicate Terminal(status: string) {
    status == "completed" || status == "failed"
  }

  lemma {:induction false} RunStopsAt(p: char -> bool, a: string, c: char, b: string)
    requires All(p, a) && !p(c)
    ensures Run(p, a + [c] + b) == |a|
  {
    var s := a + [c] + b;
    if a != "" {
      assert s[1..] == a[1..] + [c] + b;
      RunStopsAt(p, a[1..], c, b);
    } else {
      assert s[0] == c;
    }
  }

  lemma CleanLineParses(id: string, status: string)
    requires CleanId(id) && Terminal(status)
    ensures ParseLine(id + "\t" + status) == {(id, status)}
  {
    var line := id + ['\t'] + status;
    assert line == id + "\t" + status;
    assert line[0] == id[0] && line[|line| - 1] == status[|status| - 1];
    RunStopsAt(NotTab, id, '\t', status);
    assert line[..|id|] == id && line[|id| + 1..] == status;
  }

  lemma ParseFirstLine(line: string, rest: string)
    requires All(InLine, line)
    ensures Parse(line + ['\n'] + rest) == ParseLine(line) + Parse(rest)
  {
    var text := line + ['\n'] + rest;
    RunStopsAt(InLine, line, '\n', rest);
    assert text[..|line|] == line && text[|line| + 1..] == rest;
  }

  lemma TextOfFirst(keys: seq<Key>)
    requires keys != []
    ensures TextOf(keys) == (keys[0].0 + "\t" + keys[0].1) + ['\n'] + TextOf(keys[1..])
  {
  }

  lemma KeysOfFirst(keys: seq<Key>)
    requires keys != []
    ensures (set k | k in keys) == {keys[0]} + set k | k in keys[1..]
  {
    assert forall k :: k in keys <==> k == keys[0] || k in keys[1..];
  }

  lemma {:induction false} CleanKeysParse(keys: seq<Key>)
    requires forall k | k in keys :: CleanId(k.0) && Terminal(k.1)
    ensures Parse(TextOf(keys)) == set k | k in keys
  {
    if keys == [] {
      assert Run(InLine, "") == 0 && ParseLine("") == {};
    } else {
      var id, status := keys[0].0, keys[0].1;
      assert keys[0] in keys && forall k | k in keys[1..] :: k in keys;
      TextOfFirst(keys);
      ParseFirstLine(id + "\t" + status, TextOf(keys[1..]));
      CleanLineParses(id, status);
      CleanKeysParse(keys[1..]);
      KeysOfFirst(keys);
    }
  }

  lemma {:induction false} StripKeepsChars(s: string)
    ensures forall c | c in StripLeft(s) :: c in s
    ensures forall c | c in StripRight(s) :: c in s
    ensures StripLeft(s) != "" ==> !IsSpace(StripLeft(s)[0])
    ensures StripRight(s) != "" ==> s != "" && StripRight(s)[0] == s[0]
    decreases |s|
  {
    if s == "" {
    } else {
      StripKeepsChars(s[1..]);
      StripKeepsChars(s[..|s| - 1]);
    }
  }

  lemma ParsedLineIsClean(line: string, k: Key)
    requires All(InLine, line) && k in ParseLine(line)
    ensures CleanId(k.0)
  {
    StripKeepsChars(line);
    StripKeepsChars(StripLeft(line));
    var s := Strip(line);
    forall i | 0 <= i < |k.0| ensures InLine(k.0[i]) {
      assert k.0[i] == s[i] && s[i] in s && s[i] in line;
    }
  }

  lemma {:induction false} ParsedIsClean(text: string, k: Key)
    requires k in Parse(text)
    ensures CleanId(k.0)
    decreases |text|
  {
    var n := Run(InLine, text);
    if k in ParseLine(text[..n]) {
      ParsedLineIsClean(text[..n], k);
    } else {
      ParsedIsClean(text[n + 1..], k);
    }
  }

  /** Saving and loading gives the tombstones back, whatever the order they were written
      in, if and only if every id is clean. */
  lemma RoundTripIffClean(keys: seq<Key>)
    requires forall k | k in keys :: Terminal(k.1)
    ensures Parse(TextOf(keys)) == (set k | k in keys) <==> forall k | k in keys :: CleanId(k.0)
  {
    if Parse(TextOf(keys)) == (set k | k in keys) {
      forall k | k in keys ensures CleanId(k.0) {
        ParsedIsClean(TextOf(keys), k);
      }
    }
    if forall k | k in keys :: CleanId(k.0) {
      CleanKeysParse(keys);
    }
  }
}
