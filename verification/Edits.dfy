/** Left-to-right rewriting of a text, as `str.replace` and `re.sub` perform it.

    A rewriting pass is a sequence of edits: a character copied over, or a
    stretch of the input removed and another text put in its place. Everything
    the sanitiser needs to know about a pass follows from that shape, so it is
    proved here once, for every pass.
 */
module Edits {
  import opened Wrappers

  datatype Edit = Copy(c: char) | Put(removed: string, put: string)

  function ReadBy(e: Edit): string {
    match e case Copy(c) => [c] case Put(removed, _) => removed
  }

  function WrittenBy(e: Edit): string {
    match e case Copy(c) => [c] case Put(_, put) => put
  }

  /** The text a pass has read. */
  function Source(edits: seq<Edit>): string {
    if edits == [] then "" else ReadBy(edits[0]) + Source(edits[1..])
  }

  /** The text a pass writes. */
  function Target(edits: seq<Edit>): string {
    if edits == [] then "" else WrittenBy(edits[0]) + Target(edits[1..])
  }

  lemma {:induction false} ConcatEdits(a: seq<Edit>, b: seq<Edit>)
    ensures Source(a + b) == Source(a) + Source(b)
    ensures Target(a + b) == Target(a) + Target(b)
  {
    if a == [] {
      assert a + b == b && "" + Source(b) == Source(b) && "" + Target(b) == Target(b);
    } else {
      assert (a + b)[1..] == a[1..] + b && (a + b)[0] == a[0];
      ConcatEdits(a[1..], b);
      Associate(ReadBy(a[0]), Source(a[1..]), Source(b));
      Associate(WrittenBy(a[0]), Target(a[1..]), Target(b));
    }
  }

  predicate OccursAt(s: string, w: string, p: nat) {
    p + |w| <= |s| && s[p..p + |w|] == w
  }

  predicate Contains(s: string, w: string) {
    exists p | 0 <= p <= |s| :: OccursAt(s, w, p)
  }

  /** The edits from index `i` on copy the word `w`, character for character. */
  predicate CopiesWordAt(edits: seq<Edit>, w: string, i: nat) {
    i + |w| <= |edits| && forall k | 0 <= k < |w| :: edits[i + k] == Copy(w[k])
  }

  /** No occurrence of `w` can start inside `put`, nor run into it from the left. */
  predicate Inert(put: string, w: string) {
    && |w| >= 3
    && put != ""
    && (forall k | 1 <= k < |w| :: w[k] != put[0])
    && (forall k | 0 <= k < |put| && put[k] == w[0] ::
          && k + 2 < |put|
          && (put[k + 1] != w[1] || put[k + 2] != w[2]))
  }

  predicate AllInert(edits: seq<Edit>, w: string) {
    forall e | e in edits && e.Put? :: Inert(e.put, w)
  }

  lemma CopiesInTail(edits: seq<Edit>, w: string, i: nat)
    requires edits != []
    ensures CopiesWordAt(edits, w, i + 1) <==> CopiesWordAt(edits[1..], w, i)
  {
    if CopiesWordAt(edits, w, i + 1) {
      forall k | 0 <= k < |w| ensures edits[1..][i + k] == Copy(w[k]) {
        assert edits[i + 1 + k] == Copy(w[k]);
      }
    }
    if CopiesWordAt(edits[1..], w, i) {
      forall k | 0 <= k < |w| ensures edits[i + 1 + k] == Copy(w[k]) {
        assert edits[1..][i + k] == Copy(w[k]);
      }
    }
  }

  lemma OccursFurtherOn(first: string, rest: string, w: string, p: nat)
    requires |first| <= p && OccursAt(first + rest, w, p)
    ensures OccursAt(rest, w, p - |first|)
  {
    assert (first + rest)[p..p + |w|] == rest[p - |first|..p - |first| + |w|];
  }

  lemma OccursNotInInert(put: string, rest: string, w: string, p: nat)
    requires Inert(put, w) && p < |put|
    ensures !OccursAt(put + rest, w, p)
  {
    var s := put + rest;
    if p + |w| <= |s| {
      assert s[p..p + |w|][0] == s[p] && s[p..p + |w|][1] == s[p + 1] && s[p..p + |w|][2] == s[p + 2];
    }
  }

  lemma OccursFirst(c: char, rest: string, w: string)
    requires w != "" && OccursAt([c] + rest, w, 0)
    ensures w[0] == c && w[1..] <= rest
  {
    assert ([c] + rest)[..|w|][1..] == rest[..|w| - 1];
  }

  lemma CopiesWithFirst(edits: seq<Edit>, w: string)
    requires edits != [] && w != "" && edits[0] == Copy(w[0]) && CopiesWordAt(edits[1..], w[1..], 0)
    ensures CopiesWordAt(edits, w, 0)
  {
    forall k | 0 <= k < |w| ensures edits[k] == Copy(w[k]) {
      if k > 0 { assert edits[1..][k - 1] == Copy(w[1..][k - 1]); }
    }
  }

  /** A word free of what the insertions start with that begins the output was copied. */
  lemma {:induction false} PrefixWasCopied(edits: seq<Edit>, w: string)
    requires w <= Target(edits)
    requires forall e | e in edits && e.Put? :: e.put != "" && e.put[0] !in w
    ensures CopiesWordAt(edits, w, 0)
  {
    if w == "" {
    } else {
      assert edits[0] in edits && Target(edits)[0] == w[0];
      assert OccursAt(Target(edits), w, 0);
      OccursFirst(edits[0].c, Target(edits[1..]), w);
      PrefixWasCopied(edits[1..], w[1..]);
      CopiesWithFirst(edits, w);
    }
  }

  lemma InertTail(edits: seq<Edit>, w: string)
    requires edits != [] && AllInert(edits, w)
    ensures AllInert(edits[1..], w)
  {
    assert forall e | e in edits[1..] :: e in edits;
  }

  lemma FirstWasCopied(edits: seq<Edit>, w: string, p: nat)
    requires edits != [] && AllInert(edits, w) && |w| >= 3
    requires OccursAt(Target(edits), w, p) && p < |WrittenBy(edits[0])|
    ensures CopiesWordAt(edits, w, 0)
  {
    assert edits[0] in edits && forall e | e in edits[1..] :: e in edits;
    if edits[0].Put? {
      OccursNotInInert(edits[0].put, Target(edits[1..]), w, p);
    }
    OccursFirst(edits[0].c, Target(edits[1..]), w);
    PrefixWasCopied(edits[1..], w[1..]);
    CopiesWithFirst(edits, w);
  }

  lemma CopiesLater(edits: seq<Edit>, w: string, j: nat, i: nat)
    requires edits != [] && CopiesWordAt(edits[1..], w, j) && i == j + 1
    ensures CopiesWordAt(edits, w, i)
  {
    CopiesInTail(edits, w, j);
  }

  /** Insertions that are inert for `w` never help to form it: wherever `w`
      stands in the output, the pass copied it from consecutive input characters. */
  lemma {:induction false} OccurrenceWasCopied(edits: seq<Edit>, w: string, p: nat) returns (i: nat)
    requires AllInert(edits, w) && |w| >= 3
    requires OccursAt(Target(edits), w, p)
    ensures CopiesWordAt(edits, w, i)
  {
    if p < |WrittenBy(edits[0])| {
      FirstWasCopied(edits, w, p);
      return 0;
    }
    InertTail(edits, w);
    OccursFurtherOn(WrittenBy(edits[0]), Target(edits[1..]), w, p);
    var j := OccurrenceWasCopied(edits[1..], w, p - |WrittenBy(edits[0])|);
    i := j + 1;
    CopiesLater(edits, w, j, i);
  }

  /** What a pass copied from consecutive characters stands in its input. */
  lemma {:induction false} CopiesOccurInSource(edits: seq<Edit>, w: string, i: nat)
    requires CopiesWordAt(edits, w, i)
    ensures Contains(Source(edits), w)
    decreases i, |w|
  {
    if i == 0 {
      CopiedPrefix(edits, w);
      assert OccursAt(Source(edits), w, 0);
    } else {
      var first := ReadBy(edits[0]);
      CopiesInTail(edits, w, i - 1);
      CopiesOccurInSource(edits[1..], w, i - 1);
      var p :| 0 <= p <= |Source(edits[1..])| && OccursAt(Source(edits[1..]), w, p);
      assert Source(edits)[|first| + p..|first| + p + |w|] == w;
      assert OccursAt(Source(edits), w, |first| + p);
    }
  }

  lemma {:induction false} CopiedPrefix(edits: seq<Edit>, w: string)
    requires CopiesWordAt(edits, w, 0)
    ensures w <= Source(edits)
  {
    if w == "" {
    } else {
      assert edits[0] == Copy(w[0]);
      forall k | 0 <= k < |w| - 1 ensures edits[1..][k] == Copy(w[1..][k]) {
        assert edits[k + 1] == Copy(w[k + 1]);
      }
      CopiedPrefix(edits[1..], w[1..]);
    }
  }

  /** A pass whose insertions are inert for `w` cannot create `w`. */
  lemma NothingSpliced(edits: seq<Edit>, w: string)
    requires AllInert(edits, w) && |w| >= 3
    requires !Contains(Source(edits), w)
    ensures !Contains(Target(edits), w)
  {
    if Contains(Target(edits), w) {
      var p :| 0 <= p <= |Target(edits)| && OccursAt(Target(edits), w, p);
      var i := OccurrenceWasCopied(edits, w, p);
      CopiesOccurInSource(edits, w, i);
    }
  }
}
