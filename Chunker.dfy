/** The chunking expression of the startup loader,
    `text.match(/(.|[\r\n]){1,500}/g) || []`, evaluated over UTF-16 code units. */
module Chunker {
  import opened JsValues

  /** The upper bound of the `{1,500}` quantifier. */
  const MaxChunk: nat := 500

  /** The ECMAScript line terminators, which `.` does not match without the `s` flag. */
  predicate IsLineTerminator(u: CodeUnit)
  {
    u == LF || u == CR || u == LS || u == PS
  }

  /** One iteration of the group `(.|[\r\n])`: `.` or one of the two classes. */
  predicate MatchesAtom(u: CodeUnit)
  {
    !IsLineTerminator(u) || u == CR || u == LF
  }

  /** The group accepts every code unit except LINE SEPARATOR and PARAGRAPH SEPARATOR. */
  lemma AtomRejectsOnlySeparators(u: CodeUnit)
    ensures MatchesAtom(u) <==> u != LS && u != PS
  {
  }

  /** The greedy quantifier tried at the start of t: it takes as many
      matching units as there are, up to cap. */
  function GreedyRun(t: Text, cap: nat): (n: nat)
    ensures n <= cap && n <= |t|
    ensures forall i :: 0 <= i < n ==> MatchesAtom(t[i])
    ensures n < cap && n < |t| ==> !MatchesAtom(t[n])
  {
    if cap == 0 || t == [] || !MatchesAtom(t[0]) then 0
    else 1 + GreedyRun(t[1..], cap - 1)
  }

  /** The matches a global `match` collects, scanning left to right: where
      the pattern fails (a separator) the scan moves on by one unit; where it
      succeeds, the match ends the window and the scan resumes after it. */
  function Matches(t: Text): (r: seq<Text>)
    ensures forall k :: 0 <= k < |r| ==> 1 <= |r[k]| <= MaxChunk
    ensures forall k, i :: 0 <= k < |r| && 0 <= i < |r[k]| ==> MatchesAtom(r[k][i])
    ensures r == [] <==> forall i :: 0 <= i < |t| ==> !MatchesAtom(t[i])
    decreases |t|
  {
    if t == [] then []
    else
      var n := GreedyRun(t, MaxChunk);
      if n == 0 then
        var r := Matches(t[1..]);
        assert forall i :: 1 <= i < |t| ==> t[i] == t[1..][i - 1];
        r
      else
        [t[..n]] + Matches(t[n..])
  }

  /** `String.prototype.match` with a global pattern: null when nothing
      matched, otherwise the list of matches. */
  function Match(t: Text): (r: Option<seq<Text>>)
    ensures r.None? <==> forall i :: 0 <= i < |t| ==> !MatchesAtom(t[i])
    ensures r.Some? ==> r.value != [] && r.value == Matches(t)
  {
    var m := Matches(t);
    if m == [] then None else Some(m)
  }

  /** The chunks of the document text: `match(...) || []`. */
  function Chunks(text: Text): (r: seq<Text>)
    ensures text == [] ==> r == []
    ensures r == Matches(text)
  {
    match Match(text)
    case None => []
    case Some(m) => m
  }

  /** The concatenation of a list of strings. */
  function Flatten(parts: seq<Text>): Text
  {
    if parts == [] then [] else parts[0] + Flatten(parts[1..])
  }

  /** The text without the two units the pattern cannot match. */
  function KeepMatchable(t: Text): Text
  {
    if t == [] then []
    else (if MatchesAtom(t[0]) then [t[0]] else []) + KeepMatchable(t[1..])
  }

  /** A text with no LINE SEPARATOR and no PARAGRAPH SEPARATOR unit, so that
      the pattern matches at every position. */
  predicate NoUnmatchableUnits(t: Text)
  {
    forall i :: 0 <= i < |t| ==> t[i] != LS && t[i] != PS
  }

  lemma {:induction false} KeepMatchableAppend(a: Text, b: Text)
    ensures KeepMatchable(a + b) == KeepMatchable(a) + KeepMatchable(b)
  {
    if a == [] {
      assert a + b == b;
    } else {
      assert (a + b)[1..] == a[1..] + b;
      KeepMatchableAppend(a[1..], b);
    }
  }

  lemma {:induction false} KeepMatchableOfMatchable(t: Text)
    requires forall i :: 0 <= i < |t| ==> MatchesAtom(t[i])
    ensures KeepMatchable(t) == t
  {
    if t != [] {
      KeepMatchableOfMatchable(t[1..]);
    }
  }

  /** Where the scan finds a match of n units, the match is the prefix of
      n units and the scan resumes after it; the prefix is all matchable. */
  lemma MatchesStep(t: Text)
    requires t != [] && GreedyRun(t, MaxChunk) > 0
    ensures var n := GreedyRun(t, MaxChunk);
            Matches(t) == [t[..n]] + Matches(t[n..]) &&
            KeepMatchable(t) == t[..n] + KeepMatchable(t[n..])
  {
    var n := GreedyRun(t, MaxChunk);
    assert t == t[..n] + t[n..];
    KeepMatchableAppend(t[..n], t[n..]);
    KeepMatchableOfMatchable(t[..n]);
  }

  /** The chunks, put back together, are the text minus its LINE SEPARATOR
      and PARAGRAPH SEPARATOR units, in their original order. */
  lemma {:induction false} ChunksReassemble(t: Text)
    ensures Flatten(Matches(t)) == KeepMatchable(t)
    ensures Flatten(Chunks(t)) == KeepMatchable(t)
    decreases |t|
  {
    if t != [] {
      var n := GreedyRun(t, MaxChunk);
      if n == 0 {
        ChunksReassemble(t[1..]);
      } else {
        ChunksReassemble(t[n..]);
        MatchesStep(t);
        var r := [t[..n]] + Matches(t[n..]);
        assert r[0] == t[..n] && r[1..] == Matches(t[n..]);
      }
    }
  }

  /** On a non-empty text without separators the first chunk is the first
      min(|t|, MaxChunk) units and the rest are the chunks of what follows. */
  lemma PlainTextStep(t: Text)
    requires NoUnmatchableUnits(t) && t != []
    ensures Chunks(t) == [t[..Min(MaxChunk, |t|)]] + Chunks(t[Min(MaxChunk, |t|)..])
    ensures NoUnmatchableUnits(t[Min(MaxChunk, |t|)..])
  {
    var n := GreedyRun(t, MaxChunk);
    assert n == Min(MaxChunk, |t|);
    var rest := t[n..];
    assert forall i :: 0 <= i < |rest| ==> rest[i] == t[n + i];
  }

  /** On a text without separators there are ceil(|t| / MaxChunk) chunks. */
  lemma {:induction false} PlainTextChunkCount(t: Text)
    requires NoUnmatchableUnits(t)
    ensures |Chunks(t)| == (|t| + MaxChunk - 1) / MaxChunk
    decreases |t|
  {
    if t != [] {
      PlainTextStep(t);
      PlainTextChunkCount(t[Min(MaxChunk, |t|)..]);
    }
  }

  /** Window k of t: the MaxChunk units from MaxChunk * k on, cut short by
      the end of the text. */
  function Window(t: Text, k: nat): Text
    requires MaxChunk * k < |t|
  {
    t[MaxChunk * k .. Min(MaxChunk * k + MaxChunk, |t|)]
  }

  lemma WindowOfSuffix(t: Text, k: nat)
    requires MaxChunk < |t| && 0 < k && MaxChunk * (k - 1) < |t| - MaxChunk
    ensures MaxChunk * k < |t| && Window(t, k) == Window(t[MaxChunk..], k - 1)
  {
    var a := MaxChunk * (k - 1);
    var b := Min(a + MaxChunk, |t| - MaxChunk);
    assert t[MaxChunk..][a..b] == t[MaxChunk + a .. MaxChunk + b];
  }

  /** On a text without separators chunk k is window k. */
  lemma {:induction false} PlainTextChunkAt(t: Text, k: nat)
    requires NoUnmatchableUnits(t) && k < |Chunks(t)|
    ensures MaxChunk * k < |t| && Chunks(t)[k] == Window(t, k)
    decreases k
  {
    PlainTextStep(t);
    if k > 0 {
      var rest := t[Min(MaxChunk, |t|)..];
      assert Chunks(t)[k] == Chunks(rest)[k - 1];
      PlainTextChunkAt(rest, k - 1);
      WindowOfSuffix(t, k);
    }
  }

  /** On a text without separators the chunks are exactly the fixed windows
      of MaxChunk units at 0, MaxChunk, 2 * MaxChunk, ..., ceil(|t| / MaxChunk)
      of them. */
  lemma PlainTextWindows(t: Text)
    requires NoUnmatchableUnits(t)
    ensures |Chunks(t)| == (|t| + MaxChunk - 1) / MaxChunk
    ensures forall k :: 0 <= k < |Chunks(t)| ==> MaxChunk * k < |t| && Chunks(t)[k] == Window(t, k)
  {
    PlainTextChunkCount(t);
    forall k | 0 <= k < |Chunks(t)|
      ensures MaxChunk * k < |t| && Chunks(t)[k] == Window(t, k)
    {
      PlainTextChunkAt(t, k);
    }
  }

  /** On a text without separators the chunks put back together are the text. */
  lemma PlainTextRoundTrip(t: Text)
    requires NoUnmatchableUnits(t)
    ensures Flatten(Chunks(t)) == t
  {
    ChunksReassemble(t);
    KeepMatchableOfMatchable(t);
  }

  /** On a text without separators every chunk but the last is exactly
      MaxChunk units long, and the last holds what remains. */
  lemma PlainTextFullChunks(t: Text)
    requires NoUnmatchableUnits(t)
    ensures forall k :: 0 <= k < |Chunks(t)| - 1 ==> |Chunks(t)[k]| == MaxChunk
    ensures Chunks(t) != [] ==>
              |Chunks(t)[|Chunks(t)| - 1]| == |t| - MaxChunk * (|Chunks(t)| - 1)
  {
    PlainTextWindows(t);
  }
}
