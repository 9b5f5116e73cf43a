/** The context pipeline of the `/ask` handler:
    `vectorDB.map(score).sort(descending).slice(0, 3).map(text).join("\n")`. */
module Retrieval {
  import opened JsValues
  import opened Services

  /** One element of `vectorDB`: a chunk and its embedding. */
  datatype Entry = Entry(text: Text, embedding: Vector)

  /** `{ ...obj, score }`: a copy of an entry with its score attached. */
  datatype Scored = Scored(text: Text, embedding: Vector, score: real)

  /** The similarity of the question's embedding (first argument) to an
      entry's embedding; `cosineSim` is not part of this model. */
  type Similarity = (Vector, Vector) -> real

  /** The `slice(0, 3)` bound. */
  const TopK: nat := 3

  function ScoreAll(store: seq<Entry>, query: Vector, sim: Similarity): seq<Scored>
  {
    seq(|store|, k requires 0 <= k < |store| =>
      Scored(store[k].text, store[k].embedding, sim(query, store[k].embedding)))
  }

  /** Non-increasing scores, the order the comparator `b.score - a.score` asks for. */
  predicate Descending(s: seq<Scored>)
  {
    forall i, j :: 0 <= i < j < |s| ==> s[i].score >= s[j].score
  }

  /** The elements scoring exactly v, in their order in s. */
  function Ties(s: seq<Scored>, v: real): seq<Scored>
  {
    if s == [] then []
    else (if s[0].score == v then [s[0]] else []) + Ties(s[1..], v)
  }

  lemma {:induction false} TiesAppend(a: seq<Scored>, b: seq<Scored>, v: real)
    ensures Ties(a + b, v) == Ties(a, v) + Ties(b, v)
  {
    if a == [] {
      assert a + b == b;
    } else {
      assert (a + b)[1..] == a[1..] + b;
      TiesAppend(a[1..], b, v);
    }
  }

  lemma {:induction false} TiesWitness(s: seq<Scored>, v: real) returns (j: nat)
    requires Ties(s, v) != []
    ensures j < |s| && s[j].score == v
  {
    if s[0].score != v {
      j := TiesWitness(s[1..], v);
      j := j + 1;
    } else {
      j := 0;
    }
  }

  lemma TiesOfHead(s: seq<Scored>)
    requires s != []
    ensures Ties(s, s[0].score) == [s[0]] + Ties(s[1..], s[0].score)
  {
  }

  /** Inserting x into a descending list, in front of the elements with a
      score no higher than its own: x keeps its place before later equals. */
  function Insert(x: Scored, l: seq<Scored>): (r: seq<Scored>)
    ensures |r| == |l| + 1
    ensures multiset(r) == multiset(l) + multiset{x}
  {
    if l == [] || x.score >= l[0].score then [x] + l
    else
      var r := [l[0]] + Insert(x, l[1..]);
      assert l == [l[0]] + l[1..];
      r
  }

  lemma {:induction false} InsertDescending(x: Scored, l: seq<Scored>)
    requires Descending(l)
    ensures Descending(Insert(x, l))
  {
    if l != [] && x.score < l[0].score {
      var tail := Insert(x, l[1..]);
      InsertDescending(x, l[1..]);
      forall k | 0 <= k < |tail|
        ensures l[0].score >= tail[k].score
      {
        assert tail[k] in multiset(l[1..]) + multiset{x};
        if tail[k] != x {
          var j :| 0 <= j < |l[1..]| && l[1..][j] == tail[k];
          assert l[j + 1] == tail[k];
        }
      }
      assert Insert(x, l) == [l[0]] + tail;
    }
  }

  lemma {:induction false} InsertTies(x: Scored, l: seq<Scored>, v: real)
    ensures Ties(Insert(x, l), v) == (if x.score == v then [x] else []) + Ties(l, v)
  {
    if l != [] && x.score < l[0].score {
      var r := Insert(x, l);
      assert r == [l[0]] + Insert(x, l[1..]);
      assert r[1..] == Insert(x, l[1..]);
      InsertTies(x, l[1..], v);
    } else {
      assert ([x] + l)[1..] == l;
    }
  }

  /** `Array.prototype.sort` with the comparator `(a, b) => b.score - a.score`:
      a stable sort by non-increasing score. */
  function SortByScore(s: seq<Scored>): (r: seq<Scored>)
    ensures |r| == |s|
    ensures multiset(r) == multiset(s)
    ensures Descending(r)
    ensures forall v :: Ties(r, v) == Ties(s, v)
  {
    if s == [] then []
    else
      var sorted := SortByScore(s[1..]);
      InsertDescending(s[0], sorted);
      assert forall v :: Ties(Insert(s[0], sorted), v) == Ties(s, v) by {
        forall v
          ensures Ties(Insert(s[0], sorted), v) == Ties(s, v)
        {
          InsertTies(s[0], sorted, v);
        }
      }
      assert s == [s[0]] + s[1..];
      Insert(s[0], sorted)
  }

  /** A list is determined by being descending and by its ties: any stable
      sort by non-increasing score computes the same list as SortByScore,
      whatever algorithm the engine uses. */
  lemma {:induction false} StableSortIsUnique(r: seq<Scored>, t: seq<Scored>)
    requires Descending(r) && Descending(t)
    requires forall v :: Ties(r, v) == Ties(t, v)
    ensures r == t
  {
    if r == [] && t == [] {
    } else if r == [] {
      TiesOfHead(t);
      assert false;
    } else if t == [] {
      TiesOfHead(r);
      assert false;
    } else {
      var a, b := r[0].score, t[0].score;
      assert Ties(r, a) == [r[0]] + Ties(r[1..], a);
      assert Ties(t, b) == [t[0]] + Ties(t[1..], b);
      var j := TiesWitness(t, a);
      assert a <= b by { if j > 0 { assert t[0].score >= t[j].score; } }
      var i := TiesWitness(r, b);
      assert b <= a by { if i > 0 { assert r[0].score >= r[i].score; } }
      assert Ties(r, a)[0] == r[0] && Ties(t, a)[0] == t[0];
      forall v
        ensures Ties(r[1..], v) == Ties(t[1..], v)
      {
        if v == a {
          assert Ties(r, v) == [r[0]] + Ties(r[1..], v);
          assert Ties(t, v) == [t[0]] + Ties(t[1..], v);
          assert Ties(r[1..], v) == Ties(r, v)[1..];
        } else {
          assert Ties(r, v) == Ties(r[1..], v);
          assert Ties(t, v) == Ties(t[1..], v);
        }
      }
      StableSortIsUnique(r[1..], t[1..]);
      assert r == [r[0]] + r[1..] && t == [t[0]] + t[1..];
    }
  }

  /** Any list that is descending and keeps the ties of s in their order is
      the result of SortByScore on s. */
  lemma StableSortsAgree(s: seq<Scored>, r: seq<Scored>)
    requires Descending(r)
    requires forall v :: Ties(r, v) == Ties(s, v)
    ensures r == SortByScore(s)
  {
    StableSortIsUnique(r, SortByScore(s));
  }

  /** The store scored against the query and stably sorted. */
  function Ranking(store: seq<Entry>, query: Vector, sim: Similarity): seq<Scored>
  {
    SortByScore(ScoreAll(store, query, sim))
  }

  /** `slice(0, 3)` of the ranking. */
  function Selected(store: seq<Entry>, query: Vector, sim: Similarity): seq<Scored>
  {
    var ranked := Ranking(store, query, sim);
    ranked[..Min(TopK, |ranked|)]
  }

  function Texts(s: seq<Scored>): (r: seq<Text>)
  {
    seq(|s|, k requires 0 <= k < |s| => s[k].text)
  }

  /** The context string handed to the prompt. */
  function Context(store: seq<Entry>, query: Vector, sim: Similarity): Text
  {
    JoinLines(Texts(Selected(store, query, sim)))
  }

  /** The selection holds min(3, |store|) entries in non-increasing score
      order. */
  lemma SelectedCountAndOrder(store: seq<Entry>, query: Vector, sim: Similarity)
    ensures |Selected(store, query, sim)| == Min(TopK, |store|)
    ensures Descending(Selected(store, query, sim))
  {
  }

  /** The selection and the unselected rest of the ranking together are the
      scored store, and no unselected entry scores higher than a selected one. */
  lemma SelectionPartitionsStore(store: seq<Entry>, query: Vector, sim: Similarity)
    ensures var sel := Selected(store, query, sim);
            var rest := Ranking(store, query, sim)[|sel|..];
            && multiset(sel) + multiset(rest) == multiset(ScoreAll(store, query, sim))
            && forall i, j :: 0 <= i < |sel| && 0 <= j < |rest| ==> sel[i].score >= rest[j].score
  {
    var ranked, sel := Ranking(store, query, sim), Selected(store, query, sim);
    assert ranked == sel + ranked[|sel|..];
    forall i, j | 0 <= i < |sel| && 0 <= j < |ranked| - |sel|
      ensures sel[i].score >= ranked[|sel|..][j].score
    {
      assert ranked[i].score >= ranked[|sel| + j].score;
    }
  }

  /** Any store entry that scores higher than some selected entry is itself
      selected. */
  lemma OutscoringEntriesAreSelected(store: seq<Entry>, query: Vector, sim: Similarity, k: nat, i: nat)
    requires k < |store| && i < |Selected(store, query, sim)|
    requires sim(query, store[k].embedding) > Selected(store, query, sim)[i].score
    ensures ScoreAll(store, query, sim)[k] in Selected(store, query, sim)
  {
    var scored, ranked, sel := ScoreAll(store, query, sim), Ranking(store, query, sim), Selected(store, query, sim);
    var rest := ranked[|sel|..];
    SelectionPartitionsStore(store, query, sim);
    assert scored[k] in multiset(scored);
    if scored[k] !in multiset(sel) {
      assert false;
    }
  }

  /** Stable tie order: among entries of equal score, the selected ones are
      the earliest ones in store order, and the unselected ones follow. */
  lemma SelectionKeepsTieOrder(store: seq<Entry>, query: Vector, sim: Similarity, v: real)
    ensures var scored, sel := ScoreAll(store, query, sim), Selected(store, query, sim);
            var rest := Ranking(store, query, sim)[|sel|..];
            && Ties(sel, v) + Ties(rest, v) == Ties(scored, v)
            && Ties(sel, v) == Ties(scored, v)[..|Ties(sel, v)|]
  {
    var ranked, sel := Ranking(store, query, sim), Selected(store, query, sim);
    assert ranked == sel + ranked[|sel|..];
    TiesAppend(sel, ranked[|sel|..], v);
  }

  /** The context is the selected texts, in ranking order, one newline
      between neighbours; an empty store gives the empty string. */
  lemma ContextLayout(store: seq<Entry>, query: Vector, sim: Similarity, k: nat)
    requires k < Min(TopK, |store|)
    ensures var sel, ctx := Selected(store, query, sim), Context(store, query, sim);
            var pieces := Texts(sel);
            && |pieces| == Min(TopK, |store|)
            && |ctx| == TotalLength(pieces) + |pieces| - 1
            && Offset(pieces, k) + |sel[k].text| + (|pieces| - 1 - k) <= |ctx|
            && ctx[Offset(pieces, k) .. Offset(pieces, k) + |sel[k].text|] == sel[k].text
            && (k + 1 < |pieces| ==> ctx[Offset(pieces, k) + |sel[k].text|] == LF)
  {
    JoinLinesLayout(Texts(Selected(store, query, sim)), k);
  }

  /** An empty store gives an empty context and a one-entry store gives
      that entry's text. */
  lemma ContextOfSmallStore(store: seq<Entry>, query: Vector, sim: Similarity)
    ensures store == [] ==> Context(store, query, sim) == []
    ensures |store| == 1 ==> Context(store, query, sim) == store[0].text
  {
    if |store| == 1 {
      assert Ranking(store, query, sim)[0] in multiset(ScoreAll(store, query, sim));
    }
  }

  /** The first coordinate of the entry's embedding, a stand-in similarity
      used by the worked example below. */
  function FirstCoordinate(query: Vector, e: Vector): real
  {
    if |e| > 0 then e[0] else 0.0
  }

  /** Chunks "A", "B", "C" whose embeddings score 0.9, 0.5 and 0.8. */
  const ExampleStore: seq<Entry> := [Entry([65], [0.9]), Entry([66], [0.5]), Entry([67], [0.8])]

  /** They rank A, C, B. */
  lemma ExampleRanking()
    ensures Ranking(ExampleStore, [], FirstCoordinate)
         == [Scored([65], [0.9], 0.9), Scored([67], [0.8], 0.8), Scored([66], [0.5], 0.5)]
  {
    var store := ExampleStore;
    var a, b, c := Scored([65], [0.9], 0.9), Scored([66], [0.5], 0.5), Scored([67], [0.8], 0.8);
    var scored := ScoreAll(store, [], FirstCoordinate);
    assert scored[0].score == FirstCoordinate([], [0.9]) == 0.9;
    assert scored[1].score == FirstCoordinate([], [0.5]) == 0.5;
    assert scored[2].score == FirstCoordinate([], [0.8]) == 0.8;
    assert scored[0] == a && scored[1] == b && scored[2] == c;
    assert scored == [a, b, c];
    var ranked := [a, c, b];
    forall v
      ensures Ties(ranked, v) == Ties(scored, v)
    {
      TiesOfThree(a, c, b, v);
      TiesOfThree(a, b, c, v);
    }
    StableSortsAgree(scored, ranked);
  }

  /** ... so their context is "A\nC\nB". */
  lemma ContextExample()
    ensures Context(ExampleStore, [], FirstCoordinate) == [65, LF, 67, LF, 66]
  {
    ExampleRanking();
    var a, b, c := Scored([65], [0.9], 0.9), Scored([66], [0.5], 0.5), Scored([67], [0.8], 0.8);
    assert Selected(ExampleStore, [], FirstCoordinate) == [a, c, b];
    TextsOfThree(a, c, b);
    JoinLinesOfThree(a.text, c.text, b.text);
  }

  lemma TextsOfThree(x: Scored, y: Scored, z: Scored)
    ensures Texts([x, y, z]) == [x.text, y.text, z.text]
  {
  }

  lemma JoinLinesOfThree(x: Text, y: Text, z: Text)
    ensures JoinLines([x, y, z]) == x + [LF] + y + [LF] + z
  {
    assert [x, y, z][1..] == [y, z] && [y, z][1..] == [z];
    assert JoinLines([y, z]) == y + [LF] + z;
  }

  lemma TiesOfThree(x: Scored, y: Scored, z: Scored, v: real)
    ensures Ties([x, y, z], v)
         == (if x.score == v then [x] else []) + (if y.score == v then [y] else [])
          + (if z.score == v then [z] else [])
  {
    assert [x, y, z][1..] == [y, z] && [y, z][1..] == [z] && [z][1..] == [];
    assert Ties([z], v) == (if z.score == v then [z] else []);
    assert Ties([y, z], v) == (if y.score == v then [y] else []) + Ties([z], v);
  }
}
