/** Reciprocal rank fusion: `rrf` of `src/journal.rs` and `rrf_fuse` of
    `src/search.rs`. Scores are exact here. */
module Fusion {
  import opened Base

  const RRF_K := 60.0

  /** What a place in a list is worth; places count from 0. */
  function Worth(rank: nat): real { 1.0 / (RRF_K + rank as real + 1.0) }

  lemma WorthFalls(i: nat, j: nat)
    requires i < j
    ensures 0.0 < Worth(j) < Worth(i)
  {
    var a, b := RRF_K + i as real + 1.0, RRF_K + j as real + 1.0;
    assert 0.0 < a < b;
    Reciprocals(a, b);
  }

  lemma Reciprocals(a: real, b: real)
    requires 0.0 < a < b
    ensures 0.0 < 1.0 / b < 1.0 / a
  {
    var p, q := 1.0 / a, 1.0 / b;
    assert p * a == 1.0 && q * b == 1.0;
    assert p > 0.0 && q > 0.0;
    assert (p - q) * a * b == b - a;
  }

  /** All that one list gives an id. */
  function Share(list: seq<int>, id: int): real {
    if list == [] then 0.0
    else Share(list[..|list| - 1], id) + if list[|list| - 1] == id then Worth(|list| - 1) else 0.0
  }

  function Score(a: seq<int>, b: seq<int>, id: int): real { Share(a, id) + Share(b, id) }

  /** In a list without repeats an id gets what its one place is worth. */
  lemma {:induction false} ShareIs(list: seq<int>, i: nat)
    requires NoDup(list) && i < |list|
    ensures Share(list, list[i]) == Worth(i)
  {
    var last := |list| - 1;
    var front := list[..last];
    if i == last {
      ShareNone(front, list[i]);
    } else {
      ShareIs(front, i);
      assert list[i] != list[last];
    }
  }

  lemma {:induction false} ShareNone(list: seq<int>, id: int)
    requires id !in list
    ensures Share(list, id) == 0.0
  {
    if list != [] { ShareNone(list[..|list| - 1], id); }
  }

  /** `x` stands no lower than `y` in the list; an absent id stands lowest. */
  ghost predicate NoWorse(list: seq<int>, x: int, y: int) {
    forall j | 0 <= j < |list| && list[j] == y :: exists i :: 0 <= i <= j && list[i] == x
  }

  lemma ShareNoWorse(list: seq<int>, x: int, y: int)
    requires NoDup(list) && NoWorse(list, x, y) && x != y
    ensures Share(list, x) >= Share(list, y)
    ensures x in list ==> Share(list, x) > Share(list, y)
  {
    if x in list {
      var i :| 0 <= i < |list| && list[i] == x;
      ShareIs(list, i);
      WorthFalls(i, i + 1);
      if y in list {
        var j :| 0 <= j < |list| && list[j] == y;
        var i' :| 0 <= i' <= j && list[i'] == x;
        ShareIs(list, j);
        ShareIs(list, i');
        WorthFalls(i', j);
      } else {
        ShareNone(list, y);
      }
    } else {
      assert y !in list;
      ShareNone(list, x);
      ShareNone(list, y);
    }
  }

  /** No worse in both lists and present in one of them: a higher score. */
  lemma Dominates(a: seq<int>, b: seq<int>, x: int, y: int)
    requires NoDup(a) && NoDup(b) && x != y && NoWorse(a, x, y) && NoWorse(b, x, y) && (x in a || x in b)
    ensures Score(a, b, x) > Score(a, b, y)
  {
    ShareNoWorse(a, x, y);
    ShareNoWorse(b, x, y);
  }

  // ---------------------------------------------------------------------
  // Ranking.

  /** Higher score first, then higher id. */
  predicate Ahead(scores: map<int, real>, x: int, y: int)
    requires x in scores && y in scores
  {
    scores[x] > scores[y] || (scores[x] == scores[y] && x > y)
  }

  /** Every id once, in order. */
  ghost predicate Ranked(scores: map<int, real>, ids: seq<int>) {
    && NoDup(ids) && Elems(ids) == scores.Keys
    && (forall i | 0 <= i < |ids| :: ids[i] in scores)
    && (forall i, j | 0 <= i < j < |ids| :: Ahead(scores, ids[i], ids[j]))
  }

  method Rank(scores: map<int, real>) returns (ids: seq<int>)
    ensures Ranked(scores, ids)
  {
    ids := [];
    var rest := scores.Keys;
    while rest != {}
      invariant rest <= scores.Keys && NoDup(ids) && Elems(ids) == scores.Keys - rest
      invariant forall i | 0 <= i < |ids| :: ids[i] in scores && ids[i] !in rest
      invariant forall i, j | 0 <= i < j < |ids| :: Ahead(scores, ids[i], ids[j])
      invariant forall i, x | 0 <= i < |ids| && x in rest :: Ahead(scores, ids[i], x)
      decreases rest
    {
      var x := First(scores, rest);
      NoDupConcat(ids, [x]);
      assert Elems(ids + [x]) == Elems(ids) + {x};
      ids, rest := ids + [x], rest - {x};
    }
  }

  method First(scores: map<int, real>, ids: set<int>) returns (x: int)
    requires ids != {} && ids <= scores.Keys
    ensures x in ids && forall y | y in ids && y != x :: Ahead(scores, x, y)
  {
    ghost var some := SomeMember(ids);
    x :| x in ids;
    var rest := ids - {x};
    while rest != {}
      invariant rest <= ids && x in ids && x !in rest
      invariant forall y | y in ids && y !in rest && y != x :: Ahead(scores, x, y)
      decreases rest
    {
      ghost var other := SomeMember(rest);
      var y :| y in rest;
      rest := rest - {y};
      if Ahead(scores, y, x) { x := y; }
    }
  }

  /** The order is the only one. */
  lemma {:induction false} OneRanking(scores: map<int, real>, a: seq<int>, b: seq<int>)
    requires Ranked(scores, a) && Ranked(scores, b)
    ensures a == b
  {
    NoDupSize(a);
    NoDupSize(b);
    forall i | 0 <= i < |a| ensures a[i] == b[i] { SamePlace(scores, a, b, i); }
  }

  lemma {:induction false} SamePlace(scores: map<int, real>, a: seq<int>, b: seq<int>, i: nat)
    requires Ranked(scores, a) && Ranked(scores, b) && i < |a| == |b|
    ensures a[i] == b[i]
  {
    forall k | 0 <= k < i ensures a[k] == b[k] { SamePlace(scores, a, b, k); }
    assert a[i] in Elems(b) && b[i] in Elems(a);
    var j :| 0 <= j < |b| && b[j] == a[i];
    var h :| 0 <= h < |a| && a[h] == b[i];
  }

  // ---------------------------------------------------------------------
  // `rrf`.

  /** The scores of the two lists. */
  ghost predicate ScoresOf(a: seq<int>, b: seq<int>, scores: map<int, real>) {
    scores.Keys == Elems(a) + Elems(b) && forall id | id in scores :: scores[id] == Score(a, b, id)
  }

  method AddShares(was: map<int, real>, list: seq<int>) returns (scores: map<int, real>)
    ensures scores.Keys == was.Keys + Elems(list)
    ensures forall id | id in scores :: scores[id] == (if id in was then was[id] else 0.0) + Share(list, id)
  {
    scores := was;
    for i := 0 to |list|
      invariant scores.Keys == was.Keys + Elems(list[..i])
      invariant forall id | id in scores :: scores[id] == (if id in was then was[id] else 0.0) + Share(list[..i], id)
    {
      var id := list[i];
      assert list[..i + 1] == list[..i] + [id] && list[..i + 1][..i] == list[..i];
      if id !in scores { assert id !in Elems(list[..i]); ShareNone(list[..i], id); }
      assert Elems(list[..i + 1]) == Elems(list[..i]) + {id};
      scores := scores[id := (if id in scores then scores[id] else 0.0) + Worth(i)];
    }
    assert list[..|list|] == list;
  }

  method Rrf(a: seq<int>, b: seq<int>) returns (ids: seq<int>, scores: map<int, real>)
    ensures ScoresOf(a, b, scores) && Ranked(scores, ids)
  {
    var first := AddShares(map[], a);
    scores := AddShares(first, b);
    forall id | id in scores ensures scores[id] == Score(a, b, id) {
      if id !in first { assert id !in Elems(a); ShareNone(a, id); }
    }
    ids := Rank(scores);
  }

  /** What stands no lower in both lists comes first. */
  lemma BetterComesFirst(a: seq<int>, b: seq<int>, scores: map<int, real>, ids: seq<int>, i: nat, j: nat)
    requires ScoresOf(a, b, scores) && Ranked(scores, ids) && NoDup(a) && NoDup(b)
    requires i < |ids| && j < |ids| && i != j && NoWorse(a, ids[i], ids[j]) && NoWorse(b, ids[i], ids[j])
    ensures i < j
  {
    assert ids[i] in Elems(ids);
    assert ids[i] in Elems(a) || ids[i] in Elems(b);
    Dominates(a, b, ids[i], ids[j]);
    assert j < i ==> Ahead(scores, ids[j], ids[i]);
  }

  /** The lists count alike: swapping them changes nothing. */
  lemma RrfCommutes(a: seq<int>, b: seq<int>, s: map<int, real>, s': map<int, real>, ids: seq<int>, ids': seq<int>)
    requires ScoresOf(a, b, s) && Ranked(s, ids) && ScoresOf(b, a, s') && Ranked(s', ids')
    ensures s == s' && ids == ids'
  {
    assert s.Keys == s'.Keys;
    forall id | id in s ensures s[id] == s'[id] {}
    assert s == s';
    OneRanking(s, ids, ids');
  }

  // ---------------------------------------------------------------------
  // `rrf_fuse`.

  datatype Hit = Hit(id: int, score: real, body: string)

  datatype Fused = Fused(id: int, score: real, lexical: Option<real>, dense: Option<real>, body: string)

  function Ids(hits: seq<Hit>): seq<int> {
    if hits == [] then [] else Ids(hits[..|hits| - 1]) + [hits[|hits| - 1].id]
  }

  /** The first hit with this id. */
  function FirstHit(hits: seq<Hit>, id: int): Option<Hit> {
    if hits == [] then None else if hits[0].id == id then Some(hits[0]) else FirstHit(hits[1..], id)
  }

  function ScoreIn(hits: seq<Hit>, id: int): Option<real> {
    match FirstHit(hits, id) case None => None case Some(h) => Some(h.score)
  }

  /** One id with its fused score, what each list said, and the body of the
      lexical hit when there is one. */
  ghost predicate FusedFrom(f: Fused, lex: seq<Hit>, dense: seq<Hit>) {
    && f.score == Score(Ids(lex), Ids(dense), f.id)
    && f.lexical == ScoreIn(lex, f.id) && f.dense == ScoreIn(dense, f.id)
    && (f.lexical.Some? || f.dense.Some?)
    && f.body == if f.lexical.Some? then FirstHit(lex, f.id).value.body else FirstHit(dense, f.id).value.body
  }

  lemma {:induction false} FirstHitIn(hits: seq<Hit>, id: int)
    ensures FirstHit(hits, id).Some? <==> id in Ids(hits)
  {
    if hits != [] {
      FirstHitIn(hits[1..], id);
      IdsCons(hits);
    }
  }

  lemma {:induction false} IdsCons(hits: seq<Hit>)
    requires hits != []
    ensures Ids(hits) == [hits[0].id] + Ids(hits[1..])
  {
    if |hits| > 1 {
      var front := hits[..|hits| - 1];
      IdsCons(front);
      assert front[1..] == hits[1..][..|hits[1..]| - 1];
    } else {
      assert hits[..0] == [] && hits[1..] == [];
    }
  }

  method IdsOf(hits: seq<Hit>) returns (ids: seq<int>)
    ensures ids == Ids(hits)
  {
    ids := [];
    for i := 0 to |hits|
      invariant ids == Ids(hits[..i])
    {
      assert hits[..i + 1][..i] == hits[..i];
      ids := ids + [hits[i].id];
    }
    assert hits[..|hits|] == hits;
  }

  /** The first of each id, kept where nothing was before. */
  ghost predicate Remembered(was: map<int, Hit>, hits: seq<Hit>, byId: map<int, Hit>) {
    && byId.Keys == was.Keys + Elems(Ids(hits))
    && forall id | id in byId :: if id in was then byId[id] == was[id] else FirstHit(hits, id) == Some(byId[id])
  }

  method Remember(was: map<int, Hit>, hits: seq<Hit>) returns (byId: map<int, Hit>)
    ensures Remembered(was, hits, byId)
  {
    byId := was;
    for i := 0 to |hits|
      invariant Remembered(was, hits[..i], byId)
    {
      assert hits[..i + 1] == hits[..i] + [hits[i]];
      RememberNext(was, hits[..i], hits[i], byId);
      if hits[i].id !in byId { byId := byId[hits[i].id := hits[i]]; }
    }
    assert hits[..|hits|] == hits;
  }

  lemma RememberNext(was: map<int, Hit>, front: seq<Hit>, h: Hit, byId: map<int, Hit>)
    requires Remembered(was, front, byId)
    ensures Remembered(was, front + [h], if h.id in byId then byId else byId[h.id := h])
  {
    var hits, next := front + [h], if h.id in byId then byId else byId[h.id := h];
    PushedIds(front, h);
    forall id | id in next ensures if id in was then next[id] == was[id] else FirstHit(hits, id) == Some(next[id]) {
      FirstHitPush(front, h, id);
      IdKnown(was, front, byId, id);
    }
  }

  lemma PushedIds(front: seq<Hit>, h: Hit)
    ensures Elems(Ids(front + [h])) == Elems(Ids(front)) + {h.id}
  {
    assert (front + [h])[..|front|] == front;
  }

  lemma IdKnown(was: map<int, Hit>, front: seq<Hit>, byId: map<int, Hit>, id: int)
    requires Remembered(was, front, byId)
    ensures id in byId <==> id in was || FirstHit(front, id).Some?
  {
    FirstHitIn(front, id);
    assert id in byId.Keys <==> id in was.Keys || id in Elems(Ids(front));
  }

  lemma {:induction false} FirstHitPush(hits: seq<Hit>, h: Hit, id: int)
    ensures FirstHit(hits + [h], id) == if FirstHit(hits, id).None? && h.id == id then Some(h) else FirstHit(hits, id)
  {
    if hits != [] {
      assert (hits + [h])[1..] == hits[1..] + [h];
      FirstHitPush(hits[1..], h, id);
    } else {
      assert [] + [h] == [h];
    }
  }

  /** An id is kept, or the list is full of ids that score no lower. */
  ghost predicate KeptOrLower(out: seq<Fused>, topK: nat, id: int, score: real) {
    || (exists i :: 0 <= i < |out| && out[i].id == id)
    || (|out| == topK && forall i | 0 <= i < |out| :: out[i].score >= score)
  }

  /** The best `topK` of the ids of both lists, best first; what is left out
      scores no higher than what is kept. */
  method Fuse(lex: seq<Hit>, dense: seq<Hit>, topK: nat) returns (out: seq<Fused>)
    ensures |out| <= topK && forall i | 0 <= i < |out| :: FusedFrom(out[i], lex, dense)
    ensures forall i, j | 0 <= i < j < |out| :: out[i].id != out[j].id && out[i].score >= out[j].score
    ensures forall id | id in Ids(lex) || id in Ids(dense) ::
            KeptOrLower(out, topK, id, Score(Ids(lex), Ids(dense), id))
  {
    var a := IdsOf(lex);
    var b := IdsOf(dense);
    var ids, scores := Rrf(a, b);
    var n := if topK < |ids| then topK else |ids|;
    out := FusedHits(lex, dense, ids[..n], scores);
    forall i, j | 0 <= i < j < |out| ensures out[i].id != out[j].id && out[i].score >= out[j].score {
      assert Ahead(scores, ids[i], ids[j]);
    }
    forall id | id in a || id in b ensures KeptOrLower(out, topK, id, Score(a, b, id)) {
      assert id in Elems(a) || id in Elems(b);
      assert id in Elems(ids);
      Kept(a, b, scores, ids, out, topK, id);
    }
  }

  lemma Kept(a: seq<int>, b: seq<int>, scores: map<int, real>, ids: seq<int>, out: seq<Fused>, topK: nat, id: int)
    requires ScoresOf(a, b, scores) && Ranked(scores, ids) && id in ids
    requires |out| == (if topK < |ids| then topK else |ids|)
    requires forall i | 0 <= i < |out| :: out[i].id == ids[i] && out[i].score == Score(a, b, ids[i])
    ensures KeptOrLower(out, topK, id, Score(a, b, id))
  {
    var j :| 0 <= j < |ids| && ids[j] == id;
    if j < |out| {
      assert out[j].id == id;
    } else {
      forall i | 0 <= i < |out| ensures out[i].score >= Score(a, b, id) { assert Ahead(scores, ids[i], ids[j]); }
    }
  }

  method FusedHits(lex: seq<Hit>, dense: seq<Hit>, ids: seq<int>, scores: map<int, real>) returns (out: seq<Fused>)
    requires ScoresOf(Ids(lex), Ids(dense), scores) && forall i | 0 <= i < |ids| :: ids[i] in scores
    ensures |out| == |ids| && forall i | 0 <= i < |ids| :: out[i].id == ids[i] && FusedFrom(out[i], lex, dense)
  {
    var byLex := Remember(map[], lex);
    var byDense := Remember(map[], dense);
    var byId := Remember(byLex, dense);
    out := [];
    for k := 0 to |ids|
      invariant |out| == k && forall i | 0 <= i < k :: out[i].id == ids[i] && FusedFrom(out[i], lex, dense)
    {
      var id := ids[k];
      FirstHitIn(lex, id);
      FirstHitIn(dense, id);
      assert id in Elems(Ids(lex)) || id in Elems(Ids(dense));
      assert id in byLex <==> id in Elems(Ids(lex));
      assert id in byDense <==> id in Elems(Ids(dense));
      out := out + [Fused(id, scores[id], if id in byLex then Some(byLex[id].score) else None,
                          if id in byDense then Some(byDense[id].score) else None, byId[id].body)];
    }
  }
}
