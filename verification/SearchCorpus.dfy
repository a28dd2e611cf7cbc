/** What the suggestions of media/stremio/local_search.py are by definition: every title, every word, no index. */
module SearchCorpus {
  import opened Wrappers
  import opened EditDistance
  import opened Sums

  /** The words of each title, how much it is worth by itself, and the logarithm. */
  datatype Corpus = Corpus(docs: seq<seq<string>>, boosts: seq<real>, log10: real -> real) {
    ghost predicate Proper() {
      && |boosts| == |docs| && (forall d :: 0 <= d < |docs| ==> boosts[d] > 0.0)
      && (forall d :: 0 <= d < |docs| ==> [] !in docs[d])
      && (forall x :: x >= 1.0 ==> log10(x) >= 0.0)
    }
  }

  /** How a query's word relates to a title's: their distance if at most one, their lengths' ratio if it begins it. */
  datatype Relation = Relation(distance: Option<nat>, ratio: Option<real>)

  function RelationOf(q: string, t: string): Relation {
    Relation(if Distance(q, t) <= 1 then Some(Distance(q, t)) else None,
             if q <= t && t != [] then Some(|q| as real / |t| as real) else None)
  }

  predicate Related(q: string, t: string) { RelationOf(q, t) != Relation(None, None) }

  function Count(docs: seq<seq<string>>, t: string, d: nat): nat {
    if d < |docs| then multiset(docs[d])[t] else 0
  }

  function Holding(docs: seq<seq<string>>, t: string): set<nat> { set d: nat | d < |docs| && t in docs[d] }

  function Vocabulary(docs: seq<seq<string>>): set<string> { set d: nat, t | d < |docs| && t in docs[d] :: t }

  function TokenCount(doc: seq<string>): nat { if |doc| > 1 then |doc| else 1 }

  function DistanceBoost(relation: Relation): real {
    if relation.distance.None? then 1.0 else (1 - relation.distance.value) as real * 2.0 + 1.0
  }

  function PrefixBoost(relation: Relation): real {
    if relation.ratio.None? then 1.0 else relation.ratio.value * 1.5 + 1.0
  }

  function Worth(idf: real, relation: Relation, occurrences: nat, tokenCount: nat, boost: real): real
    requires tokenCount > 0
  {
    var tfIdf := occurrences as real / tokenCount as real * idf;
    (1.0 + tfIdf) * DistanceBoost(relation) * PrefixBoost(relation) * boost
  }

  /** What a word of the query earns a title by one of its own words. */
  function Earned(c: Corpus, relation: Relation, t: string, d: nat): real
    requires d < |c.docs| == |c.boosts| && t in c.docs[d]
  {
    var held := Holding(c.docs, t);
    assert d in held;
    var idf := c.log10(|c.docs| as real / |held| as real);
    Worth(idf, relation, Count(c.docs, t, d), TokenCount(c.docs[d]), c.boosts[d])
  }

  function Share(c: Corpus, relation: Relation, t: string, d: nat): real {
    if d < |c.docs| == |c.boosts| && t in c.docs[d] then Earned(c, relation, t, d) else 0.0
  }

  /** What each word earns a title, nothing for those not related. */
  function Shares(c: Corpus, q: string, d: nat): string -> real {
    t => if Related(q, t) then Share(c, RelationOf(q, t), t, d) else 0.0
  }

  /** A title's score for a query: over every word of the query and every word of the corpus. */
  ghost function Score(c: Corpus, query: seq<string>, d: nat): real {
    if query == [] then 0.0
    else
      Score(c, query[..|query| - 1], d) + SumOver(Vocabulary(c.docs), Shares(c, query[|query| - 1], d))
  }

  ghost predicate MatchesWord(c: Corpus, q: string, d: nat) {
    d < |c.docs| && exists t :: t in c.docs[d] && Related(q, t)
  }

  ghost predicate Matches(c: Corpus, query: seq<string>, d: nat) {
    exists i :: 0 <= i < |query| && MatchesWord(c, query[i], d)
  }

  // ------------------------------------------------------------ what a word is worth

  /**
   How much a title's word counts for a query's: seven and a half times if it is that word; if it goes on from
   it, once and half as much again of the part of it that the query has; and once if it is one edit away.
   */
  ghost predicate CountsFor(q: string, t: string, factor: real) {
    if t == q && q != [] then factor == 7.5
    else if q <= t && t != [] then factor == 1.0 + 1.5 * (|q| as real / |t| as real)
    else OneEdit(q, t) && factor == 1.0
  }

  lemma {:induction false} NearestFirst(q: string, t: string)
    ensures Distance(q, t) == 0 <==> q == t
    ensures Distance(q, t) == 1 <==> q != t && OneEdit(q, t)
  {
    DistanceOfNone(q, t);
    if q != t { NearIff(q, t); }
  }

  lemma {:induction false} BoostsAre(q: string, t: string)
    requires Related(q, t) && t != []
    ensures CountsFor(q, t, DistanceBoost(RelationOf(q, t)) * PrefixBoost(RelationOf(q, t)))
  {
    NearestFirst(q, t);
    if t == q {
      var whole := |t| as real;
      assert whole / whole == 1.0;
    }
  }

  /** The part of a title's words that are `t`. */
  ghost predicate Frequency(c: Corpus, t: string, d: nat, frequency: real)
    requires d < |c.docs|
  {
    c.docs[d] != [] && frequency == multiset(c.docs[d])[t] as real / |c.docs[d]| as real
  }

  /**
   What a title gets for one of its words: its own boost, times what the word counts for, times one more than
   how often it occurs among its words, weighed by the logarithm of how few titles have it.
   */
  lemma {:induction false} ShareIs(c: Corpus, q: string, t: string, d: nat, factor: real, frequency: real)
    requires c.Proper() && d < |c.docs| && t in c.docs[d] && Related(q, t)
    requires CountsFor(q, t, factor) && Frequency(c, t, d, frequency)
    ensures var having := set e: nat | e < |c.docs| && t in c.docs[e];
      && d in having
      && Shares(c, q, d)(t)
         == (1.0 + frequency * c.log10(|c.docs| as real / |having| as real)) * factor * c.boosts[d]
  {
    BoostsAre(q, t);
    var having := set e: nat | e < |c.docs| && t in c.docs[e];
    assert d in having && having == Holding(c.docs, t);
    assert t != [];
    var base := 1.0 + frequency * c.log10(|c.docs| as real / |having| as real);
    var db, pb := DistanceBoost(RelationOf(q, t)), PrefixBoost(RelationOf(q, t));
    assert factor == db * pb;
    Grouped(base, db, pb);
  }

  lemma {:induction false} Grouped(base: real, x: real, y: real)
    ensures base * x * y == base * (x * y)
  {
  }

  /** A word as it is counts for more than any other that is related to it. */
  lemma {:induction false} AsItIsCountsMost(q: string, t: string, factor: real)
    requires t != q && q != [] && CountsFor(q, t, factor)
    ensures factor < 2.5
  {
    if q <= t && t != [] {
      assert |q| < |t|;
      PartOfWhole(|q| as real, |t| as real);
    }
  }

  lemma {:induction false} PartOfWhole(x: real, y: real)
    requires 0.0 < x < y
    ensures x / y < 1.0
  {
    var part := x / y;
    assert part * y == x;
    if part >= 1.0 { AtLeast(part, y); }
  }

  lemma {:induction false} AtLeast(part: real, y: real)
    requires part >= 1.0 && y > 0.0
    ensures part * y >= y
  {
  }

  // ------------------------------------------------------------ every score counts

  lemma {:induction false} EarnedIsPositive(c: Corpus, relation: Relation, t: string, d: nat)
    requires c.Proper() && d < |c.docs| && t in c.docs[d]
    requires relation.distance.Some? ==> relation.distance.value <= 1
    requires relation.ratio.Some? ==> relation.ratio.value >= 0.0
    ensures Earned(c, relation, t, d) > 0.0
  {
    var held := Holding(c.docs, t);
    assert d in held;
    HoldingIsSmall(c.docs, t);
    var n, m := |c.docs| as real, |held| as real;
    assert n / m >= 1.0;
    var tf := Count(c.docs, t, d) as real / TokenCount(c.docs[d]) as real;
    assert tf >= 0.0;
    Nonnegative(tf, c.log10(n / m));
    var base, db, pb := 1.0 + tf * c.log10(n / m), DistanceBoost(relation), PrefixBoost(relation);
    Positive(base, db);
    Positive(base * db, pb);
    Positive(base * db * pb, c.boosts[d]);
  }

  lemma {:induction false} Positive(x: real, y: real)
    requires x > 0.0 && y > 0.0
    ensures x * y > 0.0
  {
  }

  lemma {:induction false} Nonnegative(x: real, y: real)
    requires x >= 0.0 && y >= 0.0
    ensures x * y >= 0.0
  {
  }

  lemma {:induction false} HoldingIsSmall(docs: seq<seq<string>>, t: string)
    ensures |Holding(docs, t)| <= |docs|
  {
    if docs != [] {
      var n := |docs| - 1;
      HoldingIsSmall(docs[..n], t);
      assert Holding(docs, t) <= Holding(docs[..n], t) + {n};
      assert Holding(docs, t) == Holding(docs[..n], t) + (if t in docs[n] then {n} else {});
    }
  }

  lemma {:induction false} SharesAreNonNegative(c: Corpus, q: string, d: nat)
    requires c.Proper()
    ensures forall t :: Shares(c, q, d)(t) >= 0.0
    ensures forall t :: d < |c.docs| && t in c.docs[d] && Related(q, t) ==> Shares(c, q, d)(t) > 0.0
  {
    forall t ensures Shares(c, q, d)(t) >= 0.0
      ensures d < |c.docs| && t in c.docs[d] && Related(q, t) ==> Shares(c, q, d)(t) > 0.0
    {
      if d < |c.docs| && t in c.docs[d] { EarnedIsPositive(c, RelationOf(q, t), t, d); }
    }
  }

  lemma {:induction false} MatchesLast(c: Corpus, query: seq<string>, d: nat)
    requires query != []
    ensures Matches(c, query, d)
      <==> Matches(c, query[..|query| - 1], d) || MatchesWord(c, query[|query| - 1], d)
  {
    var n := |query| - 1;
    if i :| 0 <= i < n && MatchesWord(c, query[..n][i], d) { assert MatchesWord(c, query[i], d); }
    if i :| 0 <= i < |query| && MatchesWord(c, query[i], d) { assert i < n ==> MatchesWord(c, query[..n][i], d); }
  }

  /** A title scores exactly when one of its words is related to one of the query's. */
  lemma {:induction false} ScoresIff(c: Corpus, query: seq<string>, d: nat)
    requires c.Proper()
    ensures Score(c, query, d) >= 0.0
    ensures Score(c, query, d) > 0.0 <==> Matches(c, query, d)
  {
    if query != [] {
      var n := |query| - 1;
      ScoresIff(c, query[..n], d);
      WordScoresIff(c, query[n], d);
      MatchesLast(c, query, d);
    }
  }

  lemma {:induction false} WordScoresIff(c: Corpus, q: string, d: nat)
    requires c.Proper()
    ensures var sum := SumOver(Vocabulary(c.docs), Shares(c, q, d)); sum >= 0.0 && (sum > 0.0 <==> MatchesWord(c, q, d))
  {
    SharesAreNonNegative(c, q, d);
    var all, f := Vocabulary(c.docs), Shares(c, q, d);
    SumNonNegative(all, f);
    if MatchesWord(c, q, d) {
      var t :| t in c.docs[d] && Related(q, t);
      SumAtLeast(all, f, t);
    } else {
      SumWhereItCounts(all, {}, f);
    }
  }

  /** Each word of a query counts by itself, as often as it is in it. */
  lemma {:induction false} ScoreAdds(c: Corpus, a: seq<string>, b: seq<string>, d: nat)
    ensures Score(c, a + b, d) == Score(c, a, d) + Score(c, b, d)
    decreases |b|
  {
    if b == [] {
      assert a + b == a;
    } else {
      var n := |b| - 1;
      assert (a + b)[..|a + b| - 1] == a + b[..n] && (a + b)[|a + b| - 1] == b[n];
      ScoreAdds(c, a, b[..n], d);
    }
  }

  // ------------------------------------------------------------------ the answer

  /**
   The best of the titles that match, best first, at most `most`: those above 48 % of the best score.
   One that matches is missing only for scoring no more than that, or for want of room.
   */
  ghost predicate Answers(c: Corpus, query: seq<string>, most: nat, hits: seq<nat>) {
    && |hits| <= most
    && (forall i, j :: 0 <= i < j < |hits| ==> hits[i] != hits[j] && Score(c, query, hits[i]) >= Score(c, query, hits[j]))
    && (forall d :: d in hits ==> Matches(c, query, d) && Score(c, query, d) > Score(c, query, hits[0]) * 0.48)
    && (forall d :: Matches(c, query, d) && d !in hits ==> Omitted(c, query, most, hits, d))
  }

  ghost predicate Omitted(c: Corpus, query: seq<string>, most: nat, hits: seq<nat>, d: nat) {
    if most == 0 then hits == []
    else
      && hits != []
      && ((Score(c, query, d) <= Score(c, query, hits[0]) * 0.48)
          || (|hits| == most && forall i :: 0 <= i < |hits| ==> Score(c, query, d) <= Score(c, query, hits[i])))
  }

  /** Something is suggested exactly when some title has a word related to one of the query's. */
  lemma {:induction false} SuggestsIff(c: Corpus, query: seq<string>, most: nat, hits: seq<nat>)
    requires Answers(c, query, most, hits) && most > 0
    ensures hits != [] <==> exists d :: Matches(c, query, d)
  {
    if d :| Matches(c, query, d) { assert d !in hits ==> Omitted(c, query, most, hits, d); }
    if hits != [] { assert hits[0] in hits; }
  }
}
