/** The index of media/stremio/local_search.py, and the suggestions it gives. */
module SearchIndex {
  import opened Collections
  import opened Wrappers
  import opened Sorting
  import opened Strings
  import opened EditDistance
  import opened Sums
  import opened SearchCorpus

  datatype Searchable = Searchable(id: string, name: string, kind: string, rating: Option<real>, popularity: Option<real>)

  /** `math.exp`, `math.log10`, and how names are cut into words. */
  datatype Means = Means(exp: real -> real, log10: real -> real, tokenize: string -> seq<string>) {
    ghost predicate Proper() {
      && (forall x :: exp(x) > 0.0)
      && (forall x :: x >= 1.0 ==> log10(x) >= 0.0)
      && (forall name :: [] !in tokenize(name))
    }
  }

  // ------------------------------------------------------------ how good a title is

  function MaxOf(values: seq<real>): real
    requires values != []
  {
    if |values| == 1 then values[0]
    else
      var rest := MaxOf(values[1..]);
      if values[0] > rest then values[0] else rest
  }

  function Best(records: seq<Searchable>, of: Searchable -> Option<real>): real {
    if records == [] then 0.0
    else MaxOf(seq(|records|, i requires 0 <= i < |records| => of(records[i]).GetOr(0.0)))
  }

  function Boost(record: Searchable, bestRating: real, mostPopular: real, exp: real -> real): real {
    var ratingBoost := if record.rating.Some? && bestRating > 0.0 then exp(record.rating.value / bestRating * 0.5) else 1.0;
    var scale := if mostPopular > 1.0 then mostPopular else 1.0;
    var popularityBoost := if record.popularity.Some? then exp(record.popularity.value / scale * 0.5) else 1.0;
    ratingBoost * popularityBoost
  }

  function Boosts(records: seq<Searchable>, exp: real -> real): seq<real> {
    var rating, popular := Best(records, (r: Searchable) => r.rating), Best(records, (r: Searchable) => r.popularity);
    seq(|records|, i requires 0 <= i < |records| => Boost(records[i], rating, popular, exp))
  }

  /** `best` is the greatest that any record has, of which those without have nothing. */
  ghost predicate IsBest(records: seq<Searchable>, of: Searchable -> Option<real>, best: real) {
    && (forall i :: 0 <= i < |records| ==> (match of(records[i]) case Some(value) => value <= best case None => 0.0 <= best))
    && (exists i :: 0 <= i < |records| && of(records[i]) in {Some(best), if best == 0.0 then None else Some(best)})
  }

  lemma {:induction false} MaxIs(values: seq<real>)
    requires values != []
    ensures MaxOf(values) in values && forall i :: 0 <= i < |values| ==> values[i] <= MaxOf(values)
  {
    if |values| > 1 {
      MaxIs(values[1..]);
      forall i | 0 <= i < |values| ensures values[i] <= MaxOf(values) {
        if i > 0 { assert values[1..][i - 1] == values[i]; }
      }
    }
  }

  lemma {:induction false} BestIs(records: seq<Searchable>, of: Searchable -> Option<real>)
    requires records != []
    ensures IsBest(records, of, Best(records, of))
  {
    var values := seq(|records|, i requires 0 <= i < |records| => of(records[i]).GetOr(0.0));
    MaxIs(values);
    var best := MaxOf(values);
    forall i | 0 <= i < |records|
      ensures match of(records[i]) case Some(value) => value <= best case None => 0.0 <= best
    {
      assert values[i] <= best;
    }
    var k :| 0 <= k < |values| && values[k] == best;
    assert of(records[k]) in {Some(best), if best == 0.0 then None else Some(best)};
  }

  /**
   What a title is worth by itself: for its rating, by how near it is to the best there is, and for how popular
   it is, by how near it is to the most popular; once, for what it lacks, or where nothing is rated at all.
   */
  lemma {:induction false} BoostIs(records: seq<Searchable>, exp: real -> real, d: nat)
    returns (rating: real, popular: real, forRating: real, forPopularity: real)
    requires d < |records|
    ensures IsBest(records, (r: Searchable) => r.rating, rating)
    ensures IsBest(records, (r: Searchable) => r.popularity, popular)
    ensures Boosts(records, exp)[d] == forRating * forPopularity
    ensures records[d].rating.None? || rating <= 0.0 ==> forRating == 1.0
    ensures records[d].rating.Some? && rating > 0.0 ==> forRating == exp(records[d].rating.value / rating * 0.5)
    ensures records[d].popularity.None? ==> forPopularity == 1.0
    ensures records[d].popularity.Some? && popular >= 1.0 ==>
      forPopularity == exp(records[d].popularity.value / popular * 0.5)
    ensures records[d].popularity.Some? && popular <= 1.0 ==> forPopularity == exp(records[d].popularity.value / 1.0 * 0.5)
  {
    var ofRating, ofPopularity := (r: Searchable) => r.rating, (r: Searchable) => r.popularity;
    BestIs(records, ofRating);
    BestIs(records, ofPopularity);
    rating, popular := Best(records, ofRating), Best(records, ofPopularity);
    forRating := if records[d].rating.Some? && rating > 0.0 then exp(records[d].rating.value / rating * 0.5) else 1.0;
    var scale := if popular > 1.0 then popular else 1.0;
    forPopularity := if records[d].popularity.Some? then exp(records[d].popularity.value / scale * 0.5) else 1.0;
    assert Boosts(records, exp)[d] == Boost(records[d], rating, popular, exp);
  }

  function Docs(records: seq<Searchable>, tokenize: string -> seq<string>): seq<seq<string>> {
    seq(|records|, i requires 0 <= i < |records| => tokenize(records[i].name))
  }

  function CorpusOf(records: seq<Searchable>, means: Means): Corpus {
    Corpus(Docs(records, means.tokenize), Boosts(records, means.exp), means.log10)
  }

  lemma {:induction false} CorpusIsProper(records: seq<Searchable>, means: Means)
    requires means.Proper()
    ensures CorpusOf(records, means).Proper()
  {
    var c := CorpusOf(records, means);
    var rating, popular := Best(records, (r: Searchable) => r.rating), Best(records, (r: Searchable) => r.popularity);
    forall d | 0 <= d < |c.docs| ensures c.boosts[d] > 0.0 {
      assert c.boosts[d] == Boost(records[d], rating, popular, means.exp);
    }
  }

  // ------------------------------------------------------------------- the postings

  type Postings = map<string, map<nat, nat>>

  function Posted(postings: Postings, t: string, d: nat): nat {
    if t in postings && d in postings[t] then postings[t][d] else 0
  }

  /** The postings say which titles hold each word, and how often. */
  ghost predicate Holds(postings: Postings, docs: seq<seq<string>>) {
    && (forall t, d: nat :: Posted(postings, t, d) == Count(docs, t, d))
    && (forall t, d: nat :: t in postings && d in postings[t] ==> postings[t][d] > 0)
    && (forall t :: t in postings ==> postings[t] != map[])
  }

  function Post(postings: Postings, t: string, d: nat): Postings {
    var counts: map<nat, nat> := if t in postings then postings[t] else map[];
    var next: nat := (if d in counts then counts[d] else 0) + 1;
    postings[t := counts[d := next]]
  }

  lemma {:induction false} CountAdds(docs: seq<seq<string>>, doc: seq<string>, t: string, u: string, d: nat)
    ensures Count(docs + [doc + [t]], u, d) == Count(docs + [doc], u, d) + if u == t && d == |docs| then 1 else 0
  {
    if d < |docs| {
      assert (docs + [doc + [t]])[d] == docs[d] == (docs + [doc])[d];
    }
  }

  /** Posting a word of the last title. */
  lemma {:induction false} PostHolds(postings: Postings, docs: seq<seq<string>>, doc: seq<string>, t: string)
    requires Holds(postings, docs + [doc])
    ensures Holds(Post(postings, t, |docs|), docs + [doc + [t]])
  {
    var after := Post(postings, t, |docs|);
    forall u, d: nat ensures Posted(after, u, d) == Count(docs + [doc + [t]], u, d) {
      CountAdds(docs, doc, t, u, d);
      assert Posted(after, u, d) == Posted(postings, u, d) + if u == t && d == |docs| then 1 else 0;
    }
  }

  lemma {:induction false} NoWords(postings: Postings, docs: seq<seq<string>>)
    requires Holds(postings, docs)
    ensures Holds(postings, docs + [[]])
  {
    forall t, d: nat ensures Count(docs + [[]], t, d) == Count(docs, t, d) {
      if d < |docs| { assert (docs + [[]])[d] == docs[d]; }
    }
  }

  /** A word is posted exactly if some title holds it, and for those titles. */
  lemma {:induction false} PostedWhereHeld(postings: Postings, docs: seq<seq<string>>, t: string)
    requires Holds(postings, docs)
    ensures t in postings <==> t in Vocabulary(docs)
    ensures t in postings ==> postings[t].Keys == Holding(docs, t)
  {
    if t in postings {
      forall d: nat ensures d in postings[t] <==> d in Holding(docs, t) {
        assert Posted(postings, t, d) == Count(docs, t, d);
        HeldIff(docs, t, d);
      }
      var d :| d in postings[t];
      assert d in Holding(docs, t);
    }
    if t in Vocabulary(docs) {
      var d: nat :| d < |docs| && t in docs[d];
      HeldIff(docs, t, d);
      assert Posted(postings, t, d) == Count(docs, t, d);
    }
  }

  lemma {:induction false} HeldIff(docs: seq<seq<string>>, t: string, d: nat)
    ensures Count(docs, t, d) > 0 <==> d in Holding(docs, t)
  {
    if d < |docs| { assert t in docs[d] <==> t in multiset(docs[d]); }
  }

  /** `postings`, and the words in the order they were first met. */
  method PostAll(docs: seq<seq<string>>) returns (postings: Postings, words: seq<string>)
    ensures Holds(postings, docs)
    ensures forall i, j :: 0 <= i < j < |words| ==> words[i] != words[j]
    ensures forall t :: t in words <==> t in postings
  {
    postings, words := map[], [];
    for d := 0 to |docs|
      invariant Holds(postings, docs[..d])
      invariant forall i, j :: 0 <= i < j < |words| ==> words[i] != words[j]
      invariant forall t :: t in words <==> t in postings
    {
      NoWords(postings, docs[..d]);
      for k := 0 to |docs[d]|
        invariant Holds(postings, docs[..d] + [docs[d][..k]])
        invariant forall i, j :: 0 <= i < j < |words| ==> words[i] != words[j]
        invariant forall t :: t in words <==> t in postings
      {
        var t := docs[d][k];
        PostHolds(postings, docs[..d], docs[d][..k], t);
        assert docs[d][..k] + [t] == docs[d][..k + 1] && |docs[..d]| == d;
        if t !in postings { words := words + [t]; }
        postings := Post(postings, t, d);
      }
      assert docs[d][..|docs[d]|] == docs[d];
      assert docs[..d] + [docs[d]] == docs[..d + 1];
    }
    assert docs[..|docs|] == docs;
  }

  /** `by_length`. */
  method Bucket(tokens: seq<string>) returns (byLength: map<int, seq<string>>)
    ensures forall t :: t in tokens ==> InBucket(byLength, |t|, t)
    ensures forall n, t :: InBucket(byLength, n, t) ==> t in tokens && |t| == n
  {
    byLength := map[];
    for i := 0 to |tokens|
      invariant forall t :: t in tokens[..i] ==> InBucket(byLength, |t|, t)
      invariant forall n, t :: InBucket(byLength, n, t) ==> t in tokens[..i] && |t| == n
    {
      var n, t := |tokens[i]|, tokens[i];
      ghost var was := byLength;
      byLength := byLength[n := (if n in byLength then byLength[n] else []) + [t]];
      assert tokens[..i + 1] == tokens[..i] + [t];
      assert forall m, u :: InBucket(byLength, m, u) <==> InBucket(was, m, u) || (m == n && u == t);
    }
    assert tokens[..|tokens|] == tokens;
  }

  predicate InBucket(byLength: map<int, seq<string>>, n: int, t: string) { n in byLength && t in byLength[n] }

  // ------------------------------------------------------------- the words, arranged

  /** The words in order, and again by their length. */
  ghost predicate Arranged(tokens: seq<string>, byLength: map<int, seq<string>>) {
    && Ascending(tokens) && [] !in tokens
    && (forall t :: t in tokens ==> InBucket(byLength, |t|, t))
    && (forall n, t :: InBucket(byLength, n, t) ==> t in tokens && |t| == n)
  }

  /** The words that begin with `q` are one run of the sorted ones. */
  lemma {:induction false} RunIsAll(tokens: seq<string>, q: string, start: nat, end: nat, k: nat)
    requires Ascending(tokens) && start <= end <= |tokens| && k < |tokens|
    requires forall i :: 0 <= i < start ==> Less(tokens[i], q)
    requires end < |tokens| ==> !Less(tokens[end], q) && !(q <= tokens[end])
    ensures q <= tokens[k] ==> start <= k < end
  {
    if q <= tokens[k] {
      PrefixFirst(q, tokens[k]);
      if end < k { PrefixRun(q, tokens[end], tokens[k]); }
    }
  }

  /** The words within one edit, from the three buckets they can be in. */
  method NearWords(ghost tokens: seq<string>, byLength: map<int, seq<string>>, q: string) returns (near: map<string, nat>)
    requires Arranged(tokens, byLength)
    ensures forall t :: t in near <==> t in tokens && Distance(q, t) <= 1
    ensures forall t :: t in near ==> near[t] == Distance(q, t)
  {
    near := map[];
    for size := |q| - 1 to |q| + 2
      invariant forall t :: t in near <==> t in tokens && Distance(q, t) <= 1 && |q| - 1 <= |t| < size
      invariant forall t :: t in near ==> near[t] == Distance(q, t)
    {
      var bucket := if size in byLength then byLength[size] else [];
      ghost var was := near;
      near := NearIn(bucket, q, near);
      assert forall t :: t in bucket <==> InBucket(byLength, size, t);
      assert forall t :: t in bucket <==> t in tokens && |t| == size;
    }
    forall t | Distance(q, t) <= 1 ensures |q| - 1 <= |t| < |q| + 2 { NearInLength(q, t); }
  }

  method NearIn(bucket: seq<string>, q: string, before: map<string, nat>) returns (near: map<string, nat>)
    requires forall t :: t in before ==> before[t] == Distance(q, t)
    ensures forall t :: t in near <==> t in before || (t in bucket && Distance(q, t) <= 1)
    ensures forall t :: t in near ==> near[t] == Distance(q, t)
  {
    near := before;
    for i := 0 to |bucket|
      invariant forall t :: t in near <==> t in before || (t in bucket[..i] && Distance(q, t) <= 1)
      invariant forall t :: t in near ==> near[t] == Distance(q, t)
    {
      var distance := WithinOneEdit(q, bucket[i]);
      if distance.Some? { near := near[bucket[i] := distance.value]; }
      assert bucket[..i + 1] == bucket[..i] + [bucket[i]];
    }
    assert bucket[..|bucket|] == bucket;
  }

  /** `_related`: three buckets and one run of the sorted words, for all the words that are related. */
  method RelatedWords(tokens: seq<string>, byLength: map<int, seq<string>>, q: string)
    returns (related: map<string, Relation>)
    requires Arranged(tokens, byLength)
    ensures forall t :: t in related <==> t in tokens && Related(q, t)
    ensures forall t :: t in related ==> related[t] == RelationOf(q, t)
  {
    var near := NearWords(tokens, byLength, q);
    related := AddRun(tokens, q, map t | t in near :: Relation(Some(near[t]), None));
  }

  /** The words that begin with `q`, each with its ratio beside the distance it may have. */
  method AddRun(tokens: seq<string>, q: string, near: map<string, Relation>) returns (related: map<string, Relation>)
    requires Ascending(tokens) && [] !in tokens
    ensures forall t :: t in related <==> t in near || (t in tokens && q <= t)
    ensures forall t :: t in related ==> related[t] == (if t in tokens && q <= t then WithRatio(near, q, t) else near[t])
  {
    var start := BisectLeft(tokens, q);
    ghost var run, end;
    related, run, end := AddFrom(tokens, start, q, near);
    forall t | t in tokens && q <= t ensures t in run {
      var k :| 0 <= k < |tokens| && tokens[k] == t;
      RunIsAll(tokens, q, start, end, k);
    }
  }

  method AddFrom(tokens: seq<string>, start: nat, q: string, near: map<string, Relation>)
    returns (related: map<string, Relation>, ghost run: set<string>, ghost end: nat)
    requires start <= |tokens| && forall i :: 0 <= i < |tokens| ==> tokens[i] != []
    ensures forall t :: t in run ==> t in tokens && q <= t
    ensures start <= end <= |tokens| && (end < |tokens| ==> !(q <= tokens[end]))
    ensures forall k :: start <= k < end ==> tokens[k] in run
    ensures forall t :: t in related <==> t in near || t in run
    ensures forall t :: t in related ==> related[t] == if t in run then WithRatio(near, q, t) else near[t]
  {
    related, run := near, {};
    var i := start;
    while i < |tokens| && q <= tokens[i]
      invariant start <= i <= |tokens|
      invariant forall t :: t in run ==> t in tokens && q <= t
      invariant forall k :: start <= k < i ==> tokens[k] in run
      invariant forall t :: t in related <==> t in near || t in run
      invariant forall t :: t in related ==> related[t] == if t in run then WithRatio(near, q, t) else near[t]
    {
      var t := tokens[i];
      var distance := if t in related then related[t].distance else None;
      related := related[t := Relation(distance, Some(|q| as real / |t| as real))];
      run := run + {t};
      i := i + 1;
    }
    end := i;
  }

  function WithRatio(near: map<string, Relation>, q: string, t: string): Relation {
    Relation(if t in near then near[t].distance else None, if t != [] then Some(|q| as real / |t| as real) else None)
  }

  // ------------------------------------------------------------------- the shares

  /** `worth` is what each title with the word earns by it, and nothing for the others. */
  ghost predicate Worths(pairs: map<nat, nat>, idf: real, relation: Relation, tokenCounts: seq<nat>, boosts: seq<real>,
                         worth: nat -> real)
  {
    && (forall d :: d in pairs ==>
          && d < |tokenCounts| == |boosts| && tokenCounts[d] > 0
          && worth(d) == Worth(idf, relation, pairs[d], tokenCounts[d], boosts[d]))
    && (forall d :: d !in pairs ==> worth(d) == 0.0)
  }

  method AddWorths(scores: map<nat, real>, pairs: map<nat, nat>, idf: real, relation: Relation, tokenCounts: seq<nat>,
                   boosts: seq<real>, ghost worth: nat -> real) returns (after: map<nat, real>)
    requires Worths(pairs, idf, relation, tokenCounts, boosts, worth)
    ensures forall d :: d in after <==> d in scores || d in pairs
    ensures forall d :: ScoreIn(after, d) == ScoreIn(scores, d) + worth(d)
  {
    after := scores;
    var rest := pairs.Keys;
    while rest != {}
      invariant rest <= pairs.Keys
      invariant forall d :: d in after <==> d in scores || d in pairs.Keys - rest
      invariant forall d :: ScoreIn(after, d) == ScoreIn(scores, d) + if d in rest then 0.0 else worth(d)
    {
      var d :| d in rest;
      rest := rest - {d};
      after := after[d := ScoreIn(after, d) + Worth(idf, relation, pairs[d], tokenCounts[d], boosts[d])];
    }
  }

  // ---------------------------------------------------------------------- the index

  class Index {
    const records: seq<Searchable>
    const boosts: seq<real>
    const tokenCounts: seq<nat>
    const postings: Postings
    const tokens: seq<string>
    const byLength: map<int, seq<string>>
    const means: Means

    ghost function Held(): Corpus { CorpusOf(records, means) }

    /** The index says of the titles what is so. */
    ghost predicate Valid() {
      var docs := Held().docs;
      && means.Proper()
      && boosts == Held().boosts
      && |tokenCounts| == |docs| && (forall d :: 0 <= d < |docs| ==> tokenCounts[d] == TokenCount(docs[d]))
      && Holds(postings, docs)
      && Arranged(tokens, byLength) && (forall t :: t in tokens <==> t in Vocabulary(docs))
    }

    constructor (records: seq<Searchable>, means: Means)
      requires means.Proper()
      ensures Valid() && this.records == records && this.means == means
    {
      var docs := Docs(records, means.tokenize);
      var postings, words := PostAll(docs);
      var tokens := Sort(words, Less);
      SortedAscends(words);
      forall t ensures t in tokens <==> t in Vocabulary(docs) {
        assert t in tokens <==> t in multiset(tokens);
        assert t in words <==> t in multiset(words);
        PostedWhereHeld(postings, docs, t);
      }
      var byLength := Bucket(tokens);
      this.records, this.means := records, means;
      this.boosts := Boosts(records, means.exp);
      this.tokenCounts := seq(|docs|, i requires 0 <= i < |docs| => TokenCount(docs[i]));
      this.postings, this.tokens, this.byLength := postings, tokens, byLength;
    }

    /** The words that are related to one of the query's, and how. */
    method RelatedTo(q: string) returns (related: map<string, Relation>)
      requires Valid()
      ensures forall t :: t in related <==> t in Vocabulary(Held().docs) && Related(q, t)
      ensures forall t :: t in related ==> related[t] == RelationOf(q, t)
    {
      related := RelatedWords(tokens, byLength, q);
    }

    // ------------------------------------------------------------------- searching

    /** What the index says of one word is what the corpus holds of it. */
    lemma WordIsHeld(t: string, relation: Relation, idf: real)
      requires Valid() && t in Vocabulary(Held().docs)
      ensures t in postings && postings[t] != map[] && postings[t].Keys == Holding(Held().docs, t)
      ensures idf == means.log10(|records| as real / |postings[t]| as real) ==>
        Worths(postings[t], idf, relation, tokenCounts, boosts, (d: nat) => Share(Held(), relation, t, d))
    {
      PostedWhereHeld(postings, Held().docs, t);
      CorpusIsProper(records, means);
      var pairs, share := postings[t], (d: nat) => Share(Held(), relation, t, d);
      forall d: nat | d in pairs
        ensures d < |tokenCounts| == |boosts| && tokenCounts[d] > 0
        ensures idf == means.log10(|records| as real / |pairs| as real) ==>
          share(d) == Worth(idf, relation, pairs[d], tokenCounts[d], boosts[d])
      {
        assert d in Holding(Held().docs, t);
        assert Posted(postings, t, d) == Count(Held().docs, t, d);
        assert |pairs| == |pairs.Keys|;
      }
      forall d: nat | d !in pairs ensures share(d) == 0.0 { assert d !in Holding(Held().docs, t); }
    }

    /** One related word's titles get their share. */
    method AddShares(scores: map<nat, real>, t: string, relation: Relation) returns (after: map<nat, real>)
      requires Valid() && t in Vocabulary(Held().docs)
      ensures forall d :: d in after <==> d in scores || d in Holding(Held().docs, t)
      ensures forall d :: ScoreIn(after, d) == ScoreIn(scores, d) + Share(Held(), relation, t, d)
    {
      WordIsHeld(t, relation, 0.0);
      var idf := means.log10(|records| as real / |postings[t]| as real);
      WordIsHeld(t, relation, idf);
      after := AddWorths(scores, postings[t], idf, relation, tokenCounts, boosts,
                         (d: nat) => Share(Held(), relation, t, d));
    }

    /** The shares of the related words are all the shares there are. */
    lemma RelatedShare(q: string, related: set<string>, d: nat)
      requires forall t :: t in related <==> t in Vocabulary(Held().docs) && Related(q, t)
      ensures SumOver(related, Shares(Held(), q, d)) == SumOver(Vocabulary(Held().docs), Shares(Held(), q, d))
    {
      SumWhereItCounts(Vocabulary(Held().docs), related, Shares(Held(), q, d));
    }

    /** One word of the query. */
    method AddWord(scores: map<nat, real>, q: string) returns (after: map<nat, real>)
      requires Valid()
      ensures forall d :: d in after <==> d in scores || MatchesWord(Held(), q, d)
      ensures forall d ::
        ScoreIn(after, d) == ScoreIn(scores, d) + SumOver(Vocabulary(Held().docs), Shares(Held(), q, d))
    {
      hide Valid;
      var related := RelatedTo(q);
      after := scores;
      var rest := related.Keys;
      while rest != {}
        invariant rest <= related.Keys
        invariant forall d :: d in after <==> d in scores || exists t :: t in related.Keys - rest && d in Holding(Held().docs, t)
        invariant forall d ::
          ScoreIn(after, d) == ScoreIn(scores, d) + SumOver(related.Keys - rest, Shares(Held(), q, d))
      {
        var t :| t in rest;
        ghost var done := related.Keys - rest;
        after := AddShares(after, t, related[t]);
        rest := rest - {t};
        assert related.Keys - rest == done + {t};
        forall d: nat ensures ScoreIn(after, d) == ScoreIn(scores, d) + SumOver(done + {t}, Shares(Held(), q, d)) {
          SumAdds(done, Shares(Held(), q, d), t);
        }
      }
      assert related.Keys - rest == related.Keys;
      forall d: nat
        ensures SumOver(related.Keys, Shares(Held(), q, d)) == SumOver(Vocabulary(Held().docs), Shares(Held(), q, d))
      {
        RelatedShare(q, related.Keys, d);
      }
    }

    method ScoreAll(query: seq<string>) returns (scores: map<nat, real>)
      requires Valid()
      ensures forall d :: d in scores <==> Matches(Held(), query, d)
      ensures forall d :: d in scores ==> scores[d] == Score(Held(), query, d)
    {
      hide Valid, Shares, SumOver, MatchesWord, Held;
      scores := map[];
      for i := 0 to |query|
        invariant forall d :: d in scores <==> Matches(Held(), query[..i], d)
        invariant forall d :: ScoreIn(scores, d) == Score(Held(), query[..i], d)
      {
        scores := AddWord(scores, query[i]);
        assert query[..i + 1][..i] == query[..i];
        forall d: nat ensures Matches(Held(), query[..i + 1], d)
          <==> Matches(Held(), query[..i], d) || MatchesWord(Held(), query[i], d)
        {
          MatchesLast(Held(), query[..i + 1], d);
        }
      }
      assert query[..|query|] == query;
    }

    /** The titles to suggest for the words of a query. */
    method Rank(query: seq<string>, most: nat) returns (hits: seq<nat>)
      requires Valid()
      ensures Answers(Held(), query, most, hits)
    {
      CorpusIsProper(records, means);
      var scores := ScoreAll(query);
      hits := BestOf(scores, most, Held(), query);
    }

    /** `search`. */
    method Search(query: string, most: nat) returns (found: seq<Searchable>)
      requires Valid()
      ensures exists hits :: Answers(Held(), means.tokenize(query), most, hits) && Named(found, hits)
    {
      var hits := Rank(means.tokenize(query), most);
      forall i | 0 <= i < |hits| ensures hits[i] < |records| {
        assert hits[i] in hits && Matches(Held(), means.tokenize(query), hits[i]);
      }
      found := seq(|hits|, i requires 0 <= i < |hits| => records[hits[i]]);
      assert Named(found, hits);
    }

    ghost predicate Named(found: seq<Searchable>, hits: seq<nat>) {
      |found| == |hits| && forall i :: 0 <= i < |hits| ==> hits[i] < |records| && found[i] == records[hits[i]]
    }
  }

  function ScoreIn(scores: map<nat, real>, d: nat): real { if d in scores then scores[d] else 0.0 }

  lemma {:induction false} NearInLength(q: string, t: string)
    requires Distance(q, t) <= 1
    ensures -1 <= |q| - |t| <= 1
  {
    if q != t {
      NearIff(q, t);
      var i: nat :| EditAt(q, t, i);
      EditKeepsLength(q, t, i);
    }
  }

  // -------------------------------------------------------------- the best of them

  type Item = (nat, real)

  predicate Higher(a: Item, b: Item) { a.1 > b.1 }

  method Items(scores: map<nat, real>) returns (items: seq<Item>)
    ensures forall item: Item :: item in items <==> item.0 in scores && scores[item.0] == item.1
    ensures forall i, j :: 0 <= i < j < |items| ==> items[i].0 != items[j].0
  {
    items := [];
    var rest := scores.Keys;
    while rest != {}
      invariant rest <= scores.Keys
      invariant forall item: Item :: item in items <==> item.0 in scores.Keys - rest && scores[item.0] == item.1
      invariant forall i, j :: 0 <= i < j < |items| ==> items[i].0 != items[j].0
    {
      var d :| d in rest;
      items, rest := items + [(d, scores[d])], rest - {d};
    }
  }

  ghost predicate Scored(c: Corpus, query: seq<string>, item: Item) {
    Matches(c, query, item.0) && Score(c, query, item.0) == item.1
  }

  ghost predicate Ranking(items: seq<Item>) {
    forall i, j :: 0 <= i < j < |items| ==> items[i].0 != items[j].0 && items[i].1 >= items[j].1
  }

  /** The items of different titles, sorted, are the same items with the best first. */
  lemma {:induction false} BestFirst(items: seq<Item>)
    requires forall i, j :: 0 <= i < j < |items| ==> items[i].0 != items[j].0
    ensures Ranking(Sort(items, Higher))
    ensures forall item :: item in Sort(items, Higher) <==> item in items
  {
    var sorted := Sort(items, Higher);
    SortSorts(items, Higher);
    SortPermutes(items, Higher);
    forall item ensures item in sorted <==> item in items {
      assert item in sorted <==> item in multiset(sorted);
      assert item in items <==> item in multiset(items);
    }
    forall i, j | 0 <= i < j < |sorted| ensures sorted[i].0 != sorted[j].0 && sorted[i].1 >= sorted[j].1 {
      assert !Higher(sorted[j], sorted[i]);
      if sorted[i].0 == sorted[j].0 {
        assert sorted[i] in items && sorted[j] in items;
        assert sorted[i] == sorted[j];
        Twice(sorted, i, j);
        Once(items, sorted[i]);
        assert false;
      }
    }
  }

  lemma {:induction false} NoAnswer(c: Corpus, query: seq<string>, most: nat, sorted: seq<Item>)
    requires forall item: Item :: item in sorted <==> Scored(c, query, item)
    requires sorted == [] || most == 0
    ensures Answers(c, query, most, [])
  {
    forall d | Matches(c, query, d) ensures Omitted(c, query, most, [], d) {
      assert Scored(c, query, (d, Score(c, query, d)));
    }
  }

  /** The front of the ranking that is above the floor is the answer. */
  lemma {:induction false} BestAnswer(c: Corpus, query: seq<string>, most: nat, sorted: seq<Item>, hits: seq<nat>)
    requires c.Proper() && sorted != [] && most > 0 && Ranking(sorted)
    requires forall item: Item :: item in sorted <==> Scored(c, query, item)
    requires |hits| <= |sorted| && |hits| <= most
    requires forall k :: 0 <= k < |hits| ==> hits[k] == sorted[k].0 && sorted[k].1 > sorted[0].1 * 0.48
    requires |hits| < |sorted| && |hits| < most ==> sorted[|hits|].1 <= sorted[0].1 * 0.48
    ensures Answers(c, query, most, hits)
  {
    assert sorted[0] in sorted;
    ScoresIff(c, query, sorted[0].0);
    assert hits != [];
    forall k | 0 <= k < |hits| ensures Matches(c, query, hits[k]) && Score(c, query, hits[k]) == sorted[k].1 {
      assert sorted[k] in sorted;
    }
    forall d | Matches(c, query, d) && d !in hits ensures Omitted(c, query, most, hits, d) {
      var item := (d, Score(c, query, d));
      assert Scored(c, query, item);
      var k :| 0 <= k < |sorted| && sorted[k] == item;
      assert k >= |hits| by { if k < |hits| { assert false; } }
    }
  }

  /** The titles above 48 % of the best score, which are the first of the ranking. */
  method AboveFloor(ranked: seq<Item>) returns (hits: seq<nat>)
    requires ranked != [] && Ranking(ranked)
    ensures |hits| <= |ranked|
    ensures forall k :: 0 <= k < |hits| ==> hits[k] == ranked[k].0 && ranked[k].1 > ranked[0].1 * 0.48
    ensures |hits| < |ranked| ==> ranked[|hits|].1 <= ranked[0].1 * 0.48
  {
    var floor := ranked[0].1 * 0.48;
    hits := [];
    for i := 0 to |ranked|
      invariant |hits| <= i
      invariant forall k :: 0 <= k < |hits| ==> hits[k] == ranked[k].0 && ranked[k].1 > floor
      invariant |hits| < i ==> ranked[|hits|].1 <= floor
    {
      if ranked[i].1 > floor { hits := hits + [ranked[i].0]; }
    }
  }

  /** The best scores, at most `most` of them, less those at or below 48 % of the best. */
  method BestOf(scores: map<nat, real>, most: nat, ghost c: Corpus, ghost query: seq<string>) returns (hits: seq<nat>)
    requires c.Proper()
    requires forall d :: d in scores <==> Matches(c, query, d)
    requires forall d :: d in scores ==> scores[d] == Score(c, query, d)
    ensures Answers(c, query, most, hits)
  {
    hide Answers, Sort, Score, Matches;
    var items := Items(scores);
    var sorted := Sort(items, Higher);
    BestFirst(items);
    assert forall item: Item :: item in items <==> Scored(c, query, item);
    var ranked := if |sorted| > most then sorted[..most] else sorted;
    if ranked == [] {
      NoAnswer(c, query, most, sorted);
      return [];
    }
    hits := AboveFloor(ranked);
    BestAnswer(c, query, most, sorted, hits);
  }
}
