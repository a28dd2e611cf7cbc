/** The ranking of the renditions of one title (media/policy/ranking.py). */
module Ranking {
  import opened Collections
  import opened Wrappers
  import opened PlaybackPolicy
  import opened Sorting
  import opened Strings

  datatype Hdr = HDR10Plus | HDR10 | HLG | DolbyVision | SDR | Unknown

  /** What ranking looks at in what was decided about a rendition. */
  datatype Decision = Decision(mode: PlaybackMode, hdr: Hdr, transcodesAudio: bool, channels: Option<int>)

  /** What it looks at in the rendition: its picture, if there is one, and its bit rate; the rest is the policy's. */
  datatype Info = Info(picture: Option<(Option<int>, Option<int>)>, bitRate: Option<int>, details: string)

  datatype Source = Source(identity: string, info: Info)

  type Tier = t: int | 1 <= t <= 6 witness 1

  const SAFE_DIRECT: Tier := 1
  const SAFE_AUDIO_TRANSCODE: Tier := 2
  const SAFE_SDR_ALTERNATIVE: Tier := 3
  const SAFE_REMUX: Tier := 4
  const RISKY: Tier := 5
  const UNSUPPORTED: Tier := 6

  datatype Key = Key(tier: Tier, pixels: int, hdr: int, channels: int, bitRate: int, identity: string)

  datatype Ranked = Ranked(source: Source, decision: Decision, key: Key)

  // ------------------------------------------------------------------ the key

  function HdrValue(hdr: Hdr): nat {
    match hdr
    case HDR10Plus => 3
    case HDR10 => 3
    case HLG => 2
    case DolbyVision => 2
    case SDR => 1
    case Unknown => 0
  }

  function TierOf(d: Decision, hdrAlternative: bool): Tier {
    if d.mode == Unsupported then UNSUPPORTED
    else if d.mode == FallbackSourcePreferred then RISKY
    else if d.mode == Remux then SAFE_REMUX
    else if d.hdr == SDR && hdrAlternative then SAFE_SDR_ALTERNATIVE
    else if d.transcodesAudio then SAFE_AUDIO_TRANSCODE
    else SAFE_DIRECT
  }

  function Pixels(info: Info): int {
    match info.picture
    case None => 0
    case Some((width, height)) => width.GetOr(0) * height.GetOr(0)
  }

  function KeyOf(source: Source, d: Decision, hdrAlternative: bool): Key {
    Key(TierOf(d, hdrAlternative), 0 - Pixels(source.info), 0 - HdrValue(d.hdr), 0 - d.channels.GetOr(0),
        0 - source.info.bitRate.GetOr(0), source.identity)
  }

  /** The order of the keys, part by part. */
  predicate KeyLess(a: Key, b: Key) { if a.tier != b.tier then a.tier < b.tier else RestLess(a, b) }

  /** From the second part on. */
  predicate RestLess(a: Key, b: Key) {
    if a.pixels != b.pixels then a.pixels < b.pixels
    else if a.hdr != b.hdr then a.hdr < b.hdr
    else if a.channels != b.channels then a.channels < b.channels
    else if a.bitRate != b.bitRate then a.bitRate < b.bitRate
    else Less(a.identity, b.identity)
  }

  predicate Ahead(a: Ranked, b: Ranked) { KeyLess(a.key, b.key) }

  // -------------------------------------------------------------- the ranking

  /** A rendition there is to lose to: one playable safely, in high dynamic range. */
  predicate IsHdrAlternative(d: Decision) {
    d.mode in {Direct, DirectWithAudioTranscode, Remux} && d.hdr in {HDR10, HDR10Plus, HLG}
  }

  ghost predicate HdrAlternative(sources: seq<Source>, decide: Info -> Decision) {
    exists s :: s in sources && IsHdrAlternative(decide(s.info))
  }

  function Placed(s: Source, decide: Info -> Decision, hdrAlternative: bool): Ranked {
    Ranked(s, decide(s.info), KeyOf(s, decide(s.info), hdrAlternative))
  }

  function AllPlaced(sources: seq<Source>, decide: Info -> Decision, hdrAlternative: bool): (placed: seq<Ranked>)
    ensures |placed| == |sources|
  {
    seq(|sources|, i requires 0 <= i < |sources| => Placed(sources[i], decide, hdrAlternative))
  }

  ghost function Ranking(sources: seq<Source>, decide: Info -> Decision): seq<Ranked> {
    Sort(AllPlaced(sources, decide, HdrAlternative(sources, decide)), Ahead)
  }

  /** `rank_sources`; `decide` is what the policy decides about a rendition on this appliance. */
  method RankSources(sources: seq<Source>, decide: Info -> Decision) returns (ranked: seq<Ranked>)
    ensures ranked == Ranking(sources, decide)
  {
    var hdrAlternative := false;
    for i := 0 to |sources|
      invariant hdrAlternative <==> exists k :: 0 <= k < i && IsHdrAlternative(decide(sources[k].info))
    {
      if IsHdrAlternative(decide(sources[i].info)) { hdrAlternative := true; }
    }
    assert hdrAlternative == HdrAlternative(sources, decide) by {
      if k :| 0 <= k < |sources| && IsHdrAlternative(decide(sources[k].info)) { assert sources[k] in sources; }
    }
    ranked := [];
    for i := 0 to |sources|
      invariant ranked == AllPlaced(sources[..i], decide, hdrAlternative)
    {
      ranked := ranked + [Placed(sources[i], decide, hdrAlternative)];
    }
    assert sources[..|sources|] == sources;
    ranked := Sort(ranked, Ahead);
  }

  // ---------------------------------------------------------------- its order

  lemma {:induction false} KeyTransitive(a: Key, b: Key, c: Key)
    ensures !KeyLess(a, a)
    ensures KeyLess(a, b) && KeyLess(b, c) ==> KeyLess(a, c)
    ensures KeyLess(a, c) ==> KeyLess(a, b) || KeyLess(b, c)
    ensures a != b ==> KeyLess(a, b) || KeyLess(b, a)
  {
    StringOrder();
    Trichotomy(a.identity, b.identity);
  }

  lemma {:induction false} AheadOrders()
    ensures Ordering(Ahead)
  {
    forall a: Ranked, b: Ranked, c: Ranked
      ensures !Ahead(a, a)
      ensures Ahead(a, b) && Ahead(b, c) ==> Ahead(a, c)
      ensures Ahead(a, c) ==> Ahead(a, b) || Ahead(b, c)
    {
      KeyTransitive(a.key, b.key, c.key);
    }
  }

  ghost predicate DistinctSources(sources: seq<Source>) {
    forall i, j :: 0 <= i < j < |sources| ==> sources[i].identity != sources[j].identity
  }

  /** No two different renditions are given one key. */
  ghost predicate ToldApart(sources: seq<Source>, decide: Info -> Decision) {
    Apart(AllPlaced(sources, decide, HdrAlternative(sources, decide)), Ahead)
  }

  /** Renditions of different identities have different keys, however alike they are. */
  lemma {:induction false} IdentitiesTellApart(sources: seq<Source>, decide: Info -> Decision)
    requires DistinctSources(sources)
    ensures ToldApart(sources, decide)
  {
    var placed := AllPlaced(sources, decide, HdrAlternative(sources, decide));
    forall x, y | x in placed && y in placed && x != y ensures Ahead(x, y) || Ahead(y, x) {
      var i :| 0 <= i < |placed| && placed[i] == x;
      var j :| 0 <= j < |placed| && placed[j] == y;
      assert sources[i].identity != sources[j].identity;
      KeyTransitive(x.key, y.key, x.key);
    }
  }

  lemma {:induction false} PlacedMultiset(sources: seq<Source>, decide: Info -> Decision, alt: bool, r: Ranked)
    ensures multiset(AllPlaced(sources, decide, alt))[r]
         == if r == Placed(r.source, decide, alt) then multiset(sources)[r.source] else 0
  {
    if sources != [] {
      var n := |sources| - 1;
      PlacedMultiset(sources[..n], decide, alt, r);
      assert sources == sources[..n] + [sources[n]];
      assert AllPlaced(sources, decide, alt) == AllPlaced(sources[..n], decide, alt) + [Placed(sources[n], decide, alt)];
    }
  }

  lemma {:induction false} SamePlaced(a: seq<Source>, b: seq<Source>, decide: Info -> Decision)
    requires multiset(a) == multiset(b)
    ensures HdrAlternative(a, decide) == HdrAlternative(b, decide)
    ensures multiset(AllPlaced(a, decide, HdrAlternative(a, decide)))
         == multiset(AllPlaced(b, decide, HdrAlternative(b, decide)))
  {
    forall s ensures s in a <==> s in b { assert s in multiset(a) <==> s in multiset(b); }
    forall r
      ensures multiset(AllPlaced(a, decide, HdrAlternative(a, decide)))[r]
           == multiset(AllPlaced(b, decide, HdrAlternative(a, decide)))[r]
    {
      PlacedMultiset(a, decide, HdrAlternative(a, decide), r);
      PlacedMultiset(b, decide, HdrAlternative(a, decide), r);
    }
  }

  /** Told apart, the renditions come out the same whatever order they came in. */
  lemma {:induction false} OrderIndependent(a: seq<Source>, b: seq<Source>, decide: Info -> Decision)
    requires multiset(a) == multiset(b) && ToldApart(a, decide)
    ensures Ranking(a, decide) == Ranking(b, decide)
  {
    var pa := AllPlaced(a, decide, HdrAlternative(a, decide));
    var pb := AllPlaced(b, decide, HdrAlternative(b, decide));
    SamePlaced(a, b, decide);
    AheadOrders();
    SortSorts(pa, Ahead);
    SortSorts(pb, Ahead);
    SortPermutes(pa, Ahead);
    SortPermutes(pb, Ahead);
    forall x, y | x in Sort(pa, Ahead) && y in Sort(pa, Ahead) && x != y ensures Ahead(x, y) || Ahead(y, x) {
      SameElements(Sort(pa, Ahead), pa, x);
      SameElements(Sort(pa, Ahead), pa, y);
    }
    SortedUnique(Sort(pa, Ahead), Sort(pb, Ahead), Ahead);
  }

  lemma {:induction false} TiesBegin<T(!new)>(s: seq<T>, less: (T, T) -> bool)
    requires s != [] && !less(s[0], s[0])
    ensures Ties(s, s[0], less) != [] && Ties(s, s[0], less)[0] == s[0]
  {
    var init := s[..|s| - 1];
    if |s| > 1 {
      assert init[0] == s[0];
      TiesBegin(init, less);
    } else {
      assert Ties(init, s[0], less) == [];
    }
  }

  lemma {:induction false} SameTies<T(!new)>(s: seq<T>, x: T, y: T, less: (T, T) -> bool)
    requires Ordering(less) && !less(x, y) && !less(y, x)
    ensures Ties(s, x, less) == Ties(s, y, less)
  {
    if s != [] { SameTies(s[..|s| - 1], x, y, less); }
  }

  /** With two renditions of one key the one that came first is ranked first. */
  lemma {:induction false} TiedFollowInput(x: Source, y: Source, rest: seq<Source>, decide: Info -> Decision)
    requires x != y
    requires !ToldApartPair(x, y, decide, HdrAlternative([x, y] + rest, decide))
    ensures Ranking([x, y] + rest, decide) != Ranking([y, x] + rest, decide)
  {
    var a, b := [x, y] + rest, [y, x] + rest;
    assert multiset(a) == multiset{x, y} + multiset(rest) == multiset(b);
    SamePlaced(a, b, decide);
    var alt := HdrAlternative(a, decide);
    var pa, pb := AllPlaced(a, decide, alt), AllPlaced(b, decide, alt);
    AheadOrders();
    var px, py := Placed(x, decide, alt), Placed(y, decide, alt);
    assert pa[0] == px && pb[0] == py;
    TiesBegin(pa, Ahead);
    TiesBegin(pb, Ahead);
    SortStable(pa, px, Ahead);
    SortStable(pb, py, Ahead);
    SameTies(Sort(pb, Ahead), px, py, Ahead);
    assert px.source != py.source;
  }

  predicate ToldApartPair(x: Source, y: Source, decide: Info -> Decision, alt: bool) {
    Ahead(Placed(x, decide, alt), Placed(y, decide, alt)) || Ahead(Placed(y, decide, alt), Placed(x, decide, alt))
  }

  lemma {:induction false} TakeOne<T>(s: seq<T>, x: T) returns (rest: seq<T>)
    requires x in s
    ensures multiset(s) == multiset(rest) + multiset{x}
  {
    var i :| 0 <= i < |s| && s[i] == x;
    rest := s[..i] + s[i + 1..];
    assert s == s[..i] + [x] + s[i + 1..];
  }

  /** Two different renditions of one key: it matters which of them is handed in first. */
  lemma {:induction false} TiedDepend(sources: seq<Source>, x: Source, y: Source, decide: Info -> Decision)
    returns (a: seq<Source>, b: seq<Source>)
    requires x in sources && y in sources && x != y
    requires !ToldApartPair(x, y, decide, HdrAlternative(sources, decide))
    ensures multiset(a) == multiset(b) == multiset(sources) && Ranking(a, decide) != Ranking(b, decide)
  {
    var without := TakeOne(sources, x);
    assert y in multiset(sources);
    assert y in multiset(without);
    var rest := TakeOne(without, y);
    a, b := [x, y] + rest, [y, x] + rest;
    assert multiset(a) == multiset{x, y} + multiset(rest) == multiset(b);
    SamePlaced(sources, a, decide);
    TiedFollowInput(x, y, rest, decide);
  }

  /**
   The order is the renditions' own, whatever order they are handed in, exactly when no two different
   ones share a key, which only renditions of one identity can.
   */
  lemma {:induction false} OrderIndependentIff(sources: seq<Source>, decide: Info -> Decision)
    ensures ToldApart(sources, decide)
      <==> forall b :: multiset(b) == multiset(sources) ==> Ranking(b, decide) == Ranking(sources, decide)
    ensures DistinctSources(sources) ==> ToldApart(sources, decide)
  {
    if DistinctSources(sources) { IdentitiesTellApart(sources, decide); }
    if ToldApart(sources, decide) {
      forall b | multiset(b) == multiset(sources) ensures Ranking(b, decide) == Ranking(sources, decide) {
        OrderIndependent(sources, b, decide);
      }
    } else {
      var x, y := TiedPair(sources, decide);
      var a, b := TiedDepend(sources, x, y, decide);
    }
  }

  lemma {:induction false} TiedPair(sources: seq<Source>, decide: Info -> Decision) returns (x: Source, y: Source)
    requires !ToldApart(sources, decide)
    ensures x in sources && y in sources && x != y
    ensures !ToldApartPair(x, y, decide, HdrAlternative(sources, decide))
  {
    var placed := AllPlaced(sources, decide, HdrAlternative(sources, decide));
    var px, py :| px in placed && py in placed && px != py && !Ahead(px, py) && !Ahead(py, px);
    var i :| 0 <= i < |placed| && placed[i] == px;
    var j :| 0 <= j < |placed| && placed[j] == py;
    x, y := sources[i], sources[j];
  }

  /** What comes out is what went in, each with its own key, in strictly rising order of the keys. */
  lemma {:induction false} RankingIsStrict(sources: seq<Source>, decide: Info -> Decision)
    requires DistinctSources(sources)
    ensures var ranked := Ranking(sources, decide);
      && multiset(ranked) == multiset(AllPlaced(sources, decide, HdrAlternative(sources, decide)))
      && forall i, j :: 0 <= i < j < |ranked| ==> KeyLess(ranked[i].key, ranked[j].key)
  {
    var placed, ranked := AllPlaced(sources, decide, HdrAlternative(sources, decide)), Ranking(sources, decide);
    AheadOrders();
    SortSorts(placed, Ahead);
    SortPermutes(placed, Ahead);
    IdentitiesTellApart(sources, decide);
    forall i, j | 0 <= i < j < |placed| ensures placed[i] != placed[j] {
      assert sources[i].identity != sources[j].identity;
    }
    forall i, j | 0 <= i < j < |ranked| ensures Ahead(ranked[i], ranked[j]) {
      if ranked[i] == ranked[j] {
        Twice(ranked, i, j);
        Once(placed, ranked[i]);
        assert false;
      }
      SameElements(ranked, placed, ranked[i]);
      SameElements(ranked, placed, ranked[j]);
    }
  }

  // ------------------------------------------------------------ what it is for

  predicate Safe(d: Decision) { d.mode != FallbackSourcePreferred && d.mode != Unsupported }

  /**
   However good the others look, no risky or unsupported rendition comes before a safe one; and among
   those that differ in tier, playing one that is ahead costs no more than playing one behind it.
   */
  lemma {:induction false} SafeFirst(sources: seq<Source>, decide: Info -> Decision, i: nat, j: nat)
    requires i < j < |Ranking(sources, decide)|
    ensures var ranked := Ranking(sources, decide);
      && (Safe(ranked[j].decision) ==> Safe(ranked[i].decision))
      && (ranked[j].decision.mode != Unsupported ==> ranked[i].decision.mode != Unsupported)
      && (ranked[i].decision.mode == Remux && Safe(ranked[j].decision) ==> ranked[j].decision.mode == Remux)
  {
    var alt := HdrAlternative(sources, decide);
    var placed, ranked := AllPlaced(sources, decide, alt), Ranking(sources, decide);
    AheadOrders();
    SortSorts(placed, Ahead);
    SortPermutes(placed, Ahead);
    assert !Ahead(ranked[j], ranked[i]);
    assert ranked[i] in ranked && ranked[j] in ranked;
    SameElements(ranked, placed, ranked[i]);
    SameElements(ranked, placed, ranked[j]);
    assert ranked[i].key.tier == TierOf(ranked[i].decision, alt);
    assert ranked[j].key.tier == TierOf(ranked[j].decision, alt);
  }

  /** A safe rendition that is standard while the title has a safe one in high range. */
  predicate Demoted(d: Decision) { NeedsNoRemux(d) && d.hdr == SDR }

  predicate NeedsNoRemux(d: Decision) { d.mode == Direct || d.mode == DirectWithAudioTranscode }

  /** The order of two keys turns over when the high range comes exactly as the demotions have it. */
  lemma {:induction false} TurnsOverIff(x: Source, y: Source, dx: Decision, dy: Decision)
    requires x.identity != y.identity && KeyLess(KeyOf(x, dx, false), KeyOf(y, dy, false))
    ensures KeyLess(KeyOf(y, dy, true), KeyOf(x, dx, true))
      <==> Demoted(dx) && NeedsNoRemux(dy) && (Demoted(dy) ==> RestLess(KeyOf(y, dy, true), KeyOf(x, dx, true)))
  {
    Trichotomy(x.identity, y.identity);
  }

  /** One rendition comes before another in a ranking. */
  ghost predicate Precedes(ranked: seq<Ranked>, x: Source, y: Source) {
    exists i, j :: 0 <= i < j < |ranked| && ranked[i].source == x && ranked[j].source == y
  }

  lemma {:induction false} Appears(sources: seq<Source>, decide: Info -> Decision, x: Source) returns (i: nat)
    requires x in sources
    ensures i < |Ranking(sources, decide)|
    ensures Ranking(sources, decide)[i] == Placed(x, decide, HdrAlternative(sources, decide))
  {
    var alt := HdrAlternative(sources, decide);
    var placed := AllPlaced(sources, decide, alt);
    var k :| 0 <= k < |sources| && sources[k] == x;
    SortPermutes(placed, Ahead);
    assert placed[k] == Placed(x, decide, alt);
    SameElements(placed, Ranking(sources, decide), placed[k]);
    i :| 0 <= i < |Ranking(sources, decide)| && Ranking(sources, decide)[i] == placed[k];
  }

  lemma {:induction false} RankedArePlaced(sources: seq<Source>, decide: Info -> Decision, r: Ranked)
    requires r in Ranking(sources, decide)
    ensures r == Placed(r.source, decide, HdrAlternative(sources, decide)) && r.source in sources
  {
    var placed := AllPlaced(sources, decide, HdrAlternative(sources, decide));
    SortPermutes(placed, Ahead);
    SameElements(Ranking(sources, decide), placed, r);
    var k :| 0 <= k < |placed| && placed[k] == r;
    assert sources[k] in sources;
  }

  /** Of a strictly rising list. */
  lemma {:induction false} PlacesByKeys(ranked: seq<Ranked>, i: nat, j: nat)
    requires i < |ranked| && j < |ranked|
    requires forall m, n :: 0 <= m < n < |ranked| ==> KeyLess(ranked[m].key, ranked[n].key)
    ensures i < j <==> KeyLess(ranked[i].key, ranked[j].key)
  {
    if i >= j { KeyTransitive(ranked[j].key, ranked[i].key, ranked[j].key); }
  }

  /** Which comes first is settled by the two keys. */
  lemma {:induction false} PrecedesIff(sources: seq<Source>, decide: Info -> Decision, x: Source, y: Source)
    requires DistinctSources(sources) && x in sources && y in sources
    ensures var alt := HdrAlternative(sources, decide);
      Precedes(Ranking(sources, decide), x, y)
      <==> KeyLess(KeyOf(x, decide(x.info), alt), KeyOf(y, decide(y.info), alt))
  {
    var ranked := Ranking(sources, decide);
    RankingIsStrict(sources, decide);
    var i := Appears(sources, decide, x);
    var j := Appears(sources, decide, y);
    PlacesByKeys(ranked, i, j);
    if m, n :| 0 <= m < n < |ranked| && ranked[m].source == x && ranked[n].source == y {
      RankedArePlaced(sources, decide, ranked[m]);
      RankedArePlaced(sources, decide, ranked[n]);
      PlacesByKeys(ranked, m, n);
    }
  }

  // ------------------------------------------------ which of two, told without a key

  /** The picture shows this many pixels; a missing side or no picture shows none. */
  predicate Shows(info: Info, pixels: int) {
    match info.picture
    case Some((Some(width), Some(height))) => pixels == width * height
    case _ => pixels == 0
  }

  /** As much dynamic range as there is, some, the standard one, or who knows. */
  predicate WiderRange(a: Hdr, b: Hdr) {
    || (a in {HDR10, HDR10Plus} && b !in {HDR10, HDR10Plus})
    || (a in {HLG, DolbyVision} && b in {SDR, Unknown})
    || (a == SDR && b == Unknown)
  }

  function Or0(value: Option<int>): int { match value case Some(n) => n case None => 0 }

  /** Of two renditions alike in what playing them costs: the larger picture, and so on down to the names. */
  ghost predicate ShowsBetter(x: Source, dx: Decision, y: Source, dy: Decision) {
    forall px, py :: Shows(x.info, px) && Shows(y.info, py) ==>
      if px != py then px > py
      else if WiderRange(dx.hdr, dy.hdr) || WiderRange(dy.hdr, dx.hdr) then WiderRange(dx.hdr, dy.hdr)
      else if Or0(dx.channels) != Or0(dy.channels) then Or0(dx.channels) > Or0(dy.channels)
      else if Or0(x.info.bitRate) != Or0(y.info.bitRate) then Or0(x.info.bitRate) > Or0(y.info.bitRate)
      else Less(x.identity, y.identity)
  }

  /** A standard one beside a safe one in high range. */
  predicate Outshone(d: Decision, alternative: bool) {
    alternative && d.hdr == SDR && (d.mode == Direct || d.mode == DirectWithAudioTranscode)
  }

  /**
   Playing `x` costs less than playing `y`: `y` cannot be played or only at a risk and `x` can without; or `y` is
   to be remuxed and `x` is not; or neither is, and `y` is outshone and `x` is not, or neither is that and only
   the sound of `y` is to be encoded.
   */
  predicate CostsLess(dx: Decision, dy: Decision, alternative: bool) {
    || (dy.mode == Unsupported && dx.mode != Unsupported)
    || (dy.mode == FallbackSourcePreferred && dx.mode in {Direct, DirectWithAudioTranscode, Remux})
    || (dy.mode == Remux && dx.mode in {Direct, DirectWithAudioTranscode})
    || (&& dx.mode in {Direct, DirectWithAudioTranscode} && dy.mode in {Direct, DirectWithAudioTranscode}
        && !Outshone(dx, alternative)
        && (Outshone(dy, alternative) || (dy.transcodesAudio && !dx.transcodesAudio)))
  }

  /** The title has a rendition in high range that can be played safely. */
  ghost predicate HasHighRange(sources: seq<Source>, decide: Info -> Decision) {
    exists s :: s in sources && decide(s.info).mode in {Direct, DirectWithAudioTranscode, Remux}
                && decide(s.info).hdr in {HDR10, HDR10Plus, HLG}
  }

  lemma {:induction false} TiersAreCosts(dx: Decision, dy: Decision, alternative: bool)
    ensures TierOf(dx, alternative) < TierOf(dy, alternative) <==> CostsLess(dx, dy, alternative)
  {
  }

  lemma {:induction false} RangesAreValues(a: Hdr, b: Hdr)
    ensures HdrValue(a) > HdrValue(b) <==> WiderRange(a, b)
  {
  }

  lemma {:induction false} PixelsAreShown(info: Info)
    ensures forall n :: Shows(info, n) <==> n == Pixels(info)
  {
    match info.picture
    case None =>
    case Some((width, height)) =>
      assert width == None ==> 0 * height.GetOr(0) == 0;
      assert height == None ==> width.GetOr(0) * 0 == 0;
  }

  lemma {:induction false} RestIsShown(x: Source, dx: Decision, y: Source, dy: Decision, alternative: bool)
    ensures RestLess(KeyOf(x, dx, alternative), KeyOf(y, dy, alternative)) <==> ShowsBetter(x, dx, y, dy)
  {
    PixelsAreShown(x.info);
    PixelsAreShown(y.info);
    RangesAreValues(dx.hdr, dy.hdr);
    RangesAreValues(dy.hdr, dx.hdr);
    assert Shows(x.info, Pixels(x.info)) && Shows(y.info, Pixels(y.info));
  }

  /**
   Which of two renditions of a title comes first, told by what they are and what was decided about them: the
   one whose playing costs less; and of two alike in that the larger picture, then the wider range, then
   more channels, then the higher rate, and then the lesser name.
   */
  lemma {:induction false} ComesFirstIff(sources: seq<Source>, decide: Info -> Decision, x: Source, y: Source)
    requires DistinctSources(sources) && x in sources && y in sources
    ensures var dx, dy, high := decide(x.info), decide(y.info), HasHighRange(sources, decide);
      Precedes(Ranking(sources, decide), x, y)
      <==> CostsLess(dx, dy, high) || (!CostsLess(dy, dx, high) && ShowsBetter(x, dx, y, dy))
  {
    assert HasHighRange(sources, decide) == HdrAlternative(sources, decide);
    var dx, dy, high := decide(x.info), decide(y.info), HasHighRange(sources, decide);
    PrecedesIff(sources, decide, x, y);
    TiersAreCosts(dx, dy, high);
    TiersAreCosts(dy, dx, high);
    RestIsShown(x, dx, y, dy, high);
  }

  /** A safe rendition comes before a risky or unsupported one, were they alike in all a key shows but the tier. */
  lemma {:induction false} SafePrecedes(sources: seq<Source>, decide: Info -> Decision, x: Source, y: Source)
    requires DistinctSources(sources) && x in sources && y in sources
    requires Safe(decide(x.info)) && !Safe(decide(y.info))
    ensures Precedes(Ranking(sources, decide), x, y) && !Precedes(Ranking(sources, decide), y, x)
  {
    PrecedesIff(sources, decide, x, y);
    PrecedesIff(sources, decide, y, x);
  }

  /**
   One rendition more turns two others over exactly if it brings the title its first in high range, the
   first of the two is demoted for that, the second needs no remux, and, when it is demoted as well, it
   is the better of them in all but the tier.
   */
  lemma {:induction false} ThirdReordersIff(sources: seq<Source>, z: Source, decide: Info -> Decision, x: Source, y: Source)
    requires DistinctSources(sources + [z]) && x in sources && y in sources && x != y
    requires Precedes(Ranking(sources, decide), x, y)
    ensures var dx, dy := decide(x.info), decide(y.info);
      Precedes(Ranking(sources + [z], decide), y, x)
      <==> !HdrAlternative(sources, decide) && IsHdrAlternative(decide(z.info))
           && Demoted(dx) && NeedsNoRemux(dy) && (Demoted(dy) ==> RestLess(KeyOf(y, dy, true), KeyOf(x, dx, true)))
  {
    var more := sources + [z];
    OneMore(sources, z, decide);
    assert forall i :: 0 <= i < |sources| ==> more[i] == sources[i];
    assert DistinctSources(sources);
    PrecedesIff(sources, decide, x, y);
    PrecedesIff(more, decide, y, x);
    DifferentIdentities(sources, x, y);
    var before, after := HdrAlternative(sources, decide), HdrAlternative(more, decide);
    if before == after {
      KeyTransitive(KeyOf(x, decide(x.info), after), KeyOf(y, decide(y.info), after), KeyOf(x, decide(x.info), after));
    } else {
      TurnsOverIff(x, y, decide(x.info), decide(y.info));
    }
  }

  lemma {:induction false} OneMore(sources: seq<Source>, z: Source, decide: Info -> Decision)
    ensures HdrAlternative(sources + [z], decide) <==> HdrAlternative(sources, decide) || IsHdrAlternative(decide(z.info))
    ensures forall s :: s in sources ==> s in sources + [z]
  {
    assert z in sources + [z];
  }

  lemma {:induction false} DifferentIdentities(sources: seq<Source>, x: Source, y: Source)
    requires DistinctSources(sources) && x in sources && y in sources && x != y
    ensures x.identity != y.identity
  {
    var i :| 0 <= i < |sources| && sources[i] == x;
    var j :| 0 <= j < |sources| && sources[j] == y;
  }

  /** And so they do: two standard renditions in one order by themselves, in the other beside a third. */
  lemma {:induction false} ThirdReorders() returns (x: Source, y: Source, z: Source, decide: Info -> Decision)
    ensures Ranking([x, y], decide) == [Placed(x, decide, false), Placed(y, decide, false)]
    ensures Ranking([x, y, z], decide) == [Placed(z, decide, true), Placed(y, decide, true), Placed(x, decide, true)]
  {
    x := Source("a", Info(None, Some(4000), []));
    y := Source("b", Info(None, Some(8000), []));
    z := Source("c", Info(None, Some(2000), []));
    decide := (info: Info) => Decided(info.bitRate);
    DecidedOrder(x, y, z);
    TwoRanked(x, y, decide);
    ThreeRanked(x, y, z, decide);
  }

  lemma {:induction false} DecidedOrder(x: Source, y: Source, z: Source)
    requires x.info == Info(None, Some(4000), []) && y.info == Info(None, Some(8000), []) && z.info == Info(None, Some(2000), [])
    ensures var dx, dy, dz := Decided(Some(4000)), Decided(Some(8000)), Decided(Some(2000));
      && !IsHdrAlternative(dx) && !IsHdrAlternative(dy) && IsHdrAlternative(dz)
      && KeyLess(KeyOf(x, dx, false), KeyOf(y, dy, false))
      && KeyLess(KeyOf(z, dz, true), KeyOf(y, dy, true)) && KeyLess(KeyOf(y, dy, true), KeyOf(x, dx, true))
  {
  }

  /** A policy for the example: the low rate is in high range, the high one needs its sound encoded. */
  function Decided(bitRate: Option<int>): Decision {
    if bitRate == Some(2000) then Decision(Direct, HDR10, false, None)
    else if bitRate == Some(8000) then Decision(DirectWithAudioTranscode, SDR, true, None)
    else Decision(Direct, SDR, false, None)
  }

  lemma {:induction false} TwoRanked(x: Source, y: Source, decide: Info -> Decision)
    requires !IsHdrAlternative(decide(x.info)) && !IsHdrAlternative(decide(y.info))
    requires Ahead(Placed(x, decide, false), Placed(y, decide, false))
    ensures Ranking([x, y], decide) == [Placed(x, decide, false), Placed(y, decide, false)]
  {
    PlacedTwo(x, y, decide);
    RanksInOrder([x, y], [Placed(x, decide, false), Placed(y, decide, false)], decide);
  }

  lemma {:induction false} ThreeRanked(x: Source, y: Source, z: Source, decide: Info -> Decision)
    requires IsHdrAlternative(decide(z.info))
    requires Ahead(Placed(z, decide, true), Placed(y, decide, true)) && Ahead(Placed(y, decide, true), Placed(x, decide, true))
    ensures Ranking([x, y, z], decide) == [Placed(z, decide, true), Placed(y, decide, true), Placed(x, decide, true)]
  {
    PlacedThree(x, y, z, decide);
    KeyTransitive(Placed(z, decide, true).key, Placed(y, decide, true).key, Placed(x, decide, true).key);
    RanksInOrder([x, y, z], [Placed(z, decide, true), Placed(y, decide, true), Placed(x, decide, true)], decide);
  }

  lemma {:induction false} PlacedTwo(x: Source, y: Source, decide: Info -> Decision)
    requires !IsHdrAlternative(decide(x.info)) && !IsHdrAlternative(decide(y.info))
    ensures !HdrAlternative([x, y], decide)
    ensures AllPlaced([x, y], decide, false) == [Placed(x, decide, false), Placed(y, decide, false)]
  {
  }

  lemma {:induction false} PlacedThree(x: Source, y: Source, z: Source, decide: Info -> Decision)
    requires IsHdrAlternative(decide(z.info))
    ensures HdrAlternative([x, y, z], decide)
    ensures multiset(AllPlaced([x, y, z], decide, true))
      == multiset([Placed(z, decide, true), Placed(y, decide, true), Placed(x, decide, true)])
  {
    assert z == [x, y, z][2];
    var px, py, pz := Placed(x, decide, true), Placed(y, decide, true), Placed(z, decide, true);
    assert AllPlaced([x, y, z], decide, true) == [px, py, pz];
    assert multiset([px, py, pz]) == multiset{px, py, pz} == multiset([pz, py, px]);
  }

  /** An arrangement in strictly rising order is the ranking. */
  lemma {:induction false} RanksInOrder(sources: seq<Source>, order: seq<Ranked>, decide: Info -> Decision)
    requires multiset(order) == multiset(AllPlaced(sources, decide, HdrAlternative(sources, decide)))
    requires forall i, j :: 0 <= i < j < |order| ==> Ahead(order[i], order[j])
    ensures Ranking(sources, decide) == order
  {
    hide AllPlaced, HdrAlternative;
    var placed := AllPlaced(sources, decide, HdrAlternative(sources, decide));
    AheadOrders();
    SortSorts(placed, Ahead);
    SortPermutes(placed, Ahead);
    RisingApart(order);
    SortedUnique(order, Sort(placed, Ahead), Ahead);
  }

  lemma {:induction false} RisingApart(order: seq<Ranked>)
    requires forall i, j :: 0 <= i < j < |order| ==> Ahead(order[i], order[j])
    ensures Sorted(order, Ahead) && Apart(order, Ahead)
  {
    AheadOrders();
    forall x, y | x in order && y in order && x != y ensures Ahead(x, y) || Ahead(y, x) {
      var i :| 0 <= i < |order| && order[i] == x;
      var j :| 0 <= j < |order| && order[j] == y;
    }
  }
}
