/** What the account's record is worth after any run of updates, and where it resumes. */
module LibraryGuarantees {
  import opened Collections
  import opened Wrappers
  import opened Bytes
  import opened Watched
  import opened Sorting
  import opened Iteration
  import opened LibraryProtocol

  // ------------------------------------------------------------ the bit order

  lemma {:induction false} VideoOrder()
    ensures Ordering(VideoLess)
  {
  }

  /** What is missing comes first. */
  predicate NotAfter(a: Option<int>, b: Option<int>) { a.None? || (b.Some? && a.value <= b.value) }

  /** By season, within it by episode, and then by date. */
  predicate InOrder(v: Video, w: Video) {
    if v.season != w.season then NotAfter(v.season, w.season)
    else if v.episode != w.episode then NotAfter(v.episode, w.episode)
    else NotAfter(v.released, w.released)
  }

  predicate SameNumbers(v: Video, w: Video) {
    v.season == w.season && v.episode == w.episode && v.released == w.released
  }

  /** The videos of the numbers `v` has, as they are listed. */
  function Numbered(videos: seq<Video>, v: Video): seq<Video> {
    if videos == [] then []
    else
      var last := |videos| - 1;
      Numbered(videos[..last], v) + if SameNumbers(videos[last], v) then [videos[last]] else []
  }

  lemma {:induction false} TiesAreNumbered(videos: seq<Video>, v: Video)
    ensures Ties(videos, v, VideoLess) == Numbered(videos, v)
  {
    if videos != [] {
      var last := |videos| - 1;
      TiesAreNumbered(videos[..last], v);
      assert !VideoLess(videos[last], v) && !VideoLess(v, videos[last]) <==> SameNumbers(videos[last], v);
    }
  }

  /**
   The bits are those of the videos by season, episode and date, and of those that have all three in common
   in the order they are listed in.
   */
  lemma {:induction false} BitsAreInOrder(videos: seq<Video>) returns (sorted: seq<Video>)
    ensures OrderedIds(videos) == Ids(sorted) && multiset(sorted) == multiset(videos)
    ensures forall i, j :: 0 <= i < j < |sorted| ==> InOrder(sorted[i], sorted[j])
    ensures forall v :: Numbered(sorted, v) == Numbered(videos, v)
  {
    sorted := Sort(videos, VideoLess);
    VideoOrder();
    SortSorts(videos, VideoLess);
    SortPermutes(videos, VideoLess);
    forall v ensures Numbered(sorted, v) == Numbered(videos, v) {
      SortStable(videos, v, VideoLess);
      TiesAreNumbered(sorted, v);
      TiesAreNumbered(videos, v);
    }
  }

  ghost predicate DistinctVideos(videos: seq<Video>) {
    forall i, j :: 0 <= i < j < |videos| ==> videos[i].id != videos[j].id
  }

  lemma {:induction false} NoneTwice(videos: seq<Video>)
    requires DistinctVideos(videos)
    ensures forall v :: v in videos ==> multiset(videos)[v] == 1
  {
    if videos != [] {
      var last := |videos| - 1;
      NoneTwice(videos[..last]);
      assert videos == videos[..last] + [videos[last]];
      forall v | v in videos ensures multiset(videos)[v] == 1 {
        if v in videos[..last] {
          var i :| 0 <= i < last && videos[..last][i] == v;
          assert videos[i].id != videos[last].id;
        }
      }
    }
  }

  lemma {:induction false} SameVideos(videos: seq<Video>, v: Video)
    ensures v in Sort(videos, VideoLess) <==> v in videos
  {
    SortPermutes(videos, VideoLess);
    assert v in Sort(videos, VideoLess) <==> v in multiset(Sort(videos, VideoLess));
    assert v in videos <==> v in multiset(videos);
  }

  lemma {:induction false} IdAmong(videos: seq<Video>, id: string)
    ensures id in Ids(videos) <==> exists v :: v in videos && v.id == id
  {
    if v :| v in videos && v.id == id {
      var i :| 0 <= i < |videos| && videos[i] == v;
      assert Ids(videos)[i] == id;
    }
    if id in Ids(videos) {
      var i :| 0 <= i < |videos| && Ids(videos)[i] == id;
      assert videos[i] in videos;
    }
  }

  lemma {:induction false} OneOfAnId(videos: seq<Video>, v: Video, w: Video)
    requires DistinctVideos(videos) && v in videos && w in videos && v.id == w.id
    ensures v == w
  {
    var a :| 0 <= a < |videos| && videos[a] == v;
    var b :| 0 <= b < |videos| && videos[b] == w;
  }

  /** Videos with distinct ids have distinct ids in the order of the bits. */
  lemma {:induction false} OrderKeepsDistinct(videos: seq<Video>)
    requires DistinctVideos(videos)
    ensures Distinct(OrderedIds(videos))
  {
    var sorted := Sort(videos, VideoLess);
    SortPermutes(videos, VideoLess);
    NoneTwice(videos);
    forall i, j | 0 <= i < j < |sorted| ensures sorted[i].id != sorted[j].id {
      if sorted[i].id == sorted[j].id {
        SameVideos(videos, sorted[i]);
        SameVideos(videos, sorted[j]);
        OneOfAnId(videos, sorted[i], sorted[j]);
        Twice(sorted, i, j);
        assert false;
      }
    }
  }

  lemma {:induction false} OrderKeepsIds(videos: seq<Video>, id: string)
    ensures id in OrderedIds(videos) <==> id in Ids(videos)
  {
    IdAmong(videos, id);
    IdAmong(Sort(videos, VideoLess), id);
    if v :| v in videos && v.id == id { SameVideos(videos, v); }
    if v :| v in Sort(videos, VideoLess) && v.id == id { SameVideos(videos, v); }
  }

  // ------------------------------------------------------------ watching runs

  /** One time update: where the player is, how long the video is, whether the viewer jumped there, and when. */
  datatype Update = Update(time: int, duration: int, seek: bool, now: int)

  function Updated(r: Record, videos: seq<Video>, id: string, u: Update, codec: Codec): Record {
    Progress(r, videos, id, u.time, u.duration, u.seek, u.now, codec)
  }

  /** The record after each of a run of updates of one video. */
  function After(r: Record, videos: seq<Video>, id: string, updates: seq<Update>, codec: Codec): Record {
    if updates == [] then r
    else Updated(After(r, videos, id, updates[..|updates| - 1], codec), videos, id, updates[|updates| - 1], codec)
  }

  /** What a run of updates begins with: where the player was, what was watched by then, and of what length. */
  datatype Beginning = Beginning(position: nat, watched: nat, length: nat)

  function BeginningOf(r: Record): Beginning { Beginning(Int(r.timeOffset), Int(r.timeWatched), Int(r.duration)) }

  /** Where the player is after the updates. */
  function Position(updates: seq<Update>, from: nat): nat {
    if updates == [] then from
    else
      var last, before := updates[|updates| - 1], Position(updates[..|updates| - 1], from);
      if last.seek then (if last.time > 0 then last.time else 0)
      else if last.time > before then last.time else before
  }

  /** The time played forward, jumps not counted. */
  function Played(updates: seq<Update>, from: nat): nat {
    if updates == [] then 0
    else
      var last, before := updates[|updates| - 1], Position(updates[..|updates| - 1], from);
      Played(updates[..|updates| - 1], from) + if !last.seek && last.time > before then last.time - before else 0
  }

  /** The length the record goes by: that of the last jump or step forward. */
  function Length(updates: seq<Update>, b: Beginning): nat {
    if updates == [] then b.length
    else
      var last, before := updates[|updates| - 1], updates[..|updates| - 1];
      if last.seek || last.time > Position(before, b.position) then (if last.duration > 0 then last.duration else 0)
      else Length(before, b)
  }

  /** At some update more than 70 % of the length had been watched. */
  ghost predicate Finished(updates: seq<Update>, b: Beginning) {
    exists k :: 0 < k <= |updates| && PassedAt(updates, b, k)
  }

  predicate PassedAt(updates: seq<Update>, b: Beginning, k: nat)
    requires k <= |updates|
  {
    Length(updates[..k], b) > 0 && (b.watched + Played(updates[..k], b.position)) * 10 > Length(updates[..k], b) * 7
  }

  lemma {:induction false} FinishedStep(updates: seq<Update>, b: Beginning)
    requires updates != []
    ensures Finished(updates, b) <==> Finished(updates[..|updates| - 1], b) || PassedAt(updates, b, |updates|)
  {
    var before := updates[..|updates| - 1];
    assert updates[..|updates|] == updates;
    if Finished(before, b) {
      var k :| 0 < k <= |before| && PassedAt(before, b, k);
      assert before[..k] == updates[..k];
      assert PassedAt(updates, b, k);
    }
    if Finished(updates, b) {
      var k :| 0 < k <= |updates| && PassedAt(updates, b, k);
      if k < |updates| {
        assert before[..k] == updates[..k];
        assert PassedAt(before, b, k);
      }
    }
  }

  lemma {:induction false} WithWatchedKeeps(r: Record, videos: seq<Video>, marked: seq<string>, on: bool, codec: Codec)
    ensures WithWatched(r, videos, marked, on, codec) == r.(watched := WithWatched(r, videos, marked, on, codec).watched)
  {
  }

  /** What one update does to the counts. */
  lemma {:induction false} ProgressCounts(r: Record, videos: seq<Video>, id: string, u: Update, codec: Codec)
    requires r.videoId == Some(id)
    ensures var t := Updated(r, videos, id, u, codec);
      && t.videoId == Some(id)
      && Int(t.timeOffset) == (if u.seek then (if u.time > 0 then u.time else 0)
                               else if u.time > Int(r.timeOffset) then u.time else Int(r.timeOffset))
      && Int(t.timeWatched) == Int(r.timeWatched) + (if u.seek then 0 else Elapsed(r, u.time))
      && Int(t.overallTimeWatched) == Int(r.overallTimeWatched) + (if u.seek then 0 else Elapsed(r, u.time))
      && Int(t.duration) == (if u.seek || u.time > Int(r.timeOffset) then (if u.duration > 0 then u.duration else 0)
                             else Int(r.duration))
      && (Int(r.flaggedWatched) > 0 ==> t.flaggedWatched == r.flaggedWatched && t.timesWatched == r.timesWatched)
      && (Int(r.flaggedWatched) == 0 ==>
            if Int(t.duration) > 0 && Int(t.timeWatched) * 10 > Int(t.duration) * 7
            then Int(t.flaggedWatched) == 1 && Int(t.timesWatched) == Int(r.timesWatched) + 1
            else Int(t.flaggedWatched) == 0 && Int(t.timesWatched) == Int(r.timesWatched))
  {
    var moved := Move(r.(lastWatched := At(u.now)), u.time, u.duration, u.seek);
    if PastThreshold(moved) {
      WithWatchedKeeps(moved.(flaggedWatched := Some(1), timesWatched := Some(Int(moved.timesWatched) + 1)),
                       videos, [id], true, codec);
    }
  }

  /** The record `t` counts what the updates come to, for a record that stood as `r` before them. */
  ghost predicate CountsUp(r: Record, updates: seq<Update>, t: Record) {
    var b := BeginningOf(r);
    && Int(t.timeOffset) == Position(updates, b.position)
    && Int(t.timeWatched) == b.watched + Played(updates, b.position)
    && Int(t.overallTimeWatched) == Int(r.overallTimeWatched) + Played(updates, b.position)
    && Int(t.duration) == Length(updates, b)
    && (Int(t.flaggedWatched) > 0 <==> Int(r.flaggedWatched) > 0 || Finished(updates, b))
    && Int(t.timesWatched) == Int(r.timesWatched) + if Int(r.flaggedWatched) == 0 && Finished(updates, b) then 1 else 0
  }

  /**
   Over any run of updates of the video on record, wherever the record stood, the time watched grows by
   exactly the time played forward.  The video becomes marked exactly when what was watched by then came to
   pass 70 % of the length at one of them, and is counted once for it, or not at all if it was marked before.
   */
  lemma {:induction false} WatchingRun(r: Record, videos: seq<Video>, id: string, updates: seq<Update>, codec: Codec)
    requires r.videoId == Some(id)
    ensures After(r, videos, id, updates, codec).videoId == Some(id)
    ensures CountsUp(r, updates, After(r, videos, id, updates, codec))
  {
    if updates != [] {
      var before := updates[..|updates| - 1];
      WatchingRun(r, videos, id, before, codec);
      ProgressCounts(After(r, videos, id, before, codec), videos, id, updates[|updates| - 1], codec);
      FinishedStep(updates, BeginningOf(r));
      assert updates[..|updates|] == updates;
    }
  }

  /** The first update of another video than the record's is an update of one just loaded. */
  lemma {:induction false} SwitchLoads(r: Record, videos: seq<Video>, id: string, u: Update, codec: Codec)
    requires r.videoId != Some(id)
    ensures var loaded := Load(r.(lastWatched := At(u.now)), id);
      && loaded.videoId == Some(id) && Int(loaded.flaggedWatched) == 0
      && BeginningOf(loaded) == Beginning(0, 0, Int(r.duration))
      && Int(loaded.overallTimeWatched) == Int(r.overallTimeWatched) + Int(r.timeWatched)
      && Updated(r, videos, id, u, codec) == Updated(loaded, videos, id, u, codec)
  {
  }

  /** With another video than the record's the run begins as one just loaded does. */
  lemma {:induction false} SwitchedRun(r: Record, videos: seq<Video>, id: string, updates: seq<Update>, codec: Codec)
    requires r.videoId != Some(id) && updates != []
    ensures After(r, videos, id, updates, codec)
         == After(Load(r.(lastWatched := At(updates[0].now)), id), videos, id, updates, codec)
  {
    var last := |updates| - 1;
    if last == 0 { SwitchLoads(r, videos, id, updates[0], codec); assert updates[..last] == []; }
    else { SwitchedRun(r, videos, id, updates[..last], codec); }
  }

  /**
   So a video that playback comes to has its own run: begun by its first update, from the beginning, or by
   moving on to it when the one before was closed or marked, at 1.  Either way the threshold is of its own
   time alone, and it counts once more exactly if the run passes it.
   */
  lemma {:induction false} NewRun(r: Record, videos: seq<Video>, id: string, updates: seq<Update>, codec: Codec)
    ensures var t := After(AdvanceTo(r, id), videos, id, updates, codec);
      && Int(t.timeWatched) == Played(updates, 1)
      && Int(t.overallTimeWatched) == Int(r.overallTimeWatched) + Int(r.timeWatched) + Played(updates, 1)
      && (Int(t.flaggedWatched) > 0 <==> Finished(updates, Beginning(1, 0, Int(r.duration))))
      && Int(t.timesWatched) == Int(r.timesWatched) + if Finished(updates, Beginning(1, 0, Int(r.duration))) then 1 else 0
    ensures r.videoId != Some(id) && updates != [] ==> var t := After(r, videos, id, updates, codec);
      && Int(t.timeWatched) == Played(updates, 0)
      && Int(t.overallTimeWatched) == Int(r.overallTimeWatched) + Int(r.timeWatched) + Played(updates, 0)
      && (Int(t.flaggedWatched) > 0 <==> Finished(updates, Beginning(0, 0, Int(r.duration))))
      && Int(t.timesWatched) == Int(r.timesWatched) + if Finished(updates, Beginning(0, 0, Int(r.duration))) then 1 else 0
  {
    WatchingRun(AdvanceTo(r, id), videos, id, updates, codec);
    if r.videoId != Some(id) && updates != [] {
      SwitchLoads(r, videos, id, updates[0], codec);
      SwitchedRun(r, videos, id, updates, codec);
      WatchingRun(Load(r.(lastWatched := At(updates[0].now)), id), videos, id, updates, codec);
    }
  }

  /**
   A film played again after it was closed past its credits, or a video after a rewind, goes on with the time
   and the mark it has: it is counted exactly if it had not been yet and the time of all its runs passes 70 %.
   */
  lemma {:induction false} RunAgain(r: Record, videos: seq<Video>, id: string, closed: int, updates: seq<Update>, codec: Codec)
    requires r.videoId == Some(id)
    ensures InCredits(r) && NextVideo(videos, id, closed).None? ==>
      After(Close(r, videos, closed), videos, id, updates, codec) == After(Rewound(r), videos, id, updates, codec)
    ensures var t, b := After(Rewound(r), videos, id, updates, codec), Beginning(0, Int(r.timeWatched), Int(r.duration));
      && Int(t.timeWatched) == Int(r.timeWatched) + Played(updates, 0)
      && (Int(t.flaggedWatched) > 0 <==> Int(r.flaggedWatched) > 0 || Finished(updates, b))
      && Int(t.timesWatched) == Int(r.timesWatched) + if Int(r.flaggedWatched) == 0 && Finished(updates, b) then 1 else 0
  {
    WatchingRun(Rewound(r), videos, id, updates, codec);
  }

  lemma {:induction false} SeeksPlayNothing(updates: seq<Update>, from: nat)
    requires forall i :: 0 <= i < |updates| ==> updates[i].seek
    ensures Played(updates, from) == 0
  {
    if updates != [] { SeeksPlayNothing(updates[..|updates| - 1], from); }
  }

  /**
   Jumps alone pass the threshold exactly if one of them says a length of which what was watched before is
   past it; so never in a run that begins with nothing watched.
   */
  lemma {:induction false} SeeksFinishIff(updates: seq<Update>, b: Beginning)
    requires forall i :: 0 <= i < |updates| ==> updates[i].seek
    ensures Finished(updates, b)
      <==> exists i :: 0 <= i < |updates| && updates[i].duration > 0 && b.watched * 10 > updates[i].duration * 7
    ensures b.watched == 0 ==> !Finished(updates, b)
  {
    forall k | 0 < k <= |updates|
      ensures PassedAt(updates, b, k) <==> updates[k - 1].duration > 0 && b.watched * 10 > updates[k - 1].duration * 7
    {
      SeeksPlayNothing(updates[..k], b.position);
    }
    if i :| 0 <= i < |updates| && updates[i].duration > 0 && b.watched * 10 > updates[i].duration * 7 {
      assert PassedAt(updates, b, i + 1);
    }
  }

  // ------------------------------------------------------------ in the library or not

  /** In the library, out of it, or out of it but kept while it is being watched. */
  datatype Standing = InIt | OutOfIt | KeptForNow | Passing

  function StandingOf(r: Record): Standing {
    match (r.removed, r.temp)
    case (false, false) => InIt
    case (true, false) => OutOfIt
    case (true, true) => KeptForNow
    case (false, true) => Passing
  }

  /** One update: what is out of the library is kept for now, and what was only passing once nothing of it counts. */
  lemma {:induction false} UpdateStanding(r: Record, videos: seq<Video>, id: string, u: Update, codec: Codec)
    ensures StandingOf(Updated(r, videos, id, u, codec)) ==
      match StandingOf(r)
      case InIt => InIt
      case OutOfIt => KeptForNow
      case KeptForNow => KeptForNow
      case Passing => if Int(Updated(r, videos, id, u, codec).timesWatched) == 0 then KeptForNow else Passing
  {
    FlagStands(Move(Load(r.(lastWatched := At(u.now)), id), u.time, u.duration, u.seek), videos, id, codec);
  }

  lemma {:induction false} FlagStands(r: Record, videos: seq<Video>, id: string, codec: Codec)
    ensures Flag(r, videos, id, codec).removed == r.removed && Flag(r, videos, id, codec).temp == r.temp
  {
  }

  /** What one update counts is there for good. */
  lemma {:induction false} CountsGrow(r: Record, videos: seq<Video>, id: string, u: Update, codec: Codec)
    ensures Int(Updated(r, videos, id, u, codec).timesWatched) >= Int(r.timesWatched)
  {
    if r.videoId == Some(id) { ProgressCounts(r, videos, id, u, codec); }
    else {
      SwitchLoads(r, videos, id, u, codec);
      ProgressCounts(Load(r.(lastWatched := At(u.now)), id), videos, id, u, codec);
    }
  }

  /**
   What a run of updates does to a title's place: one in the library stays, one removed stays out and is kept
   for now, and one that was only passing comes to be kept for now exactly if its first update leaves it
   never counted as watched.
   */
  lemma {:induction false} RunStanding(r: Record, videos: seq<Video>, id: string, updates: seq<Update>, codec: Codec)
    requires updates != []
    ensures var t := After(r, videos, id, updates, codec);
      && (!r.removed && !r.temp ==> !t.removed && !t.temp)
      && (r.removed ==> t.removed && t.temp)
      && (!r.removed && r.temp ==>
            t.temp && (t.removed <==> Int(Updated(r, videos, id, updates[0], codec).timesWatched) == 0))
    ensures Int(After(r, videos, id, updates, codec).timesWatched)
      >= Int(Updated(r, videos, id, updates[0], codec).timesWatched)
  {
    var last := |updates| - 1;
    if last == 0 {
      assert updates[..last] == [];
      UpdateStanding(r, videos, id, updates[0], codec);
    } else {
      RunStanding(r, videos, id, updates[..last], codec);
      UpdateStanding(After(r, videos, id, updates[..last], codec), videos, id, updates[last], codec);
      CountsGrow(After(r, videos, id, updates[..last], codec), videos, id, updates[last], codec);
    }
  }

  /** Which is exactly if it had never been counted, and is already marked or does not pass 70 % with that update. */
  lemma {:induction false} FirstCounts(r: Record, videos: seq<Video>, id: string, u: Update, codec: Codec)
    ensures var b := if r.videoId == Some(id) then BeginningOf(r) else Beginning(0, 0, Int(r.duration));
      Int(Updated(r, videos, id, u, codec).timesWatched) == 0
      <==> Int(r.timesWatched) == 0
           && ((r.videoId == Some(id) && Int(r.flaggedWatched) > 0) || !Finished([u], b))
  {
    assert [u][..0] == [];
    assert After(r, videos, id, [u], codec) == Updated(r, videos, id, u, codec);
    if r.videoId == Some(id) { WatchingRun(r, videos, id, [u], codec); } else { NewRun(r, videos, id, [u], codec); }
  }

  /** When a title was last watched is when the last update came. */
  lemma {:induction false} RunDates(r: Record, videos: seq<Video>, id: string, updates: seq<Update>, codec: Codec)
    requires updates != []
    ensures After(r, videos, id, updates, codec).lastWatched == At(updates[|updates| - 1].now)
  {
  }

  /**
   An update leaves the title being watched exactly if it leaves it a position: whatever the record was, one
   at a time past the beginning does, and so does one of the same video that is no jump and finds a position.
   */
  lemma {:induction false} ProgressWatchesIff(r: Record, videos: seq<Video>, id: string, u: Update, codec: Codec)
    ensures InContinueWatching(Updated(r, videos, id, u, codec))
      <==> u.time > 0 || (r.videoId == Some(id) && !u.seek && Int(r.timeOffset) > 0)
  {
    if r.videoId == Some(id) { ProgressCounts(r, videos, id, u, codec); }
    else {
      SwitchLoads(r, videos, id, u, codec);
      ProgressCounts(Load(r.(lastWatched := At(u.now)), id), videos, id, u, codec);
    }
  }

  /** Playback ended in the last tenth. */
  predicate InCredits(r: Record) { Int(r.duration) > 0 && 10 * Int(r.timeOffset) > 9 * Int(r.duration) }

  /**
   Closing a title being watched takes it out exactly when it was in the last tenth with no next episode to
   go on to; with one, the record points at that episode with a position and its counts restarted.
   */
  lemma {:induction false} CloseKeepsWatchingIff(r: Record, videos: seq<Video>, now: int)
    requires InContinueWatching(r)
    ensures InContinueWatching(Close(r, videos, now))
      <==> !InCredits(r) || (r.videoId.Some? && NextVideo(videos, r.videoId.value, now).Some?)
    ensures InCredits(r) && r.videoId.Some? && NextVideo(videos, r.videoId.value, now).Some? ==>
      var t := Close(r, videos, now);
      && t.videoId == Some(NextVideo(videos, r.videoId.value, now).value.id)
      && Int(t.overallTimeWatched) == Int(r.overallTimeWatched) + Int(r.timeWatched)
      && Int(t.timeOffset) == 1 && Int(t.timeWatched) == 0 && Int(t.flaggedWatched) == 0
    ensures !InCredits(r) ==> Close(r, videos, now) == r
    ensures Close(r, videos, now).watched == r.watched && Close(r, videos, now).timesWatched == r.timesWatched
  {
  }

  /** Finishing an episode marks it in the account's field, and no other. */
  lemma {:induction false} FlagMarksTheEpisode(r: Record, videos: seq<Video>, id: string, codec: Codec, i: nat)
    requires codec.Lossless() && DistinctVideos(videos) && PastThreshold(r) && i < |videos|
    ensures var ids := OrderedIds(videos);
      && i < |ids|
      && Get(Parse(Flag(r, videos, id, codec).watched, ids, codec), i)
         == (ids[i] == id || Get(Parse(r.watched, ids, codec), i))
  {
    OrderKeepsDistinct(videos);
    SortPermutes(videos, VideoLess);
    assert |multiset(Sort(videos, VideoLess))| == |Sort(videos, VideoLess)| && |multiset(videos)| == |videos|;
    MarkingIsExact(r.watched, OrderedIds(videos), [id], true, codec, i);
  }

  // ------------------------------------------------------------ walking on

  lemma {:induction false} PositionIs(videos: seq<Video>, id: string)
    ensures match PositionOf(videos, id)
      case Some(p) => p < |videos| && videos[p].id == id && forall q :: 0 <= q < p ==> videos[q].id != id
      case None => forall q :: 0 <= q < |videos| ==> videos[q].id != id
  {
    if videos != [] && videos[0].id != id { PositionIs(videos[1..], id); }
  }

  /**
   A video playback may go on to from another: it is out by now, and no special unless that one is.  A video
   of no season, or of season 0, is a special.
   */
  predicate MayFollow(current: Video, following: Video, now: int) {
    && (following.season in {None, Some(0)} ==> current.season in {None, Some(0)})
    && (following.released.Some? ==> following.released.value <= now)
  }

  /** The next video is the one listed right after the first of that id, if it may follow. */
  lemma {:induction false} NextIff(videos: seq<Video>, id: string, now: int, v: Video)
    ensures NextVideo(videos, id, now) == Some(v)
      <==> exists p: nat :: p + 1 < |videos| && FirstOfId(videos, p, id) && v == videos[p + 1] && MayFollow(videos[p], v, now)
  {
    PositionIs(videos, id);
    if p: nat :| p + 1 < |videos| && FirstOfId(videos, p, id) && v == videos[p + 1] && MayFollow(videos[p], v, now) {
      assert PositionOf(videos, id) == Some(p);
    }
    if NextVideo(videos, id, now) == Some(v) {
      assert FirstOfId(videos, PositionOf(videos, id).value, id);
    }
  }

  ghost predicate FirstOfId(videos: seq<Video>, p: nat, id: string)
    requires p < |videos|
  {
    videos[p].id == id && forall q :: 0 <= q < p ==> videos[q].id != id
  }

  lemma {:induction false} NextFollows(videos: seq<Video>, id: string, now: int)
    requires NextVideo(videos, id, now).Some?
    ensures var p := PositionOf(videos, id);
      p.Some? && p.value + 1 < |videos| && NextVideo(videos, id, now).value == videos[p.value + 1]
      && videos[p.value].id == id && Allowed(videos[p.value], videos[p.value + 1], now)
  {
    PositionIs(videos, id);
  }

  /** With distinct ids each turn of the loop is one place further in the list. */
  lemma {:induction false} WalkAdvances(videos: seq<Video>, values: seq<byte>, ids: seq<string>, id: string, now: int, k: nat)
    requires DistinctVideos(videos) && k > 0 && Iterate(Turn(videos, values, ids, now), id, k).Some?
    ensures var p := PositionOf(videos, id);
      && p.Some? && p.value + k < |videos|
      && Iterate(Turn(videos, values, ids, now), id, k) == Some(videos[p.value + k].id)
      && Seen(values, ids, videos[p.value + k].id) && Allowed(videos[p.value + k - 1], videos[p.value + k], now)
  {
    hide Seen, Allowed, NextVideo;
    var at := Iterate(Turn(videos, values, ids, now), id, k - 1).value;
    assert WatchedNext(videos, values, ids, at, now).Some?;
    NextFollows(videos, at, now);
    if k > 1 {
      WalkAdvances(videos, values, ids, id, now, k - 1);
      PositionIs(videos, at);
    }
  }

  /** So the loop ends, within as many turns as there are videos. */
  lemma {:induction false} DistinctEnds(videos: seq<Video>, values: seq<byte>, ids: seq<string>, id: string, now: int)
    requires DistinctVideos(videos)
    ensures Iterate(Turn(videos, values, ids, now), id, |videos| + 1).None? && Ends(videos, values, ids, id, now)
  {
    if Iterate(Turn(videos, values, ids, now), id, |videos| + 1).Some? {
      WalkAdvances(videos, values, ids, id, now, |videos| + 1);
    }
  }

  /**
   Nothing keeps a description from listing an id twice.  The loop ends exactly when it never comes to
   an id it has been at, which is settled within as many turns as there are videos and one.
   */
  lemma {:induction false} EndsIff(videos: seq<Video>, values: seq<byte>, ids: seq<string>, id: string, now: int)
    ensures Ends(videos, values, ids, id, now) <==> !Revisits(Turn(videos, values, ids, now), id, |videos| + 1)
  {
    var among := [id] + Ids(videos);
    assert among[0] == id;
    forall x | WatchedNext(videos, values, ids, x, now).Some? ensures WatchedNext(videos, values, ids, x, now).value in among {
      NextFollows(videos, x, now);
      var p := PositionOf(videos, x).value;
      assert among[p + 2] == videos[p + 1].id;
    }
    StopsIff(Turn(videos, values, ids, now), id, among);
  }

  /** From the episode at `k` the loop goes on to the one listed after it. */
  predicate GoesOn(videos: seq<Video>, values: seq<byte>, ids: seq<string>, k: nat, now: int)
    requires k < |videos|
  {
    k + 1 < |videos| && Allowed(videos[k], videos[k + 1], now) && Seen(values, ids, videos[k + 1].id)
  }

  /** The first episode from `p` on that is not followed by a watched one it may go on to. */
  predicate RestsAt(videos: seq<Video>, values: seq<byte>, ids: seq<string>, p: nat, q: nat, now: int) {
    && p <= q < |videos|
    && (forall k: nat :: p <= k < q ==> GoesOn(videos, values, ids, k, now))
    && !GoesOn(videos, values, ids, q, now)
  }

  lemma {:induction false} PositionOfDistinct(videos: seq<Video>, p: nat)
    requires DistinctVideos(videos) && p < |videos|
    ensures PositionOf(videos, videos[p].id) == Some(p)
  {
    PositionIs(videos, videos[p].id);
  }

  /** A step along the list: on from each video the loop goes on from. */
  ghost predicate Follows(step: string -> Option<string>, names: seq<string>, videos: seq<Video>, values: seq<byte>,
                          ids: seq<string>, now: int)
  {
    |names| == |videos| && forall k: nat :: k < |names| ==> FollowsAt(step, names, videos, values, ids, k, now)
  }

  ghost predicate FollowsAt(step: string -> Option<string>, names: seq<string>, videos: seq<Video>, values: seq<byte>,
                            ids: seq<string>, k: nat, now: int)
    requires k < |names| == |videos|
  {
    step(names[k]) == if GoesOn(videos, values, ids, k, now) then Some(names[k + 1]) else None
  }

  lemma {:induction false} TurnFollows(videos: seq<Video>, values: seq<byte>, ids: seq<string>, now: int)
    requires DistinctVideos(videos)
    ensures Follows(Turn(videos, values, ids, now), Ids(videos), videos, values, ids, now)
  {
    forall k: nat | k < |videos|
      ensures FollowsAt(Turn(videos, values, ids, now), Ids(videos), videos, values, ids, k, now)
    {
      PositionOfDistinct(videos, k);
    }
  }

  lemma {:induction false} FollowingRests(step: string -> Option<string>, names: seq<string>, videos: seq<Video>,
                                          values: seq<byte>, ids: seq<string>, p: nat, now: int) returns (q: nat)
    requires Follows(step, names, videos, values, ids, now) && p < |videos|
    ensures RestsAt(videos, values, ids, p, q, now) && IsLast(step, names[p], names[q]) && Stops(step, names[p])
  {
    forall k: nat | k < |names|
      ensures step(names[k]).Some? <==> GoesOn(videos, values, ids, k, now)
      ensures step(names[k]).Some? ==> k + 1 < |names| && step(names[k]) == Some(names[k + 1])
    {
      assert FollowsAt(step, names, videos, values, ids, k, now);
    }
    q := AlongEnds(step, names, p);
  }

  /** Where the loop ends. */
  lemma {:induction false} LoopRests(videos: seq<Video>, values: seq<byte>, ids: seq<string>, p: nat, now: int) returns (q: nat)
    requires DistinctVideos(videos) && p < |videos|
    ensures Ends(videos, values, ids, videos[p].id, now)
    ensures RestsAt(videos, values, ids, p, q, now) && Last(Turn(videos, values, ids, now), videos[p].id) == videos[q].id
  {
    var turn := Turn(videos, values, ids, now);
    TurnFollows(videos, values, ids, now);
    q := FollowingRests(turn, Ids(videos), videos, values, ids, p, now);
    OneLast(turn, videos[p].id, videos[q].id, Last(turn, videos[p].id));
  }

  /**
   With distinct ids, marking a season watched always returns.  If the record points at an episode of it
   that is watched by then, it comes to point at the first unwatched one that following on from it
   reaches; if following on comes to an end first, its position is cleared and it points where it did.
   */
  lemma {:induction false} SeasonResumes(r: Record, videos: seq<Video>, marked: seq<Video>, season: int, now: int, codec: Codec)
    returns (q: nat)
    requires DistinctVideos(videos) && Walks(r, videos, marked, true, Some(season), codec)
    ensures WalkEnds(r, videos, marked, true, now, codec)
    ensures PositionOf(videos, r.videoId.value).Some?
    ensures RestsAt(videos, FieldWith(r, videos, marked, true, codec), OrderedIds(videos),
                    PositionOf(videos, r.videoId.value).value, q, now)
    ensures var t := MarkVideos(r, videos, marked, true, Some(season), now, codec);
      if q + 1 < |videos| && Allowed(videos[q], videos[q + 1], now)
      then
        && t.videoId == Some(videos[q + 1].id) && t.timeOffset == Some(1)
        && Int(t.timeWatched) == 0 && Int(t.flaggedWatched) == 0
        && Int(t.overallTimeWatched) == Int(r.overallTimeWatched) + Int(r.timeWatched)
      else t == Dated(r, videos, marked, true, codec).(timeOffset := Some(0)) && t.videoId == r.videoId
  {
    var id := r.videoId.value;
    PositionIs(videos, id);
    var p := PositionOf(videos, id).value;
    q := LoopRests(videos, FieldWith(r, videos, marked, true, codec), OrderedIds(videos), p, now);
    PositionOfDistinct(videos, q);
  }

  /** The season's marks, as the account's string says them afterwards: those episodes and no other. */
  lemma {:induction false} SeasonMarksExactly(r: Record, videos: seq<Video>, marked: seq<Video>, on: bool, season: Option<int>,
                                              now: int, codec: Codec, i: nat)
    requires codec.Lossless() && DistinctVideos(videos) && videos != [] && marked != [] && i < |OrderedIds(videos)|
    ensures Walks(r, videos, marked, on, season, codec) ==> WalkEnds(r, videos, marked, on, now, codec)
    ensures var ids := OrderedIds(videos);
      Get(Parse(MarkVideos(r, videos, marked, on, season, now, codec).watched, ids, codec), i)
      == if ids[i] in Ids(marked) then on else Get(Parse(r.watched, ids, codec), i)
  {
    var ids := OrderedIds(videos);
    OrderKeepsDistinct(videos);
    MarkingIsExact(r.watched, ids, Ids(marked), on, codec, i);
    if Walks(r, videos, marked, on, season, codec) {
      DistinctEnds(videos, FieldWith(r, videos, marked, on, codec), ids, r.videoId.value, now);
    }
  }

  /** Where a record points and how far it is in it. */
  predicate PointsAsBefore(r: Record, t: Record) {
    && t.videoId == r.videoId && t.timeOffset == r.timeOffset && t.timeWatched == r.timeWatched
    && t.flaggedWatched == r.flaggedWatched && t.overallTimeWatched == r.overallTimeWatched
  }

  /** It comes to point at the beginning of the video `id`, what was watched of the one before being in the total. */
  predicate PointsOn(r: Record, t: Record, id: string) {
    && t.videoId == Some(id) && t.timeOffset == Some(1) && Int(t.timeWatched) == 0 && Int(t.flaggedWatched) == 0
    && Int(t.overallTimeWatched) == Int(r.overallTimeWatched) + Int(r.timeWatched)
  }

  /**
   Marking one episode watched, that the record points at, moves it on to the next if there is one and else
   clears its position; marking another leaves it where it was, and so does unmarking whatever is unmarked.
   */
  lemma {:induction false} EpisodeMovesOn(r: Record, videos: seq<Video>, marked: seq<Video>, season: Option<int>, now: int,
                                          codec: Codec)
    requires videos != [] && marked != []
    ensures var t := MarkVideos(r, videos, marked, true, None, now, codec);
      if r.videoId != Some(marked[0].id) then PointsAsBefore(r, t)
      else match NextVideo(videos, marked[0].id, now)
        case Some(following) => PointsOn(r, t, following.id)
        case None => t.videoId == r.videoId && t.timeOffset == Some(0) && PointsAsBefore(r, t.(timeOffset := r.timeOffset))
    ensures PointsAsBefore(r, MarkVideos(r, videos, marked, false, season, now, codec))
  {
  }

  ghost predicate IsOfSeason(videos: seq<Video>, id: string, season: int) {
    exists v :: v in videos && v.id == id && v.season == Some(season)
  }

  /**
   Marking a season watched touches where the record points only if that is an episode of the season, in the
   description, that is marked now or was before; `SeasonResumes` has it from there.
   */
  lemma {:induction false} SeasonMovesIff(r: Record, videos: seq<Video>, marked: seq<Video>, season: int, now: int, codec: Codec)
    requires codec.Lossless() && DistinctVideos(videos) && videos != [] && marked != []
    ensures var ids := OrderedIds(videos);
      Walks(r, videos, marked, true, Some(season), codec)
      <==> (exists i :: 0 <= i < |ids| && r.videoId == Some(ids[i]) && IsOfSeason(videos, ids[i], season)
                        && (ids[i] in Ids(marked) || Get(Parse(r.watched, ids, codec), i)))
    ensures !Walks(r, videos, marked, true, Some(season), codec) ==>
      PointsAsBefore(r, MarkVideos(r, videos, marked, true, Some(season), now, codec))
  {
    var ids := OrderedIds(videos);
    OrderKeepsDistinct(videos);
    forall i | 0 <= i < |ids| && r.videoId == Some(ids[i])
      ensures Seen(FieldWith(r, videos, marked, true, codec), ids, ids[i])
        <==> ids[i] in Ids(marked) || Get(Parse(r.watched, ids, codec), i)
    {
      assert IndexOf(ids, ids[i]) == i;
      MarkedGet(Parse(r.watched, ids, codec), ids, Ids(marked), true, i);
    }
    if Walks(r, videos, marked, true, Some(season), codec) {
      var i := IndexOf(ids, r.videoId.value);
      assert 0 <= i < |ids| && r.videoId == Some(ids[i]);
    }
  }

  /** The date of a title once episodes are marked watched: the release of the last of them, unless it was later. */
  predicate DatedBy(before: Moment, released: Option<int>, after: Moment) {
    match (before, released)
    case (_, None) => after == before
    case (Missing, Some(day)) => after == At(day)
    case (Unreadable, Some(_)) => after == Unreadable
    case (At(time), Some(day)) => after.At? && after.time >= time && after.time >= day && after.time in {time, day}
  }

  /** Marking dates a title by the last episode marked; unmarking does not. */
  lemma {:induction false} EpisodesDate(r: Record, videos: seq<Video>, marked: seq<Video>, on: bool, season: Option<int>,
                                        now: int, codec: Codec)
    requires videos != [] && marked != []
    requires Walks(r, videos, marked, on, season, codec) ==> WalkEnds(r, videos, marked, on, now, codec)
    ensures var t := MarkVideos(r, videos, marked, on, season, now, codec);
      if on then DatedBy(r.lastWatched, marked[|marked| - 1].released, t.lastWatched) else t.lastWatched == r.lastWatched
  {
  }

  /** Marking the title as a whole dates it and takes it off the list of those being watched; unmarking does neither. */
  lemma {:induction false} TitleMarkLeaves(r: Record, now: int)
    ensures var t := MarkTitle(r, true, now);
      && !InContinueWatching(t) && t.lastWatched == At(now)
      && t.videoId == r.videoId && t.watched == r.watched && StandingOf(t) == StandingOf(r)
    ensures var t := MarkTitle(r, false, now);
      && (InContinueWatching(t) <==> InContinueWatching(r)) && t.lastWatched == r.lastWatched
      && PointsAsBefore(r, t) && t.watched == r.watched && StandingOf(t) == StandingOf(r)
  {
  }

  // Two episodes, one of them listed again behind the other, and both watched.
  const First := Video("a", Some(1), Some(1), None)
  const Second := Video("b", Some(1), Some(2), None)
  const Repeated: seq<Video> := [First, Second, First]
  const AtFirst := Record(false, false, Some("a"), Some(1), None, None, None, None, None, None, Missing)

  lemma {:induction false} RepeatedOrder()
    ensures OrderedIds(Repeated) == ["a", "a", "b"]
  {
    var two := [First, Second];
    assert Repeated[..2] == two && two[..1] == [First] && [First][..0] == [];
    assert Sort([First], VideoLess) == [First];
    assert Sort(two, VideoLess) == Insert([First], Second, VideoLess) == two;
    assert Insert([First], First, VideoLess) == [First] + [First];
    assert Insert(two, First, VideoLess) == Insert([First], First, VideoLess) + [Second];
    assert Sort(Repeated, VideoLess) == Insert(two, First, VideoLess) == [First, First, Second];
  }

  lemma {:induction false} BothAreSeen(codec: Codec)
    ensures var values := FieldWith(AtFirst, Repeated, [First, Second], true, codec);
      Seen(values, OrderedIds(Repeated), "a") && Seen(values, OrderedIds(Repeated), "b")
  {
    var ids := OrderedIds(Repeated);
    RepeatedOrder();
    assert "a" != "b" by { assert "a"[0] != "b"[0]; }
    assert ids[0] == ids[1] == "a" && ids[2] == "b";
    assert IndexOf(ids, "a") == 0 && IndexOf(ids, "b") == 2;
    var blank := Blank(ids);
    var one := Set(blank, 0, true);
    assert Ids([First, Second]) == ["a", "b"] && ["a", "b"][..1] == ["a"] && ["a"][..0] == [];
    assert Marked(blank, ids, ["a"], true) == one;
    assert FieldWith(AtFirst, Repeated, [First, Second], true, codec) == Set(one, 2, true);
    SetGet(blank, 0, true, 0);
    SetGet(one, 2, true, 0);
    SetGet(one, 2, true, 2);
  }

  /** From "a" the next is "b", and from "b" the last one listed, which is "a" again. */
  lemma {:induction false} RepeatedTurns(values: seq<byte>)
    requires Seen(values, OrderedIds(Repeated), "a") && Seen(values, OrderedIds(Repeated), "b")
    ensures var turn := Turn(Repeated, values, OrderedIds(Repeated), 0); turn("a") == Some("b") && turn("b") == Some("a")
  {
    assert First.id != Second.id by { assert "a"[0] != "b"[0]; }
    assert Repeated[1..] == [Second, First];
    assert PositionOf(Repeated[1..], "b") == Some(0);
    assert PositionOf(Repeated, "a") == Some(0) && PositionOf(Repeated, "b") == Some(1);
    assert NextVideo(Repeated, "a", 0) == Some(Second) && NextVideo(Repeated, "b", 0) == Some(First);
  }

  /** With them marking the season watched goes through the loop, and the loop never ends. */
  lemma {:induction false} RepeatedIdsCycle(codec: Codec)
    ensures Walks(AtFirst, Repeated, [First, Second], true, Some(1), codec)
    ensures !WalkEnds(AtFirst, Repeated, [First, Second], true, 0, codec)
  {
    var values := FieldWith(AtFirst, Repeated, [First, Second], true, codec);
    var turn := Turn(Repeated, values, OrderedIds(Repeated), 0);
    BothAreSeen(codec);
    RepeatedTurns(values);
    assert Listed(Repeated, "a", 1) by { assert Repeated[0] == First; }
    assert Iterate(turn, "a", 1) == Some("b");
    assert Iterate(turn, "a", 2) == Some("a");
    forall k: nat ensures Iterate(turn, "a", k).Some? { GoesRound(turn, "a", 2, k); }
  }
}
