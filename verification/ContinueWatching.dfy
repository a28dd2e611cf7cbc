/** What adding, removing, rewinding and marking do to a title's place among those being watched. */
module ContinueWatching {
  import opened Wrappers
  import opened Watched
  import opened LibraryProtocol
  import opened LibraryGuarantees

  /** All that can be done to a title's record but playing it. */
  datatype Doing =
    | Marks(on: bool, now: int)
    | Episodes(marked: seq<Video>, on: bool, season: Option<int>, now: int)
    | Closes(now: int)
    | Rewinds
    | Lists(inLibrary: bool)

  /** With distinct ids marking always returns. */
  lemma {:induction false} Returns(r: Record, videos: seq<Video>, marked: seq<Video>, on: bool, season: Option<int>, now: int,
                                   codec: Codec)
    requires DistinctVideos(videos)
    ensures Walks(r, videos, marked, on, season, codec) ==> WalkEnds(r, videos, marked, on, now, codec)
  {
    if Walks(r, videos, marked, on, season, codec) {
      DistinctEnds(videos, FieldWith(r, videos, marked, on, codec), OrderedIds(videos), r.videoId.value, now);
    }
  }

  ghost function Done(r: Record, videos: seq<Video>, doing: Doing, codec: Codec): Record
    requires DistinctVideos(videos)
  {
    match doing
    case Marks(on, now) => MarkTitle(r, on, now)
    case Episodes(marked, on, season, now) =>
      Returns(r, videos, marked, on, season, now, codec);
      MarkVideos(r, videos, marked, on, season, now, codec)
    case Closes(now) => Close(r, videos, now)
    case Rewinds => Rewound(r)
    case Lists(inLibrary) => InLibrary(r, inLibrary)
  }

  ghost function AllDone(r: Record, videos: seq<Video>, doings: seq<Doing>, codec: Codec): Record
    requires DistinctVideos(videos)
  {
    if doings == [] then r
    else Done(AllDone(r, videos, doings[..|doings| - 1], codec), videos, doings[|doings| - 1], codec)
  }

  lemma {:induction false} EpisodesKeep(r: Record, videos: seq<Video>, marked: seq<Video>, on: bool,
                                        season: Option<int>, now: int, codec: Codec)
    requires Walks(r, videos, marked, on, season, codec) ==> WalkEnds(r, videos, marked, on, now, codec)
    ensures var t := MarkVideos(r, videos, marked, on, season, now, codec);
      t.removed == r.removed && t.temp == r.temp && t.timesWatched == r.timesWatched
  {
  }

  lemma {:induction false} StaysOut(r: Record, videos: seq<Video>, doing: Doing, codec: Codec)
    requires DistinctVideos(videos) && r.removed && !r.temp && doing != Lists(true)
    ensures Done(r, videos, doing, codec).removed && !Done(r, videos, doing, codec).temp
  {
    if doing.Episodes? {
      Returns(r, videos, doing.marked, doing.on, doing.season, doing.now, codec);
      EpisodesKeep(r, videos, doing.marked, doing.on, doing.season, doing.now, codec);
    }
  }

  /**
   A title taken out of the library is not among those being watched, and stays away whatever is done to it
   but putting it back, until it is played: an update then brings it back exactly if it leaves a position.
   */
  lemma {:induction false} RemovedStaysAway(r: Record, videos: seq<Video>, doings: seq<Doing>, codec: Codec,
                                            id: string, u: Update)
    requires DistinctVideos(videos) && forall k :: 0 <= k < |doings| ==> doings[k] != Lists(true)
    ensures var t := AllDone(InLibrary(r, false), videos, doings, codec);
      && t.removed && !t.temp && !InContinueWatching(t)
      && (InContinueWatching(Updated(t, videos, id, u, codec))
          <==> u.time > 0 || (t.videoId == Some(id) && !u.seek && Int(t.timeOffset) > 0))
    decreases |doings|
  {
    if doings != [] {
      var before := doings[..|doings| - 1];
      assert forall k :: 0 <= k < |before| ==> before[k] == doings[k];
      RemovedStaysAway(r, videos, before, codec, id, u);
      hide Done;
      StaysOut(AllDone(InLibrary(r, false), videos, before, codec), videos, doings[|doings| - 1], codec);
    }
    ProgressWatchesIff(AllDone(InLibrary(r, false), videos, doings, codec), videos, id, u, codec);
  }

  /** Put into the library a title is being watched exactly if it has a position. */
  lemma {:induction false} AddedWatchesIff(r: Record)
    ensures InContinueWatching(InLibrary(r, true)) <==> Int(r.timeOffset) > 0
    ensures InLibrary(InLibrary(r, false), true) == InLibrary(r, true)
  {
  }

  /** Rewound, it is out whatever it was, until the next update of the same video, which counts from the beginning. */
  lemma {:induction false} RewoundGoesOn(r: Record, videos: seq<Video>, id: string, u: Update, codec: Codec)
    requires r.videoId == Some(id) && !u.seek
    ensures !InContinueWatching(Rewound(r))
    ensures var t := Updated(Rewound(r), videos, id, u, codec);
      && (InContinueWatching(t) <==> u.time > 0)
      && Int(t.timeWatched) == Int(r.timeWatched) + if u.time > 0 then u.time else 0
  {
    ProgressWatchesIff(Rewound(r), videos, id, u, codec);
    ProgressCounts(Rewound(r), videos, id, u, codec);
  }

  /** How often a title was marked watched, since it was last marked unwatched if it was. */
  function TimesMarked(doings: seq<Doing>, before: nat): nat {
    if doings == [] then before
    else
      var last, others := doings[|doings| - 1], doings[..|doings| - 1];
      if !last.Marks? then TimesMarked(others, before) else if last.on then TimesMarked(others, before) + 1 else 0
  }

  /** Only marking the title counts, every time, and marking it unwatched begins anew. */
  lemma {:induction false} MarksAddUp(r: Record, videos: seq<Video>, doings: seq<Doing>, codec: Codec)
    requires DistinctVideos(videos)
    ensures Int(AllDone(r, videos, doings, codec).timesWatched) == TimesMarked(doings, Int(r.timesWatched))
    decreases |doings|
  {
    if doings != [] {
      var others, last := doings[..|doings| - 1], doings[|doings| - 1];
      MarksAddUp(r, videos, others, codec);
      var t := AllDone(r, videos, others, codec);
      if last.Episodes? {
        Returns(t, videos, last.marked, last.on, last.season, last.now, codec);
        EpisodesKeep(t, videos, last.marked, last.on, last.season, last.now, codec);
      }
    }
  }
}
