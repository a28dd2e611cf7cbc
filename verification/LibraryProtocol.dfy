/**
 What watching does to the account's record of a title, from media/stremio/library_state.py, as functions
 on the record's value.  Times are milliseconds; a field the record lacks, or that is no number, is None.
 */
module LibraryProtocol {
  import opened Wrappers
  import opened Bytes
  import opened Watched
  import opened Sorting
  import opened Iteration

  datatype Video = Video(id: string, season: Option<int>, episode: Option<int>, released: Option<int>)

  /** A time the record carries: absent, present but unreadable, or a moment. */
  datatype Moment = Missing | Unreadable | At(time: int)

  datatype Record = Record(
    removed: bool,
    temp: bool,
    videoId: Option<string>,
    timeOffset: Option<int>,
    timeWatched: Option<int>,
    overallTimeWatched: Option<int>,
    timesWatched: Option<int>,
    flaggedWatched: Option<int>,
    duration: Option<int>,
    watched: Option<string>,
    lastWatched: Moment)

  /** `_int`: a count, however the record spells it. */
  function Int(value: Option<int>): nat {
    if value.Some? && value.value > 0 then value.value else 0
  }

  // ------------------------------------------------------------ the bit order

  /** Missing keys come before every present one. */
  predicate KeyLess(a: Option<int>, b: Option<int>) { b.Some? && (a.None? || a.value < b.value) }

  predicate VideoLess(a: Video, b: Video) {
    || KeyLess(a.season, b.season)
    || (a.season == b.season
        && (KeyLess(a.episode, b.episode) || (a.episode == b.episode && KeyLess(a.released, b.released))))
  }

  function Ids(videos: seq<Video>): seq<string> { seq(|videos|, i requires 0 <= i < |videos| => videos[i].id) }

  /** `ordered_video_ids`: season, episode, release date; ties as they were listed. */
  function OrderedIds(videos: seq<Video>): seq<string> { Ids(Sort(videos, VideoLess)) }

  // ---------------------------------------------------------------- next video

  function PositionOf(videos: seq<Video>, id: string): Option<nat> {
    if videos == [] then None
    else if videos[0].id == id then Some(0)
    else match PositionOf(videos[1..], id) case None => None case Some(p) => Some(p + 1)
  }

  function Season(video: Video): int { video.season.GetOr(0) }

  /** Whether playback may go on from one video to the one after it: out, and no special out of a season. */
  predicate Allowed(current: Video, following: Video, now: int) {
    && (Season(following) != 0 || Season(current) == Season(following))
    && (following.released.None? || following.released.value <= now)
  }

  function NextVideo(videos: seq<Video>, id: string, now: int): Option<Video> {
    match PositionOf(videos, id)
    case None => None
    case Some(p) =>
      if p + 1 < |videos| && p < |videos| && Allowed(videos[p], videos[p + 1], now) then Some(videos[p + 1]) else None
  }

  // ------------------------------------------------------------------ playing

  function AdvanceTo(r: Record, id: string): Record {
    r.(videoId := Some(id), overallTimeWatched := Some(Int(r.overallTimeWatched) + Int(r.timeWatched)),
       timeWatched := Some(0), flaggedWatched := Some(0), timeOffset := Some(1))
  }

  /** A different video than the record points at restarts the per-episode count. */
  function Load(r: Record, id: string): Record {
    if r.videoId == Some(id) then r
    else
      r.(videoId := Some(id), overallTimeWatched := Some(Int(r.overallTimeWatched) + Int(r.timeWatched)),
         timeWatched := Some(0), flaggedWatched := Some(0), timeOffset := Some(0))
  }

  function Elapsed(r: Record, time: int): nat {
    if time > Int(r.timeOffset) then time - Int(r.timeOffset) else 0
  }

  /** A seek puts the position where the viewer did; an update only moves it forward and counts the time. */
  function Move(r: Record, time: int, duration: int, seek: bool): Record {
    if seek then r.(timeOffset := Some(time), duration := Some(duration))
    else
      var counted := r.(timeWatched := Some(Int(r.timeWatched) + Elapsed(r, time)),
                        overallTimeWatched := Some(Int(r.overallTimeWatched) + Elapsed(r, time)));
      if time > Int(r.timeOffset) then counted.(timeOffset := Some(time), duration := Some(duration)) else counted
  }

  /** More than 70 % of the length has been watched, and the episode is not marked yet. */
  predicate PastThreshold(r: Record) {
    Int(r.flaggedWatched) == 0 && Int(r.duration) > 0 && Int(r.timeWatched) * 10 > Int(r.duration) * 7
  }

  function WithWatched(r: Record, videos: seq<Video>, marked: seq<string>, on: bool, codec: Codec): Record {
    if videos == [] then r
    else
      var ids := OrderedIds(videos);
      r.(watched := Some(Serialize(Marked(Parse(r.watched, ids, codec), ids, marked, on), ids, codec)))
  }

  function Flag(r: Record, videos: seq<Video>, id: string, codec: Codec): Record {
    if !PastThreshold(r) then r
    else
      WithWatched(r.(flaggedWatched := Some(1), timesWatched := Some(Int(r.timesWatched) + 1)), videos, [id], true, codec)
  }

  /** A temporary record nobody has finished anything of stays removed, and a removed one temporary. */
  function Settle(r: Record): Record {
    var removed := r.removed || (r.temp && Int(r.timesWatched) == 0);
    r.(removed := removed, temp := r.temp || removed)
  }

  /** `progress`; a title without a description has no videos. */
  function Progress(r: Record, videos: seq<Video>, id: string, time: int, duration: int, seek: bool, now: int, codec: Codec)
    : Record
  {
    Settle(Flag(Move(Load(r.(lastWatched := At(now)), id), time, duration, seek), videos, id, codec))
  }

  /** Past 90 % of the length. */
  predicate PastCredits(r: Record) {
    Int(r.duration) > 0 && Int(r.timeOffset) * 10 > Int(r.duration) * 9
  }

  /** `closed`. */
  function Close(r: Record, videos: seq<Video>, now: int): Record {
    if !PastCredits(r) then r
    else
      var cleared := r.(timeOffset := Some(0));
      if r.videoId.None? then cleared
      else match NextVideo(videos, r.videoId.value, now)
        case None => cleared
        case Some(following) => AdvanceTo(cleared, following.id)
  }

  // ------------------------------------------------------------------ marking

  function LaterOf(last: Moment, released: Option<int>): Moment {
    if released.None? then last
    else match last
      case Missing => At(released.value)
      case Unreadable => last
      case At(time) => if time < released.value then At(released.value) else last
  }

  /** Whether the marks of a title's field have a video of this id as watched. */
  predicate Seen(values: seq<byte>, ids: seq<string>, id: string) {
    id in ids && Get(values, IndexOf(ids, id))
  }

  // ------------------------------------------------------------- walking on

  /** One turn of the reconcile loop: on to the next video, if it is allowed and already watched. */
  function WatchedNext(videos: seq<Video>, values: seq<byte>, ids: seq<string>, id: string, now: int): Option<string> {
    match NextVideo(videos, id, now)
    case None => None
    case Some(following) => if Seen(values, ids, following.id) then Some(following.id) else None
  }

  function Turn(videos: seq<Video>, values: seq<byte>, ids: seq<string>, now: int): string -> Option<string> {
    id => WatchedNext(videos, values, ids, id, now)
  }

  /** The loop ends. */
  ghost predicate Ends(videos: seq<Video>, values: seq<byte>, ids: seq<string>, id: string, now: int) {
    Stops(Turn(videos, values, ids, now), id)
  }

  /** The record once the loop stands at `at`, with nothing watched ahead of it. */
  function Rest(r: Record, videos: seq<Video>, at: string, now: int): Record {
    match NextVideo(videos, at, now)
    case None => r.(timeOffset := Some(0))
    case Some(following) => AdvanceTo(r, following.id)
  }

  // ---------------------------------------------------------- marking episodes

  /** `mark_title_watched`. */
  function MarkTitle(r: Record, on: bool, now: int): Record {
    if on then r.(timesWatched := Some(Int(r.timesWatched) + 1), lastWatched := At(now), timeOffset := Some(0))
    else r.(timesWatched := Some(0))
  }

  /** The title's field once the episodes are marked in it. */
  function FieldWith(r: Record, videos: seq<Video>, marked: seq<Video>, on: bool, codec: Codec): seq<byte> {
    Marked(Parse(r.watched, OrderedIds(videos), codec), OrderedIds(videos), Ids(marked), on)
  }

  predicate Listed(videos: seq<Video>, id: string, season: int) {
    exists v :: v in videos && v.id == id && v.season == Some(season)
  }

  /** Marking a season moves on a record that points at an episode of it, watched by then. */
  predicate Reconciles(r: Record, videos: seq<Video>, values: seq<byte>, season: int) {
    r.videoId.Some? && Seen(values, OrderedIds(videos), r.videoId.value) && Listed(videos, r.videoId.value, season)
  }

  function Dated(r: Record, videos: seq<Video>, marked: seq<Video>, on: bool, codec: Codec): Record
    requires marked != []
  {
    var stored := r.(watched := Some(Serialize(FieldWith(r, videos, marked, on, codec), OrderedIds(videos), codec)));
    if on then stored.(lastWatched := LaterOf(r.lastWatched, marked[|marked| - 1].released)) else stored
  }

  /** Whether marking goes through the reconcile loop. */
  predicate Walks(r: Record, videos: seq<Video>, marked: seq<Video>, on: bool, season: Option<int>, codec: Codec) {
    && videos != [] && marked != [] && on && season.Some?
    && Reconciles(r, videos, FieldWith(r, videos, marked, on, codec), season.value)
  }

  /** The loop ends. */
  ghost predicate WalkEnds(r: Record, videos: seq<Video>, marked: seq<Video>, on: bool, now: int, codec: Codec)
    requires r.videoId.Some?
  {
    Ends(videos, FieldWith(r, videos, marked, on, codec), OrderedIds(videos), r.videoId.value, now)
  }

  /** `mark_videos_watched`, where it returns. */
  ghost function MarkVideos(r: Record, videos: seq<Video>, marked: seq<Video>, on: bool, season: Option<int>, now: int,
                            codec: Codec): Record
    requires Walks(r, videos, marked, on, season, codec) ==> WalkEnds(r, videos, marked, on, now, codec)
  {
    if videos == [] || marked == [] then r
    else if !on then Dated(r, videos, marked, on, codec)
    else if season.None? then
      if r.videoId == Some(marked[0].id) then Rest(Dated(r, videos, marked, on, codec), videos, marked[0].id, now)
      else Dated(r, videos, marked, on, codec)
    else if !Walks(r, videos, marked, on, season, codec) then Dated(r, videos, marked, on, codec)
    else
      var turn := Turn(videos, FieldWith(r, videos, marked, on, codec), OrderedIds(videos), now);
      Rest(Dated(r, videos, marked, on, codec), videos, Last(turn, r.videoId.value), now)
  }

  // -------------------------------------------------------------- the library

  function InLibrary(r: Record, inLibrary: bool): Record { r.(removed := !inLibrary, temp := false) }

  function Rewound(r: Record): Record { r.(timeOffset := Some(0)) }

  /** In "continue watching", for a title that is not live. */
  predicate InContinueWatching(r: Record) { (!r.removed || r.temp) && Int(r.timeOffset) > 0 }
}
