/** The account's record of a title, changed in place as media/stremio/library_state.py changes it. */
module LibraryRecord {
  import opened Wrappers
  import opened Watched
  import opened Iteration
  import Protocol = LibraryProtocol
  type Video = Protocol.Video
  type Record = Protocol.Record

  class TitleRecord {
    var removed: bool
    var temp: bool
    var videoId: Option<string>
    var timeOffset: Option<int>
    var timeWatched: Option<int>
    var overallTimeWatched: Option<int>
    var timesWatched: Option<int>
    var flaggedWatched: Option<int>
    var duration: Option<int>
    var watched: Option<string>
    var lastWatched: Protocol.Moment

    /** `new_record`: temporary, and removed. */
    constructor New(now: int)
      ensures View() == Protocol.Record(true, true, None, Some(0), Some(0), Some(0), Some(0), Some(0), Some(0), None,
                                        Protocol.At(now))
    {
      removed, temp, videoId := true, true, None;
      timeOffset, timeWatched, overallTimeWatched := Some(0), Some(0), Some(0);
      timesWatched, flaggedWatched, duration := Some(0), Some(0), Some(0);
      watched, lastWatched := None, Protocol.At(now);
    }

    function View(): Record
      reads this
    {
      Protocol.Record(removed, temp, videoId, timeOffset, timeWatched, overallTimeWatched, timesWatched, flaggedWatched,
                      duration, watched, lastWatched)
    }

    /** The counts of the video before go into the total; those of the new one start at nothing. */
    method StartCounting(id: string)
      modifies this
      ensures View() == Protocol.AdvanceTo(old(View()), id).(timeOffset := old(timeOffset))
    {
      videoId := Some(id);
      overallTimeWatched := Some(Protocol.Int(overallTimeWatched) + Protocol.Int(timeWatched));
      timeWatched := Some(0);
      flaggedWatched := Some(0);
    }

    method AdvanceTo(id: string)
      modifies this
      ensures View() == Protocol.AdvanceTo(old(View()), id)
    {
      StartCounting(id);
      timeOffset := Some(1);
    }

    method Load(id: string)
      modifies this
      ensures View() == Protocol.Load(old(View()), id)
    {
      if videoId != Some(id) {
        StartCounting(id);
        timeOffset := Some(0);
      }
    }

    method Move(time: int, length: int, seek: bool)
      modifies this
      ensures View() == Protocol.Move(old(View()), time, length, seek)
    {
      if seek {
        timeOffset := Some(time);
        duration := Some(length);
        return;
      }
      var ahead := time - Protocol.Int(timeOffset);
      var elapsed := if ahead > 0 then ahead else 0;
      timeWatched := Some(Protocol.Int(timeWatched) + elapsed);
      overallTimeWatched := Some(Protocol.Int(overallTimeWatched) + elapsed);
      if time > Protocol.Int(timeOffset) {
        timeOffset := Some(time);
        duration := Some(length);
      }
    }

    method Flag(videos: seq<Video>, id: string, codec: Codec)
      modifies this
      ensures View() == Protocol.Flag(old(View()), videos, id, codec)
    {
      var length := Protocol.Int(duration);
      if Protocol.Int(flaggedWatched) == 0 && length > 0 && Protocol.Int(timeWatched) * 10 > length * 7 {
        flaggedWatched := Some(1);
        timesWatched := Some(Protocol.Int(timesWatched) + 1);
        if videos != [] {
          var field := Read(watched, Protocol.OrderedIds(videos), codec);
          field.SetVideo(id, true);
          var text := field.ToText(codec);
          watched := Some(text);
        }
      }
    }

    method Settle()
      modifies this
      ensures View() == Protocol.Settle(old(View()))
    {
      if temp && Protocol.Int(timesWatched) == 0 { removed := true; }
      if removed { temp := true; }
    }

    /** One time update from the player. */
    method Progress(videos: seq<Video>, id: string, time: int, length: int, seek: bool, now: int, codec: Codec)
      modifies this
      ensures View() == Protocol.Progress(old(View()), videos, id, time, length, seek, now, codec)
    {
      lastWatched := Protocol.At(now);
      Load(id);
      Move(time, length, seek);
      Flag(videos, id, codec);
      Settle();
    }

    /** On to an episode, or the position cleared. */
    method MoveOn(following: Option<Video>)
      modifies this
      ensures View() == match following
        case Some(video) => Protocol.AdvanceTo(old(View()), video.id)
        case None => old(View()).(timeOffset := Some(0))
    {
      if following.Some? { AdvanceTo(following.value.id); } else { timeOffset := Some(0); }
    }

    method Closed(videos: seq<Video>, now: int)
      modifies this
      ensures View() == Protocol.Close(old(View()), videos, now)
    {
      var length := Protocol.Int(duration);
      if length <= 0 || Protocol.Int(timeOffset) * 10 <= length * 9 { return; }
      timeOffset := Some(0);
      if videoId.Some? {
        var following := Protocol.NextVideo(videos, videoId.value, now);
        if following.Some? { AdvanceTo(following.value.id); }
      }
    }

    method MarkTitleWatched(on: bool, now: int)
      modifies this
      ensures View() == Protocol.MarkTitle(old(View()), on, now)
    {
      if on {
        timesWatched := Some(Protocol.Int(timesWatched) + 1);
        lastWatched := Protocol.At(now);
        timeOffset := Some(0);
      } else {
        timesWatched := Some(0);
      }
    }

    /** An episode, or a season: the marks, and where the record resumes. */
    method MarkVideosWatched(videos: seq<Video>, marked: seq<Video>, on: bool, season: Option<int>, now: int, codec: Codec)
      requires Protocol.Walks(View(), videos, marked, on, season, codec)
               ==> Protocol.WalkEnds(View(), videos, marked, on, now, codec)
      modifies this
      ensures View() == Protocol.MarkVideos(old(View()), videos, marked, on, season, now, codec)
    {
      if videos == [] || marked == [] { return; }
      var field := MarkIn(videos, marked, on, codec);
      if !on { return; }
      lastWatched := Protocol.LaterOf(lastWatched, marked[|marked| - 1].released);
      if season.None? {
        if videoId == Some(marked[0].id) { MoveOn(Protocol.NextVideo(videos, marked[0].id, now)); }
        return;
      }
      if videoId.None? { return; }
      var seen := field.GetVideo(videoId.value);
      if !seen || !Protocol.Listed(videos, videoId.value, season.value) { return; }
      var current := WalkOn(field, videos, videoId.value, now);
      MoveOn(Protocol.NextVideo(videos, current, now));
    }

    method MarkIn(videos: seq<Video>, marked: seq<Video>, on: bool, codec: Codec) returns (field: WatchedBitField)
      requires videos != []
      modifies this
      ensures fresh(field) && field.videoIds == Protocol.OrderedIds(videos)
      ensures field.values == Protocol.FieldWith(old(View()), videos, marked, on, codec)
      ensures View() == old(View()).(watched := Some(Serialize(field.values, field.videoIds, codec)))
    {
      var ids, names := Protocol.OrderedIds(videos), Protocol.Ids(marked);
      field := Read(watched, ids, codec);
      ghost var before := field.values;
      for i := 0 to |marked|
        invariant field.videoIds == ids && fresh(field)
        invariant field.values == Marked(before, ids, names[..i], on)
        invariant View() == old(View())
      {
        ghost var was := field.values;
        field.SetVideo(marked[i].id, on);
        assert names[..i + 1] == names[..i] + [names[i]] && names[i] == marked[i].id;
        assert Marked(was, ids, [names[i]], on) == Marked(before, ids, names[..i + 1], on) by {
          assert names[..i + 1][..i] == names[..i] && [names[i]][..0] == [];
        }
      }
      assert names[..|marked|] == names;
      var text := field.ToText(codec);
      watched := Some(text);
    }

    method SetInLibrary(inLibrary: bool)
      modifies this
      ensures View() == Protocol.InLibrary(old(View()), inLibrary)
    {
      removed, temp := !inLibrary, false;
    }

    method Rewind()
      modifies this
      ensures View() == Protocol.Rewound(old(View()))
    {
      timeOffset := Some(0);
    }
  }

  /** The loop from the episode a record points at over those watched after it. */
  method WalkOn(field: WatchedBitField, videos: seq<Video>, id: string, now: int) returns (current: string)
    requires Protocol.Ends(videos, field.values, field.videoIds, id, now)
    ensures current == Last(Protocol.Turn(videos, field.values, field.videoIds, now), id)
  {
    hide Get;
    ghost var turn := Protocol.Turn(videos, field.values, field.videoIds, now);
    ghost var end: nat :| Iterate(turn, id, end).None?;
    ghost var k: nat := 0;
    current := id;
    while true
      invariant Iterate(turn, id, k) == Some(current)
      decreases end - k
    {
      if end <= k { Before(turn, id, end, k); }
      var following := Protocol.NextVideo(videos, current, now);
      if following.None? { break; }
      var seen := field.GetVideo(following.value.id);
      if !seen { break; }
      current, k := following.value.id, k + 1;
    }
    OneLast(turn, id, current, Last(turn, id));
  }
}
