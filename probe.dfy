/** Choosing a video's duration from what ffprobe reports
    (VideoService.get_video_duration).  The probe itself is an external
    program; the model receives its parsed answer. */
module Probe {
  import opened Common

  /** A "duration" entry: absent, present but not a number float() accepts
      (ffprobe writes "N/A"), or a number. */
  datatype Field = Absent | Unparsable | Number(value: real)

  datatype StreamInfo = StreamInfo(codecType: Option<string>, duration: Field)

  /** ProbeFailed stands for any exception raised by ffmpeg.probe. */
  datatype ProbeResult =
    | ProbeFailed
    | Probed(formatDuration: Field, streams: seq<StreamInfo>)

  /** The sentinel the service returns when no usable duration exists. */
  const NoDuration: real := -1.0

  predicate IsVideoStream(s: StreamInfo) { s.codecType == Some("video") }

  /** i is the position of the first stream whose codec type is "video". */
  predicate FirstVideoAt(streams: seq<StreamInfo>, i: int)
  {
    0 <= i < |streams| && IsVideoStream(streams[i])
    && forall k :: 0 <= k < i ==> !IsVideoStream(streams[k])
  }

  function FirstVideoStream(streams: seq<StreamInfo>): (r: int)
    ensures r == -1 <==> forall k :: 0 <= k < |streams| ==> !IsVideoStream(streams[k])
    ensures r != -1 ==> FirstVideoAt(streams, r)
  {
    if |streams| == 0 then -1
    else if IsVideoStream(streams[0]) then 0
    else
      var r := FirstVideoStream(streams[1..]);
      if r == -1 then -1 else r + 1
  }

  /** The duration the service records for a probe result. */
  function Duration(p: ProbeResult): (d: real)
    // a positive format duration wins
    ensures p.Probed? && p.formatDuration.Number? && p.formatDuration.value > 0.0
      ==> d == p.formatDuration.value
    // otherwise the first video stream's positive duration, unless the
    // format duration was unreadable (float() raised) -- then the sentinel
    ensures p.Probed? && !p.formatDuration.Unparsable?
      && !(p.formatDuration.Number? && p.formatDuration.value > 0.0)
      ==> forall i :: FirstVideoAt(p.streams, i) ==>
            d == (if p.streams[i].duration.Number? && p.streams[i].duration.value > 0.0
                  then p.streams[i].duration.value else NoDuration)
    // every other case yields the sentinel
    ensures p.ProbeFailed? || (p.Probed? && p.formatDuration.Unparsable?) ==> d == NoDuration
    ensures p.Probed? && !(p.formatDuration.Number? && p.formatDuration.value > 0.0)
      && (forall k :: 0 <= k < |p.streams| ==> !IsVideoStream(p.streams[k]))
      ==> d == NoDuration
    // the result is the sentinel or a positive number
    ensures d == NoDuration || d > 0.0
  {
    match p
    case ProbeFailed => NoDuration
    case Probed(fmt, streams) =>
      if fmt.Unparsable? then NoDuration
      else if fmt.Number? && fmt.value > 0.0 then fmt.value
      else
        var i := FirstVideoStream(streams);
        if i == -1 then NoDuration
        else
          var f := streams[i].duration;
          if f.Number? && f.value > 0.0 then f.value else NoDuration
  }

  /** A positive duration always comes from the format entry or from the
      first video stream. */
  lemma PositiveDurationHasSource(p: ProbeResult)
    requires Duration(p) > 0.0
    ensures p.Probed?
    ensures (p.formatDuration.Number? && Duration(p) == p.formatDuration.value)
         || exists i :: FirstVideoAt(p.streams, i) && p.streams[i].duration == Number(Duration(p))
  {
    var i := FirstVideoStream(p.streams);
    if !(p.formatDuration.Number? && p.formatDuration.value > 0.0) {
      assert FirstVideoAt(p.streams, i);
    }
  }
}
