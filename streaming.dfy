/** The video streaming endpoint (GET /videos/{id}/stream): tiered chunk
    size, parsing of a single "bytes=start-end" Range header (a subset of
    the byte ranges of RFC 7233, section 2.1), the response headers
    (sections 4.1 and 4.2 of RFC 7233), and the read loop with its
    throughput-driven congestion window and retry budget.

    The clock and the throughput measurements are replaced by an oracle
    that, for every pass of the read loop, says whether the inactivity
    timeout fired, whether the read raised, and how throughput moved. */
module Streaming {
  import opened Common
  import opened Paths
  import opened Records

  const KiB: nat := 1024
  const MiB: nat := 1024 * KiB
  const GiB: nat := 1024 * MiB

  /** The fixed floor of the congestion window. */
  const BaseChunkSize: nat := 512 * KiB
  const MaxRetries: nat := 3

  type Byte = b: int | 0 <= b < 256

  // ------------------------------------------------------------ chunk tiers

  /** The per-read ceiling chosen from the file size; every threshold is a
      strict comparison. */
  function TierChunkSize(fileSize: int): (c: nat)
    ensures BaseChunkSize <= c <= 4 * MiB
    ensures c == BaseChunkSize <==> fileSize <= 100 * MiB
    ensures c == 4 * MiB <==> fileSize > 2 * GiB
  {
    if fileSize > 2 * GiB then 4 * MiB
    else if fileSize > GiB then 2 * MiB
    else if fileSize > 100 * MiB then MiB
    else BaseChunkSize
  }

  /** A larger file never gets a smaller chunk. */
  lemma TierMonotone(a: int, b: int)
    requires a <= b
    ensures TierChunkSize(a) <= TierChunkSize(b)
  {
  }

  // ----------------------------------------------------------- range header

  datatype ByteRange = ByteRange(start: int, end: int)

  /** NotSatisfiable is the ValueError path (answered with 416);
      Malformed is the IndexError raised for a header without '-'. */
  datatype RangeError = NotSatisfiable | Malformed

  datatype RangeResult = RangeOk(range: ByteRange) | RangeFailed(error: RangeError)

  /** A header counts only when it is present and non-empty. */
  predicate HasRange(header: Option<string>) { header.Some? && header.value != "" }

  /** The range named by the '-'-separated pieces of the header. */
  function RangeFromParts(parts: seq<string>, size: nat): (res: RangeResult)
    requires |parts| >= 1
    ensures res.RangeOk? ==> 0 <= res.range.start <= res.range.end < size
  {
    match PyInt(parts[0])
    case None => RangeFailed(NotSatisfiable)
    case Some(s) =>
      if |parts| < 2 then RangeFailed(Malformed)
      else
        var e := if parts[1] == "" then Some(size - 1) else PyInt(parts[1]);
        match e
        case None => RangeFailed(NotSatisfiable)
        case Some(e) =>
          if 0 <= s <= e < size then RangeOk(ByteRange(s, e)) else RangeFailed(NotSatisfiable)
  }

  /** The range the endpoint serves for a header and a file size. */
  function ParseRange(header: Option<string>, size: nat): (res: RangeResult)
    ensures !HasRange(header) ==> res == RangeOk(ByteRange(0, size - 1))
    ensures HasRange(header) && res.RangeOk? ==> 0 <= res.range.start <= res.range.end < size
  {
    if !HasRange(header) then RangeOk(ByteRange(0, size - 1))
    else RangeFromParts(Split(ReplaceAll(header.value, "bytes=", ""), '-'), size)
  }

  function ContentLength(r: ByteRange): int { r.end - r.start + 1 }

  predicate DigitsOnly(s: string) { forall i :: 0 <= i < |s| ==> IsDigit(s[i]) }

  lemma StripPrefix(t: string)
    requires forall i :: 0 <= i < |t| ==> t[i] != 'b'
    ensures ReplaceAll("bytes=" + t, "bytes=", "") == t
  {
    var s := "bytes=" + t;
    assert s[..6] == "bytes=";
    assert s[6..] == t;
  }

  lemma SplitAtDash(a: string, b: string)
    requires DigitsOnly(a) && DigitsOnly(b)
    ensures Split(a + "-" + b, '-') == [a, b]
  {
    assert '-' !in a;
    IndexOfAfterPrefix(a, '-', b);
    var s := a + "-" + b;
    assert s == a + ['-'] + b;
    assert s[..|a|] == a && s[|a| + 1..] == b;
    assert '-' !in b;
  }

  /** Any header "bytes=x-y" with digit strings x and y is read as the pieces [x, y]. */
  lemma RangeOfDigits(x: string, y: string, size: nat)
    requires DigitsOnly(x) && DigitsOnly(y)
    ensures ParseRange(Some("bytes=" + x + "-" + y), size) == RangeFromParts([x, y], size)
  {
    var t := x + "-" + y;
    assert "bytes=" + x + "-" + y == "bytes=" + t;
    StripPrefix(t);
    SplitAtDash(x, y);
  }

  /** "bytes=a-b" is served exactly when a <= b < size, and refused with
      the not-satisfiable error otherwise; in particular an end beyond the
      file is refused rather than clamped. */
  lemma ExplicitRange(a: nat, b: nat, size: nat)
    ensures ParseRange(Some("bytes=" + NatToString(a) + "-" + NatToString(b)), size)
         == if a <= b < size then RangeOk(ByteRange(a, b)) else RangeFailed(NotSatisfiable)
  {
    RangeOfDigits(NatToString(a), NatToString(b), size);
    PyIntOfNatToString(a);
    PyIntOfNatToString(b);
  }

  /** "bytes=a-" runs to the last byte of the file. */
  lemma OpenEndedRange(a: nat, size: nat)
    ensures ParseRange(Some("bytes=" + NatToString(a) + "-"), size)
         == if a < size then RangeOk(ByteRange(a, size - 1)) else RangeFailed(NotSatisfiable)
  {
    var da := NatToString(a);
    RangeOfDigits(da, "", size);
    assert "bytes=" + da + "-" + "" == "bytes=" + da + "-";
    PyIntOfNatToString(a);
  }

  /** A suffix range "bytes=-n" is never served: int("") raises. */
  lemma SuffixRangeRefused(n: nat, size: nat)
    ensures ParseRange(Some("bytes=-" + NatToString(n)), size) == RangeFailed(NotSatisfiable)
  {
    var dn := NatToString(n);
    assert "bytes=-" + dn == "bytes=" + ("" + "-" + dn);
    StripPrefix("" + "-" + dn);
    SplitAtDash("", dn);
    assert !DigitGroup(PyStrip(""));
  }

  /** A header without '-' gets past int() and then fails on the missing second part. */
  lemma MissingDashIsMalformed(a: nat, size: nat)
    ensures ParseRange(Some("bytes=" + NatToString(a)), size) == RangeFailed(Malformed)
  {
    var da := NatToString(a);
    StripPrefix(da);
    assert '-' !in da;
    assert Split(da, '-') == [da];
    PyIntOfNatToString(a);
  }

  // ------------------------------------------------------------ content type

  const OctetStream: string := "application/octet-stream"

  const ContentTypes: map<string, string> := map[
    ".mp4" := "video/mp4",
    ".avi" := "video/x-msvideo",
    ".mkv" := "video/x-matroska",
    ".mov" := "video/quicktime",
    ".wmv" := "video/x-ms-wmv",
    ".webm" := "video/webm",
    ".flv" := "video/x-flv",
    ".m4v" := "video/x-m4v",
    ".3gp" := "video/3gpp",
    ".ts" := "video/mp2t",
    ".mpg" := "video/mpeg",
    ".mpeg" := "video/mpeg"]

  /** The registered type of a lowercased extension, or the fallback. */
  function ContentTypeFor(ext: string): (t: string)
    ensures ext in ContentTypes ==> t == ContentTypes[ext]
    ensures ext !in ContentTypes ==> t == OctetStream
  {
    if ext in ContentTypes then ContentTypes[ext] else OctetStream
  }

  /** The Content-Type for a path, looked up by its lowercased extension. */
  function ContentType(path: string): string
  {
    ContentTypeFor(Lower(SplitExt(path).1))
  }

  /** A file named stem + ext in some directory is served with the type
      registered for ext, whatever its letter case. */
  lemma ContentTypeOfFile(dir: string, stem: string, ext: string)
    requires stem != "" && stem[0] != '.' && '/' !in stem
    requires |ext| >= 1 && ext[0] == '.' && '/' !in ext && '.' !in ext[1..]
    ensures ContentType(dir + "/" + stem + ext)
         == if Lower(ext) in ContentTypes then ContentTypes[Lower(ext)] else OctetStream
  {
    SplitExtOfFile(dir, stem, ext);
  }

  lemma SplitExtOfFile(dir: string, stem: string, ext: string)
    requires stem != "" && stem[0] != '.' && '/' !in stem
    requires |ext| >= 1 && ext[0] == '.' && '/' !in ext && '.' !in ext[1..]
    ensures SplitExt(dir + "/" + stem + ext).1 == ext
  {
    var p := dir + "/" + stem + ext;
    var sep := |dir|;
    var dot := |dir| + 1 + |stem|;
    assert p[sep] == '/';
    assert p[sep + 1..] == stem + ext;
    LastIndexOfUnique(p, '/', sep);
    assert p[dot] == '.';
    assert p[dot + 1..] == ext[1..];
    LastIndexOfUnique(p, '.', dot);
    assert p[sep + 1] == stem[0];
    assert sep + 1 <= sep + 1 < dot && p[sep + 1] != '.';
    assert ExtStart(p) == dot;
    assert p[dot..] == ext;
  }

  // ---------------------------------------------------------------- planning

  datatype Headers = Headers(
    contentRange: string,
    acceptRanges: string,
    contentLength: string,
    contentType: string)

  datatype StreamPlan = StreamPlan(
    status: int,
    path: string,
    fileSize: nat,
    range: ByteRange,
    chunkSize: nat,
    headers: Headers)

  datatype Refusal = VideoNotFound | RootNotSet | FileNotFound | RangeRefused(error: RangeError)

  datatype PlanResult = Planned(plan: StreamPlan) | Refused(why: Refusal)

  function ContentRangeHeader(r: ByteRange, size: nat): string
  {
    "bytes " + IntToString(r.start) + "-" + IntToString(r.end) + "/" + NatToString(size)
  }

  /** The response planned for an existing file of the given size. */
  function PlanFile(path: string, size: nat, header: Option<string>): (res: PlanResult)
    ensures res.Planned? || res.why.RangeRefused?
    ensures res.Refused? ==> ParseRange(header, size) == RangeFailed(res.why.error)
    ensures res.Planned? ==> ParseRange(header, size) == RangeOk(res.plan.range)
    ensures res.Planned? ==> (res.plan.status == 206 <==> HasRange(header))
    ensures res.Planned? ==> res.plan.status in {200, 206}
    ensures res.Planned? ==> res.plan.path == path && res.plan.fileSize == size
    ensures res.Planned? ==> res.plan.chunkSize == TierChunkSize(size)
    ensures res.Planned? ==> res.plan.headers.contentRange == ContentRangeHeader(res.plan.range, size)
    ensures res.Planned? ==> res.plan.headers.contentLength == IntToString(ContentLength(res.plan.range))
    ensures res.Planned? ==> res.plan.headers.contentType == ContentType(path)
  {
    match ParseRange(header, size)
    case RangeFailed(e) => Refused(RangeRefused(e))
    case RangeOk(r) =>
      Planned(StreamPlan(
        if HasRange(header) then 206 else 200,
        path, size, r, TierChunkSize(size),
        Headers(ContentRangeHeader(r, size), "bytes",
                IntToString(ContentLength(r)), ContentType(path))))
  }

  /** Everything stream_video decides before the first byte is read: the
      three 404 checks in order, then the range and the headers. */
  function PlanStream(video: Option<Video>, root: Option<string>,
                      files: map<string, FileStat>, header: Option<string>): (res: PlanResult)
    ensures video.None? ==> res == Refused(VideoNotFound)
    ensures video.Some? && (root.None? || root == Some("")) ==> res == Refused(RootNotSet)
    ensures (video.Some? && root.Some? && root.value != ""
             && JoinPath(root.value, video.value.filepath) !in files) ==> res == Refused(FileNotFound)
    ensures video.Some? && root.Some? && root.value != "" ==>
              var path := JoinPath(root.value, video.value.filepath);
              path in files ==> res == PlanFile(path, files[path].size, header)
  {
    if video.None? then Refused(VideoNotFound)
    else if root.None? || root.value == "" then Refused(RootNotSet)
    else
      var path := JoinPath(root.value, video.value.filepath);
      if path !in files then Refused(FileNotFound)
      else PlanFile(path, files[path].size, header)
  }

  /** The status the client receives, as the handler is written: the blanket
      `except Exception` around the whole body turns every refusal, the
      404s and the 416 included, into 500. */
  function StatusAsWritten(res: PlanResult): (status: int)
    ensures res.Refused? ==> status == 500
    ensures res.Planned? ==> status == res.plan.status
  {
    if res.Planned? then res.plan.status else 500
  }

  /** The status the handler evidently means to send: each HTTPException
      reaches the client with its own code, and only the unexpected
      IndexError becomes 500. */
  function StatusIntended(res: PlanResult): (status: int)
    ensures res.Planned? ==> status == res.plan.status
    ensures res.Refused? ==> (status == 416 <==> res.why == RangeRefused(NotSatisfiable))
    ensures res.Refused? ==> (status == 404 <==> !res.why.RangeRefused?)
    ensures res.Refused? ==> (status == 500 <==> res.why == RangeRefused(Malformed))
  {
    match res
    case Planned(p) => p.status
    case Refused(VideoNotFound) => 404
    case Refused(RootNotSet) => 404
    case Refused(FileNotFound) => 404
    case Refused(RangeRefused(NotSatisfiable)) => 416
    case Refused(RangeRefused(Malformed)) => 500
  }

  /** A request for bytes past the end of an existing file is answered
      with 500 where 416 is meant. */
  lemma UnsatisfiableRangeAnswered500(path: string, size: nat)
    ensures var res := PlanFile(path, size, Some("bytes=" + NatToString(size) + "-" + NatToString(size)));
            StatusAsWritten(res) == 500 && StatusIntended(res) == 416
  {
    ExplicitRange(size, size, size);
  }

  /** A request for a video id that does not exist is answered with 500 where 404 is meant. */
  lemma MissingVideoAnswered500(root: Option<string>, files: map<string, FileStat>, header: Option<string>)
    ensures var res := PlanStream(None, root, files, header);
            StatusAsWritten(res) == 500 && StatusIntended(res) == 404
  {
  }

  /** The two numeric headers of a planned range, as decimal text. */
  lemma RangeHeaderText(a: nat, b: nat, size: nat)
    requires a <= b
    ensures ContentRangeHeader(ByteRange(a, b), size)
         == "bytes " + NatToString(a) + "-" + NatToString(b) + "/" + NatToString(size)
    ensures IntToString(ContentLength(ByteRange(a, b))) == NatToString(b - a + 1)
  {
    var len: nat := b - a + 1;
    assert ContentLength(ByteRange(a, b)) == len;
    assert IntToString(len) == NatToString(len);
  }

  /** A range the parser accepts is planned as 206 and the headers state it. */
  lemma ServedRangeHeaders(path: string, size: nat, a: nat, b: nat)
    requires a <= b < size
    ensures var res := PlanFile(path, size, Some("bytes=" + NatToString(a) + "-" + NatToString(b)));
            && res.Planned? && res.plan.status == 206
            && res.plan.range == ByteRange(a, b)
            && res.plan.headers.contentRange
               == "bytes " + NatToString(a) + "-" + NatToString(b) + "/" + NatToString(size)
            && res.plan.headers.contentLength == NatToString(b - a + 1)
  {
    var h := Some("bytes=" + NatToString(a) + "-" + NatToString(b));
    ExplicitRange(a, b, size);
    assert ParseRange(h, size) == RangeOk(ByteRange(a, b));
    RangeHeaderText(a, b, size);
  }

  /** Without a Range header the whole file is planned with status 200, and
      Content-Range is still sent. */
  lemma WholeFileHeaders(path: string, size: nat)
    requires size > 0
    ensures var res := PlanFile(path, size, None);
            && res.Planned? && res.plan.status == 200
            && res.plan.range == ByteRange(0, size - 1)
            && res.plan.headers.contentRange
               == "bytes " + NatToString(0) + "-" + NatToString(size - 1) + "/" + NatToString(size)
            && res.plan.headers.contentLength == NatToString(size)
  {
    assert ParseRange(None, size) == RangeOk(ByteRange(0, size - 1));
    RangeHeaderText(0, size - 1, size);
  }

  // ------------------------------------------------------- congestion window

  datatype Trend = Drop | Rise | Hold

  /** The window after one measured read (int(w * 0.7) and int(w * 1.2)
      taken as exact floors). */
  function NextWindow(w: int, chunkSize: nat, t: Trend): (r: int)
    requires BaseChunkSize <= chunkSize
    requires BaseChunkSize <= w <= 2 * chunkSize
    ensures BaseChunkSize <= r <= 2 * chunkSize
    ensures t == Drop ==> r <= w && (r == BaseChunkSize || r == (w * 7) / 10)
    ensures t == Rise ==> r >= w && (r == 2 * chunkSize || r == (w * 12) / 10)
    ensures t == Hold ==> r == w
  {
    match t
    case Drop => Max(BaseChunkSize, (w * 7) / 10)
    case Rise => Min(2 * chunkSize, (w * 12) / 10)
    case Hold => w
  }

  // ---------------------------------------------------------------- read loop

  /** What one pass of the read loop runs into. */
  datatype ReadEvent =
    | TimedOut                               // no activity for longer than the timeout
    | ConnectionError                        // ConnectionResetError or BrokenPipeError
    | OtherError                             // any other exception
    | Read(measured: bool, trend: Trend)     // measured: the transfer took measurable time

  datatype StopReason = Finished | EndOfFile | TimeOut | RetriesExhausted | Failed

  function Flatten(chunks: seq<seq<Byte>>): seq<Byte>
  {
    if |chunks| == 0 then [] else Flatten(chunks[..|chunks| - 1]) + chunks[|chunks| - 1]
  }

  /** The generator behind the streaming response.  `file` is the file's
      content when it is read, `fileSize` its size when the request was
      planned. */
  method VideoStream(file: seq<Byte>, fileSize: nat, start: nat, contentLength: int,
                     events: nat -> ReadEvent)
    returns (chunks: seq<seq<Byte>>, reason: StopReason, retries: nat, window: int)
    // the bytes sent are the file's bytes from `start` on, and no more than asked for
    ensures |Flatten(chunks)| <= Max(contentLength, 0)
    ensures |Flatten(chunks)| > 0 ==>
              start + |Flatten(chunks)| <= |file| && Flatten(chunks) == file[start..start + |Flatten(chunks)|]
    // no read exceeds the tier size
    ensures forall i :: 0 <= i < |chunks| ==> 1 <= |chunks[i]| <= TierChunkSize(fileSize)
    // the loop finishes exactly when every requested byte was sent
    ensures reason == Finished <==> |Flatten(chunks)| == Max(contentLength, 0)
    ensures reason == EndOfFile ==> start + |Flatten(chunks)| >= |file|
    // the retry budget is cumulative
    ensures retries <= MaxRetries
    ensures reason == RetriesExhausted ==> retries == MaxRetries
    // the window never leaves [512 KiB, 2 * chunk size]
    ensures BaseChunkSize <= window <= 2 * TierChunkSize(fileSize)
    // when nothing goes wrong and the file is long enough, the whole range is sent
    ensures ((forall k :: events(k).Read?) && start + contentLength <= |file|) ==> reason == Finished
    ensures (reason == Finished && contentLength > 0) ==>
              Flatten(chunks) == file[start..start + contentLength]
  {
    var chunkSize := TierChunkSize(fileSize);
    chunks, reason, retries, window := [], Finished, 0, chunkSize;
    var delivered: seq<Byte> := [];
    var remaining := contentLength;
    var measuredBefore := false;   // last_throughput > 0
    var k: nat := 0;
    while remaining > 0
      invariant delivered == Flatten(chunks)
      invariant remaining == contentLength - |delivered|
      invariant |delivered| <= Max(contentLength, 0)
      invariant |delivered| > 0 ==>
                  start + |delivered| <= |file| && delivered == file[start..start + |delivered|]
      invariant forall i :: 0 <= i < |chunks| ==> 1 <= |chunks[i]| <= chunkSize
      invariant retries <= MaxRetries
      invariant BaseChunkSize <= window <= 2 * chunkSize
      invariant reason == Finished
      decreases remaining, MaxRetries - retries
    {
      var ev := events(k);
      k := k + 1;
      if ev.TimedOut? {
        reason := TimeOut;
        break;
      } else if ev.ConnectionError? {
        if retries < MaxRetries {
          retries := retries + 1;
          continue;
        }
        reason := RetriesExhausted;
        break;
      } else if ev.OtherError? {
        reason := Failed;
        break;
      }
      var want := Min(Min(window, remaining), chunkSize);
      var pos := start + |delivered|;
      var data: seq<Byte> := if pos >= |file| then [] else file[pos..Min(pos + want, |file|)];
      if |data| == 0 {
        reason := EndOfFile;
        break;
      }
      if ev.measured {
        // The first measurement compares the throughput with itself
        // (ratio 1), which is the steady branch.
        if measuredBefore {
          window := NextWindow(window, chunkSize, ev.trend);
        }
        measuredBefore := true;
      }
      assert (chunks + [data])[..|chunks|] == chunks;
      assert file[start..pos + |data|] == file[start..pos] + data;
      chunks := chunks + [data];
      delivered := delivered + data;
      remaining := remaining - |data|;
    }
  }
}
