/** The process-wide scan status dictionary that the background scan writes
    and the status endpoint reads (core/scan_status.py). */
module ScanState {
  import opened Common

  /** max(0.0, min(1.0, p)). */
  function Clamp01(p: real): (r: real)
    ensures 0.0 <= r <= 1.0
    ensures 0.0 <= p <= 1.0 ==> r == p
    ensures p < 0.0 ==> r == 0.0
    ensures p > 1.0 ==> r == 1.0
  {
    if p < 0.0 then 0.0 else if p > 1.0 then 1.0 else p
  }

  /** The texts the scan writes to the "status" entry, by kind; Other
      stands for any other text (the scan's exception message). */
  datatype Message =
    | Blank
    | NoRootSet
    | PruningRecords
    | Pruned(deleted: nat, cleaned: nat)
    | Scanning
    | NoVideos
    | Processing(processed: nat, total: nat)
    | CleaningThumbnails
    | Finished(orphans: nat)
    | Other(text: string)

  /** The text stored for each message, character for character. */
  function Text(m: Message): string
  {
    match m
    case Blank => ""
    case NoRootSet => "未设置根目录"
    case PruningRecords => "正在清理不存在的视频记录..."
    case Pruned(d, c) =>
      "已清理 " + NatToString(d) + " 个无效的视频记录"
      + (if c > 0 then "和 " + NatToString(c) + " 个对应的缩略图文件" else "") + "..."
    case Scanning => "正在扫描视频文件..."
    case NoVideos => "未找到视频文件"
    case Processing(k, t) => "正在处理第 " + NatToString(k) + "/" + NatToString(t) + " 个文件..."
    case CleaningThumbnails => "正在清理孤立的缩略图文件..."
    case Finished(n) => if n > 0 then "扫描完成，清理了 " + NatToString(n) + " 个孤立缩略图" else "扫描完成"
    case Other(text) => text
  }

  /** A copy of the five entries, as get_scan_status hands it out. */
  datatype Snapshot = Snapshot(
    progress: real,
    status: string,
    completed: bool,
    totalFiles: int,
    processedFiles: int)

  const Initial := Snapshot(0.0, "", false, 0, 0)

  class ScanStatus {
    var progress: real
    var status: Message
    var completed: bool
    var totalFiles: int
    var processedFiles: int
    /** Every progress value written by an update, oldest first. */
    ghost var progressLog: seq<real>

    ghost predicate Valid()
      reads this
    {
      0.0 <= progress <= 1.0 && forall i :: 0 <= i < |progressLog| ==> 0.0 <= progressLog[i] <= 1.0
    }

    function Current(): Snapshot
      reads this
    {
      Snapshot(progress, Text(status), completed, totalFiles, processedFiles)
    }

    constructor ()
      ensures Valid() && Current() == Initial && progressLog == []
    {
      progress := 0.0;
      status := Blank;
      completed := false;
      totalFiles := 0;
      processedFiles := 0;
      progressLog := [];
    }

    /** update_scan_progress: the progress is clamped; status and completed
        change only when given; the two counters are never touched. */
    method UpdateProgress(p: real, newStatus: Option<Message>, done: Option<bool>)
      requires Valid()
      modifies this
      ensures Valid()
      ensures progress == Clamp01(p)
      ensures status == (if newStatus.Some? then newStatus.value else old(status))
      ensures completed == (if done.Some? then done.value else old(completed))
      ensures totalFiles == old(totalFiles) && processedFiles == old(processedFiles)
      ensures progressLog == old(progressLog) + [Clamp01(p)]
    {
      progress := Clamp01(p);
      if newStatus.Some? {
        status := newStatus.value;
      }
      if done.Some? {
        completed := done.value;
      }
      progressLog := progressLog + [progress];
    }

    /** get_scan_status: a value copy; nothing changes. */
    method GetStatus() returns (s: Snapshot)
      ensures s == Current()
    {
      s := Snapshot(progress, Text(status), completed, totalFiles, processedFiles);
    }

    /** reset_scan_status: all five entries go back to their initial values. */
    method Reset()
      requires Valid()
      modifies this
      ensures Valid()
      ensures Current() == Initial
      ensures progressLog == old(progressLog)
    {
      progress := 0.0;
      status := Blank;
      completed := false;
      totalFiles := 0;
      processedFiles := 0;
    }
  }
}
