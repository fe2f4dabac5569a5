/** One executor running one job to completion (`src/scheduler/download_executor.rs`).
    The HTTP client, the filesystem and the clock are replaced by the answers they give. */
module Executors {
  import opened Prelude
  import opened Text
  import opened DownloadObjects

  /** The scheduler's handle on one executor: the ids waiting in its completion
      channel and whether its thread is still alive. */
  datatype DownloadExecutor = DownloadExecutor(pending: seq<nat>, running: bool)

  /** The handle of an executor whose thread has just been spawned. */
  function Spawned(): (e: DownloadExecutor)
    ensures e.pending == [] && e.running
  {
    DownloadExecutor([], true)
  }

  /** What the collaborators answer during one run. */
  datatype Collaborators = Collaborators(
    probe: Result<Option<u64>, string>,  // HEAD request: the content-length, if reported
    fetch: Result<(), string>,           // sending the GET request
    fileExists: string -> bool,          // `std::fs::metadata(path).is_ok()`
    stamp: string,                       // `Utc::now()` formatted as %Y_%b_%d_%H_%M_%S
    fileOpened: bool,                    // `OpenOptions::open` succeeded
    payload: bool,                       // reading the response bytes succeeded
    write: Result<(), string>)           // writing the bytes to the file

  const EncodingError := "Encoding Error: Failed to save the file"

  /** The file name `safely_open_the_file` settles on: the original name, or, when a
      file of that name exists in the directory, the name with `_<stamp>` inserted
      before its extension. It panics on a name without a `.`. */
  function UniqueName(downloadPath: string, fileName: string, fileExists: string -> bool, stamp: string)
    : (r: Outcome<string>)
    ensures r.Panics? <==> '.' !in fileName
    ensures r.Returns? && !fileExists(downloadPath + "/" + fileName) ==> r.value == fileName
    ensures r.Returns? && fileExists(downloadPath + "/" + fileName) ==>
              exists base, ext :: fileName == base + "." + ext && AfterLast(fileName, ".", ext)
                                  && r.value == base + "_" + stamp + "." + ext
  {
    AbsentChar(fileName, '.');
    match RSplitOnce(fileName, ".")
    case None => Panics
    case Some((filename, extension)) =>
      if fileExists(downloadPath + "/" + fileName) then
        Returns(filename + "_" + stamp + "." + extension)
      else
        Returns(fileName)
  }

  /** A colliding name is replaced by a different one. */
  lemma UniqueNameAvoidsCollision(downloadPath: string, fileName: string, fileExists: string -> bool, stamp: string)
    requires UniqueName(downloadPath, fileName, fileExists, stamp).Returns?
    requires fileExists(downloadPath + "/" + fileName)
    ensures UniqueName(downloadPath, fileName, fileExists, stamp).value != fileName
    ensures |UniqueName(downloadPath, fileName, fileExists, stamp).value| == |fileName| + |stamp| + 1
  {
  }

  /** With a stamp that holds no `.` (the clock's format never does), the new name
      keeps the extension: its last `.` splits it into the old base plus `_<stamp>`
      and the old extension. */
  lemma {:induction false} UniqueNameKeepsExtension(downloadPath: string, fileName: string, fileExists: string -> bool, stamp: string)
    requires '.' !in stamp
    requires UniqueName(downloadPath, fileName, fileExists, stamp).Returns?
    requires fileExists(downloadPath + "/" + fileName)
    ensures var (base, ext) := RSplitOnce(fileName, ".").value;
            RSplitOnce(UniqueName(downloadPath, fileName, fileExists, stamp).value, ".")
              == Some((base + "_" + stamp, ext))
  {
    var (base, ext) := RSplitOnce(fileName, ".").value;
    AfterLastCharFree(fileName, '.', ext);
    RSplitOnceChar(base + "_" + stamp, '.', ext);
  }

  /** `download_the_file`: it fetches the payload, settles on the file name, opens
      the file and writes the payload, and returns the final name. An error at any
      step is returned as its message; a name without a `.` or a file that cannot be
      opened makes the thread panic. */
  function DownloadTheFile(downloadPath: string, fileName: string, io: Collaborators)
    : (r: Outcome<Result<string, string>>)
    ensures io.fetch.Err? ==> r == Returns(Err(io.fetch.error))
    ensures io.fetch.Ok? ==>
              (r.Panics? <==> UniqueName(downloadPath, fileName, io.fileExists, io.stamp).Panics? || !io.fileOpened)
    ensures r.Returns? && r.value.Ok? ==>
              && io.fetch.Ok? && io.payload && io.write.Ok?
              && Returns(r.value.value) == UniqueName(downloadPath, fileName, io.fileExists, io.stamp)
    ensures io.fetch.Ok? && UniqueName(downloadPath, fileName, io.fileExists, io.stamp).Returns?
            && io.fileOpened && io.payload && io.write.Ok? ==>
              r == Returns(Ok(UniqueName(downloadPath, fileName, io.fileExists, io.stamp).value))
    ensures io.fetch.Ok? && r.Returns? && !io.payload ==> r.value == Err(EncodingError)
    ensures io.fetch.Ok? && r.Returns? && io.payload && io.write.Err? ==> r.value == Err(io.write.error)
  {
    match io.fetch
    case Err(e) => Returns(Err(e))
    case Ok(_) =>
      match UniqueName(downloadPath, fileName, io.fileExists, io.stamp)
      case Panics => Panics
      case Returns(finalName) =>
        if !io.fileOpened then Panics
        else if !io.payload then Returns(Err(EncodingError))
        else match io.write
          case Err(e) => Returns(Err(e))
          case Ok(_) => Returns(Ok(finalName))
  }

  /** What the thread spawned for job `id` leaves behind: the job record as it ends
      up, and what it sends on its completion channel. */
  function RunResult(id: nat, job: DownloadObject, io: Collaborators): (r: (DownloadObject, seq<nat>))
    ensures r.0.url == job.url && r.0.downloadPath == job.downloadPath
    ensures r.1 == [] || r.1 == [id]
    ensures r.1 == [id] && job.resultedErr.None? ==> Finished(r.0)
  {
    match io.probe
    case Err(e) => (job.(state := Failed, resultedErr := Some(e)), [id])
    case Ok(info) =>
      var probed := job.(totalSize := info);
      match DownloadTheFile(job.downloadPath, job.name, io)
      case Panics => (probed, [])
      case Returns(Err(e)) => (probed.(state := Failed, resultedErr := Some(e)), [id])
      case Returns(Ok(n)) => (probed.(state := Done, name := n), [id])
  }

  /** The body of the thread `DownloadExecutor::new` spawns for job `id`: it updates the
      job record step by step and sends `id` on its completion channel. `sent` is what
      the thread sends before it ends. */
  method Run(id: nat, job: DownloadObject, io: Collaborators) returns (final: DownloadObject, sent: seq<nat>)
    ensures (final, sent) == RunResult(id, job, io)
    // what the executor never changes
    ensures final.url == job.url && final.downloadPath == job.downloadPath
    // at most one completion signal, carrying the executor's own id
    ensures sent == [] || sent == [id]
    // probe failure: Failed with the probe's error, nothing downloaded
    ensures io.probe.Err? ==>
              final == job.(state := Failed, resultedErr := Some(io.probe.error)) && sent == [id]
    // probe success: the reported size is recorded whatever follows
    ensures io.probe.Ok? ==> final.totalSize == io.probe.value
    ensures io.probe.Ok? ==>
              var probed := job.(totalSize := io.probe.value);
              match DownloadTheFile(job.downloadPath, job.name, io)
              case Panics => final == probed && sent == []
              case Returns(Err(e)) => final == probed.(state := Failed, resultedErr := Some(e)) && sent == [id]
              case Returns(Ok(n)) => final == probed.(state := Done, name := n) && sent == [id]
    // the signal is sent exactly when the thread does not panic, and then the job is finished
    ensures sent == [id] <==> io.probe.Err? || DownloadTheFile(job.downloadPath, job.name, io).Returns?
    ensures sent == [] ==> final.state == job.state && final.resultedErr == job.resultedErr
    ensures sent == [id] && job.resultedErr.None? ==> Finished(final)
  {
    // snapshot of the fields the run reads
    var url, downloadPath, name := job.url, job.downloadPath, job.name;
    final := job;
    sent := [];

    match io.probe {
      case Ok(info) =>
        final := final.(totalSize := info);
      case Err(e) =>
        final := final.(resultedErr := Some(e), state := Failed);
        sent := sent + [id];
        assert sent == [id];
        return;
    }

    var downloadResult := DownloadTheFile(downloadPath, name, io);
    match downloadResult {
      case Panics =>
        return;
      case Returns(Err(e)) =>
        final := final.(resultedErr := Some(e), state := Failed);
        sent := sent + [id];
        assert sent == [id];
        return;
      case Returns(Ok(finalName)) =>
        final := final.(state := Done, name := finalName);
        sent := sent + [id];
        assert sent == [id];
    }
  }
}
