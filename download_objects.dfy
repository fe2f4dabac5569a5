/** The job record and its state machine (`src/scheduler/download_object.rs`). */
module DownloadObjects {
  import opened Prelude

  /** Where a job is in its life: Waiting, then Active, then Done or Failed. */
  datatype State = Waiting | Active | Done | Failed

  /** `impl Default for State`: a job starts at the beginning of its life, Waiting. */
  function DefaultState(): (s: State)
    ensures s == Waiting && StateToString(s) == "Waiting"
  {
    Waiting
  }

  /** `impl ToString for State`. */
  function StateToString(s: State): (r: string)
    ensures |r| > 0
  {
    match s
    case Waiting => "Waiting"
    case Active => "Active"
    case Done => "Done"
    case Failed => "Failed"
  }

  /** The four states are rendered as four distinct strings, so a listing line
      tells which state its job is in. */
  lemma StateToStringInjective(a: State, b: State)
    ensures StateToString(a) == StateToString(b) <==> a == b
  {
    if a != b {
      assert StateToString(a)[0] != StateToString(b)[0] || |StateToString(a)| != |StateToString(b)|;
    }
  }

  /** One download: the `DownloadObject` record. */
  datatype DownloadObject = DownloadObject(
    name: string,
    downloadPath: string,
    url: string,
    state: State,
    totalSize: Option<u64>,
    resultedErr: Option<string>)

  /** `#[derive(Default)]` on `DownloadObject`: every field takes its type's default,
      so a default record is an unnamed waiting job with no size and no error, and
      not one an executor has finished. */
  function DefaultDownloadObject(): (job: DownloadObject)
    ensures job.name == "" && job.downloadPath == "" && job.url == ""
    ensures job.state == Waiting && job.totalSize == None && job.resultedErr == None
    ensures !Finished(job)
  {
    DownloadObject("", "", "", DefaultState(), None, None)
  }

  /** A record as its executor leaves it when it reports completion: Done with
      no error, or Failed with one. */
  ghost predicate Finished(job: DownloadObject)
  {
    || (job.state == Done && job.resultedErr.None?)
    || (job.state == Failed && job.resultedErr.Some?)
  }
}
