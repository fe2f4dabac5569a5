/** What holds of each queue of the scheduler (`src/scheduler/download_scheduler.rs`)
    and of its executor handles, and the completion signals the drain collects. */
module Queues {
  import opened Prelude
  import opened DownloadObjects
  import opened Executors
  import opened HashMaps

  /** A job in the waiting queue: as `add` created it. */
  ghost predicate Queued(job: DownloadObject)
  {
    job.state == Waiting && job.totalSize.None? && job.resultedErr.None?
  }

  /** An active job `id` and its executor handle: the channel holds nothing or the
      executor's own id, once; a live thread has sent nothing yet; a job whose id was
      sent is finished, any other one is still Active. */
  ghost predicate InFlight(id: nat, job: DownloadObject, ex: DownloadExecutor)
  {
    && SendsOwnId(id, ex)
    && (ex.running ==> ex.pending == [])
    && (ex.pending == [] ==> job.state == Active && job.resultedErr.None?)
    && (ex.pending != [] ==> Finished(job))
  }

  /** An executor's channel is empty or holds the id it was spawned with. */
  ghost predicate SendsOwnId(id: nat, e: DownloadExecutor)
  {
    e.pending == [] || e.pending == [id]
  }

  /** The waiting queue: one ticket per job, every job as `add` created it. */
  ghost predicate WaitingOk(w: seq<DownloadObject>, wt: seq<nat>)
  {
    |wt| == |w| && forall i :: 0 <= i < |w| ==> Queued(w[i])
  }

  /** The active map: the executor map has the same keys, there is a ticket per
      id, and each job is in flight with its executor. */
  ghost predicate ActiveOk(a: map<nat, DownloadObject>, at: map<nat, nat>, ex: map<nat, DownloadExecutor>)
  {
    && at.Keys == a.Keys
    && ex.Keys == a.Keys
    && forall id :: id in a ==> id in ex && InFlight(id, a[id], ex[id])
  }

  /** The done list: one ticket per job, every job finished. */
  ghost predicate DoneOk(d: seq<DownloadObject>, dt: seq<nat>)
  {
    |dt| == |d| && forall i :: 0 <= i < |d| ==> Finished(d[i])
  }

  /** Admission ids strictly increase and are all below `bound`, and so is every
      active key. */
  ghost predicate IdsOk(admitted: seq<nat>, active: set<nat>, bound: nat)
  {
    && (forall i, j :: 0 <= i < j < |admitted| ==> admitted[i] < admitted[j])
    && (forall i :: 0 <= i < |admitted| ==> admitted[i] < bound)
    && (forall id :: id in active ==> id < bound)
  }

  /** Appending a job as `add` creates it, with one more ticket, keeps the waiting
      queue as it should be. */
  lemma WaitingAdd(w: seq<DownloadObject>, wt: seq<nat>, job: DownloadObject, t: nat)
    requires WaitingOk(w, wt) && Queued(job)
    ensures WaitingOk(w + [job], wt + [t])
  {
  }

  /** Popping the front job of the waiting queue, and its ticket. */
  lemma WaitingPop(w: seq<DownloadObject>, wt: seq<nat>)
    requires WaitingOk(w, wt) && w != []
    ensures Queued(w[0]) && wt != [] && WaitingOk(w[1..], wt[1..])
  {
    forall i | 0 <= i < |w[1..]| ensures Queued(w[1..][i]) {
      assert w[1..][i] == w[i + 1];
    }
  }

  /** Replacing an active job and its executor handle by another pair in flight
      keeps the active map as it should be. */
  lemma ActiveUpdate(a: map<nat, DownloadObject>, at: map<nat, nat>, ex: map<nat, DownloadExecutor>,
                     id: nat, job: DownloadObject, e: DownloadExecutor)
    requires ActiveOk(a, at, ex) && id in a && InFlight(id, job, e)
    ensures ActiveOk(a[id := job], at, ex[id := e]) && a[id := job].Keys == a.Keys
  {
    assert a[id := job].Keys == a.Keys;
  }

  /** Inserting a new id with its ticket, a job and its executor in flight. */
  lemma ActiveInsert(a: map<nat, DownloadObject>, at: map<nat, nat>, ex: map<nat, DownloadExecutor>,
                     id: nat, ticket: nat, job: DownloadObject, e: DownloadExecutor)
    requires ActiveOk(a, at, ex) && id !in a && InFlight(id, job, e)
    ensures ActiveOk(a[id := job], at[id := ticket], ex[id := e]) && |a[id := job]| == |a| + 1
  {
  }

  /** An admission under an id no earlier admission reached. */
  lemma IdsAdmit(admitted: seq<nat>, active: set<nat>, id: nat)
    requires IdsOk(admitted, active, id)
    ensures id !in active && IdsOk(admitted + [id], active + {id}, id + 1)
  {
    var adm := admitted + [id];
    forall i, j | 0 <= i < j < |adm| ensures adm[i] < adm[j] {
      if j == |admitted| { assert adm[i] == admitted[i] < id; }
    }
  }

  /** A larger bound, or fewer active ids, keep the admission ids as they should be. */
  lemma IdsWeaken(admitted: seq<nat>, active: set<nat>, bound: nat, active': set<nat>, bound': nat)
    requires IdsOk(admitted, active, bound) && active' <= active && bound <= bound'
    ensures IdsOk(admitted, active', bound')
  {
  }

  /** The jobs of signalled executors are finished, so the done list stays finished
      when they are pushed onto it. */
  lemma DoneFinishAll(a: map<nat, DownloadObject>, at: map<nat, nat>, ex: map<nat, DownloadExecutor>,
                      d: seq<DownloadObject>, dt: seq<nat>, ids: seq<nat>)
    requires ActiveOk(a, at, ex) && DoneOk(d, dt)
    requires forall i :: 0 <= i < |ids| ==> ids[i] in a && ex[ids[i]].pending != []
    ensures DoneOk(d + Pick(a, ids), dt + Pick(at, ids))
  {
    var p := Pick(a, ids);
    forall i | 0 <= i < |d + p| ensures Finished((d + p)[i]) {
      if i >= |d| {
        assert (d + p)[i] == a[ids[i - |d|]];
        assert InFlight(ids[i - |d|], a[ids[i - |d|]], ex[ids[i - |d|]]);
      }
    }
  }

  /** Removing keys keeps the remaining jobs in flight with their executors. */
  lemma ActiveRemove(a: map<nat, DownloadObject>, at: map<nat, nat>, ex: map<nat, DownloadExecutor>, s: set<nat>)
    requires ActiveOk(a, at, ex)
    ensures ActiveOk(a - s, at - s, ex - s)
    ensures |a - s| <= |a|
  {
    assert (a - s).Keys <= a.Keys;
    SubsetCard((a - s).Keys, a.Keys);
  }

  /** A subset is no larger than its superset. */
  lemma {:induction false} SubsetCard(s: set<nat>, t: set<nat>)
    requires s <= t
    ensures |s| <= |t|
    decreases |t|
  {
    if s != {} {
      var x :| x in s;
      SubsetCard(s - {x}, t - {x});
    }
  }

  /** The ids whose executors have sent their completion signal. */
  ghost function Signalled(executors: map<nat, DownloadExecutor>): set<nat>
  {
    set id | id in executors && executors[id].pending != []
  }

  /** The ids among `visit`, in that order, whose executors have signalled. */
  ghost function Signals(ex: map<nat, DownloadExecutor>, visit: seq<nat>): (ids: seq<nat>)
    requires forall i :: 0 <= i < |visit| ==> visit[i] in ex
    ensures |ids| <= |visit|
    ensures forall i :: 0 <= i < |ids| ==> ids[i] in ex && ex[ids[i]].pending != []
  {
    if visit == [] then []
    else
      var front, last := visit[..|visit| - 1], visit[|visit| - 1];
      assert forall i :: 0 <= i < |front| ==> front[i] == visit[i];
      Signals(ex, front) + if ex[last].pending != [] then [last] else []
  }

  /** Visiting one more id extends the collected ids by it exactly when it has signalled. */
  lemma SignalsSnoc(ex: map<nat, DownloadExecutor>, visit: seq<nat>, i: nat)
    requires i < |visit| && forall j :: 0 <= j < |visit| ==> visit[j] in ex
    ensures Signals(ex, visit[..i + 1])
              == Signals(ex, visit[..i]) + if ex[visit[i]].pending != [] then [visit[i]] else []
  {
    assert visit[..i + 1][..i] == visit[..i];
  }

  /** Visiting distinct ids collects, once each, exactly those that have signalled. */
  lemma {:induction false} SignalsCollect(ex: map<nat, DownloadExecutor>, visit: seq<nat>)
    requires Distinct(visit) && forall i :: 0 <= i < |visit| ==> visit[i] in ex
    ensures Distinct(Signals(ex, visit))
    ensures forall k :: k in Signals(ex, visit) <==> k in visit && ex[k].pending != []
    decreases |visit|
  {
    if visit != [] {
      var front, last := visit[..|visit| - 1], visit[|visit| - 1];
      assert visit == front + [last];
      assert forall i :: 0 <= i < |front| ==> front[i] == visit[i];
      SignalsCollect(ex, front);
      assert last !in front;
      var s := Signals(ex, front);
      var t := Signals(ex, visit);
      if ex[last].pending != [] {
        assert t == s + [last];
        forall i, j | 0 <= i < j < |t| ensures t[i] != t[j] {
          if j == |s| { assert t[i] == s[i] && s[i] in s; }
        }
      } else {
        assert t == s;
      }
    }
  }

  /** The state of the first loop of `check_finished_threads` after visiting the
      first `i` ids of `visit`: `removed` holds the signalled ones among them, their
      jobs have left the active map `a0`, and they follow the done list `d0` in
      that order. */
  ghost predicate Retiring(a0: map<nat, DownloadObject>, d0: seq<DownloadObject>, ex: map<nat, DownloadExecutor>,
                           visit: seq<nat>, i: nat, removed: seq<nat>,
                           active: map<nat, DownloadObject>, done: seq<DownloadObject>)
  {
    && i <= |visit| && ex.Keys == a0.Keys && (forall k :: 0 <= k < |visit| ==> visit[k] in ex)
    && removed == Signals(ex, visit[..i])
    && active == a0 - Elems(removed)
    && done == d0 + Pick(a0, removed)
  }

  /** One iteration of that loop, at position `i` of the order `visit` of the
      executor map `ex`, whose keys are those of the active map `a0` at the start:
      `visit[i]` is still active with its job as it was. When its executor has
      signalled, its job leaves the active map for the back of the done list;
      either way the loop state holds at `i + 1`. */
  lemma {:induction false} RetireStep(a0: map<nat, DownloadObject>, d0: seq<DownloadObject>,
                                      ex: map<nat, DownloadExecutor>, visit: seq<nat>, i: nat, removed: seq<nat>,
                                      active: map<nat, DownloadObject>, done: seq<DownloadObject>)
    requires IsEnumeration(visit, ex.Keys) && ex.Keys == a0.Keys && i < |visit|
    requires Retiring(a0, d0, ex, visit, i, removed, active, done)
    ensures visit[i] in active && active[visit[i]] == a0[visit[i]]
    ensures ex[visit[i]].pending == [] ==> Retiring(a0, d0, ex, visit, i + 1, removed, active, done)
    ensures ex[visit[i]].pending != [] ==>
              Retiring(a0, d0, ex, visit, i + 1, removed + [visit[i]], active - {visit[i]}, done + [active[visit[i]]])
  {
    var key := visit[i];
    SignalsSnoc(ex, visit, i);
    MinusSnoc(a0, removed, key);
    PickSnoc(d0, a0, removed, key);
    var front := visit[..i];
    assert Distinct(front) by {
      forall p, q | 0 <= p < q < |front| ensures front[p] != front[q] {
        assert front[p] == visit[p] && front[q] == visit[q];
      }
    }
    SignalsCollect(ex, front);
    assert key !in front by {
      forall p | 0 <= p < |front| ensures front[p] != key {
        assert front[p] == visit[p];
      }
    }
  }

  /** A freshly spawned executor has not signalled. */
  lemma SignalledSpawn(ex: map<nat, DownloadExecutor>, id: nat)
    requires id !in ex
    ensures Signalled(ex[id := Spawned()]) == Signalled(ex)
  {
  }

  /** What the first part of an iteration of `run`'s loop does, from the queues
      `w0`, `a0`, `ex0`, `d0` and the admissions `adm0` with counter `counter`, to
      `w`, `a`, `ex`, `d` and `adm`: below the cap, the front waiting job becomes
      active under the counter, an id no active job has; then exactly the jobs whose
      executors had signalled before the iteration move, in the order `finished`,
      to the back of the done list, and every other active job stays as it was. */
  ghost predicate AdmittedAndDrained(w0: seq<DownloadObject>, a0: map<nat, DownloadObject>,
                                     ex0: map<nat, DownloadExecutor>, d0: seq<DownloadObject>,
                                     adm0: seq<nat>, counter: nat, maxJobs: nat,
                                     w: seq<DownloadObject>, a: map<nat, DownloadObject>,
                                     ex: map<nat, DownloadExecutor>, d: seq<DownloadObject>,
                                     adm: seq<nat>, finished: seq<nat>)
  {
    && AdmittedFront(w0, a0, adm0, counter, maxJobs, w, a, ex, adm)
    && Drained(a0, ex0, d0, a, d, finished)
    && OthersKept(w0, a0, ex0, counter, maxJobs, a, ex)
  }

  /** Below the cap, the front waiting job is active under the counter, an id no
      active job had, with a freshly spawned executor; otherwise nothing is admitted. */
  ghost predicate AdmittedFront(w0: seq<DownloadObject>, a0: map<nat, DownloadObject>, adm0: seq<nat>,
                           counter: nat, maxJobs: nat, w: seq<DownloadObject>, a: map<nat, DownloadObject>,
                           ex: map<nat, DownloadExecutor>, adm: seq<nat>)
  {
    && (|a0| < maxJobs && w0 != [] ==>
          && w == w0[1..] && adm == adm0 + [counter]
          && counter !in a0 && counter in a && a[counter] == w0[0].(state := Active)
          && counter in ex && ex[counter] == Spawned())
    && (!(|a0| < maxJobs && w0 != []) ==> w == w0 && adm == adm0)
  }

  /** Exactly the jobs whose executors had signalled move, in the order `finished`,
      to the back of the done list; every other earlier job stays active as it was. */
  ghost predicate Drained(a0: map<nat, DownloadObject>, ex0: map<nat, DownloadExecutor>, d0: seq<DownloadObject>,
                          a: map<nat, DownloadObject>, d: seq<DownloadObject>, finished: seq<nat>)
  {
    && IsEnumeration(finished, Signalled(ex0))
    && (forall i :: 0 <= i < |finished| ==> finished[i] in a0)
    && d == d0 + Pick(a0, finished)
    && (forall id :: id in a0 && id !in Signalled(ex0) ==> id in a && a[id] == a0[id])
    && (forall id :: id in Signalled(ex0) ==> id !in a)
  }

  /** Nothing else becomes active, and the executors that have not signalled keep
      their handles. */
  ghost predicate OthersKept(w0: seq<DownloadObject>, a0: map<nat, DownloadObject>, ex0: map<nat, DownloadExecutor>,
                             counter: nat, maxJobs: nat, a: map<nat, DownloadObject>, ex: map<nat, DownloadExecutor>)
  {
    && (forall id :: id in a ==> (id in a0 && id !in Signalled(ex0)) || (|a0| < maxJobs && w0 != [] && id == counter))
    && (forall id :: id in ex0 && id !in Signalled(ex0) ==> id in ex && ex[id] == ex0[id])
  }

  /** One iteration's admission followed by its drain: admitting job `id` (when
      `admits`) adds no signal, so the drain retires exactly the jobs whose executors
      had signalled before the iteration, with the values they had then, and leaves
      every other earlier job where it was. */
  lemma AdmitThenDrain(a0: map<nat, DownloadObject>, ex0: map<nat, DownloadExecutor>, d0: seq<DownloadObject>,
                       a1: map<nat, DownloadObject>, ex1: map<nat, DownloadExecutor>,
                       admits: bool, id: nat, finished: seq<nat>,
                       a: map<nat, DownloadObject>, d: seq<DownloadObject>)
    requires ex0.Keys == a0.Keys
    requires admits ==> id !in a0 && id in a1 && a1 == a0[id := a1[id]] && ex1 == ex0[id := Spawned()]
    requires !admits ==> a1 == a0 && ex1 == ex0
    requires IsEnumeration(finished, Signalled(ex1))
    requires a == a1 - Elems(finished) && d == d0 + Pick(a1, finished)
    ensures Signalled(ex1) == Signalled(ex0)
    ensures Drained(a0, ex0, d0, a, d, finished)
  {
    if admits {
      SignalledSpawn(ex0, id);
    }
    forall i | 0 <= i < |finished| ensures finished[i] in a0 && finished[i] in a1 {
      assert finished[i] in Signalled(ex0);
    }
    PickAgree(a1, a0, finished);
    forall k | k in a0 && k !in Signalled(ex0) ensures k in a && a[k] == a0[k] {
      assert k !in Elems(finished);
    }
    forall k | k in Signalled(ex0) ensures k !in a {
      assert k in finished;
      assert k in Elems(finished);
    }
  }

  /** The admission step and then the drain of one iteration, as `Admit` and
      `CheckFinishedThreads` leave the queues, make up `AdmittedAndDrained`. */
  lemma AdmitThenDrainEffect(w0: seq<DownloadObject>, a0: map<nat, DownloadObject>,
                             ex0: map<nat, DownloadExecutor>, d0: seq<DownloadObject>,
                             adm0: seq<nat>, counter: nat, maxJobs: nat, admits: bool,
                             w1: seq<DownloadObject>, a1: map<nat, DownloadObject>,
                             ex1: map<nat, DownloadExecutor>, adm1: seq<nat>,
                             a: map<nat, DownloadObject>, ex: map<nat, DownloadExecutor>,
                             d: seq<DownloadObject>, finished: seq<nat>)
    requires ex0.Keys == a0.Keys
    requires admits <==> |a0| < maxJobs && w0 != []
    requires admits ==>
               && w1 == w0[1..] && counter !in a0
               && a1 == a0[counter := w0[0].(state := Active)]
               && ex1 == ex0[counter := Spawned()] && adm1 == adm0 + [counter]
    requires !admits ==> w1 == w0 && a1 == a0 && ex1 == ex0 && adm1 == adm0
    requires IsEnumeration(finished, Signalled(ex1))
    requires a == a1 - Elems(finished) && ex == ex1 - Elems(finished) && d == d0 + Pick(a1, finished)
    ensures AdmittedAndDrained(w0, a0, ex0, d0, adm0, counter, maxJobs, w1, a, ex, d, adm1, finished)
  {
    FrontAdmitted(w0, a0, ex0, adm0, counter, maxJobs, admits, w1, a1, ex1, adm1, finished, a, ex);
    AdmitThenDrain(a0, ex0, d0, a1, ex1, admits, counter, finished, a, d);
    DrainFrame(w0, a0, ex0, a1, ex1, admits, counter, maxJobs, finished, a, ex);
  }

  /** The job admitted in an iteration has not signalled, so the drain leaves it active. */
  lemma FrontAdmitted(w0: seq<DownloadObject>, a0: map<nat, DownloadObject>,
                      ex0: map<nat, DownloadExecutor>, adm0: seq<nat>, counter: nat, maxJobs: nat,
                      admits: bool, w1: seq<DownloadObject>, a1: map<nat, DownloadObject>,
                      ex1: map<nat, DownloadExecutor>, adm1: seq<nat>, finished: seq<nat>,
                      a: map<nat, DownloadObject>, ex: map<nat, DownloadExecutor>)
    requires admits <==> |a0| < maxJobs && w0 != []
    requires admits ==>
               && w1 == w0[1..] && counter !in a0
               && a1 == a0[counter := w0[0].(state := Active)]
               && ex1 == ex0[counter := Spawned()] && adm1 == adm0 + [counter]
    requires !admits ==> w1 == w0 && adm1 == adm0
    requires IsEnumeration(finished, Signalled(ex1))
    requires a == a1 - Elems(finished) && ex == ex1 - Elems(finished)
    ensures AdmittedFront(w0, a0, adm0, counter, maxJobs, w1, a, ex, adm1)
  {
    if admits {
      assert counter !in Signalled(ex1);
      assert counter !in Elems(finished);
    }
  }

  /** After admission and drain, the active jobs are the earlier unsignalled ones and
      the admitted one, and every executor that has not signalled keeps its handle. */
  lemma DrainFrame(w0: seq<DownloadObject>, a0: map<nat, DownloadObject>, ex0: map<nat, DownloadExecutor>,
                   a1: map<nat, DownloadObject>, ex1: map<nat, DownloadExecutor>,
                   admits: bool, counter: nat, maxJobs: nat, finished: seq<nat>,
                   a: map<nat, DownloadObject>, ex: map<nat, DownloadExecutor>)
    requires ex0.Keys == a0.Keys
    requires admits ==> counter !in a0 && a1.Keys == a0.Keys + {counter} && ex1 == ex0[counter := Spawned()]
    requires !admits ==> a1 == a0 && ex1 == ex0
    requires Signalled(ex1) == Signalled(ex0) && IsEnumeration(finished, Signalled(ex1))
    requires admits <==> |a0| < maxJobs && w0 != []
    requires a == a1 - Elems(finished) && ex == ex1 - Elems(finished)
    ensures OthersKept(w0, a0, ex0, counter, maxJobs, a, ex)
  {
    forall id | id in a
      ensures (id in a0 && id !in Signalled(ex0)) || (admits && id == counter)
    {
      assert id !in Elems(finished);
    }
    forall id | id in ex0 && id !in Signalled(ex0)
      ensures id in ex && ex[id] == ex0[id]
    {
      assert id !in finished;
    }
  }

  /** Visiting every executor once collects an enumeration of the signalled ids. */
  lemma SignalsEnumerate(ex: map<nat, DownloadExecutor>, visit: seq<nat>)
    requires IsEnumeration(visit, ex.Keys)
    ensures IsEnumeration(Signals(ex, visit), Signalled(ex))
  {
    SignalsCollect(ex, visit);
    var s := Signals(ex, visit);
    forall k | k in Signalled(ex) ensures k in s {
      assert k in ex;
    }
    forall i | 0 <= i < |s| ensures s[i] in Signalled(ex) {
      assert s[i] in s;
    }
  }
}
