/** What the scheduler keeps true between two iterations of its loop
    (`src/scheduler/download_scheduler.rs`), stated on the values of its fields, and
    how each of its steps keeps it. */
module Ledger {
  import opened Prelude
  import opened DownloadObjects
  import opened Executors
  import opened HashMaps
  import opened Tickets
  import opened Queues

  /** The invariant of the scheduler with waiting queue `w`, active map `a`,
      executor map `ex`, done list `d`, tickets `tk`, the ids `admitted` so far,
      all below `bound`, and the cap `maxJobs`. */
  ghost predicate Consistent(w: seq<DownloadObject>, a: map<nat, DownloadObject>, ex: map<nat, DownloadExecutor>,
                             d: seq<DownloadObject>, tk: Book, admitted: seq<nat>, bound: nat, maxJobs: nat)
  {
    match tk
    case Book(waiting, active, done, place) =>
      && WaitingOk(w, waiting)
      && ActiveOk(a, active, ex)
      && DoneOk(d, done)
      && Placed(tk) && NoneInHand(place)
      && IdsOk(admitted, a.Keys, bound)
      && |a| <= maxJobs
  }

  /** The invariant between `next` and `exec_in_thread`: job `ticket` is in hand and
      the active map is below the cap. */
  ghost predicate Holding(w: seq<DownloadObject>, a: map<nat, DownloadObject>, ex: map<nat, DownloadExecutor>,
                          d: seq<DownloadObject>, tk: Book, admitted: seq<nat>, bound: nat, maxJobs: nat,
                          ticket: nat)
  {
    match tk
    case Book(waiting, active, done, _) =>
      && WaitingOk(w, waiting)
      && ActiveOk(a, active, ex)
      && DoneOk(d, done)
      && InHandOnly(tk, ticket)
      && IdsOk(admitted, a.Keys, bound)
      && |a| < maxJobs
  }

  /** The scheduler `new` creates satisfies the invariant. */
  lemma InitialConsistent(maxJobs: nat)
    ensures Consistent([], map[], map[], [], Book([], map[], [], []), [], 0, maxJobs)
  {
  }

  /** `add` keeps the invariant. */
  lemma AddKeeps(w: seq<DownloadObject>, a: map<nat, DownloadObject>, ex: map<nat, DownloadExecutor>,
                 d: seq<DownloadObject>, tk: Book, admitted: seq<nat>, bound: nat, maxJobs: nat, job: DownloadObject)
    requires Consistent(w, a, ex, d, tk, admitted, bound, maxJobs) && Queued(job)
    ensures Consistent(w + [job], a, ex, d, Added(tk), admitted, bound, maxJobs)
  {
    PlaceAdd(tk);
    WaitingAdd(w, tk.waiting, job, |tk.place|);
  }

  /** `next` taking the front job in hand, below the cap, keeps the invariant
      between `next` and `exec_in_thread`. */
  lemma PopKeeps(w: seq<DownloadObject>, a: map<nat, DownloadObject>, ex: map<nat, DownloadExecutor>,
                 d: seq<DownloadObject>, tk: Book, admitted: seq<nat>, bound: nat, maxJobs: nat)
    requires Consistent(w, a, ex, d, tk, admitted, bound, maxJobs) && |a| < maxJobs && w != []
    ensures Queued(w[0]) && tk.waiting != [] && tk.waiting[0] < |tk.place|
    ensures Holding(w[1..], a, ex, d, Popped(tk), admitted, bound, maxJobs, tk.waiting[0])
  {
    WaitingPop(w, tk.waiting);
    HandPop(tk);
  }

  /** `exec_in_thread` under an id no earlier admission used makes the job in hand
      active with a freshly spawned executor, and restores the invariant with the
      id recorded as admitted. */
  lemma AdmitKeeps(w: seq<DownloadObject>, a: map<nat, DownloadObject>, ex: map<nat, DownloadExecutor>,
                   d: seq<DownloadObject>, tk: Book, admitted: seq<nat>, maxJobs: nat, ticket: nat,
                   id: nat, job: DownloadObject)
    requires Holding(w, a, ex, d, tk, admitted, id, maxJobs, ticket) && Queued(job)
    ensures id !in a && ticket < |tk.place|
    ensures Consistent(w, a[id := job.(state := Active)], ex[id := Spawned()], d, Admitted(tk, ticket, id),
                       admitted + [id], id + 1, maxJobs)
  {
    IdsAdmit(admitted, a.Keys, id);
    HandAdmit(tk, ticket, id);
    ActiveInsert(a, tk.active, ex, id, ticket, job.(state := Active), Spawned());
    assert a[id := job.(state := Active)].Keys == a.Keys + {id};
  }

  /** Advancing the counter keeps the invariant: every admitted id stays below it. */
  lemma BoundGrows(w: seq<DownloadObject>, a: map<nat, DownloadObject>, ex: map<nat, DownloadExecutor>,
                   d: seq<DownloadObject>, tk: Book, admitted: seq<nat>, bound: nat, maxJobs: nat)
    requires Consistent(w, a, ex, d, tk, admitted, bound, maxJobs)
    ensures Consistent(w, a, ex, d, tk, admitted, bound + 1, maxJobs)
  {
    IdsWeaken(admitted, a.Keys, bound, a.Keys, bound + 1);
  }

  /** The drain of `check_finished_threads` keeps the invariant: the jobs of the
      distinct signalled ids `ids` leave the active map and its executor map for the
      back of the done list, in the order of `ids`. */
  lemma DrainKeeps(w: seq<DownloadObject>, a: map<nat, DownloadObject>, ex: map<nat, DownloadExecutor>,
                   d: seq<DownloadObject>, tk: Book, admitted: seq<nat>, bound: nat, maxJobs: nat, ids: seq<nat>)
    requires Consistent(w, a, ex, d, tk, admitted, bound, maxJobs)
    requires Distinct(ids) && forall i :: 0 <= i < |ids| ==> ids[i] in a && ex[ids[i]].pending != []
    ensures forall i :: 0 <= i < |ids| ==> ids[i] in tk.active
    ensures Consistent(w, a - Elems(ids), ex - Elems(ids), d + Pick(a, ids), Retired(tk, ids),
                       admitted, bound, maxJobs)
  {
    PlaceFinishAll(tk, ids);
    DoneFinishAll(a, tk.active, ex, d, tk.done, ids);
    ActiveRemove(a, tk.active, ex, Elems(ids));
    IdsWeaken(admitted, a.Keys, bound, (a - Elems(ids)).Keys, bound);
  }

  /** The drain of `check_finished_threads` along the order `visit` the executor map is
      iterated in: the ids collected are the signalled ones, each once, all active, and
      the state `a'`, `ex'`, `d'`, `tk'` that retiring them leaves keeps the invariant. */
  lemma DrainAlong(w: seq<DownloadObject>, a: map<nat, DownloadObject>, ex: map<nat, DownloadExecutor>,
                   d: seq<DownloadObject>, tk: Book, admitted: seq<nat>, bound: nat, maxJobs: nat, visit: seq<nat>,
                   a': map<nat, DownloadObject>, ex': map<nat, DownloadExecutor>, d': seq<DownloadObject>, tk': Book)
    requires Consistent(w, a, ex, d, tk, admitted, bound, maxJobs) && IsEnumeration(visit, ex.Keys)
    requires forall i :: 0 <= i < |visit| ==> visit[i] in ex
    requires a' == a - Elems(Signals(ex, visit))
    requires ex' == ex - Elems(Signals(ex, visit))
    requires d' == d + Pick(a, Signals(ex, visit))
    requires tk' == Retired(tk, Signals(ex, visit))
    ensures IsEnumeration(Signals(ex, visit), Signalled(ex))
    ensures Consistent(w, a', ex', d', tk', admitted, bound, maxJobs)
  {
    var ids := Signals(ex, visit);
    SignalsCollect(ex, visit);
    SignalsEnumerate(ex, visit);
    forall i | 0 <= i < |ids| ensures ids[i] in a && ex[ids[i]].pending != [] {
      assert ids[i] in ids;
    }
    DrainKeeps(w, a, ex, d, tk, admitted, bound, maxJobs, ids);
  }

  /** An executor thread running to its end keeps the invariant when it leaves its
      job and handle in flight. */
  lemma RunKeeps(w: seq<DownloadObject>, a: map<nat, DownloadObject>, ex: map<nat, DownloadExecutor>,
                 d: seq<DownloadObject>, tk: Book, admitted: seq<nat>, bound: nat, maxJobs: nat,
                 id: nat, job: DownloadObject, e: DownloadExecutor)
    requires Consistent(w, a, ex, d, tk, admitted, bound, maxJobs) && id in a && InFlight(id, job, e)
    ensures Consistent(w, a[id := job], ex[id := e], d, tk, admitted, bound, maxJobs)
  {
    ActiveUpdate(a, tk.active, ex, id, job, e);
  }
}
