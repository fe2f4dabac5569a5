/** Ghost tickets that follow every job added to the scheduler
    (`src/scheduler/download_scheduler.rs`) through its queues. Jobs are values and
    two jobs may be equal, so each job added gets a ticket: the waiting queue, the
    active map and the done list hold tickets, and `place` records where each
    ticket is. */
module Tickets {
  import opened HashMaps

  /** Where a job added to the scheduler is: in the waiting queue, active under an
      id, in the done list, or in hand between `next` and `exec_in_thread`. */
  datatype Place = InWaiting | InActive(id: nat) | InDone | InHand

  /** The tickets of the jobs in the waiting queue, in queue order; of the active
      jobs, by id; of the done jobs, in list order; and the place of every ticket
      ever issued, indexed by ticket. */
  datatype Book = Book(waiting: seq<nat>, active: map<nat, nat>, done: seq<nat>, place: seq<Place>)

  /** The queue entry that ticket `t`, placed at `pl`, must be found at. */
  ghost predicate Locates(pl: Place, t: nat, tk: Book)
  {
    match pl
    case InWaiting => t in tk.waiting
    case InActive(id) => id in tk.active && tk.active[id] == t
    case InDone => t in tk.done
    case InHand => true
  }

  /** Every queue entry holds a distinct ticket that is placed there, and every
      ticket is found where it is placed. */
  ghost predicate Placed(tk: Book)
  {
    && Distinct(tk.waiting) && Distinct(tk.done)
    && (forall p :: 0 <= p < |tk.waiting| ==> tk.waiting[p] < |tk.place| && tk.place[tk.waiting[p]] == InWaiting)
    && (forall id {:trigger tk.active[id]} :: id in tk.active ==>
          tk.active[id] < |tk.place| && tk.place[tk.active[id]] == InActive(id))
    && (forall p :: 0 <= p < |tk.done| ==> tk.done[p] < |tk.place| && tk.place[tk.done[p]] == InDone)
    && (forall t {:trigger Locates(tk.place[t], t, tk)} :: 0 <= t < |tk.place| ==> Locates(tk.place[t], t, tk))
  }

  /** No job is in hand. */
  ghost predicate NoneInHand(place: seq<Place>)
  {
    forall t :: 0 <= t < |place| ==> place[t] != InHand
  }

  /** Job `ticket` is in hand, and it is the only one. */
  ghost predicate InHandOnly(tk: Book, ticket: nat)
  {
    && Placed(tk)
    && ticket < |tk.place| && tk.place[ticket] == InHand
    && forall t :: 0 <= t < |tk.place| && t != ticket ==> tk.place[t] != InHand
  }

  /** Every job is in exactly one queue: waiting, active under exactly one id, or
      done, as its place says, and in no other. */
  lemma {:induction false} PlacedExactlyOne(tk: Book, t: nat)
    requires Placed(tk) && NoneInHand(tk.place) && t < |tk.place|
    ensures t in tk.waiting <==> tk.place[t] == InWaiting
    ensures forall id :: id in tk.active && tk.active[id] == t <==> tk.place[t] == InActive(id)
    ensures t in tk.done <==> tk.place[t] == InDone
    ensures t in tk.waiting || t in tk.active.Values || t in tk.done
  {
    assert Locates(tk.place[t], t, tk);
    if t in tk.waiting {
      var p :| 0 <= p < |tk.waiting| && tk.waiting[p] == t;
    }
    if t in tk.done {
      var p :| 0 <= p < |tk.done| && tk.done[p] == t;
    }
    if tk.place[t].InActive? {
      assert tk.active[tk.place[t].id] == t;
    }
  }

  /** `add`: a new ticket at the back of the waiting queue. */
  ghost function Added(tk: Book): (r: Book)
    ensures r.active == tk.active && r.done == tk.done
  {
    tk.(waiting := tk.waiting + [|tk.place|], place := tk.place + [InWaiting])
  }

  /** `next`: the front ticket of the waiting queue taken in hand. */
  ghost function Popped(tk: Book): (r: Book)
    requires tk.waiting != [] && tk.waiting[0] < |tk.place|
    ensures r.active == tk.active && r.done == tk.done && r.waiting == tk.waiting[1..]
  {
    tk.(waiting := tk.waiting[1..], place := tk.place[tk.waiting[0] := InHand])
  }

  /** `exec_in_thread`: the ticket in hand becomes active under `id`. */
  ghost function Admitted(tk: Book, ticket: nat, id: nat): (r: Book)
    requires ticket < |tk.place|
    ensures r.waiting == tk.waiting && r.done == tk.done && r.active == tk.active[id := ticket]
  {
    tk.(active := tk.active[id := ticket], place := tk.place[ticket := InActive(id)])
  }

  /** The places after the jobs active under `ids` have finished, one after the other. */
  ghost function FinishPlaces(place: seq<Place>, a: map<nat, nat>, ids: seq<nat>): (r: seq<Place>)
    requires forall i :: 0 <= i < |ids| ==> ids[i] in a
    ensures |r| == |place|
  {
    if ids == [] then place
    else
      var front := ids[..|ids| - 1];
      assert forall i :: 0 <= i < |front| ==> front[i] == ids[i];
      var p := FinishPlaces(place, a, front);
      var t := a[ids[|ids| - 1]];
      if t < |p| then p[t := InDone] else p
  }

  /** `check_finished_threads`: the tickets of the jobs active under `ids` leave the
      active map for the back of the done list, in that order. */
  ghost function Retired(tk: Book, ids: seq<nat>): (r: Book)
    requires forall i :: 0 <= i < |ids| ==> ids[i] in tk.active
    ensures r.waiting == tk.waiting
  {
    tk.(active := tk.active - Elems(ids), done := tk.done + Pick(tk.active, ids),
        place := FinishPlaces(tk.place, tk.active, ids))
  }

  lemma PlaceAdd(tk: Book)
    requires Placed(tk)
    ensures Placed(Added(tk))
  {
    var tk' := Added(tk);
    var w' := tk'.waiting;
    forall i, j | 0 <= i < j < |w'| ensures w'[i] != w'[j] {
      if j == |tk.waiting| { assert w'[i] == tk.waiting[i] < |tk.place|; }
    }
    forall t | 0 <= t < |tk'.place| ensures Locates(tk'.place[t], t, tk') {
      if t < |tk.place| {
        assert tk'.place[t] == tk.place[t] && Locates(tk.place[t], t, tk);
      } else {
        assert w'[|tk.waiting|] == t;
      }
    }
  }

  lemma PlacePop(tk: Book)
    requires Placed(tk) && tk.waiting != []
    ensures tk.waiting[0] < |tk.place| && tk.place[tk.waiting[0]] == InWaiting
    ensures Placed(Popped(tk))
  {
    var t0 := tk.waiting[0];
    var tk' := Popped(tk);
    var w' := tk'.waiting;
    forall p | 0 <= p < |w'| ensures w'[p] < |tk'.place| && tk'.place[w'[p]] == InWaiting {
      assert w'[p] == tk.waiting[p + 1] != t0;
    }
    forall t | 0 <= t < |tk'.place| ensures Locates(tk'.place[t], t, tk') {
      if t != t0 {
        assert Locates(tk.place[t], t, tk);
        if tk.place[t] == InWaiting {
          var p :| 0 <= p < |tk.waiting| && tk.waiting[p] == t;
          assert p != 0 && w'[p - 1] == t;
        }
      }
    }
  }

  /** Taking the front waiting job in hand when none was in hand leaves exactly
      that one in hand. */
  lemma HandPop(tk: Book)
    requires Placed(tk) && NoneInHand(tk.place) && tk.waiting != []
    ensures tk.waiting[0] < |tk.place|
    ensures InHandOnly(Popped(tk), tk.waiting[0])
  {
    PlacePop(tk);
  }

  /** Making the only job in hand active leaves none in hand. */
  lemma HandAdmit(tk: Book, t0: nat, id: nat)
    requires InHandOnly(tk, t0) && id !in tk.active
    ensures Placed(Admitted(tk, t0, id)) && NoneInHand(Admitted(tk, t0, id).place)
  {
    PlaceAdmit(tk, t0, id);
  }

  lemma PlaceAdmit(tk: Book, t0: nat, id: nat)
    requires Placed(tk) && t0 < |tk.place| && tk.place[t0] == InHand && id !in tk.active
    ensures Placed(Admitted(tk, t0, id))
  {
    var tk' := Admitted(tk, t0, id);
    forall k | k in tk'.active ensures tk'.active[k] < |tk'.place| && tk'.place[tk'.active[k]] == InActive(k) {
      if k != id { assert tk.active[k] != t0; }
    }
    forall t | 0 <= t < |tk'.place| ensures Locates(tk'.place[t], t, tk') {
      if t != t0 { assert Locates(tk.place[t], t, tk); }
    }
  }

  /** Retiring one active id keeps every job placed. */
  lemma PlaceFinish(tk: Book, id: nat)
    requires Placed(tk) && id in tk.active
    ensures Placed(tk.(place := tk.place[tk.active[id] := InDone], active := tk.active - {id},
                       done := tk.done + [tk.active[id]]))
  {
    var t0 := tk.active[id];
    var tk' := tk.(place := tk.place[t0 := InDone], active := tk.active - {id}, done := tk.done + [t0]);
    var d, d' := tk.done, tk'.done;
    forall i, j | 0 <= i < j < |d'| ensures d'[i] != d'[j] {
      if j == |d| { assert d'[i] == d[i] && tk.place[d[i]] == InDone; }
    }
    forall p | 0 <= p < |tk.waiting| ensures tk.waiting[p] < |tk'.place| && tk'.place[tk.waiting[p]] == InWaiting {
      assert tk.place[tk.waiting[p]] == InWaiting;
    }
    forall k | k in tk'.active ensures tk'.active[k] < |tk'.place| && tk'.place[tk'.active[k]] == InActive(k) {
      assert tk.active[k] != t0;
    }
    forall p | 0 <= p < |d'| ensures d'[p] < |tk'.place| && tk'.place[d'[p]] == InDone {
      if p < |d| { assert d'[p] == d[p] && tk.place[d[p]] == InDone; }
    }
    forall t | 0 <= t < |tk'.place| ensures Locates(tk'.place[t], t, tk') {
      if t != t0 {
        assert Locates(tk.place[t], t, tk);
        if tk.place[t] == InDone {
          var p :| 0 <= p < |d| && d[p] == t;
          assert d'[p] == t;
        }
      } else {
        assert d'[|d|] == t;
      }
    }
  }

  /** Retiring the distinct active ids `ids` one after the other keeps every job placed. */
  lemma {:induction false} PlaceFinishAll(tk: Book, ids: seq<nat>)
    requires Placed(tk) && NoneInHand(tk.place)
    requires Distinct(ids) && forall i :: 0 <= i < |ids| ==> ids[i] in tk.active
    ensures Placed(Retired(tk, ids)) && NoneInHand(Retired(tk, ids).place)
    decreases |ids|
  {
    if ids == [] {
      assert tk.active - Elems(ids) == tk.active;
      assert tk.done + Pick(tk.active, ids) == tk.done;
      assert Retired(tk, ids) == tk;
    } else {
      var front, x := ids[..|ids| - 1], ids[|ids| - 1];
      assert ids == front + [x];
      assert forall i :: 0 <= i < |front| ==> front[i] == ids[i];
      assert Distinct(front);
      PlaceFinishAll(tk, front);
      assert x !in Elems(front);
      var mid := Retired(tk, front);
      PlaceFinish(mid, x);
      MinusSnoc(tk.active, front, x);
      PickSnoc(tk.done, tk.active, front, x);
    }
  }
}
