/** The scheduler (`src/scheduler/download_scheduler.rs`): the waiting, active and done
    queues, admission under the concurrency cap, the drain of completion signals, and
    the dispatch of commands. Threads, channels and sleeping are replaced by the inputs
    of one loop iteration (`Tick`) and by an environment step (`RunExecutor`) that
    stands for an executor thread running to its end. */
module Schedulers {
  import opened Prelude
  import opened DownloadObjects
  import Commands
  import opened Executors
  import opened HashMaps
  import opened Tickets
  import opened Queues
  import opened Ledger
  import opened Listings

  const FileAdded := "File added"
  const FileNotFound := "This file is not found!!"

  /** The result of one loop iteration of `run`. */
  datatype TickReply =
    | Slept                          // no command was waiting: the thread sleeps
    | Replied(lines: seq<string>)    // the reply sent back to the server
    | Panicked                       // dispatching the command panicked the thread

  /** The reply `run` sends back for a command, from the queues as they are when the
      command is handled and an order of the active map's keys. */
  function CommandReply(command: Commands.ManagerCommands, waiting: seq<DownloadObject>,
                        active: map<nat, DownloadObject>, done: seq<DownloadObject>, order: seq<nat>)
    : (list: Outcome<seq<string>>)
    requires forall i :: 0 <= i < |order| ==> order[i] in active
    ensures command.Cancel? || command.Start? ==> list == Returns([])
    ensures command.Add? ==> (list.Panics? <==> DeriveName(command.url, command.customName).Panics?)
    ensures command.Info? && list.Returns? ==> |list.value| == 1
  {
    match command
    case Add(url, customName, _) =>
      if DeriveName(url, customName).Panics? then Panics else Returns([FileAdded])
    case List(All) =>
      var w, a, d := RenderJobs(waiting), RenderJobs(Pick(active, order)), RenderJobs(done);
      if w.Panics? || a.Panics? || d.Panics? then Panics else Returns([w.value, a.value, d.value])
    case List(Active) =>
      var a := RenderJobs(Pick(active, order));
      if a.Panics? then Panics else Returns([a.value])
    case List(Done) =>
      var d := RenderJobs(done);
      if d.Panics? then Panics else Returns([d.value])
    case Info(filename) =>
      (match FindInfo(done + waiting + Pick(active, order), filename)
       case Panics => Panics
       case Returns(Some(line)) => Returns([line])
       case Returns(None) => Returns([FileNotFound]))
    case Cancel(_) => Returns([])
    case Start(_, _) => Returns([])
  }

  /** Handling `command` (if any) with the queues `w0`, `active` and `done` and the
      scheduler's own `path` gives `reply` and leaves the waiting queue `w`; `order`
      is the order the active map's keys were visited in. */
  ghost predicate Responded(command: Option<Commands.Manager>, w0: seq<DownloadObject>, w: seq<DownloadObject>,
                            active: map<nat, DownloadObject>, done: seq<DownloadObject>, path: string,
                            order: seq<nat>, reply: TickReply)
  {
    && IsEnumeration(order, active.Keys)
    && (command.None? ==> reply == Slept && w == w0)
    && (command.Some? ==>
          var c := command.value.subcommands;
          var list := CommandReply(c, w0, active, done, order);
          && reply == (if list.Panics? then Panicked else Replied(list.value))
          && (!c.Add? ==> w == w0)
          && (c.Add? ==>
                var name := DeriveName(c.url, c.customName);
                && (name.Panics? ==> w == w0)
                && (name.Returns? ==>
                      w == w0 + [DownloadObject(name.value, c.customDownloadPath.UnwrapOr(path), c.url, Waiting, None, None)])))
  }

  /** What handling a command does, case by case: the waiting queue gains at most
      one job, at its back, and only from an `Add`; no command means the thread
      sleeps; `Cancel` and `Start` reply nothing; `Add` replies "File added" unless
      naming the job panics. */
  lemma RespondedCases(command: Option<Commands.Manager>, w0: seq<DownloadObject>, w: seq<DownloadObject>,
                       active: map<nat, DownloadObject>, done: seq<DownloadObject>, path: string,
                       order: seq<nat>, reply: TickReply)
    requires Responded(command, w0, w, active, done, path, order, reply)
    ensures w0 <= w && |w| <= |w0| + 1
    ensures command.None? || !command.value.subcommands.Add? ==> w == w0
    ensures command.None? <==> reply == Slept
    ensures command.Some? && (command.value.subcommands.Cancel? || command.value.subcommands.Start?) ==>
              reply == Replied([])
    ensures command.Some? && command.value.subcommands.Add? ==>
              var c := command.value.subcommands;
              reply == if DeriveName(c.url, c.customName).Panics? then Panicked else Replied([FileAdded])
  {
  }

  /** The thread of active job `id` running to its end leaves the job and its
      handle in flight, with the channel holding what the thread sent. */
  method RunToEnd(id: nat, job: DownloadObject, io: Collaborators) returns (final: DownloadObject, sent: seq<nat>)
    requires job.state == Active && job.resultedErr.None?
    ensures (final, sent) == RunResult(id, job, io)
    ensures final.url == job.url && final.downloadPath == job.downloadPath
    ensures InFlight(id, final, DownloadExecutor(sent, false))
  {
    final, sent := Run(id, job, io);
  }

  /** The first loop of `check_finished_threads`: visiting the executors in the
      order `visit`, every job whose executor has signalled is removed from the
      active map and pushed onto the done list. */
  method RetireLoop(active0: map<nat, DownloadObject>, done0: seq<DownloadObject>,
                    executors: map<nat, DownloadExecutor>, visit: seq<nat>)
    returns (active: map<nat, DownloadObject>, done: seq<DownloadObject>, toBeRemoved: seq<nat>)
    requires IsEnumeration(visit, executors.Keys) && executors.Keys == active0.Keys
    requires forall id :: id in executors ==> SendsOwnId(id, executors[id])
    ensures toBeRemoved == Signals(executors, visit)
    ensures forall j :: 0 <= j < |toBeRemoved| ==> toBeRemoved[j] in active0
    ensures active == active0 - Elems(toBeRemoved)
    ensures done == done0 + Pick(active0, toBeRemoved)
  {
    active, done, toBeRemoved := active0, done0, [];
    for i := 0 to |visit|
      invariant Retiring(active0, done0, executors, visit, i, toBeRemoved, active, done)
    {
      RetireStep(active0, done0, executors, visit, i, toBeRemoved, active, done);
      var key := visit[i];
      var de := executors[key];
      if de.pending != [] {
        // `try_recv` yields the id the executor sent: its own
        var id := de.pending[0];
        assert SendsOwnId(key, de);
        var downDone := active[id];
        active := active - {id};
        toBeRemoved := toBeRemoved + [id];
        done := done + [downDone];
      }
    }
    assert visit[..|visit|] == visit;
  }

  /** Waiting jobs have no size yet, so rendering a non-empty waiting queue, as a
      `List All` command does, always panics. */
  lemma WaitingListingPanics(w: seq<DownloadObject>, a: map<nat, DownloadObject>, ex: map<nat, DownloadExecutor>,
                             d: seq<DownloadObject>, tk: Book, admitted: seq<nat>, bound: nat, maxJobs: nat)
    requires Consistent(w, a, ex, d, tk, admitted, bound, maxJobs) && w != []
    ensures RenderJobs(w) == Panics
  {
    assert Queued(w[0]);
  }

  /** Searching a queue and then a map in some order of its keys finds no job of the
      name exactly when neither holds one, whatever the order. */
  lemma NoneNamedPick(front: seq<DownloadObject>, m: map<nat, DownloadObject>, order: seq<nat>, name: string)
    requires IsEnumeration(order, m.Keys)
    ensures NoneNamed(front + Pick(m, order), name) <==>
              NoneNamed(front, name) && forall id :: id in m ==> m[id].name != name
  {
    var all := front + Pick(m, order);
    if NoneNamed(all, name) {
      forall i | 0 <= i < |front| ensures front[i].name != name {
        assert all[i] == front[i];
      }
      forall id | id in m ensures m[id].name != name {
        var j :| 0 <= j < |order| && order[j] == id;
        assert all[|front| + j] == m[id];
      }
    }
  }

  class Scheduler {
    var waitingList: seq<DownloadObject>
    var activeList: map<nat, DownloadObject>
    var doneList: seq<DownloadObject>
    var downloadExecutor: map<nat, DownloadExecutor>
    var downloadPath: string
    var maxJobs: nat
    /** `run`'s loop counter, kept across iterations. */
    var idCounter: nat
    /** The scheduler thread has panicked and runs no more iterations. */
    var halted: bool

    /** One ticket per job ever added, following the job through the queues. */
    ghost var tickets: Book
    /** Every id a job was admitted under, in admission order. */
    ghost var admitted: seq<nat>

    /** What `run` keeps true between iterations. */
    ghost predicate Valid()
      reads this
    {
      Consistent(waitingList, activeList, downloadExecutor, doneList, tickets, admitted, idCounter, maxJobs)
    }

    /** `Scheduler::new`, with `run`'s counter starting at 0. */
    constructor (maxJobs: nat, downloadPath: string)
      ensures Valid() && !halted
      ensures this.maxJobs == maxJobs && this.downloadPath == downloadPath
      ensures waitingList == [] && activeList == map[] && doneList == [] && downloadExecutor == map[]
      ensures idCounter == 0 && admitted == []
    {
      this.maxJobs := maxJobs;
      this.downloadPath := downloadPath;
      waitingList, activeList, doneList, downloadExecutor := [], map[], [], map[];
      idCounter, halted := 0, false;
      tickets, admitted := Book([], map[], [], []), [];
      InitialConsistent(maxJobs);
    }

    /** `add`: append a Waiting job for `url` at the back of the waiting queue. */
    method Add(customName: Option<string>, downloadPath: string, url: string) returns (r: Outcome<()>)
      requires Valid()
      modifies this`waitingList, this`tickets
      ensures Valid()
      ensures DeriveName(url, customName).Panics? ==> r == Panics && waitingList == old(waitingList)
      ensures DeriveName(url, customName).Returns? ==>
                && r == Returns(())
                && waitingList == old(waitingList)
                     + [DownloadObject(DeriveName(url, customName).value, downloadPath, url, Waiting, None, None)]
    {
      var name := DeriveName(url, customName);
      if name.Panics? {
        return Panics;
      }
      var job := DownloadObject(name.value, downloadPath, url, State.Waiting, None, None);
      AddKeeps(waitingList, activeList, downloadExecutor, doneList, tickets, admitted, idCounter, maxJobs, job);
      waitingList := waitingList + [job];
      tickets := Added(tickets);
      r := Returns(());
    }

    /** `next`: the front of the waiting queue, if the active map is below the cap. */
    method Next() returns (obj: Option<DownloadObject>, ghost ticket: nat)
      requires Valid()
      modifies this`waitingList, this`tickets
      ensures obj.Some? <==> |activeList| < maxJobs && old(waitingList) != []
      ensures obj.Some? ==>
                && obj.value == old(waitingList)[0] && waitingList == old(waitingList)[1..]
                && Queued(obj.value)
                && Holding(waitingList, activeList, downloadExecutor, doneList, tickets, admitted, idCounter, maxJobs, ticket)
      ensures obj.None? ==> waitingList == old(waitingList) && tickets == old(tickets)
    {
      if |activeList| < maxJobs && waitingList != [] {
        PopKeeps(waitingList, activeList, downloadExecutor, doneList, tickets, admitted, idCounter, maxJobs);
        obj, ticket := Some(waitingList[0]), tickets.waiting[0];
        waitingList := waitingList[1..];
        tickets := Popped(tickets);
      } else {
        obj, ticket := None, 0;
      }
    }

    /** `exec_in_thread`: spawn the executor of `data` and make it active under `id`. */
    method ExecInThread(id: nat, data: DownloadObject, ghost ticket: nat)
      requires Holding(waitingList, activeList, downloadExecutor, doneList, tickets, admitted, id, maxJobs, ticket)
      requires Queued(data)
      modifies this`activeList, this`downloadExecutor, this`tickets, this`admitted
      ensures id !in old(activeList)
      ensures activeList == old(activeList)[id := data.(state := Active)]
      ensures downloadExecutor == old(downloadExecutor)[id := Spawned()]
      ensures admitted == old(admitted) + [id]
      ensures Consistent(waitingList, activeList, downloadExecutor, doneList, tickets, admitted, id + 1, maxJobs)
    {
      AdmitKeeps(waitingList, activeList, downloadExecutor, doneList, tickets, admitted, maxJobs, ticket, id, data);
      var de := Spawned();
      activeList := activeList[id := data.(state := Active)];
      downloadExecutor := downloadExecutor[id := de];
      tickets := Admitted(tickets, ticket, id);
      admitted := admitted + [id];
    }

    /** The first step of an iteration of `run`: if `next` yields a job, it is
        executed under the current value of the counter. */
    method Admit() returns (admits: bool)
      requires Valid()
      modifies this`waitingList, this`activeList, this`downloadExecutor, this`tickets, this`admitted
      ensures admits <==> old(|activeList| < maxJobs && waitingList != [])
      ensures Consistent(waitingList, activeList, downloadExecutor, doneList, tickets, admitted, idCounter + 1, maxJobs)
      ensures admits ==>
                && waitingList == old(waitingList)[1..]
                && idCounter !in old(activeList)
                && activeList == old(activeList)[idCounter := old(waitingList)[0].(state := Active)]
                && downloadExecutor == old(downloadExecutor)[idCounter := Spawned()]
                && admitted == old(admitted) + [idCounter]
      ensures !admits ==>
                && waitingList == old(waitingList) && activeList == old(activeList)
                && downloadExecutor == old(downloadExecutor) && admitted == old(admitted)
    {
      var obj;
      ghost var ticket;
      obj, ticket := Next();
      admits := obj.Some?;
      if obj.Some? {
        ExecInThread(idCounter, obj.value, ticket);
      } else {
        BoundGrows(waitingList, activeList, downloadExecutor, doneList, tickets, admitted, idCounter, maxJobs);
      }
    }

    /** The first loop of `check_finished_threads` on the scheduler's queues. */
    method RetireSignalled(visit: seq<nat>) returns (toBeRemoved: seq<nat>)
      requires IsEnumeration(visit, downloadExecutor.Keys)
      requires ActiveOk(activeList, tickets.active, downloadExecutor)
      modifies this`activeList, this`doneList
      ensures toBeRemoved == Signals(downloadExecutor, visit)
      ensures forall j :: 0 <= j < |toBeRemoved| ==> toBeRemoved[j] in old(activeList)
      ensures activeList == old(activeList) - Elems(toBeRemoved)
      ensures doneList == old(doneList) + Pick(old(activeList), toBeRemoved)
    {
      assert forall id :: id in downloadExecutor ==> SendsOwnId(id, downloadExecutor[id]);
      activeList, doneList, toBeRemoved := RetireLoop(activeList, doneList, downloadExecutor, visit);
    }

    /** The second loop of `check_finished_threads`: the executors of `ids` are dropped. */
    method DropExecutors(ids: seq<nat>)
      modifies this`downloadExecutor
      ensures downloadExecutor == old(downloadExecutor) - Elems(ids)
      ensures unchanged(this`activeList, this`doneList, this`tickets, this`waitingList)
    {
      for i := 0 to |ids|
        invariant downloadExecutor == old(downloadExecutor) - Elems(ids[..i])
      {
        PrefixSnoc(ids, i);
        MinusSnoc(old(downloadExecutor), ids[..i], ids[i]);
        downloadExecutor := downloadExecutor - {ids[i]};
      }
      assert ids[..|ids|] == ids;
    }

    /** `check_finished_threads`: every job whose executor has signalled moves from the
        active map to the back of the done list, in the order the executors are
        visited, and its executor is dropped. */
    method CheckFinishedThreads(ghost bound: nat) returns (ghost finished: seq<nat>)
      requires Consistent(waitingList, activeList, downloadExecutor, doneList, tickets, admitted, bound, maxJobs)
      modifies this`activeList, this`doneList, this`downloadExecutor, this`tickets
      ensures Consistent(waitingList, activeList, downloadExecutor, doneList, tickets, admitted, bound, maxJobs)
      ensures IsEnumeration(finished, Signalled(old(downloadExecutor)))
      ensures activeList == old(activeList) - Elems(finished)
      ensures downloadExecutor == old(downloadExecutor) - Elems(finished)
      ensures doneList == old(doneList) + Pick(old(activeList), finished)
    {
      ghost var w0, a0, ex0, d0, tk0 := waitingList, activeList, downloadExecutor, doneList, tickets;
      ghost var adm0, mj := admitted, maxJobs;
      var visit := IterationOrder(downloadExecutor.Keys);
      assert ActiveOk(activeList, tickets.active, downloadExecutor);
      var toBeRemoved := RetireSignalled(visit);
      DropExecutors(toBeRemoved);
      tickets := Retired(tk0, toBeRemoved);
      assert maxJobs == mj;
      DrainAlong(w0, a0, ex0, d0, tk0, adm0, bound, mj, visit, activeList, downloadExecutor, doneList, tickets);
      finished := toBeRemoved;
    }

    /** `stringify_list`: the lines of the waiting queue (1), the active map (2, in some
        order of its keys) or the done list (3), and the empty string otherwise. */
    method StringifyList(listName: nat) returns (ret: Outcome<string>, ghost order: seq<nat>)
      ensures listName == 1 ==> ret == RenderJobs(waitingList)
      ensures listName == 2 ==> IsEnumeration(order, activeList.Keys) && ret == RenderJobs(Pick(activeList, order))
      ensures listName == 3 ==> ret == RenderJobs(doneList)
      ensures listName !in {1, 2, 3} ==> ret == Returns("")
    {
      order := [];
      if listName == 1 {
        ret := RenderEach(waitingList);
      } else if listName == 2 {
        var visit := IterationOrder(activeList.Keys);
        ret := RenderEach(Pick(activeList, visit));
        order := visit;
      } else if listName == 3 {
        ret := RenderEach(doneList);
      } else {
        ret := Returns("");
      }
    }

    /** `get_info`: the line of the first job named `name`, searching the done list,
        then the waiting queue, then the active map (in some order of its keys). */
    method GetInfo(name: string) returns (info: Outcome<Option<string>>, ghost order: seq<nat>)
      ensures IsEnumeration(order, activeList.Keys)
      ensures info == FindInfo(doneList + waitingList + Pick(activeList, order), name)
      // whatever the order: nothing is found exactly when no job of any queue has the name,
      // and a done job with the name answers before all others
      ensures info == Returns(None) <==>
                NoneNamed(doneList + waitingList, name) && forall id :: id in activeList ==> activeList[id].name != name
      ensures !NoneNamed(doneList, name) ==> info == FindInfo(doneList, name)
    {
      var visit := IterationOrder(activeList.Keys);
      order := visit;
      ghost var front := doneList + waitingList;
      NoneNamedPick(front, activeList, visit, name);
      FindInfoNone(front + Pick(activeList, visit), name);
      if !NoneNamed(doneList, name) {
        var i :| 0 <= i < |doneList| && doneList[i].name == name;
        assert front[i] == doneList[i];
      }
      FindInfoConcat(doneList, waitingList, name);
      FindInfoConcat(front, Pick(activeList, order), name);
      info := SearchEach(doneList, name);
      if info != Returns(None) {
        FindInfoNone(doneList, name);
        FindInfoNone(front, name);
        return;
      }
      FindInfoNone(doneList, name);
      info := SearchEach(waitingList, name);
      if info != Returns(None) {
        FindInfoNone(front, name);
        return;
      }
      FindInfoNone(front, name);
      info := SearchEach(Pick(activeList, visit), name);
    }

    /** The reply to a `List` command: the requested renderings, waiting first, then
        active, then done. */
    method ListCommand(scope: Commands.ListCommands) returns (list: Outcome<seq<string>>, ghost order: seq<nat>)
      ensures !scope.Done? ==> IsEnumeration(order, activeList.Keys)
      ensures scope.All? ==>
                var w, a, d := RenderJobs(waitingList), RenderJobs(Pick(activeList, order)), RenderJobs(doneList);
                list == if w.Panics? || a.Panics? || d.Panics? then Panics else Returns([w.value, a.value, d.value])
      ensures scope.Active? ==>
                var a := RenderJobs(Pick(activeList, order));
                list == if a.Panics? then Panics else Returns([a.value])
      ensures scope.Done? ==>
                var d := RenderJobs(doneList);
                list == if d.Panics? then Panics else Returns([d.value])
    {
      order := [];
      match scope {
        case All =>
          var w, _ := StringifyList(1);
          if w.Panics? {
            EnumerationExists(activeList.Keys);
            order :| IsEnumeration(order, activeList.Keys);
            return Panics, order;
          }
          var a;
          a, order := StringifyList(2);
          if a.Panics? { return Panics, order; }
          var d, _ := StringifyList(3);
          if d.Panics? { return Panics, order; }
          list := Returns([w.value, a.value, d.value]);
        case Active =>
          var a;
          a, order := StringifyList(2);
          if a.Panics? { return Panics, order; }
          list := Returns([a.value]);
        case Done =>
          var d, _ := StringifyList(3);
          if d.Panics? { return Panics, []; }
          list := Returns([d.value]);
      }
    }

    /** The reply to an `Info` command: the job's line, or the not-found message. */
    method InfoCommand(filename: string) returns (list: Outcome<seq<string>>, ghost order: seq<nat>)
      ensures IsEnumeration(order, activeList.Keys)
      ensures var found := FindInfo(doneList + waitingList + Pick(activeList, order), filename);
              list == match found
                      case Panics => Panics
                      case Returns(Some(line)) => Returns([line])
                      case Returns(None) => Returns([FileNotFound])
      ensures (NoneNamed(doneList + waitingList, filename) && forall id :: id in activeList ==> activeList[id].name != filename)
                ==> list == Returns([FileNotFound])
    {
      var info;
      info, order := GetInfo(filename);
      match info {
        case Panics => list := Panics;
        case Returns(Some(line)) => list := Returns([line]);
        case Returns(None) => list := Returns([FileNotFound]);
      }
    }

    /** Handling one command, as the `match` in `run` does. */
    method Dispatch(command: Commands.ManagerCommands) returns (list: Outcome<seq<string>>, ghost order: seq<nat>)
      requires Valid()
      modifies this`waitingList, this`tickets
      ensures Valid()
      ensures command.Add? ==>
                var path := command.customDownloadPath.UnwrapOr(downloadPath);
                var name := DeriveName(command.url, command.customName);
                && (name.Panics? ==> list == Panics && waitingList == old(waitingList))
                && (name.Returns? ==>
                      && list == Returns([FileAdded])
                      && waitingList == old(waitingList)
                           + [DownloadObject(name.value, path, command.url, Waiting, None, None)])
      ensures !command.Add? ==> waitingList == old(waitingList)
      ensures command.List? && command.subcommands.All? ==>
                IsEnumeration(order, activeList.Keys) &&
                var w, a, d := RenderJobs(waitingList), RenderJobs(Pick(activeList, order)), RenderJobs(doneList);
                list == if w.Panics? || a.Panics? || d.Panics? then Panics else Returns([w.value, a.value, d.value])
      ensures command.List? && command.subcommands.Active? ==>
                IsEnumeration(order, activeList.Keys) &&
                var a := RenderJobs(Pick(activeList, order));
                list == if a.Panics? then Panics else Returns([a.value])
      ensures command.List? && command.subcommands.Done? ==>
                var d := RenderJobs(doneList);
                list == if d.Panics? then Panics else Returns([d.value])
      ensures command.Info? ==>
                IsEnumeration(order, activeList.Keys) &&
                var found := FindInfo(doneList + waitingList + Pick(activeList, order), command.filename);
                list == match found
                        case Panics => Panics
                        case Returns(Some(line)) => Returns([line])
                        case Returns(None) => Returns([FileNotFound])
      ensures command.Cancel? || command.Start? ==> list == Returns([])
    {
      order := [];
      match command {
        case Add(url, customName, customDownloadPath) =>
          var downPath := if customDownloadPath.Some? then customDownloadPath.value else downloadPath;
          var ret := Add(customName, downPath, url);
          if ret.Panics? {
            list := Panics;
          } else {
            list := Returns([FileAdded]);
          }
        case List(subcommands) =>
          list, order := ListCommand(subcommands);
        case Info(filename) =>
          list, order := InfoCommand(filename);
        case _ =>
          list := Returns([]);
      }
    }

    /** `id_counter += 1`, once the state is consistent with the next value. */
    method Advance()
      requires Consistent(waitingList, activeList, downloadExecutor, doneList, tickets, admitted, idCounter + 1, maxJobs)
      modifies this`idCounter
      ensures Valid() && idCounter == old(idCounter) + 1
    {
      idCounter := idCounter + 1;
    }

    /** The part of an iteration of `run`'s loop before the command: admit at most
        one job under the current counter, drain completion signals, advance the
        counter. */
    method AdmitAndDrain() returns (ghost finished: seq<nat>)
      requires Valid()
      modifies this`waitingList, this`activeList, this`downloadExecutor, this`doneList, this`tickets,
               this`admitted, this`idCounter
      ensures Valid()
      ensures idCounter == old(idCounter) + 1
      ensures AdmittedAndDrained(old(waitingList), old(activeList), old(downloadExecutor), old(doneList),
                                 old(admitted), old(idCounter), maxJobs,
                                 waitingList, activeList, downloadExecutor, doneList, admitted, finished)
    {
      ghost var w0, a0, ex0, d0, adm0 := waitingList, activeList, downloadExecutor, doneList, admitted;
      var admits := Admit();
      ghost var a1, ex1 := activeList, downloadExecutor;
      finished := CheckFinishedThreads(idCounter + 1);
      AdmitThenDrainEffect(w0, a0, ex0, d0, adm0, idCounter, maxJobs, admits, waitingList, a1, ex1, admitted,
                           activeList, downloadExecutor, doneList, finished);
      Advance();
    }

    /** One iteration of `run`'s loop: `AdmitAndDrain`, which leaves the waiting
        queue `queued`, then the command the server sent, if any, is handled and its
        reply returned. */
    method Tick(command: Option<Commands.Manager>) returns (reply: TickReply, ghost finished: seq<nat>,
                                                            ghost queued: seq<DownloadObject>, ghost order: seq<nat>)
      requires Valid() && !halted
      modifies this`waitingList, this`activeList, this`downloadExecutor, this`doneList, this`tickets,
               this`admitted, this`idCounter, this`halted
      ensures Valid()
      ensures idCounter == old(idCounter) + 1
      ensures AdmittedAndDrained(old(waitingList), old(activeList), old(downloadExecutor), old(doneList),
                                 old(admitted), old(idCounter), maxJobs,
                                 queued, activeList, downloadExecutor, doneList, admitted, finished)
      // then the command, handled with the queues as admission and drain left them
      ensures Responded(command, queued, waitingList, activeList, doneList, downloadPath, order, reply)
      ensures halted <==> reply == Panicked
    {
      finished := AdmitAndDrain();
      queued := waitingList;
      reply, order := Respond(command);
    }

    /** The part of an iteration of `run`'s loop after `AdmitAndDrain`: the command
        the server sent, if any, is handled, and a panic while handling it halts the
        thread. */
    method Respond(command: Option<Commands.Manager>) returns (reply: TickReply, ghost order: seq<nat>)
      requires Valid() && !halted
      modifies this`waitingList, this`tickets, this`halted
      ensures Valid()
      ensures Responded(command, old(waitingList), waitingList, activeList, doneList, downloadPath, order, reply)
      ensures halted <==> reply == Panicked
      ensures unchanged(this`activeList, this`downloadExecutor, this`doneList, this`admitted, this`idCounter)
    {
      order := [];
      match command {
        case None =>
          reply := Slept;
        case Some(mngr) =>
          var list;
          list, order := Dispatch(mngr.subcommands);
          if list.Panics? {
            halted := true;
            reply := Panicked;
          } else {
            reply := Replied(list.value);
          }
      }
      if !IsEnumeration(order, activeList.Keys) {
        // the reply does not depend on the order here: any order of the keys will do
        EnumerationExists(activeList.Keys);
        order :| IsEnumeration(order, activeList.Keys);
      }
    }

    /** The thread spawned for active job `id` running to its end: the job record is
        updated as the run leaves it and the channel receives what the run sent. */
    method RunExecutor(id: nat, io: Collaborators) returns (ghost sent: seq<nat>)
      requires Valid() && id in downloadExecutor && downloadExecutor[id].running
      modifies this`activeList, this`downloadExecutor
      ensures Valid()
      ensures id in activeList && activeList == old(activeList)[id := activeList[id]]
      ensures downloadExecutor == old(downloadExecutor)[id := DownloadExecutor(sent, false)]
      ensures sent == [] || sent == [id]
      ensures (activeList[id], sent) == RunResult(id, old(activeList)[id], io)
      ensures io.probe.Err? ==>
                activeList[id].state == Failed && activeList[id].resultedErr == Some(io.probe.error) && sent == [id]
      ensures activeList[id].url == old(activeList)[id].url
      ensures activeList[id].downloadPath == old(activeList)[id].downloadPath
      ensures sent == [] ==> activeList[id].state == Active
      ensures sent == [id] ==> Finished(activeList[id])
    {
      assert InFlight(id, activeList[id], downloadExecutor[id]);
      var job, s := RunToEnd(id, activeList[id], io);
      RunKeeps(waitingList, activeList, downloadExecutor, doneList, tickets, admitted, idCounter, maxJobs,
               id, job, DownloadExecutor(s, false));
      Store(activeList[id := job], downloadExecutor[id := DownloadExecutor(s, false)]);
      sent := s;
    }

    /** The job records and executor handles after an executor's thread ends, once
        they are consistent with the rest of the state. */
    method Store(active: map<nat, DownloadObject>, executors: map<nat, DownloadExecutor>)
      requires Consistent(waitingList, active, executors, doneList, tickets, admitted, idCounter, maxJobs)
      modifies this`activeList, this`downloadExecutor
      ensures Valid() && activeList == active && downloadExecutor == executors
    {
      activeList, downloadExecutor := active, executors;
    }
  }
}
