# download_manager, modelled in Dafny

This project models the core of a small download manager written in Rust. A
single-threaded HTTP control endpoint takes one command per connection: add a
URL, list jobs, or show one job's info. It hands the command to a background
scheduler and writes the scheduler's reply back.

The scheduler keeps three queues:

- a FIFO waiting queue;
- an active map, keyed by the id a job was admitted under;
- a done list.

It also keeps one executor handle per active job. Each loop iteration does the following:

1. If fewer than `max_jobs` jobs are active, it admits the front waiting job under the loop counter.
2. It drains the completion signals of the executors. Every job whose executor has signalled moves to the back of the done list, in the order the executor map is iterated, and that executor is dropped.
3. It advances the counter.
4. It handles the command the server sent, if one is waiting.

An executor runs one job in its own thread, in four steps:

1. It probes the URL for its size.
2. It fetches the payload.
3. It picks a file name that avoids a collision.
4. It writes the file, marks the job Done or Failed, and signals completion with the job's id.

## What is modelled and how

- **Values and classes.** Jobs (`DownloadObject`), states, commands and executor handles are datatypes.
  - The scheduler is a class, `Schedulers.Scheduler`.
  - Its fields are the queues of the source: a `seq` for the waiting queue and for the done list, and a `map` for the active jobs and for the executors.
  - Its methods change those fields as `add`, `next`, `exec_in_thread`, `check_finished_threads` and the body of `run`'s loop do.
  - One iteration of the loop is `Tick`.
  - An executor thread running to its end is a separate environment step, `RunExecutor`, which can happen between two ticks.
- **Returned values and loops.**
  - `stringify_list`, `get_info` and the response loop of `handle_connection` are methods with the source's loops. They are proved against the functions `RenderJobs`, `FindInfo` and `Concat`.
  - The first loop of `check_finished_threads` runs on local copies of the active map and the done list, which are written back when it ends.
- **Iteration order.** A Rust `HashMap` iterates in an unspecified order. Every loop over one (the executors in `check_finished_threads`, the active map in `stringify_list` and `get_info`) is stated for an arbitrary order that lists each key exactly once (`HashMaps.IsEnumeration`).
- **Panics.** The `unwrap`s on names, sizes and opened files are modelled with `Outcome<T> = Returns(value) | Panics`: the two in `add`, the two `total_size` unwraps of the renderers, and the name split and file open of `safely_open_the_file`. The `remove(&id).unwrap()` of `check_finished_threads` is proved never to fail. The other unwraps (locks, channel sends and receives, the socket read, the content-length header) are listed under "## Left out". Inputs that make the code panic are never excluded by a precondition. A panic while a command is handled halts the scheduler (`halted`), as it would end the scheduler thread.
- **Ghost state.** Ghost tickets (`Tickets.Book`) follow every job from `add` onwards. They prove that each job is in exactly one of the waiting queue, the active map (under exactly one id) and the done list. The invariant `Ledger.Consistent` also states the following:
  - every waiting job is untouched since `add` created it;
  - the active map and the executor map have the same keys;
  - every active job is in flight: either its executor has not signalled and the job is Active, or it has sent its own id once and the job is Done or Failed;
  - every done job is finished;
  - admission ids grow strictly and stay below the loop counter;
  - at most `max_jobs` jobs are active.

  Every step of the scheduler keeps this invariant.
- **Collaborators.** In the executor, the HTTP client, the filesystem and the clock are replaced by their answers (`Executors.Collaborators`). In the server, the request parser is replaced by the method and the path it reports. The JSON decoder becomes a partial function, and the scheduler's reply becomes a function of the command.

Some of the code's behaviour may be unexpected. The model follows the code in each of these cases:

- **Missing sizes.** The listing and info renderers unwrap `total_size`. A job without a size makes them panic; they do not render an empty size. Waiting jobs never have a size, so `List All` panics whenever a job is waiting (`Schedulers.WaitingListingPanics`).
- **Listing lines.** Each listing line ends in `\r\n`.
- **Request body.**
  - The body is the text after the *last* blank-line separator.
  - A request with no separator uses the whole buffer.
  - No check rejects an empty body. An empty payload goes to the decoder.
- **Naming.**
  - A URL without `/` makes `add` panic, and so does a custom name for a last segment without `.`.
  - In the executor, a name without `.` makes the thread panic, and so does a file that cannot be opened. The thread then sends no completion signal, so its job stays Active for ever.

## Model

| member | source | states |
|---|---|---|
| DownloadObjects.StateToStringInjective | src/scheduler/download_object.rs:16-25 | two states render as the same string exactly when they are the same state |
| DownloadObjects.DefaultState | src/scheduler/download_object.rs:12-14 | the default state is Waiting, the first state of a job's life, rendered as `Waiting` |
| DownloadObjects.StateToString | src/scheduler/download_object.rs:16-25 | every state renders as a non-empty name (that distinct states render differently is `StateToStringInjective`) |
| DownloadObjects.DefaultDownloadObject | src/scheduler/download_object.rs:28-37 | the derived default record has empty name, path and URL, state Waiting, no size and no error, so it is not a job an executor has finished |
| Text.RSplitOnce | src/scheduler/download_scheduler.rs:57-59 | no split exactly when the separator is absent; otherwise the string is head + separator + tail, and tail follows the last occurrence |
| Text.SplitOnce | src/server/executor.rs:77 | no split exactly when the separator is absent; otherwise head precedes the first occurrence |
| Text.NatToString | src/scheduler/download_scheduler.rs:222 | a non-empty string of decimal digits that starts with 0 only for zero |
| Text.DecimalRoundTrip | src/scheduler/download_scheduler.rs:222 | reading the rendered digits back gives the number |
| Text.NatToStringInjective | src/scheduler/download_scheduler.rs:222 | two numbers render alike exactly when they are equal |
| Text.Concat | src/server/executor.rs:102-107 | the parts appended in order: the result starts with the first part and is at least as long as every part |
| Text.ConcatCons | src/server/executor.rs:102-107 | appending the parts one by one is the first part followed by the rest appended one by one |
| Executors.Spawned | src/scheduler/download_executor.rs:26-31 | a just-spawned executor's thread is alive and its completion channel is empty |
| Executors.UniqueName | src/scheduler/download_executor.rs:153-160 | panics exactly when the name has no `.`; keeps the name when no file of that name exists, otherwise inserts `_<stamp>` before the last `.` |
| Executors.UniqueNameAvoidsCollision | src/scheduler/download_executor.rs:154-157 | a colliding name is replaced by a different one, longer by the stamp and an underscore |
| Executors.UniqueNameKeepsExtension | src/scheduler/download_executor.rs:153-157 | with a stamp free of `.`, the new name splits at its last `.` into the old base plus `_<stamp>` and the old extension |
| Executors.DownloadTheFile | src/scheduler/download_executor.rs:124-169 | a fetch error is returned; otherwise it panics exactly when naming panics or the open fails; it returns `Ok` with the unique name exactly when the fetch, the naming, the open, the payload read and the write all succeed; a payload or write failure is returned as its message |
| Executors.RunResult | src/scheduler/download_executor.rs:28-87 | the job record and signals the thread leaves behind: url and path unchanged, at most one signal carrying its id, and a finished job whenever the signal is sent |
| Executors.Run | src/scheduler/download_executor.rs:28-87 | the step-by-step updates end in `RunResult`; url and path are never changed; at most one signal, carrying the executor's id; a probe error makes the job Failed with that error; a probe success records the size and then the job follows the download's outcome (Failed with its error, or Done under the final name, or left Active with no signal on a panic); a signal is sent exactly when the thread does not panic, and then the job is finished |
| Listings.DeriveName | src/scheduler/download_scheduler.rs:56-62 | without a custom name: returns exactly when the URL has a `/`, giving the text after the last one; with one: returns exactly when that segment has a `.`, giving the custom name, `.`, and the segment's extension |
| Listings.JobLine | src/scheduler/download_scheduler.rs:217-227 | panics exactly when the job has no size |
| Listings.JobLineDeterminesSizeAndState | src/scheduler/download_scheduler.rs:217-227 | two jobs of the same name with the same line have the same size and state |
| Listings.RenderJobs | src/scheduler/download_scheduler.rs:228-248 | the listing of a queue panics exactly when some job in it has no size |
| Listings.RenderEach | src/scheduler/download_scheduler.rs:231-243 | the `push_str` loop over a queue yields exactly the listing of that queue |
| Listings.CheckJob | src/scheduler/download_scheduler.rs:254-268 | nothing for a job of another name; for a job of this name it panics exactly when the job has no size and otherwise gives its line |
| Listings.FindInfo | src/scheduler/download_scheduler.rs:270-289 | whatever the search answers other than `None` is the check of some job in the list that has the name |
| Listings.FindInfoNone | src/scheduler/download_scheduler.rs:270-289 | the search finds nothing exactly when no job has the name |
| Listings.FindInfoFirst | src/scheduler/download_scheduler.rs:270-289 | the search answers with the first job that has the name |
| Listings.FindInfoConcat | src/scheduler/download_scheduler.rs:270-287 | searching two lists in turn: the first answers when it holds the name, the second otherwise |
| Listings.InfoPrefersDone | src/scheduler/download_scheduler.rs:270-275 | a done job with the name answers before any waiting or active one |
| Listings.SearchEach | src/scheduler/download_scheduler.rs:270-275 | the loop over one queue gives the answer of the search |
| HashMaps.IterationOrder | src/scheduler/download_scheduler.rs:100 | the iteration order of a map lists each of its keys exactly once |
| HashMaps.EnumerationExists | src/scheduler/download_scheduler.rs:236 | every set of keys has such an order |
| Tickets.PlacedExactlyOne | src/scheduler/download_scheduler.rs:16-24 | with no job in hand, every job ever added is in exactly one of the waiting queue, the active map (under exactly one id) and the done list |
| Tickets.PlaceAdd | src/scheduler/download_scheduler.rs:64-72 | a new job at the back of the waiting queue keeps every job placed |
| Tickets.PlacePop | src/scheduler/download_scheduler.rs:78-84 | the front waiting job is the one in the waiting place, and taking it in hand keeps every job placed |
| Tickets.PlaceAdmit | src/scheduler/download_scheduler.rs:87-93 | making the job in hand active under a fresh id keeps every job placed |
| Tickets.PlaceFinishAll | src/scheduler/download_scheduler.rs:98-111 | retiring distinct active ids keeps every job placed, with none in hand |
| Queues.Signals | src/scheduler/download_scheduler.rs:99-106 | the ids collected by visiting the executors are no more than those visited, and each has an executor that has signalled |
| Queues.SignalsCollect | src/scheduler/download_scheduler.rs:100-106 | visiting distinct ids collects each signalled one exactly once |
| Queues.SignalsEnumerate | src/scheduler/download_scheduler.rs:100-106 | visiting every executor once collects an enumeration of the signalled ids |
| Queues.RetireStep | src/scheduler/download_scheduler.rs:101-105 | one loop step keeps the loop state `Retiring`: the visited id is still active with its original job, and the collected ids, the remaining active map and the done list each advance by that id exactly when its executor has signalled |
| Queues.DoneFinishAll | src/scheduler/download_scheduler.rs:102-104 | the jobs of signalled executors are finished, so the done list stays finished |
| Queues.SignalledSpawn | src/scheduler/download_scheduler.rs:88-92 | a freshly spawned executor has not signalled |
| Queues.AdmitThenDrain | src/scheduler/download_scheduler.rs:122-127 | with executor threads running only between iterations, as in this model: admitting a job adds no signal, so the drain (`Drained`) moves exactly the jobs signalled before the iteration, in the visiting order and with their earlier values, to the back of the done list, removes them from the active map, and keeps every other earlier active job as it was |
| Queues.FrontAdmitted | src/scheduler/download_scheduler.rs:87-93 | below the cap, the job admitted in an iteration is active under the counter with a freshly spawned executor after the drain; otherwise nothing is admitted |
| Queues.DrainFrame | src/scheduler/download_scheduler.rs:98-111 | after admission and drain, every active job was active and unsignalled before, or is the one just admitted; every executor that had not signalled keeps its handle |
| Queues.AdmitThenDrainEffect | src/scheduler/download_scheduler.rs:122-127 | with executor threads running only between iterations: admission as `next` and `exec_in_thread` leave the queues, followed by the drain as `check_finished_threads` leaves them, is `AdmittedAndDrained`, including that nothing else becomes active and that unsignalled executors keep their handles |
| Queues.IdsAdmit | src/scheduler/download_scheduler.rs:123-128 | the counter is an id no active job and no earlier admission has, and admissions stay strictly increasing |
| Ledger.InitialConsistent | src/scheduler/download_scheduler.rs:39-45 | the new scheduler satisfies the invariant |
| Ledger.AddKeeps | src/scheduler/download_scheduler.rs:48-75 | `add` keeps the invariant |
| Ledger.PopKeeps | src/scheduler/download_scheduler.rs:78-84 | `next` below the cap hands out the front job as `add` created it, with the invariant kept around the job in hand |
| Ledger.AdmitKeeps | src/scheduler/download_scheduler.rs:87-93 | `exec_in_thread` under the counter restores the invariant with one more active job |
| Ledger.BoundGrows | src/scheduler/download_scheduler.rs:128 | advancing the counter keeps the invariant |
| Ledger.DrainKeeps | src/scheduler/download_scheduler.rs:98-111 | moving distinct signalled jobs to the done list and dropping their executors keeps the invariant |
| Ledger.DrainAlong | src/scheduler/download_scheduler.rs:98-111 | along any iteration order, the ids collected enumerate the signalled ones and retiring them keeps the invariant |
| Ledger.RunKeeps | src/scheduler/download_executor.rs:28-87 | an executor thread finishing keeps the invariant |
| Schedulers.WaitingListingPanics | src/scheduler/download_scheduler.rs:222 | rendering a non-empty waiting queue always panics |
| Schedulers.RunToEnd | src/scheduler/download_executor.rs:28-87 | an active job's run ends as `RunResult` gives it, keeps url and path and leaves the job and its handle in flight |
| Schedulers.Scheduler.constructor | src/scheduler/download_scheduler.rs:39-45 | empty queues, the given cap and path, counter 0, invariant established |
| Schedulers.Scheduler.Add | src/scheduler/download_scheduler.rs:48-75 | appends a Waiting job with the derived name, the given path and URL, no size and no error; on a naming panic, it panics and leaves the queue unchanged |
| Schedulers.Scheduler.Next | src/scheduler/download_scheduler.rs:78-84 | yields a job exactly when the active map is below the cap and the queue is non-empty, and then it is the front job, removed from the queue |
| Schedulers.Scheduler.ExecInThread | src/scheduler/download_scheduler.rs:87-93 | the id is fresh; the job becomes Active under it with a freshly spawned executor |
| Schedulers.Scheduler.Admit | src/scheduler/download_scheduler.rs:122-124 | admits exactly when below the cap with a waiting job, moving the front job to the active map under the counter; otherwise nothing changes |
| Schedulers.RetireLoop | src/scheduler/download_scheduler.rs:99-106 | on the queues' values, with every executor holding nothing or its own id: along the visit order, exactly the signalled ids are collected, all of them active; their jobs leave the active map and go to the back of the done list in that order |
| Schedulers.Scheduler.RetireSignalled | src/scheduler/download_scheduler.rs:99-106 | along the visit order, exactly the signalled ids are collected; their jobs leave the active map and go to the back of the done list in that order |
| Schedulers.Scheduler.DropExecutors | src/scheduler/download_scheduler.rs:108-110 | exactly the executors of the collected ids are dropped |
| Schedulers.Scheduler.CheckFinishedThreads | src/scheduler/download_scheduler.rs:98-111 | the jobs of exactly the signalled executors move, in visiting order, from the active map to the back of the done list; their executors are dropped; the invariant is kept |
| Schedulers.Scheduler.StringifyList | src/scheduler/download_scheduler.rs:216-249 | 1, 2 and 3 render the waiting queue, the active map in some key order and the done list; any other number renders the empty string |
| Schedulers.Scheduler.GetInfo | src/scheduler/download_scheduler.rs:253-290 | the answer of the search over done, then waiting, then active jobs in some key order; whatever that order, nothing is found exactly when no job of any queue has the name, and a done job with the name answers first |
| Schedulers.Scheduler.ListCommand | src/scheduler/download_scheduler.rs:155-167 | All gives the waiting, active and done renderings in that order, Active and Done give one each; it panics when a rendering does |
| Schedulers.NoneNamedPick | src/scheduler/download_scheduler.rs:276-289 | searching a queue and then the active map finds no job of the name exactly when neither holds one, in any key order |
| Schedulers.Scheduler.InfoCommand | src/scheduler/download_scheduler.rs:168-174 | the found line, or the not-found message, or a panic; the not-found message whenever no job of any queue has the name |
| Schedulers.Scheduler.Dispatch | src/scheduler/download_scheduler.rs:136-176 | Add uses the custom path or else the scheduler's, and replies "File added" or panics; List and Info reply as above; Cancel and Start reply nothing; only Add changes the waiting queue |
| Schedulers.Scheduler.AdmitAndDrain | src/scheduler/download_scheduler.rs:121-128 | `AdmittedAndDrained` from the old to the new state: below the cap the front waiting job becomes active under the counter, an id no active job had; then exactly the jobs signalled before the iteration (executors run only between iterations in this model) move, in some HashMap order, to the back of the done list; every other active job stays; nothing else becomes active and every executor that had not signalled keeps its handle; the counter advances by one; the invariant is kept |
| Schedulers.Scheduler.Advance | src/scheduler/download_scheduler.rs:128 | advancing the id counter keeps the invariant once the state is consistent with the next value |
| Schedulers.CommandReply | src/scheduler/download_scheduler.rs:136-176 | the reply to a command: `Cancel` and `Start` reply nothing, and `Add` panics exactly when naming does; List renders the requested queues and Info searches done, waiting, then active |
| Schedulers.RespondedCases | src/scheduler/download_scheduler.rs:131-183 | handling a command adds at most one job, at the back of the waiting queue, and only from `Add`; the thread sleeps exactly when there is no command; `Cancel` and `Start` reply nothing; `Add` replies "File added" unless naming panics |
| Schedulers.Scheduler.Respond | src/scheduler/download_scheduler.rs:131-183 | `Responded`: no command means sleep and no change; every command's reply is `CommandReply` of the queues as they are when it is handled, in some order of the active keys; `Add` appends exactly the new Waiting job, with the custom path or else the scheduler's, or nothing when naming panics; other commands leave the queue unchanged; the scheduler halts exactly when the reply is a panic; the active map, executors, done list and counter are unchanged |
| Schedulers.Scheduler.Tick | src/scheduler/download_scheduler.rs:118-184 | one loop iteration: `AdmittedAndDrained` from the old state to the waiting queue left before the command, then `Responded` from that queue: the command is handled with the queues as admission and drain left them, with its reply and its exact change to the waiting queue; the counter advances by one; the scheduler halts exactly when the reply is a panic; the invariant is kept |
| Schedulers.Scheduler.RunExecutor | src/scheduler/download_executor.rs:28-87 | a live executor's run changes only its own job and handle, which end as `RunResult` gives them for the collaborators' answers (a probe error makes the job Failed with that error and sends the id); it either leaves the job Active with no signal, or finishes it and sends its own id; the invariant is kept |
| Schedulers.Scheduler.Store | src/scheduler/download_executor.rs:28-87 | the job records and handles an executor's run leaves behind become the scheduler's, keeping the invariant |
| Server.BufferText | src/server/executor.rs:41-46 | the 2048-character buffer: what arrived, then NULs |
| Server.Body | src/server/executor.rs:70-74 | the text after the last separator, or the whole text when there is none |
| Server.BeforeNul | src/server/executor.rs:77-83 | no result exactly when there is no NUL; otherwise a NUL-free prefix that the NUL follows |
| Server.Classify | src/server/executor.rs:54-91 | 405 unless POST, 404 unless `/command`, 400 without a NUL in the body or when decoding fails; the command is forwarded exactly when all checks pass |
| Server.ShortReadHasNul | src/server/executor.rs:77-83 | a read shorter than the buffer always leaves a NUL in the body |
| Server.FullReadWithoutNulIsBad | src/server/executor.rs:77-83 | a full buffer with no NUL is a bad request |
| Server.PayloadIsWhatFollowsTheHead | src/server/executor.rs:70-91 | a request that fits, whose payload has no separator or NUL and does not start with a line break, has exactly that payload decoded |
| Server.BuildResponse | src/server/executor.rs:102-107 | the 200 status line followed by the reply strings concatenated in order |
| Server.HandleConnection | src/server/executor.rs:40-108 | a rejected request gets its error response and nothing is sent; otherwise exactly one command is sent and the reply becomes the body of the 200 response |

## Left out

- Threads, the mpsc channels and the one-second sleep are not modelled: one loop iteration is `Tick`, the command waiting on the inbound channel is its parameter, and an executor thread is the separate step `RunExecutor`. No interleaving finer than these steps is modelled.
- Queues.AdmitThenDrain, Queues.AdmitThenDrainEffect and Schedulers.Scheduler.AdmitAndDrain assume that no executor thread runs during an iteration. In the source, a thread spawned at line 123 can fail fast and signal before `check_finished_threads` (line 127) visits it, and then its job is drained in the iteration that admitted it. A signal that arrives during the drain loop is also collected if its executor is visited later. The model does not capture either case.
- `thread_tx.send(id).unwrap()` (src/scheduler/download_executor.rs:54, 86) is not modelled as a panic. It panics once the scheduler thread has died and dropped the receivers; the model's sends always succeed.
- `Arc<Mutex<_>>` sharing, lock failures and poisoning are not modelled: a job record is a value. The executor's updates become visible to the scheduler all at once when `RunExecutor` ends, so a listing cannot observe a size recorded before the download ends.
- The scheduler's race in `exec_in_thread` is not modelled. There the thread is spawned before the state is set to Active, so it could mark the job finished and then have it overwritten to Active. The model orders the spawn's effects after admission.
- `does_it_can_be_downloaded` (src/scheduler/download_executor.rs:95-119) is not modelled; the HEAD request and the content-length header are the `probe` answer. The unwraps on a malformed content-length header would panic the thread, and the probe's answers do not include that case.
- reqwest, the filesystem (`create_dir_all`, `metadata`, `open`, `write`) and chrono are not modelled: they are the answers in `Collaborators`. The ignored result of `create_dir_all` and the count returned by `write` play no part.
- Executors.Run: the probe never panics (see above), and the job record is not shared with the scheduler while the thread runs.
- The loop counter is an unbounded natural number; the overflow of Rust's `usize` counter after 2^64 iterations is not modelled. The `u16` cap of the `Start` command is converted in `main_thread`, which is not part of this model.
- TCP is not modelled: the listener, a failing `read` (an unwrap) and the ignored write errors of the responses. `String::from_utf8_lossy` is not modelled either: the request is taken as characters, one per byte.
- httparse and serde_json are not modelled: the method and path are inputs, and the decoder is a partial function `decode`.
- The blocking `recv().unwrap()` on the reply channel is not modelled: `HandleConnection` takes the scheduler's reply as a function. When the scheduler thread has panicked, that `recv` would panic the server too.
- Cancel and Start have no effect in the source (`_ => ()`), and the model replies to them with an empty list.
- `main.rs`, `src/server/utils.rs` and `main_thread` are not part of this model. The command datatypes of `src/commands/manager_commands.rs` and the `Manager` wrapper of `src/commands/manager.rs` are modelled (`Commands.Manager`); `Manager::handle`, the client side that posts the command or starts the server, is not.
- The three `stringify_*_list` wrappers are `StringifyList(1)`, `StringifyList(2)` and `StringifyList(3)`.
- `debug_all`, which is commented out, is not modelled.
