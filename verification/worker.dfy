/**
 * The in-process job queue: jobs are registered by id, queued in FIFO order
 * and executed by workers that stop at a sentinel. The asyncio machinery is
 * replaced by sequential steps; the model manager behind the dispatcher is
 * a parameter `m` that says which parsers are loaded and what each parser
 * call returns or raises, and the clock is a parameter `now`.
 */
module Worker {
  import opened Options
  import opened Schemas

  // ---------------------------------------------------------------------------
  // Dispatch
  // ---------------------------------------------------------------------------

  /** Values a payload can carry (the parsers read them; the dispatcher only looks up keys). */
  datatype Value = Bytes(bytes: seq<bv8>) | Text(text: string) | Number(number: int) | Flag(flag: bool) | Null

  type Payload = map<string, Value>

  /** The parser a task kind is routed to. */
  datatype Kind = Document | Image | Audio | Video | Web

  /** The task names the dispatcher recognises. */
  function TaskName(k: Kind): string {
    match k
    case Document => "parse_document"
    case Image => "parse_image"
    case Audio => "parse_audio"
    case Video => "parse_video"
    case Web => "parse_web"
  }

  /** The `match job.task` of the dispatcher: the kind whose name is `task`, if any. */
  function TaskKind(task: string): (r: Option<Kind>)
    ensures r.Some? ==> TaskName(r.value) == task
    ensures r.None? ==> forall k: Kind :: TaskName(k) != task
  {
    if task == "parse_document" then Some(Document)
    else if task == "parse_image" then Some(Image)
    else if task == "parse_audio" then Some(Audio)
    else if task == "parse_video" then Some(Video)
    else if task == "parse_web" then Some(Web)
    else None
  }

  /** The payload keys read with `p[...]`, in the order the call reads them; every other key is read with a default. */
  function RequiredKeys(k: Kind): seq<string> {
    if k == Web then ["url"] else ["content", "filename"]
  }

  /** The first of `keys` missing from the payload: the lookup that raises `KeyError`. */
  function MissingKey(payload: Payload, keys: seq<string>): (r: Option<string>)
    ensures r.None? <==> forall i :: 0 <= i < |keys| ==> keys[i] in payload
    ensures r.Some? ==> exists i :: (0 <= i < |keys| && keys[i] == r.value && r.value !in payload
      && forall j :: 0 <= j < i ==> keys[j] in payload)
  {
    if keys == [] then None
    else if keys[0] !in payload then Some(keys[0])
    else
      var r := MissingKey(payload, keys[1..]);
      if r.Some? then
        var i :| 0 <= i < |keys[1..]| && keys[1..][i] == r.value && r.value !in payload
          && forall j :: 0 <= j < i ==> keys[1..][j] in payload;
        assert keys[i + 1] == r.value;
        r
      else r
  }

  /** `str(KeyError(key))`: the key in single quotes. */
  function KeyErrorMessage(key: string): string {
    "'" + key + "'"
  }

  /** `"Unknown task: " + task`, the message of the `ValueError` for an unrecognised task. */
  function UnknownTaskMessage(task: string): string {
    "Unknown task: " + task
  }

  /** The four lazy accessors of the model manager; audio and video share the media parser. */
  datatype Accessor = DocumentParser | ImageParser | MediaParser | WebParser

  /** The manager accessor a task kind's dispatch goes through; audio and video share the media parser. */
  function AccessorOf(k: Kind): Accessor {
    match k
    case Document => DocumentParser
    case Image => ImageParser
    case Audio => MediaParser
    case Video => MediaParser
    case Web => WebParser
  }

  /** The message of the `RuntimeError` an accessor raises when its parser is not loaded. */
  function NotLoadedMessage(a: Accessor): string {
    match a
    case DocumentParser => "Document parser not loaded. Start server with --documents flag."
    case ImageParser => "Image parser not loaded."
    case MediaParser => "Media parser not loaded. Start server with --media flag."
    case WebParser => "Web parser not loaded. Start server with --web flag."
  }

  /**
   * The model manager as the dispatcher sees it: which parsers are loaded,
   * and what a loaded parser's call returns or raises.
   */
  datatype Manager = Manager(loaded: set<Accessor>, parse: (Kind, Payload) -> Outcome)

  /**
   * `_dispatch`: an unknown task raises `ValueError`. For a known task the
   * callee `self._manager.<kind>_parser.parse` is evaluated before its
   * arguments, so a parser that is not loaded raises its `RuntimeError`
   * first; then a missing required key raises `KeyError`; otherwise the
   * parser for the task kind is called.
   */
  function Dispatch(task: string, payload: Payload, m: Manager): (r: Outcome)
    ensures TaskKind(task).None? ==> r == Raised(UnknownTaskMessage(task))
    ensures TaskKind(task).Some? && AccessorOf(TaskKind(task).value) !in m.loaded ==>
      r == Raised(NotLoadedMessage(AccessorOf(TaskKind(task).value)))
    ensures (TaskKind(task).Some? && AccessorOf(TaskKind(task).value) in m.loaded
      && MissingKey(payload, RequiredKeys(TaskKind(task).value)).Some?) ==>
      r == Raised(KeyErrorMessage(MissingKey(payload, RequiredKeys(TaskKind(task).value)).value))
  {
    match TaskKind(task)
    case None => Raised(UnknownTaskMessage(task))
    case Some(k) =>
      if AccessorOf(k) !in m.loaded then Raised(NotLoadedMessage(AccessorOf(k)))
      else
        match MissingKey(payload, RequiredKeys(k))
        case Some(key) => Raised(KeyErrorMessage(key))
        case None => m.parse(k, payload)
  }

  /**
   * A recognised task whose parser is loaded and whose payload has all its
   * required keys reaches its parser, and only then is the parser's outcome
   * the job's; with the parser loaded, document/image/audio/video fail on a
   * missing `content` first, then on `filename`, and web on a missing `url`.
   */
  lemma DispatchRoutes(k: Kind, payload: Payload, m: Manager)
    ensures AccessorOf(k) !in m.loaded ==> Dispatch(TaskName(k), payload, m) == Raised(NotLoadedMessage(AccessorOf(k)))
    ensures AccessorOf(k) in m.loaded && (forall i :: 0 <= i < |RequiredKeys(k)| ==> RequiredKeys(k)[i] in payload) ==>
      Dispatch(TaskName(k), payload, m) == m.parse(k, payload)
    ensures AccessorOf(k) in m.loaded && k != Web && "content" !in payload ==>
      Dispatch(TaskName(k), payload, m) == Raised("'content'")
    ensures AccessorOf(k) in m.loaded && k != Web && "content" in payload && "filename" !in payload ==>
      Dispatch(TaskName(k), payload, m) == Raised("'filename'")
    ensures AccessorOf(k) in m.loaded && k == Web && "url" !in payload ==>
      Dispatch(TaskName(k), payload, m) == Raised("'url'")
  {
    assert TaskKind(TaskName(k)) == Some(k);
    if k == Web {
      assert RequiredKeys(k) == ["url"];
      assert KeyErrorMessage("url") == "'url'";
    } else {
      assert RequiredKeys(k) == ["content", "filename"];
      assert KeyErrorMessage("content") == "'content'";
      assert KeyErrorMessage("filename") == "'filename'";
      if "content" in payload {
        assert MissingKey(payload, RequiredKeys(k)) == MissingKey(payload, ["filename"]);
      }
    }
  }

  /**
   * A document task whose parser is not loaded fails with the accessor's
   * message even when its payload lacks the required keys: the accessor is
   * reached before `p["content"]` is looked up.
   */
  lemma DocumentNotLoaded(m: Manager)
    requires DocumentParser !in m.loaded
    ensures Dispatch("parse_document", map[], m) == Raised("Document parser not loaded. Start server with --documents flag.")
  {
    DispatchRoutes(Document, map[], m);
  }

  /** Every task name outside the five recognised ones fails with the unknown-task message, whatever the payload. */
  lemma DispatchUnknown(task: string, payload: Payload, m: Manager)
    requires task !in {"parse_document", "parse_image", "parse_audio", "parse_video", "parse_web"}
    ensures Dispatch(task, payload, m) == Raised("Unknown task: " + task)
  {
  }

  // ---------------------------------------------------------------------------
  // Jobs
  // ---------------------------------------------------------------------------

  /** The mutable part of a job. */
  datatype JobState = JobState(status: JobStatus, result: Option<ParseResponse>, error: Option<string>, completedAt: Option<int>)

  /** The state of a newly created job. */
  const Fresh := JobState(Pending, None, None, None)

  /**
   * `_execute` as a function of the job state and the dispatch outcome: the
   * job ends DONE with the result or FAILED with the message, and is stamped
   * `now` either way. Each branch writes only its own field; the other keeps
   * whatever it held before.
   */
  function Executed(st: JobState, outcome: Outcome, now: int): (r: JobState)
    ensures r.status.IsTerminal() && r.completedAt == Some(now)
    ensures r.status == Done <==> outcome.Succeeded?
    ensures outcome.Succeeded? ==> r.result == Some(outcome.response) && r.error == st.error
    ensures outcome.Raised? ==> r.error == Some(outcome.message) && r.result == st.result
  {
    match outcome
    case Succeeded(response) => JobState(Done, Some(response), st.error, Some(now))
    case Raised(message) => JobState(Failed, st.result, Some(message), Some(now))
  }

  /** A job executed once from its initial state has a result or an error, never both. */
  lemma ExecutedOnce(outcome: Outcome, now: int)
    ensures var r := Executed(Fresh, outcome, now);
      && (r.status == Done ==> r.result.Some? && r.error == None)
      && (r.status == Failed ==> r.error.Some? && r.result == None)
  {
  }

  /** What `run_sync` does after executing: raise `RuntimeError(error)` when the error is a non-empty string, else return the result. */
  datatype SyncResult = Returned(value: Option<ParseResponse>) | RuntimeError(message: string)

  function SyncReturn(st: JobState): (r: SyncResult)
    ensures r.RuntimeError? <==> st.error.Some? && st.error.value != []
    ensures r.RuntimeError? ==> r.message == st.error.value
    ensures r.Returned? ==> r.value == st.result
  {
    if st.error.Some? && st.error.value != [] then RuntimeError(st.error.value) else Returned(st.result)
  }

  /**
   * `run_sync` on a new job: a successful dispatch returns its response; a
   * failure raises with its message, except that a failure whose message is
   * empty returns None without raising.
   */
  lemma RunSyncOutcome(outcome: Outcome, now: int)
    ensures outcome.Succeeded? ==> SyncReturn(Executed(Fresh, outcome, now)) == Returned(Some(outcome.response))
    ensures outcome.Raised? && outcome.message != [] ==>
      SyncReturn(Executed(Fresh, outcome, now)) == RuntimeError(outcome.message)
    ensures outcome.Raised? && outcome.message == [] ==> SyncReturn(Executed(Fresh, outcome, now)) == Returned(None)
  {
  }

  /**
   * Executing a job again does not clear the other branch's field: a job that
   * failed once and then succeeds keeps its old error, so `run_sync` raises
   * even though the dispatch succeeded.
   */
  lemma RerunKeepsError(response: ParseResponse, message: string, t0: int, t1: int)
    requires message != []
    ensures var failed := Executed(Fresh, Raised(message), t0);
      var rerun := Executed(failed, Succeeded(response), t1);
      rerun.status == Done && SyncReturn(rerun) == RuntimeError(message)
  {
  }

  /** A job: the dataclass of the queue module (`created_at` is a parameter, not the clock). */
  class Job {
    const id: string
    const task: string
    const payload: Payload
    const createdAt: int
    var status: JobStatus
    var result: Option<ParseResponse>
    var error: Option<string>
    var completedAt: Option<int>

    /** A new job is PENDING with no result, no error and no completion time. */
    constructor(id: string, task: string, payload: Payload, createdAt: int)
      ensures this.id == id && this.task == task && this.payload == payload && this.createdAt == createdAt
      ensures State() == Fresh
    {
      this.id := id;
      this.task := task;
      this.payload := payload;
      this.createdAt := createdAt;
      status := Pending;
      result := None;
      error := None;
      completedAt := None;
    }

    function State(): JobState
      reads this
    {
      JobState(status, result, error, completedAt)
    }
  }

  /** `_execute(job)`: RUNNING, then the dispatch outcome decides DONE or FAILED; the completion time is set on both paths. */
  method Execute(job: Job, m: Manager, now: int)
    modifies job
    ensures job.State() == Executed(old(job.State()), Dispatch(job.task, job.payload, m), now)
  {
    job.status := Running;
    var outcome := Dispatch(job.task, job.payload, m);
    match outcome {
      case Succeeded(response) =>
        job.result := Some(response);
        job.status := Done;
      case Raised(message) =>
        job.error := Some(message);
        job.status := Failed;
    }
    job.completedAt := Some(now);
  }

  // ---------------------------------------------------------------------------
  // The queue
  // ---------------------------------------------------------------------------

  /** An entry of the FIFO: a job, or the `None` sentinel that tells a worker to exit. */
  datatype Item = Sentinel | Queued(job: Job)

  /** The jobs ahead of the first sentinel, in queue order. */
  function BeforeSentinel(q: seq<Item>): (js: seq<Job>)
    ensures |js| <= |q|
    ensures forall i :: 0 <= i < |js| ==> q[i] == Queued(js[i])
    ensures |js| < |q| ==> q[|js|] == Sentinel
  {
    if q == [] || q[0] == Sentinel then [] else [q[0].job] + BeforeSentinel(q[1..])
  }

  /** What is left of the queue once a worker has taken everything up to and including the first sentinel. */
  function AfterSentinel(q: seq<Item>): seq<Item> {
    var n := |BeforeSentinel(q)|;
    if n < |q| then q[n + 1..] else []
  }

  function AsItems(js: seq<Job>): (q: seq<Item>)
    ensures |q| == |js| && forall i :: 0 <= i < |js| ==> q[i] == Queued(js[i])
  {
    seq(|js|, i requires 0 <= i < |js| => Queued(js[i]))
  }

  /**
   * Taking a queue's items from the front after `k` jobs: item `k` is the
   * first sentinel exactly when `k` jobs precede it, and otherwise it is the
   * next of those jobs.
   */
  lemma SentinelWalk(q: seq<Item>, k: nat)
    requires k < |q| && k <= |BeforeSentinel(q)|
    ensures var js := BeforeSentinel(q);
      && (q[k] == Sentinel ==> k == |js| && js[..k] == js && AfterSentinel(q) == q[k + 1..])
      && (q[k].Queued? ==> k < |js| && js[k] == q[k].job && js[..k + 1] == js[..k] + [q[k].job])
  {
    var js := BeforeSentinel(q);
    if k < |js| {
      assert q[k] == Queued(js[k]) && q[k] != Sentinel;
      assert js[..k + 1] == js[..k] + [js[k]];
    } else {
      assert k == |js| && q[k] == Sentinel;
      assert AfterSentinel(q) == q[k + 1..];
      assert js[..k] == js;
    }
  }

  /** A queue whose every item precedes the first sentinel has no sentinel. */
  lemma SentinelAbsent(q: seq<Item>)
    requires |BeforeSentinel(q)| == |q|
    ensures Sentinel !in q && BeforeSentinel(q)[..|q|] == BeforeSentinel(q)
  {
    forall i | 0 <= i < |q|
      ensures q[i] != Sentinel
    {
      assert q[i] == Queued(BeforeSentinel(q)[i]);
    }
  }

  /** A queue is its jobs before the first sentinel, then that sentinel and the rest, if there is one. */
  lemma {:induction false} SentinelSplit(q: seq<Item>)
    ensures Sentinel in q ==> q == AsItems(BeforeSentinel(q)) + [Sentinel] + AfterSentinel(q)
    ensures Sentinel !in q ==> q == AsItems(BeforeSentinel(q)) && AfterSentinel(q) == []
  {
    var js := BeforeSentinel(q);
    if |js| < |q| {
      assert q == q[..|js|] + [Sentinel] + q[|js| + 1..];
      assert q[..|js|] == AsItems(js);
    } else {
      assert Sentinel !in q by {
        forall i | 0 <= i < |q|
          ensures q[i] != Sentinel
        {
          assert q[i] == Queued(js[i]);
        }
      }
      assert q == AsItems(js);
    }
  }

  /** The `None` sentinels `stop` puts on the queue, one per worker. */
  function Sentinels(n: nat): (q: seq<Item>)
    ensures |q| == n && forall i :: 0 <= i < n ==> q[i] == Sentinel
  {
    seq(n, i => Sentinel)
  }

  /** The worker numbers `start` launches: 0 up to `max_workers`. */
  function WorkerIds(n: int): (ids: seq<int>)
    ensures |ids| == (if n < 0 then 0 else n) && forall i :: 0 <= i < |ids| ==> ids[i] == i
  {
    if n <= 0 then [] else seq(n, i => i)
  }

  /** What one pass of a worker's loop did. */
  datatype Step = NotRunning | WouldBlock | TookSentinel | Processed(job: Job)

  /** The jobs waiting in `q`, the objects a run of the workers may update. */
  function QueuedJobs(q: seq<Item>): set<Job>
  {
    set i | 0 <= i < |q| && q[i].Queued? :: q[i].job
  }

  lemma QueuedJobIn(q: seq<Item>, k: nat)
    requires k < |q|
    ensures q[k].Queued? ==> q[k].job in QueuedJobs(q)
  {
  }

  /** The job at index `k` of `js` occurs nowhere else in `js`. */
  ghost predicate OnlyAt(js: seq<Job>, k: nat)
    requires k < |js|
  {
    forall i :: 0 <= i < |js| && i != k ==> js[i] != js[k]
  }

  /** No job object occurs twice in `js`. */
  ghost predicate Distinct(js: seq<Job>) {
    forall k :: 0 <= k < |js| ==> OnlyAt(js, k)
  }

  /** The states of the jobs of `js`, in order. */
  ghost function States(js: seq<Job>): (st: seq<JobState>)
    reads js
    ensures |st| == |js| && forall i :: 0 <= i < |js| ==> st[i] == js[i].State()
  {
    seq(|js|, i requires 0 <= i < |js| reads js => js[i].State())
  }

  /** The dispatch outcome of each job of `js`, in order. */
  ghost function Outcomes(js: seq<Job>, m: Manager): (outs: seq<Outcome>)
    ensures |outs| == |js| && forall i :: 0 <= i < |js| ==> outs[i] == Dispatch(js[i].task, js[i].payload, m)
  {
    seq(|js|, i requires 0 <= i < |js| => Dispatch(js[i].task, js[i].payload, m))
  }

  /**
   * A worker has gone `k` jobs into a list of distinct jobs whose states are
   * now `sts` and were `st0` before it began, `outs` being their dispatch
   * outcomes: each of the first `k` jobs holds the execution of its outcome
   * from its earlier state, and the others are untouched.
   */
  predicate Progress(sts: seq<JobState>, st0: seq<JobState>, outs: seq<Outcome>, k: nat, now: int) {
    && |sts| == |st0| && |outs| == |st0| && k <= |st0|
    && (forall i :: 0 <= i < k ==> sts[i] == Executed(st0[i], outs[i], now))
    && (forall i :: k <= i < |st0| ==> sts[i] == st0[i])
  }

  /** Executing job `k` and touching nothing else moves `Progress` on by one job. */
  lemma ProgressStep(pre: seq<JobState>, post: seq<JobState>, st0: seq<JobState>, outs: seq<Outcome>, k: nat, now: int)
    requires Progress(pre, st0, outs, k, now) && k < |pre|
    requires post == pre[k := Executed(pre[k], outs[k], now)]
    ensures Progress(post, st0, outs, k + 1, now)
  {
  }

  /** Taking the jobs ahead of the first sentinel, and that sentinel, shortens the queue by as much. */
  lemma AfterSentinelSize(q: seq<Item>)
    ensures |AfterSentinel(q)| == |q| - |BeforeSentinel(q)| - (if Sentinel in q then 1 else 0)
  {
    SentinelSplit(q);
  }

  /** Every job of `js` has reached a terminal state, completed at `now`. */
  ghost predicate AllFinished(js: seq<Job>, now: int)
    reads js
  {
    forall i :: 0 <= i < |js| ==> js[i].status.IsTerminal() && js[i].completedAt == Some(now)
  }

  class JobQueue {
    const maxWorkers: int
    /** The registry: job id to job. */
    var jobs: map<string, Job>
    /** The FIFO of pending jobs and sentinels. */
    var queue: seq<Item>
    /** The numbers of the worker tasks started so far. */
    var workers: seq<int>
    var running: bool

    /**
     * The registry invariant: each job is registered under its own id, and
     * every queued job's id is registered.
     */
    ghost predicate Valid()
      reads this
    {
      && (forall id :: id in jobs ==> jobs[id].id == id)
      && (forall i :: 0 <= i < |queue| && queue[i].Queued? ==> queue[i].job.id in jobs)
    }

    constructor(maxWorkers: int)
      ensures this.maxWorkers == maxWorkers
      ensures jobs == map[] && queue == [] && workers == [] && !running
      ensures Valid()
    {
      this.maxWorkers := maxWorkers;
      jobs := map[];
      queue := [];
      workers := [];
      running := false;
    }

    /** `start`: set running and launch `max_workers` more workers. */
    method Start()
      requires Valid()
      modifies this
      ensures running && workers == old(workers) + WorkerIds(maxWorkers)
      ensures jobs == old(jobs) && queue == old(queue)
      ensures Valid()
    {
      running := true;
      for i := 0 to if maxWorkers < 0 then 0 else maxWorkers
        invariant workers == old(workers) + WorkerIds(maxWorkers)[..i]
        invariant running && jobs == old(jobs) && queue == old(queue)
      {
        assert WorkerIds(maxWorkers)[..i + 1] == WorkerIds(maxWorkers)[..i] + [i];
        workers := workers + [i];
      }
      assert WorkerIds(maxWorkers)[..|WorkerIds(maxWorkers)|] == WorkerIds(maxWorkers);
    }

    /** `stop`: clear running and put one sentinel per started worker at the tail of the queue. */
    method Stop()
      requires Valid()
      modifies this
      ensures !running && queue == old(queue) + Sentinels(|workers|)
      ensures jobs == old(jobs) && workers == old(workers)
      ensures QueueSize() == old(QueueSize()) + |workers|
      ensures Valid()
    {
      running := false;
      for i := 0 to |workers|
        invariant queue == old(queue) + Sentinels(i)
        invariant !running && jobs == old(jobs) && workers == old(workers)
        invariant forall k :: 0 <= k < |queue| && queue[k].Queued? ==> queue[k].job.id in jobs
      {
        assert Sentinels(i + 1) == Sentinels(i) + [Sentinel];
        queue := queue + [Sentinel];
      }
    }

    /** `enqueue(job)`: register the job under its id and put it at the tail of the queue. */
    method Enqueue(job: Job)
      requires Valid()
      modifies this
      ensures jobs == old(jobs)[job.id := job] && queue == old(queue) + [Queued(job)]
      ensures running == old(running) && workers == old(workers)
      ensures GetJob(job.id) == Some(job) && QueueSize() == old(QueueSize()) + 1
      ensures Valid()
    {
      jobs := jobs[job.id := job];
      queue := queue + [Queued(job)];
    }

    /** `run_sync(job)`: register the job, execute it at once, then raise or return as `SyncReturn` says. */
    method RunSync(job: Job, m: Manager, now: int) returns (r: SyncResult)
      requires Valid()
      modifies this, job
      ensures jobs == old(jobs)[job.id := job] && queue == old(queue)
      ensures running == old(running) && workers == old(workers)
      ensures job.State() == Executed(old(job.State()), Dispatch(job.task, job.payload, m), now)
      ensures r == SyncReturn(job.State())
      ensures GetJob(job.id) == Some(job)
      ensures Valid()
    {
      jobs := jobs[job.id := job];
      Execute(job, m, now);
      if job.error.Some? && job.error.value != [] {
        return RuntimeError(job.error.value);
      }
      return Returned(job.result);
    }

    /** `get_job(id)`: the registered job, or None. */
    function GetJob(id: string): (r: Option<Job>)
      reads this
      ensures r.Some? <==> id in jobs
      ensures r.Some? ==> r.value == jobs[id]
      ensures Valid() && r.Some? ==> r.value.id == id
    {
      if id in jobs then Some(jobs[id]) else None
    }

    /** `queue_size()`: the number of entries in the queue, sentinels included. */
    function QueueSize(): (n: nat)
      reads this
      ensures n == |queue|
    {
      |queue|
    }

    /**
     * One pass of `_worker`'s loop: nothing when the queue is not running;
     * otherwise take the head of the queue, and either exit on the sentinel
     * or execute the job. A pass on an empty queue would wait and changes
     * nothing. The ghost `done` lists jobs finished by earlier passes: the
     * pass touches no job but the one it executes, so they stay finished;
     * and when that job occurs in the ghost list `js` only at index `k`, the
     * states of `js` change at `k` alone.
     */
    method WorkerStep(m: Manager, now: int, ghost done: seq<Job>, ghost js: seq<Job>, ghost k: nat) returns (step: Step)
      requires Valid()
      modifies this, if queue != [] && queue[0].Queued? then {queue[0].job} else {}
      ensures jobs == old(jobs) && running == old(running) && workers == old(workers)
      ensures !old(running) ==> step == NotRunning && queue == old(queue)
      ensures old(running) && old(queue) == [] ==> step == WouldBlock && queue == []
      ensures old(running) && old(queue) != [] ==> queue == old(queue)[1..]
      ensures old(running) && old(queue) != [] && old(queue)[0] == Sentinel ==> step == TookSentinel
      ensures old(running) && old(queue) != [] && old(queue)[0].Queued? ==>
        var job := old(queue)[0].job;
        step == Processed(job) && job.State() == Executed(old(job.State()), Dispatch(job.task, job.payload, m), now)
      ensures step.Processed? && old(AllFinished(done, now)) ==> AllFinished(done + [step.job], now)
      ensures step.Processed? && k < |js| && step.job == js[k] && OnlyAt(js, k) ==>
        States(js) == old(States(js))[k := step.job.State()]
      ensures Valid()
    {
      if !running {
        return NotRunning;
      }
      if queue == [] {
        return WouldBlock;
      }
      var item := queue[0];
      queue := queue[1..];
      if item == Sentinel {
        return TookSentinel;
      }
      ghost var pre := States(js);
      Execute(item.job, m, now);
      if k < |js| && item.job == js[k] && OnlyAt(js, k) {
        ghost var post := States(js);
        forall i | 0 <= i < |js|
          ensures post[i] == pre[k := item.job.State()][i]
        {
        }
      }
      if old(AllFinished(done, now)) {
        forall i | 0 <= i < |done| + 1
          ensures (done + [item.job])[i].status.IsTerminal() && (done + [item.job])[i].completedAt == Some(now)
        {
          if i < |done| {
            assert (done + [item.job])[i] == done[i];
            assert old(done[i].status.IsTerminal() && done[i].completedAt == Some(now));
          }
        }
      }
      return Processed(item.job);
    }

    /**
     * `_worker` run alone until it returns or would wait. On a stopped queue
     * the `while self._running` loop does not run and the worker returns at
     * once (`NotRunning`). On a running queue it takes entries from the head
     * in order and executes every job up to the first sentinel (a failed job
     * does not stop it); it returns on that sentinel, which it consumes
     * (`TookSentinel`), and with no sentinel it is left waiting on the empty
     * queue (`WouldBlock`). Each job it took is executed once from the state
     * it had before, unless the same job object was queued twice.
     */
    method RunWorker(m: Manager, now: int) returns (processed: seq<Job>, reason: Step)
      requires Valid()
      modifies this, QueuedJobs(queue)
      ensures jobs == old(jobs) && running == old(running) && workers == old(workers)
      ensures !reason.Processed?
      ensures !old(running) ==> processed == [] && reason == NotRunning && queue == old(queue)
      ensures old(running) ==> processed == BeforeSentinel(old(queue)) && queue == AfterSentinel(old(queue))
      ensures old(running) ==> (reason == TookSentinel <==> Sentinel in old(queue))
      ensures old(running) ==> (reason == WouldBlock <==> Sentinel !in old(queue))
      ensures old(running) ==> QueueSize() == old(QueueSize()) - |processed| - (if reason == TookSentinel then 1 else 0)
      ensures forall i :: 0 <= i < |processed| ==>
        processed[i].status.IsTerminal() && processed[i].completedAt == Some(now)
      ensures old(running) && Distinct(BeforeSentinel(old(queue))) ==>
        Progress(States(processed), old(States(BeforeSentinel(queue))), Outcomes(processed, m), |processed|, now)
      ensures Valid()
    {
      if !running {
        return [], NotRunning;
      }
      ghost var js := BeforeSentinel(queue);
      ghost var st0 := States(js);
      assert st0 == old(States(BeforeSentinel(queue)));
      AfterSentinelSize(queue);
      processed, reason := Drain(m, now, queue, js, st0, Outcomes(js, m));
    }

    /**
     * A worker on the running queue, started on `q0`, has taken the jobs
     * `processed` from the front of the jobs `js` ahead of its first
     * sentinel: they are finished at `now` and, when no job occurs twice in
     * `js`, each holds the execution of its outcome in `outs` from its state in
     * `st0`.
     */
    ghost predicate Draining(q0: seq<Item>, js: seq<Job>, st0: seq<JobState>, outs: seq<Outcome>, processed: seq<Job>, now: int)
      reads this, js
    {
      && Valid() && running && js == BeforeSentinel(q0)
      && |processed| <= |js| && processed == js[..|processed|] && queue == q0[|processed|..]
      && AllFinished(processed, now)
      && (Distinct(js) ==> Progress(States(js), st0, outs, |processed|, now))
    }

    /**
     * The loop of `RunWorker` on a running queue `q0`: it takes the jobs
     * ahead of the first sentinel in order and stops on that sentinel, or
     * runs out of items when there is none.
     */
    method Drain(m: Manager, now: int, ghost q0: seq<Item>, ghost js: seq<Job>, ghost st0: seq<JobState>, ghost outs: seq<Outcome>)
      returns (processed: seq<Job>, reason: Step)
      requires Valid() && running && queue == q0 && js == BeforeSentinel(q0)
      requires st0 == States(js) && outs == Outcomes(js, m)
      modifies this, QueuedJobs(q0)
      ensures jobs == old(jobs) && running && workers == old(workers) && Valid()
      ensures processed == js && queue == AfterSentinel(q0)
      ensures (reason == TookSentinel <==> Sentinel in q0) && (reason == WouldBlock <==> Sentinel !in q0)
      ensures AllFinished(processed, now)
      ensures Distinct(js) ==> Progress(States(js), st0, outs, |js|, now)
    {
      processed := [];
      while queue != []
        invariant Draining(q0, js, st0, outs, processed, now)
        invariant jobs == old(jobs) && workers == old(workers)
        decreases |queue|
      {
        QueuedJobIn(q0, |processed|);
        var step := DrainStep(m, now, q0, js, st0, outs, processed);
        if step == TookSentinel {
          return processed, TookSentinel;
        }
        processed := processed + [step.job];
      }
      SentinelAbsent(q0);
      reason := WouldBlock;
    }

    /**
     * One pass of `Drain`'s loop: the worker takes the next item of `q0` and,
     * when it is a job, `Draining` moves on by that job.
     */
    method DrainStep(m: Manager, now: int, ghost q0: seq<Item>, ghost js: seq<Job>, ghost st0: seq<JobState>,
                     ghost outs: seq<Outcome>, ghost processed: seq<Job>)
      returns (step: Step)
      requires Draining(q0, js, st0, outs, processed, now) && queue != [] && outs == Outcomes(js, m)
      modifies this, if queue != [] && queue[0].Queued? then {queue[0].job} else {}
      ensures jobs == old(jobs) && workers == old(workers)
      ensures step == TookSentinel || step.Processed?
      ensures step == TookSentinel ==>
        && Valid() && running && processed == js && queue == AfterSentinel(q0) && Sentinel in q0
        && AllFinished(processed, now) && (Distinct(js) ==> Progress(States(js), st0, outs, |js|, now))
      ensures step.Processed? ==> Draining(q0, js, st0, outs, processed + [step.job], now)
    {
      var k := |processed|;
      SentinelWalk(q0, k);
      assert queue[0] == q0[k];
      assert queue[1..] == q0[k + 1..];
      ghost var pre := States(js);
      step := WorkerStep(m, now, processed, js, k);
      if step.Processed? && Distinct(js) {
        assert OnlyAt(js, k);
        ProgressStep(pre, States(js), st0, outs, k, now);
      }
    }
  }
}
