/** Task payloads, what the processor does with one, and the path a folder task creates. */
module Tasks {
  import opened Paths
  import opened PathExtract
  import LocalPaths
  import ObjectKeys
  import Listing

  datatype TaskPayload = TaskPayload(id: string, kind: string, params: map<string, string>)

  datatype StorageCall = MakeFolder(path: string) | MoveFile(src: string, dst: string)

  /** Process either makes one storage call or fails without touching storage. */
  datatype Plan = Call(call: StorageCall) | Reject

  function Param(t: TaskPayload, name: string): string {
    if name in t.params then t.params[name] else ""
  }

  function PlanFor(t: TaskPayload): Plan {
    if t.kind == "create_folder" then
      if Param(t, "parent") == "" || Param(t, "name") == "" then Reject
      else Call(MakeFolder(TrimSlash(Param(t, "parent")) + "/" + Param(t, "name")))
    else if t.kind == "move_file" then
      if Param(t, "src") == "" || Param(t, "dst") == "" then Reject
      else Call(MoveFile(Param(t, "src"), Param(t, "dst")))
    else Reject
  }

  predicate HasParam(t: TaskPayload, name: string) {
    name in t.params && t.params[name] != ""
  }

  /** The payloads that ask for something: a known kind with both its parameters. */
  predicate WellFormed(t: TaskPayload) {
    || (t.kind == "create_folder" && HasParam(t, "parent") && HasParam(t, "name"))
    || (t.kind == "move_file" && HasParam(t, "src") && HasParam(t, "dst"))
  }

  /** Process makes a storage call exactly for those, and it is the one they ask for. */
  lemma {:induction false} CallIffWellFormed(t: TaskPayload)
    ensures PlanFor(t).Call? <==> WellFormed(t)
    ensures WellFormed(t) && t.kind == "move_file" ==>
      PlanFor(t) == Call(MoveFile(t.params["src"], t.params["dst"]))
    ensures WellFormed(t) && t.kind == "create_folder" ==>
      PlanFor(t) == Call(MakeFolder(TrimSlash(t.params["parent"]) + "/" + t.params["name"]))
  {
  }

  /** The payload EnqueueCreateFolder builds for the gRPC handler. */
  function CreateFolderTask(id: string, parent: string, name: string, requestedBy: string): TaskPayload {
    TaskPayload(id, "create_folder", map["parent" := parent, "name" := name, "by" := requestedBy])
  }

  /** The path CreateFolder requests spell out, in the check and in the worker alike. */
  function Spelled(parent: string, name: string): string {
    TrimSlash(parent) + "/" + name
  }

  /** That is parent and name joined by a slash, of which the parent may bring its own. */
  lemma {:induction false} SpelledIs(parent: string, name: string)
    ensures parent == "" || parent[|parent| - 1] != '/' ==> Spelled(parent, name) == parent + "/" + name
    ensures Spelled(parent + "/", name) == parent + "/" + name
  {
    assert (parent + "/")[..|parent|] == parent;
  }

  /** The path a request carries. The list, upload and download handlers pass it on to storage as it
      is; the handler of initiate requests is a stub that passes nothing. */
  function Carried(req: Request): string
    requires req.ListObjects? || req.UploadObject? || req.DownloadObject? || req.InitiateUpload?
  {
    match req
    case ListObjects(prefix) => prefix
    case UploadObject(path) => path
    case DownloadObject(path) => path
    case InitiateUpload(targetPath) => targetPath
  }

  /** A request is checked for the place in local storage that its own path names, exactly
      when its path does not end in whitespace and any leading whitespace is climbed out of. */
  lemma {:induction false} RequestCheckedIsUsed(base: string, req: Request)
    requires req.ListObjects? || req.UploadObject? || req.DownloadObject? || req.InitiateUpload?
    ensures
      var x := Carried(req);
      LocalPaths.Full(base, ExtractPath(req).path) == LocalPaths.Full(base, x) <==>
        !EndsWithSpace(x) && (StartsWithSpace(x) ==> ClimbsBack(x))
  {
    NormalizedKeepsLocation(base, Carried(req));
  }

  /** On S3 and GCS an upload or download is checked for the object it names exactly when its path has
      no outer whitespace and no double slash. */
  lemma {:induction false} ObjectCheckedIsUsed(ns: string, req: Request)
    requires req.UploadObject? || req.DownloadObject? || req.InitiateUpload?
    ensures
      var x := Carried(req);
      ObjectKeys.Key(ns, ExtractPath(req).path) == ObjectKeys.Key(ns, x) <==>
        !StartsWithSpace(x) && !EndsWithSpace(x) && !HasDouble(Root(x))
  {
    NormalizedKeepsKey(ns, Carried(req));
  }

  lemma {:induction false} NormalizedKeepsKey(ns: string, x: string)
    ensures ObjectKeys.Key(ns, Normalized(x)) == ObjectKeys.Key(ns, x) <==>
      !StartsWithSpace(x) && !EndsWithSpace(x) && !HasDouble(Root(x))
  {
    hide Collapse, TrimSpace, HasDouble;
    ObjectKeys.KeyEqualIff(ns, Normalized(x), x);
    TrimShortens(x);
    var r := Root(TrimSpace(x));
    CollapseShortens(r);
    CollapseRooted(r);
    CollapseNoDouble(r);
    if !HasDouble(r) {
      CollapseFixed(r);
    }
    assert Normalized(x) == "/" + ObjectKeys.TrimPrefix(Normalized(x), "/");
    assert Root(x) == "/" + ObjectKeys.TrimPrefix(x, "/");
  }

  /** The upload to "/a//b" is checked for "/a/b" and stored under another key. */
  lemma {:induction false} DoubleSlashEscapesCheck()
    ensures ExtractPath(UploadObject("/a//b")).path == "/a/b"
    ensures ObjectKeys.Key("", "/a//b") == "a//b" && ObjectKeys.Key("", "/a/b") == "a/b"
  {
    var s := "/a//b";
    assert TrimSpace(s) == s && Root(s) == s;
    assert s[1..] == "a//b" && s[1..][1..] == "//b" && s[1..][1..][1..] == "/b";
    assert Collapse("/b") == "/b" && Collapse("//b") == "/b" && Collapse("a//b") == "a/b";
    assert "/a/b"[1..] == "a/b";
  }

  /** A listing is checked for the directory it reads exactly when its prefix has no outer whitespace,
      and no double slash but a leading one. */
  lemma {:induction false} ListCheckedIsUsed(ns: string, prefix: string)
    ensures
      Listing.KeyPrefix(ns, ExtractPath(ListObjects(prefix)).path) == Listing.KeyPrefix(ns, prefix) <==>
        !StartsWithSpace(prefix) && !EndsWithSpace(prefix) && !HasDouble("/" + Listing.ListedDir(prefix))
  {
    hide Normalized, HasDouble;
    Listing.KeyPrefixEqualIff(ns, Normalized(prefix), prefix);
    if StartsWithSpace(prefix) || EndsWithSpace(prefix) {
      SpacedPrefixDiffers(prefix);
    } else {
      TrimShortens(prefix);
      UnspacedPrefixIff(prefix);
    }
  }

  lemma {:induction false} NormalizedBelow(x: string)
    ensures Normalized(x) == "/" + Listing.ListedDir(Normalized(x)) && !Rooted(Listing.ListedDir(Normalized(x)))
  {
    hide Normalized;
    NormalizedForm(x);
  }

  lemma {:induction false} UnspacedPrefixIff(x: string)
    requires TrimSpace(x) == x
    ensures Listing.Slashed(Listing.ListedDir(Normalized(x))) == Listing.Slashed(Listing.ListedDir(x)) <==>
      !HasDouble("/" + Listing.ListedDir(x))
  {
    hide Collapse, HasDouble;
    var t, n := Listing.ListedDir(x), Listing.ListedDir(Normalized(x));
    NormalizedBelow(x);
    DoubleCons(t);
    if !Rooted(t) {
      CollapseBelow(x);
      assert n == Collapse(t);
      CollapseNoDouble(t);
      if !HasDouble(t) {
        CollapseFixed(t);
      } else {
        CollapseLast(t);
        Listing.SlashedSame(n, t);
      }
    } else {
      assert Listing.Slashed(t)[0] == '/' && (n != "" ==> Listing.Slashed(n)[0] == n[0]);
    }
  }

  lemma {:induction false} DoubleCons(t: string)
    ensures HasDouble("/" + t) <==> Rooted(t) || HasDouble(t)
    ensures HasDouble(t) ==> t != ""
  {
    var s := "/" + t;
    if HasDouble(s) && !Rooted(t) {
      var i :| 0 <= i < |s| - 1 && s[i] == '/' && s[i + 1] == '/';
      assert t[i - 1] == '/' && t[i] == '/';
    }
    if Rooted(t) {
      assert s[0] == '/' && s[1] == '/';
    }
    if HasDouble(t) {
      var i :| 0 <= i < |t| - 1 && t[i] == '/' && t[i + 1] == '/';
      assert s[i + 1] == '/' && s[i + 2] == '/';
    }
  }

  lemma {:induction false} CollapseBelow(x: string)
    requires !Rooted(Listing.ListedDir(x))
    ensures Collapse(Root(x)) == "/" + Collapse(Listing.ListedDir(x))
  {
    var t := Listing.ListedDir(x);
    assert Collapse("/" + t) == "/" + Collapse(t);
    if Root(x) != "/" + t {
      assert Root(x) == "/" + ("/" + t);
    }
  }

  lemma {:induction false} SpacedPrefixDiffers(x: string)
    requires StartsWithSpace(x) || EndsWithSpace(x)
    ensures Listing.Slashed(Listing.ListedDir(Normalized(x))) != Listing.Slashed(Listing.ListedDir(x))
  {
    hide Collapse, TrimSpace;
    var t, n, r := Listing.ListedDir(x), Listing.ListedDir(Normalized(x)), Root(TrimSpace(x));
    NormalizedBelow(x);
    NormalizedForm(x);
    TrimShortens(x);
    CollapseShortens(r);
    assert !IsSpace('/');
    if EndsWithSpace(x) {
      assert t != "" && t[|t| - 1] == x[|x| - 1];
      assert n != "" ==> n[|n| - 1] == Normalized(x)[|Normalized(x)| - 1];
      if n != "" && !Listing.EndsSlash(n) {
        Listing.SlashedSame(n, t);
      }
    } else {
      TrimKeepsEnd(x);
      CollapseLast(r);
      assert n != "" ==> n[|n| - 1] == x[|x| - 1];
    }
  }

  lemma {:induction false} NormalizedKeepsClean(x: string)
    ensures Clean(Normalized(x)) == Clean("/" + x) <==> !EndsWithSpace(x) && (StartsWithSpace(x) ==> ClimbsBack(x))
    ensures Clean("/" + Normalized(x)) == Clean(Normalized(x))
  {
    hide Comps, Split, Normalized, ClimbsBack;
    TrimKeepsPath(x);
    NormalizedClean(x);
    NormalizedForm(x);
    CleanEqualIff(Normalized(x), "/" + x);
    CleanEqualIff(Normalized(x), "/" + Normalized(x));
    RootComps(Normalized(x));
  }

  lemma {:induction false} NormalizedKeepsLocation(base: string, x: string)
    ensures LocalPaths.Full(base, Normalized(x)) == LocalPaths.Full(base, x) <==>
      !EndsWithSpace(x) && (StartsWithSpace(x) ==> ClimbsBack(x))
  {
    hide Clean, Normalized, ClimbsBack, LocalPaths.Full;
    NormalizedKeepsClean(x);
    LocalPaths.FullSameLocation(base, Normalized(x), x);
  }

  /** The folder that is checked is the folder that is created, on every base, exactly when the
      spelled path does not end in whitespace and any leading whitespace belongs to a component
      that is climbed out of again. A request without parent or name creates nothing. */
  lemma {:induction false} FolderCheckedIsCreated(
    base: string, id: string, parent: string, name: string, requestedBy: string)
    ensures
      var x := Spelled(parent, name);
      var checked := ExtractPath(CreateFolder(parent, name)).path;
      var plan := PlanFor(CreateFolderTask(id, parent, name, requestedBy));
      && plan == (if parent == "" || name == "" then Reject else Call(MakeFolder(x)))
      && (Clean(checked) == Clean("/" + x) <==>
          !EndsWithSpace(x) && (StartsWithSpace(x) ==> ClimbsBack(x)))
      && (LocalPaths.Full(base, checked) == LocalPaths.Full(base, x) <==>
          !EndsWithSpace(x) && (StartsWithSpace(x) ==> ClimbsBack(x)))
  {
    hide Clean, Normalized, ClimbsBack, LocalPaths.Full;
    NormalizedKeepsClean(Spelled(parent, name));
    NormalizedKeepsLocation(base, Spelled(parent, name));
  }

  /** A folder named with a trailing space is created next to the one that was checked. */
  lemma {:induction false} TrailingSpaceEscapesCheck(base: string, id: string, requestedBy: string)
    ensures LocalPaths.Full(base, ExtractPath(CreateFolder("/a", "b ")).path)
         != LocalPaths.Full(base, Spelled("/a", "b "))
    ensures PlanFor(CreateFolderTask(id, "/a", "b ", requestedBy)) == Call(MakeFolder("/a/b "))
  {
    FolderCheckedIsCreated(base, id, "/a", "b ", requestedBy);
    assert Spelled("/a", "b ") == "/a/b ";
    assert EndsWithSpace("/a/b ");
  }
}

/** The Redis task list, its workers, and every interleaving of enqueuers and workers. */
module TaskQueue {
  import opened Blobs
  import opened Tasks

  type Task = TaskPayload

  /* ---------- the queue and one worker, as written ---------- */

  class RedisQueue {
    var tasks: seq<Task>
    var status: map<string, string>

    /** RPUSH; a call that failed late has still pushed. */
    method Enqueue(payload: Task, push: Outcome) returns (ok: bool)
      modifies this`tasks
      ensures ok == push.Done?
      ensures tasks == if push.Failed? then old(tasks) else old(tasks) + [payload]
    {
      if !push.Failed? {
        tasks := tasks + [payload];
      }
      ok := push.Done?;
    }

    /** The caller gets the id under which the task is queued, or "" and an error; then the task may
        be queued all the same. */
    method EnqueueCreateFolder(now: string, parent: string, name: string, requestedBy: string, push: Outcome)
      returns (id: string, ok: bool)
      modifies this`tasks
      ensures ok == push.Done? && id == if ok then now else ""
      ensures tasks == if push.Failed? then old(tasks) else old(tasks) + [CreateFolderTask(now, parent, name, requestedBy)]
      ensures !push.Failed? ==>
        var last := tasks[|tasks| - 1];
        && last.id == now && last.kind == "create_folder"
        && last.params == map["parent" := parent, "name" := name, "by" := requestedBy]
    {
      ok := Enqueue(CreateFolderTask(now, parent, name, requestedBy), push);
      id := if ok then now else "";
    }

    /** BLPOP: on an empty list it returns only by failing. Either the caller gets the first task, or an
        error, and then the first task may be gone all the same. */
    method Pop(reply: Outcome) returns (r: Popped)
      requires tasks != [] || reply.Failed?
      modifies this`tasks
      ensures r.Got? <==> reply.Done?
      ensures r.Got? ==> [r.task] + tasks == old(tasks)
      ensures r.PopError? ==> tasks == if reply.FailedLate? then old(tasks)[1..] else old(tasks)
    {
      r := PopError;
      if !reply.Failed? {
        if reply.Done? {
          r := Got(tasks[0]);
        }
        tasks := tasks[1..];
      }
    }

    method Complete(id: string, value: string, stored: bool)
      modifies this`status
      ensures status == if stored then old(status)[id := value] else old(status)
    {
      if stored {
        status := status[id := value];
      }
    }
  }

  datatype Popped = Got(task: Task) | PopError

  /** One turn of Worker.Start: the pop failed, its reply was lost, or a task was taken, its storage
      call (if it makes one) succeeded or not, and its status was stored or not. */
  datatype Turn = PopFailed | PopLost | Took(storageOk: bool, stored: bool)

  function TurnActions(turn: Turn): seq<Action> {
    match turn
    case PopFailed => []
    case PopLost => [PopDropped(0)]
    case Took(storageOk, stored) => [Pop(0), Process(0, storageOk), Complete(0, stored)]
  }

  function TurnsActions(turns: seq<Turn>): seq<Action> {
    if turns == [] then [] else TurnsActions(turns[..|turns| - 1]) + TurnActions(turns[|turns| - 1])
  }

  /** Worker.Start over any number of turns does to Redis what the machine below does. */
  method Start(q: RedisQueue, turns: seq<Turn>)
    modifies q
    ensures q.tasks == Run(Initial(1, old(q.tasks), old(q.status)), TurnsActions(turns)).queue
    ensures q.status == Run(Initial(1, old(q.tasks), old(q.status)), TurnsActions(turns)).status
  {
    hide Run, TurnsActions, PlanFor;
    ghost var s0 := Initial(1, q.tasks, q.status);
    FirstTurn(s0);
    for i := 0 to |turns|
      invariant var s := Run(s0, TurnsActions(turns[..i])); s.workers == [Idle] && q.tasks == s.queue && q.status == s.status
    {
      NextTurn(s0, turns[..i], turns[i]);
      assert turns[..i + 1] == turns[..i] + [turns[i]];
      OneTurn(Run(s0, TurnsActions(turns[..i])), turns[i]);
      match turns[i] {
        case PopFailed =>
          var _ := q.Pop(Failed);
        case PopLost =>
          if q.tasks != [] {
            var _ := q.Pop(FailedLate);
          }
        case Took(storageOk, stored) =>
          if q.tasks != [] {
            var popped := q.Pop(Done);
            var t := popped.task;
            if ProcessOk(t, storageOk) {
              q.Complete(t.id, "success", stored);
            } else {
              q.Complete(t.id, "failed", stored);
            }
          }
      }
    }
    assert turns[..|turns|] == turns;
  }

  lemma {:induction false} FirstTurn(s: State)
    ensures Run(s, TurnsActions([])) == s
  {
  }

  lemma {:induction false} NextTurn(s: State, turns: seq<Turn>, turn: Turn)
    ensures Run(s, TurnsActions(turns + [turn])) == Run(Run(s, TurnsActions(turns)), TurnActions(turn))
  {
    assert (turns + [turn])[..|turns|] == turns;
    RunAppend(s, TurnsActions(turns), TurnActions(turn));
  }

  /** What one turn does to a lone worker's Redis. */
  lemma {:induction false} OneTurn(s: State, turn: Turn)
    requires s.workers == [Idle]
    ensures
      var s' := Run(s, TurnActions(turn));
      s'.workers == [Idle] && s'.enqueued == s.enqueued &&
      if s.queue == [] || turn.PopFailed? then s'.queue == s.queue && s'.status == s.status
      else
        s'.queue == s.queue[1..] &&
        s'.status ==
          if turn.Took? && turn.stored then s.status[s.queue[0].id := Word(ProcessOk(s.queue[0], turn.storageOk))]
          else s.status
  {
    if turn.PopLost? {
      RunOne(s, PopDropped(0));
    } else if turn.Took? {
      var acts := TurnActions(turn);
      var s1 := Step(s, acts[0]);
      var s2 := Step(s1, acts[1]);
      RunOne(s2, acts[2]);
    }
  }

  /* ---------- all interleavings ---------- */

  datatype WorkerState = Idle | Holding(task: Task) | Processed(task: Task, ok: bool) | Stopped

  /** queue and status are Redis; the rest is what has happened so far. */
  datatype State = State(
    queue: seq<Task>,
    status: map<string, string>,
    workers: seq<WorkerState>,
    enqueued: seq<Task>,
    popped: seq<Task>,
    processed: seq<(Task, bool)>,
    finished: seq<Task>,
    lostBefore: seq<Task>,
    lostAfter: seq<Task>,
    stops: nat,
    drops: nat)

  /** One atomic step of an enqueuer or of worker w, with its outcome. PopDropped is a BLPOP whose
      reply is lost after the server has popped; Stop ends worker w wherever it is. */
  datatype Action =
    | Enqueue(task: Task, stored: bool)
    | Pop(w: nat)
    | PopDropped(w: nat)
    | Process(w: nat, storageOk: bool)
    | Complete(w: nat, stored: bool)
    | Stop(w: nat)

  function Initial(n: nat, queue: seq<Task>, status: map<string, string>): State {
    State(queue, status, seq(n, _ => Idle), queue, [], [], [], [], [], 0, 0)
  }

  function ProcessOk(t: Task, storageOk: bool): bool {
    PlanFor(t).Call? && storageOk
  }

  function Word(ok: bool): string {
    if ok then "success" else "failed"
  }

  /** A step that is not possible in s (a blocked pop, a stopped worker) leaves s as it is. */
  function Step(s: State, a: Action): State {
    match a
    case Enqueue(t, stored) =>
      if stored then s.(queue := s.queue + [t], enqueued := s.enqueued + [t]) else s
    case Pop(w) =>
      if w < |s.workers| && s.workers[w].Idle? && s.queue != [] then
        s.(queue := s.queue[1..], popped := s.popped + [s.queue[0]],
           workers := s.workers[w := Holding(s.queue[0])])
      else s
    case PopDropped(w) =>
      if w < |s.workers| && s.workers[w].Idle? && s.queue != [] then
        s.(queue := s.queue[1..], popped := s.popped + [s.queue[0]],
           lostBefore := s.lostBefore + [s.queue[0]], drops := s.drops + 1)
      else s
    case Process(w, storageOk) =>
      if w < |s.workers| && s.workers[w].Holding? then
        var t := s.workers[w].task;
        var ok := ProcessOk(t, storageOk);
        s.(workers := s.workers[w := Processed(t, ok)], processed := s.processed + [(t, ok)])
      else s
    case Complete(w, stored) =>
      if w < |s.workers| && s.workers[w].Processed? then
        var t := s.workers[w].task;
        s.(workers := s.workers[w := Idle], finished := s.finished + [t],
           status := if stored then s.status[t.id := Word(s.workers[w].ok)] else s.status)
      else s
    case Stop(w) =>
      if w < |s.workers| && !s.workers[w].Stopped? then
        s.(workers := s.workers[w := Stopped], stops := s.stops + 1,
           lostBefore := if s.workers[w].Holding? then s.lostBefore + [s.workers[w].task] else s.lostBefore,
           lostAfter := if s.workers[w].Processed? then s.lostAfter + [s.workers[w].task] else s.lostAfter)
      else s
  }

  function Run(s: State, acts: seq<Action>): State
    decreases |acts|
  {
    if acts == [] then s else Run(Step(s, acts[0]), acts[1..])
  }

  lemma {:induction false} RunOne(s: State, a: Action)
    ensures Run(s, [a]) == Step(s, a)
  {
  }

  lemma {:induction false} RunAppend(s: State, acts: seq<Action>, more: seq<Action>)
    ensures Run(s, acts + more) == Run(Run(s, acts), more)
    decreases |acts|
  {
    if acts == [] {
      assert acts + more == more;
    } else {
      assert (acts + more)[1..] == acts[1..] + more;
      RunAppend(Step(s, acts[0]), acts[1..], more);
    }
  }

  /* ---------- what every run keeps ---------- */

  /** Whether worker state w holds t, before (done = false) or after (done = true) processing. */
  function Holds(w: WorkerState, done: bool, t: Task): nat {
    if (if done then w.Processed? else w.Holding?) && w.task == t then 1 else 0
  }

  /** How many workers hold t. */
  function InHand(ws: seq<WorkerState>, done: bool, t: Task): nat {
    if ws == [] then 0 else Holds(ws[0], done, t) + InHand(ws[1..], done, t)
  }

  function TasksOf(processed: seq<(Task, bool)>): seq<Task> {
    seq(|processed|, i requires 0 <= i < |processed| => processed[i].0)
  }

  /** Pops follow the order of enqueueing. */
  ghost predicate Fifo(s: State) {
    s.enqueued == s.popped + s.queue
  }

  /** Every copy of t that was popped is in exactly one place, and processed exactly once if at all. */
  ghost predicate Conserved(s: State, t: Task) {
    && multiset(s.popped)[t] ==
         InHand(s.workers, false, t) + InHand(s.workers, true, t) + multiset(s.finished)[t]
         + multiset(s.lostBefore)[t] + multiset(s.lostAfter)[t]
    && multiset(TasksOf(s.processed))[t] ==
         InHand(s.workers, true, t) + multiset(s.finished)[t] + multiset(s.lostAfter)[t]
  }

  ghost predicate LossBounded(s: State) {
    |s.lostBefore| + |s.lostAfter| <= s.stops + s.drops
  }

  ghost predicate WorkersRecorded(s: State) {
    forall w :: 0 <= w < |s.workers| && s.workers[w].Processed? ==>
      (s.workers[w].task, s.workers[w].ok) in s.processed
  }

  /** Every status beyond those of the start belongs to a finished task, and is "success" only if
      Process returned no error for it. */
  ghost predicate StatusEarned(s: State, status0: map<string, string>) {
    forall id :: id in s.status && !(id in status0 && status0[id] == s.status[id]) ==>
      Earned(s, id, s.status[id])
  }

  ghost predicate Earned(s: State, id: string, value: string) {
    exists t, ok :: EarnedBy(s, id, value, t, ok)
  }

  ghost predicate EarnedBy(s: State, id: string, value: string, t: Task, ok: bool) {
    (t, ok) in s.processed && t in s.finished && t.id == id && value == if ok then "success" else "failed"
  }

  /** Process returns no error only for well-formed tasks. */
  ghost predicate ProcessedRight(s: State) {
    forall i :: 0 <= i < |s.processed| && s.processed[i].1 ==> WellFormed(s.processed[i].0)
  }

  ghost predicate Inv(s: State, status0: map<string, string>) {
    Fifo(s) && (forall t :: Conserved(s, t)) && LossBounded(s) && WorkersRecorded(s) && ProcessedRight(s) &&
    StatusEarned(s, status0)
  }

  lemma {:induction false} InHandUpdate(ws: seq<WorkerState>, i: nat, x: WorkerState, done: bool, t: Task)
    requires i < |ws|
    ensures InHand(ws[i := x], done, t) == InHand(ws, done, t) - Holds(ws[i], done, t) + Holds(x, done, t)
    ensures InHand(ws, done, t) >= Holds(ws[i], done, t)
  {
    if i == 0 {
      assert ws[i := x][1..] == ws[1..];
    } else {
      InHandUpdate(ws[1..], i - 1, x, done, t);
    }
  }

  lemma {:induction false} InHandIdle(n: nat, done: bool, t: Task)
    ensures InHand(seq(n, _ => Idle), done, t) == 0
  {
    var ws: seq<WorkerState> := seq(n, _ => Idle);
    if n > 0 {
      InHandIdle(n - 1, done, t);
      assert ws[1..] == seq(n - 1, _ => Idle);
    }
  }

  lemma {:induction false} InvInitial(n: nat, queue: seq<Task>, status: map<string, string>)
    ensures Inv(Initial(n, queue, status), status)
  {
    forall t ensures Conserved(Initial(n, queue, status), t) {
      InHandIdle(n, false, t);
      InHandIdle(n, true, t);
    }
  }

  lemma {:induction false} FifoStep(s: State, a: Action)
    requires Fifo(s)
    ensures Fifo(Step(s, a))
    ensures s.enqueued <= Step(s, a).enqueued
  {
    if s.queue != [] {
      assert s.popped + s.queue == s.popped + [s.queue[0]] + s.queue[1..];
    }
    if a.Enqueue? {
      assert s.popped + s.queue + [a.task] == s.popped + (s.queue + [a.task]);
    }
  }

  lemma {:induction false} ConservedStep(s: State, a: Action, t: Task)
    requires Conserved(s, t)
    ensures Conserved(Step(s, a), t)
  {
    match a
    case Process(w, storageOk) => ConservedProcess(s, w, storageOk, t);
    case Complete(w, stored) => ConservedComplete(s, w, stored, t);
    case Stop(w) => ConservedStop(s, w, t);
    case Pop(w) => ConservedPop(s, w, t);
    case _ =>
  }

  lemma {:induction false} ConservedPop(s: State, w: nat, t: Task)
    requires Conserved(s, t)
    ensures Conserved(Step(s, Pop(w)), t)
  {
    hide InHand, TasksOf;
    if w < |s.workers| && s.workers[w].Idle? && s.queue != [] {
      InHandUpdate(s.workers, w, Holding(s.queue[0]), false, t);
      InHandUpdate(s.workers, w, Holding(s.queue[0]), true, t);
    }
  }

  lemma {:induction false} ConservedProcess(s: State, w: nat, storageOk: bool, t: Task)
    requires Conserved(s, t)
    ensures Conserved(Step(s, Process(w, storageOk)), t)
  {
    hide InHand, PlanFor;
    if w < |s.workers| && s.workers[w].Holding? {
      var u := s.workers[w].task;
      var x := Processed(u, ProcessOk(u, storageOk));
      InHandUpdate(s.workers, w, x, false, t);
      InHandUpdate(s.workers, w, x, true, t);
      assert TasksOf(s.processed + [(u, x.ok)]) == TasksOf(s.processed) + [u];
    }
  }

  lemma {:induction false} ConservedComplete(s: State, w: nat, stored: bool, t: Task)
    requires Conserved(s, t)
    ensures Conserved(Step(s, Complete(w, stored)), t)
  {
    hide InHand, TasksOf;
    if w < |s.workers| && s.workers[w].Processed? {
      InHandUpdate(s.workers, w, Idle, false, t);
      InHandUpdate(s.workers, w, Idle, true, t);
    }
  }

  lemma {:induction false} HoldsAt(w: WorkerState, t: Task)
    ensures Holds(w, false, t) == if w.Holding? && w.task == t then 1 else 0
    ensures Holds(w, true, t) == if w.Processed? && w.task == t then 1 else 0
  {
  }

  lemma {:induction false} CountSnoc(ts: seq<Task>, x: Task, t: Task)
    ensures multiset(ts + [x])[t] == multiset(ts)[t] + if x == t then 1 else 0
  {
  }

  lemma {:induction false} ConservedStop(s: State, w: nat, t: Task)
    requires Conserved(s, t)
    ensures Conserved(Step(s, Stop(w)), t)
  {
    hide InHand, TasksOf, Holds, PlanFor;
    if w < |s.workers| && !s.workers[w].Stopped? {
      var x, s' := s.workers[w], Step(s, Stop(w));
      assert s'.popped == s.popped && s'.finished == s.finished && s'.processed == s.processed;
      assert s'.workers == s.workers[w := Stopped];
      InHandUpdate(s.workers, w, Stopped, false, t);
      InHandUpdate(s.workers, w, Stopped, true, t);
      HoldsAt(x, t);
      HoldsAt(Stopped, t);
      if x.Holding? {
        CountSnoc(s.lostBefore, x.task, t);
      } else if x.Processed? {
        CountSnoc(s.lostAfter, x.task, t);
      }
    }
  }

  lemma {:induction false} StatusStep(s: State, a: Action, status0: map<string, string>)
    requires StatusEarned(s, status0) && WorkersRecorded(s)
    ensures StatusEarned(Step(s, a), status0)
  {
    var s' := Step(s, a);
    forall id | id in s'.status && !(id in status0 && status0[id] == s'.status[id])
      ensures Earned(s', id, s'.status[id])
    {
      if id in s.status && s.status[id] == s'.status[id] {
        var t, ok :| EarnedBy(s, id, s.status[id], t, ok);
        assert EarnedBy(s', id, s'.status[id], t, ok);
      } else {
        assert EarnedBy(s', id, s'.status[id], s.workers[a.w].task, s.workers[a.w].ok);
      }
    }
  }

  lemma {:induction false} ProcessedStep(s: State, a: Action)
    requires ProcessedRight(s)
    ensures ProcessedRight(Step(s, a))
  {
    hide PlanFor, WellFormed;
    if a.Process? && a.w < |s.workers| && s.workers[a.w].Holding? {
      CallIffWellFormed(s.workers[a.w].task);
    }
  }

  lemma {:induction false} InvStep(s: State, a: Action, status0: map<string, string>)
    requires Inv(s, status0)
    ensures Inv(Step(s, a), status0)
  {
    FifoStep(s, a);
    forall t ensures Conserved(Step(s, a), t) {
      ConservedStep(s, a, t);
    }
    StatusStep(s, a, status0);
    ProcessedStep(s, a);
  }

  lemma {:induction false} InvRun(s: State, acts: seq<Action>, status0: map<string, string>)
    requires Inv(s, status0)
    ensures Inv(Run(s, acts), status0)
    decreases |acts|
  {
    if acts != [] {
      InvStep(s, acts[0], status0);
      InvRun(Step(s, acts[0]), acts[1..], status0);
    }
  }

  /** Every copy of t ever enqueued is queued, in some worker's hands, finished or lost. */
  ghost predicate Accounted(s: State, t: Task) {
    multiset(s.enqueued)[t] ==
      multiset(s.queue)[t] + InHand(s.workers, false, t) + InHand(s.workers, true, t)
      + multiset(s.finished)[t] + multiset(s.lostBefore)[t] + multiset(s.lostAfter)[t]
  }

  lemma {:induction false} ConservedAccounts(s: State, t: Task)
    requires Fifo(s) && Conserved(s, t)
    ensures Accounted(s, t)
    ensures multiset(TasksOf(s.processed))[t] <= multiset(s.popped)[t]
  {
  }

  /** In every interleaving of enqueuers and n workers: enqueued = queued + in hand + finished +
      lost, pops follow enqueue order, no task is processed more often than it was popped, and
      each stop or dropped reply loses at most one task. */
  lemma {:induction false} QueueSafety(n: nat, queue: seq<Task>, status: map<string, string>, acts: seq<Action>)
    ensures
      var s := Run(Initial(n, queue, status), acts);
      && s.enqueued == s.popped + s.queue
      && (forall t :: Accounted(s, t))
      && (forall t :: multiset(TasksOf(s.processed))[t] <= multiset(s.popped)[t])
      && |s.lostBefore| + |s.lostAfter| <= s.stops + s.drops
      && StatusEarned(s, status)
  {
    InvInitial(n, queue, status);
    InvRun(Initial(n, queue, status), acts, status);
    var s := Run(Initial(n, queue, status), acts);
    forall t
      ensures Accounted(s, t) && multiset(TasksOf(s.processed))[t] <= multiset(s.popped)[t]
    {
      ConservedAccounts(s, t);
    }
  }

  /* ---------- what the actions account for ---------- */

  /** The tasks that enqueuers have stored, in order. */
  function StoredIn(acts: seq<Action>): seq<Task> {
    if acts == [] then []
    else (if acts[0].Enqueue? && acts[0].stored then [acts[0].task] else []) + StoredIn(acts[1..])
  }

  /** How many workers were stopped and how many replies lost. */
  function Faults(acts: seq<Action>): nat {
    if acts == [] then 0 else (if acts[0].Stop? || acts[0].PopDropped? then 1 else 0) + Faults(acts[1..])
  }

  lemma {:induction false} RunAccounts(s: State, acts: seq<Action>)
    ensures
      var s' := Run(s, acts);
      s'.enqueued == s.enqueued + StoredIn(acts) && s'.stops + s'.drops <= s.stops + s.drops + Faults(acts)
    decreases |acts|
  {
    hide PlanFor;
    if acts != [] {
      RunAccounts(Step(s, acts[0]), acts[1..]);
    }
  }

  /** Worker w processed t at step k, and that is how it came out. */
  ghost predicate ProcessedAt(s0: State, acts: seq<Action>, k: nat, t: Task, ok: bool)
    requires k < |acts|
  {
    var s := Run(s0, acts[..k]);
    acts[k].Process? && acts[k].w < |s.workers| && s.workers[acts[k].w] == Holding(t) &&
    ok == (WellFormed(t) && acts[k].storageOk)
  }

  lemma {:induction false} RunSnoc(s: State, acts: seq<Action>, n: nat)
    requires n < |acts|
    ensures Run(s, acts[..n + 1]) == Step(Run(s, acts[..n]), acts[n])
  {
    assert acts[..n + 1] == acts[..n] + [acts[n]];
    RunAppend(s, acts[..n], [acts[n]]);
    RunOne(Run(s, acts[..n]), acts[n]);
  }

  /** Whatever is recorded as processed was processed at some step, and without error exactly when the
      task was well-formed and its storage call succeeded. */
  lemma {:induction false} ProcessedHow(s0: State, acts: seq<Action>, n: nat, t: Task, ok: bool)
    requires n <= |acts| && s0.processed == [] && (t, ok) in Run(s0, acts[..n]).processed
    ensures exists k :: 0 <= k < n && ProcessedAt(s0, acts, k, t, ok)
  {
    hide Run, PlanFor, WellFormed;
    if n == 0 {
      assert acts[..0] == [];
      RunNone(s0);
    } else {
      var s := Run(s0, acts[..n - 1]);
      RunSnoc(s0, acts, n - 1);
      if (t, ok) in s.processed {
        ProcessedHow(s0, acts, n - 1, t, ok);
      } else {
        CallIffWellFormed(t);
        assert ProcessedAt(s0, acts, n - 1, t, ok);
      }
    }
  }

  lemma {:induction false} RunNone(s: State)
    ensures Run(s, []) == s
  {
  }

  /** In every interleaving: what was ever enqueued is what was there and what enqueuers stored, each
      fault loses at most one task, and a task counts as processed only for a step that processed it, as
      a success exactly when it was well-formed and its storage call succeeded. */
  lemma {:induction false} QueueAccounts(n: nat, queue: seq<Task>, status: map<string, string>, acts: seq<Action>)
    ensures
      var s0 := Initial(n, queue, status);
      var s := Run(s0, acts);
      && s.enqueued == queue + StoredIn(acts)
      && |s.lostBefore| + |s.lostAfter| <= Faults(acts)
      && (forall t, ok :: (t, ok) in s.processed ==> exists k :: 0 <= k < |acts| && ProcessedAt(s0, acts, k, t, ok))
  {
    hide Run, ProcessedAt;
    var s0 := Initial(n, queue, status);
    var s := Run(s0, acts);
    RunAccounts(s0, acts);
    QueueSafety(n, queue, status, acts);
    assert acts[..|acts|] == acts;
    forall t, ok | (t, ok) in s.processed
      ensures exists k :: 0 <= k < |acts| && ProcessedAt(s0, acts, k, t, ok)
    {
      ProcessedHow(s0, acts, |acts|, t, ok);
    }
  }

  /* ---------- when a stored status is final ---------- */

  ghost predicate DistinctIds(ts: seq<Task>) {
    forall i, j :: 0 <= i < j < |ts| ==> ts[i].id != ts[j].id
  }

  /** A task whose id has a status already, or which shares its id with another task, can only come
      out as "failed", and that is the status. */
  ghost predicate StatusesAgree(ts: seq<Task>, status0: map<string, string>) {
    && (forall i :: 0 <= i < |ts| && ts[i].id in status0 ==> !WellFormed(ts[i]) && status0[ts[i].id] == "failed")
    && (forall i, j :: 0 <= i < j < |ts| && ts[i].id == ts[j].id ==> !WellFormed(ts[i]) && !WellFormed(ts[j]))
  }

  ghost predicate StatusKept(s: State, s': State) {
    forall id :: id in s.status ==> id in s'.status && s'.status[id] == s.status[id]
  }

  lemma {:induction false} OneMore(ts: seq<Task>, a: Task, b: Task, other: Task)
    requires multiset{a, b} <= multiset(ts) && ts != []
    requires (ts[0] == a && other == b) || (ts[0] == b && other == a)
    ensures other in ts[1..]
  {
    assert ts == [ts[0]] + ts[1..];
    assert multiset(ts[1..])[other] >= 1;
  }

  lemma {:induction false} PairPositions(ts: seq<Task>, a: Task, b: Task) returns (i: nat, j: nat)
    requires multiset{a, b} <= multiset(ts)
    ensures i < j < |ts| && ((ts[i] == a && ts[j] == b) || (ts[i] == b && ts[j] == a))
  {
    assert multiset{a, b}[a] <= multiset(ts)[a];
    var t, rest := ts[0], ts[1..];
    assert ts == [t] + rest;
    if t == a || t == b {
      var other := if t == a then b else a;
      OneMore(ts, a, b, other);
      i := 0;
      var k :| 0 <= k < |rest| && rest[k] == other;
      j := k + 1;
    } else {
      assert multiset{a, b} <= multiset(rest);
      i, j := PairPositions(rest, a, b);
      i, j := i + 1, j + 1;
    }
  }

  /** The status a worker is about to store is the one stored already, if any. */
  lemma {:induction false} CompletesSame(s: State, w: nat, status0: map<string, string>)
    requires Inv(s, status0) && StatusesAgree(s.enqueued, status0)
    requires w < |s.workers| && s.workers[w].Processed?
    ensures
      var t := s.workers[w].task;
      t.id in s.status ==> s.status[t.id] == Word(s.workers[w].ok)
  {
    var t := s.workers[w].task;
    InHandUpdate(s.workers, w, s.workers[w], true, t);
    assert Conserved(s, t);
    assert multiset(s.enqueued)[t] >= 1;
    if t.id in s.status {
      if t.id in status0 && status0[t.id] == s.status[t.id] {
        assert t in s.enqueued;
      } else {
        var f, ok :| EarnedBy(s, t.id, s.status[t.id], f, ok);
        assert Conserved(s, f);
        var i, j := PairPositions(s.enqueued, t, f);
      }
    }
  }

  lemma {:induction false} StatusStable(s: State, a: Action, status0: map<string, string>)
    requires Inv(s, status0) && StatusesAgree(s.enqueued, status0)
    ensures StatusKept(s, Step(s, a))
  {
    hide Inv, StatusesAgree, PlanFor;
    if a.Complete? && a.w < |s.workers| && s.workers[a.w].Processed? {
      CompletesSame(s, a.w, status0);
    }
  }

  lemma {:induction false} EnqueuedGrows(s: State, acts: seq<Action>)
    requires Fifo(s)
    ensures s.enqueued <= Run(s, acts).enqueued
    decreases |acts|
  {
    if acts != [] {
      EnqueuedGrows(Step(s, acts[0]), acts[1..]);
    }
  }

  lemma {:induction false} StatusStableRun(s: State, acts: seq<Action>, status0: map<string, string>)
    requires Inv(s, status0) && StatusesAgree(Run(s, acts).enqueued, status0)
    ensures StatusKept(s, Run(s, acts))
    decreases |acts|
  {
    if acts != [] {
      EnqueuedGrows(s, acts);
      InvStep(s, acts[0], status0);
      StatusStable(s, acts[0], status0);
      StatusStableRun(Step(s, acts[0]), acts[1..], status0);
    }
  }

  /** If the tasks enqueued over a whole run agree on their statuses, as they do when their ids are
      distinct and new to Redis, then whatever is stored after some part of it stays; and with
      distinct ids each task is processed at most once. */
  lemma {:induction false} StatusFinal(
    n: nat, queue: seq<Task>, status: map<string, string>, acts: seq<Action>, more: seq<Action>)
    ensures
      var s, s' := Run(Initial(n, queue, status), acts), Run(Initial(n, queue, status), acts + more);
      && (StatusesAgree(s'.enqueued, status) ==> StatusKept(s, s'))
      && (DistinctIds(s'.enqueued) && (forall t :: t in s'.enqueued ==> t.id !in status) ==> StatusKept(s, s'))
      && (DistinctIds(s'.enqueued) ==> forall t :: multiset(TasksOf(s'.processed))[t] <= 1)
  {
    hide StatusKept, StatusesAgree, Run;
    var s0 := Initial(n, queue, status);
    var s' := Run(s0, acts + more);
    if DistinctIds(s'.enqueued) && (forall t :: t in s'.enqueued ==> t.id !in status) {
      DistinctAgree(s'.enqueued, status);
    }
    if StatusesAgree(s'.enqueued, status) {
      InvInitial(n, queue, status);
      InvRun(s0, acts, status);
      RunAppend(s0, acts, more);
      StatusStableRun(Run(s0, acts), more, status);
    }
    if DistinctIds(s'.enqueued) {
      ProcessedOnce(n, queue, status, acts + more);
    }
  }

  lemma {:induction false} DistinctAgree(ts: seq<Task>, status0: map<string, string>)
    requires DistinctIds(ts) && forall t :: t in ts ==> t.id !in status0
    ensures StatusesAgree(ts, status0)
  {
    forall i | 0 <= i < |ts|
      ensures ts[i].id !in status0
    {
      assert ts[i] in ts;
    }
  }

  lemma {:induction false} ProcessedOnce(n: nat, queue: seq<Task>, status: map<string, string>, acts: seq<Action>)
    requires DistinctIds(Run(Initial(n, queue, status), acts).enqueued)
    ensures forall t :: multiset(TasksOf(Run(Initial(n, queue, status), acts).processed))[t] <= 1
  {
    QueueSafety(n, queue, status, acts);
    var s := Run(Initial(n, queue, status), acts);
    forall t ensures multiset(TasksOf(s.processed))[t] <= 1 {
      if multiset(s.enqueued)[t] >= 2 {
        var i, j := PairPositions(s.enqueued, t, t);
      }
    }
  }

  /** A lone worker can get rid of the first k tasks without storing a status. */
  lemma {:induction false} SkipTo(s: State, k: nat) returns (acts: seq<Action>)
    requires s.workers == [Idle] && k <= |s.queue|
    ensures
      var s' := Run(s, acts);
      s'.workers == [Idle] && s'.enqueued == s.enqueued && s'.queue == s.queue[k..] && s'.status == s.status
  {
    hide Run;
    if k == 0 {
      acts := [];
      RunNone(s);
    } else {
      var first := SkipTo(s, k - 1);
      acts := first + TurnActions(PopLost);
      RunAppend(s, first, TurnActions(PopLost));
      OneTurn(Run(s, first), PopLost);
    }
  }

  /** It can then store either status for the next one, "success" only if that is well-formed. */
  lemma {:induction false} StoreAt(s: State, k: nat, want: bool) returns (acts: seq<Action>)
    requires s.workers == [Idle] && k < |s.queue| && (want ==> WellFormed(s.queue[k]))
    ensures
      var s' := Run(s, acts);
      s'.workers == [Idle] && s'.enqueued == s.enqueued && s'.queue == s.queue[k + 1..] &&
      s'.status == s.status[s.queue[k].id := Word(want)]
  {
    hide Run, PlanFor, WellFormed;
    CallIffWellFormed(s.queue[k]);
    var first := SkipTo(s, k);
    var turn := Took(want, true);
    acts := first + TurnActions(turn);
    RunAppend(s, first, TurnActions(turn));
    OneTurn(Run(s, first), turn);
  }

  /** For any queue and any statuses in Redis: no run that enqueues nothing more ever changes a
      stored status, exactly when the tasks agree on their statuses. */
  lemma {:induction false} StatusFinalIff(queue: seq<Task>, status: map<string, string>)
    ensures
      (forall n, acts, more :: Run(Initial(n, queue, status), acts + more).enqueued == queue ==>
        StatusKept(Run(Initial(n, queue, status), acts), Run(Initial(n, queue, status), acts + more)))
      <==> StatusesAgree(queue, status)
  {
    hide Run, StatusKept, StatusesAgree;
    if StatusesAgree(queue, status) {
      forall n, acts, more | Run(Initial(n, queue, status), acts + more).enqueued == queue
        ensures StatusKept(Run(Initial(n, queue, status), acts), Run(Initial(n, queue, status), acts + more))
      {
        StatusFinal(n, queue, status, acts, more);
      }
    } else {
      var acts, more := StatusFlips(queue, status);
    }
  }

  lemma {:induction false} StatusFlips(queue: seq<Task>, status: map<string, string>)
    returns (acts: seq<Action>, more: seq<Action>)
    requires !StatusesAgree(queue, status)
    ensures
      var s, s' := Run(Initial(1, queue, status), acts), Run(Initial(1, queue, status), acts + more);
      s'.enqueued == queue && !StatusKept(s, s')
  {
    hide Run, WellFormed;
    var s0 := Initial(1, queue, status);
    assert s0.workers == [Idle];
    if i :| 0 <= i < |queue| && queue[i].id in status && (WellFormed(queue[i]) || status[queue[i].id] != "failed") {
      acts := [];
      more := StoreAt(s0, i, WellFormed(queue[i]) && status[queue[i].id] != "success");
      RunNone(s0);
      RunAppend(s0, acts, more);
      assert queue[i].id in s0.status;
    } else {
      var i, j :| 0 <= i < j < |queue| && queue[i].id == queue[j].id && (WellFormed(queue[i]) || WellFormed(queue[j]));
      acts, more := SharedIdFlips(queue, status, i, j);
    }
  }

  /** Two tasks with one id, of which one is well-formed, can overwrite each other's status. */
  lemma {:induction false} SharedIdFlips(queue: seq<Task>, status: map<string, string>, i: nat, j: nat)
    returns (acts: seq<Action>, more: seq<Action>)
    requires i < j < |queue| && queue[i].id == queue[j].id
    requires WellFormed(queue[i]) || WellFormed(queue[j])
    ensures
      var s, s' := Run(Initial(1, queue, status), acts), Run(Initial(1, queue, status), acts + more);
      s'.enqueued == queue && !StatusKept(s, s')
  {
    hide Run, WellFormed;
    var s0 := Initial(1, queue, status);
    assert s0.workers == [Idle];
    acts := StoreAt(s0, i, WellFormed(queue[i]));
    var s := Run(s0, acts);
    assert s.queue[j - i - 1] == queue[j];
    more := StoreAt(s, j - i - 1, !WellFormed(queue[i]));
    RunAppend(s0, acts, more);
    assert queue[i].id in s.status;
  }
}
