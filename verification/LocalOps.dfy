/** The task processor on local storage, end to end: caller paths through the path algebra and the
    symbolic links to changes of directory entries. */
module LocalOps {
  import opened Paths
  import opened LocalPaths
  import opened Symlinks
  import opened Blobs
  import opened Moves
  import opened Tasks

  /* ---------- staying in the base ---------- */

  predicate SameAt(m: Blobs, now: Blobs, k: string) {
    (k in now <==> k in m) && (k in m ==> now[k] == m[k])
  }

  /** In every one of the states each file that does not lie in the place root is as it was. */
  ghost predicate OnlyInside(root: string, m: Blobs, states: seq<Blobs>) {
    forall i, k :: 0 <= i < |states| && !Within(root, k) ==> SameAt(m, states[i], k)
  }

  lemma {:induction false} NamedInside(root: string, m: Blobs, states: seq<Blobs>, names: set<string>)
    requires AllSame(m, states, names) && forall n :: n in names ==> Within(root, n)
    ensures OnlyInside(root, m, states)
  {
    hide Within;
    forall i, k | 0 <= i < |states| && !Within(root, k)
      ensures SameAt(m, states[i], k)
    {
      assert OthersSame(m, states[i], names);
      assert k in m <==> k in m - names;
      assert k in states[i] <==> k in states[i] - names;
      assert k in m ==> (m - names)[k] == m[k];
    }
  }

  lemma {:induction false} ShowsOutside(root: string, m: Blobs, states: seq<Blobs>, i: nat, k: string)
    requires i < |states| && !Within(root, k) && !SameAt(m, states[i], k)
    ensures !OnlyInside(root, m, states)
  {
  }

  /* ---------- the processor on local storage ---------- */

  /** The directory entry that a storage path names, and the place the storage itself is. */
  function StorageEntry(d: Disk, base: string, p: string): string {
    Entry(d, Full(base, p))
  }

  function StorageRoot(d: Disk, base: string): string {
    Loc(d, Full(base, ""))
  }

  function ProcessStates(m: Blobs, d: Disk, base: string, t: TaskPayload, plan: LocalPlan): seq<Blobs> {
    match PlanFor(t)
    case Call(MoveFile(src, dst)) => LocalMoveStates(m, StorageEntry(d, base, src), StorageEntry(d, base, dst), plan)
    case _ => []
  }

  predicate ProcessSucceeds(m: Blobs, d: Disk, base: string, t: TaskPayload, plan: LocalPlan) {
    match PlanFor(t)
    case Call(MoveFile(src, dst)) => LocalMoveOk(m, StorageEntry(d, base, src), StorageEntry(d, base, dst), plan)
    case Call(MakeFolder(_)) => plan.mkdirOk
    case Reject => false
  }

  /** A move keeps the bytes in every state and touches no third file, and success means moved; any
      other task changes no file. */
  ghost predicate TaskEffect(m: Blobs, states: seq<Blobs>, d: Disk, base: string, t: TaskPayload, ok: bool) {
    match PlanFor(t)
    case Call(MoveFile(src, dst)) =>
      var from, to := StorageEntry(d, base, src), StorageEntry(d, base, dst);
      from in m ==> AllKept(m, states, from, to, {from, to}) && (ok ==> After(m, states) == Renamed(m, from, to))
    case _ => states == []
  }

  /** What the task names lies in the storage, with all links followed. */
  predicate TaskInside(d: Disk, base: string, t: TaskPayload) {
    match PlanFor(t)
    case Call(MoveFile(src, dst)) =>
      var from, to := StorageEntry(d, base, src), StorageEntry(d, base, dst);
      from == to || (Within(StorageRoot(d, base), from) && Within(StorageRoot(d, base), to))
    case _ => true
  }

  /** Process, for any payload: what happens to the files is TaskEffect, and all of it is in the storage
      if what the task names is. */
  method ProcessTask(tree: Tree, d: Disk, base: string, t: TaskPayload, plan: LocalPlan) returns (ok: bool)
    modifies tree
    ensures ok == ProcessSucceeds(old(tree.files), d, base, t, plan)
    ensures tree.trace == old(tree.trace) + ProcessStates(old(tree.files), d, base, t, plan)
    ensures tree.files == After(old(tree.files), ProcessStates(old(tree.files), d, base, t, plan))
    ensures TaskEffect(old(tree.files), tree.trace[|old(tree.trace)|..], d, base, t, ok)
    ensures TaskInside(d, base, t) ==> OnlyInside(StorageRoot(d, base), old(tree.files), tree.trace[|old(tree.trace)|..])
    ensures !WellFormed(t) ==> !ok && tree.trace == old(tree.trace) && tree.files == old(tree.files)
    ensures t.kind == "move_file" && WellFormed(t) ==>
      var from, to := StorageEntry(d, base, t.params["src"]), StorageEntry(d, base, t.params["dst"]);
      from in old(tree.files) ==>
        && AllKept(old(tree.files), tree.trace[|old(tree.trace)|..], from, to, {from, to})
        && (ok ==> tree.files == Renamed(old(tree.files), from, to))
        && (NothingFails(plan, |old(tree.files)[from]|) ==> ok)
    ensures t.kind == "create_folder" ==>
      tree.trace == old(tree.trace) && tree.files == old(tree.files) && ok == (WellFormed(t) && plan.mkdirOk)
  {
    hide AllKept, OnlyInside, StorageEntry, StorageRoot, LocalMoveStates, LocalMoveOk;
    CallIffWellFormed(t);
    if TaskInside(d, base, t) {
      TaskStays(tree.files, d, base, t, plan);
    }
    match PlanFor(t) {
      case Call(MoveFile(src, dst)) =>
        ok := LocalMove(tree, StorageEntry(d, base, src), StorageEntry(d, base, dst), plan);
      case Call(MakeFolder(_)) =>
        ok := plan.mkdirOk;
      case Reject =>
        ok := false;
    }
  }

  lemma {:induction false} MoveChangesOnly(m: Blobs, from: string, to: string, plan: LocalPlan)
    ensures AllSame(m, LocalMoveStates(m, from, to, plan), {from, to})
    ensures from == to ==> AllSame(m, LocalMoveStates(m, from, to, plan), {})
  {
    if from in m {
      LocalMoveKeeps(m, from, to, plan);
    }
  }

  lemma {:induction false} TaskStays(m: Blobs, d: Disk, base: string, t: TaskPayload, plan: LocalPlan)
    requires TaskInside(d, base, t)
    ensures OnlyInside(StorageRoot(d, base), m, ProcessStates(m, d, base, t, plan))
  {
    hide StorageEntry, StorageRoot, LocalMoveStates, OnlyInside, AllSame, Within;
    match PlanFor(t)
    case Call(MoveFile(src, dst)) =>
      var from, to := StorageEntry(d, base, src), StorageEntry(d, base, dst);
      MoveChangesOnly(m, from, to, plan);
      NamedInside(StorageRoot(d, base), m, LocalMoveStates(m, from, to, plan), if from == to then {} else {from, to});
    case _ =>
      NothingOutside(StorageRoot(d, base), m);
  }

  lemma {:induction false} NothingOutside(root: string, m: Blobs)
    ensures OnlyInside(root, m, [])
  {
  }

  /** A task leaves everything outside the storage alone, whatever the files and the failures, exactly
      when what it names lies in the storage with all links followed; without links that is always so. */
  lemma {:induction false} TaskStaysIff(d: Disk, base: string, t: TaskPayload)
    requires Valid(d)
    ensures
      (forall m, plan :: OnlyInside(StorageRoot(d, base), m, ProcessStates(m, d, base, t, plan)))
      <==> TaskInside(d, base, t)
    ensures d.links == map[] ==> TaskInside(d, base, t)
  {
    hide StorageEntry, StorageRoot, OnlyInside, Within;
    if TaskInside(d, base, t) {
      forall m, plan
        ensures OnlyInside(StorageRoot(d, base), m, ProcessStates(m, d, base, t, plan))
      {
        TaskStays(m, d, base, t, plan);
      }
    } else {
      var call := PlanFor(t).call;
      var from, to := StorageEntry(d, base, call.src), StorageEntry(d, base, call.dst);
      var plan := LocalPlan(true, true, true, true, [], true, Done);
      var m: Blobs := map[from := [0]];
      var states := ProcessStates(m, d, base, t, plan);
      assert states == [Renamed(m, from, to)];
      ShowsOutside(StorageRoot(d, base), m, states, 0, if Within(StorageRoot(d, base), from) then to else from);
    }
    if d.links == map[] {
      if PlanFor(t).Call? && PlanFor(t).call.MoveFile? {
        UnlinkedInside(d, base, PlanFor(t).call.src);
        UnlinkedInside(d, base, PlanFor(t).call.dst);
      }
    }
  }

  lemma {:induction false} FullLocate(dir: seq<string>, base: string, p: string)
    requires PlainAll(dir)
    ensures Locate(dir, Full(base, p)) == Locate(dir, Full(base, "")) + Comps("/" + p)
  {
    hide Comps, Full, Split, Resolve;
    FullComps(base, p);
    FullComps(base, "");
    var cs := Comps("/" + p);
    assert Comps("/" + "") == [] by {
      CompsRender(true, []);
      assert Render(true, []) == "/" + "";
    }
    assert Comps(base) + [] == Comps(base);
    LocatePlain(dir, Full(base, p));
    LocatePlain(dir, Full(base, ""));
    if !Rooted(Full(base, p)) {
      CleanLocates(dir, Full(base, p));
      CleanLocates(dir, Full(base, ""));
      ResolveAppend(true, dir, Comps(base), cs);
      CompsNormal("/" + p);
      ResolvePlain(true, Resolve(true, dir, Comps(base)), cs);
    }
  }

  lemma {:induction false} UnlinkedInside(d: Disk, base: string, p: string)
    requires Valid(d) && d.links == map[]
    ensures Within(StorageRoot(d, base), StorageEntry(d, base, p))
  {
    hide Comps, Full, Locate;
    FullLocate(d.cwd, base, p);
    LocComps(d, Full(base, ""));
    EntryComps(d, Full(base, p));
    var root, cs := Locate(d.cwd, Full(base, "")), Locate(d.cwd, Full(base, p));
    PlaceFixed(d, root);
    if cs != [] {
      PlaceFixed(d, Init(cs));
      assert Init(cs) + [cs[|cs| - 1]] == cs;
    }
  }

  /** A move task keeps the source's bytes at every step, touches no third file, and when nothing fails
      ends with the bytes at "dst" and, unless that is the same entry, "src" gone. */
  lemma {:induction false} MoveTaskEffect(
    m: Blobs, d: Disk, base: string, id: string, src: string, dst: string, plan: LocalPlan)
    requires src != "" && dst != "" && StorageEntry(d, base, src) in m
    ensures
      var t := TaskPayload(id, "move_file", map["src" := src, "dst" := dst]);
      var from, to := StorageEntry(d, base, src), StorageEntry(d, base, dst);
      var states := ProcessStates(m, d, base, t, plan);
      && AllKept(m, states, from, to, {from, to})
      && (NothingFails(plan, |m[from]|) ==>
            ProcessSucceeds(m, d, base, t, plan) && After(m, states) == Renamed(m, from, to))
  {
    hide StorageEntry;
    LocalMoveKeeps(m, StorageEntry(d, base, src), StorageEntry(d, base, dst), plan);
  }
}
