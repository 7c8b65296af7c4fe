/** AtomicWrite on all three backends, as steps of any number of writers that run interleaved, fail
    or stop anywhere. */
module AtomicWrites {
  import opened Blobs

  /** Object stores (S3, GCS) upload the temp object whole, copy it to the target and delete it;
      the local disk streams into a temp file and renames it over the target. */
  datatype Backend = ObjectStore | LocalDisk

  /** One AtomicWrite call: its target, its temp name, the name its publishing step reads from, and
      the bytes its reader yields. */
  datatype Writer = Writer(backend: Backend, target: string, temp: string, source: string, content: Bytes)

  datatype Phase =
    | Idle
    | Staging(written: nat)
    | Staged
    | Published
    | Ended(ok: bool)

  /** log lists the writers whose content was published, in order. */
  datatype State = State(store: Blobs, phases: seq<Phase>, log: seq<nat>)

  datatype Action =
    | Upload(w: nat, outcome: Outcome)
    | UploadCut(w: nat, kept: nat)
    | CreateTemp(w: nat, outcome: Outcome)
    | WriteChunk(w: nat, size: nat)
    | WriteError(w: nat)
    | CloseTemp(w: nat)
    | Publish(w: nat, outcome: Outcome)
    | DeleteTemp(w: nat, outcome: Outcome)
    | Stop(w: nat)

  function Initial(ws: seq<Writer>, store: Blobs): State {
    State(store, seq(|ws|, _ => Idle), [])
  }

  /** The effect of publishing: a copy keeps the temp, a rename takes it away. */
  function Publishing(store: Blobs, w: Writer): Blobs
    requires w.source in store
  {
    var after := store[w.target := store[w.source]];
    if w.backend.ObjectStore? then after else after - {w.temp}
  }

  /** What a write appends to. */
  function Held(store: Blobs, name: string): Bytes {
    if name in store then store[name] else []
  }

  predicate Enabled(ws: seq<Writer>, s: State, a: Action) {
    a.w < |ws| && a.w < |s.phases| &&
    var w, p := ws[a.w], s.phases[a.w];
    match a
    case Upload(_, _) => p.Idle? && w.backend.ObjectStore?
    case UploadCut(_, kept) => p.Idle? && w.backend.ObjectStore? && kept <= |w.content|
    case CreateTemp(_, _) => p.Idle? && w.backend.LocalDisk?
    case WriteChunk(_, size) => p.Staging? && p.written + size <= |w.content|
    case WriteError(_) => p.Staging?
    case CloseTemp(_) => p.Staging? && p.written == |w.content|
    case Publish(_, _) => p.Staged?
    case DeleteTemp(_, _) => p.Published?
    case Stop(_) => !p.Ended?
  }

  function To(s: State, w: nat, p: Phase): State
    requires w < |s.phases|
  {
    s.(phases := s.phases[w := p])
  }

  /** One step of one writer; an action that is not enabled leaves the state as it is. */
  function Step(ws: seq<Writer>, s: State, a: Action): State {
    if !Enabled(ws, s, a) then s
    else
      var w := ws[a.w];
      match a
      case Upload(i, outcome) =>
        To(if outcome.Failed? then s else s.(store := s.store[w.temp := w.content]), i,
           if outcome.Done? then Staged else Ended(false))
      case UploadCut(i, kept) =>
        To(s.(store := s.store[w.temp := w.content[..kept]]), i, Ended(false))
      case CreateTemp(i, outcome) =>
        To(if outcome.Failed? then s else s.(store := s.store[w.temp := []]), i,
           if outcome.Done? then Staging(0) else Ended(false))
      case WriteChunk(i, size) =>
        var n := s.phases[i].written + size;
        To(s.(store := s.store[w.temp := Held(s.store, w.temp) + w.content[s.phases[i].written..n]]), i, Staging(n))
      case WriteError(i) => To(s, i, Ended(false))
      case CloseTemp(i) => To(s, i, Staged)
      case Publish(i, outcome) =>
        if outcome.Failed? || w.source !in s.store then To(s, i, Ended(false))
        else
          To(s.(store := Publishing(s.store, w), log := s.log + [i]), i,
             if outcome.FailedLate? then Ended(false)
             else if w.backend.ObjectStore? then Published
             else Ended(true))
      case DeleteTemp(i, outcome) =>
        To(if outcome.Failed? then s else s.(store := s.store - {w.temp}), i, Ended(true))
      case Stop(i) => To(s, i, Ended(false))
  }

  function Run(ws: seq<Writer>, s: State, acts: seq<Action>): State
    decreases |acts|
  {
    if acts == [] then s else Run(ws, Step(ws, s, acts[0]), acts[1..])
  }

  lemma {:induction false} RunOne(ws: seq<Writer>, s: State, a: Action)
    ensures Run(ws, s, [a]) == Step(ws, s, a)
  {
  }

  lemma {:induction false} RunAppend(ws: seq<Writer>, s: State, acts: seq<Action>, more: seq<Action>)
    ensures Run(ws, s, acts + more) == Run(ws, Run(ws, s, acts), more)
    decreases |acts|
  {
    if acts == [] {
      assert acts + more == more;
    } else {
      assert (acts + more)[1..] == acts[1..] + more;
      RunAppend(ws, Step(ws, s, acts[0]), acts[1..], more);
    }
  }

  /* ---------- the specification ---------- */

  function Temps(ws: seq<Writer>): set<string> {
    set w | w in ws :: w.temp
  }

  /** Temp names are fresh: no two writers share one, none is a target, and the publishing step
      reads the writer's own temp. */
  ghost predicate Fresh(ws: seq<Writer>) {
    && (forall i, j :: 0 <= i < j < |ws| ==> ws[i].temp != ws[j].temp)
    && (forall i, j :: 0 <= i < |ws| && 0 <= j < |ws| ==> ws[i].temp != ws[j].target)
    && (forall i :: 0 <= i < |ws| ==> ws[i].source == ws[i].temp)
  }

  ghost predicate LogIn(log: seq<nat>, n: nat) {
    forall k :: 0 <= k < |log| ==> log[k] < n
  }

  /** The plain map after the logged writers have put their whole contents, one at a time. */
  ghost function Replay(ws: seq<Writer>, store: Blobs, log: seq<nat>): Blobs
    requires LogIn(log, |ws|)
  {
    if log == [] then store
    else
      var w := ws[log[|log| - 1]];
      Replay(ws, store, log[..|log| - 1])[w.target := w.content]
  }

  /* ---------- the invariant ---------- */

  ghost predicate StagedRight(w: Writer, p: Phase, store: Blobs) {
    && (p.Staging? ==> p.written <= |w.content| && w.temp in store && store[w.temp] == w.content[..p.written])
    && (p.Staged? ==> w.temp in store && store[w.temp] == w.content)
  }

  ghost predicate LogRight(s: State, n: nat) {
    && LogIn(s.log, n)
    && (forall i, j :: 0 <= i < j < |s.log| ==> s.log[i] != s.log[j])
    && (forall i :: 0 <= i < |s.phases| && (s.phases[i].Published? || s.phases[i] == Ended(true)) ==> i in s.log)
    && (forall i :: i in s.log && i < |s.phases| ==> s.phases[i].Published? || s.phases[i].Ended?)
  }

  ghost predicate Inv(ws: seq<Writer>, s: State, store0: Blobs) {
    && |s.phases| == |ws|
    && LogRight(s, |ws|)
    && (forall i :: 0 <= i < |ws| ==> StagedRight(ws[i], s.phases[i], s.store))
    && s.store - Temps(ws) == Replay(ws, store0, s.log) - Temps(ws)
  }

  /** Other writers' staged bytes survive any step of writer w. */
  lemma {:induction false} OthersStaged(ws: seq<Writer>, s: State, a: Action)
    requires Fresh(ws) && |s.phases| == |ws| && Enabled(ws, s, a)
    requires forall i :: 0 <= i < |ws| ==> StagedRight(ws[i], s.phases[i], s.store)
    ensures forall i :: 0 <= i < |ws| && i != a.w ==>
      StagedRight(ws[i], Step(ws, s, a).phases[i], Step(ws, s, a).store)
  {
  }

  lemma {:induction false} OwnStaged(ws: seq<Writer>, s: State, a: Action)
    requires Fresh(ws) && |s.phases| == |ws| && Enabled(ws, s, a)
    requires StagedRight(ws[a.w], s.phases[a.w], s.store)
    ensures StagedRight(ws[a.w], Step(ws, s, a).phases[a.w], Step(ws, s, a).store)
  {
    if a.WriteChunk? {
      var content, written := ws[a.w].content, s.phases[a.w].written;
      assert content[..written] + content[written..written + a.size] == content[..written + a.size];
    }
  }

  lemma {:induction false} LogStep(ws: seq<Writer>, s: State, a: Action)
    requires |s.phases| == |ws| && LogRight(s, |ws|)
    ensures |Step(ws, s, a).phases| == |ws| && LogRight(Step(ws, s, a), |ws|)
    ensures s.log <= Step(ws, s, a).log
  {
    var s' := Step(ws, s, a);
    if s'.log != s.log {
      assert s'.log == s.log + [a.w];
    }
  }

  /** Outside the temp names only publishing changes the store, by exactly the writer's content. */
  lemma {:induction false} StoreStep(ws: seq<Writer>, s: State, a: Action)
    requires Fresh(ws) && |s.phases| == |ws| && Enabled(ws, s, a)
    requires StagedRight(ws[a.w], s.phases[a.w], s.store)
    ensures
      var s', w := Step(ws, s, a), ws[a.w];
      if s'.log == s.log then s'.store - Temps(ws) == s.store - Temps(ws)
      else s'.log == s.log + [a.w] && s'.store - Temps(ws) == (s.store - Temps(ws))[w.target := w.content]
  {
  }

  lemma {:induction false} ReplayStep(ws: seq<Writer>, log: seq<nat>, i: nat, store0: Blobs)
    requires Fresh(ws) && LogIn(log, |ws|) && i < |ws|
    ensures LogIn(log + [i], |ws|)
    ensures Replay(ws, store0, log + [i]) - Temps(ws)
         == (Replay(ws, store0, log) - Temps(ws))[ws[i].target := ws[i].content]
  {
  }

  lemma {:induction false} InvStep(ws: seq<Writer>, s: State, a: Action, store0: Blobs)
    requires Fresh(ws) && Inv(ws, s, store0)
    ensures Inv(ws, Step(ws, s, a), store0)
  {
    hide Replay, StagedRight, Temps, To;
    if Enabled(ws, s, a) {
      OthersStaged(ws, s, a);
      OwnStaged(ws, s, a);
      LogStep(ws, s, a);
      StoreStep(ws, s, a);
      if Step(ws, s, a).log != s.log {
        ReplayStep(ws, s.log, a.w, store0);
      }
    }
  }

  lemma {:induction false} InvRun(ws: seq<Writer>, s: State, acts: seq<Action>, store0: Blobs)
    requires Fresh(ws) && Inv(ws, s, store0)
    ensures Inv(ws, Run(ws, s, acts), store0)
    decreases |acts|
  {
    if acts != [] {
      InvStep(ws, s, acts[0], store0);
      InvRun(ws, Step(ws, s, acts[0]), acts[1..], store0);
    }
  }

  /* ---------- the theorems ---------- */

  /** Every interleaving, with failures and stops anywhere, looks outside the temp names like the
      published writers having put their whole contents into a plain map one after another; each
      is published at most once, and at least once if its call returned success. */
  lemma {:induction false} WritesAreAtomic(ws: seq<Writer>, store0: Blobs, acts: seq<Action>)
    requires Fresh(ws)
    ensures
      var s := Run(ws, Initial(ws, store0), acts);
      && LogRight(s, |ws|)
      && s.store - Temps(ws) == Replay(ws, store0, s.log) - Temps(ws)
  {
    InvRun(ws, Initial(ws, store0), acts, store0);
  }

  lemma {:induction false} LogGrows(ws: seq<Writer>, s: State, acts: seq<Action>, store0: Blobs)
    requires Fresh(ws) && Inv(ws, s, store0)
    ensures s.log <= Run(ws, s, acts).log
    decreases |acts|
  {
    if acts != [] {
      LogStep(ws, s, acts[0]);
      InvStep(ws, s, acts[0], store0);
      LogGrows(ws, Step(ws, s, acts[0]), acts[1..], store0);
    }
  }

  /** The order of that sequence respects time: a writer whose call returned success before another
      writer's call began is published before it, in every continuation. */
  lemma {:induction false} WritesKeepOrder(
    ws: seq<Writer>, store0: Blobs, acts: seq<Action>, more: seq<Action>, i: nat, j: nat)
    requires Fresh(ws) && i < |ws| && j < |ws|
    ensures
      var s, s' := Run(ws, Initial(ws, store0), acts), Run(ws, Initial(ws, store0), acts + more);
      && |s.phases| == |ws| && s.log <= s'.log
      && (s.phases[i] == Ended(true) && s.phases[j].Idle? ==> i in s'.log[..|s.log|] && j !in s'.log[..|s.log|])
  {
    var s0 := Initial(ws, store0);
    InvRun(ws, s0, acts, store0);
    RunAppend(ws, s0, acts, more);
    LogGrows(ws, Run(ws, s0, acts), more, store0);
  }

  function Get(store: Blobs, k: string): seq<Bytes> {
    if k in store then [store[k]] else []
  }

  lemma {:induction false} ReplayAt(ws: seq<Writer>, store: Blobs, log: seq<nat>, k: string)
    requires LogIn(log, |ws|)
    ensures Get(Replay(ws, store, log), k) == Get(store, k) ||
      exists i :: i in log && ws[i].target == k && Get(Replay(ws, store, log), k) == [ws[i].content]
    ensures (exists i :: i in log && ws[i].target == k) ||
      Get(Replay(ws, store, log), k) == Get(store, k)
  {
    if log != [] {
      var init := log[..|log| - 1];
      ReplayAt(ws, store, init, k);
    }
  }

  /** k holds what it held at the start, or the complete content of one writer to k. */
  ghost predicate OldOrCompleteAt(ws: seq<Writer>, store0: Blobs, store: Blobs, k: string) {
    Get(store, k) == Get(store0, k) ||
    exists i :: 0 <= i < |ws| && ws[i].target == k && Get(store, k) == [ws[i].content]
  }

  /** At every moment of every run each key that is not a temp name holds what it held at the start
      or the complete content of one writer to that key, and a key nobody writes to is unchanged. */
  lemma {:induction false} OldOrComplete(ws: seq<Writer>, store0: Blobs, acts: seq<Action>, k: string)
    requires Fresh(ws) && k !in Temps(ws)
    ensures
      var store := Run(ws, Initial(ws, store0), acts).store;
      && OldOrCompleteAt(ws, store0, store, k)
      && ((exists i :: 0 <= i < |ws| && ws[i].target == k) || Get(store, k) == Get(store0, k))
  {
    var s := Run(ws, Initial(ws, store0), acts);
    WritesAreAtomic(ws, store0, acts);
    ReplayAt(ws, store0, s.log, k);
    assert Get(s.store, k) == Get(s.store - Temps(ws), k);
  }

  /* ---------- what success means ---------- */

  ghost predicate PhaseAt(ws: seq<Writer>, store0: Blobs, acts: seq<Action>, k: nat, w: nat, p: Phase)
    requires k <= |acts|
  {
    var s := Run(ws, Initial(ws, store0), acts[..k]);
    w < |s.phases| && s.phases[w] == p
  }

  /** Within the first n steps writer w has put all its bytes into its temp, each call coming back done. */
  ghost predicate StagedBy(ws: seq<Writer>, store0: Blobs, acts: seq<Action>, n: nat, w: nat)
    requires n <= |acts| && w < |ws|
  {
    if ws[w].backend.ObjectStore?
    then exists k :: 0 <= k < n && acts[k] == Upload(w, Done) && PhaseAt(ws, store0, acts, k, w, Idle)
    else
      exists k :: 0 <= k < n && acts[k] == CloseTemp(w) && PhaseAt(ws, store0, acts, k, w, Staging(|ws[w].content|)) &&
        CreatedBy(ws, store0, acts, k, w)
  }

  ghost predicate CreatedBy(ws: seq<Writer>, store0: Blobs, acts: seq<Action>, n: nat, w: nat)
    requires n <= |acts|
  {
    exists k :: 0 <= k < n && acts[k] == CreateTemp(w, Done) && PhaseAt(ws, store0, acts, k, w, Idle)
  }

  /** After that its copy or rename has come back done. */
  ghost predicate PublishedBy(ws: seq<Writer>, store0: Blobs, acts: seq<Action>, n: nat, w: nat)
    requires n <= |acts| && w < |ws|
  {
    exists k :: 0 <= k < n && acts[k] == Publish(w, Done) && PhaseAt(ws, store0, acts, k, w, Staged) &&
      ws[w].source in Run(ws, Initial(ws, store0), acts[..k]).store && StagedBy(ws, store0, acts, k, w)
  }

  /** And, on an object store, it has asked for its temp to be deleted, with whatever answer. */
  ghost predicate SucceededBy(ws: seq<Writer>, store0: Blobs, acts: seq<Action>, n: nat, w: nat)
    requires n <= |acts| && w < |ws|
  {
    if ws[w].backend.LocalDisk? then PublishedBy(ws, store0, acts, n, w)
    else
      exists k :: 0 <= k < n && acts[k].DeleteTemp? && acts[k].w == w && PhaseAt(ws, store0, acts, k, w, Published) &&
        PublishedBy(ws, store0, acts, k, w)
  }

  lemma {:induction false} RunSnoc(ws: seq<Writer>, s: State, acts: seq<Action>, n: nat)
    requires n < |acts|
    ensures Run(ws, s, acts[..n + 1]) == Step(ws, Run(ws, s, acts[..n]), acts[n])
  {
    assert acts[..n + 1] == acts[..n] + [acts[n]];
    RunAppend(ws, s, acts[..n], [acts[n]]);
    RunOne(ws, Run(ws, s, acts[..n]), acts[n]);
  }

  lemma {:induction false} PhasesLength(ws: seq<Writer>, s: State, acts: seq<Action>)
    ensures |Run(ws, s, acts).phases| == |s.phases|
    decreases |acts|
  {
    if acts != [] {
      PhasesLength(ws, Step(ws, s, acts[0]), acts[1..]);
    }
  }

  /** How each phase has been reached. */
  ghost predicate Reached(ws: seq<Writer>, store0: Blobs, acts: seq<Action>, n: nat, w: nat)
    requires n <= |acts| && w < |ws|
  {
    var s := Run(ws, Initial(ws, store0), acts[..n]);
    w < |s.phases| &&
    match s.phases[w]
    case Staging(_) => ws[w].backend.LocalDisk? && CreatedBy(ws, store0, acts, n, w)
    case Staged => StagedBy(ws, store0, acts, n, w)
    case Published => ws[w].backend.ObjectStore? && PublishedBy(ws, store0, acts, n, w)
    case Ended(ok) => ok ==> SucceededBy(ws, store0, acts, n, w)
    case Idle => true
  }

  lemma {:induction false} ReachedStep(ws: seq<Writer>, store0: Blobs, acts: seq<Action>, n: nat, w: nat)
    requires n < |acts| && w < |ws| && Reached(ws, store0, acts, n, w)
    ensures Reached(ws, store0, acts, n + 1, w)
  {
    hide Run;
    RunSnoc(ws, Initial(ws, store0), acts, n);
    var s, s' := Run(ws, Initial(ws, store0), acts[..n]), Run(ws, Initial(ws, store0), acts[..n + 1]);
    var a := acts[n];
    if s'.phases[w] != s.phases[w] {
      assert a.w == w && Enabled(ws, s, a);
      assert PhaseAt(ws, store0, acts, n, w, s.phases[w]);
    }
  }

  lemma {:induction false} ReachedRun(ws: seq<Writer>, store0: Blobs, acts: seq<Action>, n: nat, w: nat)
    requires n <= |acts| && w < |ws|
    ensures Reached(ws, store0, acts, n, w)
  {
    if n > 0 {
      ReachedRun(ws, store0, acts, n - 1, w);
      ReachedStep(ws, store0, acts, n - 1, w);
    } else {
      assert acts[..0] == [];
    }
  }

  lemma {:induction false} EndedStays(ws: seq<Writer>, s: State, acts: seq<Action>, w: nat)
    requires w < |s.phases| && s.phases[w].Ended?
    ensures w < |Run(ws, s, acts).phases| && Run(ws, s, acts).phases[w] == s.phases[w]
    decreases |acts|
  {
    if acts != [] {
      EndedStays(ws, Step(ws, s, acts[0]), acts[1..], w);
    }
  }

  /** A call returns success exactly when every step it needs came back done, whatever the answer to
      the final deletion of its temp. */
  lemma {:induction false} WriteSucceedsIff(ws: seq<Writer>, store0: Blobs, acts: seq<Action>, w: nat)
    requires w < |ws|
    ensures
      var s := Run(ws, Initial(ws, store0), acts);
      |s.phases| == |ws| && (s.phases[w] == Ended(true) <==> SucceededBy(ws, store0, acts, |acts|, w))
  {
    hide Run, Reached, StagedBy;
    var s0 := Initial(ws, store0);
    PhasesLength(ws, s0, acts);
    ReachedRun(ws, store0, acts, |acts|, w);
    assert acts[..|acts|] == acts;
    if SucceededBy(ws, store0, acts, |acts|, w) {
      var k := LastStep(ws, store0, acts, w);
      RunSnoc(ws, s0, acts, k);
      assert acts == acts[..k + 1] + acts[k + 1..];
      RunAppend(ws, s0, acts[..k + 1], acts[k + 1..]);
      EndedStays(ws, Run(ws, s0, acts[..k + 1]), acts[k + 1..], w);
    }
    SuccessReached(ws, store0, acts, w);
  }

  lemma {:induction false} SuccessReached(ws: seq<Writer>, store0: Blobs, acts: seq<Action>, w: nat)
    requires w < |ws| && Reached(ws, store0, acts, |acts|, w)
    ensures
      var s := Run(ws, Initial(ws, store0), acts);
      w < |s.phases| && (s.phases[w] == Ended(true) ==> SucceededBy(ws, store0, acts, |acts|, w))
  {
    assert acts[..|acts|] == acts;
  }

  lemma {:induction false} LastStep(ws: seq<Writer>, store0: Blobs, acts: seq<Action>, w: nat) returns (k: nat)
    requires w < |ws| && SucceededBy(ws, store0, acts, |acts|, w)
    ensures k < |acts|
    ensures
      var s := Step(ws, Run(ws, Initial(ws, store0), acts[..k]), acts[k]);
      w < |s.phases| && s.phases[w] == Ended(true)
  {
    hide Run, StagedBy;
    if ws[w].backend.LocalDisk? {
      k :| 0 <= k < |acts| && acts[k] == Publish(w, Done) && PhaseAt(ws, store0, acts, k, w, Staged) &&
        ws[w].source in Run(ws, Initial(ws, store0), acts[..k]).store && StagedBy(ws, store0, acts, k, w);
    } else {
      k :| 0 <= k < |acts| && acts[k].DeleteTemp? && acts[k].w == w && PhaseAt(ws, store0, acts, k, w, Published) &&
        PublishedBy(ws, store0, acts, k, w);
    }
  }

  /** What one writer's steps look like when nothing fails. */
  function FaultFree(ws: seq<Writer>, w: nat): seq<Action>
    requires w < |ws|
  {
    if ws[w].backend.ObjectStore? then [Upload(w, Done), Publish(w, Done), DeleteTemp(w, Done)]
    else [CreateTemp(w, Done), WriteChunk(w, |ws[w].content|), CloseTemp(w), Publish(w, Done)]
  }

  /** A fault-free call, alone, is one put into the map and leaves no temp behind. */
  lemma {:induction false} PlainWrite(ws: seq<Writer>, s: State, w: nat)
    requires Fresh(ws) && |s.phases| == |ws| && w < |ws| && s.phases[w].Idle?
    ensures
      var s' := Run(ws, s, FaultFree(ws, w));
      |s'.phases| == |ws| && s'.phases[w] == Ended(true) &&
      s'.store == s.store[ws[w].target := ws[w].content] - {ws[w].temp}
  {
    if ws[w].backend.ObjectStore? {
      PlainObjectWrite(ws, s, w);
    } else {
      PlainLocalWrite(ws, s, w);
    }
  }

  lemma {:induction false} PlainObjectWrite(ws: seq<Writer>, s: State, w: nat)
    requires Fresh(ws) && |s.phases| == |ws| && w < |ws| && s.phases[w].Idle? && ws[w].backend.ObjectStore?
    ensures
      var s' := Run(ws, s, FaultFree(ws, w));
      |s'.phases| == |ws| && s'.phases[w] == Ended(true) &&
      s'.store == s.store[ws[w].target := ws[w].content] - {ws[w].temp}
  {
    var x, acts := ws[w], FaultFree(ws, w);
    RunThree(ws, s, acts);
    assert s.store[x.temp := x.content][x.target := x.content] - {x.temp} == s.store[x.target := x.content] - {x.temp};
  }

  lemma {:induction false} PlainLocalWrite(ws: seq<Writer>, s: State, w: nat)
    requires Fresh(ws) && |s.phases| == |ws| && w < |ws| && s.phases[w].Idle? && ws[w].backend.LocalDisk?
    ensures
      var s' := Run(ws, s, FaultFree(ws, w));
      |s'.phases| == |ws| && s'.phases[w] == Ended(true) &&
      s'.store == s.store[ws[w].target := ws[w].content] - {ws[w].temp}
  {
    var x, acts := ws[w], FaultFree(ws, w);
    assert [] + x.content[0..|x.content|] == x.content;
    RunThree(ws, s, acts[..3]);
    var s3 := Run(ws, s, acts[..3]);
    assert s3.store == s.store[x.temp := []][x.temp := x.content];
    assert acts == acts[..3] + [acts[3]];
    RunAppend(ws, s, acts[..3], [acts[3]]);
    assert s3.store[x.target := x.content] - {x.temp} == s.store[x.target := x.content] - {x.temp};
  }

  lemma {:induction false} RunThree(ws: seq<Writer>, s: State, acts: seq<Action>)
    requires |acts| == 3
    ensures Run(ws, s, acts) == Step(ws, Step(ws, Step(ws, s, acts[0]), acts[1]), acts[2])
  {
    assert acts[1..][1..] == [acts[2]];
    RunOne(ws, Step(ws, Step(ws, s, acts[0]), acts[1]), acts[2]);
  }
}
