/** AtomicWrite calls of any backend and Move calls of the object stores, interleaved step by step. */
module WritesAndMoves {
  import opened Blobs
  import AW = AtomicWrites
  import Moves

  type Writer = AW.Writer

  /** One Move call: the object its copy reads, the object it deletes and the one it makes. */
  datatype Move = Move(source: string, src: string, dst: string)

  datatype MovePhase = MoveIdle | Copied | MoveEnded(ok: bool)

  /** What happened to the objects that are no temps, in order. */
  datatype Event = Put(w: nat) | Copy(m: nat) | Delete(m: nat)

  datatype State = State(writes: AW.State, moves: seq<MovePhase>, events: seq<Event>)

  datatype Action =
    | Write(a: AW.Action)
    | CopyStep(m: nat, outcome: Outcome)
    | DeleteStep(m: nat, outcome: Outcome)
    | StopMove(m: nat)

  function Initial(ws: seq<Writer>, ms: seq<Move>, store: Blobs): State {
    State(AW.Initial(ws, store), seq(|ms|, _ => MoveIdle), [])
  }

  function To(s: State, m: nat, p: MovePhase): State
    requires m < |s.moves|
  {
    s.(moves := s.moves[m := p])
  }

  /** One step; what is not possible leaves the state as it is. */
  function Step(ws: seq<Writer>, ms: seq<Move>, s: State, a: Action): State {
    match a
    case Write(b) =>
      var writes := AW.Step(ws, s.writes, b);
      State(writes, s.moves, if writes.log == s.writes.log then s.events else s.events + [Put(b.w)])
    case CopyStep(m, outcome) =>
      if !(m < |ms| && m < |s.moves| && s.moves[m].MoveIdle?) then s
      else if outcome.Failed? || ms[m].source !in s.writes.store then To(s, m, MoveEnded(false))
      else
        var store := s.writes.store[ms[m].dst := s.writes.store[ms[m].source]];
        To(s.(writes := s.writes.(store := store), events := s.events + [Copy(m)]), m,
           if outcome.Done? then Copied else MoveEnded(false))
    case DeleteStep(m, outcome) =>
      if !(m < |ms| && m < |s.moves| && s.moves[m].Copied?) then s
      else if outcome.Failed? then To(s, m, MoveEnded(false))
      else
        To(s.(writes := s.writes.(store := s.writes.store - {ms[m].src}), events := s.events + [Delete(m)]), m,
           MoveEnded(outcome.Done?))
    case StopMove(m) =>
      if m < |s.moves| && !s.moves[m].MoveEnded? then To(s, m, MoveEnded(false)) else s
  }

  function Run(ws: seq<Writer>, ms: seq<Move>, s: State, acts: seq<Action>): State
    decreases |acts|
  {
    if acts == [] then s else Run(ws, ms, Step(ws, ms, s, acts[0]), acts[1..])
  }

  lemma {:induction false} RunAppend(ws: seq<Writer>, ms: seq<Move>, s: State, acts: seq<Action>, more: seq<Action>)
    ensures Run(ws, ms, s, acts + more) == Run(ws, ms, Run(ws, ms, s, acts), more)
    decreases |acts|
  {
    if acts == [] {
      assert acts + more == more;
    } else {
      assert (acts + more)[1..] == acts[1..] + more;
      RunAppend(ws, ms, Step(ws, ms, s, acts[0]), acts[1..], more);
    }
  }

  lemma {:induction false} RunOne(ws: seq<Writer>, ms: seq<Move>, s: State, a: Action)
    ensures Run(ws, ms, s, [a]) == Step(ws, ms, s, a)
  {
  }

  /* ---------- the specification: whole puts, copies and deletes on a plain map ---------- */

  ghost predicate EventsIn(events: seq<Event>, w: nat, m: nat) {
    forall i :: 0 <= i < |events| ==> if events[i].Put? then events[i].w < w else events[i].m < m
  }

  function Apply(ws: seq<Writer>, ms: seq<Move>, store: Blobs, e: Event): Blobs
    requires if e.Put? then e.w < |ws| else e.m < |ms|
  {
    match e
    case Put(w) => store[ws[w].target := ws[w].content]
    case Copy(m) => if ms[m].source in store then store[ms[m].dst := store[ms[m].source]] else store
    case Delete(m) => store - {ms[m].src}
  }

  ghost function Replay(ws: seq<Writer>, ms: seq<Move>, store: Blobs, events: seq<Event>): Blobs
    requires EventsIn(events, |ws|, |ms|)
  {
    if events == [] then store
    else Apply(ws, ms, Replay(ws, ms, store, events[..|events| - 1]), events[|events| - 1])
  }

  function Puts(events: seq<Event>): seq<nat> {
    if events == [] then []
    else
      var last := events[|events| - 1];
      Puts(events[..|events| - 1]) + if last.Put? then [last.w] else []
  }

  /** No move names a temp. */
  ghost predicate NoTemps(ws: seq<Writer>, ms: seq<Move>) {
    forall m :: 0 <= m < |ms| ==>
      ms[m].source !in AW.Temps(ws) && ms[m].src !in AW.Temps(ws) && ms[m].dst !in AW.Temps(ws)
  }

  ghost predicate AllStaged(ws: seq<Writer>, s: AW.State) {
    |s.phases| == |ws| && forall i :: 0 <= i < |ws| ==> AW.StagedRight(ws[i], s.phases[i], s.store)
  }

  ghost predicate Inv(ws: seq<Writer>, ms: seq<Move>, s: State, store0: Blobs) {
    && |s.moves| == |ms| && EventsIn(s.events, |ws|, |ms|) && AllStaged(ws, s.writes)
    && AW.LogRight(s.writes, |ws|) && Puts(s.events) == s.writes.log
    && s.writes.store - AW.Temps(ws) == Replay(ws, ms, store0, s.events) - AW.Temps(ws)
  }

  lemma {:induction false} Snoc(ws: seq<Writer>, ms: seq<Move>, store: Blobs, events: seq<Event>, e: Event)
    requires EventsIn(events, |ws|, |ms|) && if e.Put? then e.w < |ws| else e.m < |ms|
    ensures EventsIn(events + [e], |ws|, |ms|)
    ensures Replay(ws, ms, store, events + [e]) == Apply(ws, ms, Replay(ws, ms, store, events), e)
    ensures Puts(events + [e]) == Puts(events) + if e.Put? then [e.w] else []
  {
    assert (events + [e])[..|events|] == events;
  }

  /** Outside the temps an event does to both stores the same. */
  lemma {:induction false} ApplyOutside(ws: seq<Writer>, ms: seq<Move>, a: Blobs, b: Blobs, e: Event, temps: set<string>)
    requires if e.Put? then e.w < |ws| else e.m < |ms|
    requires a - temps == b - temps
    requires e.Put? ==> ws[e.w].target !in temps
    requires !e.Put? ==> ms[e.m].source !in temps && ms[e.m].dst !in temps
    ensures Apply(ws, ms, a, e) - temps == Apply(ws, ms, b, e) - temps
  {
    if e.Copy? {
      var k := ms[e.m].source;
      assert k in a <==> k in a - temps;
      assert k in b <==> k in b - temps;
      assert k in a ==> (a - temps)[k] == a[k] && (b - temps)[k] == b[k];
      if k in a {
        assert a[ms[e.m].dst := a[k]] - temps == (a - temps)[ms[e.m].dst := a[k]];
        assert b[ms[e.m].dst := b[k]] - temps == (b - temps)[ms[e.m].dst := b[k]];
      }
    } else if e.Put? {
      var w := ws[e.w];
      assert a[w.target := w.content] - temps == (a - temps)[w.target := w.content];
      assert b[w.target := w.content] - temps == (b - temps)[w.target := w.content];
    } else {
      assert a - {ms[e.m].src} - temps == (a - temps) - {ms[e.m].src};
      assert b - {ms[e.m].src} - temps == (b - temps) - {ms[e.m].src};
    }
  }

  lemma {:induction false} TempsApart(ws: seq<Writer>)
    requires AW.Fresh(ws)
    ensures forall i :: 0 <= i < |ws| ==> ws[i].temp in AW.Temps(ws) && ws[i].target !in AW.Temps(ws)
  {
  }

  lemma {:induction false} WriteStep(ws: seq<Writer>, ms: seq<Move>, s: State, b: AW.Action, store0: Blobs)
    requires AW.Fresh(ws) && NoTemps(ws, ms) && Inv(ws, ms, s, store0)
    ensures Inv(ws, ms, Step(ws, ms, s, Write(b)), store0)
  {
    hide AW.Step, AW.Temps, AW.LogRight, AW.StagedRight, Replay, Puts, EventsIn, Apply, AW.Enabled;
    if AW.Enabled(ws, s.writes, b) {
      EnabledIn(ws, s.writes, b);
      AW.OthersStaged(ws, s.writes, b);
      AW.OwnStaged(ws, s.writes, b);
      AW.LogStep(ws, s.writes, b);
      AW.StoreStep(ws, s.writes, b);
      var writes := AW.Step(ws, s.writes, b);
      if writes.log != s.writes.log {
        Snoc(ws, ms, store0, s.events, Put(b.w));
        TempsApart(ws);
        ApplyOutside(ws, ms, s.writes.store, Replay(ws, ms, store0, s.events), Put(b.w), AW.Temps(ws));
        PutApplied(ws, ms, s.writes.store, b.w, AW.Temps(ws));
      }
    } else {
      Disabled(ws, s.writes, b);
    }
  }

  lemma {:induction false} PutApplied(ws: seq<Writer>, ms: seq<Move>, store: Blobs, w: nat, temps: set<string>)
    requires w < |ws| && ws[w].target !in temps
    ensures Apply(ws, ms, store, Put(w)) - temps == (store - temps)[ws[w].target := ws[w].content]
  {
  }

  lemma {:induction false} EnabledIn(ws: seq<Writer>, s: AW.State, b: AW.Action)
    requires AW.Enabled(ws, s, b)
    ensures b.w < |ws|
  {
  }

  lemma {:induction false} Disabled(ws: seq<Writer>, s: AW.State, b: AW.Action)
    requires !AW.Enabled(ws, s, b)
    ensures AW.Step(ws, s, b) == s
  {
  }

  /** A move's step changes no temp, so what is staged stays. */
  lemma {:induction false} StagedElsewhere(ws: seq<Writer>, s: AW.State, store: Blobs)
    requires AllStaged(ws, s)
    requires forall i :: 0 <= i < |ws| ==> AW.Get(store, ws[i].temp) == AW.Get(s.store, ws[i].temp)
    ensures AllStaged(ws, s.(store := store))
  {
    forall i | 0 <= i < |ws|
      ensures AW.StagedRight(ws[i], s.phases[i], store)
    {
      assert AW.Get(store, ws[i].temp) == AW.Get(s.store, ws[i].temp);
    }
  }

  lemma {:induction false} MoveStep(ws: seq<Writer>, ms: seq<Move>, s: State, a: Action, store0: Blobs)
    requires AW.Fresh(ws) && NoTemps(ws, ms) && Inv(ws, ms, s, store0) && !a.Write?
    ensures Inv(ws, ms, Step(ws, ms, s, a), store0)
  {
    hide AW.LogRight, Replay, Puts, EventsIn, AllStaged, AW.Temps, AW.Fresh;
    var s' := Step(ws, ms, s, a);
    if s'.events != s.events {
      var e := s'.events[|s.events|];
      assert s'.events == s.events + [e] && !e.Put? && e.m < |ms|;
      Snoc(ws, ms, store0, s.events, e);
      ApplyOutside(ws, ms, s.writes.store, Replay(ws, ms, store0, s.events), e, AW.Temps(ws));
      assert s'.writes.store == Apply(ws, ms, s.writes.store, e);
      TempsApart(ws);
      StagedElsewhere(ws, s.writes, s'.writes.store);
      LogKept(s.writes, s'.writes.store, |ws|);
    }
  }

  lemma {:induction false} LogKept(s: AW.State, store: Blobs, n: nat)
    requires AW.LogRight(s, n)
    ensures AW.LogRight(s.(store := store), n)
  {
  }

  lemma {:induction false} InvInitial(ws: seq<Writer>, ms: seq<Move>, store0: Blobs)
    ensures Inv(ws, ms, Initial(ws, ms, store0), store0)
  {
  }

  lemma {:induction false} InvRun(ws: seq<Writer>, ms: seq<Move>, s: State, acts: seq<Action>, store0: Blobs)
    requires AW.Fresh(ws) && NoTemps(ws, ms) && Inv(ws, ms, s, store0)
    ensures Inv(ws, ms, Run(ws, ms, s, acts), store0)
    decreases |acts|
  {
    hide Inv, Step, AW.Fresh, NoTemps;
    if acts != [] {
      if acts[0].Write? {
        WriteStep(ws, ms, s, acts[0].a, store0);
      } else {
        MoveStep(ws, ms, s, acts[0], store0);
      }
      InvRun(ws, ms, Step(ws, ms, s, acts[0]), acts[1..], store0);
    }
  }

  /** Every interleaving of writes and moves, with failures and stops anywhere, looks outside the temps
      like whole puts, copies and deletes of a plain map, one after another; each writer puts at most
      once, and has put if its call returned success. */
  lemma {:induction false} StepsAreSequential(ws: seq<Writer>, ms: seq<Move>, store0: Blobs, acts: seq<Action>)
    requires AW.Fresh(ws) && NoTemps(ws, ms)
    ensures
      var s := Run(ws, ms, Initial(ws, ms, store0), acts);
      && EventsIn(s.events, |ws|, |ms|)
      && s.writes.store - AW.Temps(ws) == Replay(ws, ms, store0, s.events) - AW.Temps(ws)
      && AW.LogRight(s.writes, |ws|) && Puts(s.events) == s.writes.log
  {
    InvInitial(ws, ms, store0);
    InvRun(ws, ms, Initial(ws, ms, store0), acts, store0);
  }

  /* ---------- what a move's success means ---------- */

  function Count(events: seq<Event>, e: Event): nat {
    if events == [] then 0
    else Count(events[..|events| - 1], e) + if events[|events| - 1] == e then 1 else 0
  }

  /** Copy(m) stands before every Delete(m). */
  ghost predicate CopyFirst(events: seq<Event>, m: nat) {
    forall j :: 0 <= j < |events| && events[j] == Delete(m) ==> exists i :: 0 <= i < j && events[i] == Copy(m)
  }

  /** What a move has done by the time it is in each phase. */
  ghost predicate MoveDone(s: State, m: nat)
    requires m < |s.moves|
  {
    var copies, deletes := Count(s.events, Copy(m)), Count(s.events, Delete(m));
    && CopyFirst(s.events, m)
    && (s.moves[m].MoveIdle? ==> copies == 0 && deletes == 0)
    && (s.moves[m].Copied? ==> copies == 1 && deletes == 0)
    && (s.moves[m] == MoveEnded(true) ==> copies == 1 && deletes == 1)
    && deletes <= copies <= 1
  }

  lemma {:induction false} CountSnoc(events: seq<Event>, x: Event, e: Event)
    ensures Count(events + [x], e) == Count(events, e) + if x == e then 1 else 0
  {
    assert (events + [x])[..|events|] == events;
  }

  lemma {:induction false} CountIn(events: seq<Event>, e: Event)
    ensures Count(events, e) > 0 <==> e in events
  {
    if events != [] {
      CountIn(events[..|events| - 1], e);
      assert events == events[..|events| - 1] + [events[|events| - 1]];
    }
  }

  lemma {:induction false} MoveDoneStep(ws: seq<Writer>, ms: seq<Move>, s: State, a: Action, m: nat)
    requires m < |s.moves| && MoveDone(s, m)
    ensures m < |Step(ws, ms, s, a).moves| && MoveDone(Step(ws, ms, s, a), m)
  {
    hide AW.Step, Count;
    var s' := Step(ws, ms, s, a);
    CountIn(s.events, Copy(m));
    if s'.events != s.events {
      var x := s'.events[|s.events|];
      assert s'.events == s.events + [x];
      CountSnoc(s.events, x, Copy(m));
      CountSnoc(s.events, x, Delete(m));
      CopyFirstSnoc(s.events, x, m);
    }
  }

  lemma {:induction false} CopyFirstSnoc(events: seq<Event>, x: Event, m: nat)
    requires CopyFirst(events, m)
    ensures x != Delete(m) || Copy(m) in events ==> CopyFirst(events + [x], m)
  {
    var all := events + [x];
    if x != Delete(m) || Copy(m) in events {
      forall j | 0 <= j < |all| && all[j] == Delete(m)
        ensures exists i :: 0 <= i < j && all[i] == Copy(m)
      {
        if j < |events| {
          assert events[j] == Delete(m);
          var i :| 0 <= i < j && events[i] == Copy(m);
          assert all[i] == Copy(m);
        } else {
          var i :| 0 <= i < |events| && events[i] == Copy(m);
          assert all[i] == Copy(m);
        }
      }
    }
  }

  lemma {:induction false} MoveDoneRun(ws: seq<Writer>, ms: seq<Move>, s: State, acts: seq<Action>, m: nat)
    requires m < |s.moves| && MoveDone(s, m)
    ensures m < |Run(ws, ms, s, acts).moves| && MoveDone(Run(ws, ms, s, acts), m)
    decreases |acts|
  {
    hide Step, MoveDone;
    if acts != [] {
      MoveDoneStep(ws, ms, s, acts[0], m);
      MoveDoneRun(ws, ms, Step(ws, ms, s, acts[0]), acts[1..], m);
    }
  }

  /** In every interleaving: a move that returned success has copied exactly once and then deleted
      exactly once, and no move deletes without having copied. */
  lemma {:induction false} MoveSuccessMeans(ws: seq<Writer>, ms: seq<Move>, store0: Blobs, acts: seq<Action>, m: nat)
    requires m < |ms|
    ensures
      var s := Run(ws, ms, Initial(ws, ms, store0), acts);
      && m < |s.moves| && CopyFirst(s.events, m)
      && Count(s.events, Delete(m)) <= Count(s.events, Copy(m)) <= 1
      && (s.moves[m] == MoveEnded(true) ==> Count(s.events, Copy(m)) == 1 && Count(s.events, Delete(m)) == 1)
  {
    MoveDoneRun(ws, ms, Initial(ws, ms, store0), acts, m);
  }

  /** Before step k move m is in phase p. */
  ghost predicate PhaseAt(
    ws: seq<Writer>, ms: seq<Move>, store0: Blobs, acts: seq<Action>, k: nat, m: nat, p: MovePhase)
    requires k <= |acts|
  {
    var s := Run(ws, ms, Initial(ws, ms, store0), acts[..k]);
    m < |s.moves| && s.moves[m] == p
  }

  /** Within the first n steps the copy of an object that was there has come back done. */
  ghost predicate CopiedBy(ws: seq<Writer>, ms: seq<Move>, store0: Blobs, acts: seq<Action>, n: nat, m: nat)
    requires n <= |acts| && m < |ms|
  {
    exists k :: 0 <= k < n && acts[k] == CopyStep(m, Done) && PhaseAt(ws, ms, store0, acts, k, m, MoveIdle) &&
      ms[m].source in Run(ws, ms, Initial(ws, ms, store0), acts[..k]).writes.store
  }

  /** And after it the delete. */
  ghost predicate MovedBy(ws: seq<Writer>, ms: seq<Move>, store0: Blobs, acts: seq<Action>, n: nat, m: nat)
    requires n <= |acts| && m < |ms|
  {
    exists k :: 0 <= k < n && acts[k] == DeleteStep(m, Done) && PhaseAt(ws, ms, store0, acts, k, m, Copied) &&
      CopiedBy(ws, ms, store0, acts, k, m)
  }

  lemma {:induction false} RunSnoc(ws: seq<Writer>, ms: seq<Move>, s: State, acts: seq<Action>, n: nat)
    requires n < |acts|
    ensures Run(ws, ms, s, acts[..n + 1]) == Step(ws, ms, Run(ws, ms, s, acts[..n]), acts[n])
  {
    assert acts[..n + 1] == acts[..n] + [acts[n]];
    RunAppend(ws, ms, s, acts[..n], [acts[n]]);
    RunOne(ws, ms, Run(ws, ms, s, acts[..n]), acts[n]);
  }

  ghost predicate MoveReached(ws: seq<Writer>, ms: seq<Move>, store0: Blobs, acts: seq<Action>, n: nat, m: nat)
    requires n <= |acts| && m < |ms|
  {
    var s := Run(ws, ms, Initial(ws, ms, store0), acts[..n]);
    && |s.moves| == |ms|
    && (s.moves[m].Copied? ==> CopiedBy(ws, ms, store0, acts, n, m))
    && (s.moves[m] == MoveEnded(true) ==> MovedBy(ws, ms, store0, acts, n, m))
  }

  lemma {:induction false} MoveReachedStep(
    ws: seq<Writer>, ms: seq<Move>, store0: Blobs, acts: seq<Action>, n: nat, m: nat)
    requires n < |acts| && m < |ms| && MoveReached(ws, ms, store0, acts, n, m)
    ensures MoveReached(ws, ms, store0, acts, n + 1, m)
  {
    hide Run, AW.Step;
    RunSnoc(ws, ms, Initial(ws, ms, store0), acts, n);
    var s := Run(ws, ms, Initial(ws, ms, store0), acts[..n]);
    assert PhaseAt(ws, ms, store0, acts, n, m, s.moves[m]);
  }

  lemma {:induction false} MoveReachedRun(
    ws: seq<Writer>, ms: seq<Move>, store0: Blobs, acts: seq<Action>, n: nat, m: nat)
    requires n <= |acts| && m < |ms|
    ensures MoveReached(ws, ms, store0, acts, n, m)
  {
    if n > 0 {
      MoveReachedRun(ws, ms, store0, acts, n - 1, m);
      MoveReachedStep(ws, ms, store0, acts, n - 1, m);
    } else {
      assert acts[..0] == [];
    }
  }

  lemma {:induction false} MoveEndedStays(ws: seq<Writer>, ms: seq<Move>, s: State, acts: seq<Action>, m: nat)
    requires m < |s.moves| && s.moves[m].MoveEnded?
    ensures m < |Run(ws, ms, s, acts).moves| && Run(ws, ms, s, acts).moves[m] == s.moves[m]
    decreases |acts|
  {
    hide AW.Step;
    if acts != [] {
      MoveEndedStays(ws, ms, Step(ws, ms, s, acts[0]), acts[1..], m);
    }
  }

  /** A move returns success exactly when its copy, of an object that was there, and after it its delete
      came back done. */
  lemma {:induction false} MoveSucceedsIff(ws: seq<Writer>, ms: seq<Move>, store0: Blobs, acts: seq<Action>, m: nat)
    requires m < |ms|
    ensures
      var s := Run(ws, ms, Initial(ws, ms, store0), acts);
      |s.moves| == |ms| && (s.moves[m] == MoveEnded(true) <==> MovedBy(ws, ms, store0, acts, |acts|, m))
  {
    hide Run, AW.Step, CopiedBy;
    var s0 := Initial(ws, ms, store0);
    MoveReachedRun(ws, ms, store0, acts, |acts|, m);
    assert acts[..|acts|] == acts;
    if MovedBy(ws, ms, store0, acts, |acts|, m) {
      var k :| 0 <= k < |acts| && acts[k] == DeleteStep(m, Done) && PhaseAt(ws, ms, store0, acts, k, m, Copied) &&
        CopiedBy(ws, ms, store0, acts, k, m);
      RunSnoc(ws, ms, s0, acts, k);
      assert acts == acts[..k + 1] + acts[k + 1..];
      RunAppend(ws, ms, s0, acts[..k + 1], acts[k + 1..]);
      MoveEndedStays(ws, ms, Run(ws, ms, s0, acts[..k + 1]), acts[k + 1..], m);
    }
  }

  /* ---------- what it means for the objects ---------- */

  /** The bytes are those some object had at the start, or all that some writer writes. */
  ghost predicate Whole(ws: seq<Writer>, store0: Blobs, b: Bytes) {
    (exists k :: k in store0 && store0[k] == b) || exists i :: 0 <= i < |ws| && ws[i].content == b
  }

  lemma {:induction false} ReplayWhole(ws: seq<Writer>, ms: seq<Move>, store0: Blobs, events: seq<Event>)
    requires EventsIn(events, |ws|, |ms|)
    ensures forall k :: k in Replay(ws, ms, store0, events) ==> Whole(ws, store0, Replay(ws, ms, store0, events)[k])
  {
    if events != [] {
      ReplayWhole(ws, ms, store0, events[..|events| - 1]);
    }
  }

  /** So no interleaving ever shows a part of a write: what any object that is no temp holds is whole. */
  lemma {:induction false} AlwaysWhole(ws: seq<Writer>, ms: seq<Move>, store0: Blobs, acts: seq<Action>, k: string)
    requires AW.Fresh(ws) && NoTemps(ws, ms) && k !in AW.Temps(ws)
    ensures
      var store := Run(ws, ms, Initial(ws, ms, store0), acts).writes.store;
      k in store ==> Whole(ws, store0, store[k])
  {
    hide AW.Fresh, NoTemps, AW.Temps, Replay, Run, Whole;
    StepsAreSequential(ws, ms, store0, acts);
    var s := Run(ws, ms, Initial(ws, ms, store0), acts);
    var r := Replay(ws, ms, store0, s.events);
    ReplayWhole(ws, ms, store0, s.events);
    if k in s.writes.store {
      assert k in s.writes.store - AW.Temps(ws);
      assert k in r - AW.Temps(ws) && (r - AW.Temps(ws))[k] == (s.writes.store - AW.Temps(ws))[k];
    }
  }

  /* ---------- one move among writers ---------- */

  /** Where the moved bytes are in each phase. */
  ghost predicate MoveRight(s: State, src: string, dst: string, b: Bytes) {
    |s.moves| == 1 &&
    var at, there := AW.Get(s.writes.store, src), AW.Get(s.writes.store, dst);
    match s.moves[0]
    case MoveIdle => at == [b]
    case Copied => at == [b] && there == [b]
    case MoveEnded(_) => at == [b] || there == [b]
  }

  lemma {:induction false} WriteElsewhere(ws: seq<Writer>, s: AW.State, b: AW.Action, k: string)
    requires AW.Fresh(ws) && AllStaged(ws, s) && k !in AW.Temps(ws)
    requires forall i :: 0 <= i < |ws| ==> ws[i].target != k
    ensures AW.Get(AW.Step(ws, s, b).store, k) == AW.Get(s.store, k)
  {
    hide AW.Step, AW.Temps, AW.Enabled, AW.Fresh, AW.StagedRight;
    if AW.Enabled(ws, s, b) {
      EnabledIn(ws, s, b);
      AW.StoreStep(ws, s, b);
      var store := AW.Step(ws, s, b).store;
      OutsideGet(s.store, k, AW.Temps(ws));
      OutsideGet(store, k, AW.Temps(ws));
    } else {
      Disabled(ws, s, b);
    }
  }

  lemma {:induction false} OutsideGet(store: Blobs, k: string, temps: set<string>)
    requires k !in temps
    ensures AW.Get(store, k) == AW.Get(store - temps, k)
  {
  }

  lemma {:induction false} MoveRightRun(
    ws: seq<Writer>, mv: Move, s: State, acts: seq<Action>, store0: Blobs, b: Bytes)
    requires AW.Fresh(ws) && NoTemps(ws, [mv]) && Inv(ws, [mv], s, store0)
    requires mv.source == mv.src && mv.src != mv.dst && MoveRight(s, mv.src, mv.dst, b)
    requires forall i :: 0 <= i < |ws| ==> ws[i].target != mv.src && ws[i].target != mv.dst
    ensures MoveRight(Run(ws, [mv], s, acts), mv.src, mv.dst, b)
    decreases |acts|
  {
    hide Inv, Step, AW.Fresh, NoTemps, MoveRight;
    if acts != [] {
      var a := acts[0];
      MoveRightStep(ws, mv, s, a, store0, b);
      if a.Write? {
        WriteStep(ws, [mv], s, a.a, store0);
      } else {
        MoveStep(ws, [mv], s, a, store0);
      }
      MoveRightRun(ws, mv, Step(ws, [mv], s, a), acts[1..], store0, b);
    }
  }

  lemma {:induction false} MoveRightStep(ws: seq<Writer>, mv: Move, s: State, a: Action, store0: Blobs, b: Bytes)
    requires AW.Fresh(ws) && NoTemps(ws, [mv]) && Inv(ws, [mv], s, store0)
    requires mv.source == mv.src && mv.src != mv.dst && MoveRight(s, mv.src, mv.dst, b)
    requires forall i :: 0 <= i < |ws| ==> ws[i].target != mv.src && ws[i].target != mv.dst
    ensures MoveRight(Step(ws, [mv], s, a), mv.src, mv.dst, b)
  {
    hide AW.Step, AW.Temps, AW.Fresh, AW.LogRight, Replay, Puts, EventsIn, AllStaged;
    if a.Write? {
      assert [mv][0] == mv;
      WriteElsewhere(ws, s.writes, a.a, mv.src);
      WriteElsewhere(ws, s.writes, a.a, mv.dst);
    }
  }

  lemma {:induction false} WritesOnly(ws: seq<Writer>, ms: seq<Move>, s: State, acts: seq<AW.Action>)
    ensures
      var s' := Run(ws, ms, s, seq(|acts|, i requires 0 <= i < |acts| => Write(acts[i])));
      s'.writes == AW.Run(ws, s.writes, acts) && s'.moves == s.moves
    decreases |acts|
  {
    var all := seq(|acts|, i requires 0 <= i < |acts| => Write(acts[i]));
    if acts != [] {
      var rest := acts[1..];
      assert all[1..] == seq(|rest|, i requires 0 <= i < |rest| => Write(rest[i]));
      WritesOnly(ws, ms, Step(ws, ms, s, all[0]), rest);
    }
  }

  /** One writer's call in which nothing fails, as steps here. */
  function WriteCall(ws: seq<Writer>, w: nat): seq<Action>
    requires w < |ws|
  {
    var acts := AW.FaultFree(ws, w);
    seq(|acts|, i requires 0 <= i < |acts| => Write(acts[i]))
  }

  lemma {:induction false} WriteCallPuts(ws: seq<Writer>, ms: seq<Move>, s: State, w: nat)
    requires AW.Fresh(ws) && |s.writes.phases| == |ws| && w < |ws| && s.writes.phases[w].Idle?
    ensures
      var s' := Run(ws, ms, s, WriteCall(ws, w));
      && |s'.writes.phases| == |ws| && s'.writes.phases[w] == AW.Ended(true) && s'.moves == s.moves
      && s'.writes.store == s.writes.store[ws[w].target := ws[w].content] - {ws[w].temp}
  {
    hide AW.Run, Run, AW.FaultFree, AW.Fresh;
    WritesOnly(ws, ms, s, AW.FaultFree(ws, w));
    AW.PlainWrite(ws, s.writes, w);
  }

  /** A write to the source that is published between the copy and the delete is lost: both calls
      return success, the source is gone and the destination holds the old bytes. */
  lemma {:induction false} LostUpdate(ws: seq<Writer>, w: nat, mv: Move, store0: Blobs)
    requires AW.Fresh(ws) && NoTemps(ws, [mv]) && w < |ws| && ws[w].target == mv.src
    requires mv.source == mv.src && mv.src != mv.dst && mv.src in store0
    ensures
      var acts := [CopyStep(0, Done)] + WriteCall(ws, w) + [DeleteStep(0, Done)];
      var s := Run(ws, [mv], Initial(ws, [mv], store0), acts);
      && |s.writes.phases| == |ws| && s.writes.phases[w] == AW.Ended(true) && s.moves == [MoveEnded(true)]
      && mv.src !in s.writes.store && mv.dst in s.writes.store && s.writes.store[mv.dst] == store0[mv.src]
  {
    hide Run, WriteCall, AW.Temps;
    var s0 := Initial(ws, [mv], store0);
    var a, b, c := [CopyStep(0, Done)], WriteCall(ws, w), [DeleteStep(0, Done)];
    RunAppend(ws, [mv], s0, a + b, c);
    RunAppend(ws, [mv], s0, a, b);
    RunOne(ws, [mv], s0, a[0]);
    var s1 := Step(ws, [mv], s0, a[0]);
    WriteCallPuts(ws, [mv], s1, w);
    TempsApart(ws);
    assert [mv][0] == mv;
    assert mv.dst != ws[w].temp;
    RunOne(ws, [mv], Run(ws, [mv], s1, b), c[0]);
  }

  /** A move keeps the source's bytes at source or destination in every interleaving with the writers,
      over all contents, exactly when none of them writes to either. */
  lemma {:induction false} MoveAmongWritersIff(ws: seq<Writer>, mv: Move)
    requires AW.Fresh(ws) && NoTemps(ws, [mv]) && mv.source == mv.src && mv.src != mv.dst
    ensures
      (forall store0, acts :: mv.src in store0 ==>
        Moves.Kept(store0, Run(ws, [mv], Initial(ws, [mv], store0), acts).writes.store, mv.src, mv.dst))
      <==> forall i :: 0 <= i < |ws| ==> ws[i].target != mv.src && ws[i].target != mv.dst
  {
    hide Run, AW.Fresh, NoTemps, WriteCall;
    if forall i :: 0 <= i < |ws| ==> ws[i].target != mv.src && ws[i].target != mv.dst {
      forall store0, acts | mv.src in store0
        ensures Moves.Kept(store0, Run(ws, [mv], Initial(ws, [mv], store0), acts).writes.store, mv.src, mv.dst)
      {
        InvInitial(ws, [mv], store0);
        MoveRightRun(ws, mv, Initial(ws, [mv], store0), acts, store0, store0[mv.src]);
      }
    } else {
      var i :| 0 <= i < |ws| && (ws[i].target == mv.src || ws[i].target == mv.dst);
      var store0, acts := Overwrites(ws, i, mv);
    }
  }

  lemma {:induction false} Overwrites(ws: seq<Writer>, i: nat, mv: Move) returns (store0: Blobs, acts: seq<Action>)
    requires AW.Fresh(ws) && NoTemps(ws, [mv]) && mv.source == mv.src && mv.src != mv.dst
    requires i < |ws| && (ws[i].target == mv.src || ws[i].target == mv.dst)
    ensures mv.src in store0
    ensures !Moves.Kept(store0, Run(ws, [mv], Initial(ws, [mv], store0), acts).writes.store, mv.src, mv.dst)
  {
    hide Run, WriteCall, AW.Temps;
    store0 := map[mv.src := ws[i].content + [0]];
    var s0 := Initial(ws, [mv], store0);
    TempsApart(ws);
    assert [mv][0] == mv;
    if ws[i].target == mv.src {
      acts := WriteCall(ws, i);
      WriteCallPuts(ws, [mv], s0, i);
    } else {
      var a, b := [CopyStep(0, Done), DeleteStep(0, Done)], WriteCall(ws, i);
      acts := a + b;
      RunAppend(ws, [mv], s0, a, b);
      assert a == [a[0]] + [a[1]];
      RunAppend(ws, [mv], s0, [a[0]], [a[1]]);
      RunOne(ws, [mv], s0, a[0]);
      var s1 := Step(ws, [mv], s0, a[0]);
      RunOne(ws, [mv], s1, a[1]);
      WriteCallPuts(ws, [mv], Run(ws, [mv], s0, a), i);
    }
  }
}
