/** Writing and moving single files, step by step with every way a step can fail. Each operation is a
    method over a tree that records every state it passes through; a function gives that list of
    states from the plan of outcomes, and the lemmas are about the function. */
module Moves {
  import opened Blobs

  /** Files by the name of their directory entry, or objects by key; trace is every state so far, so
      that stopping anywhere leaves the tree in one of them. */
  class Tree {
    var files: Blobs
    ghost var trace: seq<Blobs>

    method Put(name: string, bytes: Bytes)
      modifies this
      ensures files == old(files)[name := bytes] && trace == old(trace) + [files]
    {
      files := files[name := bytes];
      trace := trace + [files];
    }

    method Remove(name: string)
      modifies this
      ensures files == old(files) - {name} && trace == old(trace) + [files]
    {
      files := files - {name};
      trace := trace + [files];
    }

    /** rename(): the new name holds the old one's bytes in a single step; onto itself, nothing. */
    method Rename(src: string, dst: string)
      requires src in files
      modifies this
      ensures files == Renamed(old(files), src, dst) && trace == old(trace) + [files]
    {
      if src != dst {
        files := files[dst := files[src]] - {src};
      }
      trace := trace + [files];
    }
  }

  function Renamed(m: Blobs, src: string, dst: string): Blobs
    requires src in m
  {
    if src == dst then m else m[dst := m[src]] - {src}
  }

  /** The state after passing through the given ones. */
  function After(m: Blobs, states: seq<Blobs>): Blobs {
    if states == [] then m else states[|states| - 1]
  }

  function RemoveStates(m: Blobs, name: string, outcome: Outcome): seq<Blobs> {
    if outcome.Failed? then [] else [m - {name}]
  }

  /* ---------- streaming a copy into an open file ---------- */

  function Upto(a: nat, b: nat): nat {
    if a <= b then a else b
  }

  function Sum(chunks: seq<nat>): nat {
    if chunks == [] then 0 else chunks[0] + Sum(chunks[1..])
  }

  /** io.Copy from the file src into dst: each chunk reads what src holds now, from offset pos. */
  function StreamStates(m: Blobs, src: string, dst: string, pos: nat, chunks: seq<nat>): seq<Blobs>
    requires src in m && dst in m
    decreases |chunks|
  {
    if chunks == [] then []
    else
      var from := Upto(pos, |m[src]|);
      var to := Upto(from + chunks[0], |m[src]|);
      var m' := m[dst := m[dst] + m[src][from..to]];
      [m'] + StreamStates(m', src, dst, to, chunks[1..])
  }

  /** Whether the read after those chunks finds the end of src, which is when io.Copy returns without
      an error. */
  predicate StreamEof(m: Blobs, src: string, dst: string, pos: nat, chunks: seq<nat>)
    requires src in m && dst in m
    decreases |chunks|
  {
    if chunks == [] then pos >= |m[src]|
    else
      var from := Upto(pos, |m[src]|);
      var to := Upto(from + chunks[0], |m[src]|);
      StreamEof(m[dst := m[dst] + m[src][from..to]], src, dst, to, chunks[1..])
  }

  /** now is m with dst holding some first part of src's bytes. */
  ghost predicate Growing(m: Blobs, now: Blobs, src: string, dst: string)
    requires src in m
  {
    dst in now && now[dst] <= m[src] && now == m[dst := now[dst]]
  }

  ghost predicate AllGrowing(m: Blobs, states: seq<Blobs>, src: string, dst: string)
    requires src in m
  {
    forall i :: 0 <= i < |states| ==> Growing(m, states[i], src, dst)
  }

  lemma {:induction false} StreamNext(m: Blobs, src: string, dst: string, pos: nat, chunks: seq<nat>)
    requires src in m && dst in m
    ensures chunks == [] ==>
      StreamStates(m, src, dst, pos, chunks) == [] && StreamEof(m, src, dst, pos, chunks) == (pos >= |m[src]|)
    ensures chunks != [] ==>
      var from := Upto(pos, |m[src]|);
      var to := Upto(from + chunks[0], |m[src]|);
      var m' := m[dst := m[dst] + m[src][from..to]];
      var rest := StreamStates(m', src, dst, to, chunks[1..]);
      && StreamStates(m, src, dst, pos, chunks) == [m'] + rest
      && After(m, StreamStates(m, src, dst, pos, chunks)) == After(m', rest)
      && StreamEof(m, src, dst, pos, chunks) == StreamEof(m', src, dst, to, chunks[1..])
  {
  }

  /** Between different files a stream only ever grows dst by the next bytes of src. */
  lemma {:induction false} StreamPrefix(m: Blobs, now: Blobs, src: string, dst: string, pos: nat, chunks: seq<nat>)
    requires src in m && src != dst && pos <= |m[src]| && now == m[dst := m[src][..pos]]
    ensures AllGrowing(m, StreamStates(now, src, dst, pos, chunks), src, dst)
    ensures After(now, StreamStates(now, src, dst, pos, chunks)) ==
      m[dst := m[src][..Upto(pos + Sum(chunks), |m[src]|)]]
    decreases |chunks|
  {
    hide StreamStates, StreamEof;
    if chunks == [] {
      StreamNext(now, src, dst, pos, chunks);
    } else {
      var to := Upto(pos + chunks[0], |m[src]|);
      assert m[src][..pos] + m[src][pos..to] == m[src][..to];
      var next := m[dst := m[src][..to]];
      assert now[dst := m[src][..to]] == next;
      StreamPrefix(m, next, src, dst, to, chunks[1..]);
      assert Growing(m, next, src, dst);
      StreamNext(now, src, dst, pos, chunks);
    }
  }

  /** It then ends at the end of src exactly when the chunks add up to the rest of it. */
  lemma {:induction false} StreamEofIff(m: Blobs, src: string, dst: string, pos: nat, chunks: seq<nat>)
    requires src in m && dst in m && src != dst && pos <= |m[src]|
    ensures StreamEof(m, src, dst, pos, chunks) <==> pos + Sum(chunks) >= |m[src]|
    decreases |chunks|
  {
    if chunks != [] {
      var to := Upto(pos + chunks[0], |m[src]|);
      StreamEofIff(m[dst := m[dst] + m[src][pos..to]], src, dst, to, chunks[1..]);
    }
  }

  method Stream(t: Tree, src: string, dst: string, chunks: seq<nat>) returns (eof: bool)
    requires src in t.files && dst in t.files
    modifies t
    ensures t.trace == old(t.trace) + StreamStates(old(t.files), src, dst, 0, chunks)
    ensures t.files == After(old(t.files), StreamStates(old(t.files), src, dst, 0, chunks))
    ensures eof == StreamEof(old(t.files), src, dst, 0, chunks)
  {
    hide StreamStates, StreamEof;
    var pos := 0;
    ghost var all := StreamStates(t.files, src, dst, 0, chunks);
    ghost var before := t.files;
    assert chunks[0..] == chunks;
    for i := 0 to |chunks|
      invariant src in t.files && dst in t.files
      invariant t.trace + StreamStates(t.files, src, dst, pos, chunks[i..]) == old(t.trace) + all
      invariant After(t.files, StreamStates(t.files, src, dst, pos, chunks[i..])) == After(before, all)
      invariant StreamEof(t.files, src, dst, pos, chunks[i..]) == StreamEof(before, src, dst, 0, chunks)
    {
      StreamNext(t.files, src, dst, pos, chunks[i..]);
      assert chunks[i..][1..] == chunks[i + 1..];
      var from := Upto(pos, |t.files[src]|);
      var to := Upto(from + chunks[i], |t.files[src]|);
      ghost var done := t.trace;
      t.Put(dst, t.files[dst] + t.files[src][from..to]);
      ghost var rest := StreamStates(t.files, src, dst, to, chunks[i + 1..]);
      assert t.trace + rest == done + ([t.files] + rest);
      pos := to;
    }
    StreamNext(t.files, src, dst, pos, []);
    eof := pos >= |t.files[src]|;
  }

  /* ---------- what a move must keep ---------- */

  /** The source's bytes, as they were in m, are whole at src or at dst. */
  predicate Kept(m: Blobs, now: Blobs, src: string, dst: string)
    requires src in m
  {
    (src in now && now[src] == m[src]) || (dst in now && now[dst] == m[src])
  }

  /** dst is as it was in m, or holds all the bytes. */
  predicate OldOrWhole(m: Blobs, now: Blobs, dst: string, bytes: Bytes) {
    (dst in now && now[dst] == bytes) ||
    (dst in m && dst in now && now[dst] == m[dst]) || (dst !in m && dst !in now)
  }

  /** Nothing but the named files differs. */
  ghost predicate OthersSame(m: Blobs, now: Blobs, names: set<string>) {
    m - names == now - names
  }

  ghost predicate AllSame(m: Blobs, states: seq<Blobs>, names: set<string>) {
    forall i :: 0 <= i < |states| ==> OthersSame(m, states[i], names)
  }

  ghost predicate AllOldOrWhole(m: Blobs, states: seq<Blobs>, dst: string, bytes: Bytes) {
    forall i :: 0 <= i < |states| ==> OldOrWhole(m, states[i], dst, bytes)
  }

  /** In every one of the states the source's bytes are kept and only the named files differ. */
  ghost predicate AllKept(m: Blobs, states: seq<Blobs>, src: string, dst: string, names: set<string>)
    requires src in m
  {
    forall i :: 0 <= i < |states| ==> Kept(m, states[i], src, dst) && OthersSame(m, states[i], names)
  }

  /** In every one of the states the name still has those bytes. */
  ghost predicate AllHave(states: seq<Blobs>, name: string, bytes: Bytes) {
    forall i :: 0 <= i < |states| ==> name in states[i] && states[i][name] == bytes
  }

  /* ---------- LocalStorage.Move: rename, else stream straight into dst ---------- */

  datatype LocalPlan = LocalPlan(
    mkdirOk: bool, renameOk: bool, openOk: bool, createOk: bool, chunks: seq<nat>, copyOk: bool, remove: Outcome)

  /** rename() of an existing file onto itself succeeds and does nothing (POSIX.1-2017, rename). */
  predicate RenameWorks(src: string, dst: string, renameOk: bool) {
    renameOk || src == dst
  }

  function LocalMoveStates(m: Blobs, src: string, dst: string, plan: LocalPlan): seq<Blobs> {
    if !plan.mkdirOk || src !in m then []
    else if RenameWorks(src, dst, plan.renameOk) then [Renamed(m, src, dst)]
    else if !plan.openOk || !plan.createOk then []
    else
      var m1 := m[dst := []];
      var copied := [m1] + StreamStates(m1, src, dst, 0, plan.chunks);
      var m2 := copied[|copied| - 1];
      copied +
      if plan.copyOk && StreamEof(m1, src, dst, 0, plan.chunks) then RemoveStates(m2, src, plan.remove) else []
  }

  predicate LocalMoveOk(m: Blobs, src: string, dst: string, plan: LocalPlan) {
    plan.mkdirOk && src in m &&
    (RenameWorks(src, dst, plan.renameOk) ||
     (plan.openOk && plan.createOk && plan.copyOk && plan.remove.Done? &&
      StreamEof(m[dst := []], src, dst, 0, plan.chunks)))
  }

  /** Move of the local storage adapter, and MoveUploadedFile of the simpler LocalFs. */
  method LocalMove(t: Tree, src: string, dst: string, plan: LocalPlan) returns (ok: bool)
    modifies t
    ensures ok == LocalMoveOk(old(t.files), src, dst, plan)
    ensures t.trace == old(t.trace) + LocalMoveStates(old(t.files), src, dst, plan)
    ensures t.files == After(old(t.files), LocalMoveStates(old(t.files), src, dst, plan))
    ensures src in old(t.files) ==>
      && AllKept(old(t.files), t.trace[|old(t.trace)|..], src, dst, {src, dst})
      && (ok ==> t.files == Renamed(old(t.files), src, dst))
      && (ok <==> NothingFails(plan, |old(t.files)[src]|) || (plan.mkdirOk && src == dst))
      && (!plan.renameOk && !plan.copyOk ==> AllHave(t.trace[|old(t.trace)|..], src, old(t.files)[src]))
    ensures src !in old(t.files) ==> !ok && t.trace == old(t.trace)
  {
    hide StreamStates, StreamEof, AllKept, AllHave;
    if src in t.files {
      LocalMoveKeeps(t.files, src, dst, plan);
    }
    if !plan.mkdirOk {
      return false;
    }
    if RenameWorks(src, dst, plan.renameOk) && src in t.files {
      t.Rename(src, dst);
      return true;
    }
    if !plan.openOk || src !in t.files || !plan.createOk {
      return false;
    }
    t.Put(dst, []);
    ghost var m1 := t.files;
    var eof := Stream(t, src, dst, plan.chunks);
    ghost var copied := [m1] + StreamStates(m1, src, dst, 0, plan.chunks);
    assert t.files == copied[|copied| - 1];
    assert t.trace == old(t.trace) + copied;
    if !plan.copyOk || !eof {
      return false;
    }
    if !plan.remove.Failed? {
      t.Remove(src);
    }
    ok := plan.remove.Done?;
  }

  lemma {:induction false} CopiedPrefix(m: Blobs, src: string, dst: string, chunks: seq<nat>)
    requires src in m && src != dst
    ensures
      var m1 := m[dst := []];
      var copied := [m1] + StreamStates(m1, src, dst, 0, chunks);
      && AllGrowing(m, copied, src, dst)
      && copied[|copied| - 1] == m[dst := m[src][..Upto(Sum(chunks), |m[src]|)]]
      && (StreamEof(m1, src, dst, 0, chunks) <==> Sum(chunks) >= |m[src]|)
  {
    StreamPrefix(m, m[dst := []], src, dst, 0, chunks);
    StreamEofIff(m[dst := []], src, dst, 0, chunks);
  }

  lemma {:induction false} GrowingKeeps(m: Blobs, now: Blobs, src: string, dst: string)
    requires src in m && src != dst && Growing(m, now, src, dst)
    ensures Kept(m, now, src, dst) && OthersSame(m, now, {src, dst})
    ensures src in now && now[src] == m[src]
    ensures now[dst] == m[src] ==>
      now - {src} == m[dst := m[src]] - {src} && Kept(m, now - {src}, src, dst) && OthersSame(m, now - {src}, {src, dst})
  {
  }

  /** Rename works, or the fallback's every step does and its chunks reach the end of the source. */
  predicate NothingFails(plan: LocalPlan, size: nat) {
    plan.mkdirOk &&
    (plan.renameOk ||
     (plan.openOk && plan.createOk && plan.copyOk && Sum(plan.chunks) >= size && plan.remove.Done?))
  }

  /** For every src and dst, at every step and stopping point of every run: the source's bytes are
      whole at src or at dst, and no third file changes; success means moved. */
  lemma {:induction false} LocalMoveKeeps(m: Blobs, src: string, dst: string, plan: LocalPlan)
    requires src in m
    ensures
      var states := LocalMoveStates(m, src, dst, plan);
      && AllKept(m, states, src, dst, {src, dst})
      && (LocalMoveOk(m, src, dst, plan) ==> After(m, states) == Renamed(m, src, dst))
      && (LocalMoveOk(m, src, dst, plan) <==> NothingFails(plan, |m[src]|) || (plan.mkdirOk && src == dst))
      && (!plan.renameOk && !plan.copyOk ==> AllHave(states, src, m[src]))
  {
    if plan.mkdirOk && !RenameWorks(src, dst, plan.renameOk) && plan.openOk && plan.createOk {
      StreamMoveKeeps(m, src, dst, plan);
    } else {
      RenamedKeeps(m, src, dst, {src, dst});
    }
  }

  lemma {:induction false} StreamMoveKeeps(m: Blobs, src: string, dst: string, plan: LocalPlan)
    requires src in m && src != dst
    requires plan.mkdirOk && !plan.renameOk && plan.openOk && plan.createOk
    ensures
      var states := LocalMoveStates(m, src, dst, plan);
      && AllKept(m, states, src, dst, {src, dst})
      && (LocalMoveOk(m, src, dst, plan) ==> After(m, states) == Renamed(m, src, dst))
      && (LocalMoveOk(m, src, dst, plan) <==> NothingFails(plan, |m[src]|) || (plan.mkdirOk && src == dst))
      && (!plan.renameOk && !plan.copyOk ==> AllHave(states, src, m[src]))
  {
    CopiedPrefix(m, src, dst, plan.chunks);
    var m1 := m[dst := []];
    var copied := [m1] + StreamStates(m1, src, dst, 0, plan.chunks);
    forall i | 0 <= i < |copied|
      ensures Kept(m, copied[i], src, dst) && OthersSame(m, copied[i], {src, dst})
      ensures src in copied[i] && copied[i][src] == m[src]
    {
      GrowingKeeps(m, copied[i], src, dst);
    }
  }

  lemma {:induction false} FewerDiffer(m: Blobs, now: Blobs, names: set<string>, extra: string)
    requires OthersSame(m, now, names)
    ensures OthersSame(m, now, {extra} + names) && OthersSame(m, now - {extra}, {extra} + names)
  {
    assert m - ({extra} + names) == (m - names) - {extra};
    assert now - ({extra} + names) == (now - names) - {extra};
    assert now - {extra} - ({extra} + names) == now - ({extra} + names);
  }

  /** Until the stream ends dst can hold a part of the bytes, neither the old file nor the new one.
      That never shows, in any state of any run, only for an empty source, or for a single byte that
      replaces an empty file. */
  lemma {:induction false} LocalMoveShowsPartIff(m: Blobs, src: string, dst: string)
    requires src in m && src != dst
    ensures
      (forall plan, i :: 0 <= i < |LocalMoveStates(m, src, dst, plan)| ==>
        OldOrWhole(m, LocalMoveStates(m, src, dst, plan)[i], dst, m[src]))
      <==> m[src] == [] || (|m[src]| == 1 && dst in m && m[dst] == [])
  {
    if m[src] == [] || (|m[src]| == 1 && dst in m && m[dst] == []) {
      forall plan, i | 0 <= i < |LocalMoveStates(m, src, dst, plan)|
        ensures OldOrWhole(m, LocalMoveStates(m, src, dst, plan)[i], dst, m[src])
      {
        CopiedPrefix(m, src, dst, plan.chunks);
      }
    } else {
      var plan := LocalPlan(true, false, true, true, [1], false, Done);
      var m1 := m[dst := []];
      var states := LocalMoveStates(m, src, dst, plan);
      assert states[0] == m1;
      assert StreamStates(m1, src, dst, 0, [1])[0] == m1[dst := [] + m[src][0..1]];
      assert !OldOrWhole(m, states[0], dst, m[src]) || !OldOrWhole(m, states[1], dst, m[src]);
    }
  }

  /* ---------- AtomicWriteFile and copyFileContents: stage in a temp file, then rename ---------- */

  /** create .. chmod are the steps up to the rename; cleanup is the deferred removal of the temp. */
  datatype StagePlan = StagePlan(
    createOk: bool, chunks: seq<nat>, copyOk: bool, closeOk: bool, chmodOk: bool, renameOk: bool, cleanup: Outcome)

  /** Bytes written to the temp, chunk by chunk, from a reader that yields content. */
  function FillStates(m: Blobs, tmp: string, content: Bytes, pos: nat, chunks: seq<nat>): seq<Blobs>
    requires tmp in m && pos <= |content|
    decreases |chunks|
  {
    if chunks == [] then []
    else
      var to := Upto(pos + chunks[0], |content|);
      var m' := m[tmp := m[tmp] + content[pos..to]];
      [m'] + FillStates(m', tmp, content, to, chunks[1..])
  }

  predicate StageOk(content: Bytes, plan: StagePlan) {
    plan.createOk && plan.copyOk && Sum(plan.chunks) >= |content| &&
    plan.closeOk && plan.chmodOk && plan.renameOk
  }

  function StageStates(m: Blobs, tmp: string, dst: string, content: Bytes, plan: StagePlan): seq<Blobs> {
    if !plan.createOk then []
    else
      var m1 := m[tmp := []];
      var filled := [m1] + FillStates(m1, tmp, content, 0, plan.chunks);
      var m2 := filled[|filled| - 1];
      var done := if StageOk(content, plan) && tmp in m2 then filled + [Renamed(m2, tmp, dst)] else filled;
      done + Cleanup(done[|done| - 1], tmp, plan.cleanup)
  }

  /** The deferred removal, on every way out; it does nothing once the temp has been renamed away. */
  function Cleanup(m: Blobs, tmp: string, outcome: Outcome): seq<Blobs> {
    if tmp in m then RemoveStates(m, tmp, outcome) else []
  }

  lemma {:induction false} FillOnlyTemp(m: Blobs, tmp: string, content: Bytes, pos: nat, chunks: seq<nat>)
    requires pos <= |content| && tmp in m && m[tmp] == content[..pos]
    ensures
      var states := FillStates(m, tmp, content, pos, chunks);
      && (forall i :: 0 <= i < |states| ==> tmp in states[i] && states[i] - {tmp} == m - {tmp})
      && (tmp in After(m, states) && After(m, states)[tmp] == content[..Upto(pos + Sum(chunks), |content|)])
    decreases |chunks|
  {
    if chunks != [] {
      var to := Upto(pos + chunks[0], |content|);
      assert content[..pos] + content[pos..to] == content[..to];
      var m' := m[tmp := content[..to]];
      FillOnlyTemp(m', tmp, content, to, chunks[1..]);
      assert m' - {tmp} == m - {tmp};
    }
  }

  lemma {:induction false} FillNext(m: Blobs, tmp: string, content: Bytes, pos: nat, chunks: seq<nat>)
    requires tmp in m && pos <= |content|
    ensures chunks == [] ==> FillStates(m, tmp, content, pos, chunks) == []
    ensures chunks != [] ==>
      var to := Upto(pos + chunks[0], |content|);
      var m' := m[tmp := m[tmp] + content[pos..to]];
      var rest := FillStates(m', tmp, content, to, chunks[1..]);
      && FillStates(m, tmp, content, pos, chunks) == [m'] + rest
      && After(m, FillStates(m, tmp, content, pos, chunks)) == After(m', rest)
  {
  }

  /** The io.Copy into the temp file. */
  method Fill(t: Tree, tmp: string, content: Bytes, chunks: seq<nat>) returns (written: nat)
    requires tmp in t.files
    modifies t
    ensures written == Upto(Sum(chunks), |content|)
    ensures t.trace == old(t.trace) + FillStates(old(t.files), tmp, content, 0, chunks)
    ensures t.files == After(old(t.files), FillStates(old(t.files), tmp, content, 0, chunks))
  {
    hide FillStates;
    written := 0;
    ghost var all := FillStates(t.files, tmp, content, 0, chunks);
    ghost var before := t.files;
    assert chunks[0..] == chunks;
    for i := 0 to |chunks|
      invariant tmp in t.files && written <= |content|
      invariant t.trace + FillStates(t.files, tmp, content, written, chunks[i..]) == old(t.trace) + all
      invariant After(t.files, FillStates(t.files, tmp, content, written, chunks[i..])) == After(before, all)
      invariant Upto(written + Sum(chunks[i..]), |content|) == Upto(Sum(chunks), |content|)
    {
      FillNext(t.files, tmp, content, written, chunks[i..]);
      assert chunks[i..][1..] == chunks[i + 1..];
      var to := Upto(written + chunks[i], |content|);
      ghost var done := t.trace;
      t.Put(tmp, t.files[tmp] + content[written..to]);
      ghost var rest := FillStates(t.files, tmp, content, to, chunks[i + 1..]);
      assert t.trace + rest == done + ([t.files] + rest);
      written := to;
    }
    FillNext(t.files, tmp, content, written, []);
  }

  /** The steps shared by AtomicWriteFile and copyFileContents once the bytes to write are known. */
  method StageSteps(t: Tree, tmp: string, dst: string, content: Bytes, plan: StagePlan) returns (ok: bool)
    modifies t
    ensures ok == StageOk(content, plan)
    ensures t.trace == old(t.trace) + StageStates(old(t.files), tmp, dst, content, plan)
    ensures t.files == After(old(t.files), StageStates(old(t.files), tmp, dst, content, plan))
  {
    hide FillStates, Sum;
    if !plan.createOk {
      return false;
    }
    ghost var m, before := t.files, t.trace;
    t.Put(tmp, []);
    ghost var m1 := t.files;
    var written := Fill(t, tmp, content, plan.chunks);
    FillOnlyTemp(m1, tmp, content, 0, plan.chunks);
    ghost var filled := [m1] + FillStates(m1, tmp, content, 0, plan.chunks);
    assert t.files == filled[|filled| - 1] && t.trace == before + filled;
    ok := plan.copyOk && written == |content| && plan.closeOk && plan.chmodOk && plan.renameOk;
    StageParts(m, tmp, dst, content, plan, filled);
    if ok {
      t.Rename(tmp, dst);
    }
    ghost var done := filled + if ok then [t.files] else [];
    assert t.files == done[|done| - 1] && t.trace == before + done;
    if tmp in t.files && !plan.cleanup.Failed? {
      t.Remove(tmp);
    }
    assert t.trace == before + (done + Cleanup(done[|done| - 1], tmp, plan.cleanup));
  }

  lemma {:induction false} StageParts(
    m: Blobs, tmp: string, dst: string, content: Bytes, plan: StagePlan, filled: seq<Blobs>)
    requires plan.createOk && filled == [m[tmp := []]] + FillStates(m[tmp := []], tmp, content, 0, plan.chunks)
    requires tmp in filled[|filled| - 1]
    ensures
      var done := filled + if StageOk(content, plan) then [Renamed(filled[|filled| - 1], tmp, dst)] else [];
      StageStates(m, tmp, dst, content, plan) == done + Cleanup(done[|done| - 1], tmp, plan.cleanup)
  {
    hide FillStates, Sum, Cleanup, Renamed;
  }

  /** Staging as its callers see it. */
  method Stage(t: Tree, tmp: string, dst: string, content: Bytes, plan: StagePlan) returns (ok: bool)
    modifies t
    ensures ok == StageOk(content, plan)
    ensures t.trace == old(t.trace) + StageStates(old(t.files), tmp, dst, content, plan)
    ensures t.files == After(old(t.files), StageStates(old(t.files), tmp, dst, content, plan))
    ensures tmp !in old(t.files) && tmp != dst ==>
      && AllOldOrWhole(old(t.files), t.trace[|old(t.trace)|..], dst, content)
      && AllSame(old(t.files), t.trace[|old(t.trace)|..], {tmp, dst})
      && (ok ==> t.files == old(t.files)[dst := content])
      && (!ok && !plan.cleanup.Failed? ==> t.files == old(t.files))
  {
    hide AllOldOrWhole, AllSame, StageStates, StageOk, OthersSame;
    if tmp !in t.files && tmp != dst {
      StageSafe(t.files, tmp, dst, content, plan);
    }
    ok := StageSteps(t, tmp, dst, content, plan);
  }

  /** Whichever step fails: at every state dst is old or whole and nothing else but the temp
      changes; on error dst is as before, on success it is whole; and no temp is left behind unless
      its removal failed. */
  lemma {:induction false} StageSafe(m: Blobs, tmp: string, dst: string, content: Bytes, plan: StagePlan)
    requires tmp !in m && tmp != dst
    ensures
      var states := StageStates(m, tmp, dst, content, plan);
      && AllOldOrWhole(m, states, dst, content)
      && AllSame(m, states, {tmp, dst})
      && (forall i :: 0 <= i < |states| - 1 ==> OthersSame(m, states[i], {tmp}))
      && (StageOk(content, plan) ==> After(m, states) == m[dst := content])
      && (!StageOk(content, plan) ==> OthersSame(m, After(m, states), {tmp}))
      && (!StageOk(content, plan) && !plan.cleanup.Failed? ==> After(m, states) == m)
  {
    hide FillStates;
    if plan.createOk {
      var m1 := m[tmp := []];
      var fill := FillStates(m1, tmp, content, 0, plan.chunks);
      FillOnlyTemp(m1, tmp, content, 0, plan.chunks);
      var filled := [m1] + fill;
      assert m1 - {tmp} == m - {tmp};
      assert forall i :: 0 <= i < |filled| ==> tmp in filled[i] && filled[i] - {tmp} == m - {tmp};
      var m2 := filled[|filled| - 1];
      forall i | 0 <= i < |filled|
        ensures OldOrWhole(m, filled[i], dst, content) && OthersSame(m, filled[i], {tmp, dst})
      {
        OnlyTempChanged(m, filled[i], tmp, dst);
      }
      StageEnd(m, m2, tmp, dst, content);
    }
  }

  /** Whatever the temp is called, only it and dst change. */
  lemma {:induction false} StageOnly(m: Blobs, tmp: string, dst: string, content: Bytes, plan: StagePlan)
    ensures AllSame(m, StageStates(m, tmp, dst, content, plan), {tmp, dst})
  {
    hide FillStates, Sum;
    if plan.createOk {
      var m1 := m[tmp := []];
      FillOnlyTemp(m1, tmp, content, 0, plan.chunks);
      var filled := [m1] + FillStates(m1, tmp, content, 0, plan.chunks);
      assert m1 - {tmp} == m - {tmp};
      assert forall i :: 0 <= i < |filled| ==> filled[i] - {tmp} == m - {tmp};
      StageParts(m, tmp, dst, content, plan, filled);
      forall i | 0 <= i < |filled|
        ensures OthersSame(m, filled[i], {tmp, dst})
      {
        FewerNames(m, filled[i], {tmp}, {tmp, dst});
      }
      StageEndsOnly(m, filled[|filled| - 1], tmp, dst);
    }
  }

  lemma {:induction false} StageEndsOnly(m: Blobs, now: Blobs, tmp: string, dst: string)
    requires tmp in now && OthersSame(m, now, {tmp, dst})
    ensures OthersSame(m, now - {tmp}, {tmp, dst}) && OthersSame(m, Renamed(now, tmp, dst), {tmp, dst})
    ensures OthersSame(m, Renamed(now, tmp, dst) - {tmp}, {tmp, dst})
  {
    assert now - {tmp} - {tmp, dst} == now - {tmp, dst};
    assert Renamed(now, tmp, dst) - {tmp, dst} == now - {tmp, dst};
    assert Renamed(now, tmp, dst) - {tmp} - {tmp, dst} == now - {tmp, dst};
  }

  lemma {:induction false} FewerNames(m: Blobs, now: Blobs, names: set<string>, more: set<string>)
    requires OthersSame(m, now, names) && names <= more
    ensures OthersSame(m, now, more)
  {
    assert m - more == (m - names) - more;
    assert now - more == (now - names) - more;
  }

  lemma {:induction false} OnlyTempChanged(m: Blobs, now: Blobs, tmp: string, dst: string)
    requires tmp != dst && now - {tmp} == m - {tmp}
    ensures dst in m <==> dst in now
    ensures dst in m ==> now[dst] == m[dst]
    ensures OthersSame(m, now, {tmp, dst})
  {
    assert dst in m <==> dst in m - {tmp};
    assert dst in now <==> dst in now - {tmp};
    assert dst in m ==> (now - {tmp})[dst] == (m - {tmp})[dst];
    assert m - {tmp, dst} == (m - {tmp}) - {dst};
    assert now - {tmp, dst} == (now - {tmp}) - {dst};
  }

  lemma {:induction false} StageEnd(m: Blobs, m2: Blobs, tmp: string, dst: string, content: Bytes)
    requires tmp !in m && tmp != dst && tmp in m2 && m2 - {tmp} == m - {tmp}
    ensures m2 - {tmp} == m
    ensures m2[tmp] == content ==> Renamed(m2, tmp, dst) == m[dst := content]
    ensures OthersSame(m, m[dst := content], {tmp, dst})
  {
  }

  /** With the temp under the target's own name the deferred removal takes the new file away. */
  lemma {:induction false} StageOwnName(m: Blobs, tmp: string, content: Bytes, plan: StagePlan)
    requires tmp !in m && StageOk(content, plan) && plan.cleanup.Done?
    ensures After(m, StageStates(m, tmp, tmp, content, plan)) == m
  {
    hide FillStates;
    var m1 := m[tmp := []];
    FillOnlyTemp(m1, tmp, content, 0, plan.chunks);
    var filled := [m1] + FillStates(m1, tmp, content, 0, plan.chunks);
    var m2 := filled[|filled| - 1];
    assert tmp in m2 && m2 - {tmp} == m1 - {tmp} == m;
    assert StageStates(m, tmp, tmp, content, plan) == filled + [m2] + [m2 - {tmp}];
  }

  /* ---------- MoveUploadedFile of the full LocalFs: rename, else staged copy, then remove ---------- */

  datatype UploadPlan = UploadPlan(
    mkdirOk: bool, renameOk: bool, openOk: bool, statOk: bool, stage: StagePlan, remove: Outcome)

  function UploadMoveStates(m: Blobs, src: string, dst: string, tmp: string, plan: UploadPlan): seq<Blobs> {
    if !plan.mkdirOk || src !in m then []
    else if RenameWorks(src, dst, plan.renameOk) then [Renamed(m, src, dst)]
    else if !plan.openOk || !plan.statOk then []
    else
      var staged := StageStates(m, tmp, dst, m[src], plan.stage);
      staged + if StageOk(m[src], plan.stage) then RemoveStates(After(m, staged), src, plan.remove) else []
  }

  predicate UploadMoveOk(m: Blobs, src: string, dst: string, plan: UploadPlan) {
    plan.mkdirOk && src in m &&
    (RenameWorks(src, dst, plan.renameOk) ||
     (plan.openOk && plan.statOk && StageOk(m[src], plan.stage) && plan.remove.Done?))
  }

  method MoveUploadedFile(t: Tree, src: string, dst: string, tmp: string, plan: UploadPlan) returns (ok: bool)
    modifies t
    ensures ok == UploadMoveOk(old(t.files), src, dst, plan)
    ensures t.trace == old(t.trace) + UploadMoveStates(old(t.files), src, dst, tmp, plan)
    ensures t.files == After(old(t.files), UploadMoveStates(old(t.files), src, dst, tmp, plan))
    ensures src in old(t.files) && tmp !in old(t.files) && (src == dst || tmp != dst) ==>
      && AllKept(old(t.files), t.trace[|old(t.trace)|..], src, dst, {src, dst, tmp})
      && AllOldOrWhole(old(t.files), t.trace[|old(t.trace)|..], dst, old(t.files)[src])
      && (ok ==> t.files == Renamed(old(t.files), src, dst))
      && (ok <==> UploadNothingFails(plan, |old(t.files)[src]|) || (plan.mkdirOk && src == dst))
      && (!plan.renameOk && !StageOk(old(t.files)[src], plan.stage) ==>
            AllHave(t.trace[|old(t.trace)|..], src, old(t.files)[src]))
    ensures src !in old(t.files) ==> !ok && t.trace == old(t.trace)
  {
    hide AllKept, AllOldOrWhole, AllSame, AllHave, StageStates, StageOk;
    if src in t.files && tmp !in t.files && (src == dst || tmp != dst) {
      UploadMoveSafe(t.files, src, dst, tmp, plan);
    }
    if !plan.mkdirOk {
      return false;
    }
    if RenameWorks(src, dst, plan.renameOk) && src in t.files {
      t.Rename(src, dst);
      return true;
    }
    if !plan.openOk || src !in t.files || !plan.statOk {
      return false;
    }
    ok := Stage(t, tmp, dst, t.files[src], plan.stage);
    if !ok {
      return false;
    }
    if !plan.remove.Failed? {
      t.Remove(src);
    }
    ok := plan.remove.Done?;
  }

  predicate UploadNothingFails(plan: UploadPlan, size: nat) {
    plan.mkdirOk &&
    (plan.renameOk ||
     (plan.openOk && plan.statOk && plan.stage.createOk && plan.stage.copyOk && Sum(plan.stage.chunks) >= size &&
      plan.stage.closeOk && plan.stage.chmodOk && plan.stage.renameOk && plan.remove.Done?))
  }

  /** This fallback keeps the source's bytes, never shows a partial dst and touches no other file but
      its temp, at any state. */
  lemma {:induction false} UploadMoveSafe(m: Blobs, src: string, dst: string, tmp: string, plan: UploadPlan)
    requires src in m && tmp !in m && (src == dst || tmp != dst)
    ensures
      var states := UploadMoveStates(m, src, dst, tmp, plan);
      && AllKept(m, states, src, dst, {src, dst, tmp})
      && AllOldOrWhole(m, states, dst, m[src])
      && (UploadMoveOk(m, src, dst, plan) ==> After(m, states) == Renamed(m, src, dst))
      && (UploadMoveOk(m, src, dst, plan) <==> UploadNothingFails(plan, |m[src]|) || (plan.mkdirOk && src == dst))
      && (!plan.renameOk && !StageOk(m[src], plan.stage) ==> AllHave(states, src, m[src]))
  {
    UploadMoveOnly(m, src, dst, tmp, plan);
    RenamedKeeps(m, src, dst, {src, dst, tmp});
    if plan.mkdirOk && !RenameWorks(src, dst, plan.renameOk) && plan.openOk && plan.statOk {
      var staged := StageStates(m, tmp, dst, m[src], plan.stage);
      StageSafe(m, tmp, dst, m[src], plan.stage);
      forall i | 0 <= i < |staged|
        ensures Kept(m, staged[i], src, dst) && src in staged[i] && staged[i][src] == m[src]
      {
        StagedKeeps(m, staged[i], src, dst, tmp);
      }
    }
  }

  lemma {:induction false} StagedKeeps(m: Blobs, now: Blobs, src: string, dst: string, tmp: string)
    requires src in m && tmp !in m && src != dst && OthersSame(m, now, {tmp, dst})
    ensures Kept(m, now, src, dst) && src in now && now[src] == m[src]
  {
    assert src in m - {tmp, dst} && src in now - {tmp, dst};
    assert (m - {tmp, dst})[src] == (now - {tmp, dst})[src];
  }

  /** Whatever src, dst and the temp are, no other file changes. */
  lemma {:induction false} UploadMoveOnly(m: Blobs, src: string, dst: string, tmp: string, plan: UploadPlan)
    ensures AllSame(m, UploadMoveStates(m, src, dst, tmp, plan), {src, dst, tmp})
  {
    hide StageStates;
    if plan.mkdirOk && src in m && !RenameWorks(src, dst, plan.renameOk) && plan.openOk && plan.statOk {
      var staged := StageStates(m, tmp, dst, m[src], plan.stage);
      StageOnly(m, tmp, dst, m[src], plan.stage);
      assert {src} + {tmp, dst} == {src, dst, tmp};
      forall i | 0 <= i < |staged|
        ensures OthersSame(m, staged[i], {src, dst, tmp}) && OthersSame(m, staged[i] - {src}, {src, dst, tmp})
      {
        FewerDiffer(m, staged[i], {tmp, dst}, src);
      }
      FewerDiffer(m, m, {tmp, dst}, src);
    } else if plan.mkdirOk && src in m {
      assert OthersSame(m, Renamed(m, src, dst), {src, dst, tmp});
    }
  }

  lemma {:induction false} RenamedKeeps(m: Blobs, src: string, dst: string, names: set<string>)
    requires src in m && src in names && dst in names
    ensures Kept(m, Renamed(m, src, dst), src, dst) && OthersSame(m, Renamed(m, src, dst), names)
  {
    assert m - names == Renamed(m, src, dst) - names;
  }

  /** With the temp under the destination's own name, a fallback in which nothing fails returns
      success and leaves the bytes nowhere. */
  lemma {:induction false} OwnNameLoses(m: Blobs, src: string, dst: string, plan: UploadPlan)
    requires src in m && dst !in m && UploadNothingFails(plan, |m[src]|) && !plan.renameOk && plan.stage.cleanup.Done?
    ensures
      var states := UploadMoveStates(m, src, dst, dst, plan);
      && UploadMoveOk(m, src, dst, plan)
      && states != [] && states[|states| - 1] == m - {src} && !Kept(m, states[|states| - 1], src, dst)
  {
    hide StageStates;
    var staged := StageStates(m, dst, dst, m[src], plan.stage);
    StageOwnName(m, dst, m[src], plan.stage);
    assert UploadMoveStates(m, src, dst, dst, plan) == staged + [After(m, staged) - {src}];
  }

  /* ---------- Move on object stores: copy, then delete ---------- */

  /** source is the object the copy request names; it is src itself unless the request's own
      encoding says otherwise. */
  function ObjectMoveStates(
    m: Blobs, source: string, src: string, dst: string, copy: Outcome, delete: Outcome): seq<Blobs>
  {
    if copy.Failed? || source !in m then []
    else
      var m1 := m[dst := m[source]];
      [m1] + if copy.Done? then RemoveStates(m1, src, delete) else []
  }

  predicate ObjectMoveOk(m: Blobs, source: string, copy: Outcome, delete: Outcome) {
    copy.Done? && source in m && delete.Done?
  }

  method ObjectMove(t: Tree, source: string, src: string, dst: string, copy: Outcome, delete: Outcome) returns (ok: bool)
    modifies t
    ensures ok == ObjectMoveOk(old(t.files), source, copy, delete)
    ensures t.trace == old(t.trace) + ObjectMoveStates(old(t.files), source, src, dst, copy, delete)
    ensures t.files == After(old(t.files), ObjectMoveStates(old(t.files), source, src, dst, copy, delete))
    ensures source == src && src in old(t.files) && src != dst ==>
      && AllKept(old(t.files), t.trace[|old(t.trace)|..], src, dst, {src, dst})
      && (ok ==> t.files == old(t.files)[dst := old(t.files)[src]] - {src})
      && (ok <==> copy.Done? && delete.Done?)
      && (!copy.Done? ==> AllHave(t.trace[|old(t.trace)|..], src, old(t.files)[src]))
  {
    hide AllKept;
    if source == src && src in t.files && src != dst {
      ObjectMoveKeeps(t.files, src, dst, copy, delete);
    }
    if copy.Failed? || source !in t.files {
      return false;
    }
    t.Put(dst, t.files[source]);
    if !copy.Done? {
      return false;
    }
    if !delete.Failed? {
      t.Remove(src);
    }
    ok := delete.Done?;
  }

  lemma {:induction false} ObjectMoveKeeps(m: Blobs, src: string, dst: string, copy: Outcome, delete: Outcome)
    requires src in m && src != dst
    ensures AllKept(m, ObjectMoveStates(m, src, src, dst, copy, delete), src, dst, {src, dst})
    ensures !copy.Done? ==> AllHave(ObjectMoveStates(m, src, src, dst, copy, delete), src, m[src])
  {
    RenamedKeeps(m, src, dst, {src, dst});
    assert m - {src, dst} == m[dst := m[src]] - {src, dst};
  }

  /** Copy-then-delete keeps the source's bytes, at every state, over every bucket and every outcome,
      exactly when the copy names the source and the destination is another object. */
  lemma {:induction false} ObjectMoveKeepsIff(source: string, src: string, dst: string)
    ensures
      (forall m, copy, delete, i ::
        src in m && 0 <= i < |ObjectMoveStates(m, source, src, dst, copy, delete)| ==>
        Kept(m, ObjectMoveStates(m, source, src, dst, copy, delete)[i], src, dst))
      <==> source == src && src != dst
  {
    if !(source == src && src != dst) {
      var m: Blobs := map[source := [1], src := if source == src then [1] else [0]];
      var states := ObjectMoveStates(m, source, src, dst, Done, Done);
      assert states[1] == m[dst := m[source]] - {src};
    }
  }
}
