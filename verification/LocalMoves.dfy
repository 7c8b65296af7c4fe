/** MoveUploadedFile of the full LocalFs, from the caller's path parts to directory entries. */
module LocalMoves {
  import opened Paths
  import opened LocalPaths
  import opened Symlinks
  import opened Blobs
  import opened Moves
  import opened LocalOps
  import opened LocalWrites

  /* ---------- LocalFs.MoveUploadedFile ---------- */

  datatype MoveCall = MoveCall(
    cancelled: bool, srcParts: seq<string>, srcFound: bool, dstParts: seq<string>, dstFound: bool,
    rand: string, plan: UploadPlan)

  function MoveTemp(d: Disk, dst: string, rand: string): string {
    Entry(d, TempPath(dst, ".tmpcopy-" + rand))
  }

  function JailedMoveStates(m: Blobs, d: Disk, base: string, c: MoveCall): seq<Blobs>
    requires Rooted(base)
  {
    if c.cancelled then []
    else
      var src, dst := Accepted(d, base, c.srcParts, c.srcFound), Accepted(d, base, c.dstParts, c.dstFound);
      if src.Outside? || dst.Outside? then []
      else UploadMoveStates(m, Entry(d, src.path), Entry(d, dst.path), MoveTemp(d, dst.path, c.rand), c.plan)
  }

  /** The two entries are one, or the source's lies in the base and the destination's directory leads
      into it. */
  predicate MoveInside(d: Disk, base: string, src: string, dst: string) {
    Entry(d, src) == Entry(d, dst) || (Within(Loc(d, base), Entry(d, src)) && Within(Loc(d, base), Loc(d, Dir(dst))))
  }

  /** What a move means for the files, given that CreateTemp made a new file. */
  ghost predicate MoveEffect(
    d: Disk, base: string, m: Blobs, states: seq<Blobs>, src: string, dst: string, tmp: string, ok: bool)
  {
    var from, to := Entry(d, src), Entry(d, dst);
    && (from in m && (from == to || !(".tmpcopy-" <= Final(dst))) ==>
          && AllKept(m, states, from, to, {from, to, tmp})
          && AllOldOrWhole(m, states, to, m[from])
          && (ok ==> After(m, states) == Renamed(m, from, to)))
    && (MoveInside(d, base, src, dst) ==> OnlyInside(Loc(d, base), m, states))
  }

  /** MoveUploadedFile from the caller's parts. */
  method JailedMove(tree: Tree, d: Disk, base: string, c: MoveCall) returns (ok: bool)
    requires Valid(d) && Rooted(base) && NoSlash(c.rand)
    modifies tree
    ensures tree.trace == old(tree.trace) + JailedMoveStates(old(tree.files), d, base, c)
    ensures tree.files == After(old(tree.files), JailedMoveStates(old(tree.files), d, base, c))
    ensures
      var src, dst := Accepted(d, base, c.srcParts, c.srcFound), Accepted(d, base, c.dstParts, c.dstFound);
      && ok == (!c.cancelled && src.Inside? && dst.Inside? &&
                UploadMoveOk(old(tree.files), Entry(d, src.path), Entry(d, dst.path), c.plan))
      && (c.cancelled || src.Outside? || dst.Outside? ==> tree.trace == old(tree.trace) && tree.files == old(tree.files))
      && (src.Inside? && dst.Inside? && MoveTemp(d, dst.path, c.rand) !in old(tree.files) ==>
            MoveEffect(d, base, old(tree.files), tree.trace[|old(tree.trace)|..],
                       src.path, dst.path, MoveTemp(d, dst.path, c.rand), ok))
  {
    hide Valid, Accepted, MoveEffect, Entry, TempPath, UploadMoveStates, UploadMoveOk, AllKept, AllOldOrWhole;
    var src := Accepted(d, base, c.srcParts, c.srcFound);
    var dst := Accepted(d, base, c.dstParts, c.dstFound);
    if src.Inside? && dst.Inside? && MoveTemp(d, dst.path, c.rand) !in tree.files {
      JailedMoveSafe(tree.files, d, base, c);
    }
    if c.cancelled || src.Outside? || dst.Outside? {
      return false;
    }
    ok := MoveUploadedFile(tree, Entry(d, src.path), Entry(d, dst.path), MoveTemp(d, dst.path, c.rand), c.plan);
  }

  lemma {:induction false} JailedMoveSafe(m: Blobs, d: Disk, base: string, c: MoveCall)
    requires Valid(d) && Rooted(base) && NoSlash(c.rand)
    requires Accepted(d, base, c.srcParts, c.srcFound).Inside? && Accepted(d, base, c.dstParts, c.dstFound).Inside?
    requires MoveTemp(d, Accepted(d, base, c.dstParts, c.dstFound).path, c.rand) !in m
    ensures
      var src, dst := Accepted(d, base, c.srcParts, c.srcFound).path, Accepted(d, base, c.dstParts, c.dstFound).path;
      MoveEffect(d, base, m, JailedMoveStates(m, d, base, c), src, dst, MoveTemp(d, dst, c.rand),
                 !c.cancelled && UploadMoveOk(m, Entry(d, src), Entry(d, dst), c.plan))
  {
    hide Valid, Accepted, Entry, Loc, TempPath, Final, IsClean;
    hide UploadMoveStates, UploadMoveOk, OnlyInside, MoveInside, OthersSame;
    var src, dst := Accepted(d, base, c.srcParts, c.srcFound).path, Accepted(d, base, c.dstParts, c.dstFound).path;
    var from, to, tmp := Entry(d, src), Entry(d, dst), MoveTemp(d, dst, c.rand);
    AcceptedForm(d, base, c.dstParts, c.dstFound);
    if from in m && (from == to || !(".tmpcopy-" <= Final(dst))) {
      if from != to {
        DrawnApart(dst, ".tmpcopy-", c.rand);
        DrawIsPlain(".tmpcopy-", c.rand);
        TempIsTargetIff(d, dst, ".tmpcopy-" + c.rand);
      }
      UploadMoveSafe(m, from, to, tmp, c.plan);
    }
    if MoveInside(d, base, src, dst) {
      JailedMoveStays(m, d, base, c);
    }
  }

  lemma {:induction false} JailedMoveStays(m: Blobs, d: Disk, base: string, c: MoveCall)
    requires Valid(d) && Rooted(base) && NoSlash(c.rand)
    requires Accepted(d, base, c.srcParts, c.srcFound).Inside? && Accepted(d, base, c.dstParts, c.dstFound).Inside?
    requires MoveInside(
      d, base, Accepted(d, base, c.srcParts, c.srcFound).path, Accepted(d, base, c.dstParts, c.dstFound).path)
    ensures OnlyInside(Loc(d, base), m, JailedMoveStates(m, d, base, c))
  {
    hide Valid, Accepted, Entry, Loc, TempPath, UploadMoveStates, OnlyInside, Within, Dir, IsClean, AllSame;
    var src, dst := Accepted(d, base, c.srcParts, c.srcFound).path, Accepted(d, base, c.dstParts, c.dstFound).path;
    var from, to, tmp := Entry(d, src), Entry(d, dst), MoveTemp(d, dst, c.rand);
    if c.cancelled {
      NothingOutside(Loc(d, base), m);
    } else if from == to {
      OntoItself(m, from, tmp, c.plan);
      NamedInside(Loc(d, base), m, UploadMoveStates(m, from, to, tmp, c.plan), {});
    } else {
      AcceptedForm(d, base, c.dstParts, c.dstFound);
      DrawIsPlain(".tmpcopy-", c.rand);
      EntriesInside(d, base, dst, ".tmpcopy-" + c.rand);
      UploadMoveOnly(m, from, to, tmp, c.plan);
      NamedInside(Loc(d, base), m, UploadMoveStates(m, from, to, tmp, c.plan), {from, to, tmp});
    }
  }

  lemma {:induction false} OntoItself(m: Blobs, from: string, tmp: string, plan: UploadPlan)
    ensures AllSame(m, UploadMoveStates(m, from, from, tmp, plan), {})
  {
  }

  /** Whether every move between those parts, whatever the files, the draw and the failures, leaves
      the files outside the base alone in every state it passes through. */
  ghost predicate MovesStay(
    d: Disk, base: string, srcParts: seq<string>, srcFound: bool, dstParts: seq<string>, dstFound: bool)
    requires Rooted(base)
  {
    forall m, c: MoveCall ::
      c.srcParts == srcParts && c.srcFound == srcFound && c.dstParts == dstParts && c.dstFound == dstFound &&
      NoSlash(c.rand) ==>
        OnlyInside(Loc(d, base), m, JailedMoveStates(m, d, base, c))
  }

  /** All moves between accepted paths stay in the base exactly when MoveInside holds. For paths that
      are there already, and for all when there are no links, that means that both are the same or
      the destination is not the base root, or the base is "/". */
  lemma {:induction false} MoveStaysInBaseIff(
    d: Disk, base: string, srcParts: seq<string>, srcFound: bool, dstParts: seq<string>, dstFound: bool)
    requires Valid(d) && Rooted(base)
    requires Accepted(d, base, srcParts, srcFound).Inside? && Accepted(d, base, dstParts, dstFound).Inside?
    ensures
      var src, dst := Accepted(d, base, srcParts, srcFound).path, Accepted(d, base, dstParts, dstFound).path;
      && (MovesStay(d, base, srcParts, srcFound, dstParts, dstFound) <==> MoveInside(d, base, src, dst))
      && ((srcFound && dstFound) || d.links == map[] ==>
            (MovesStay(d, base, srcParts, srcFound, dstParts, dstFound) <==>
             src == dst || Comps(dst) != Comps(base) || Comps(base) == []))
  {
    hide Valid, Accepted, OnlyInside, JailedMoveStates, MoveInside, Comps, IsClean;
    var src, dst := Accepted(d, base, srcParts, srcFound).path, Accepted(d, base, dstParts, dstFound).path;
    if MoveInside(d, base, src, dst) {
      forall m, c: MoveCall |
        c.srcParts == srcParts && c.srcFound == srcFound && c.dstParts == dstParts && c.dstFound == dstFound &&
        NoSlash(c.rand)
        ensures OnlyInside(Loc(d, base), m, JailedMoveStates(m, d, base, c))
      {
        JailedMoveStays(m, d, base, c);
      }
    } else {
      var m, c := MoveShows(d, base, srcParts, srcFound, dstParts, dstFound);
    }
    if (srcFound && dstFound) || d.links == map[] {
      AcceptedForm(d, base, srcParts, srcFound);
      AcceptedForm(d, base, dstParts, dstFound);
      PlainMoveInside(d, base, src, dst);
    }
  }

  /** Between places, or without links, a move stays inside exactly when it goes nowhere or not onto the
      base root. */
  lemma {:induction false} PlainMoveInside(d: Disk, base: string, src: string, dst: string)
    requires Valid(d) && Rooted(base) && Rooted(src) && IsClean(src) && Rooted(dst) && IsClean(dst)
    requires Within(base, src) && Within(base, dst)
    requires (Resolved(d, Comps(src)) && Resolved(d, Comps(dst))) || d.links == map[]
    ensures MoveInside(d, base, src, dst) <==> src == dst || Comps(dst) != Comps(base) || Comps(base) == []
  {
    hide Comps, Dir, Entry, Loc;
    ResolvedDirInside(d, base, dst);
    PlainEntry(d, src);
    PlainEntry(d, dst);
    LocatePlain(d.cwd, base);
    LocComps(d, base);
    ResolvedPrefix(d, Comps(base), Comps(src));
    PlaceFixed(d, Comps(base));
  }

  lemma {:induction false} PlainEntry(d: Disk, p: string)
    requires Valid(d) && Rooted(p) && IsClean(p) && (Resolved(d, Comps(p)) || d.links == map[])
    ensures Entry(d, p) == p
  {
    hide Comps;
    LocatePlain(d.cwd, p);
    var cs := Comps(p);
    if cs != [] {
      ResolvedPrefix(d, Init(cs), cs);
      PlaceFixed(d, Init(cs));
      assert Init(cs) + [cs[|cs| - 1]] == cs;
    }
  }

  lemma {:induction false} MoveShows(
    d: Disk, base: string, srcParts: seq<string>, srcFound: bool, dstParts: seq<string>, dstFound: bool)
    returns (m: Blobs, c: MoveCall)
    requires Valid(d) && Rooted(base)
    requires Accepted(d, base, srcParts, srcFound).Inside? && Accepted(d, base, dstParts, dstFound).Inside?
    requires !MoveInside(d, base, Accepted(d, base, srcParts, srcFound).path, Accepted(d, base, dstParts, dstFound).path)
    ensures c.srcParts == srcParts && c.srcFound == srcFound && c.dstParts == dstParts && c.dstFound == dstFound
    ensures NoSlash(c.rand) && !OnlyInside(Loc(d, base), m, JailedMoveStates(m, d, base, c))
  {
    hide Valid, Accepted, OnlyInside, Entry, Loc, TempPath, Within, Dir, IsClean;
    var src, dst := Accepted(d, base, srcParts, srcFound).path, Accepted(d, base, dstParts, dstFound).path;
    var from, to := Entry(d, src), Entry(d, dst);
    m := map[from := []];
    if Within(Loc(d, base), Loc(d, Dir(dst))) {
      var plan := UploadPlan(true, true, true, true, StagePlan(true, [], false, true, true, true, Failed), Done);
      c := MoveCall(false, srcParts, srcFound, dstParts, dstFound, "0", plan);
      assert JailedMoveStates(m, d, base, c) == [Renamed(m, from, to)];
      ShowsOutside(Loc(d, base), m, JailedMoveStates(m, d, base, c), 0, from);
    } else {
      AcceptedForm(d, base, dstParts, dstFound);
      var rand := OutsideDraw(d, base, dst, ".tmpcopy-");
      var plan := UploadPlan(true, false, true, true, StagePlan(true, [], false, true, true, true, Failed), Done);
      c := MoveCall(false, srcParts, srcFound, dstParts, dstFound, rand, plan);
      var tmp := MoveTemp(d, dst, rand);
      StageFirst(m, tmp, to, [], plan.stage);
      var states := JailedMoveStates(m, d, base, c);
      if from != tmp {
        ShowsOutside(Loc(d, base), m, states, 0, tmp);
      } else {
        c := c.(plan := plan.(renameOk := true));
        assert JailedMoveStates(m, d, base, c) == [Renamed(m, from, to)];
        ShowsOutside(Loc(d, base), m, JailedMoveStates(m, d, base, c), 0, from);
      }
    }
  }

  lemma {:induction false} StageFirst(m: Blobs, tmp: string, dst: string, content: Bytes, plan: StagePlan)
    requires plan.createOk
    ensures
      var states := StageStates(m, tmp, dst, content, plan);
      states != [] && states[0] == m[tmp := []]
  {
  }

  /** Whether no move between those parts ever loses the source's bytes, whatever the draw. */
  ghost predicate MovesKeep(
    d: Disk, base: string, srcParts: seq<string>, srcFound: bool, dstParts: seq<string>, dstFound: bool,
    src: string, dst: string)
    requires Rooted(base)
  {
    forall m, c: MoveCall, i ::
      c.srcParts == srcParts && c.srcFound == srcFound && c.dstParts == dstParts && c.dstFound == dstFound &&
      NoSlash(c.rand) && Entry(d, src) in m && MoveTemp(d, dst, c.rand) !in m &&
      0 <= i < |JailedMoveStates(m, d, base, c)| ==>
        Kept(m, JailedMoveStates(m, d, base, c)[i], Entry(d, src), Entry(d, dst))
  }

  /** Over all draws, the bytes are never lost exactly when the destination is not called like a temp,
      or both paths name one entry. */
  lemma {:induction false} JailedMoveKeepsIff(
    d: Disk, base: string, srcParts: seq<string>, srcFound: bool, dstParts: seq<string>, dstFound: bool)
    requires Valid(d) && Rooted(base)
    requires Accepted(d, base, srcParts, srcFound).Inside? && Accepted(d, base, dstParts, dstFound).Inside?
    ensures
      var src, dst := Accepted(d, base, srcParts, srcFound).path, Accepted(d, base, dstParts, dstFound).path;
      MovesKeep(d, base, srcParts, srcFound, dstParts, dstFound, src, dst) <==>
        Entry(d, src) == Entry(d, dst) || !(".tmpcopy-" <= Final(dst))
  {
    hide Valid, Accepted, Entry, TempPath, Final, JailedMoveStates, Kept;
    var src, dst := Accepted(d, base, srcParts, srcFound).path, Accepted(d, base, dstParts, dstFound).path;
    var from, to := Entry(d, src), Entry(d, dst);
    if from == to || !(".tmpcopy-" <= Final(dst)) {
      forall m, c: MoveCall, i |
        c.srcParts == srcParts && c.srcFound == srcFound && c.dstParts == dstParts && c.dstFound == dstFound &&
        NoSlash(c.rand) && from in m && MoveTemp(d, dst, c.rand) !in m && 0 <= i < |JailedMoveStates(m, d, base, c)|
        ensures Kept(m, JailedMoveStates(m, d, base, c)[i], from, to)
      {
        JailedMoveSafe(m, d, base, c);
      }
    } else {
      var m, c, i := OwnNameMoveLoses(d, base, srcParts, srcFound, dstParts, dstFound);
    }
  }

  /** A draw that spells the destination's own name: the move succeeds and the bytes are gone. */
  lemma {:induction false} OwnNameMoveLoses(
    d: Disk, base: string, srcParts: seq<string>, srcFound: bool, dstParts: seq<string>, dstFound: bool)
    returns (m: Blobs, c: MoveCall, i: nat)
    requires Valid(d) && Rooted(base)
    requires Accepted(d, base, srcParts, srcFound).Inside? && Accepted(d, base, dstParts, dstFound).Inside?
    requires ".tmpcopy-" <= Final(Accepted(d, base, dstParts, dstFound).path)
    requires Entry(d, Accepted(d, base, srcParts, srcFound).path) != Entry(d, Accepted(d, base, dstParts, dstFound).path)
    ensures
      var src, dst := Accepted(d, base, srcParts, srcFound).path, Accepted(d, base, dstParts, dstFound).path;
      && c.srcParts == srcParts && c.srcFound == srcFound && c.dstParts == dstParts && c.dstFound == dstFound
      && NoSlash(c.rand) && Entry(d, src) in m && MoveTemp(d, dst, c.rand) !in m
      && UploadMoveOk(m, Entry(d, src), Entry(d, dst), c.plan)
      && i < |JailedMoveStates(m, d, base, c)|
      && !Kept(m, JailedMoveStates(m, d, base, c)[i], Entry(d, src), Entry(d, dst))
  {
    hide Valid, Accepted, Entry, TempPath, Final, IsClean, UploadMoveStates;
    var src, dst := Accepted(d, base, srcParts, srcFound).path, Accepted(d, base, dstParts, dstFound).path;
    var from, to := Entry(d, src), Entry(d, dst);
    AcceptedForm(d, base, dstParts, dstFound);
    var rand := Final(dst)[9..];
    assert Final(dst) == ".tmpcopy-" + rand;
    SplitInitFinal(dst);
    SuffixNoSlash(".tmpcopy-", rand);
    DrawIsPlain(".tmpcopy-", rand);
    TempIsTargetIff(d, dst, ".tmpcopy-" + rand);
    m := map[from := []];
    c := MoveCall(false, srcParts, srcFound, dstParts, dstFound, rand,
                  UploadPlan(true, false, true, true, StagePlan(true, [], true, true, true, true, Done), Done));
    OwnNameLoses(m, from, to, c.plan);
    i := |JailedMoveStates(m, d, base, c)| - 1;
  }
}
