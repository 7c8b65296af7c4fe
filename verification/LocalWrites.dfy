/** Writes of the local adapters, from the caller's path to directory entries: the jailed, staged
    AtomicWriteFile, and LocalStorage.AtomicWrite among other writers. */
module LocalWrites {
  import opened Paths
  import opened LocalPaths
  import opened Symlinks
  import opened Blobs
  import opened Moves
  import opened LocalOps
  import AW = AtomicWrites
  import ObjectKeys

  /* ---------- LocalFs.AtomicWriteFile ---------- */

  /** One call, with what its environment answers: found is whether EvalSymlinks finds the target, rand
      is what CreateTemp puts for the '*'. */
  datatype WriteCall = WriteCall(
    cancelled: bool, parts: seq<string>, found: bool, mkdirOk: bool, rand: string, content: Bytes, stage: StagePlan)

  function WriteTarget(d: Disk, base: string, c: WriteCall): Sanitized
    requires Rooted(base)
  {
    if c.cancelled || c.parts == [] then Outside else Accepted(d, base, c.parts, c.found)
  }

  function WriteTemp(d: Disk, target: string, c: WriteCall): string {
    Entry(d, TempPath(target, ".tmp-" + c.rand))
  }

  function WriteStates(m: Blobs, d: Disk, base: string, c: WriteCall): seq<Blobs>
    requires Rooted(base)
  {
    match WriteTarget(d, base, c)
    case Inside(target) =>
      if c.mkdirOk then StageStates(m, WriteTemp(d, target, c), Entry(d, target), c.content, c.stage) else []
    case Outside => []
  }

  /** What a write to target means for the files, given that CreateTemp made a new file. */
  ghost predicate WriteEffect(
    d: Disk, base: string, m: Blobs, states: seq<Blobs>, target: string, content: Bytes, cleaned: bool, ok: bool)
  {
    && (!(".tmp-" <= Final(target)) ==>
          && AllOldOrWhole(m, states, Entry(d, target), content)
          && (ok ==> After(m, states) == m[Entry(d, target) := content])
          && (!ok && cleaned ==> After(m, states) == m))
    && (Within(Loc(d, base), Loc(d, Dir(target))) ==> OnlyInside(Loc(d, base), m, states))
  }

  /** The write as its caller sees it. A refused path changes nothing. Otherwise, unless the target is
      called like a temp: in every state it is old or whole, success means written and error means
      unchanged, but for a temp that could not be removed. And all of it is in the base, if that is
      where the target's directory leads. */
  method AtomicWriteFile(tree: Tree, d: Disk, base: string, c: WriteCall) returns (ok: bool)
    requires Valid(d) && Rooted(base) && NoSlash(c.rand)
    modifies tree
    ensures ok == (WriteTarget(d, base, c).Inside? && c.mkdirOk && StageOk(c.content, c.stage))
    ensures tree.trace == old(tree.trace) + WriteStates(old(tree.files), d, base, c)
    ensures tree.files == After(old(tree.files), WriteStates(old(tree.files), d, base, c))
    ensures c.cancelled || c.parts == [] || Accepted(d, base, c.parts, c.found).Outside? ==>
      !ok && tree.trace == old(tree.trace) && tree.files == old(tree.files)
    ensures WriteTarget(d, base, c).Inside? && WriteTemp(d, WriteTarget(d, base, c).path, c) !in old(tree.files) ==>
      WriteEffect(d, base, old(tree.files), tree.trace[|old(tree.trace)|..], WriteTarget(d, base, c).path,
                  c.content, !c.stage.cleanup.Failed?, ok)
  {
    hide WriteEffect, Valid, TempPath, Entry, Accepted, StageStates, AllOldOrWhole, AllSame, StageOk;
    if c.cancelled || c.parts == [] {
      return false;
    }
    var where := Accepted(d, base, c.parts, c.found);
    if where.Outside? {
      return false;
    }
    if WriteTemp(d, where.path, c) !in tree.files {
      WriteSafe(tree.files, d, base, c);
    }
    if !c.mkdirOk {
      return false;
    }
    ok := Stage(tree, WriteTemp(d, where.path, c), Entry(d, where.path), c.content, c.stage);
  }

  lemma {:induction false} WriteSafe(m: Blobs, d: Disk, base: string, c: WriteCall)
    requires Valid(d) && Rooted(base) && NoSlash(c.rand) && WriteTarget(d, base, c).Inside?
    requires WriteTemp(d, WriteTarget(d, base, c).path, c) !in m
    ensures WriteEffect(d, base, m, WriteStates(m, d, base, c), WriteTarget(d, base, c).path,
                        c.content, !c.stage.cleanup.Failed?, c.mkdirOk && StageOk(c.content, c.stage))
  {
    hide Valid, TempPath, Entry, Loc, Accepted, StageStates, OnlyInside, Within, Dir, Final, IsClean, OthersSame;
    var target := WriteTarget(d, base, c).path;
    AcceptedForm(d, base, c.parts, c.found);
    if !(".tmp-" <= Final(target)) && c.mkdirOk {
      DrawnApart(target, ".tmp-", c.rand);
      TempIsTargetIff(d, target, ".tmp-" + c.rand);
      StageSafe(m, WriteTemp(d, target, c), Entry(d, target), c.content, c.stage);
    }
    if Within(Loc(d, base), Loc(d, Dir(target))) {
      WriteStays(m, d, base, c);
    }
  }

  lemma {:induction false} DrawnApart(target: string, prefix: string, rand: string)
    requires !(prefix <= Final(target))
    ensures prefix + rand != Final(target)
  {
    assert prefix <= prefix + rand;
  }

  lemma {:induction false} DrawIsPlain(prefix: string, rand: string)
    requires NoSlash(prefix) && NoSlash(rand) && |prefix| > 2
    ensures Plain(prefix + rand)
  {
  }

  lemma {:induction false} WriteStays(m: Blobs, d: Disk, base: string, c: WriteCall)
    requires Valid(d) && Rooted(base) && NoSlash(c.rand) && WriteTarget(d, base, c).Inside?
    requires Within(Loc(d, base), Loc(d, Dir(WriteTarget(d, base, c).path)))
    ensures OnlyInside(Loc(d, base), m, WriteStates(m, d, base, c))
  {
    hide Valid, TempPath, Entry, Loc, Accepted, StageStates, OnlyInside, Within, Dir, IsClean, AllSame;
    var target := WriteTarget(d, base, c).path;
    AcceptedForm(d, base, c.parts, c.found);
    if c.mkdirOk {
      var tmp := WriteTemp(d, target, c);
      StageOnly(m, tmp, Entry(d, target), c.content, c.stage);
      EntriesInside(d, base, target, ".tmp-" + c.rand);
      NamedInside(Loc(d, base), m, StageStates(m, tmp, Entry(d, target), c.content, c.stage), {tmp, Entry(d, target)});
    } else {
      NothingOutside(Loc(d, base), m);
    }
  }

  /** Where a target's directory leads, there its entry and its temp files are. */
  lemma {:induction false} EntriesInside(d: Disk, base: string, target: string, name: string)
    requires Valid(d) && Rooted(base) && Rooted(target) && IsClean(target) && Plain(name)
    requires Within(Loc(d, base), Loc(d, Dir(target)))
    ensures Within(Loc(d, base), Entry(d, target)) && Within(Loc(d, base), Entry(d, TempPath(target, name)))
  {
    hide Comps, Dir, Entry, Loc, TempPath, IsClean;
    LocComps(d, base);
    EntryComps(d, target);
    EntryComps(d, TempPath(target, name));
    TempInDir(d, target, name);
    if target == "/" {
      RootEntry(d);
      DirOfRoot();
      RootLoc(d);
    } else {
      EntryInDir(d, target);
    }
  }

  /** Whether every write with those parts, whatever the files, the draw and the failures, leaves the
      files outside the base alone in every state it passes through. */
  ghost predicate WritesStay(d: Disk, base: string, parts: seq<string>, found: bool)
    requires Rooted(base)
  {
    forall m, c: WriteCall :: c.parts == parts && c.found == found && NoSlash(c.rand) ==>
      OnlyInside(Loc(d, base), m, WriteStates(m, d, base, c))
  }

  /** All writes to an accepted target stay in the base exactly when its directory leads into the base.
      For a target that is there already, and for every target when there are no links, that means
      that it is not the base root, or the base is "/". */
  lemma {:induction false} WriteStaysInBaseIff(d: Disk, base: string, parts: seq<string>, found: bool)
    requires Valid(d) && Rooted(base) && parts != [] && Accepted(d, base, parts, found).Inside?
    ensures
      var target := Accepted(d, base, parts, found).path;
      && (WritesStay(d, base, parts, found) <==> Within(Loc(d, base), Loc(d, Dir(target))))
      && (found || d.links == map[] ==>
            (WritesStay(d, base, parts, found) <==> Comps(target) != Comps(base) || Comps(base) == []))
  {
    hide Valid, Accepted, OnlyInside, WriteStates, Dir, Within, Loc, Entry, TempPath, Comps, IsClean;
    var target := Accepted(d, base, parts, found).path;
    AcceptedForm(d, base, parts, found);
    if found || d.links == map[] {
      ResolvedDirInside(d, base, target);
    }
    if Within(Loc(d, base), Loc(d, Dir(target))) {
      forall m, c: WriteCall | c.parts == parts && c.found == found && NoSlash(c.rand)
        ensures OnlyInside(Loc(d, base), m, WriteStates(m, d, base, c))
      {
        WriteStaysOrRefused(m, d, base, c);
      }
    } else {
      var rand := OutsideDraw(d, base, target, ".tmp-");
      var c := WriteCall(false, parts, found, true, rand, [], StagePlan(true, [], false, true, true, true, Failed));
      WriteShows(d, base, c);
      assert !OnlyInside(Loc(d, base), map[], WriteStates(map[], d, base, c));
    }
  }

  lemma {:induction false} WriteStaysOrRefused(m: Blobs, d: Disk, base: string, c: WriteCall)
    requires Valid(d) && Rooted(base) && NoSlash(c.rand)
    requires
      var where := Accepted(d, base, c.parts, c.found);
      where.Inside? ==> Within(Loc(d, base), Loc(d, Dir(where.path)))
    ensures OnlyInside(Loc(d, base), m, WriteStates(m, d, base, c))
  {
    hide Valid, Accepted, OnlyInside, Dir, Within, Loc, Entry, TempPath;
    if WriteTarget(d, base, c).Inside? {
      WriteStays(m, d, base, c);
    } else {
      NothingOutside(Loc(d, base), m);
    }
  }

  /** When the target's directory leads outside the base, some draw puts the temp outside too. */
  lemma {:induction false} OutsideDraw(d: Disk, base: string, target: string, prefix: string) returns (rand: string)
    requires Valid(d) && Rooted(base) && Rooted(target) && !Within(Loc(d, base), Loc(d, Dir(target)))
    requires NoSlash(prefix) && |prefix| > 2
    ensures NoSlash(rand) && !Within(Loc(d, base), Entry(d, TempPath(target, prefix + rand)))
  {
    hide Dir, TempPath, Comps, Loc, Entry;
    LocComps(d, base);
    LocComps(d, Dir(target));
    var b, cs := Comps(Loc(d, base)), Comps(Loc(d, Dir(target)));
    rand := if b == cs + [prefix + "0"] then "00" else "0";
    var name := prefix + rand;
    assert cs + [prefix + "0"] != cs + [prefix + "00"] by {
      assert (cs + [prefix + "0"])[|cs|] != (cs + [prefix + "00"])[|cs|];
    }
    DrawIsPlain(prefix, rand);
    TempInDir(d, target, name);
    EntryComps(d, TempPath(target, name));
    SnocAbove(b, cs, name);
  }

  lemma {:induction false} SnocAbove(b: seq<string>, cs: seq<string>, x: string)
    ensures b <= cs + [x] <==> b <= cs || b == cs + [x]
  {
  }

  /** A write whose temp lies outside the base shows a file there. */
  lemma {:induction false} WriteShows(d: Disk, base: string, c: WriteCall)
    requires Rooted(base) && WriteTarget(d, base, c).Inside? && c.mkdirOk && c.stage.createOk
    requires !Within(Loc(d, base), WriteTemp(d, WriteTarget(d, base, c).path, c))
    ensures !OnlyInside(Loc(d, base), map[], WriteStates(map[], d, base, c))
  {
    hide Within, Accepted, TempPath, Entry, Loc;
    var tmp := WriteTemp(d, WriteTarget(d, base, c).path, c);
    var states := WriteStates(map[], d, base, c);
    assert states[0] == map[tmp := []];
    ShowsOutside(Loc(d, base), map[], states, 0, tmp);
  }

  /* ---------- temps under the target's own name ---------- */

  /** Whether every successful write with those parts leaves its content at the target. */
  ghost predicate WritesLand(d: Disk, base: string, parts: seq<string>, found: bool, target: string)
    requires Rooted(base)
  {
    forall m, c: WriteCall ::
      !c.cancelled && c.parts == parts && c.found == found && NoSlash(c.rand) && WriteTemp(d, target, c) !in m &&
      c.mkdirOk && StageOk(c.content, c.stage) ==>
        After(m, WriteStates(m, d, base, c)) == m[Entry(d, target) := c.content]
  }

  /** Over all draws, success means written exactly when the target is not called like a temp. */
  lemma {:induction false} WriteLandsIff(d: Disk, base: string, parts: seq<string>, found: bool)
    requires Valid(d) && Rooted(base) && parts != [] && Accepted(d, base, parts, found).Inside?
    ensures
      var target := Accepted(d, base, parts, found).path;
      WritesLand(d, base, parts, found, target) <==> !(".tmp-" <= Final(target))
  {
    hide Valid, Accepted, WriteEffect, WriteStates, Entry, TempPath, Final, IsClean, StageOk;
    var target := Accepted(d, base, parts, found).path;
    AcceptedForm(d, base, parts, found);
    if !(".tmp-" <= Final(target)) {
      forall m, c: WriteCall |
        !c.cancelled && c.parts == parts && c.found == found && NoSlash(c.rand) && WriteTemp(d, target, c) !in m &&
        c.mkdirOk && StageOk(c.content, c.stage)
        ensures After(m, WriteStates(m, d, base, c)) == m[Entry(d, target) := c.content]
      {
        WriteSafe(m, d, base, c);
        EffectLands(d, base, m, WriteStates(m, d, base, c), target, c.content, !c.stage.cleanup.Failed?);
      }
    } else {
      var stage := StagePlan(true, [], true, true, true, true, Done);
      var c := WriteCall(false, parts, found, true, Final(target)[5..], [], stage);
      OwnNameRemoves(d, base, c);
      var m: Blobs := map[];
      assert WriteTemp(d, target, c) !in m;
      assert Entry(d, target) !in After(m, WriteStates(m, d, base, c));
    }
  }

  lemma {:induction false} EffectLands(
    d: Disk, base: string, m: Blobs, states: seq<Blobs>, target: string, content: Bytes, cleaned: bool)
    requires WriteEffect(d, base, m, states, target, content, cleaned, true) && !(".tmp-" <= Final(target))
    ensures After(m, states) == m[Entry(d, target) := content]
  {
  }

  /** A draw that spells the target's own name: the write succeeds and the file is gone. */
  lemma {:induction false} OwnNameRemoves(d: Disk, base: string, c: WriteCall)
    requires Valid(d) && Rooted(base) && WriteTarget(d, base, c).Inside?
    requires Final(WriteTarget(d, base, c).path) == ".tmp-" + c.rand
    requires c.mkdirOk && c.stage == StagePlan(true, [], true, true, true, true, Done) && c.content == []
    ensures NoSlash(c.rand) && StageOk(c.content, c.stage) && After(map[], WriteStates(map[], d, base, c)) == map[]
  {
    hide Valid, Accepted, Entry, TempPath, StageStates, IsClean, Final;
    var target := WriteTarget(d, base, c).path;
    AcceptedForm(d, base, c.parts, c.found);
    SplitInitFinal(target);
    SuffixNoSlash(".tmp-", c.rand);
    DrawIsPlain(".tmp-", c.rand);
    TempIsTargetIff(d, target, ".tmp-" + c.rand);
    StageOwnName(map[], Entry(d, target), [], c.stage);
  }

  lemma {:induction false} SuffixNoSlash(a: string, b: string)
    requires NoSlash(a + b)
    ensures NoSlash(b)
  {
    assert forall i :: 0 <= i < |b| ==> b[i] == (a + b)[|a| + i];
  }

  /* ---------- LocalStorage.AtomicWrite ---------- */

  type Upload = ObjectKeys.Upload

  /** A write of the local storage adapter: it stages in and publishes to directory entries. */
  function LocalWriter(d: Disk, base: string, u: Upload): AW.Writer {
    var target := Full(base, u.path);
    var tmp := Entry(d, TempPath(target, ".tmp-" + u.rand));
    AW.Writer(AW.LocalDisk, Entry(d, target), tmp, tmp, u.content)
  }

  function LocalWriters(d: Disk, base: string, ups: seq<Upload>): seq<AW.Writer> {
    seq(|ups|, i requires 0 <= i < |ups| => LocalWriter(d, base, ups[i]))
  }

  predicate DistinctDraws(ups: seq<Upload>) {
    && (forall i, j :: 0 <= i < j < |ups| ==> ups[i].rand != ups[j].rand)
    && (forall i :: 0 <= i < |ups| ==> NoSlash(ups[i].rand))
  }

  lemma {:induction false} FullForm(base: string, p: string)
    requires Rooted(base) || base == ""
    ensures Rooted(Full(base, p)) && IsClean(Full(base, p))
  {
    FullComps(base, p);
    var c := Clean("/" + p);
    if base == "" {
      CleanIdempotent("/" + p);
      CleanIdempotent(c);
      assert Join([c]) == Clean(c);
    } else {
      JoinTwo(base, c);
      CleanIdempotent(base + "/" + c);
    }
  }

  lemma {:induction false} LocalNames(d: Disk, base: string, u: Upload, v: Upload)
    requires Valid(d) && (Rooted(base) || base == "") && NoSlash(u.rand) && NoSlash(v.rand)
    ensures u.rand != v.rand ==> LocalWriter(d, base, u).temp != LocalWriter(d, base, v).temp
    ensures !(".tmp-" <= Final(Full(base, v.path))) ==> LocalWriter(d, base, u).temp != LocalWriter(d, base, v).target
  {
    hide Full, Entry, TempPath, Comps, IsClean, Dir, Final, Loc;
    var p, q := Full(base, u.path), Full(base, v.path);
    FullForm(base, u.path);
    FullForm(base, v.path);
    DrawIsPlain(".tmp-", u.rand);
    DrawIsPlain(".tmp-", v.rand);
    TempInDir(d, p, ".tmp-" + u.rand);
    TempInDir(d, q, ".tmp-" + v.rand);
    LastOf(Comps(Loc(d, Dir(p))), ".tmp-" + u.rand);
    LastOf(Comps(Loc(d, Dir(q))), ".tmp-" + v.rand);
    assert (".tmp-" + u.rand)[5..] == u.rand && (".tmp-" + v.rand)[5..] == v.rand;
    if q == "/" {
      RootEntry(d);
    } else {
      EntryInDir(d, q);
      LastOf(Comps(Loc(d, Dir(q))), Final(q));
      assert ".tmp-" <= ".tmp-" + u.rand;
    }
  }

  lemma {:induction false} LastOf(cs: seq<string>, x: string)
    ensures cs + [x] != [] && (cs + [x])[|cs + [x]| - 1] == x
  {
  }

  /** Whether the temps of writes to those paths are fresh whatever distinct names are drawn. */
  ghost predicate AlwaysFresh(d: Disk, base: string, paths: seq<string>) {
    forall ups: seq<Upload> ::
      |ups| == |paths| && (forall i :: 0 <= i < |ups| ==> ups[i].path == paths[i]) && DistinctDraws(ups) ==>
        AW.Fresh(LocalWriters(d, base, ups))
  }

  /** On the local disk the temps are fresh for all distinct draws, so that the interleaving theorems
      apply, exactly when no path written to is called like a temp. */
  lemma {:induction false} LocalWritersFreshIff(d: Disk, base: string, paths: seq<string>)
    requires Valid(d) && (Rooted(base) || base == "")
    ensures AlwaysFresh(d, base, paths) <==> forall i :: 0 <= i < |paths| ==> !(".tmp-" <= Final(Full(base, paths[i])))
  {
    hide Full, Entry, TempPath, Final, AW.Fresh, Valid;
    if forall i :: 0 <= i < |paths| ==> !(".tmp-" <= Final(Full(base, paths[i]))) {
      forall ups: seq<Upload> |
        |ups| == |paths| && (forall i :: 0 <= i < |ups| ==> ups[i].path == paths[i]) && DistinctDraws(ups)
        ensures AW.Fresh(LocalWriters(d, base, ups))
      {
        LocalWritersFresh(d, base, ups);
      }
    } else {
      var j :| 0 <= j < |paths| && ".tmp-" <= Final(Full(base, paths[j]));
      var ups := NotFreshDraws(d, base, paths, j);
    }
  }

  lemma {:induction false} NotFreshDraws(d: Disk, base: string, paths: seq<string>, j: nat) returns (ups: seq<Upload>)
    requires Valid(d) && (Rooted(base) || base == "") && j < |paths| && ".tmp-" <= Final(Full(base, paths[j]))
    ensures |ups| == |paths| && forall i :: 0 <= i < |ups| ==> ups[i].path == paths[i]
    ensures DistinctDraws(ups) && !AW.Fresh(LocalWriters(d, base, ups))
  {
    hide Full, Entry, TempPath, Final, AW.Fresh, Valid, LocalWriters, Zeros, DistinctDraws;
    var rand := Final(Full(base, paths[j]))[5..];
    ups := seq(|paths|, i requires 0 <= i < |paths| =>
      ObjectKeys.Upload(paths[i], if i == j then rand else rand + Zeros(i + 1), []));
    assert Final(Full(base, paths[j])) == ".tmp-" + rand;
    OwnNameNotFresh(d, base, ups, j);
    DistinctZeros(rand, ups, j);
  }

  function Zeros(n: nat): (s: string)
    ensures |s| == n && NoSlash(s)
  {
    if n == 0 then "" else "0" + Zeros(n - 1)
  }

  lemma {:induction false} DistinctZeros(rand: string, ups: seq<Upload>, j: nat)
    requires NoSlash(rand) && forall i :: 0 <= i < |ups| ==> ups[i].rand == if i == j then rand else rand + Zeros(i + 1)
    ensures DistinctDraws(ups)
  {
    assert forall i :: 0 <= i < |ups| ==> |ups[i].rand| == |rand| + if i == j then 0 else i + 1;
  }

  lemma {:induction false} OwnNameNotFresh(d: Disk, base: string, ups: seq<Upload>, j: nat)
    requires Valid(d) && (Rooted(base) || base == "") && j < |ups|
    requires Final(Full(base, ups[j].path)) == ".tmp-" + ups[j].rand
    ensures NoSlash(ups[j].rand) && !AW.Fresh(LocalWriters(d, base, ups))
  {
    hide Full, Entry, TempPath, Final, IsClean;
    var target := Full(base, ups[j].path);
    FullForm(base, ups[j].path);
    SplitInitFinal(target);
    SuffixNoSlash(".tmp-", ups[j].rand);
    DrawIsPlain(".tmp-", ups[j].rand);
    TempIsTargetIff(d, target, ".tmp-" + ups[j].rand);
    var ws := LocalWriters(d, base, ups);
    assert ws[j].temp == ws[j].target;
  }

  lemma {:induction false} LocalWritersFresh(d: Disk, base: string, ups: seq<Upload>)
    requires Valid(d) && (Rooted(base) || base == "") && DistinctDraws(ups)
    requires forall i :: 0 <= i < |ups| ==> !(".tmp-" <= Final(Full(base, ups[i].path)))
    ensures AW.Fresh(LocalWriters(d, base, ups))
    ensures forall i :: 0 <= i < |ups| ==>
      var w := LocalWriters(d, base, ups)[i];
      w.backend.LocalDisk? && w.target == Entry(d, Full(base, ups[i].path)) && w.content == ups[i].content
  {
    hide Full, Entry, TempPath, Final;
    var ws := LocalWriters(d, base, ups);
    forall i, j | 0 <= i < |ws| && 0 <= j < |ws|
      ensures ws[i].temp != ws[j].target && (i != j ==> ws[i].temp != ws[j].temp)
    {
      LocalNames(d, base, ups[i], ups[j]);
    }
  }

  /** So interleaved writes of the local storage adapter, failing and stopping anywhere, leave every
      entry that is no temp old or complete. */
  lemma {:induction false} LocalOldOrComplete(
    d: Disk, base: string, ups: seq<Upload>, store0: Blobs, acts: seq<AW.Action>, k: string)
    requires Valid(d) && (Rooted(base) || base == "") && DistinctDraws(ups)
    requires forall i :: 0 <= i < |ups| ==> !(".tmp-" <= Final(Full(base, ups[i].path)))
    requires k !in AW.Temps(LocalWriters(d, base, ups))
    ensures
      var ws := LocalWriters(d, base, ups);
      AW.OldOrCompleteAt(ws, store0, AW.Run(ws, AW.Initial(ws, store0), acts).store, k)
  {
    LocalWritersFresh(d, base, ups);
    AW.OldOrComplete(LocalWriters(d, base, ups), store0, acts, k);
  }
}
