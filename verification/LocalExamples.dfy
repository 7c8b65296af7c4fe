/** Concrete inputs on which the local adapters do not do what one would expect. */
module LocalExamples {
  import opened Paths
  import opened LocalPaths
  import opened Symlinks
  import opened PathExtract
  import opened Blobs
  import opened Moves
  import opened Tasks
  import opened LocalOps
  import opened LocalWrites

  /* ---------- spelling ---------- */

  lemma {:induction false} Spelling()
    ensures Render(true, []) == "/" && Render(true, ["srv"]) == "/srv" && Render(true, ["old"]) == "/old"
    ensures Render(true, ["srv", "old"]) == "/srv/old" && Render(true, ["etc", "new"]) == "/etc/new"
    ensures Render(true, ["link", "new"]) == "/link/new" && Render(true, ["srv", "link", "new"]) == "/srv/link/new"
    ensures Render(true, ["srv", ".tmp-1"]) == "/srv/.tmp-1" && Render(true, [".tmp-1"]) == "/.tmp-1"
    ensures Render(false, ["link", "new"]) == "link/new" && Render(false, [".tmp-1"]) == ".tmp-1"
    ensures Render(false, []) == "."
  {
    JoinPair("srv", "old");
    JoinPair("etc", "new");
    JoinPair("link", "new");
    JoinPair("srv", ".tmp-1");
    assert ["srv", "link", "new"][1..] == ["link", "new"];
    assert JoinSlash(["srv", "link", "new"]) == "srv" + "/" + JoinSlash(["link", "new"]);
  }

  lemma {:induction false} JoinPair(a: string, b: string)
    ensures JoinSlash([a, b]) == a + "/" + b
  {
  }

  /** What parts that spell plain components are accepted as, without asking for links. */
  lemma {:induction false} PlainPartsAccepted(d: Disk, parts: seq<string>, cs: seq<string>)
    requires PlainAll(cs) && (cs == [] || !(".." <= cs[0])) && parts != [] && parts[0] != ""
    requires JoinSlash(parts) == Render(false, cs)
    ensures Accepted(d, "/srv", parts, false) == Inside(Render(true, ["srv"] + cs))
  {
    hide Comps, SanitizeAndJoin, LexicalTarget, Split, Resolve;
    Spelling();
    PlainIsNormal(["srv"]);
    CompsRender(false, cs);
    CleanIdempotent(Render(false, cs));
    assert Join(parts) == Clean(JoinSlash(parts));
    SanitizePlainParts("/srv", parts);
  }

  /** Entries and places of absolute paths by their components. */
  lemma {:induction false} EntryOf(d: Disk, cs: seq<string>, name: string)
    requires Valid(d) && PlainAll(cs + [name])
    ensures Entry(d, Render(true, cs + [name])) == Render(true, Place(d, cs) + [name])
    ensures Loc(d, Render(true, cs + [name])) == Render(true, Place(d, cs + [name]))
  {
    hide Comps, Split, Resolve;
    PlainIsNormal(cs + [name]);
    LocatePlain(d.cwd, Render(true, cs + [name]));
    assert Init(cs + [name]) == cs;
  }

  lemma {:induction false} OutsideSrv(cs: seq<string>)
    requires PlainAll(cs) && cs != [] && cs[0] != "srv"
    ensures !Within("/srv", Render(true, cs))
  {
    hide Comps, Split, Resolve;
    Spelling();
    PlainIsNormal(["srv"]);
    PlainIsNormal(cs);
  }

  /* ---------- a directory link out of the base ---------- */

  const LINKED: Disk := Disk(map[["srv", "link"] := ["etc"]], [])

  lemma {:induction false} LinkedPlaces()
    ensures Valid(LINKED)
    ensures Place(LINKED, ["srv"]) == ["srv"] && Place(LINKED, ["srv", "link"]) == ["etc"]
  {
    assert Init(["srv"]) == [] && Init(["srv", "link"]) == ["srv"];
    assert [] + ["srv"] == ["srv"] && ["srv"] + ["link"] == ["srv", "link"];
    assert ["srv"] !in LINKED.links by {
      assert |["srv"]| != |["srv", "link"]|;
    }
    forall n | 0 < n <= |["etc"]|
      ensures ["etc"][..n] !in LINKED.links
    {
      assert |["etc"][..n]| == 1;
    }
  }

  lemma {:induction false} LinkedEntries()
    ensures Valid(LINKED) && Loc(LINKED, "/srv") == "/srv" && Entry(LINKED, "/srv/old") == "/srv/old"
    ensures Entry(LINKED, "/srv/link/new") == "/etc/new" && !Within("/srv", "/etc/new")
  {
    hide Entry, Loc, Place, Within;
    Spelling();
    LinkedPlaces();
    EntryOf(LINKED, [], "srv");
    EntryOf(LINKED, ["srv"], "old");
    EntryOf(LINKED, ["srv", "link"], "new");
    assert [] + ["srv"] == ["srv"] && ["srv"] + ["old"] == ["srv", "old"] && ["etc"] + ["new"] == ["etc", "new"];
    assert ["srv", "link"] + ["new"] == ["srv", "link", "new"];
    OutsideSrv(["etc", "new"]);
  }

  /** Writing "link/new", which is not there yet, is accepted and puts the file where the link leads. */
  lemma {:induction false} LinkWriteLeavesBase(rand: string, content: Bytes, stage: StagePlan)
    requires NoSlash(rand) && StageOk(content, stage)
    ensures
      var c := WriteCall(false, ["link", "new"], false, true, rand, content, stage);
      && WriteTarget(LINKED, "/srv", c) == Inside("/srv/link/new")
      && After(map[], WriteStates(map[], LINKED, "/srv", c)) == map["/etc/new" := content]
      && Loc(LINKED, "/srv") == "/srv" && !Within("/srv", "/etc/new")
  {
    hide Entry, Loc, TempPath, Accepted, StageStates, Within, StageOk, Comps, Final;
    var c := WriteCall(false, ["link", "new"], false, true, rand, content, stage);
    Spelling();
    LinkedEntries();
    assert JoinSlash(["link", "new"]) == "link/new" && ["srv"] + ["link", "new"] == ["srv", "link", "new"];
    assert "link"[0] != ".."[0];
    PlainPartsAccepted(LINKED, ["link", "new"], ["link", "new"]);
    LinkTempApart(rand);
    StageSafe(map[], WriteTemp(LINKED, "/srv/link/new", c), "/etc/new", content, stage);
  }

  lemma {:induction false} LinkTempApart(rand: string)
    requires NoSlash(rand)
    ensures Entry(LINKED, TempPath("/srv/link/new", ".tmp-" + rand)) != Entry(LINKED, "/srv/link/new")
  {
    hide Entry, TempPath, Comps, Dir, Final, Split, Resolve;
    Spelling();
    LinkedPlaces();
    PlainIsNormal(["srv", "link", "new"]);
    FinalIsLast("/srv/link/new");
    DrawIsPlain(".tmp-", rand);
    TempIsTargetIff(LINKED, "/srv/link/new", ".tmp-" + rand);
    assert (".tmp-" + rand)[0] == '.';
  }

  /** A move task to "/link/new" on local storage does the same. */
  lemma {:induction false} LinkMoveLeavesStorage(id: string, content: Bytes)
    ensures
      var t := TaskPayload(id, "move_file", map["src" := "/old", "dst" := "/link/new"]);
      var plan := LocalPlan(true, true, true, true, [], true, Done);
      && ProcessStates(map["/srv/old" := content], LINKED, "/srv", t, plan) == [map["/etc/new" := content]]
      && StorageRoot(LINKED, "/srv") == "/srv" && !Within("/srv", "/etc/new")
  {
    hide Entry, Loc, Full, Within;
    LinkedEntries();
    FullOf("", []);
    FullOf("/old", ["old"]);
    FullOf("/link/new", ["link", "new"]);
    var m: Blobs := map["/srv/old" := content];
    assert m["/etc/new" := m["/srv/old"]] - {"/srv/old"} == map["/etc/new" := content];
  }

  lemma {:induction false} FullOf(p: string, cs: seq<string>)
    requires PlainAll(cs) && (p == Render(true, cs) || (p == "" && cs == []))
    ensures Full("/srv", p) == Render(true, ["srv"] + cs)
    ensures Full("/srv", "") == "/srv" && Render(true, ["srv"] + ["old"]) == "/srv/old"
    ensures Render(true, ["srv"] + ["link", "new"]) == "/srv/link/new"
  {
    hide Comps, Full, Split, Resolve;
    Spelling();
    assert ["srv"] + ["old"] == ["srv", "old"] && ["srv"] + ["link", "new"] == ["srv", "link", "new"];
    FullShape(p, cs);
    FullShape("", []);
    assert ["srv"] + [] == ["srv"];
  }

  lemma {:induction false} FullShape(p: string, cs: seq<string>)
    requires PlainAll(cs) && (p == Render(true, cs) || (p == "" && cs == []))
    ensures Full("/srv", p) == Render(true, ["srv"] + cs)
  {
    hide Comps, Full, Split, Resolve;
    Spelling();
    FullComps("/srv", p);
    FullForm("/srv", p);
    PlainIsNormal(["srv"]);
    PlainIsNormal(cs);
    if p == "" {
      assert "/" + "" == "/";
    } else {
      RootComps(p);
    }
  }

  /* ---------- the base root ---------- */

  /** Writing to "." is accepted, and stages beside the base instead of in it. */
  lemma {:induction false} DotWriteLeavesBase(content: Bytes, stage: StagePlan)
    requires stage.createOk
    ensures
      var d, c := Disk(map[], []), WriteCall(false, ["."], false, true, "1", content, stage);
      && WriteTarget(d, "/srv", c) == Inside("/srv") && Loc(d, "/srv") == "/srv"
      && WriteTemp(d, "/srv", c) == "/.tmp-1" && !Within("/srv", "/.tmp-1")
      && !OnlyInside("/srv", map[], WriteStates(map[], d, "/srv", c))
  {
    hide Entry, Loc, TempPath, Accepted, WriteStates, Within, OnlyInside;
    var d, c := Disk(map[], []), WriteCall(false, ["."], false, true, "1", content, stage);
    Spelling();
    assert JoinSlash(["."]) == "." && ["srv"] + [] == ["srv"];
    PlainPartsAccepted(d, ["."], []);
    DotPlaces(d);
    assert ".tmp-" + "1" == ".tmp-1";
    WriteShows(d, "/srv", c);
  }

  lemma {:induction false} DotPlaces(d: Disk)
    requires d == Disk(map[], [])
    ensures Valid(d) && Loc(d, "/srv") == "/srv"
    ensures Entry(d, TempPath("/srv", ".tmp-1")) == "/.tmp-1" && !Within("/srv", "/.tmp-1")
  {
    hide Comps, Split, Resolve, Dir, Within, Entry, Loc;
    Spelling();
    assert Valid(d);
    EntryOf(d, [], "srv");
    EntryOf(d, [], ".tmp-1");
    PlaceFixed(d, []);
    PlaceFixed(d, ["srv"]);
    assert [] + ["srv"] == ["srv"] && [] + [".tmp-1"] == [".tmp-1"];
    PlainIsNormal(["srv"]);
    FinalIsLast("/srv");
    DirComps("/srv");
    assert Init(["srv"]) == [] && Dir("/srv") == "/" && "/" + ".tmp-1" == "/.tmp-1";
    OutsideSrv([".tmp-1"]);
  }

  /* ---------- a target called like a temp ---------- */

  /** Writing ".tmp-1" when "1" is drawn returns success and leaves no file. */
  lemma {:induction false} TempNameIsRemoved()
    ensures TempPath("/srv/.tmp-1", ".tmp-1") == "/srv/.tmp-1"
    ensures
      var d := Disk(map[], []);
      var c := WriteCall(false, [".tmp-1"], false, true, "1", [], StagePlan(true, [], true, true, true, true, Done));
      && WriteTarget(d, "/srv", c) == Inside("/srv/.tmp-1")
      && StageOk(c.content, c.stage)
      && After(map[], WriteStates(map[], d, "/srv", c)) == map[]
  {
    hide Accepted, WriteStates, TempPath, Final, Comps, Split, Resolve, Dir;
    var d := Disk(map[], []);
    var c := WriteCall(false, [".tmp-1"], false, true, "1", [], StagePlan(true, [], true, true, true, true, Done));
    Spelling();
    assert JoinSlash([".tmp-1"]) == ".tmp-1" && ["srv"] + [".tmp-1"] == ["srv", ".tmp-1"] && ".tmp-" + "1" == ".tmp-1";
    assert ".tmp-1"[1] != ".."[1];
    PlainPartsAccepted(d, [".tmp-1"], [".tmp-1"]);
    PlainIsNormal(["srv", ".tmp-1"]);
    FinalIsLast("/srv/.tmp-1");
    TempNamesTarget("/srv/.tmp-1", ".tmp-1");
    OwnNameRemoves(d, "/srv", c);
  }
}
