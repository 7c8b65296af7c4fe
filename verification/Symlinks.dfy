/** Symbolic links to directories: which place a path leads to, and which directory entry it names. */
module Symlinks {
  import opened Paths
  import opened LocalPaths

  /** links takes the place of each link to the place it leads to in the end; a place is a list of
      components none of which is a link. cwd is the place relative paths start from. */
  datatype Disk = Disk(links: map<seq<string>, seq<string>>, cwd: seq<string>)

  ghost predicate Resolved(d: Disk, cs: seq<string>) {
    forall n :: 0 < n <= |cs| ==> cs[..n] !in d.links
  }

  ghost predicate Valid(d: Disk) {
    && PlainAll(d.cwd) && Resolved(d, d.cwd)
    && (forall k :: k in d.links ==> PlainAll(d.links[k]) && Resolved(d, d.links[k]))
  }

  /** Walking down the components, following every link. */
  function Place(d: Disk, cs: seq<string>): seq<string> {
    if cs == [] then []
    else
      var next := Place(d, Init(cs)) + [cs[|cs| - 1]];
      if next in d.links then d.links[next] else next
  }

  /** The place p leads to. */
  function Loc(d: Disk, p: string): string {
    Render(true, Place(d, Locate(d.cwd, p)))
  }

  /** The directory entry p names, which rename, remove and exclusive creation act on: links above the
      last component are followed, the last one is not. */
  function Entry(d: Disk, p: string): string {
    var cs := Locate(d.cwd, p);
    if cs == [] then "/" else Render(true, Place(d, Init(cs)) + [cs[|cs| - 1]])
  }

  /** filepath.EvalSymlinks: an error for what is not there, else the place it leads to. */
  function EvalSymlinks(d: Disk, p: string, found: bool): Option<string> {
    if found then Some(Loc(d, p)) else None
  }

  /* ---------- places ---------- */

  lemma {:induction false} PlaceResolved(d: Disk, cs: seq<string>)
    requires Valid(d) && PlainAll(cs)
    ensures PlainAll(Place(d, cs)) && Resolved(d, Place(d, cs))
  {
    if cs != [] {
      var init := Place(d, Init(cs));
      PlaceResolved(d, Init(cs));
      var next := init + [cs[|cs| - 1]];
      if next !in d.links {
        forall n | 0 < n <= |next|
          ensures next[..n] !in d.links
        {
          assert n < |next| ==> next[..n] == init[..n];
          assert n == |next| ==> next[..n] == next;
        }
      }
    }
  }

  lemma {:induction false} PlaceFixed(d: Disk, cs: seq<string>)
    requires Resolved(d, cs)
    ensures Place(d, cs) == cs
  {
    if cs != [] {
      var init := Init(cs);
      forall n | 0 < n <= |init|
        ensures init[..n] !in d.links
      {
        assert init[..n] == cs[..n];
      }
      PlaceFixed(d, init);
      assert init + [cs[|cs| - 1]] == cs == cs[..|cs|];
    }
  }

  lemma {:induction false} ResolvedPrefix(d: Disk, a: seq<string>, b: seq<string>)
    requires Resolved(d, b) && a <= b
    ensures Resolved(d, a)
  {
    forall n | 0 < n <= |a|
      ensures a[..n] !in d.links
    {
      assert a[..n] == b[..n];
    }
  }

  lemma {:induction false} LocatePlain(dir: seq<string>, p: string)
    requires PlainAll(dir)
    ensures PlainAll(Locate(dir, p))
    ensures Rooted(p) ==> Locate(dir, p) == Comps(p)
  {
    JoinSplit(p);
    ResolveIsNormal(true, if Rooted(p) then [] else dir, Split(p));
  }

  lemma {:induction false} PlainIsNormal(cs: seq<string>)
    requires PlainAll(cs)
    ensures Rooted(Render(true, cs)) && Comps(Render(true, cs)) == cs && IsClean(Render(true, cs))
  {
    CompsRender(true, cs);
  }

  lemma {:induction false} LocComps(d: Disk, p: string)
    requires Valid(d)
    ensures Rooted(Loc(d, p)) && IsClean(Loc(d, p))
    ensures Comps(Loc(d, p)) == Place(d, Locate(d.cwd, p)) && Resolved(d, Comps(Loc(d, p)))
  {
    LocatePlain(d.cwd, p);
    PlaceResolved(d, Locate(d.cwd, p));
    PlainIsNormal(Place(d, Locate(d.cwd, p)));
  }

  lemma {:induction false} EntryComps(d: Disk, p: string)
    requires Valid(d)
    ensures Rooted(Entry(d, p)) && IsClean(Entry(d, p))
    ensures
      var cs := Locate(d.cwd, p);
      Comps(Entry(d, p)) == if cs == [] then [] else Place(d, Init(cs)) + [cs[|cs| - 1]]
  {
    var cs := Locate(d.cwd, p);
    LocatePlain(d.cwd, p);
    if cs == [] {
      PlainIsNormal([]);
      assert Render(true, []) == "/";
    } else {
      PlaceResolved(d, Init(cs));
      PlainIsNormal(Place(d, Init(cs)) + [cs[|cs| - 1]]);
    }
  }

  /** An entry is determined by its components. */
  lemma {:induction false} EntriesEqualIff(d: Disk, p: string, q: string)
    requires Valid(d)
    ensures Entry(d, p) == Entry(d, q) <==> Comps(Entry(d, p)) == Comps(Entry(d, q))
  {
    EntryComps(d, p);
    EntryComps(d, q);
  }

  /** A clean path names the entry of its last component in the place its directory leads to. */
  lemma {:induction false} EntryInDir(d: Disk, p: string)
    requires Valid(d) && Rooted(p) && IsClean(p) && p != "/"
    ensures Comps(Entry(d, p)) == Comps(Loc(d, Dir(p))) + [Final(p)]
  {
    hide Comps, Dir, Final, Place;
    FinalIsLast(p);
    DirRooted(p);
    LocatePlain(d.cwd, p);
    LocatePlain(d.cwd, Dir(p));
    EntryComps(d, p);
    LocComps(d, Dir(p));
  }

  /** A temp file made next to a target lies in that place too. */
  lemma {:induction false} TempInDir(d: Disk, target: string, name: string)
    requires Valid(d) && Rooted(target) && Plain(name)
    ensures Comps(Entry(d, TempPath(target, name))) == Comps(Loc(d, Dir(target))) + [name]
  {
    hide Comps, Dir, Place;
    var tmp := TempPath(target, name);
    TempComps(target, name);
    DirRooted(target);
    LocatePlain(d.cwd, tmp);
    LocatePlain(d.cwd, Dir(target));
    EntryComps(d, tmp);
    LocComps(d, Dir(target));
    var cs := Comps(Dir(target));
    assert Init(cs + [name]) == cs;
  }

  /** The temp is drawn under the target's own name exactly when the drawn name is its last component. */
  lemma {:induction false} TempIsTargetIff(d: Disk, target: string, name: string)
    requires Valid(d) && Rooted(target) && IsClean(target) && Plain(name)
    ensures Entry(d, TempPath(target, name)) == Entry(d, target) <==> name == Final(target)
  {
    hide Comps, Dir, TempPath, Entry, Loc, IsClean;
    TempInDir(d, target, name);
    EntriesEqualIff(d, TempPath(target, name), target);
    if target == "/" {
      RootEntry(d);
    } else {
      EntryInDir(d, target);
      var cs := Comps(Loc(d, Dir(target)));
      assert (cs + [name])[|cs|] == name && (cs + [Final(target)])[|cs|] == Final(target);
    }
  }

  lemma {:induction false} RootEntry(d: Disk)
    requires Valid(d)
    ensures Comps(Entry(d, "/")) == [] && Final("/") == "" && Entry(d, "/") == "/"
  {
    RootFinal();
    LocatePlain(d.cwd, "/");
    EntryComps(d, "/");
  }

  lemma {:induction false} RootLoc(d: Disk)
    requires Valid(d)
    ensures Comps(Loc(d, "/")) == []
  {
    RootFinal();
    LocatePlain(d.cwd, "/");
    LocComps(d, "/");
  }

  /* ---------- the jail ---------- */

  /** sanitizeAndJoin on this disk; found is false for the adapter that never asks. */
  function Accepted(d: Disk, base: string, parts: seq<string>, found: bool): Sanitized
    requires Rooted(base)
  {
    SanitizeAndJoin(base, parts, EvalSymlinks(d, LexicalTarget(base, parts), found))
  }

  lemma {:induction false} AcceptedForm(d: Disk, base: string, parts: seq<string>, found: bool)
    requires Valid(d) && Rooted(base) && Accepted(d, base, parts, found).Inside?
    ensures
      var target := Accepted(d, base, parts, found).path;
      && target == (if found then Loc(d, LexicalTarget(base, parts)) else LexicalTarget(base, parts))
      && Rooted(target) && IsClean(target) && Within(base, target)
      && (found ==> Resolved(d, Comps(target)))
  {
    hide LexicalTarget, Comps, Loc;
    SanitizeExact(base, parts, EvalSymlinks(d, LexicalTarget(base, parts), found));
    LexicalTargetIsClean(base, parts);
    LocComps(d, LexicalTarget(base, parts));
  }

  /** If the target is a place, or there are no links, then its directory leads into the base exactly
      when the target is not the base root, or the base is "/". */
  lemma {:induction false} ResolvedDirInside(d: Disk, base: string, target: string)
    requires Valid(d) && Rooted(base) && Rooted(target) && IsClean(target) && Within(base, target)
    requires Resolved(d, Comps(target)) || d.links == map[]
    ensures Within(Loc(d, base), Loc(d, Dir(target))) <==> Comps(target) != Comps(base) || Comps(base) == []
  {
    hide Comps, Dir, Place;
    DirRooted(target);
    StagingDirInside(base, target);
    LocatePlain(d.cwd, base);
    LocatePlain(d.cwd, Dir(target));
    LocComps(d, base);
    LocComps(d, Dir(target));
    if target == "/" {
      DirOfRoot();
    } else {
      FinalIsLast(target);
    }
    ResolvedPrefix(d, Comps(base), Comps(target));
    ResolvedPrefix(d, Comps(Dir(target)), Comps(target));
    PlaceFixed(d, Comps(base));
    PlaceFixed(d, Comps(Dir(target)));
  }
}
