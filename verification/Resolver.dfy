/** The ancestor walk of auth.parentPaths: which ACL paths an access check looks at. */
module AncestorWalk {
  import opened Paths

  /** The paths the walk appends, first to last. */
  function Visits(path: string): (paths: seq<string>)
    requires Rooted(path)
    ensures |paths| > 0
    decreases |path|
  {
    if path == "/" then ["/"]
    else
      assert |Dir(path)| < |path| && Rooted(Dir(path)) by { DirShortens(path); DirRooted(path); }
      [path] + Visits(Dir(path))
  }

  /** parentPaths. From a rooted path the loop reaches "/" because every Dir is shorter. */
  method ParentPaths(path: string) returns (paths: seq<string>)
    requires Rooted(path)
    ensures paths == Visits(path)
  {
    hide Dir;
    paths := [];
    var p := path;
    while true
      invariant Rooted(p)
      invariant paths + Visits(p) == Visits(path)
      decreases |p|
    {
      paths := paths + [p];
      if p == "/" {
        break;
      }
      DirShortens(p);
      DirRooted(p);
      p := Dir(p);
    }
  }

  /* ---------- termination ---------- */

  function DirTimes(p: string, n: nat): string {
    if n == 0 then p else Dir(DirTimes(p, n - 1))
  }

  lemma {:induction false} RootednessKept(p: string, n: nat)
    ensures Rooted(DirTimes(p, n)) == Rooted(p)
  {
    hide Dir;
    if n > 0 {
      RootednessKept(p, n - 1);
      DirRooted(DirTimes(p, n - 1));
    }
  }

  lemma {:induction false} DirTimesShift(p: string, n: nat)
    ensures DirTimes(p, n + 1) == DirTimes(Dir(p), n)
  {
    if n > 0 {
      DirTimesShift(p, n - 1);
    }
  }

  lemma {:induction false} ReachesRoot(p: string) returns (n: nat)
    requires Rooted(p)
    ensures DirTimes(p, n) == "/"
    decreases |p|
  {
    hide Dir;
    if p == "/" {
      n := 0;
    } else {
      DirShortens(p);
      DirRooted(p);
      var m := ReachesRoot(Dir(p));
      DirTimesShift(p, m);
      n := m + 1;
    }
  }

  /** The loop's exit test is met on some iteration exactly when the path is rooted. */
  lemma {:induction false} WalkEndsIffRooted(p: string)
    ensures (exists n: nat :: DirTimes(p, n) == "/") <==> Rooted(p)
  {
    if Rooted(p) {
      var n := ReachesRoot(p);
    } else {
      forall n: nat ensures DirTimes(p, n) != "/" {
        RootednessKept(p, n);
      }
    }
  }

  /* ---------- what is visited ---------- */

  lemma {:induction false} RootComps()
    ensures Comps("/") == [] && Render(true, []) == "/"
  {
  }

  /** From a clean path with n components: exactly its n + 1 prefixes, longest first. */
  lemma {:induction false} CleanVisits(p: string)
    requires Rooted(p) && IsClean(p)
    ensures |Visits(p)| == |Comps(p)| + 1
    ensures forall i :: 0 <= i <= |Comps(p)| ==> Visits(p)[i] == Render(true, Comps(p)[..|Comps(p)| - i])
    decreases |p|
  {
    hide Dir, Comps, Render;
    var cs := Comps(p);
    if p == "/" {
      RootComps();
    } else {
      assert |Dir(p)| < |p| && Rooted(Dir(p)) && IsClean(Dir(p)) && Comps(Dir(p)) == Init(cs) && cs != [] by {
        CleanDir(p);
        DirShortens(p);
        DirComps(p);
      }
      CleanVisits(Dir(p));
      PrefixesShift(cs, Visits(Dir(p)), p);
    }
  }

  lemma {:induction false} PrefixesShift(cs: seq<string>, below: seq<string>, p: string)
    requires cs != [] && |below| == |cs| && p == Render(true, cs)
    requires forall i :: 0 <= i < |cs| ==> below[i] == Render(true, Init(cs)[..|cs| - 1 - i])
    ensures forall i :: 0 <= i <= |cs| ==> ([p] + below)[i] == Render(true, cs[..|cs| - i])
  {
    forall i | 0 <= i <= |cs|
      ensures ([p] + below)[i] == Render(true, cs[..|cs| - i])
    {
      if i == 0 {
        assert cs[..|cs|] == cs;
      } else {
        assert Init(cs)[..|cs| - i] == cs[..|cs| - i];
      }
    }
  }

  /** No path is visited twice. */
  lemma {:induction false} VisitsShorten(p: string, i: nat, j: nat)
    requires Rooted(p) && i < j < |Visits(p)|
    ensures |Visits(p)[j]| < |Visits(p)[i]|
    decreases |p|
  {
    hide Dir;
    DirShortens(p);
    DirRooted(p);
    if i > 0 {
      VisitsShorten(Dir(p), i - 1, j - 1);
    } else if j > 1 {
      VisitsShorten(Dir(p), 0, j - 1);
    }
  }

  /** Exactly which ACL paths are consulted for q: q as written, and the prefixes of what Dir(q)
      resolves to. */
  lemma {:induction false} VisitedIff(q: string, a: string)
    requires Rooted(q)
    ensures a in Visits(q) <==>
      a == q || (q != "/" && Rooted(a) && IsClean(a) && Comps(a) <= Comps(Dir(q)))
  {
    if q != "/" {
      DirComps(q);
      DirVisitedIff(Dir(q), a);
    }
  }

  lemma {:induction false} DirVisitedIff(d: string, a: string)
    requires Rooted(d) && IsClean(d)
    ensures a in Visits(d) <==> Rooted(a) && IsClean(a) && Comps(a) <= Comps(d)
  {
    hide Visits, Comps, Render;
    var cs := Comps(d);
    CleanVisits(d);
    CompsNormal(d);
    if a in Visits(d) {
      var i :| 0 <= i < |Visits(d)| && Visits(d)[i] == a;
      CompsRender(true, cs[..|cs| - i]);
    }
    if Rooted(a) && IsClean(a) && Comps(a) <= cs {
      assert Visits(d)[|cs| - |Comps(a)|] == Render(true, cs[..|Comps(a)|]);
      assert cs[..|Comps(a)|] == Comps(a);
    }
  }

  /** Every later stop is the cleaned path or an ancestor of it, unless the path ends in a ".."
      that has something to climb out of. */
  lemma {:induction false} WalkStaysAbove(p: string)
    requires Rooted(p)
    ensures (forall i :: 1 <= i < |Visits(p)| ==> Within(Visits(p)[i], p)) <==>
      (Final(p) != ".." || Dir(p) == "/")
  {
    if p == "/" {
      assert Split("/")[1..] == Split("");
    } else {
      hide Dir, Comps, Split, Render;
      DirComps(p);
      assert Visits(p)[1] == Dir(p);
      if Final(p) == ".." && Dir(p) != "/" {
        CompsNormal(Dir(p));
      } else {
        StopsAbove(p);
      }
    }
  }

  lemma {:induction false} StopsAbove(p: string)
    requires Rooted(p) && p != "/" && (Final(p) != ".." || Dir(p) == "/")
    ensures forall i :: 1 <= i < |Visits(p)| ==> Within(Visits(p)[i], p)
  {
    hide Dir, Comps, Split, Render;
    DirComps(p);
    assert Comps(Dir(p)) <= Comps(p) by {
      if Dir(p) == "/" { RootComps(); }
    }
    forall i | 1 <= i < |Visits(p)|
      ensures Within(Visits(p)[i], p)
    {
      DirVisitedIff(Dir(p), Visits(p)[i]);
    }
  }

  lemma {:induction false} DotDotExample()
    ensures Split("/a/..") == ["", "a", ".."]
  {
    SplitSlash("a", "..");
    SplitNoSlash("a");
    SplitNoSlash("..");
  }

  lemma {:induction false} DotDotComps()
    ensures Comps(Dir("/a/..")) == ["a"] && Comps("/a/..") == []
  {
    hide Dir;
    DotDotExample();
    DirComps("/a/..");
    assert Init(Split("/a/..")) == [""] + ["a"];
    ResolveCons(true, [], "", ["a"]);
  }

  /** "/a/.." leads to "/" but is checked against "/a" as well. */
  lemma {:induction false} WalkLeavesAncestors()
    ensures Clean("/a/..") == "/"
    ensures "/a" in Visits("/a/..") && !Within("/a", "/a/..")
  {
    hide Visits, Dir, Split, Resolve;
    DotDotComps();
    CompsRender(true, ["a"]);
    assert Render(true, ["a"]) == "/a";
    VisitedIff("/a/..", "/a");
  }

  /** The entry stored under the cleaned path itself is consulted exactly when the path was written
      clean, or ends in "", "." or "..". */
  lemma {:induction false} OwnEntryVisited(q: string)
    requires Rooted(q)
    ensures Clean(q) in Visits(q) <==> IsClean(q) || !Plain(Final(q))
  {
    CleanIdempotent(q);
    VisitedIff(q, Clean(q));
    SplitInitFinal(q);
    if q != "/" {
      DirComps(q);
    }
  }

  lemma {:induction false} UncleanSplit()
    ensures Split("/a/./b") == ["", "a", ".", "b"]
  {
    hide Split, Consume;
    SplitSlash("", "a/./b");
    SplitSlash("a", "./b");
    SplitSlash(".", "b");
    SplitNoSlash("");
    SplitNoSlash("a");
    SplitNoSlash(".");
    SplitNoSlash("b");
    assert "" + "/" + "a/./b" == "/a/./b" && "a" + "/" + "./b" == "a/./b" && "." + "/" + "b" == "./b";
  }

  lemma {:induction false} UncleanExample()
    ensures Comps("/a/./b") == ["a", "b"] && Final("/a/./b") == "b"
  {
    hide Split, Resolve;
    UncleanSplit();
    assert Split("/a/./b") == [""] + ["a", ".", "b"] && ["a", ".", "b"] == ["a"] + [".", "b"] && [".", "b"] == ["."] + ["b"];
    assert Push(true, [], "a") == ["a"] && Push(true, ["a"], "b") == ["a", "b"];
    ResolveCons(true, [], "", ["a", ".", "b"]);
    ResolveCons(true, [], "a", [".", "b"]);
    ResolveCons(true, ["a"], ".", ["b"]);
    ResolveOne(true, ["a"], "b");
  }

  /** "/a/./b" leads to "/a/b", whose entry is not consulted for it. */
  lemma {:induction false} OwnEntryMissed()
    ensures Clean("/a/./b") == "/a/b" && "/a/b" !in Visits("/a/./b")
  {
    hide Visits, Comps, Final, Split;
    UncleanExample();
    assert Render(true, ["a", "b"]) == "/a/b";
    OwnEntryVisited("/a/./b");
  }
}

/** auth.CanAccess over any ACL store, in its batched and per-path forms, and the in-memory store. */
module Resolver {
  import opened Paths
  import opened AncestorWalk
  import opened PathExtract

  type Permission = string

  datatype ACL = ACL(path: string, principal: string, permissions: map<Permission, bool>)

  datatype AuthContext = AuthContext(userId: string, roles: seq<string>)

  const ROLES: map<string, map<Permission, bool>> :=
    map["admin" := map["read" := true, "write" := true, "delete" := true, "list" := true],
        "editor" := map["read" := true, "write" := true, "list" := true],
        "viewer" := map["read" := true, "list" := true]]

  /** What GetACLsForPaths does: the store does not offer it, it fails, or it answers. */
  datatype BatchAnswer = NoBatch | BatchError | Batch(acls: seq<ACL>)

  datatype Store = Store(get: string -> seq<ACL>, batch: seq<string> -> BatchAnswer)

  /* ---------- the decision, declared ---------- */

  predicate Holds(permissions: map<Permission, bool>, perm: Permission) {
    perm in permissions && permissions[perm]
  }

  predicate Grants(a: ACL, ctx: AuthContext, perm: Permission) {
    Holds(a.permissions, perm) &&
    (a.principal == "user:" + ctx.userId || exists r :: r in ctx.roles && a.principal == "role:" + r)
  }

  predicate RoleDefault(ctx: AuthContext, perm: Permission) {
    exists r :: r in ctx.roles && r in ROLES && Holds(ROLES[r], perm)
  }

  /** Some entry on a visited path allows the user or one of the roles, or a role default does. */
  ghost predicate Allowed(ctx: AuthContext, path: string, perm: Permission, get: string -> seq<ACL>)
    requires Rooted(path)
  {
    (exists p, a :: p in Visits(path) && a in get(p) && Grants(a, ctx, perm)) || RoleDefault(ctx, perm)
  }

  ghost predicate BatchAllowed(ctx: AuthContext, path: string, perm: Permission, acls: seq<ACL>)
    requires Rooted(path)
  {
    (exists a :: a in acls && a.path in Visits(path) && Grants(a, ctx, perm)) || RoleDefault(ctx, perm)
  }

  /** The batch query, when it answers, returns the entries of the given paths, in any order. */
  ghost predicate Faithful(store: Store, paths: seq<string>) {
    store.batch(paths).Batch? ==>
      forall p, a :: p in paths ==>
        (a in store.get(p) <==> a in store.batch(paths).acls && a.path == p)
  }

  /* ---------- the decision in plain terms ---------- */

  /** The role defaults by name. */
  predicate ByRole(roles: seq<string>, perm: Permission) {
    || ((perm == "read" || perm == "list") && ("admin" in roles || "editor" in roles || "viewer" in roles))
    || (perm == "write" && ("admin" in roles || "editor" in roles))
    || (perm == "delete" && "admin" in roles)
  }

  /** The entry says yes to the permission, and is for the user or one of the roles. */
  predicate SaysYes(a: ACL, ctx: AuthContext, perm: Permission) {
    perm in a.permissions && a.permissions[perm] &&
    (a.principal == "user:" + ctx.userId || exists i :: 0 <= i < |ctx.roles| && a.principal == "role:" + ctx.roles[i])
  }

  lemma {:induction false} RoleDefaultsByName(ctx: AuthContext, perm: Permission)
    ensures RoleDefault(ctx, perm) <==> ByRole(ctx.roles, perm)
  {
    if ByRole(ctx.roles, perm) {
      var r := if "admin" in ctx.roles then "admin" else if "editor" in ctx.roles then "editor" else "viewer";
      assert r in ROLES && Holds(ROLES[r], perm);
    }
    if RoleDefault(ctx, perm) {
      var r :| r in ctx.roles && r in ROLES && Holds(ROLES[r], perm);
      assert r == "admin" || r == "editor" || r == "viewer";
    }
  }

  lemma {:induction false} GrantsPlainly(a: ACL, ctx: AuthContext, perm: Permission)
    ensures Grants(a, ctx, perm) <==> SaysYes(a, ctx, perm)
  {
  }

  /** A decision is yes exactly when some entry on a visited path says yes, or a role does by default. */
  lemma {:induction false} AllowedPlainly(ctx: AuthContext, path: string, perm: Permission, get: string -> seq<ACL>)
    requires Rooted(path)
    ensures Allowed(ctx, path, perm, get) <==>
      (exists p, a :: p in Visits(path) && a in get(p) && SaysYes(a, ctx, perm)) || ByRole(ctx.roles, perm)
  {
    hide Grants, SaysYes, RoleDefault, ByRole, Visits;
    RoleDefaultsByName(ctx, perm);
    forall a ensures Grants(a, ctx, perm) <==> SaysYes(a, ctx, perm) {
      GrantsPlainly(a, ctx, perm);
    }
  }

  /** Entries that do not map the permission to true leave the decision to the role defaults. */
  lemma {:induction false} FalseEntriesGrantNothing(
    ctx: AuthContext, path: string, perm: Permission, get: string -> seq<ACL>)
    requires Rooted(path)
    requires forall p, a :: p in Visits(path) && a in get(p) ==> perm !in a.permissions || !a.permissions[perm]
    ensures Allowed(ctx, path, perm, get) <==> ByRole(ctx.roles, perm)
  {
    hide Visits, ByRole;
    AllowedPlainly(ctx, path, perm, get);
  }

  /** One entry on a visited path that maps the permission to true allows the user or the role it is for;
      one for any other principal changes nothing. */
  lemma {:induction false} OneEntryDecides(
    ctx: AuthContext, path: string, perm: Permission, get: string -> seq<ACL>, p: string, a: ACL)
    requires Rooted(path) && p in Visits(path) && a in get(p)
    ensures perm in a.permissions && a.permissions[perm] && a.principal == "user:" + ctx.userId ==>
      Allowed(ctx, path, perm, get)
    ensures forall r :: r in ctx.roles && perm in a.permissions && a.permissions[perm] && a.principal == "role:" + r ==>
      Allowed(ctx, path, perm, get)
    ensures a.principal != "user:" + ctx.userId && (forall r :: r in ctx.roles ==> a.principal != "role:" + r) ==>
      (Allowed(ctx, path, perm, get) <==>
       (exists q, b :: q in Visits(path) && b in get(q) && b != a && SaysYes(b, ctx, perm)) || ByRole(ctx.roles, perm))
  {
    hide Visits, ByRole;
    AllowedPlainly(ctx, path, perm, get);
    if SaysYes(a, ctx, perm) {
      assert p in Visits(path) && a in get(p);
    }
    forall r | r in ctx.roles && perm in a.permissions && a.permissions[perm] && a.principal == "role:" + r
      ensures SaysYes(a, ctx, perm)
    {
      var i :| 0 <= i < |ctx.roles| && ctx.roles[i] == r;
    }
  }

  /* ---------- CanAccess ---------- */

  /** The inner loops over one path's entries. */
  method AnyGrants(acls: seq<ACL>, ctx: AuthContext, perm: Permission) returns (ok: bool)
    ensures ok <==> exists a :: a in acls && Grants(a, ctx, perm)
  {
    for i := 0 to |acls|
      invariant forall k :: 0 <= k < i ==> !Grants(acls[k], ctx, perm)
    {
      var a := acls[i];
      if a.principal == "user:" + ctx.userId && Holds(a.permissions, perm) {
        assert Grants(a, ctx, perm);
        return true;
      }
      for j := 0 to |ctx.roles|
        invariant forall k :: 0 <= k < j ==>
          !(a.principal == "role:" + ctx.roles[k] && Holds(a.permissions, perm))
      {
        if a.principal == "role:" + ctx.roles[j] && Holds(a.permissions, perm) {
          assert Grants(a, ctx, perm);
          return true;
        }
      }
    }
    return false;
  }

  method AnyRoleDefault(ctx: AuthContext, perm: Permission) returns (ok: bool)
    ensures ok <==> RoleDefault(ctx, perm)
  {
    for i := 0 to |ctx.roles|
      invariant forall k :: 0 <= k < i ==> !(ctx.roles[k] in ROLES && Holds(ROLES[ctx.roles[k]], perm))
    {
      if ctx.roles[i] in ROLES && Holds(ROLES[ctx.roles[i]], perm) {
        return true;
      }
    }
    return false;
  }

  function EntriesAt(data: map<string, seq<ACL>>, p: string): seq<ACL> {
    if p in data then data[p] else []
  }

  function WithACL(data: map<string, seq<ACL>>, a: ACL): map<string, seq<ACL>> {
    data[a.path := EntriesAt(data, a.path) + [a]]
  }

  /** byPath[p] holds exactly the entries whose path is p. */
  ghost predicate Grouped(byPath: map<string, seq<ACL>>, acls: seq<ACL>) {
    forall p, a :: a in EntriesAt(byPath, p) <==> a in acls && a.path == p
  }

  /** Grouping the batch answer. */
  method GroupByPath(acls: seq<ACL>) returns (byPath: map<string, seq<ACL>>)
    ensures Grouped(byPath, acls)
  {
    byPath := map[];
    for i := 0 to |acls|
      invariant Grouped(byPath, acls[..i])
    {
      GroupedStep(byPath, acls[..i], acls[i]);
      assert acls[..i + 1] == acls[..i] + [acls[i]];
      byPath := WithACL(byPath, acls[i]);
    }
    assert acls[..|acls|] == acls;
  }

  lemma {:induction false} GroupedStep(byPath: map<string, seq<ACL>>, acls: seq<ACL>, b: ACL)
    requires Grouped(byPath, acls)
    ensures Grouped(WithACL(byPath, b), acls + [b])
  {
    forall p, a ensures a in EntriesAt(WithACL(byPath, b), p) <==> a in acls + [b] && a.path == p {
      WithACLEntries(byPath, b, p, a);
    }
  }

  lemma {:induction false} WithACLEntries(data: map<string, seq<ACL>>, b: ACL, p: string, a: ACL)
    ensures a in EntriesAt(WithACL(data, b), p) <==> a in EntriesAt(data, p) || (a == b && p == b.path)
  {
  }

  method BatchedBranch(ctx: AuthContext, paths: seq<string>, perm: Permission, acls: seq<ACL>) returns (ok: bool)
    ensures ok <==> (exists a :: a in acls && a.path in paths && Grants(a, ctx, perm)) || RoleDefault(ctx, perm)
  {
    var byPath := GroupByPath(acls);
    for i := 0 to |paths|
      invariant forall a :: a in acls && a.path in paths[..i] ==> !Grants(a, ctx, perm)
    {
      var found := AnyGrants(EntriesAt(byPath, paths[i]), ctx, perm);
      if found {
        return true;
      }
      assert paths[..i + 1] == paths[..i] + [paths[i]];
    }
    assert paths[..|paths|] == paths;
    ok := AnyRoleDefault(ctx, perm);
  }

  method PerPathBranch(ctx: AuthContext, paths: seq<string>, perm: Permission, get: string -> seq<ACL>) returns (ok: bool)
    ensures ok <==> (exists p, a :: p in paths && a in get(p) && Grants(a, ctx, perm)) || RoleDefault(ctx, perm)
  {
    for i := 0 to |paths|
      invariant forall p, a :: p in paths[..i] && a in get(p) ==> !Grants(a, ctx, perm)
    {
      var found := AnyGrants(get(paths[i]), ctx, perm);
      if found {
        return true;
      }
      assert paths[..i + 1] == paths[..i] + [paths[i]];
    }
    assert paths[..|paths|] == paths;
    ok := AnyRoleDefault(ctx, perm);
  }

  /** CanAccess: the batched branch when the batch query answers, else the per-path branch. */
  method CanAccess(ctx: AuthContext, path: string, perm: Permission, store: Store) returns (ok: bool)
    requires Rooted(path)
    ensures store.batch(Visits(path)).Batch? ==>
      ok == BatchAllowed(ctx, path, perm, store.batch(Visits(path)).acls)
    ensures !store.batch(Visits(path)).Batch? ==> ok == Allowed(ctx, path, perm, store.get)
    ensures Faithful(store, Visits(path)) ==> ok == Allowed(ctx, path, perm, store.get)
    ensures Faithful(store, Visits(path)) ==>
      (ok <==>
       (exists p, a :: p in Visits(path) && a in store.get(p) && SaysYes(a, ctx, perm)) || ByRole(ctx.roles, perm))
  {
    hide SaysYes, ByRole, Faithful;
    AllowedPlainly(ctx, path, perm, store.get);
    var paths := ParentPaths(path);
    var answer := store.batch(paths);
    if answer.Batch? {
      BatchedIsPerPath(ctx, path, perm, store);
      ok := BatchedBranch(ctx, paths, perm, answer.acls);
    } else {
      ok := PerPathBranch(ctx, paths, perm, store.get);
    }
  }

  /** The fast form agrees with the simple one on every faithful store. */
  lemma {:induction false} BatchedIsPerPath(ctx: AuthContext, path: string, perm: Permission, store: Store)
    requires Rooted(path) && store.batch(Visits(path)).Batch?
    ensures Faithful(store, Visits(path)) ==>
      BatchAllowed(ctx, path, perm, store.batch(Visits(path)).acls) == Allowed(ctx, path, perm, store.get)
  {
    hide Visits, Grants, RoleDefault;
    var acls := store.batch(Visits(path)).acls;
    if Faithful(store, Visits(path)) && BatchAllowed(ctx, path, perm, acls) && !RoleDefault(ctx, perm) {
      var a :| a in acls && a.path in Visits(path) && Grants(a, ctx, perm);
      assert a in store.get(a.path);
    }
  }

  /* ---------- the interceptor's check ---------- */

  datatype Decision = Permitted | Denied | NoPath

  /** At the root only the root's own entries and the role defaults decide. */
  lemma {:induction false} RootOnly(ctx: AuthContext, perm: Permission, get: string -> seq<ACL>)
    ensures Visits("/") == ["/"]
    ensures Allowed(ctx, "/", perm, get) <==>
      (exists a :: a in get("/") && SaysYes(a, ctx, perm)) || ByRole(ctx.roles, perm)
  {
    hide SaysYes, ByRole, Grants, RoleDefault;
    AllowedPlainly(ctx, "/", perm, get);
  }

  /** What the interceptors do with a mapped method: extract the path, then decide. There is no
      precondition: the extracted path is rooted, so the walk always ends. */
  method Authorize(req: Request, ctx: AuthContext, perm: Permission, store: Store) returns (d: Decision)
    ensures d.NoPath? <==> req.UnknownRequest?
    ensures !req.UnknownRequest? ==>
      Rooted(ExtractPath(req).path) &&
      (Faithful(store, Visits(ExtractPath(req).path)) ==>
        (d.Permitted? <==> Allowed(ctx, ExtractPath(req).path, perm, store.get)))
    ensures (req.CompleteUpload? || req.TaskStatus? || req.GetTask?) && Faithful(store, ["/"]) ==>
      (d.Permitted? <==> (exists a :: a in store.get("/") && SaysYes(a, ctx, perm)) || ByRole(ctx.roles, perm))
  {
    hide SaysYes, ByRole, Faithful, Grants, RoleDefault;
    ExtractedRooted(req);
    RootOnly(ctx, perm, store.get);
    match ExtractPath(req) {
      case NoExtractor =>
        d := NoPath;
      case Extracted(path) =>
        var ok := CanAccess(ctx, path, perm, store);
        d := if ok then Permitted else Denied;
    }
  }

  /* ---------- the in-memory store ---------- */

  class InMemoryACLStore {
    var data: map<string, seq<ACL>>

    constructor ()
      ensures data == map[]
    {
      data := map[];
    }

    function GetACLs(p: string): seq<ACL>
      reads this
    {
      EntriesAt(data, p)
    }

    method SetACL(a: ACL)
      modifies this
      ensures data == WithACL(old(data), a)
      ensures forall p, b :: b in GetACLs(p) <==> b in old(GetACLs(p)) || (b == a && p == a.path)
    {
      data := WithACL(data, a);
    }
  }

  function AsStore(data: map<string, seq<ACL>>): Store {
    Store(p => EntriesAt(data, p), paths => NoBatch)
  }

  function WithACLs(data: map<string, seq<ACL>>, acls: seq<ACL>): map<string, seq<ACL>>
    decreases |acls|
  {
    if acls == [] then data else WithACLs(WithACL(data, acls[0]), acls[1..])
  }

  ghost predicate AllowedIn(ctx: AuthContext, path: string, perm: Permission, data: map<string, seq<ACL>>)
    requires Rooted(path)
  {
    Allowed(ctx, path, perm, AsStore(data).get)
  }

  /** After any sequence of SetACL calls the answer is the old answer, or a new entry on a visited
      path that grants the permission: no call takes access away, and entries that grant nothing
      change nothing. */
  lemma {:induction false} SetACLsDecision(
    ctx: AuthContext, path: string, perm: Permission, data: map<string, seq<ACL>>, acls: seq<ACL>)
    requires Rooted(path)
    ensures AllowedIn(ctx, path, perm, WithACLs(data, acls)) <==>
      AllowedIn(ctx, path, perm, data) ||
      exists a :: a in acls && a.path in Visits(path) && Grants(a, ctx, perm)
    decreases |acls|
  {
    if acls != [] {
      SetACLsDecision(ctx, path, perm, WithACL(data, acls[0]), acls[1..]);
      OneACLDecision(ctx, path, perm, data, acls[0]);
    }
  }

  /** SetACL calls whose entries map the permission to false, or not at all, change no decision about it. */
  lemma {:induction false} FalseACLsChangeNothing(
    ctx: AuthContext, path: string, perm: Permission, data: map<string, seq<ACL>>, acls: seq<ACL>)
    requires Rooted(path)
    requires forall a :: a in acls ==> perm !in a.permissions || !a.permissions[perm]
    ensures AllowedIn(ctx, path, perm, WithACLs(data, acls)) <==> AllowedIn(ctx, path, perm, data)
  {
    hide AllowedIn, Visits, Grants;
    SetACLsDecision(ctx, path, perm, data, acls);
    forall a | a in acls
      ensures !Grants(a, ctx, perm)
    {
      GrantsPlainly(a, ctx, perm);
    }
  }

  lemma {:induction false} OneACLDecision(
    ctx: AuthContext, path: string, perm: Permission, data: map<string, seq<ACL>>, b: ACL)
    requires Rooted(path)
    ensures AllowedIn(ctx, path, perm, WithACL(data, b)) <==>
      AllowedIn(ctx, path, perm, data) || (b.path in Visits(path) && Grants(b, ctx, perm))
  {
    var get, get' := AsStore(data).get, AsStore(WithACL(data, b)).get;
    forall p, a ensures a in get'(p) <==> a in get(p) || (a == b && p == b.path) {
      WithACLEntries(data, b, p, a);
    }
    OneMoreEntry(ctx, path, perm, get, get', b);
  }

  lemma {:induction false} OneMoreEntry(ctx: AuthContext, path: string, perm: Permission,
    get: string -> seq<ACL>, get': string -> seq<ACL>, b: ACL)
    requires Rooted(path)
    requires forall p, a :: a in get'(p) <==> a in get(p) || (a == b && p == b.path)
    ensures Allowed(ctx, path, perm, get') <==>
      Allowed(ctx, path, perm, get) || (b.path in Visits(path) && Grants(b, ctx, perm))
  {
    hide Visits, Grants, RoleDefault;
    if Allowed(ctx, path, perm, get') && !RoleDefault(ctx, perm) {
      var p, a :| p in Visits(path) && a in get'(p) && Grants(a, ctx, perm);
    }
    if Allowed(ctx, path, perm, get) && !RoleDefault(ctx, perm) {
      var p, a :| p in Visits(path) && a in get(p) && Grants(a, ctx, perm);
    }
    if b.path in Visits(path) && Grants(b, ctx, perm) {
      assert b in get'(b.path);
    }
  }

  lemma {:induction false} UncleanIsNormalized()
    ensures Normalized("/a/./b") == "/a/./b"
  {
    var s := "/a/./b";
    assert !HasDouble(s);
    CollapseFixed(s);
  }

  /** A request for "/a/./b" keeps that spelling, so the entry that grants access to "/a/b" does not
      grant it. */
  lemma {:induction false} UncleanRequestDenied(ctx: AuthContext, perm: Permission, a: ACL)
    requires a.path == "/a/b" && Grants(a, ctx, perm) && !RoleDefault(ctx, perm)
    ensures
      var data := WithACL(map[], a);
      && AllowedIn(ctx, "/a/b", perm, data)
      && ExtractPath(DownloadObject("/a/./b")).path == "/a/./b"
      && !AllowedIn(ctx, "/a/./b", perm, data)
  {
    hide Visits, Normalized;
    UncleanIsNormalized();
    OwnEntryMissed();
    VisitedIff("/a/b", "/a/b");
    OneACLDecision(ctx, "/a/b", perm, map[], a);
    OneACLDecision(ctx, "/a/./b", perm, map[], a);
  }

  /** More roles never lose access. */
  lemma {:induction false} RolesMonotone(
    ctx: AuthContext, more: AuthContext, path: string, perm: Permission, get: string -> seq<ACL>)
    requires Rooted(path) && ctx.userId == more.userId
    requires forall r :: r in ctx.roles ==> r in more.roles
    ensures Allowed(ctx, path, perm, get) ==> Allowed(more, path, perm, get)
  {
    if Allowed(ctx, path, perm, get) && !RoleDefault(ctx, perm) {
      var p, a :| p in Visits(path) && a in get(p) && Grants(a, ctx, perm);
      assert Grants(a, more, perm);
    }
  }

  /** Access to a clean path is inherited by every path written below it, clean or not: q only has
      to resolve, without its final component, to p or something under it. */
  lemma {:induction false} AccessInherited(
    ctx: AuthContext, p: string, q: string, perm: Permission, get: string -> seq<ACL>)
    requires Rooted(p) && IsClean(p) && Rooted(q)
    requires p == q || Comps(p) <= Comps(Dir(q))
    ensures Allowed(ctx, p, perm, get) ==> Allowed(ctx, q, perm, get)
  {
    if Allowed(ctx, p, perm, get) && !RoleDefault(ctx, perm) && p != q {
      var v, a :| v in Visits(p) && a in get(v) && Grants(a, ctx, perm);
      DirVisitedIff(p, v);
      VisitedIff(q, v);
      if q == "/" {
        DirOfRoot();
      }
    }
  }

  /** Between clean paths: access to p gives access to everything below p. */
  lemma {:induction false} AccessInheritedClean(
    ctx: AuthContext, p: string, q: string, perm: Permission, get: string -> seq<ACL>)
    requires Rooted(p) && IsClean(p) && Rooted(q) && IsClean(q) && Comps(p) <= Comps(q)
    ensures Allowed(ctx, p, perm, get) ==> Allowed(ctx, q, perm, get)
  {
    if p != q {
      assert Comps(p) != Comps(q);
      if q == "/" {
        CompsRender(true, []);
      } else {
        CleanDir(q);
      }
      AccessInherited(ctx, p, q, perm, get);
    }
  }
}
