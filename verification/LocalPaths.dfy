/** How the local adapters turn caller paths into file-system paths: LocalStorage.full, and the
    base-root jail of the two LocalFs types. */
module LocalPaths {
  import opened Paths

  /* ---------- LocalStorage.full ---------- */

  function Full(base: string, p: string): string {
    Join([base, Clean("/" + p)])
  }

  /** The base's components followed by those of the cleaned, rooted input: nothing the caller
      writes can pop a component of the base. */
  lemma {:induction false} FullComps(base: string, p: string)
    ensures Comps(Full(base, p)) == Comps(base) + Comps("/" + p)
    ensures Rooted(Full(base, p)) == (base == "" || Rooted(base))
    ensures base != "" ==> Within(base, Full(base, p))
  {
    var c := Clean("/" + p);
    CleanIdempotent("/" + p);
    if base == "" {
      assert Join([c]) == Clean(c);
    } else {
      JoinBelow(base, "/" + p);
    }
  }

  /** Two inputs share a location exactly when their cleaned, rooted forms are equal. */
  lemma {:induction false} FullSameLocation(base: string, p: string, q: string)
    ensures Full(base, p) == Full(base, q) <==> Clean("/" + p) == Clean("/" + q)
  {
    FullComps(base, p);
    FullComps(base, q);
    if Full(base, p) == Full(base, q) {
      assert Comps("/" + p) == (Comps(base) + Comps("/" + p))[|Comps(base)|..];
    }
  }

  /* ---------- LocalFs ---------- */

  datatype Option<T> = None | Some(value: T)

  /** NewLocalFs: the base root, made absolute against the working directory and cleaned. */
  function NewBaseRoot(cwd: string, base: string): (root: Option<string>)
    requires Rooted(cwd)
  {
    if base == "" then None
    else Some(Clean(if Rooted(base) then Clean(base) else Join([cwd, base])))
  }

  lemma {:induction false} BaseRootIsCanonical(cwd: string, base: string)
    requires Rooted(cwd)
    ensures NewBaseRoot(cwd, base).None? <==> base == ""
    ensures base != "" ==> Rooted(NewBaseRoot(cwd, base).value) && IsClean(NewBaseRoot(cwd, base).value)
    ensures base != "" ==> Comps(NewBaseRoot(cwd, base).value) == Locate(Comps(cwd), base)
  {
    if base != "" {
      CompsConcat(cwd, base);
      JoinTwo(cwd, base);
      CleanIdempotent(cwd + "/" + base);
      CleanIdempotent(base);
    }
  }

  datatype Sanitized = Inside(path: string) | Outside

  /** The joined path before any symlink is looked at. */
  function LexicalTarget(base: string, parts: seq<string>): string {
    var clean := Clean(Join(parts));
    Join([base, if Rooted(clean) then clean[1..] else clean])
  }

  /** The path the jail decides about. `resolved` is what EvalSymlinks answered, None when it failed
      or (in the adapter that never asks) was not called. */
  function Target(base: string, parts: seq<string>, resolved: Option<string>): string {
    match resolved
    case Some(t) => t
    case None => LexicalTarget(base, parts)
  }

  /** sanitizeAndJoin. */
  function SanitizeAndJoin(base: string, parts: seq<string>, resolved: Option<string>): Sanitized
    requires Rooted(base)
  {
    var full := Target(base, parts, resolved);
    var rel := Rel(base, full);
    if rel.RelErr? || ".." <= rel.rel then Outside else Inside(full)
  }

  /** The jail is exact: whatever the parts and whatever the symlinks resolve to, a path comes back
      exactly when it lies in the base and its first component there does not start with "..";
      what comes back is that path. */
  lemma {:induction false} SanitizeExact(base: string, parts: seq<string>, resolved: Option<string>)
    requires Rooted(base)
    ensures
      var t := Target(base, parts, resolved);
      SanitizeAndJoin(base, parts, resolved) ==
        if Within(base, t) && !(|Comps(base)| < |Comps(t)| && ".." <= Comps(t)[|Comps(base)|])
        then Inside(t) else Outside
  {
    var t := Target(base, parts, resolved);
    JoinRel(base, t);
    if Rooted(t) {
      RelStartsWithDots(base, t);
    }
  }

  /** Joining parts only ever climbs with the ".." left over after cleaning them. */
  lemma {:induction false} LexicalTargetComps(base: string, parts: seq<string>)
    requires Rooted(base)
    ensures Rooted(LexicalTarget(base, parts))
    ensures Comps(LexicalTarget(base, parts)) == Resolve(true, Comps(base), Comps(Join(parts)))
  {
    var joined := Join(parts);
    var clean := Clean(joined);
    var tail := if Rooted(clean) then clean[1..] else clean;
    JoinTwo(base, tail);
    CompsConcat(base, tail);
    CleanIdempotent(base + "/" + tail);
    ResolveTail(Rooted(joined), Comps(base), Comps(joined), tail) by {
      CompsNormal(joined);
    }
  }

  /** Without symlinks, parts that clean to plain components are accepted below the base, unless
      the first starts with ".."; that includes every absolute request. */
  lemma {:induction false} SanitizePlainParts(base: string, parts: seq<string>)
    requires Rooted(base) && PlainAll(Comps(Join(parts)))
    ensures
      var cs := Comps(Join(parts));
      SanitizeAndJoin(base, parts, None) ==
        if cs != [] && ".." <= cs[0] then Outside else Inside(Render(true, Comps(base) + cs))
  {
    var cs := Comps(Join(parts));
    var t := LexicalTarget(base, parts);
    SanitizeExact(base, parts, None);
    LexicalTargetComps(base, parts);
    ResolvePlain(true, Comps(base), cs);
    assert t == Render(true, Comps(t)) by {
      LexicalTargetIsClean(base, parts);
    }
  }

  /* ---------- temp files ---------- */

  /** os.CreateTemp in Dir(target), for the name it draws. */
  function TempPath(target: string, name: string): string {
    if Dir(target) == "/" then "/" + name else Dir(target) + "/" + name
  }

  lemma {:induction false} TempComps(target: string, name: string)
    requires Rooted(target) && Plain(name)
    ensures Rooted(TempPath(target, name))
    ensures Comps(TempPath(target, name)) == Comps(Dir(target)) + [name]
  {
    var d := Dir(target);
    DirRooted(target);
    SplitNoSlash(name);
    ResolveOne(true, Comps(d), name);
    if d == "/" {
      CompsRender(true, []);
      CompsSlash(name);
    } else {
      CompsConcat(d, name);
    }
  }

  lemma {:induction false} FinalIsLast(p: string)
    requires Rooted(p) && IsClean(p) && p != "/"
    ensures Comps(p) != [] && Comps(Dir(p)) == Init(Comps(p)) && Comps(p)[|Comps(p)| - 1] == Final(p) && Plain(Final(p))
  {
    CleanDir(p);
    DirComps(p);
    CompsNormal(p);
  }

  lemma {:induction false} JoinSnoc(cs: seq<string>, name: string)
    requires cs != []
    ensures JoinSlash(cs + [name]) == JoinSlash(cs) + "/" + name
  {
    if |cs| > 1 {
      JoinSnoc(cs[1..], name);
      assert (cs + [name])[1..] == cs[1..] + [name];
    } else {
      assert (cs + [name])[1..] == [name];
    }
  }

  lemma {:induction false} RootFinal()
    ensures Final("/") == "" && Comps("/") == []
  {
    CompsRender(true, []);
    assert Render(true, []) == "/";
    assert Split("/")[1..] == Split("");
  }

  lemma {:induction false} JoinOne(name: string)
    ensures JoinSlash([name]) == name && JoinSlash([]) == ""
  {
  }

  lemma {:induction false} TempClean(target: string, name: string)
    requires Rooted(target) && Plain(name)
    ensures IsClean(TempPath(target, name))
  {
    hide Comps, Dir, Split, Resolve, JoinSlash;
    DirComps(target);
    TempComps(target, name);
    var cs := Comps(Dir(target));
    JoinOne(name);
    assert Dir(target) == "/" + JoinSlash(cs) && Clean(TempPath(target, name)) == "/" + JoinSlash(cs + [name]);
    if cs == [] {
      assert [] + [name] == [name];
    } else {
      JoinSnoc(cs, name);
      RootFinal();
    }
  }

  /** Some draw names the target itself exactly when the target is called like a temp. */
  lemma {:induction false} OwnNameDrawIff(target: string, prefix: string)
    requires Rooted(target) && IsClean(target) && NoSlash(prefix) && |prefix| > 2
    ensures (exists rand :: NoSlash(rand) && TempPath(target, prefix + rand) == target) <==> prefix <= Final(target)
  {
    hide Comps, Dir, TempPath;
    forall rand | NoSlash(rand)
      ensures TempPath(target, prefix + rand) == target <==> prefix + rand == Final(target)
    {
      TempNamesTarget(target, prefix + rand);
    }
    if prefix <= Final(target) {
      var rand := Final(target)[|prefix|..];
      assert prefix + rand == Final(target);
      SplitInitFinal(target);
      assert forall i :: 0 <= i < |rand| ==> rand[i] == Final(target)[|prefix| + i];
      assert NoSlash(rand) && TempPath(target, prefix + rand) == target;
    }
  }

  lemma {:induction false} TempNamesTarget(target: string, name: string)
    requires Rooted(target) && IsClean(target) && Plain(name)
    ensures TempPath(target, name) == target <==> name == Final(target)
  {
    hide Comps, Dir, TempPath, Final;
    TempComps(target, name);
    TempClean(target, name);
    var cs := Comps(Dir(target));
    assert (cs + [name])[|cs|] == name;
    if target == "/" {
      RootFinal();
    } else {
      FinalIsLast(target);
      assert Comps(target) == cs + [Final(target)];
    }
  }

  /** The writers stage next to the target, in Dir(target). That stays in the base for every target
      but the base root itself, unless its spelling ends in an empty, "." or ".." component. */
  lemma {:induction false} StagingDirInside(base: string, target: string)
    requires Rooted(base) && Within(base, target)
    ensures Within(base, Dir(target)) <==> Comps(target) != Comps(base) || !Plain(Final(target))
    ensures IsClean(target) ==>
      (Within(base, Dir(target)) <==> Comps(target) != Comps(base) || Comps(base) == [])
  {
    DirComps(target);
    SplitInitFinal(target);
    CompsNormal(Dir(target));
    if target == "/" {
      CompsRender(true, []);
    } else if IsClean(target) {
      CleanDir(target);
    }
  }

  lemma {:induction false} LexicalTargetIsClean(base: string, parts: seq<string>)
    requires Rooted(base)
    ensures IsClean(LexicalTarget(base, parts))
  {
    var clean := Clean(Join(parts));
    var tail := if Rooted(clean) then clean[1..] else clean;
    JoinTwo(base, tail);
    CleanIdempotent(base + "/" + tail);
  }
}
