/** The lexical POSIX path algebra behind Go's filepath.Clean, Dir, Join and Rel, which every
    other component calls. A path is a string; it is parsed by splitting on '/', resolved on a
    stack of components ("" and "." dropped, ".." popping) and printed again. */
module Paths {

  /* ---------- parsing and printing ---------- */

  /** The '/'-separated pieces of s; always at least one. */
  function Split(s: string): (cs: seq<string>)
    ensures |cs| > 0
  {
    if s == "" then [""] else Consume(s[0], Split(s[1..]))
  }

  /** One more character in front of the pieces cs. */
  function Consume(c: char, cs: seq<string>): (r: seq<string>)
    requires |cs| > 0
    ensures |r| > 0
  {
    if c == '/' then [""] + cs else [[c] + cs[0]] + cs[1..]
  }

  function JoinSlash(cs: seq<string>): string {
    if |cs| == 0 then ""
    else if |cs| == 1 then cs[0]
    else cs[0] + "/" + JoinSlash(cs[1..])
  }

  predicate NoSlash(c: string) {
    '/' !in c
  }

  predicate NoSlashes(cs: seq<string>) {
    forall i :: 0 <= i < |cs| ==> NoSlash(cs[i])
  }

  lemma {:induction false} SplitNoSlash(c: string)
    requires NoSlash(c)
    ensures Split(c) == [c]
  {
    if c != "" {
      SplitNoSlash(c[1..]);
      assert c == [c[0]] + c[1..];
    }
  }

  lemma {:induction false} SplitSlash(a: string, b: string)
    ensures Split(a + "/" + b) == Split(a) + Split(b)
  {
    var s := a + "/" + b;
    if a == "" {
      assert s[1..] == b;
    } else {
      assert s[1..] == a[1..] + "/" + b;
      SplitSlash(a[1..], b);
    }
  }

  /** Printing then parsing gives the components back. */
  lemma {:induction false} SplitJoin(cs: seq<string>)
    requires |cs| > 0 && NoSlashes(cs)
    ensures Split(JoinSlash(cs)) == cs
  {
    SplitNoSlash(cs[0]);
    if |cs| > 1 {
      SplitJoin(cs[1..]);
      SplitSlash(cs[0], JoinSlash(cs[1..]));
    }
  }

  /** Parsing then printing gives the string back, and no piece holds a slash. */
  lemma {:induction false} JoinSplit(s: string)
    ensures JoinSlash(Split(s)) == s
    ensures NoSlashes(Split(s))
  {
    if s != "" {
      JoinSplit(s[1..]);
    }
  }

  /* ---------- resolving components ---------- */

  predicate Rooted(p: string) {
    p != "" && p[0] == '/'
  }

  /** A component that resolving keeps as it is. */
  predicate Plain(c: string) {
    c != "" && c != "." && c != ".." && NoSlash(c)
  }

  predicate PlainAll(cs: seq<string>) {
    forall i :: 0 <= i < |cs| ==> Plain(cs[i])
  }

  /** One component arriving on the stack of those kept so far. */
  function Push(rooted: bool, stack: seq<string>, c: string): seq<string> {
    if c == "" || c == "." then stack
    else if c == ".." then
      if |stack| > 0 && stack[|stack| - 1] != ".." then stack[..|stack| - 1]
      else if rooted then stack
      else stack + [c]
    else stack + [c]
  }

  function Resolve(rooted: bool, stack: seq<string>, cs: seq<string>): seq<string>
    decreases |cs|
  {
    if cs == [] then stack else Resolve(rooted, Push(rooted, stack, cs[0]), cs[1..])
  }

  /** What resolving leaves: plain components, after a run of ".." when the path is relative. */
  ghost predicate Normal(rooted: bool, cs: seq<string>) {
    forall i :: 0 <= i < |cs| ==>
      Plain(cs[i]) || (cs[i] == ".." && !rooted && forall j :: 0 <= j < i ==> cs[j] == "..")
  }

  lemma {:induction false} ResolveAppend(rooted: bool, stack: seq<string>, a: seq<string>, b: seq<string>)
    ensures Resolve(rooted, stack, a + b) == Resolve(rooted, Resolve(rooted, stack, a), b)
    decreases |a|
  {
    if a == [] {
      assert a + b == b;
    } else {
      assert (a + b)[1..] == a[1..] + b;
      ResolveAppend(rooted, Push(rooted, stack, a[0]), a[1..], b);
    }
  }

  lemma {:induction false} ResolveOne(rooted: bool, stack: seq<string>, c: string)
    ensures Resolve(rooted, stack, [c]) == Push(rooted, stack, c)
  {
  }

  lemma {:induction false} ResolveCons(rooted: bool, stack: seq<string>, c: string, cs: seq<string>)
    ensures Resolve(rooted, stack, [c] + cs) == Resolve(rooted, Push(rooted, stack, c), cs)
  {
  }

  lemma {:induction false} ResolveSnoc(rooted: bool, stack: seq<string>, a: seq<string>, c: string)
    ensures Resolve(rooted, stack, a + [c]) == Push(rooted, Resolve(rooted, stack, a), c)
  {
    ResolveAppend(rooted, stack, a, [c]);
  }

  lemma {:induction false} ResolveIsNormal(rooted: bool, stack: seq<string>, cs: seq<string>)
    requires Normal(rooted, stack) && NoSlashes(cs)
    ensures Normal(rooted, Resolve(rooted, stack, cs))
    decreases |cs|
  {
    if cs != [] {
      ResolveIsNormal(rooted, Push(rooted, stack, cs[0]), cs[1..]);
    }
  }

  lemma {:induction false} ResolvePlain(rooted: bool, stack: seq<string>, cs: seq<string>)
    requires PlainAll(cs)
    ensures Resolve(rooted, stack, cs) == stack + cs
    decreases |cs|
  {
    if cs == [] {
      assert stack + cs == stack;
    } else {
      ResolvePlain(rooted, stack + [cs[0]], cs[1..]);
    }
  }

  lemma {:induction false} ResolveNormal(rooted: bool, cs: seq<string>)
    requires Normal(rooted, cs)
    ensures Resolve(rooted, [], cs) == cs
    decreases |cs|
  {
    if cs != [] {
      var init, last := cs[..|cs| - 1], cs[|cs| - 1];
      assert cs == init + [last];
      ResolveNormal(rooted, init);
      ResolveSnoc(rooted, [], init, last);
    }
  }

  /* ---------- Clean ---------- */

  /** The components of p after resolving. */
  function Comps(p: string): seq<string> {
    Resolve(Rooted(p), [], Split(p))
  }

  function Render(rooted: bool, cs: seq<string>): string {
    if rooted then "/" + JoinSlash(cs)
    else if cs == [] then "."
    else JoinSlash(cs)
  }

  /** filepath.Clean. */
  function Clean(p: string): string {
    Render(Rooted(p), Comps(p))
  }

  predicate IsClean(p: string) {
    Clean(p) == p
  }

  lemma {:induction false} CompsNormal(p: string)
    ensures Normal(Rooted(p), Comps(p))
    ensures Rooted(p) ==> PlainAll(Comps(p))
  {
    JoinSplit(p);
    ResolveIsNormal(Rooted(p), [], Split(p));
  }

  lemma {:induction false} SplitRooted(p: string)
    ensures Split("/" + p) == [""] + Split(p)
  {
  }

  lemma {:induction false} CompsSlash(p: string)
    ensures Comps("/" + p) == Resolve(true, [], Split(p))
  {
  }

  /** Print/parse round trip: a normal component list is what its printed path resolves to. */
  lemma {:induction false} CompsRender(rooted: bool, cs: seq<string>)
    requires Normal(rooted, cs)
    ensures Rooted(Render(rooted, cs)) == rooted
    ensures Comps(Render(rooted, cs)) == cs
  {
    if rooted {
      CompsSlash(JoinSlash(cs));
    }
    if cs == [] {
      SplitNoSlash(if rooted then "" else ".");
      ResolveOne(rooted, [], if rooted then "" else ".");
    } else {
      SplitJoin(cs);
      ResolveNormal(rooted, cs);
    }
  }

  /** Clean keeps rootedness and components, so it is idempotent. */
  lemma {:induction false} CleanIdempotent(p: string)
    ensures Rooted(Clean(p)) == Rooted(p)
    ensures Comps(Clean(p)) == Comps(p)
    ensures IsClean(Clean(p))
  {
    CompsNormal(p);
    CompsRender(Rooted(p), Comps(p));
  }

  /** Two paths clean to the same string exactly when they agree on root and components. */
  lemma {:induction false} CleanEqualIff(p: string, q: string)
    ensures Clean(p) == Clean(q) <==> Rooted(p) == Rooted(q) && Comps(p) == Comps(q)
  {
    CleanIdempotent(p);
    CleanIdempotent(q);
  }

  /** q is p itself or lies below it, as cleaned paths. */
  predicate Within(p: string, q: string) {
    Rooted(p) == Rooted(q) && Comps(p) <= Comps(q)
  }

  /* ---------- Join ---------- */

  /** filepath.Join: leading empty elements are skipped, the rest joined by '/' and cleaned. */
  function Join(elems: seq<string>): string {
    if elems == [] then ""
    else if elems[0] == "" then Join(elems[1..])
    else Clean(JoinSlash(elems))
  }

  lemma {:induction false} CompsConcat(a: string, b: string)
    requires a != ""
    ensures Rooted(a + "/" + b) == Rooted(a)
    ensures Comps(a + "/" + b) == Resolve(Rooted(a), Comps(a), Split(b))
  {
    SplitSlash(a, b);
    ResolveAppend(Rooted(a), [], Split(a), Split(b));
  }

  lemma {:induction false} JoinTwo(a: string, b: string)
    requires a != ""
    ensures Join([a, b]) == Clean(a + "/" + b)
  {
    assert JoinSlash([a, b]) == a + "/" + JoinSlash([b]);
  }

  /** Joining a rooted path below a base appends its components: no ".." is left to pop any. */
  lemma {:induction false} JoinBelow(base: string, p: string)
    requires base != "" && Rooted(p)
    ensures Comps(Join([base, Clean(p)])) == Comps(base) + Comps(p)
    ensures Rooted(Join([base, Clean(p)])) == Rooted(base)
  {
    var c := Clean(p);
    JoinTwo(base, c);
    CompsConcat(base, c);
    CleanIdempotent(base + "/" + c);
    CompsNormal(p);
    var cs := Comps(p);
    SplitRooted(JoinSlash(cs));
    ResolveCons(Rooted(base), Comps(base), "", Split(JoinSlash(cs)));
    if cs == [] {
      ResolveOne(Rooted(base), Comps(base), "");
      assert Comps(base) + cs == Comps(base);
    } else {
      SplitJoin(cs);
      ResolvePlain(Rooted(base), Comps(base), cs);
    }
  }

  /* ---------- Dir ---------- */

  /** p up to and including its last slash. */
  function DirPart(p: string): string {
    if p == "" || p[|p| - 1] == '/' then p else DirPart(p[..|p| - 1])
  }

  /** filepath.Dir. */
  function Dir(p: string): string {
    Clean(DirPart(p))
  }

  function Init(cs: seq<string>): seq<string>
    requires cs != []
  {
    cs[..|cs| - 1]
  }

  function Final(p: string): string {
    Split(p)[|Split(p)| - 1]
  }

  lemma {:induction false} JoinExtend(cs: seq<string>, last: string, more: string)
    ensures JoinSlash(cs + [last + more]) == JoinSlash(cs + [last]) + more
  {
    if cs != [] {
      JoinExtend(cs[1..], last, more);
      assert (cs + [last + more])[1..] == cs[1..] + [last + more];
      assert (cs + [last])[1..] == cs[1..] + [last];
    }
  }

  lemma {:induction false} SplitSnoc(p: string, c: char)
    requires c != '/'
    ensures Split(p + [c]) == Init(Split(p)) + [Final(p) + [c]]
  {
    hide Split, JoinSlash;
    var init, last := Init(Split(p)), Final(p);
    assert JoinSlash(init + [last]) == p && NoSlashes(init + [last]) by {
      JoinSplit(p);
      assert Split(p) == init + [last];
    }
    assert JoinSlash(init + [last + [c]]) == p + [c] by {
      JoinExtend(init, last, [c]);
    }
    assert NoSlashes(init + [last + [c]]) by {
      assert NoSlash((init + [last])[|init|]);
      assert forall i :: 0 <= i < |init| ==> init[i] == (init + [last])[i];
    }
    SplitJoin(init + [last + [c]]);
  }

  lemma {:induction false} SplitDirPart(p: string)
    ensures Split(DirPart(p)) == Init(Split(p)) + [""]
    ensures Rooted(DirPart(p)) == Rooted(p)
  {
    if p == "" {
    } else if p[|p| - 1] == '/' {
      assert p == p[..|p| - 1] + "/" + "";
      SplitSlash(p[..|p| - 1], "");
    } else {
      assert p == p[..|p| - 1] + [p[|p| - 1]];
      SplitSnoc(p[..|p| - 1], p[|p| - 1]);
      SplitDirPart(p[..|p| - 1]);
    }
  }

  lemma {:induction false} SplitInitFinal(p: string)
    ensures Split(p) == Init(Split(p)) + [Final(p)]
    ensures NoSlash(Final(p))
  {
    JoinSplit(p);
  }

  /** Dir resolves all components but the final one; the final one then decides what p itself is. */
  lemma {:induction false} DirComps(p: string)
    ensures Rooted(Dir(p)) == Rooted(p) && IsClean(Dir(p))
    ensures Comps(Dir(p)) == Resolve(Rooted(p), [], Init(Split(p)))
    ensures Comps(p) == Push(Rooted(p), Comps(Dir(p)), Final(p))
  {
    SplitDirPart(p);
    CleanIdempotent(DirPart(p));
    ResolveSnoc(Rooted(p), [], Init(Split(p)), "");
    SplitInitFinal(p);
    ResolveSnoc(Rooted(p), [], Init(Split(p)), Final(p));
  }

  /** On clean paths Dir drops the last component. */
  lemma {:induction false} CleanDir(p: string)
    requires Rooted(p) && IsClean(p) && p != "/"
    ensures Comps(p) != [] && Comps(Dir(p)) == Init(Comps(p))
  {
    var cs := Comps(p);
    CompsNormal(p);
    SplitJoin(cs);
    DirComps(p);
  }

  lemma {:induction false} DirRooted(p: string)
    ensures Rooted(Dir(p)) == Rooted(p)
  {
    DirComps(p);
  }

  lemma {:induction false} DirOfRoot()
    ensures Dir("/") == "/"
  {
  }

  /** Room the components take when each is preceded by one slash. */
  function Width(cs: seq<string>): nat {
    if cs == [] then 0 else |cs[0]| + 1 + Width(cs[1..])
  }

  lemma {:induction false} WidthSnoc(cs: seq<string>, c: string)
    ensures Width(cs + [c]) == Width(cs) + |c| + 1
  {
    if cs != [] {
      assert (cs + [c])[1..] == cs[1..] + [c];
      WidthSnoc(cs[1..], c);
    }
  }

  lemma {:induction false} WidthJoin(cs: seq<string>)
    requires cs != []
    ensures |JoinSlash(cs)| + 1 == Width(cs)
  {
    if |cs| > 1 {
      WidthJoin(cs[1..]);
    }
  }

  lemma {:induction false} WidthResolve(rooted: bool, stack: seq<string>, cs: seq<string>)
    ensures Width(Resolve(rooted, stack, cs)) <= Width(stack) + Width(cs)
    decreases |cs|
  {
    if cs != [] {
      WidthResolve(rooted, Push(rooted, stack, cs[0]), cs[1..]);
      WidthSnoc(stack, cs[0]);
      if |stack| > 0 {
        assert stack == stack[..|stack| - 1] + [stack[|stack| - 1]];
        WidthSnoc(stack[..|stack| - 1], stack[|stack| - 1]);
      }
    }
  }

  /** Dir strictly shortens every rooted path but "/". */
  lemma {:induction false} DirShortens(p: string)
    requires Rooted(p) && p != "/"
    ensures |Dir(p)| < |p|
  {
    DirComps(p);
    SplitInitFinal(p);
    JoinSplit(p);
    assert p == "/" + p[1..];
    SplitRooted(p[1..]);
    var rest := Split(p[1..]);
    var mid := Init(rest);
    assert Init(Split(p)) == [""] + mid;
    assert Comps(Dir(p)) == Resolve(true, [], mid);
    WidthResolve(true, [], mid);
    WidthJoin(rest);
    assert rest == mid + [rest[|rest| - 1]];
    WidthSnoc(mid, rest[|rest| - 1]);
    if Comps(Dir(p)) != [] {
      WidthJoin(Comps(Dir(p)));
    }
  }

  /* ---------- Rel ---------- */

  function CommonLen(a: seq<string>, b: seq<string>): (k: nat)
    ensures k <= |a| && k <= |b| && a[..k] == b[..k]
    ensures k < |a| && k < |b| ==> a[k] != b[k]
  {
    if a != [] && b != [] && a[0] == b[0] then 1 + CommonLen(a[1..], b[1..]) else 0
  }

  function Ups(n: nat): seq<string> {
    if n == 0 then [] else [".."] + Ups(n - 1)
  }

  datatype RelResult = RelOk(rel: string) | RelErr

  /** filepath.Rel from a rooted base, the only kind of base the file engine passes. */
  function Rel(base: string, target: string): RelResult
    requires Rooted(base)
  {
    if Clean(base) == Clean(target) then RelOk(".")
    else if !Rooted(target) then RelErr
    else
      var b, t := Comps(base), Comps(target);
      var k := CommonLen(b, t);
      RelOk(JoinSlash(Ups(|b| - k) + t[k..]))
  }

  lemma {:induction false} ResolveUps(stack: seq<string>, n: nat)
    requires n <= |stack| && PlainAll(stack)
    ensures Resolve(true, stack, Ups(n)) == stack[..|stack| - n]
    decreases n
  {
    if n == 0 {
      assert stack[..|stack|] == stack;
    } else {
      ResolveUps(stack[..|stack| - 1], n - 1);
    }
  }

  lemma {:induction false} UpsElems(n: nat)
    ensures |Ups(n)| == n
    ensures forall i :: 0 <= i < n ==> Ups(n)[i] == ".."
  {
    if n > 0 {
      UpsElems(n - 1);
    }
  }

  /** Rel answers exactly for rooted targets, and joining its answer onto the base leads back to
      the cleaned target. */
  lemma {:induction false} JoinRel(base: string, target: string)
    requires Rooted(base)
    ensures Rel(base, target).RelOk? <==> Rooted(target)
    ensures Rooted(target) ==> Join([base, Rel(base, target).rel]) == Clean(target)
  {
    CleanEqualIff(base, target);
    if Rooted(target) {
      RelResolves(base, target);
      JoinTwo(base, Rel(base, target).rel);
      CompsConcat(base, Rel(base, target).rel);
    }
  }

  lemma {:induction false} RelResolves(base: string, target: string)
    requires Rooted(base) && Rooted(target)
    ensures Resolve(true, Comps(base), Split(Rel(base, target).rel)) == Comps(target)
  {
    CleanEqualIff(base, target);
    var b, t := Comps(base), Comps(target);
    if b == t {
      SplitNoSlash(".");
    } else {
      assert PlainAll(b) && PlainAll(t) by {
        CompsNormal(base);
        CompsNormal(target);
      }
      ClimbAndDescend(b, t, CommonLen(b, t));
    }
  }

  lemma {:induction false} ClimbAndDescend(b: seq<string>, t: seq<string>, k: nat)
    requires PlainAll(b) && PlainAll(t) && b != t
    requires k <= |b| && k <= |t| && b[..k] == t[..k]
    ensures Resolve(true, b, Split(JoinSlash(Ups(|b| - k) + t[k..]))) == t
  {
    hide Split, JoinSlash, Resolve, Ups;
    ClimbSplit(b, t, k);
    ClimbResolve(b, t[k..], k);
    assert b[..k] + t[k..] == t;
  }

  lemma {:induction false} ClimbResolve(b: seq<string>, down: seq<string>, k: nat)
    requires PlainAll(b) && PlainAll(down) && k <= |b|
    ensures Resolve(true, b, Ups(|b| - k) + down) == b[..k] + down
  {
    ResolveAppend(true, b, Ups(|b| - k), down);
    ResolveUps(b, |b| - k);
    ResolvePlain(true, b[..k], down);
  }

  lemma {:induction false} ClimbSplit(b: seq<string>, t: seq<string>, k: nat)
    requires PlainAll(t) && b != t
    requires k <= |b| && k <= |t| && b[..k] == t[..k]
    ensures Split(JoinSlash(Ups(|b| - k) + t[k..])) == Ups(|b| - k) + t[k..]
  {
    UpsElems(|b| - k);
    SplitJoin(Ups(|b| - k) + t[k..]);
  }

  /** Rel's answer starts with ".." exactly when it must climb out of the base, or the first
      component below the base itself starts with "..". */
  lemma {:induction false} RelStartsWithDots(base: string, target: string)
    requires Rooted(base) && Rooted(target)
    ensures ".." <= Rel(base, target).rel <==>
      !Within(base, target) ||
      (|Comps(base)| < |Comps(target)| && ".." <= Comps(target)[|Comps(base)|])
  {
    CleanEqualIff(base, target);
    var b, t := Comps(base), Comps(target);
    var k := CommonLen(b, t);
    if Clean(base) != Clean(target) {
      var cs := Ups(|b| - k) + t[k..];
      if k < |b| {
        assert cs[0] == "..";
      } else {
        assert b == b[..k] && t[..|t|] == t;
        CompsNormal(target);
        DotsOfJoin(cs);
      }
    }
  }

  lemma {:induction false} DotsOfJoin(cs: seq<string>)
    requires cs != [] && Plain(cs[0])
    ensures ".." <= JoinSlash(cs) <==> ".." <= cs[0]
  {
    var s := JoinSlash(cs);
    if |cs| > 1 {
      assert s[|cs[0]|] == '/';
    }
  }

  /* ---------- what Clean means ---------- */

  /** The directory or file p names when the working directory is dir, by purely lexical steps. */
  function Locate(dir: seq<string>, p: string): seq<string> {
    Resolve(true, if Rooted(p) then [] else dir, Split(p))
  }

  /** Reading the components back from the printed path, without its leading slash if it has one. */
  lemma {:induction false} ResolveTail(rooted: bool, stack: seq<string>, cs: seq<string>, tail: string)
    requires Normal(rooted, cs)
    requires tail == if rooted then JoinSlash(cs) else Render(false, cs)
    ensures Resolve(true, stack, Split(tail)) == Resolve(true, stack, cs)
  {
    if cs == [] {
      SplitNoSlash(tail);
    } else {
      SplitJoin(cs);
    }
  }

  /** Resolving first on its own and then from a directory is resolving from that directory. */
  lemma {:induction false} ResolveTwice(dir: seq<string>, cs: seq<string>)
    requires PlainAll(dir) && NoSlashes(cs)
    ensures Resolve(true, dir, Resolve(false, [], cs)) == Resolve(true, dir, cs)
    decreases |cs|
  {
    if cs != [] {
      var init, c := cs[..|cs| - 1], cs[|cs| - 1];
      assert cs == init + [c];
      ResolveTwice(dir, init);
      ResolveSnoc(false, [], init, c);
      ResolveSnoc(true, dir, init, c);
      ResolveIsNormal(false, [], init);
      PushTwice(dir, Resolve(false, [], init), c);
    }
  }

  lemma {:induction false} PushTwice(dir: seq<string>, r: seq<string>, c: string)
    requires Normal(false, r)
    ensures Resolve(true, dir, Push(false, r, c)) == Push(true, Resolve(true, dir, r), c)
  {
    ResolveSnoc(true, dir, r, c);
    if c == ".." && r != [] && r[|r| - 1] != ".." {
      var init, last := r[..|r| - 1], r[|r| - 1];
      assert r == init + [last];
      ResolveSnoc(true, dir, init, last);
    }
  }

  /** Clean changes no meaning: from every directory the cleaned path names the same thing. */
  lemma {:induction false} CleanLocates(dir: seq<string>, p: string)
    requires PlainAll(dir)
    ensures Locate(dir, Clean(p)) == Locate(dir, p)
    ensures !Rooted(p) ==> Locate(dir, p) == Resolve(true, dir, Comps(p))
  {
    CleanIdempotent(p);
    if !Rooted(p) {
      JoinSplit(p);
      CompsNormal(p);
      ResolveTail(false, dir, Comps(p), Clean(p));
      ResolveTwice(dir, Split(p));
    }
  }

  function LeadingUps(cs: seq<string>): (k: nat)
    ensures k <= |cs|
  {
    if cs != [] && cs[0] == ".." then 1 + LeadingUps(cs[1..]) else 0
  }

  lemma {:induction false} NormalParts(cs: seq<string>)
    requires Normal(false, cs)
    ensures cs == Ups(LeadingUps(cs)) + cs[LeadingUps(cs)..] && PlainAll(cs[LeadingUps(cs)..])
  {
    if cs != [] && cs[0] == ".." {
      assert Normal(false, cs[1..]);
      NormalParts(cs[1..]);
    } else {
      assert forall i :: 0 <= i < |cs| ==> Plain(cs[i]) || cs[0] == "..";
    }
  }

  /** A directory of n equal components, none of them in cs or ds. */
  lemma {:induction false} FarDir(n: nat, cs: seq<string>, ds: seq<string>) returns (f: string, dir: seq<string>)
    ensures dir == seq(n, _ => f) && PlainAll(dir) && f !in cs && f !in ds
  {
    f := seq(Width(cs) + Width(ds) + 1, _ => 'x');
    dir := seq(n, _ => f);
    assert f[0] == 'x';
    forall c | c in cs || c in ds ensures c != f {
      if c in cs { WidthBounds(cs, c); } else { WidthBounds(ds, c); }
    }
  }

  lemma {:induction false} WidthBounds(cs: seq<string>, c: string)
    requires c in cs
    ensures |c| < Width(cs)
  {
    if c != cs[0] {
      WidthBounds(cs[1..], c);
    }
  }

  lemma {:induction false} FarDirShows(f: string, n: nat, k: nat, d: seq<string>, l: nat, e: seq<string>)
    requires k < l <= n
    requires seq(n - k, _ => f) + d == seq(n - l, _ => f) + e
    ensures f in e
  {
    var a, b := seq(n - k, _ => f) + d, seq(n - l, _ => f) + e;
    assert a[n - l] == f && b[n - l] == e[0];
  }

  lemma {:induction false} FarDirTells(f: string, n: nat, k: nat, d: seq<string>, l: nat, e: seq<string>)
    requires k <= n && l <= n && f !in d && f !in e
    requires seq(n - k, _ => f) + d == seq(n - l, _ => f) + e
    ensures k == l && d == e
  {
    if k < l {
      FarDirShows(f, n, k, d, l, e);
    } else if l < k {
      FarDirShows(f, n, l, e, k, d);
    } else {
      assert d == (seq(n - k, _ => f) + d)[n - k..];
    }
  }

  lemma {:induction false} LocateFar(f: string, n: nat, cs: seq<string>)
    requires Normal(false, cs) && Plain(f) && LeadingUps(cs) <= n
    ensures Resolve(true, seq(n, _ => f), cs) == seq(n - LeadingUps(cs), _ => f) + cs[LeadingUps(cs)..]
  {
    var dir, k := seq(n, _ => f), LeadingUps(cs);
    NormalParts(cs);
    ClimbResolve(dir, cs[k..], n - k);
    assert dir[..n - k] == seq(n - k, _ => f);
  }

  /** Clean loses nothing: two paths clean to the same string exactly when they name the same thing
      from every directory. */
  lemma {:induction false} CleanComplete(p: string, q: string)
    ensures Clean(p) == Clean(q) <==> forall dir :: PlainAll(dir) ==> Locate(dir, p) == Locate(dir, q)
  {
    if Clean(p) == Clean(q) {
      forall dir | PlainAll(dir) ensures Locate(dir, p) == Locate(dir, q) {
        CleanLocates(dir, p);
        CleanLocates(dir, q);
      }
    } else if Rooted(p) && Rooted(q) {
      assert PlainAll([]) && Locate([], p) != Locate([], q);
    } else if !Rooted(p) && !Rooted(q) {
      RelativeToldApart(p, q);
    } else if Rooted(p) {
      RootedToldApart(p, q);
    } else {
      RootedToldApart(q, p);
    }
  }

  lemma {:induction false} RelativeToldApart(p: string, q: string)
    requires !Rooted(p) && !Rooted(q) && Comps(p) != Comps(q)
    ensures exists dir :: PlainAll(dir) && Locate(dir, p) != Locate(dir, q)
  {
    hide Comps, Split, Resolve, Locate;
    var cs, ds := Comps(p), Comps(q);
    CompsNormal(p);
    CompsNormal(q);
    var n := LeadingUps(cs) + LeadingUps(ds) + 1;
    var f, dir := FarDir(n, cs, ds);
    assert Plain(dir[0]) && dir[0] == f;
    CleanLocates(dir, p);
    CleanLocates(dir, q);
    LocateFar(f, n, cs);
    LocateFar(f, n, ds);
    if Locate(dir, p) == Locate(dir, q) {
      FarDirTells(f, n, LeadingUps(cs), cs[LeadingUps(cs)..], LeadingUps(ds), ds[LeadingUps(ds)..]);
      NormalParts(cs);
      NormalParts(ds);
    }
  }

  lemma {:induction false} RootedToldApart(p: string, q: string)
    requires Rooted(p) && !Rooted(q)
    ensures exists dir :: PlainAll(dir) && Locate(dir, p) != Locate(dir, q)
  {
    var ds := Comps(q);
    CompsNormal(q);
    var n := LeadingUps(ds) + |Comps(p)| + 1;
    var f, dir := FarDir(n, ds, []);
    assert Plain(dir[0]) && dir[0] == f;
    CleanLocates(dir, q);
    LocateFar(f, n, ds);
  }
}
