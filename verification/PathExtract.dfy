/** Which path an RPC request is authorized against: authz.normalize and authz.ExtractPath. */
module PathExtract {
  import opened Paths

  /* ---------- strings.TrimSpace ---------- */

  /** unicode.IsSpace. */
  predicate IsSpace(c: char) {
    c in {' ', '\t', '\n', '\r', '\U{0B}', '\U{0C}', '\U{85}', '\U{A0}', '\U{1680}',
          '\U{2028}', '\U{2029}', '\U{202F}', '\U{205F}', '\U{3000}'}
    || '\U{2000}' <= c <= '\U{200A}'
  }

  /** Those are the code points with the Unicode White_Space property. */
  lemma {:induction false} WhitespaceCodes(c: char)
    ensures IsSpace(c) <==>
      var n := c as int;
      9 <= n <= 13 || n == 32 || n == 0x85 || n == 0xA0 || n == 0x1680 || 0x2000 <= n <= 0x200A ||
      n == 0x2028 || n == 0x2029 || n == 0x202F || n == 0x205F || n == 0x3000
  {
    assert '\t' as int == 9 && '\n' as int == 10 && '\r' as int == 13 && ' ' as int == 32;
  }

  predicate StartsWithSpace(s: string) {
    s != "" && IsSpace(s[0])
  }

  predicate EndsWithSpace(s: string) {
    s != "" && IsSpace(s[|s| - 1])
  }

  function TrimLeft(s: string): string {
    if StartsWithSpace(s) then TrimLeft(s[1..]) else s
  }

  function TrimRight(s: string): string {
    if EndsWithSpace(s) then TrimRight(s[..|s| - 1]) else s
  }

  function TrimSpace(s: string): string {
    TrimRight(TrimLeft(s))
  }

  predicate AllSpace(s: string) {
    forall i :: 0 <= i < |s| ==> IsSpace(s[i])
  }

  lemma {:induction false} TrimLeftParts(s: string) returns (w: string)
    ensures s == w + TrimLeft(s) && AllSpace(w) && !StartsWithSpace(TrimLeft(s))
    ensures (w == "") == !StartsWithSpace(s)
  {
    if StartsWithSpace(s) {
      w := TrimLeftParts(s[1..]);
      w := [s[0]] + w;
    } else {
      w := "";
    }
  }

  lemma {:induction false} TrimRightParts(s: string) returns (w: string)
    ensures s == TrimRight(s) + w && AllSpace(w) && !EndsWithSpace(TrimRight(s))
    ensures (w == "") == !EndsWithSpace(s)
  {
    if EndsWithSpace(s) {
      w := TrimRightParts(s[..|s| - 1]);
      w := w + [s[|s| - 1]];
    } else {
      w := "";
    }
  }

  /* ---------- normalize ---------- */

  predicate HasDouble(s: string) {
    exists i :: 0 <= i < |s| - 1 && s[i] == '/' && s[i + 1] == '/'
  }

  /** strings.ReplaceAll(s, "//", "/"). */
  function ReplaceDouble(s: string): string {
    if |s| >= 2 && s[0] == '/' && s[1] == '/' then "/" + ReplaceDouble(s[2..])
    else if s == "" then ""
    else [s[0]] + ReplaceDouble(s[1..])
  }

  /** Every run of slashes reduced to one, in a single pass. */
  function Collapse(s: string): string {
    if s == "" then ""
    else if s[0] == '/' && Rooted(s[1..]) then Collapse(s[1..])
    else [s[0]] + Collapse(s[1..])
  }

  function Root(s: string): string {
    if Rooted(s) then s else "/" + s
  }

  /** What normalize computes. */
  function Normalized(p: string): string {
    Collapse(Root(TrimSpace(p)))
  }

  lemma {:induction false} CollapseRooted(s: string)
    ensures Rooted(Collapse(s)) == Rooted(s)
    ensures s != "" ==> Collapse(s) != ""
  {
    if s != "" {
      CollapseRooted(s[1..]);
    }
  }

  lemma {:induction false} CollapseReplace(s: string)
    ensures Collapse(ReplaceDouble(s)) == Collapse(s)
  {
    if |s| >= 2 && s[0] == '/' && s[1] == '/' {
      var u := s[2..];
      CollapseReplace(u);
    } else if s != "" {
      CollapseReplace(s[1..]);
    }
  }

  lemma {:induction false} ReplaceShrinks(s: string)
    ensures |ReplaceDouble(s)| <= |s|
    ensures HasDouble(s) ==> |ReplaceDouble(s)| < |s|
  {
    if |s| >= 2 && s[0] == '/' && s[1] == '/' {
      ReplaceShrinks(s[2..]);
    } else if s != "" {
      ReplaceShrinks(s[1..]);
      if HasDouble(s) {
        var i :| 0 <= i < |s| - 1 && s[i] == '/' && s[i + 1] == '/';
      }
    }
  }

  lemma {:induction false} CollapseFixed(s: string)
    requires !HasDouble(s)
    ensures Collapse(s) == s
  {
    if s != "" {
      assert !HasDouble(s[1..]) by {
        assert forall i :: 0 <= i < |s[1..]| ==> s[1..][i] == s[i + 1];
      }
      CollapseFixed(s[1..]);
    }
  }

  lemma {:induction false} CollapseShortens(s: string)
    ensures |Collapse(s)| <= |s|
  {
    if s != "" {
      CollapseShortens(s[1..]);
    }
  }

  /** Trimming keeps a string exactly when it has no outer whitespace, and shortens every other. */
  lemma {:induction false} TrimShortens(s: string)
    ensures !StartsWithSpace(s) && !EndsWithSpace(s) ==> TrimSpace(s) == s
    ensures StartsWithSpace(s) || EndsWithSpace(s) ==> |TrimSpace(s)| < |s|
    ensures Rooted(s) ==> Rooted(TrimSpace(s))
  {
    var v := TrimLeftParts(s);
    var w := TrimRightParts(TrimLeft(s));
    if v == "" && EndsWithSpace(s) {
      assert TrimLeft(s) == s;
    }
    assert !IsSpace('/');
  }

  lemma {:induction false} TrimKeepsEnd(s: string)
    requires !EndsWithSpace(s) && s != ""
    ensures TrimSpace(s) != "" && TrimSpace(s)[|TrimSpace(s)| - 1] == s[|s| - 1]
  {
    var v := TrimLeftParts(s);
    var w := TrimRightParts(TrimLeft(s));
    assert s[|s| - 1] == (v + TrimLeft(s))[|s| - 1];
  }

  lemma {:induction false} CollapseNoDouble(s: string)
    ensures !HasDouble(Collapse(s))
  {
    if s != "" {
      CollapseNoDouble(s[1..]);
    }
  }

  lemma {:induction false} CollapseLast(s: string)
    requires s != ""
    ensures Collapse(s) != "" && Collapse(s)[|Collapse(s)| - 1] == s[|s| - 1]
  {
    if |s| > 1 {
      CollapseLast(s[1..]);
    }
  }

  /** normalize: the loop that replaces "//" until none is left ends, and has computed the one-pass
      collapse of the trimmed, rooted path. */
  method Normalize(path: string) returns (p: string)
    ensures p == Normalized(path)
  {
    p := TrimSpace(path);
    if p == "" {
      assert Collapse("/") == "/";
      return "/";
    }
    if !("/" <= p) {
      p := "/" + p;
    }
    ghost var rooted := p;
    while HasDouble(p)
      invariant Collapse(p) == Collapse(rooted)
      decreases |p|
    {
      CollapseReplace(p);
      ReplaceShrinks(p);
      p := ReplaceDouble(p);
    }
    CollapseFixed(p);
  }

  /** The result is rooted, free of "//" and of outer whitespace. */
  lemma {:induction false} NormalizedForm(p: string)
    ensures Rooted(Normalized(p)) && !HasDouble(Normalized(p))
    ensures !StartsWithSpace(Normalized(p)) && !EndsWithSpace(Normalized(p))
  {
    var t := TrimSpace(p);
    CollapseRooted(Root(t));
    CollapseNoDouble(Root(t));
    CollapseLast(Root(t));
    var _ := TrimRightParts(TrimLeft(p));
  }

  /** normalize is idempotent. */
  lemma {:induction false} NormalizedFixed(p: string)
    ensures Normalized(Normalized(p)) == Normalized(p)
  {
    NormalizedForm(p);
    CollapseFixed(Normalized(p));
  }

  /* ---------- normalize and Clean ---------- */

  function NonEmpty(cs: seq<string>): seq<string> {
    if cs == [] then []
    else if cs[0] == "" then NonEmpty(cs[1..])
    else [cs[0]] + NonEmpty(cs[1..])
  }

  lemma {:induction false} ResolveNonEmpty(rooted: bool, stack: seq<string>, cs: seq<string>)
    ensures Resolve(rooted, stack, NonEmpty(cs)) == Resolve(rooted, stack, cs)
    decreases |cs|
  {
    if cs != [] {
      ResolveNonEmpty(rooted, Push(rooted, stack, cs[0]), cs[1..]);
    }
  }

  lemma {:induction false} CollapseSplit(s: string)
    ensures Split(Collapse(s))[0] == Split(s)[0]
    ensures NonEmpty(Split(Collapse(s))[1..]) == NonEmpty(Split(s)[1..])
  {
    if s != "" {
      CollapseSplit(s[1..]);
      var t := s[1..];
      if s[0] == '/' && Rooted(t) {
        assert Split(s)[1..] == Split(t);
      } else {
        CollapseHead(s);
      }
    }
  }

  lemma {:induction false} CollapseHead(s: string)
    requires s != "" && !(s[0] == '/' && Rooted(s[1..]))
    ensures Split(Collapse(s)) == Consume(s[0], Split(Collapse(s[1..])))
  {
  }

  lemma {:induction false} CollapseComps(s: string)
    ensures Comps(Collapse(s)) == Comps(s)
  {
    CollapseSplit(s);
    ResolveNonEmpty(Rooted(s), [], Split(s));
    ResolveNonEmpty(Rooted(s), [], Split(Collapse(s)));
  }

  lemma {:induction false} RootComps(s: string)
    ensures Comps(Root(s)) == Comps("/" + s)
  {
  }

  /** normalize never changes where the trimmed path leads. */
  lemma {:induction false} NormalizedClean(p: string)
    ensures Comps(Normalized(p)) == Comps("/" + TrimSpace(p))
    ensures Clean(Normalized(p)) == Clean("/" + TrimSpace(p))
    ensures !StartsWithSpace(p) && !EndsWithSpace(p) ==> Clean(Normalized(p)) == Clean("/" + p)
  {
    NormalizedForm(p);
    CollapseComps(Root(TrimSpace(p)));
  }

  /* ---------- when trimming moves a path ---------- */

  /** While resolving cs, the stack runs empty. */
  predicate Unwinds(stack: seq<string>, cs: seq<string>)
    decreases |cs|
  {
    stack == [] || (cs != [] && Unwinds(Push(true, stack, cs[0]), cs[1..]))
  }

  /** Some ".." of s climbs back above its first component. */
  predicate ClimbsBack(s: string) {
    Unwinds([Split(s)[0]], Split(s)[1..])
  }

  /** A bottom component that is never reached stays, and changes nothing above it. */
  lemma {:induction false} BottomStays(z: string, u: seq<string>, cs: seq<string>)
    requires z != ".." && PlainAll(u) && NoSlashes(cs) && !Unwinds([z] + u, cs)
    ensures Resolve(true, [z] + u, cs) == [z] + Resolve(true, u, cs)
    decreases |cs|
  {
    if cs != [] {
      PushAbove(z, u, cs[0]);
      BottomStays(z, Push(true, u, cs[0]), cs[1..]);
    }
  }

  lemma {:induction false} PushAbove(z: string, u: seq<string>, c: string)
    requires z != ".." && PlainAll(u) && NoSlash(c)
    ensures PlainAll(Push(true, u, c))
    ensures u != [] || c != ".." ==> Push(true, [z] + u, c) == [z] + Push(true, u, c)
    ensures u == [] && c == ".." ==> Push(true, [z] + u, c) == [] && Push(true, u, c) == []
  {
  }

  /** Once reached, a bottom component leaves no trace: it may as well be absent, or be another. */
  lemma {:induction false} BottomVanishes(z: string, f: string, u: seq<string>, cs: seq<string>)
    requires z != ".." && f != ".." && PlainAll(u) && NoSlashes(cs)
    ensures Unwinds([z] + u, cs) == Unwinds([f] + u, cs)
    ensures Unwinds([z] + u, cs) ==> Resolve(true, [z] + u, cs) == Resolve(true, u, cs)
    ensures Unwinds([z] + u, cs) ==> Resolve(true, [z] + u, cs) == Resolve(true, [f] + u, cs)
    decreases |cs|
  {
    if cs != [] {
      PushAbove(z, u, cs[0]);
      PushAbove(f, u, cs[0]);
      if u != [] || cs[0] != ".." {
        BottomVanishes(z, f, Push(true, u, cs[0]), cs[1..]);
      }
    }
  }

  lemma {:induction false} SplitSpaceFirst(w: string, t: string)
    requires w != "" && AllSpace(w)
    ensures Split(w + t) == [w + Split(t)[0]] + Split(t)[1..]
    decreases |w|
  {
    var s := w + t;
    assert s[1..] == w[1..] + t;
    if |w| == 1 {
      assert w[1..] + t == t && w == [w[0]];
    } else {
      SplitSpaceFirst(w[1..], t);
      assert [w[0]] + (w[1..] + Split(t)[0]) == w + Split(t)[0];
    }
  }

  /** A component z in place of f at the bottom shows in the result exactly when it survives. */
  lemma {:induction false} BottomShows(z: string, f: string, rest: seq<string>)
    requires Plain(z) && z != f && NoSlashes(rest)
    ensures Resolve(true, [z], rest) == Resolve(true, Push(true, [], f), rest) <==> Unwinds([z], rest)
    ensures |Resolve(true, [z], rest)| >= |Resolve(true, Push(true, [], f), rest)|
  {
    var base := Push(true, [], f);
    assert [z] + [] == [z] && [f] + [] == [f];
    assert base == [] || (base == [f] && f != "..");
    BottomVanishes(z, if base == [] then z else f, [], rest);
    if !Unwinds([z], rest) {
      BottomStays(z, [], rest);
      if base != [] {
        BottomStays(f, [], rest);
        assert ([z] + Resolve(true, [], rest))[0] == z;
      }
    }
  }

  lemma {:induction false} SpacedIsPlain(w: string, f: string)
    requires w != "" && AllSpace(w) && NoSlash(f)
    ensures Plain(w + f) && w + f != f && Plain(f + w) && f + w != f
  {
    assert (w + f)[0] == w[0] && (f + w)[|f + w| - 1] == w[|w| - 1];
  }

  /** Leading whitespace matters exactly when the component it belongs to survives. */
  lemma {:induction false} LeadingSpace(w: string, t: string)
    requires w != "" && AllSpace(w)
    ensures Comps("/" + (w + t)) == Comps("/" + t) <==> ClimbsBack(w + t)
  {
    var f, rest := Split(t)[0], Split(t)[1..];
    SplitSpaceFirst(w, t);
    CompsSlash(w + t);
    CompsSlash(t);
    JoinSplit(t);
    SpacedIsPlain(w, f);
    assert [] + [w + f] == [w + f];
    BottomShows(w + f, f, rest);
  }

  /** The components before the final one can only become more. */
  lemma {:induction false} LeadingSpaceGrows(w: string, t: string)
    requires AllSpace(w)
    ensures |Resolve(true, [], Init(Split(w + t)))| >= |Resolve(true, [], Init(Split(t)))|
  {
    if w == "" {
      assert w + t == t;
    } else {
      var f, rest := Split(t)[0], Split(t)[1..];
      SplitSpaceFirst(w, t);
      if rest != [] {
        assert Init(Split(w + t)) == [w + f] + Init(rest) && Init(Split(t)) == [f] + Init(rest);
        JoinSplit(t);
        SpacedIsPlain(w, f);
        assert [] + [w + f] == [w + f];
        BottomShows(w + f, f, Init(rest));
      }
    }
  }

  lemma {:induction false} FinalSuffix(p: string)
    requires Final(p) != ""
    ensures p != "" && Final(p)[|Final(p)| - 1] == p[|p| - 1]
  {
    JoinSplit(p);
    SplitInitFinal(p);
    JoinExtend(Init(Split(p)), "", Final(p));
    assert "" + Final(p) == Final(p);
  }

  /** Trailing whitespace always matters: it makes the final component a plain one that no trimmed
      path ends in. */
  lemma {:induction false} TrailingSpace(w: string, t: string, v: string)
    requires v != "" && AllSpace(v) && AllSpace(w) && !EndsWithSpace(t)
    ensures Comps("/" + (w + t + v)) != Comps("/" + t)
  {
    var y := w + t;
    var ry, rt := Resolve(true, [], Init(Split(y))), Resolve(true, [], Init(Split(t)));
    LeadingSpaceGrows(w, t);
    assert Comps("/" + (y + v)) == ry + [Final(y) + v] by {
      SplitSpaceLast(y, v);
      SplitInitFinal(y);
      SpacedIsPlain(v, Final(y));
      ResolveSnoc(true, [], Init(Split(y)), Final(y) + v);
    }
    assert Comps("/" + t) == Push(true, rt, Final(t)) by {
      SplitInitFinal(t);
      ResolveSnoc(true, [], Init(Split(t)), Final(t));
    }
    var last := Final(y) + v;
    if Final(t) != "" {
      FinalSuffix(t);
      assert (rt + [Final(t)])[|rt|] != last;
    }
  }

  lemma {:induction false} SplitSpaceLast(y: string, v: string)
    requires AllSpace(v)
    ensures Split(y + v) == Init(Split(y)) + [Final(y) + v]
    decreases |v|
  {
    if v == "" {
      assert y + v == y && Final(y) + v == Final(y);
    } else {
      var c := v[0];
      SplitSnoc(y, c);
      SplitSpaceLast(y + [c], v[1..]);
      assert y + [c] + v[1..] == y + v;
      assert Final(y) + [c] + v[1..] == Final(y) + v;
    }
  }

  /** Trimming a path keeps where it leads exactly when it ends in no whitespace, and any leading
      whitespace belongs to a component that is climbed out of again. */
  lemma {:induction false} TrimKeepsPath(x: string)
    ensures Comps("/" + TrimSpace(x)) == Comps("/" + x) <==>
      !EndsWithSpace(x) && (StartsWithSpace(x) ==> ClimbsBack(x))
  {
    var t := TrimSpace(x);
    var w := TrimLeftParts(x);
    var v := TrimRightParts(TrimLeft(x));
    if t == "" {
      BlankPath(x);
      BlankPath("");
    } else if v == "" {
      if w != "" {
        LeadingSpace(w, t);
      } else {
        assert x == t;
      }
    } else {
      assert x == w + t + v;
      TrailingSpace(w, t, v);
    }
  }

  lemma {:induction false} BlankPath(x: string)
    requires AllSpace(x)
    ensures Comps("/" + x) == if x == "" then [] else [x]
  {
    CompsSlash(x);
    SplitNoSlash(x);
  }

  /* ---------- ExtractPath ---------- */

  /** The requests ExtractPath knows, with the fields it reads. */
  datatype Request =
    | ListObjects(prefix: string)
    | UploadObject(path: string)
    | DownloadObject(path: string)
    | InitiateUpload(targetPath: string)
    | CompleteUpload
    | TaskStatus
    | GetTask
    | CreateFolder(parentPath: string, folderName: string)
    | UnknownRequest

  datatype Extracted = Extracted(path: string) | NoExtractor

  /** strings.TrimSuffix(s, "/"). */
  function TrimSlash(s: string): string {
    if s != "" && s[|s| - 1] == '/' then s[..|s| - 1] else s
  }

  function ExtractPath(req: Request): Extracted {
    match req
    case ListObjects(prefix) => Extracted(Normalized(prefix))
    case UploadObject(path) => Extracted(Normalized(path))
    case DownloadObject(path) => Extracted(Normalized(path))
    case InitiateUpload(targetPath) => Extracted(Normalized(targetPath))
    case CompleteUpload => Extracted("/")
    case TaskStatus => Extracted("/")
    case GetTask => Extracted("/")
    case CreateFolder(parent, name) => Extracted(Normalized(TrimSlash(parent) + "/" + name))
    case UnknownRequest => NoExtractor
  }

  /** Every extracted path is rooted, so every access check on it walks to "/" and ends. */
  lemma {:induction false} ExtractedRooted(req: Request)
    ensures ExtractPath(req).NoExtractor? <==> req.UnknownRequest?
    ensures !req.UnknownRequest? ==> Rooted(ExtractPath(req).path) && !HasDouble(ExtractPath(req).path)
  {
    match req
    case ListObjects(prefix) => NormalizedForm(prefix);
    case UploadObject(path) => NormalizedForm(path);
    case DownloadObject(path) => NormalizedForm(path);
    case InitiateUpload(targetPath) => NormalizedForm(targetPath);
    case CreateFolder(parent, name) => NormalizedForm(TrimSlash(parent) + "/" + name);
    case _ =>
  }
}
