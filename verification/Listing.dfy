/** The two ways of listing a directory in an object store: GCS fetches every key below it, S3 asks
    for one level and lets the server group the rest by the next slash. */
module Listing {
  import opened Paths
  import opened Blobs
  import opened ObjectKeys

  datatype ObjectInfo = ObjectInfo(path: string, size: nat, isDir: bool)

  datatype Object = Object(key: string, size: nat)

  datatype Page = Page(prefixes: seq<string>, contents: seq<Object>)

  /** One answer of an iterator or paginator. */
  datatype Fetch<T> = Got(value: T) | FetchError

  datatype ListResult = Listed(entries: seq<ObjectInfo>) | ListError

  predicate EndsSlash(s: string) {
    s != "" && s[|s| - 1] == '/'
  }

  /** The key prefix both adapters query for a directory. */
  function KeyPrefix(ns: string, dir: string): string {
    var kp := Key(ns, TrimPrefix(dir, "/"));
    if kp != "" && !EndsSlash(kp) then kp + "/" else kp
  }

  function NsPart(ns: string): string {
    if ns == "" then "" else ns + "/"
  }

  /** What a listed directory contributes to the key prefix: up to two leading slashes are dropped,
      and a missing last one is added. */
  function ListedDir(dir: string): string {
    TrimPrefix(TrimPrefix(dir, "/"), "/")
  }

  function Slashed(t: string): string {
    if t == "" || EndsSlash(t) then t else t + "/"
  }

  lemma {:induction false} SlashedSame(a: string, b: string)
    requires a != "" && b != "" && EndsSlash(a) == EndsSlash(b)
    ensures Slashed(a) == Slashed(b) ==> a == b
  {
    if !EndsSlash(a) {
      assert Slashed(a)[..|Slashed(a)| - 1] == a && Slashed(b)[..|Slashed(b)| - 1] == b;
    }
  }

  lemma {:induction false} KeyPrefixEqualIff(ns: string, p: string, q: string)
    ensures KeyPrefix(ns, p) == KeyPrefix(ns, q) <==> Slashed(ListedDir(p)) == Slashed(ListedDir(q))
  {
    KeyPrefixForm(ns, p);
    KeyPrefixForm(ns, q);
    DropCommon(NsPart(ns), Slashed(ListedDir(p)));
    DropCommon(NsPart(ns), Slashed(ListedDir(q)));
  }

  lemma {:induction false} KeyPrefixForm(ns: string, dir: string)
    ensures KeyPrefix(ns, dir) == NsPart(ns) + Slashed(ListedDir(dir))
  {
    var t := ListedDir(dir);
    if ns != "" {
      assert EndsSlash(ns + "/" + t) <==> t == "" || EndsSlash(t);
      assert ns + "/" + (t + "/") == ns + "/" + t + "/";
    }
  }

  predicate Placeholder(o: Object) {
    EndsSlash(o.key) && o.size == 0
  }

  /* ---------- GCS ---------- */

  function GcsInfo(ns: string, o: Object): ObjectInfo {
    ObjectInfo(PathOf(ns, o.key), o.size, false)
  }

  function GcsEntries(ns: string, objs: seq<Object>): seq<ObjectInfo> {
    if objs == [] then []
    else
      var last := objs[|objs| - 1];
      GcsEntries(ns, objs[..|objs| - 1]) + if Placeholder(last) then [] else [GcsInfo(ns, last)]
  }

  function Values<T>(answers: seq<Fetch<T>>): seq<T>
    requires forall i :: 0 <= i < |answers| ==> answers[i].Got?
  {
    seq(|answers|, i requires 0 <= i < |answers| => answers[i].value)
  }

  predicate AllGot<T>(answers: seq<Fetch<T>>) {
    forall i :: 0 <= i < |answers| ==> answers[i].Got?
  }

  /** How many of the first n objects are to be listed: all but empty ones with a key ending in '/'. */
  function Rank(objs: seq<Object>, n: nat): nat
    requires n <= |objs|
  {
    if n == 0 then 0
    else
      var o := objs[n - 1];
      Rank(objs, n - 1) + if o.size == 0 && o.key != "" && o.key[|o.key| - 1] == '/' then 0 else 1
  }

  /** The i-th object is not to be listed, or is listed in its turn. */
  predicate InTurn(objs: seq<Object>, infos: seq<ObjectInfo>, i: nat, info: ObjectInfo)
    requires i < |objs|
  {
    Rank(objs, i) < Rank(objs, i + 1) ==> Rank(objs, i) < |infos| && infos[Rank(objs, i)] == info
  }

  lemma {:induction false} RankTake(objs: seq<Object>, n: nat, k: nat)
    requires n <= k <= |objs|
    ensures Rank(objs[..k], n) == Rank(objs, n)
  {
    if n > 0 {
      RankTake(objs, n - 1, k);
    }
  }

  lemma {:induction false} RankGrows(objs: seq<Object>, i: nat, j: nat)
    requires i <= j <= |objs|
    ensures Rank(objs, i) <= Rank(objs, j)
    decreases j
  {
    if i < j {
      RankGrows(objs, i, j - 1);
    }
  }

  /** Every turn belongs to some object. */
  lemma {:induction false} RankOnto(objs: seq<Object>, n: nat, r: nat) returns (i: nat)
    requires n <= |objs| && r < Rank(objs, n)
    ensures i < n && Rank(objs, i) == r && Rank(objs, i + 1) == r + 1
  {
    if r == Rank(objs, n - 1) {
      i := n - 1;
    } else {
      i := RankOnto(objs, n - 1, r);
    }
  }

  lemma {:induction false} ListedIff(objs: seq<Object>, i: nat)
    requires i < |objs|
    ensures Rank(objs, i) < Rank(objs, i + 1) <==> !Placeholder(objs[i])
    ensures Rank(objs, i) <= Rank(objs, i + 1) <= Rank(objs, i) + 1
  {
  }

  lemma {:induction false} GcsInOrder(ns: string, objs: seq<Object>)
    ensures |GcsEntries(ns, objs)| == Rank(objs, |objs|)
    ensures forall i :: 0 <= i < |objs| ==> InTurn(objs, GcsEntries(ns, objs), i, GcsInfo(ns, objs[i]))
  {
    hide GcsInfo, Rank, Placeholder;
    if objs == [] {
      RankNone(objs);
    } else {
      var n := |objs| - 1;
      var init := objs[..n];
      GcsInOrder(ns, init);
      RankTake(objs, n, n);
      ListedIff(objs, n);
      forall i | 0 <= i < |objs|
        ensures InTurn(objs, GcsEntries(ns, objs), i, GcsInfo(ns, objs[i]))
      {
        if i < n {
          RankTake(objs, i, n);
          RankTake(objs, i + 1, n);
          assert InTurn(init, GcsEntries(ns, init), i, GcsInfo(ns, init[i]));
        }
      }
    }
  }

  lemma {:induction false} RankNone(objs: seq<Object>)
    ensures Rank(objs, 0) == 0
  {
  }

  /** Nothing is listed twice. */
  ghost predicate NoRepeat(entries: seq<ObjectInfo>) {
    forall j, k :: 0 <= j < k < |entries| ==> entries[j].path != entries[k].path || entries[j].isDir != entries[k].isDir
  }

  ghost predicate DistinctKeys(objs: seq<Object>) {
    forall i, j :: 0 <= i < j < |objs| ==> objs[i].key != objs[j].key
  }

  /** Distinct keys of the namespace are listed under distinct paths, each once. */
  lemma {:induction false} GcsListedOnce(ns: string, objs: seq<Object>)
    requires DistinctKeys(objs) && forall i :: 0 <= i < |objs| ==> InNamespace(ns, objs[i].key)
    ensures NoRepeat(GcsEntries(ns, objs))
  {
    hide GcsEntries, Rank, PathOf, InNamespace;
    var entries := GcsEntries(ns, objs);
    GcsInOrder(ns, objs);
    forall j, k | 0 <= j < k < |entries|
      ensures entries[j].path != entries[k].path
    {
      var a := RankOnto(objs, |objs|, j);
      var b := RankOnto(objs, |objs|, k);
      assert InTurn(objs, entries, a, GcsInfo(ns, objs[a])) && InTurn(objs, entries, b, GcsInfo(ns, objs[b]));
      PathOfInjective(ns, objs[a].key, objs[b].key);
      assert a != b;
    }
  }

  lemma {:induction false} PathOfInjective(ns: string, k: string, l: string)
    requires InNamespace(ns, k) && InNamespace(ns, l)
    ensures PathOf(ns, k) == PathOf(ns, l) ==> k == l
  {
    hide PathOf, InNamespace;
    KeyRoundTrip(ns, "/", k);
    KeyRoundTrip(ns, "/", l);
  }

  /** The listing holds, in order, one entry for each answer that is not an empty key ending in '/'. */
  method GcsList(ns: string, answers: seq<Fetch<Object>>) returns (r: ListResult)
    ensures r == if AllGot(answers) then Listed(GcsEntries(ns, Values(answers))) else ListError
    ensures AllGot(answers) ==>
      var objs := Values(answers);
      && r.Listed? && |r.entries| == Rank(objs, |objs|)
      && (forall i :: 0 <= i < |objs| ==> InTurn(objs, r.entries, i, GcsInfo(ns, objs[i])))
  {
    if AllGot(answers) {
      GcsInOrder(ns, Values(answers));
    }
    var out: seq<ObjectInfo> := [];
    for i := 0 to |answers|
      invariant AllGot(answers[..i]) && out == GcsEntries(ns, Values(answers[..i]))
    {
      if answers[i].FetchError? {
        return ListError;
      }
      var o := answers[i].value;
      assert Values(answers[..i + 1])[..i] == Values(answers[..i]);
      if !Placeholder(o) {
        out := out + [GcsInfo(ns, o)];
      }
    }
    assert answers[..|answers|] == answers;
    r := Listed(out);
  }

  lemma {:induction false} GcsEntriesAre(ns: string, objs: seq<Object>, e: ObjectInfo)
    ensures e in GcsEntries(ns, objs) <==> exists o :: o in objs && !Placeholder(o) && e == GcsInfo(ns, o)
  {
    if objs != [] {
      var init := objs[..|objs| - 1];
      GcsEntriesAre(ns, init, e);
    }
  }

  /* ---------- S3 ---------- */

  function S3DirInfo(ns: string, prefix: string): ObjectInfo {
    var p := TrimPrefix(prefix, ns + "/");
    ObjectInfo("/" + if EndsSlash(p) then p[..|p| - 1] else p, 0, true)
  }

  function S3FileInfo(ns: string, o: Object): ObjectInfo {
    ObjectInfo("/" + TrimPrefix(o.key, ns + "/"), o.size, false)
  }

  function S3Dirs(ns: string, prefixes: seq<string>): seq<ObjectInfo> {
    seq(|prefixes|, i requires 0 <= i < |prefixes| => S3DirInfo(ns, prefixes[i]))
  }

  function S3Files(ns: string, objs: seq<Object>): seq<ObjectInfo> {
    if objs == [] then []
    else
      var last := objs[|objs| - 1];
      S3Files(ns, objs[..|objs| - 1]) + if Placeholder(last) then [] else [S3FileInfo(ns, last)]
  }

  function S3Entries(ns: string, pages: seq<Page>): seq<ObjectInfo> {
    if pages == [] then []
    else
      var last := pages[|pages| - 1];
      S3Entries(ns, pages[..|pages| - 1]) + S3Dirs(ns, last.prefixes) + S3Files(ns, last.contents)
  }

  method AppendPage(ns: string, page: Page, before: seq<ObjectInfo>) returns (out: seq<ObjectInfo>)
    ensures out == before + S3Dirs(ns, page.prefixes) + S3Files(ns, page.contents)
  {
    out := before;
    for j := 0 to |page.prefixes|
      invariant out == before + S3Dirs(ns, page.prefixes[..j])
    {
      out := out + [S3DirInfo(ns, page.prefixes[j])];
      assert S3Dirs(ns, page.prefixes[..j + 1]) == S3Dirs(ns, page.prefixes[..j]) + [S3DirInfo(ns, page.prefixes[j])];
    }
    assert page.prefixes[..|page.prefixes|] == page.prefixes;
    ghost var dirs := out;
    for j := 0 to |page.contents|
      invariant out == dirs + S3Files(ns, page.contents[..j])
    {
      var o := page.contents[j];
      assert page.contents[..j + 1][..j] == page.contents[..j];
      if !Placeholder(o) {
        out := out + [S3FileInfo(ns, o)];
      }
    }
    assert page.contents[..|page.contents|] == page.contents;
  }

  lemma {:induction false} S3FilesInOrder(ns: string, objs: seq<Object>)
    ensures |S3Files(ns, objs)| == Rank(objs, |objs|)
    ensures forall i :: 0 <= i < |objs| ==> InTurn(objs, S3Files(ns, objs), i, S3FileInfo(ns, objs[i]))
  {
    hide S3FileInfo, Rank, Placeholder;
    if objs == [] {
      RankNone(objs);
    } else {
      var n := |objs| - 1;
      var init := objs[..n];
      S3FilesInOrder(ns, init);
      RankTake(objs, n, n);
      ListedIff(objs, n);
      forall i | 0 <= i < |objs|
        ensures InTurn(objs, S3Files(ns, objs), i, S3FileInfo(ns, objs[i]))
      {
        if i < n {
          RankTake(objs, i, n);
          RankTake(objs, i + 1, n);
          assert InTurn(init, S3Files(ns, init), i, S3FileInfo(ns, init[i]));
        }
      }
    }
  }

  /** How many entries the first n pages have. */
  function Offset(pages: seq<Page>, n: nat): nat
    requires n <= |pages|
  {
    if n == 0 then 0
    else Offset(pages, n - 1) + |pages[n - 1].prefixes| + Rank(pages[n - 1].contents, |pages[n - 1].contents|)
  }

  /** Page i is listed in its turn: an entry for each prefix, then one for each object that is not an
      empty key ending in '/'. */
  ghost predicate PageInTurn(ns: string, pages: seq<Page>, entries: seq<ObjectInfo>, i: nat)
    requires i < |pages|
  {
    var page, from, to := pages[i], Offset(pages, i), Offset(pages, i + 1);
    && from + |page.prefixes| <= to <= |entries|
    && (forall j :: 0 <= j < |page.prefixes| ==> entries[from + j] == S3DirInfo(ns, page.prefixes[j]))
    && (forall j :: 0 <= j < |page.contents| ==>
          InTurn(page.contents, entries[from + |page.prefixes|..to], j, S3FileInfo(ns, page.contents[j])))
  }

  lemma {:induction false} OffsetTake(pages: seq<Page>, n: nat, k: nat)
    requires n <= k <= |pages|
    ensures Offset(pages[..k], n) == Offset(pages, n)
  {
    if n > 0 {
      OffsetTake(pages, n - 1, k);
    }
  }

  lemma {:induction false} S3InOrder(ns: string, pages: seq<Page>)
    ensures |S3Entries(ns, pages)| == Offset(pages, |pages|)
    ensures forall i :: 0 <= i < |pages| ==> PageInTurn(ns, pages, S3Entries(ns, pages), i)
  {
    hide S3DirInfo, S3FileInfo, Rank, S3Files, InTurn;
    if pages != [] {
      var n := |pages| - 1;
      var init, last := pages[..n], pages[n];
      var before, dirs, files := S3Entries(ns, init), S3Dirs(ns, last.prefixes), S3Files(ns, last.contents);
      S3InOrder(ns, init);
      S3FilesInOrder(ns, last.contents);
      OffsetTake(pages, n, n);
      var entries := S3Entries(ns, pages);
      assert entries == before + dirs + files;
      forall i | 0 <= i < |pages|
        ensures PageInTurn(ns, pages, entries, i)
      {
        if i < n {
          OffsetTake(pages, i, n);
          OffsetTake(pages, i + 1, n);
          assert PageInTurn(ns, init, before, i);
          PageLater(ns, pages, before, dirs + files, i);
          assert before + (dirs + files) == entries;
        } else {
          assert entries[|before| + |dirs|..] == files;
          assert entries[|before| + |dirs|..|entries|] == files;
        }
      }
    }
  }

  lemma {:induction false} PageLater(ns: string, pages: seq<Page>, entries: seq<ObjectInfo>, more: seq<ObjectInfo>, i: nat)
    requires i < |pages| - 1 && PageInTurn(ns, pages[..|pages| - 1], entries, i)
    requires Offset(pages[..|pages| - 1], i) == Offset(pages, i)
    requires Offset(pages[..|pages| - 1], i + 1) == Offset(pages, i + 1)
    ensures PageInTurn(ns, pages, entries + more, i)
  {
    hide S3DirInfo, S3FileInfo, Rank, InTurn;
    var page, from, to := pages[i], Offset(pages, i), Offset(pages, i + 1);
    assert (entries + more)[from + |page.prefixes|..to] == entries[from + |page.prefixes|..to];
  }

  /** The listing holds, page by page and in order, one entry for each prefix and one for each object
      that is not an empty key ending in '/'. */
  method S3List(ns: string, answers: seq<Fetch<Page>>) returns (r: ListResult)
    ensures r == if AllGot(answers) then Listed(S3Entries(ns, Values(answers))) else ListError
    ensures AllGot(answers) ==>
      var pages := Values(answers);
      && r.Listed? && |r.entries| == Offset(pages, |pages|)
      && (forall i :: 0 <= i < |pages| ==> PageInTurn(ns, pages, r.entries, i))
  {
    hide S3Dirs, S3Files, PageInTurn, Offset;
    if AllGot(answers) {
      S3InOrder(ns, Values(answers));
    }
    var out: seq<ObjectInfo> := [];
    for i := 0 to |answers|
      invariant AllGot(answers[..i]) && out == S3Entries(ns, Values(answers[..i]))
    {
      if answers[i].FetchError? {
        return ListError;
      }
      assert Values(answers[..i + 1])[..i] == Values(answers[..i]);
      out := AppendPage(ns, answers[i].value, out);
    }
    assert answers[..|answers|] == answers;
    r := Listed(out);
  }

  lemma {:induction false} S3FilesAre(ns: string, objs: seq<Object>, e: ObjectInfo)
    ensures e in S3Files(ns, objs) <==> exists o :: o in objs && !Placeholder(o) && e == S3FileInfo(ns, o)
  {
    if objs != [] {
      var init := objs[..|objs| - 1];
      S3FilesAre(ns, init, e);
    }
  }

  predicate Contents(pages: seq<Page>, o: Object) {
    exists page :: page in pages && o in page.contents
  }

  predicate Prefixes(pages: seq<Page>, c: string) {
    exists page :: page in pages && c in page.prefixes
  }

  lemma {:induction false} S3EntriesAre(ns: string, pages: seq<Page>, e: ObjectInfo)
    ensures e in S3Entries(ns, pages) <==>
      (exists c :: Prefixes(pages, c) && e == S3DirInfo(ns, c)) ||
      (exists o :: Contents(pages, o) && !Placeholder(o) && e == S3FileInfo(ns, o))
  {
    if pages != [] {
      var init, last := pages[..|pages| - 1], pages[|pages| - 1];
      assert pages == init + [last];
      S3EntriesAre(ns, init, e);
      S3FilesAre(ns, last.contents, e);
      S3PageAre(ns, init, last, e);
    }
  }

  lemma {:induction false} S3PageAre(ns: string, init: seq<Page>, last: Page, e: ObjectInfo)
    requires e in S3Files(ns, last.contents) <==>
      exists o :: o in last.contents && !Placeholder(o) && e == S3FileInfo(ns, o)
    ensures (exists c :: Prefixes(init + [last], c) && e == S3DirInfo(ns, c)) <==>
      (exists c :: Prefixes(init, c) && e == S3DirInfo(ns, c)) || e in S3Dirs(ns, last.prefixes)
    ensures (exists o :: Contents(init + [last], o) && !Placeholder(o) && e == S3FileInfo(ns, o)) <==>
      (exists o :: Contents(init, o) && !Placeholder(o) && e == S3FileInfo(ns, o)) || e in S3Files(ns, last.contents)
  {
    if e in S3Dirs(ns, last.prefixes) {
      var i :| 0 <= i < |last.prefixes| && S3Dirs(ns, last.prefixes)[i] == e;
    }
    forall c | c in last.prefixes
      ensures S3DirInfo(ns, c) in S3Dirs(ns, last.prefixes)
    {
      var i :| 0 <= i < |last.prefixes| && last.prefixes[i] == c;
      assert S3Dirs(ns, last.prefixes)[i] == S3DirInfo(ns, c);
    }
  }

  /* ---------- nothing twice ---------- */

  predicate AtPrefix(pages: seq<Page>, i: int, j: int) {
    0 <= i < |pages| && 0 <= j < |pages[i].prefixes|
  }

  predicate AtObject(pages: seq<Page>, i: int, j: int) {
    0 <= i < |pages| && 0 <= j < |pages[i].contents|
  }

  /** No prefix and no key comes twice, on one page or on two. */
  ghost predicate DistinctPages(pages: seq<Page>) {
    && (forall i, j, k, l :: AtPrefix(pages, i, j) && AtPrefix(pages, k, l) && (i, j) != (k, l) ==>
          pages[i].prefixes[j] != pages[k].prefixes[l])
    && (forall i, j, k, l :: AtObject(pages, i, j) && AtObject(pages, k, l) && (i, j) != (k, l) ==>
          pages[i].contents[j].key != pages[k].contents[l].key)
  }

  /** Everything on the pages is in the namespace; prefixes end in '/' and lie below it. */
  ghost predicate PagesIn(ns: string, pages: seq<Page>) {
    && (forall i, j :: AtPrefix(pages, i, j) ==>
          var c := pages[i].prefixes[j]; InNamespace(ns, c) && EndsSlash(c) && (ns != "" ==> c != ns + "/"))
    && (forall i, j :: AtObject(pages, i, j) ==> InNamespace(ns, pages[i].contents[j].key))
  }

  /** Two names that S3 lists under one path: in an empty namespace a leading slash is dropped. */
  predicate Twins(ns: string, k: string, l: string) {
    ns == "" && !Rooted(k) && l == "/" + k
  }

  predicate DirTwins(ns: string, c: string, d: string) {
    ns == "" && (!Rooted(c) || c == "/") && d == "/" + c
  }

  lemma {:induction false} FilePathsEqualIff(ns: string, o: Object, p: Object)
    requires InNamespace(ns, o.key) && InNamespace(ns, p.key)
    ensures S3FileInfo(ns, o).path == S3FileInfo(ns, p).path <==>
      o.key == p.key || Twins(ns, o.key, p.key) || Twins(ns, p.key, o.key)
  {
    var a, b := TrimPrefix(o.key, ns + "/"), TrimPrefix(p.key, ns + "/");
    assert S3FileInfo(ns, o).path[1..] == a && S3FileInfo(ns, p).path[1..] == b;
    TrimmedIs(ns, o.key);
    TrimmedIs(ns, p.key);
  }

  /** What trimming the namespace leaves, and what it was cut from. */
  lemma {:induction false} TrimmedIs(ns: string, k: string)
    requires InNamespace(ns, k)
    ensures ns != "" ==> k == ns + "/" + TrimPrefix(k, ns + "/")
    ensures ns == "" && Rooted(k) ==> k == "/" + TrimPrefix(k, ns + "/")
    ensures ns == "" && !Rooted(k) ==> k == TrimPrefix(k, ns + "/")
  {
    assert ns == "" ==> ns + "/" == "/";
  }

  lemma {:induction false} DirPathsEqualIff(ns: string, c: string, d: string)
    requires InNamespace(ns, c) && InNamespace(ns, d) && EndsSlash(c) && EndsSlash(d)
    requires ns != "" ==> c != ns + "/" && d != ns + "/"
    ensures S3DirInfo(ns, c).path == S3DirInfo(ns, d).path <==> c == d || DirTwins(ns, c, d) || DirTwins(ns, d, c)
  {
    hide S3DirInfo, TrimPrefix;
    var a, b := TrimPrefix(c, ns + "/"), TrimPrefix(d, ns + "/");
    var p, q := S3DirInfo(ns, c).path, S3DirInfo(ns, d).path;
    TrimmedIs(ns, c);
    TrimmedIs(ns, d);
    DirPathIs(ns, c);
    DirPathIs(ns, d);
    assert ("/" + a)[1..] == a && ("/" + b)[1..] == b;
    assert p == (p + "/")[..|p|] && q == (q + "/")[..|q|];
    assert "/" + "/" == "//";
  }

  lemma {:induction false} DirPathIs(ns: string, c: string)
    requires InNamespace(ns, c) && EndsSlash(c)
    ensures
      var t := TrimPrefix(c, ns + "/");
      && (t == "" || EndsSlash(t))
      && (t == "" ==> S3DirInfo(ns, c).path == "/")
      && (t != "" ==> S3DirInfo(ns, c).path + "/" == "/" + t)
  {
    TrimmedIs(ns, c);
    var t := TrimPrefix(c, ns + "/");
    if t != "" {
      assert t[|t| - 1] == c[|c| - 1];
      assert t == t[..|t| - 1] + "/";
    }
  }

  /** No two prefixes and no two objects to be listed are twins. */
  ghost predicate NoTwins(ns: string, pages: seq<Page>) {
    && (forall i, j, k, l :: AtPrefix(pages, i, j) && AtPrefix(pages, k, l) ==>
          !DirTwins(ns, pages[i].prefixes[j], pages[k].prefixes[l]))
    && (forall i, j, k, l :: AtObject(pages, i, j) && AtObject(pages, k, l) ==>
          Placeholder(pages[i].contents[j]) || Placeholder(pages[k].contents[l]) ||
          !Twins(ns, pages[i].contents[j].key, pages[k].contents[l].key))
  }

  lemma {:induction false} OffsetGrows(pages: seq<Page>, i: nat, j: nat)
    requires i <= j <= |pages|
    ensures Offset(pages, i) <= Offset(pages, j)
    decreases j
  {
    if i < j {
      OffsetGrows(pages, i, j - 1);
    }
  }

  lemma {:induction false} OffsetOnto(pages: seq<Page>, n: nat, e: nat) returns (i: nat)
    requires n <= |pages| && e < Offset(pages, n)
    ensures i < n && Offset(pages, i) <= e < Offset(pages, i + 1)
  {
    if e >= Offset(pages, n - 1) {
      i := n - 1;
    } else {
      i := OffsetOnto(pages, n - 1, e);
    }
  }

  function DirIndex(pages: seq<Page>, i: int, j: int): nat
    requires AtPrefix(pages, i, j)
  {
    Offset(pages, i) + j
  }

  function FileIndex(pages: seq<Page>, i: int, j: int): nat
    requires AtObject(pages, i, j)
  {
    Offset(pages, i) + |pages[i].prefixes| + Rank(pages[i].contents, j)
  }

  /** Where the entries of a prefix and of an object are. */
  lemma {:induction false} EntriesAt(ns: string, pages: seq<Page>, i: int, j: int)
    ensures AtPrefix(pages, i, j) ==>
      DirIndex(pages, i, j) < |S3Entries(ns, pages)| &&
      S3Entries(ns, pages)[DirIndex(pages, i, j)] == S3DirInfo(ns, pages[i].prefixes[j])
    ensures AtObject(pages, i, j) && !Placeholder(pages[i].contents[j]) ==>
      FileIndex(pages, i, j) < |S3Entries(ns, pages)| &&
      S3Entries(ns, pages)[FileIndex(pages, i, j)] == S3FileInfo(ns, pages[i].contents[j])
  {
    hide S3Entries, S3DirInfo, S3FileInfo, Rank, Offset, Placeholder;
    if 0 <= i < |pages| {
      S3InOrder(ns, pages);
      var page, entries := pages[i], S3Entries(ns, pages);
      assert PageInTurn(ns, pages, entries, i);
      if AtObject(pages, i, j) {
        ListedIff(page.contents, j);
        var from, to := Offset(pages, i) + |page.prefixes|, Offset(pages, i + 1);
        assert InTurn(page.contents, entries[from..to], j, S3FileInfo(ns, page.contents[j]));
      }
    }
  }

  /** Whose entry the e-th one is. */
  lemma {:induction false} EntryIs(ns: string, pages: seq<Page>, e: nat) returns (dir: bool, i: nat, j: nat)
    requires e < |S3Entries(ns, pages)|
    ensures dir ==> AtPrefix(pages, i, j) && e == DirIndex(pages, i, j)
    ensures !dir ==> AtObject(pages, i, j) && !Placeholder(pages[i].contents[j]) && e == FileIndex(pages, i, j)
  {
    hide S3Entries, Rank, Placeholder, PageInTurn;
    S3InOrder(ns, pages);
    i := OffsetOnto(pages, |pages|, e);
    var page := pages[i];
    var r := e - Offset(pages, i);
    dir := r < |page.prefixes|;
    if dir {
      j := r;
    } else {
      j := RankOnto(page.contents, |page.contents|, r - |page.prefixes|);
      ListedIff(page.contents, j);
    }
  }

  /** Different prefixes, and different objects to be listed, have different entries. */
  lemma {:induction false} IndexesDiffer(pages: seq<Page>, i: int, j: int, k: int, l: int)
    requires i < k || (i == k && j < l)
    ensures AtPrefix(pages, i, j) && AtPrefix(pages, k, l) ==> DirIndex(pages, i, j) < DirIndex(pages, k, l)
    ensures AtObject(pages, i, j) && AtObject(pages, k, l) && !Placeholder(pages[i].contents[j]) ==>
      FileIndex(pages, i, j) < FileIndex(pages, k, l)
  {
    hide Rank, Placeholder;
    if 0 <= i < k < |pages| {
      OffsetGrows(pages, i + 1, k);
    }
    if AtObject(pages, i, j) && AtObject(pages, k, l) {
      var objs := pages[i].contents;
      ListedIff(objs, j);
      RankGrows(objs, j + 1, if i == k then l else |objs|);
    }
  }

  /** For distinct prefixes and keys of the namespace, S3 lists nothing twice exactly when there are no
      twins; in a namespace that is not empty there are none. */
  lemma {:induction false} S3ListedOnceIff(ns: string, pages: seq<Page>)
    requires DistinctPages(pages) && PagesIn(ns, pages)
    ensures NoRepeat(S3Entries(ns, pages)) <==> NoTwins(ns, pages)
    ensures ns != "" ==> NoTwins(ns, pages)
  {
    if NoTwins(ns, pages) {
      S3ListedOnce(ns, pages);
    } else {
      TwinsRepeat(ns, pages);
    }
  }

  lemma {:induction false} S3ListedOnce(ns: string, pages: seq<Page>)
    requires DistinctPages(pages) && PagesIn(ns, pages) && NoTwins(ns, pages)
    ensures NoRepeat(S3Entries(ns, pages))
  {
    hide S3Entries, S3DirInfo, S3FileInfo, Twins, DirTwins, Placeholder, InNamespace, EndsSlash, DirIndex, FileIndex;
    var entries := S3Entries(ns, pages);
    forall e, f | 0 <= e < f < |entries|
      ensures entries[e].path != entries[f].path || entries[e].isDir != entries[f].isDir
    {
      var dir, i, j := EntryIs(ns, pages, e);
      var dir', k, l := EntryIs(ns, pages, f);
      EntriesAt(ns, pages, i, j);
      EntriesAt(ns, pages, k, l);
      assert (i, j) != (k, l) || dir != dir';
      if dir && dir' {
        DirPathsEqualIff(ns, pages[i].prefixes[j], pages[k].prefixes[l]);
      } else if !dir && !dir' {
        FilePathsEqualIff(ns, pages[i].contents[j], pages[k].contents[l]);
      } else if dir {
        InfoKinds(ns, pages[i].prefixes[j], pages[k].contents[l]);
      } else {
        InfoKinds(ns, pages[k].prefixes[l], pages[i].contents[j]);
      }
    }
  }

  lemma {:induction false} InfoKinds(ns: string, c: string, o: Object)
    ensures S3DirInfo(ns, c).isDir && !S3FileInfo(ns, o).isDir
  {
  }

  lemma {:induction false} TwinsRepeat(ns: string, pages: seq<Page>)
    requires PagesIn(ns, pages) && !NoTwins(ns, pages)
    ensures ns == "" && !NoRepeat(S3Entries(ns, pages))
  {
    hide S3Entries, S3DirInfo, S3FileInfo, Placeholder, InNamespace, EndsSlash, DirIndex, FileIndex;
    var e, f: nat;
    if i, j, k, l :| AtPrefix(pages, i, j) && AtPrefix(pages, k, l) && DirTwins(ns, pages[i].prefixes[j], pages[k].prefixes[l]) {
      var c, d := pages[i].prefixes[j], pages[k].prefixes[l];
      DirPathsEqualIff(ns, c, d);
      EntriesAt(ns, pages, i, j);
      EntriesAt(ns, pages, k, l);
      e, f := DirIndex(pages, i, j), DirIndex(pages, k, l);
      assert |c| < |d|;
      if i < k || (i == k && j < l) { IndexesDiffer(pages, i, j, k, l); } else { IndexesDiffer(pages, k, l, i, j); }
      InfoKinds(ns, c, Object("", 0));
      InfoKinds(ns, d, Object("", 0));
    } else {
      var i, j, k, l :| AtObject(pages, i, j) && AtObject(pages, k, l) &&
        !Placeholder(pages[i].contents[j]) && !Placeholder(pages[k].contents[l]) &&
        Twins(ns, pages[i].contents[j].key, pages[k].contents[l].key);
      var o, p := pages[i].contents[j], pages[k].contents[l];
      FilePathsEqualIff(ns, o, p);
      EntriesAt(ns, pages, i, j);
      EntriesAt(ns, pages, k, l);
      e, f := FileIndex(pages, i, j), FileIndex(pages, k, l);
      assert |o.key| < |p.key|;
      if i < k || (i == k && j < l) { IndexesDiffer(pages, i, j, k, l); } else { IndexesDiffer(pages, k, l, i, j); }
      InfoKinds(ns, "", o);
      InfoKinds(ns, "", p);
    }
    var entries := S3Entries(ns, pages);
    assert entries[e].path == entries[f].path && entries[e].isDir == entries[f].isDir && e != f;
  }

  /** The objects "a" and "/a" of an empty namespace are both listed as "/a". */
  lemma {:induction false} S3ListsTwice(n: nat, m: nat)
    requires n > 0 && m > 0
    ensures S3Entries("", [Page([], [Object("a", n), Object("/a", m)])]) ==
      [ObjectInfo("/a", n, false), ObjectInfo("/a", m, false)]
  {
    var a, b := Object("a", n), Object("/a", m);
    var page := Page([], [a, b]);
    assert [page][..0] == [] && [a, b][..1] == [a] && [a][..0] == [];
    assert "" + "/" == "/" && "/a"[1..] == "a" && "a"[0] != '/';
    assert S3FileInfo("", a) == ObjectInfo("/a", n, false) && S3FileInfo("", b) == ObjectInfo("/a", m, false);
    assert S3Files("", [a]) == [S3FileInfo("", a)];
    assert S3Files("", [a, b]) == [S3FileInfo("", a)] + [S3FileInfo("", b)];
  }

  /* ---------- what the servers answer ---------- */

  /** A query by prefix returns exactly the objects whose key starts with it. */
  ghost predicate GcsServes(objs: seq<Object>, m: Blobs, kp: string) {
    forall o :: o in objs <==> o.key in m && kp <= o.key && o.size == |m[o.key]|
  }

  /** With delimiter "/" the server returns the objects with no further slash, and one prefix for
      each first segment of the others; however it pages them. */
  ghost predicate S3Serves(pages: seq<Page>, m: Blobs, kp: string) {
    && (forall o :: Contents(pages, o) <==>
          o.key in m && kp <= o.key && NoSlash(o.key[|kp|..]) && o.size == |m[o.key]|)
    && (forall c :: Prefixes(pages, c) <==>
          exists k :: k in m && kp <= k && !NoSlash(k[|kp|..]) && c == kp + Split(k[|kp|..])[0] + "/")
  }

  /* ---------- agreement ---------- */

  predicate Under(dir: string, path: string) {
    dir + "/" <= path
  }

  /** A key with everything the listing of one directory relies on: it starts with the query prefix,
      and it is in the namespace. */
  ghost predicate Below(ns: string, kp: string, k: string) {
    kp <= k && InNamespace(ns, kp) && (ns == "" ==> !Rooted(k))
  }

  lemma {:induction false} KeyPrefixInNamespace(ns: string, dir: string)
    ensures InNamespace(ns, KeyPrefix(ns, dir))
  {
  }

  lemma {:induction false} FirstSegment(seg: string, rest: string)
    requires NoSlash(seg)
    ensures seg + "/" <= rest <==> !NoSlash(rest) && Split(rest)[0] == seg
  {
    JoinSplit(rest);
    if seg + "/" <= rest {
      var tail := rest[|seg| + 1..];
      assert rest == seg + "/" + tail;
      SplitSlash(seg, tail);
      SplitNoSlash(seg);
    } else if |Split(rest)| == 1 {
      assert rest == Split(rest)[0];
    }
  }

  /** How long the namespace part of a key is. */
  function NsLen(ns: string): nat {
    if ns == "" then 0 else |ns| + 1
  }

  lemma {:induction false} DirInfoPath(ns: string, kp: string, seg: string)
    requires InNamespace(ns, kp) && (ns == "" ==> !Rooted(kp + seg + "/"))
    ensures NsLen(ns) <= |kp|
    ensures S3DirInfo(ns, kp + seg + "/").path + "/" == "/" + (kp + seg + "/")[NsLen(ns)..]
  {
    var p := (kp + seg + "/")[NsLen(ns)..];
    assert TrimPrefix(kp + seg + "/", ns + "/") == p;
    assert p == p[..|p| - 1] + "/";
  }

  /** The directory a key is grouped under is the only one its path lies under. */
  lemma {:induction false} UnderIff(ns: string, kp: string, seg: string, o: Object)
    requires Below(ns, kp, o.key) && NoSlash(seg)
    requires ns == "" ==> !Rooted(kp + seg + "/")
    ensures Under(S3DirInfo(ns, kp + seg + "/").path, GcsInfo(ns, o).path) <==>
      !NoSlash(o.key[|kp|..]) && Split(o.key[|kp|..])[0] == seg
  {
    hide Split, S3DirInfo, Under, GcsInfo;
    var c, k := kp + seg + "/", o.key;
    UnderKey(ns, kp, seg, o);
    assert c == kp + (seg + "/") && k == kp + k[|kp|..];
    PrefixShift(kp, seg + "/", k[|kp|..]);
    FirstSegment(seg, k[|kp|..]);
  }

  lemma {:induction false} UnderKey(ns: string, kp: string, seg: string, o: Object)
    requires Below(ns, kp, o.key) && NoSlash(seg)
    requires ns == "" ==> !Rooted(kp + seg + "/")
    ensures Under(S3DirInfo(ns, kp + seg + "/").path, GcsInfo(ns, o).path) <==> kp + seg + "/" <= o.key
  {
    hide Split, S3DirInfo;
    var c, k, n := kp + seg + "/", o.key, NsLen(ns);
    DirInfoPath(ns, kp, seg);
    assert GcsInfo(ns, o).path == "/" + k[n..];
    PrefixShift("/", c[n..], k[n..]);
    assert c == c[..n] + c[n..] && k == c[..n] + k[n..];
    PrefixShift(c[..n], c[n..], k[n..]);
  }

  lemma {:induction false} PrefixShift(a: string, s: string, t: string)
    ensures a + s <= a + t <==> s <= t
  {
    assert (a + s)[|a|..] == s && (a + t)[|a|..] == t;
    if a + s <= a + t {
      assert forall i :: 0 <= i < |s| ==> s[i] == (a + s)[|a| + i] == (a + t)[|a| + i] == t[i];
    }
  }

  /** e is listed as a file of the directory itself, or lies under exactly one listed directory. */
  ghost predicate FoundOnce(entries: seq<ObjectInfo>, e: ObjectInfo) {
    if e in entries
    then forall d :: d in entries && d.isDir ==> !Under(d.path, e.path)
    else exists d :: d in entries && OnlyAbove(entries, d, e)
  }

  ghost predicate OnlyAbove(entries: seq<ObjectInfo>, d: ObjectInfo, e: ObjectInfo) {
    d.isDir && Under(d.path, e.path) &&
    forall d' :: d' in entries && d'.isDir && Under(d'.path, e.path) ==> d' == d
  }

  /** For one bucket and any directory: each object GCS lists is either listed by S3 too, as a file,
      and lies under no S3 directory, or it lies under exactly one directory S3 lists; and every
      file S3 lists GCS lists too. */
  lemma {:induction false} ListingsAgree(
    ns: string, dir: string, m: Blobs, objs: seq<Object>, pages: seq<Page>, e: ObjectInfo)
    requires ns == "" ==> forall k :: k in m ==> !Rooted(k)
    requires GcsServes(objs, m, KeyPrefix(ns, dir)) && S3Serves(pages, m, KeyPrefix(ns, dir))
    ensures e in GcsEntries(ns, objs) ==> FoundOnce(S3Entries(ns, pages), e)
    ensures e in S3Entries(ns, pages) && !e.isDir ==> e in GcsEntries(ns, objs)
  {
    hide GcsEntries, S3Entries, Split, FoundOnce;
    var kp := KeyPrefix(ns, dir);
    KeyPrefixInNamespace(ns, dir);
    GcsEntriesAre(ns, objs, e);
    S3EntriesAre(ns, pages, e);
    if e in S3Entries(ns, pages) && !e.isDir {
      var o :| Contents(pages, o) && !Placeholder(o) && e == S3FileInfo(ns, o);
    }
    if e in GcsEntries(ns, objs) {
      var o :| o in objs && !Placeholder(o) && e == GcsInfo(ns, o);
      ObjectFoundOnce(ns, kp, m, pages, o);
    }
  }

  lemma {:induction false} ObjectFoundOnce(ns: string, kp: string, m: Blobs, pages: seq<Page>, o: Object)
    requires InNamespace(ns, kp) && S3Serves(pages, m, kp) && o.key in m && kp <= o.key && o.size == |m[o.key]|
    requires ns == "" ==> forall k :: k in m ==> !Rooted(k)
    requires !Placeholder(o)
    ensures FoundOnce(S3Entries(ns, pages), GcsInfo(ns, o))
  {
    hide S3Entries, Split, S3DirInfo, Under;
    var e := GcsInfo(ns, o);
    forall d | d in S3Entries(ns, pages) && d.isDir
      ensures Under(d.path, e.path) <==>
        !NoSlash(o.key[|kp|..]) && d == S3DirInfo(ns, kp + Split(o.key[|kp|..])[0] + "/")
    {
      DirAbove(ns, kp, m, pages, o, d);
    }
    if NoSlash(o.key[|kp|..]) {
      S3EntriesAre(ns, pages, e);
    } else {
      var c := kp + Split(o.key[|kp|..])[0] + "/";
      var d := S3DirInfo(ns, c);
      S3EntriesAre(ns, pages, d);
      DirIsDir(ns, c);
      FileIsGrouped(ns, kp, m, pages, o);
    }
  }

  lemma {:induction false} DirIsDir(ns: string, c: string)
    ensures S3DirInfo(ns, c).isDir && S3DirInfo(ns, c).size == 0
  {
  }

  /** A prefix the server groups under starts some key. */
  lemma {:induction false} GroupStartsKey(kp: string, k: string)
    requires kp <= k && !NoSlash(k[|kp|..])
    ensures NoSlash(Split(k[|kp|..])[0]) && kp + Split(k[|kp|..])[0] + "/" <= k
  {
    JoinSplit(k[|kp|..]);
  }

  /** A directory S3 lists contains the object's path exactly when the object was grouped there. */
  lemma {:induction false} DirAbove(ns: string, kp: string, m: Blobs, pages: seq<Page>, o: Object, d: ObjectInfo)
    requires InNamespace(ns, kp) && S3Serves(pages, m, kp) && o.key in m && kp <= o.key
    requires ns == "" ==> forall k :: k in m ==> !Rooted(k)
    requires d in S3Entries(ns, pages) && d.isDir
    ensures Under(d.path, GcsInfo(ns, o).path) <==>
      !NoSlash(o.key[|kp|..]) && d == S3DirInfo(ns, kp + Split(o.key[|kp|..])[0] + "/")
  {
    hide S3Entries, Split, S3DirInfo, Under;
    S3EntriesAre(ns, pages, d);
    var c :| Prefixes(pages, c) && d == S3DirInfo(ns, c);
    var k :| k in m && kp <= k && !NoSlash(k[|kp|..]) && c == kp + Split(k[|kp|..])[0] + "/";
    GroupStartsKey(kp, k);
    UnderIff(ns, kp, Split(k[|kp|..])[0], o);
    if !NoSlash(o.key[|kp|..]) {
      GroupStartsKey(kp, o.key);
      UnderIff(ns, kp, Split(o.key[|kp|..])[0], o);
    }
  }

  lemma {:induction false} FileIsGrouped(ns: string, kp: string, m: Blobs, pages: seq<Page>, o: Object)
    requires InNamespace(ns, kp) && S3Serves(pages, m, kp) && o.key in m && kp <= o.key && !NoSlash(o.key[|kp|..])
    requires ns == "" ==> forall k :: k in m ==> !Rooted(k)
    ensures GcsInfo(ns, o) !in S3Entries(ns, pages)
  {
    hide S3Entries, Split, S3DirInfo;
    assert forall c :: S3DirInfo(ns, c).isDir by {
      forall c ensures S3DirInfo(ns, c).isDir { DirIsDir(ns, c); }
    }
    S3EntriesAre(ns, pages, GcsInfo(ns, o));
    forall f | Contents(pages, f)
      ensures S3FileInfo(ns, f) != GcsInfo(ns, o)
    {
      if GcsInfo(ns, f).path == GcsInfo(ns, o).path {
        KeyRoundTrip(ns, "/", f.key);
        KeyRoundTrip(ns, "/", o.key);
      }
    }
  }

  /* ---------- GCS listings over the plain map ---------- */

  function DirSlash(dir: string): string {
    if EndsSlash(dir) then dir else dir + "/"
  }

  lemma {:induction false} KeyParts(ns: string, p: string)
    requires Rooted(p)
    ensures Key(ns, p) == NsPart(ns) + p[1..]
  {
    assert TrimPrefix(p, "/") == p[1..];
  }

  lemma {:induction false} KeyPrefixParts(ns: string, dir: string)
    requires Rooted(dir) && !("//" <= dir)
    ensures KeyPrefix(ns, dir) == NsPart(ns) + DirSlash(dir)[1..]
  {
    var d := dir[1..];
    assert dir == "/" + d && TrimPrefix(dir, "/") == d;
    assert TrimPrefix(d, "/") == d by {
      assert d != "" && d[0] == '/' ==> "//" <= dir;
    }
    assert Key(ns, d) == NsPart(ns) + d;
    if d == "" {
      assert DirSlash(dir) == "/" && Key(ns, d) == NsPart(ns);
    } else {
      assert EndsSlash(Key(ns, d)) == EndsSlash(d) == EndsSlash(dir);
      assert (dir + "/")[1..] == d + "/";
    }
  }

  lemma {:induction false} PrefixIffBelow(ns: string, dir: string, p: string)
    requires Rooted(dir) && !("//" <= dir) && Rooted(p)
    ensures KeyPrefix(ns, dir) <= Key(ns, p) <==> DirSlash(dir) <= p
  {
    hide Key, KeyPrefix;
    var ds, q := DirSlash(dir)[1..], p[1..];
    KeyParts(ns, p);
    KeyPrefixParts(ns, dir);
    assert DirSlash(dir) == "/" + ds && p == "/" + q;
    PrefixShift("/", ds, q);
    PrefixShift(NsPart(ns), ds, q);
  }

  /** GCS List of a normalized directory returns exactly the files below it, with their original
      paths and sizes, except empty ones whose path ends in "/". */
  lemma {:induction false} GcsListExact(
    ns: string, dir: string, m: Blobs, files: Blobs, objs: seq<Object>, e: ObjectInfo)
    requires Rooted(dir) && !("//" <= dir)
    requires Represents(ns, m, files) && GcsServes(objs, m, KeyPrefix(ns, dir))
    ensures e in GcsEntries(ns, objs) <==>
      e.path in files && DirSlash(dir) <= e.path && e == ObjectInfo(e.path, |files[e.path]|, false) &&
      !(EndsSlash(e.path) && files[e.path] == [])
  {
    GcsEntriesAre(ns, objs, e);
    KeyPrefixInNamespace(ns, dir);
    if e in GcsEntries(ns, objs) {
      var o :| o in objs && !Placeholder(o) && e == GcsInfo(ns, o);
      assert InNamespace(ns, o.key) by {
        assert KeyPrefix(ns, dir) <= o.key;
      }
      KeyRoundTrip(ns, "/", o.key);
      PrefixIffBelow(ns, dir, e.path);
      SlashesMatch(ns, e.path);
    }
    if e.path in files && DirSlash(dir) <= e.path && e == ObjectInfo(e.path, |files[e.path]|, false) &&
       !(EndsSlash(e.path) && files[e.path] == []) {
      var o := Object(Key(ns, e.path), |files[e.path]|);
      KeyRoundTrip(ns, e.path, ns + "/");
      PrefixIffBelow(ns, dir, e.path);
      SlashesMatch(ns, e.path);
    }
  }

  lemma {:induction false} SlashesMatch(ns: string, p: string)
    requires Rooted(p) && (ns == "" ==> p != "/")
    ensures EndsSlash(Key(ns, p)) <==> EndsSlash(p)
  {
  }
}
