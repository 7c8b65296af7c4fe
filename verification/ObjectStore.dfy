/** Object keys of the S3 and GCS adapters, the S3 copy source, and what fault-free runs mean. */
module ObjectKeys {
  import opened Paths
  import opened Blobs
  import AW = AtomicWrites
  import Moves

  /* ---------- key ---------- */

  /** strings.TrimPrefix. */
  function TrimPrefix(s: string, p: string): string {
    if p <= s then s[|p|..] else s
  }

  function Key(ns: string, path: string): string {
    var p := TrimPrefix(path, "/");
    if ns == "" then p else ns + "/" + p
  }

  /** A key that belongs to the namespace. */
  predicate InNamespace(ns: string, k: string) {
    ns == "" || ns + "/" <= k
  }

  /** The path List reports for a key. */
  function PathOf(ns: string, k: string): string {
    "/" + if ns != "" then TrimPrefix(k, ns + "/") else k
  }

  lemma {:induction false} DropCommon(a: string, b: string)
    ensures a <= a + b && (a + b)[|a|..] == b
  {
  }

  /** Rooted paths and the keys of the namespace are in one-to-one correspondence. */
  lemma {:induction false} KeyRoundTrip(ns: string, p: string, k: string)
    requires Rooted(p) && InNamespace(ns, k)
    ensures InNamespace(ns, Key(ns, p)) && PathOf(ns, Key(ns, p)) == p
    ensures Rooted(PathOf(ns, k)) && Key(ns, PathOf(ns, k)) == k
  {
  }

  lemma {:induction false} KeyInjective(ns: string, p: string, q: string)
    requires Rooted(p) && Rooted(q)
    ensures Key(ns, p) == Key(ns, q) <==> p == q
  {
    KeyRoundTrip(ns, p, ns + "/");
  }

  /* ---------- the S3 copy source ---------- */

  /** urlPathEscape: only spaces are escaped. */
  function Escape(s: string): string {
    if s == "" then "" else (if s[0] == ' ' then "%20" else [s[0]]) + Escape(s[1..])
  }

  predicate IsHex(c: char) {
    '0' <= c <= '9' || 'A' <= c <= 'F' || 'a' <= c <= 'f'
  }

  function HexValue(c: char): (v: nat)
    requires IsHex(c)
    ensures v < 16
  {
    if '0' <= c <= '9' then c as int - '0' as int
    else if 'A' <= c <= 'F' then c as int - 'A' as int + 10
    else c as int - 'a' as int + 10
  }

  predicate TripletAt(s: string, i: nat) {
    i + 2 < |s| && s[i] == '%' && IsHex(s[i + 1]) && IsHex(s[i + 2])
  }

  predicate HasTriplet(s: string) {
    exists i :: 0 <= i < |s| && TripletAt(s, i)
  }

  /** Percent-decoding, section 2.1 of RFC 3986; a '%' that starts no triplet stands for itself. */
  function Unescape(s: string): string {
    if s == "" then ""
    else if TripletAt(s, 0) then [(16 * HexValue(s[1]) + HexValue(s[2])) as char] + Unescape(s[3..])
    else [s[0]] + Unescape(s[1..])
  }

  lemma {:induction false} TripletCons(s: string)
    requires s != ""
    ensures HasTriplet(s) <==> TripletAt(s, 0) || HasTriplet(s[1..])
  {
    forall i | 0 < i < |s|
      ensures TripletAt(s, i) <==> TripletAt(s[1..], i - 1)
    {
    }
    if HasTriplet(s) && !TripletAt(s, 0) {
      var i :| 0 <= i < |s| && TripletAt(s, i);
    }
    if HasTriplet(s[1..]) {
      var i :| 0 <= i < |s[1..]| && TripletAt(s[1..], i);
      assert TripletAt(s, i + 1);
    }
  }

  lemma {:induction false} EscapeHead(s: string)
    ensures s == "" ==> Escape(s) == ""
    ensures s != "" && s[0] != ' ' ==> Escape(s) == [s[0]] + Escape(s[1..])
    ensures s != "" && s[0] == ' ' ==> Escape(s) == "%20" + Escape(s[1..])
  {
  }

  /** The escaped form holds no space, and is the string itself if that held none. */
  lemma {:induction false} EscapedHasNoSpace(s: string)
    ensures ' ' !in Escape(s) && (' ' !in s ==> Escape(s) == s)
  {
    if s != "" {
      EscapeHead(s);
      EscapedHasNoSpace(s[1..]);
    }
  }

  /** Hexadecimal digits of either case are decoded. */
  lemma {:induction false} DecodesEitherCase()
    ensures Unescape("%2F") == Unescape("%2f") == "/" && Unescape("%aB") == [0xAB as char]
  {
    assert "%2F"[3..] == "" && "%2f"[3..] == "" && "%aB"[3..] == "";
    assert 16 * 2 + 15 == '/' as int;
  }

  /** Escaping creates a triplet at the front only where it replaces a space. */
  lemma {:induction false} EscapeTriplet(s: string)
    requires s != "" && s[0] != ' '
    ensures TripletAt(Escape(s), 0) <==> TripletAt(s, 0)
    ensures TripletAt(s, 0) ==> Escape(s) == s[..3] + Escape(s[3..])
  {
    var t := s[1..];
    EscapeHead(s);
    if t != "" {
      if TripletAt(s, 0) {
        assert s[2..][1..] == s[3..];
      }
    }
  }

  /** The object the copy source names: what its escaped form decodes to. */
  function CopySource(s: string): string {
    Unescape(Escape(s))
  }

  function Decoded(s: string): char
    requires TripletAt(s, 0)
  {
    (16 * HexValue(s[1]) + HexValue(s[2])) as char
  }

  lemma {:induction false} CopySourceHead(s: string)
    requires s != ""
    ensures TripletAt(s, 0) ==> CopySource(s) == [Decoded(s)] + CopySource(s[3..])
    ensures !TripletAt(s, 0) ==> CopySource(s) == [s[0]] + CopySource(s[1..])
  {
    EscapeHead(s);
    if s[0] != ' ' {
      EscapeTriplet(s);
    }
  }

  /** Decoding the copy source gives the named object back exactly when the name has no "%" followed
      by two hexadecimal digits. */
  lemma {:induction false} EscapeRoundTrip(s: string)
    ensures |CopySource(s)| <= |s|
    ensures CopySource(s) == s <==> !HasTriplet(s)
    ensures HasTriplet(s) ==> |CopySource(s)| < |s|
  {
    hide CopySource;
    if s == "" {
      assert CopySource(s) == "" by {
        CopySourceEmpty();
      }
    } else {
      TripletCons(s);
      CopySourceHead(s);
      EscapeRoundTrip(if TripletAt(s, 0) then s[3..] else s[1..]);
    }
  }

  lemma {:induction false} CopySourceEmpty()
    ensures CopySource("") == ""
  {
  }

  /** S3 Move, over the names bucket/key of all objects: the source's bytes are kept at every state,
      over every content and outcome, exactly when the source's name holds no escape triplet and
      the destination is another object. */
  lemma {:induction false} S3MoveKeepsIff(bucket: string, ns: string, src: string, dst: string)
    ensures
      var from, to := bucket + "/" + Key(ns, src), bucket + "/" + Key(ns, dst);
      (forall m, copy, delete, i ::
        from in m && 0 <= i < |Moves.ObjectMoveStates(m, CopySource(from), from, to, copy, delete)| ==>
        Moves.Kept(m, Moves.ObjectMoveStates(m, CopySource(from), from, to, copy, delete)[i], from, to))
      <==> !HasTriplet(from) && from != to
  {
    var from, to := bucket + "/" + Key(ns, src), bucket + "/" + Key(ns, dst);
    EscapeRoundTrip(from);
    Moves.ObjectMoveKeepsIff(CopySource(from), from, to);
  }

  lemma {:induction false} KeyEqualIff(ns: string, p: string, q: string)
    ensures Key(ns, p) == Key(ns, q) <==> TrimPrefix(p, "/") == TrimPrefix(q, "/")
  {
    DropCommon(ns + "/", TrimPrefix(p, "/"));
    DropCommon(ns + "/", TrimPrefix(q, "/"));
  }

  /** GCS Move names its objects directly: the bytes are kept exactly when the paths differ in more
      than a leading slash. */
  lemma {:induction false} GcsMoveKeepsIff(ns: string, src: string, dst: string)
    ensures
      var from, to := Key(ns, src), Key(ns, dst);
      (forall m, copy, delete, i ::
        from in m && 0 <= i < |Moves.ObjectMoveStates(m, from, from, to, copy, delete)| ==>
        Moves.Kept(m, Moves.ObjectMoveStates(m, from, from, to, copy, delete)[i], from, to))
      <==> TrimPrefix(src, "/") != TrimPrefix(dst, "/")
  {
    KeyEqualIff(ns, src, dst);
    Moves.ObjectMoveKeepsIff(Key(ns, src), Key(ns, src), Key(ns, dst));
  }

  /** Moving "a" to "/a" without any failure deletes the object. */
  lemma {:induction false} GcsMoveDeletes(ns: string, m: Blobs)
    requires Key(ns, "a") in m
    ensures
      var from, to := Key(ns, "a"), Key(ns, "/a");
      && Moves.ObjectMoveOk(m, from, Done, Done)
      && Moves.After(m, Moves.ObjectMoveStates(m, from, from, to, Done, Done)) == m - {from}
      && !Moves.Kept(m, m - {from}, from, to)
  {
    assert "/a"[1..] == "a" && "a"[0] != '/' && "/" <= "/a";
    KeyEqualIff(ns, "a", "/a");
    var from, to := Key(ns, "a"), Key(ns, "/a");
    assert Moves.ObjectMoveStates(m, from, from, to, Done, Done)[1] == m[to := m[from]] - {from};
    assert m[to := m[from]] == m;
  }

  /* ---------- AtomicWrite's temp keys ---------- */

  /** One AtomicWrite request and the random hex drawn for it. */
  datatype Upload = Upload(path: string, rand: string, content: Bytes)

  function TempKey(key: string, rand: string): string {
    key + ".tmp-" + rand
  }

  function GcsWriter(ns: string, u: Upload): AW.Writer {
    var key := Key(ns, u.path);
    AW.Writer(AW.ObjectStore, key, TempKey(key, u.rand), TempKey(key, u.rand), u.content)
  }

  function GcsWriters(ns: string, ups: seq<Upload>): seq<AW.Writer> {
    seq(|ups|, i requires 0 <= i < |ups| => GcsWriter(ns, ups[i]))
  }

  /** S3 objects are named bucket/key; the copy reads what its escaped source decodes to. */
  function S3Writer(bucket: string, ns: string, u: Upload): AW.Writer {
    var key := Key(ns, u.path);
    var temp := bucket + "/" + TempKey(key, u.rand);
    AW.Writer(AW.ObjectStore, bucket + "/" + key, temp, CopySource(temp), u.content)
  }

  function S3Writers(bucket: string, ns: string, ups: seq<Upload>): seq<AW.Writer> {
    seq(|ups|, i requires 0 <= i < |ups| => S3Writer(bucket, ns, ups[i]))
  }

  predicate EndsWith(s: string, t: string) {
    |t| <= |s| && s[|s| - |t|..] == t
  }

  /** The draws never repeat, have one length, and no path being written already ends like a temp. */
  ghost predicate FreshDraws(ups: seq<Upload>) {
    && (forall i, j :: 0 <= i < j < |ups| ==> ups[i].rand != ups[j].rand)
    && (forall i, j :: 0 <= i < |ups| && 0 <= j < |ups| ==> |ups[i].rand| == |ups[j].rand|)
    && (forall i, j :: 0 <= i < |ups| && 0 <= j < |ups| ==> !EndsWith(ups[i].path, ".tmp-" + ups[j].rand))
  }

  lemma {:induction false} SuffixAfterSlash(a: string, p: string, t: string)
    requires '/' !in t && EndsWith(a + "/" + p, t)
    ensures EndsWith(p, t)
  {
    var s := a + "/" + p;
    assert s[|a|] == '/';
    assert forall i :: 0 <= i < |t| ==> t[i] == s[|s| - |t| + i];
    assert |s| - |t| > |a|;
    assert s[|s| - |t|..] == p[|p| - |t|..];
  }

  /** A key only ends like a temp if the path does: the draw's suffix holds no slash. */
  lemma {:induction false} KeySuffix(ns: string, path: string, rand: string)
    requires '/' !in rand && EndsWith(Key(ns, path), ".tmp-" + rand)
    ensures EndsWith(path, ".tmp-" + rand)
  {
    var t, p := ".tmp-" + rand, TrimPrefix(path, "/");
    if ns != "" {
      SuffixAfterSlash(ns, p, t);
    }
    assert EndsWith(p, t);
  }

  /** Random draws make the temp keys fresh in the sense the interleaving theorems need. */
  lemma {:induction false} GcsWritersFresh(ns: string, ups: seq<Upload>)
    requires FreshDraws(ups)
    requires forall i :: 0 <= i < |ups| ==> '/' !in ups[i].rand
    ensures AW.Fresh(GcsWriters(ns, ups))
    ensures forall i :: 0 <= i < |ups| ==>
      var w := GcsWriters(ns, ups)[i];
      w.backend.ObjectStore? && w.target == Key(ns, ups[i].path) && w.content == ups[i].content
  {
    hide Key, TempKey;
    var ws := GcsWriters(ns, ups);
    forall i, j | 0 <= i < |ws| && 0 <= j < |ws|
      ensures ws[i].temp != ws[j].target && (i != j ==> ws[i].temp != ws[j].temp)
    {
      TempsDiffer(Key(ns, ups[i].path), Key(ns, ups[j].path), ups[i].rand, ups[j].rand);
      if ws[i].temp == ws[j].target {
        EndsWithTemp(Key(ns, ups[i].path), ups[i].rand);
        KeySuffix(ns, ups[j].path, ups[i].rand);
      }
    }
  }

  lemma {:induction false} EndsWithTemp(key: string, rand: string)
    ensures EndsWith(TempKey(key, rand), ".tmp-" + rand)
  {
  }

  lemma {:induction false} TempsDiffer(k: string, l: string, r: string, s: string)
    requires |r| == |s|
    ensures r != s ==> TempKey(k, r) != TempKey(l, s)
  {
    if TempKey(k, r) == TempKey(l, s) {
      EndsWithTemp(k, r);
      assert (".tmp-" + r)[5..] == r && (".tmp-" + s)[5..] == s;
    }
  }

  predicate IsHexString(s: string) {
    forall i :: 0 <= i < |s| ==> IsHex(s[i])
  }

  /** What randHex returns. */
  predicate HexDraws(ups: seq<Upload>) {
    forall i :: 0 <= i < |ups| ==> IsHexString(ups[i].rand)
  }

  /** On S3 the temp names differ from each other and from every target just the same. */
  lemma {:induction false} S3TempsApart(bucket: string, ns: string, ups: seq<Upload>)
    requires FreshDraws(ups) && HexDraws(ups)
    ensures
      var ws := S3Writers(bucket, ns, ups);
      && (forall i, j :: 0 <= i < j < |ws| ==> ws[i].temp != ws[j].temp)
      && (forall i, j :: 0 <= i < |ws| && 0 <= j < |ws| ==> ws[i].temp != ws[j].target)
  {
    GcsWritersFresh(ns, ups);
    var ws, gs := S3Writers(bucket, ns, ups), GcsWriters(ns, ups);
    forall i, j | 0 <= i < |ws| && 0 <= j < |ws|
      ensures ws[i].temp != ws[j].target && (i != j ==> ws[i].temp != ws[j].temp)
    {
      DropCommon(bucket + "/", gs[i].temp);
      DropCommon(bucket + "/", gs[j].target);
    }
  }

  /** The interleaving theorems apply exactly when the names survive the copy source's escaping. */
  lemma {:induction false} S3WritersFresh(bucket: string, ns: string, ups: seq<Upload>)
    requires FreshDraws(ups) && HexDraws(ups)
    ensures
      var ws := S3Writers(bucket, ns, ups);
      && (AW.Fresh(ws) <==> forall i :: 0 <= i < |ws| ==> !HasTriplet(ws[i].temp))
      && (forall i :: 0 <= i < |ws| ==>
            && ws[i].backend.ObjectStore? && ws[i].content == ups[i].content
            && ws[i].target == bucket + "/" + Key(ns, ups[i].path))
  {
    S3TempsApart(bucket, ns, ups);
    var ws := S3Writers(bucket, ns, ups);
    forall i | 0 <= i < |ws|
      ensures ws[i].source == ws[i].temp <==> !HasTriplet(ws[i].temp)
    {
      EscapeRoundTrip(ws[i].temp);
    }
  }

  /** Decoding leaves a tail alone that starts with '.' and has no '%'. */
  lemma {:induction false} EscapeTail(a: string, t: string)
    requires t != "" && t[0] == '.' && '%' !in t
    ensures CopySource(a + t) == CopySource(a) + t
  {
    hide CopySource;
    if a == "" {
      assert a + t == t;
      CopySourceEmpty();
      EscapeRoundTrip(t);
    } else {
      CopySourceHead(a);
      CopySourceHead(a + t);
      if TripletAt(a, 0) {
        assert (a + t)[3..] == a[3..] + t;
        EscapeTail(a[3..], t);
      } else {
        assert (a + t)[1..] == a[1..] + t;
        EscapeTail(a[1..], t);
      }
    }
  }

  /** So what the copy reads ends like a temp, and is never a target. */
  lemma {:induction false} S3SourceApart(bucket: string, ns: string, ups: seq<Upload>, i: nat)
    requires FreshDraws(ups) && HexDraws(ups) && i < |ups|
    ensures S3Writer(bucket, ns, ups[i]).source != S3Writer(bucket, ns, ups[i]).target
  {
    hide CopySource, Key;
    var u := ups[i];
    var key, t := Key(ns, u.path), ".tmp-" + u.rand;
    assert bucket + "/" + TempKey(key, u.rand) == (bucket + "/" + key) + t;
    EscapeTail(bucket + "/" + key, t);
    if S3Writer(bucket, ns, u).source == bucket + "/" + key {
      assert EndsWith(bucket + "/" + key, t);
      SuffixAfterSlash(bucket, key, t);
      KeySuffix(ns, u.path, u.rand);
    }
  }

  /** A copy that reads another object than the temp publishes that one's bytes. */
  lemma {:induction false} CopyPublishesSource(ws: seq<AW.Writer>, s: AW.State, w: nat)
    requires |s.phases| == |ws| && w < |ws| && s.phases[w].Idle? && ws[w].backend.ObjectStore?
    requires ws[w].source != ws[w].temp && ws[w].temp != ws[w].target && ws[w].source in s.store
    ensures
      var s' := AW.Run(ws, s, AW.FaultFree(ws, w));
      |s'.phases| == |ws| && s'.phases[w] == AW.Ended(true) &&
      ws[w].target in s'.store && s'.store[ws[w].target] == s.store[ws[w].source]
  {
    AW.RunThree(ws, s, AW.FaultFree(ws, w));
  }

  /** When the object that an escape triplet makes the copy ask for exists, a call in which nothing
      fails returns success and leaves that object's bytes at the target. */
  lemma {:induction false} S3TripletPublishesOther(bucket: string, ns: string, ups: seq<Upload>, i: nat, s: AW.State)
    requires FreshDraws(ups) && HexDraws(ups) && i < |ups|
    requires HasTriplet(S3Writer(bucket, ns, ups[i]).temp) && S3Writer(bucket, ns, ups[i]).source in s.store
    requires |s.phases| == |ups| && s.phases[i].Idle?
    ensures
      var ws := S3Writers(bucket, ns, ups);
      var s' := AW.Run(ws, s, AW.FaultFree(ws, i));
      && |s'.phases| == |ups| && s'.phases[i] == AW.Ended(true)
      && ws[i].target in s'.store && s'.store[ws[i].target] == s.store[ws[i].source]
      && ws[i].source != ws[i].temp && ws[i].source != ws[i].target
  {
    var ws := S3Writers(bucket, ns, ups);
    S3TempsApart(bucket, ns, ups);
    EscapeRoundTrip(ws[i].temp);
    S3SourceApart(bucket, ns, ups, i);
    CopyPublishesSource(ws, s, i);
  }

  lemma {:induction false} OtherBytes(ups: seq<Upload>) returns (b: Bytes)
    ensures forall i :: 0 <= i < |ups| ==> |ups[i].content| < |b|
  {
    b := [0];
    if ups != [] {
      var c := OtherBytes(ups[1..]);
      b := c + ups[0].content + [0];
      assert forall i :: 0 < i < |ups| ==> ups[i] == ups[1..][i - 1];
    }
  }

  /** S3: any number of AtomicWrites, interleaved, failing and stopping anywhere, over any objects,
      leave every object that is no temp old or complete, exactly when no temp's name holds an
      escape triplet. */
  lemma {:induction false} S3OldOrCompleteIff(bucket: string, ns: string, ups: seq<Upload>)
    requires FreshDraws(ups) && HexDraws(ups)
    ensures
      var ws := S3Writers(bucket, ns, ups);
      (forall store0, acts, k :: k !in AW.Temps(ws) ==>
        AW.OldOrCompleteAt(ws, store0, AW.Run(ws, AW.Initial(ws, store0), acts).store, k))
      <==> forall i :: 0 <= i < |ws| ==> !HasTriplet(ws[i].temp)
  {
    hide AW.Run, AW.OldOrCompleteAt, HasTriplet;
    var ws := S3Writers(bucket, ns, ups);
    S3WritersFresh(bucket, ns, ups);
    if AW.Fresh(ws) {
      forall store0, acts, k | k !in AW.Temps(ws)
        ensures AW.OldOrCompleteAt(ws, store0, AW.Run(ws, AW.Initial(ws, store0), acts).store, k)
      {
        AW.OldOrComplete(ws, store0, acts, k);
      }
    } else {
      var i :| 0 <= i < |ws| && HasTriplet(ws[i].temp);
      var store0 := S3TripletBreaks(bucket, ns, ups, i);
    }
  }

  lemma {:induction false} S3TripletBreaks(bucket: string, ns: string, ups: seq<Upload>, i: nat) returns (store0: Blobs)
    requires FreshDraws(ups) && HexDraws(ups) && i < |ups|
    requires HasTriplet(S3Writer(bucket, ns, ups[i]).temp)
    ensures
      var ws := S3Writers(bucket, ns, ups);
      && ws[i].target !in AW.Temps(ws)
      && !AW.OldOrCompleteAt(ws, store0, AW.Run(ws, AW.Initial(ws, store0), AW.FaultFree(ws, i)).store, ws[i].target)
  {
    var ws := S3Writers(bucket, ns, ups);
    var b := OtherBytes(ups);
    store0 := map[ws[i].source := b];
    S3TempsApart(bucket, ns, ups);
    S3TripletPublishesOther(bucket, ns, ups, i, AW.Initial(ws, store0));
    assert forall j :: 0 <= j < |ws| ==> ws[j].content == ups[j].content;
  }

  lemma {:induction false} DecodedExample()
    ensures CopySource("b/a%20b") == "b/a b"
  {
    hide CopySource;
    assert "b/a%20b"[1..] == "/a%20b" && "/a%20b"[1..] == "a%20b" && "a%20b"[1..] == "%20b";
    assert "%20b"[3..] == "b" && "b"[1..] == "" && Decoded("%20b") == ' ';
    CopySourceHead("b/a%20b");
    CopySourceHead("/a%20b");
    CopySourceHead("a%20b");
    CopySourceHead("%20b");
    CopySourceHead("b");
    CopySourceEmpty();
  }

  /** The move from "/a%20b", when "/a b" is there too, succeeds, leaves the bytes of "/a b" at the
      destination and deletes the source. */
  lemma {:induction false} S3MoveWrongBytes(bytes: Bytes, other: Bytes)
    requires bytes != other
    ensures
      var m: Blobs := map["b/a%20b" := bytes, "b/a b" := other];
      var from, to := "b" + "/" + Key("", "/a%20b"), "b" + "/" + Key("", "/c");
      var states := Moves.ObjectMoveStates(m, CopySource(from), from, to, Done, Done);
      && from == "b/a%20b" && to == "b/c" && Moves.ObjectMoveOk(m, CopySource(from), Done, Done)
      && Moves.After(m, states) == map["b/a b" := other, "b/c" := other]
      && !Moves.Kept(m, Moves.After(m, states), from, to)
  {
    hide CopySource;
    DecodedExample();
    var m: Blobs := map["b/a%20b" := bytes, "b/a b" := other];
    var from, to := "b" + "/" + Key("", "/a%20b"), "b" + "/" + Key("", "/c");
    assert "/a%20b"[1..] == "a%20b" && "/c"[1..] == "c";
    assert from == "b/a%20b" && to == "b/c";
    var states := Moves.ObjectMoveStates(m, CopySource(from), from, to, Done, Done);
    NamesDiffer();
    assert states[1] == m["b/c" := other] - {"b/a%20b"};
    assert m["b/c" := other] - {"b/a%20b"} == map["b/a b" := other, "b/c" := other];
  }

  lemma {:induction false} NamesDiffer()
    ensures "b/a%20b" != "b/a b" && "b/a%20b" != "b/c" && "b/a b" != "b/c"
  {
    assert |"b/a%20b"| == 7 && |"b/a b"| == 5 && |"b/c"| == 3;
  }

  /** The write to "/a%20b", whatever its draw, publishes the bytes of an object that is there under the
      decoded temp name, and returns success. */
  lemma {:induction false} S3WrongBytes(rand: string, bytes: Bytes, other: Bytes)
    requires |rand| == 16 && IsHexString(rand)
    ensures
      var ws := [S3Writer("b", "", Upload("/a%20b", rand, bytes))];
      var s := AW.Run(ws, AW.Initial(ws, map["b/a b.tmp-" + rand := other]), AW.FaultFree(ws, 0));
      && |s.phases| == 1 && s.phases[0] == AW.Ended(true)
      && "b/a%20b" in s.store && s.store["b/a%20b"] == other
  {
    hide CopySource, AW.Run, AW.FaultFree, IsHexString;
    var w := S3Writer("b", "", Upload("/a%20b", rand, bytes));
    WrongBytesNames(rand, bytes);
    CopyPublishesSource([w], AW.Initial([w], map["b/a b.tmp-" + rand := other]), 0);
  }

  lemma {:induction false} WrongBytesNames(rand: string, bytes: Bytes)
    requires IsHexString(rand)
    ensures
      var w := S3Writer("b", "", Upload("/a%20b", rand, bytes));
      && w.target == "b/a%20b" && w.source == "b/a b.tmp-" + rand
      && w.source != w.temp && w.temp != w.target && w.backend.ObjectStore?
  {
    hide CopySource;
    var t := ".tmp-" + rand;
    assert "/a%20b"[1..] == "a%20b";
    assert "b" + "/" + TempKey("a%20b", rand) == "b/a%20b" + t;
    EscapeTail("b/a%20b", t);
    DecodedExample();
    assert "b/a b" + t == "b/a b.tmp-" + rand;
    assert |"b/a b" + t| < |"b/a%20b" + t|;
  }

  /** With an escape triplet in the name the S3 copy asks for another object: unless that one exists
      already, no run of AtomicWrite ever publishes. */
  lemma {:induction false} S3TripletNeverPublishes(
    bucket: string, ns: string, u: Upload, s: AW.State, acts: seq<AW.Action>)
    requires HasTriplet(bucket + "/" + TempKey(Key(ns, u.path), u.rand))
    requires s.log == [] && S3Writer(bucket, ns, u).source !in s.store
    requires |s.phases| == 1 && !s.phases[0].Published? && s.phases[0] != AW.Ended(true)
    ensures
      var s' := AW.Run([S3Writer(bucket, ns, u)], s, acts);
      s'.log == [] && |s'.phases| == 1 && s'.phases[0] != AW.Ended(true)
    decreases |acts|
  {
    var w := S3Writer(bucket, ns, u);
    EscapeRoundTrip(w.temp);
    if acts != [] {
      NeverPublishesStep(w, s, acts[0]);
      S3TripletNeverPublishes(bucket, ns, u, AW.Step([w], s, acts[0]), acts[1..]);
    }
  }

  lemma {:induction false} NeverPublishesStep(w: AW.Writer, s: AW.State, a: AW.Action)
    requires w.source != w.temp && w.source !in s.store && w.backend.ObjectStore?
    requires s.log == [] && |s.phases| == 1 && !s.phases[0].Published? && s.phases[0] != AW.Ended(true)
    ensures
      var s' := AW.Step([w], s, a);
      && s'.log == [] && w.source !in s'.store
      && |s'.phases| == 1 && !s'.phases[0].Published? && s'.phases[0] != AW.Ended(true)
  {
  }

  /* ---------- fault-free runs are a plain map ---------- */

  /** The bucket m shows exactly the files: each rooted path under its key. */
  ghost predicate Represents(ns: string, m: Blobs, files: Blobs) {
    && (forall p :: p in files ==> Rooted(p))
    && (forall p :: Rooted(p) ==> (p in files <==> Key(ns, p) in m))
    && (forall p :: p in files ==> files[p] == m[Key(ns, p)])
    && (ns == "" ==> "" !in m)
  }

  datatype Op = Write(path: string, rand: string, content: Bytes) | Move(src: string, dst: string)

  /** What the adapter does to the bucket when no call fails. */
  function Exec(ns: string, m: Blobs, op: Op): Blobs {
    match op
    case Write(path, rand, content) =>
      var ws := [GcsWriter(ns, Upload(path, rand, content))];
      AW.Run(ws, AW.Initial(ws, m), AW.FaultFree(ws, 0)).store
    case Move(src, dst) =>
      Moves.After(m, Moves.ObjectMoveStates(m, Key(ns, src), Key(ns, src), Key(ns, dst), Done, Done))
  }

  /** The rooted path that a path is kept under: the adapters ignore one leading slash. */
  function At(path: string): string {
    "/" + TrimPrefix(path, "/")
  }

  lemma {:induction false} KeyAt(ns: string, path: string)
    ensures Rooted(At(path)) && Key(ns, At(path)) == Key(ns, path)
    ensures Rooted(path) ==> At(path) == path
  {
  }

  /** What it means for the files. */
  function Spec(files: Blobs, op: Op): Blobs {
    match op
    case Write(path, _, content) => files[At(path) := content]
    case Move(src, dst) => if At(src) in files then files[At(dst) := files[At(src)]] - {At(src)} else files
  }

  /** No object has an empty name, the temp is new, and nothing is moved onto itself. */
  ghost predicate OpOk(ns: string, m: Blobs, op: Op) {
    match op
    case Write(path, rand, _) => Key(ns, path) != "" && TempKey(Key(ns, path), rand) !in m
    case Move(src, dst) => Key(ns, dst) != "" && At(src) != At(dst)
  }

  lemma {:induction false} PutRepresents(ns: string, m: Blobs, files: Blobs, p: string, c: Bytes)
    requires Represents(ns, m, files) && Rooted(p) && Key(ns, p) != ""
    ensures Represents(ns, m[Key(ns, p) := c], files[p := c])
  {
    forall q | Rooted(q)
      ensures Key(ns, q) == Key(ns, p) <==> q == p
    {
      KeyInjective(ns, q, p);
    }
  }

  lemma {:induction false} RemoveRepresents(ns: string, m: Blobs, files: Blobs, p: string)
    requires Represents(ns, m, files) && Rooted(p)
    ensures Represents(ns, m - {Key(ns, p)}, files - {p})
  {
    forall q | Rooted(q)
      ensures Key(ns, q) == Key(ns, p) <==> q == p
    {
      KeyInjective(ns, q, p);
    }
  }

  lemma {:induction false} WriteExec(ns: string, m: Blobs, path: string, rand: string, content: Bytes)
    requires TempKey(Key(ns, path), rand) !in m
    ensures Exec(ns, m, Write(path, rand, content)) == m[Key(ns, path) := content]
  {
    var w := GcsWriter(ns, Upload(path, rand, content));
    AW.PlainWrite([w], AW.Initial([w], m), 0);
    assert m[w.target := content] - {w.temp} == m[w.target := content];
  }

  lemma {:induction false} OpRefines(ns: string, m: Blobs, files: Blobs, op: Op)
    requires Represents(ns, m, files) && OpOk(ns, m, op)
    ensures Represents(ns, Exec(ns, m, op), Spec(files, op))
  {
    match op
    case Write(path, rand, content) =>
      KeyAt(ns, path);
      WriteExec(ns, m, path, rand, content);
      PutRepresents(ns, m, files, At(path), content);
    case Move(src, dst) =>
      KeyAt(ns, src);
      KeyAt(ns, dst);
      var from, to := At(src), At(dst);
      KeyInjective(ns, from, to);
      if from in files {
        PutRepresents(ns, m, files, to, files[from]);
        RemoveRepresents(ns, m[Key(ns, to) := files[from]], files[to := files[from]], from);
      }
  }

  function ExecAll(ns: string, m: Blobs, ops: seq<Op>): Blobs
    decreases |ops|
  {
    if ops == [] then m else ExecAll(ns, Exec(ns, m, ops[0]), ops[1..])
  }

  function SpecAll(files: Blobs, ops: seq<Op>): Blobs
    decreases |ops|
  {
    if ops == [] then files else SpecAll(Spec(files, ops[0]), ops[1..])
  }

  ghost predicate OpsOk(ns: string, m: Blobs, ops: seq<Op>)
    decreases |ops|
  {
    ops == [] || (OpOk(ns, m, ops[0]) && OpsOk(ns, Exec(ns, m, ops[0]), ops[1..]))
  }

  /** Any fault-free sequence of AtomicWrite and Move calls is the same sequence of puts and renames
      on a plain map from path to bytes, and Open reads that map. */
  lemma {:induction false} RunRefines(ns: string, m: Blobs, files: Blobs, ops: seq<Op>, p: string)
    requires Represents(ns, m, files) && OpsOk(ns, m, ops)
    ensures Represents(ns, ExecAll(ns, m, ops), SpecAll(files, ops))
    ensures AW.Get(ExecAll(ns, m, ops), Key(ns, p)) == AW.Get(SpecAll(files, ops), At(p))
    decreases |ops|
  {
    KeyAt(ns, p);
    if ops != [] {
      OpRefines(ns, m, files, ops[0]);
      RunRefines(ns, Exec(ns, m, ops[0]), Spec(files, ops[0]), ops[1..], p);
    }
  }
}
