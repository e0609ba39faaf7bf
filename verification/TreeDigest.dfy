/**
 Model of `_tree_digest`, `_verify_file_digests` and `_verify_snapshot` in
 scripts/verify_final_archive.py (lines 375-402 and 546-610). Paths are their
 UTF-8 bytes; SHA-256 is a function about which nothing but its output length is
 known. Directory trees do not change while they are being compared.
 */
module TreeDigest {
  import opened Common

  type PathName = Bytes
  type Hash = Bytes -> Bytes

  datatype Entry = Entry(path: PathName, digest: Bytes)

  predicate Encodable(e: Entry) {
    NUL !in e.path && |e.digest| == 32
  }

  // ---------- the encoding ----------

  function EncodeEntry(e: Entry): Bytes {
    e.path + [NUL] + e.digest
  }

  function Encode(entries: seq<Entry>): Bytes {
    if entries == [] then [] else EncodeEntry(entries[0]) + Encode(entries[1..])
  }

  lemma {:induction false} EncodeGrows(entries: seq<Entry>, last: Entry)
    ensures Encode(entries + [last]) == Encode(entries) + EncodeEntry(last)
  {
    if entries == [] {
      assert Encode([last]) == EncodeEntry(last) + [];
    } else {
      assert (entries + [last])[1..] == entries[1..] + [last];
      EncodeGrows(entries[1..], last);
    }
  }

  /** The first NUL ends the path, and the digest has a fixed length. */
  lemma FirstEntryIsUnique(e: Entry, f: Entry, s: Bytes, t: Bytes)
    requires Encodable(e) && Encodable(f)
    requires EncodeEntry(e) + s == EncodeEntry(f) + t
    ensures e == f && s == t
  {
    var all, all' := EncodeEntry(e) + s, EncodeEntry(f) + t;
    assert all[|e.path|] == NUL && all'[|f.path|] == NUL;
    assert forall i :: 0 <= i < |e.path| ==> all[i] == e.path[i];
    assert forall i :: 0 <= i < |f.path| ==> all'[i] == f.path[i];
    assert |e.path| == |f.path|;
    assert e.path == all[..|e.path|] == f.path;
    assert e.digest == all[|e.path| + 1..|e.path| + 33] == f.digest;
    assert s == all[|e.path| + 33..] == t;
  }

  lemma {:induction false} EncodeIsInjective(a: seq<Entry>, b: seq<Entry>)
    requires forall e :: e in a || e in b ==> Encodable(e)
    requires Encode(a) == Encode(b)
    ensures a == b
  {
    if a != [] && b != [] {
      FirstEntryIsUnique(a[0], b[0], Encode(a[1..]), Encode(b[1..]));
      EncodeIsInjective(a[1..], b[1..]);
      assert a == [a[0]] + a[1..] && b == [b[0]] + b[1..];
    }
  }

  // ---------- sorted enumeration of a map ----------

  /** Lexicographic order on bytes, which on UTF-8 is Python's order on strings. */
  predicate Less(a: PathName, b: PathName) {
    b != [] && (a == [] || a[0] < b[0] || (a[0] == b[0] && Less(a[1..], b[1..])))
  }

  lemma {:induction false} LessIsStrict(a: PathName, b: PathName)
    ensures !(Less(a, b) && Less(b, a))
    ensures a == b || Less(a, b) || Less(b, a)
  {
    if a != [] && b != [] && a[0] == b[0] {
      LessIsStrict(a[1..], b[1..]);
      assert a == [a[0]] + a[1..] && b == [b[0]] + b[1..];
    }
  }

  /** The first byte that differs decides, and a proper beginning comes first. */
  lemma {:induction false} LessIsLexicographic(common: PathName, a: PathName, b: PathName)
    ensures a != [] && b != [] && a[0] != b[0] ==> (Less(common + a, common + b) <==> a[0] < b[0])
    ensures Less(common, common + b) <==> b != []
  {
    if common == [] {
      assert common + a == a && common + b == b;
    } else {
      LessIsLexicographic(common[1..], a, b);
      assert (common + a)[1..] == common[1..] + a && (common + b)[1..] == common[1..] + b;
    }
  }

  lemma {:induction false} LessIsTransitive(a: PathName, b: PathName, c: PathName)
    requires Less(a, b) && Less(b, c)
    ensures Less(a, c)
  {
    if a != [] && a[0] == b[0] == c[0] { LessIsTransitive(a[1..], b[1..], c[1..]); }
  }

  predicate IsLeast(p: PathName, s: set<PathName>) {
    p in s && forall q :: q in s && q != p ==> Less(p, q)
  }

  lemma {:induction false} LeastExists(s: set<PathName>) returns (p: PathName)
    requires s != {}
    ensures IsLeast(p, s)
  {
    var x :| x in s;
    var rest := s - {x};
    assert forall q :: q in s ==> q == x || q in rest;
    if rest == {} {
      p := x;
    } else {
      var y := LeastExists(rest);
      LessIsStrict(x, y);
      if Less(x, y) {
        forall q | q in rest && q != y ensures Less(x, q) { LessIsTransitive(x, y, q); }
        p := x;
      } else {
        p := y;
      }
    }
  }

  /** `entries` lists the map in ascending path order. */
  predicate Enumerates(entries: seq<Entry>, m: map<PathName, Bytes>) {
    if entries == [] then m == map[]
    else IsLeast(entries[0].path, m.Keys) && m[entries[0].path] == entries[0].digest
         && Enumerates(entries[1..], m - {entries[0].path})
  }

  lemma {:induction false} EnumerationIsUnique(a: seq<Entry>, b: seq<Entry>, m: map<PathName, Bytes>)
    requires Enumerates(a, m) && Enumerates(b, m)
    ensures a == b
  {
    if a != [] && b != [] {
      LessIsStrict(a[0].path, b[0].path);
      assert a[0] == b[0];
      EnumerationIsUnique(a[1..], b[1..], m - {a[0].path});
      assert a == [a[0]] + a[1..] && b == [b[0]] + b[1..];
    }
  }

  lemma {:induction false} EnumerationDetermines(a: seq<Entry>, m: map<PathName, Bytes>, n: map<PathName, Bytes>)
    requires Enumerates(a, m) && Enumerates(a, n)
    ensures m == n
  {
    if a != [] {
      var p := a[0].path;
      EnumerationDetermines(a[1..], m - {p}, n - {p});
      assert m == (m - {p})[p := m[p]] && n == (n - {p})[p := n[p]];
    }
  }

  lemma {:induction false} EnumeratedEntries(a: seq<Entry>, m: map<PathName, Bytes>)
    requires Enumerates(a, m)
    ensures forall e :: e in a ==> e.path in m && m[e.path] == e.digest
  {
    if a != [] {
      EnumeratedEntries(a[1..], m - {a[0].path});
      assert a == [a[0]] + a[1..];
    }
  }

  predicate EncodableMap(m: map<PathName, Bytes>) {
    forall p :: p in m ==> Encodable(Entry(p, m[p]))
  }

  /** The stream fed to the digest is an injective encoding of path-to-digest maps, and a function of the map. */
  lemma StreamDeterminesMap(m: map<PathName, Bytes>, n: map<PathName, Bytes>, a: seq<Entry>, b: seq<Entry>)
    requires Enumerates(a, m) && Enumerates(b, n)
    requires EncodableMap(m) && EncodableMap(n)
    ensures Encode(a) == Encode(b) <==> m == n
  {
    EnumeratedEntries(a, m);
    EnumeratedEntries(b, n);
    forall e | e in a || e in b ensures Encodable(e) {
      assert e == Entry(e.path, e.digest);
    }
    if Encode(a) == Encode(b) {
      EncodeIsInjective(a, b);
      EnumerationDetermines(a, m, n);
    }
    if m == n { EnumerationIsUnique(a, b, m); }
  }

  // ---------- the program ----------

  /** The digests of all files of a tree. */
  function Digests(sha: Hash, files: map<PathName, Bytes>): map<PathName, Bytes> {
    map p | p in files :: sha(files[p])
  }

  /** `digest` is the hash of the encoding of the map `m`. */
  ghost predicate IsTreeDigest(sha: Hash, m: map<PathName, Bytes>, digest: Bytes) {
    exists entries :: Enumerates(entries, m) && digest == sha(Encode(entries))
  }

  method ComputeTreeDigest(sha: Hash, files: map<PathName, Bytes>) returns (digest: Bytes)
    ensures IsTreeDigest(sha, Digests(sha, files), digest)
  {
    var rest := files;
    var fed: Bytes := [];
    ghost var listed, left := StartFeeding(sha, files);
    while rest != map[]
      invariant Fed(sha, files, rest, fed, listed, left)
      decreases rest.Keys
    {
      ghost var least := LeastExists(rest.Keys);
      var path :| path in rest.Keys && IsLeast(path, rest.Keys);
      FeedNext(sha, files, rest, fed, listed, left, path);
      fed := fed + path;
      fed := fed + [NUL];
      fed := fed + sha(rest[path]);
      listed, left := listed + [left[0]], left[1..];
      rest := rest - {path};
    }
    AllFed(sha, files, fed, listed, left);
    digest := sha(fed);
  }

  /** `fed` encodes the entries `listed`, and the files in `rest` account for the entries still `left`. */
  ghost predicate Fed(sha: Hash, files: map<PathName, Bytes>, rest: map<PathName, Bytes>, fed: Bytes, listed: seq<Entry>, left: seq<Entry>) {
    fed == Encode(listed) && Enumerates(listed + left, Digests(sha, files)) && Enumerates(left, Digests(sha, rest))
  }

  lemma StartFeeding(sha: Hash, files: map<PathName, Bytes>) returns (listed: seq<Entry>, left: seq<Entry>)
    ensures Fed(sha, files, files, [], listed, left)
  {
    left := EnumerationExists(Digests(sha, files));
    listed := [];
    assert listed + left == left;
  }

  lemma FeedNext(sha: Hash, files: map<PathName, Bytes>, rest: map<PathName, Bytes>, fed: Bytes, listed: seq<Entry>, left: seq<Entry>, path: PathName)
    requires Fed(sha, files, rest, fed, listed, left) && IsLeast(path, rest.Keys)
    ensures left != []
    ensures Fed(sha, files, rest - {path}, fed + path + [NUL] + sha(rest[path]), listed + [left[0]], left[1..])
  {
    NextEntry(sha, rest, left, path);
    EncodeGrows(listed, left[0]);
    FeedBytes(fed, left[0]);
    MoveOne(listed, left);
  }

  lemma FeedBytes(fed: Bytes, e: Entry)
    ensures fed + e.path + [NUL] + e.digest == fed + EncodeEntry(e)
  {
    assert fed + e.path + [NUL] + e.digest == fed + (e.path + [NUL] + e.digest);
  }

  lemma MoveOne(listed: seq<Entry>, left: seq<Entry>)
    requires left != []
    ensures listed + left == listed + [left[0]] + left[1..]
  {}

  lemma AllFed(sha: Hash, files: map<PathName, Bytes>, fed: Bytes, listed: seq<Entry>, left: seq<Entry>)
    requires Fed(sha, files, map[], fed, listed, left)
    ensures IsTreeDigest(sha, Digests(sha, files), sha(fed))
  {
    assert left == [] by { assert Digests(sha, map[]) == map[]; }
    assert listed + left == listed;
  }

  lemma {:induction false} EnumerationExists(m: map<PathName, Bytes>) returns (entries: seq<Entry>)
    ensures Enumerates(entries, m)
    decreases m.Keys
  {
    if m == map[] {
      entries := [];
    } else {
      var p := LeastExists(m.Keys);
      var tail := EnumerationExists(m - {p});
      entries := [Entry(p, m[p])] + tail;
      assert entries[1..] == tail;
    }
  }

  /** The first entry still to come is the least remaining file. */
  lemma NextEntry(sha: Hash, rest: map<PathName, Bytes>, left: seq<Entry>, path: PathName)
    requires IsLeast(path, rest.Keys) && Enumerates(left, Digests(sha, rest))
    ensures left != [] && left[0] == Entry(path, sha(rest[path]))
    ensures Enumerates(left[1..], Digests(sha, rest - {path}))
  {
    assert Digests(sha, rest).Keys == rest.Keys;
    assert path in Digests(sha, rest);
    LessIsStrict(path, left[0].path);
    assert Digests(sha, rest) - {path} == Digests(sha, rest - {path});
  }

  datatype Tree = Tree(files: map<PathName, Bytes>, directories: set<PathName>)

  datatype SnapshotError =
    | ArchiveLayout
    | InstalledLayout
    | InstalledTopology
    | MissingFile(path: PathName)
    | DigestDrift(path: PathName)
    | TreeDigestsDiffer

  /** `_verify_file_digests`: every expected file is there with the expected digest. */
  method VerifyFileDigests(sha: Hash, expected: map<PathName, Bytes>, root: map<PathName, Bytes>) returns (r: Result<(), SnapshotError>)
    ensures r.Ok? <==> forall p :: p in expected ==> p in root && sha(root[p]) == sha(expected[p])
    ensures r.Err? ==> r.error.MissingFile? || r.error.DigestDrift?
    ensures r.Err? ==> r.error.path in expected && (r.error.MissingFile? <==> r.error.path !in root)
    ensures r.Err? && r.error.DigestDrift? ==> sha(root[r.error.path]) != sha(expected[r.error.path])
  {
    var todo := expected.Keys;
    while todo != {}
      invariant todo <= expected.Keys
      invariant forall p :: p in expected && p !in todo ==> p in root && sha(root[p]) == sha(expected[p])
    {
      var p :| p in todo;
      if p !in root { return Err(MissingFile(p)); }
      if sha(root[p]) != sha(expected[p]) { return Err(DigestDrift(p)); }
      todo := todo - {p};
    }
    r := Ok(());
  }

  /**
     The comparison of the source, the extracted archive and the installed copy.
     Its last check, that the three tree digests agree, never fails.
   */
  method VerifySnapshot(sha: Hash, source: Tree, archive: Tree, installed: Tree) returns (r: Result<Bytes, SnapshotError>)
    ensures r.Ok? <==>
      && archive.files.Keys == installed.files.Keys == source.files.Keys
      && archive.directories == installed.directories == source.directories
      && Digests(sha, archive.files) == Digests(sha, installed.files) == Digests(sha, source.files)
    ensures r.Ok? ==> IsTreeDigest(sha, Digests(sha, source.files), r.value)
    ensures r != Err(TreeDigestsDiffer)
  {
    if archive.files.Keys != source.files.Keys || archive.directories != source.directories {
      return Err(ArchiveLayout);
    }
    var archived := VerifyFileDigests(sha, source.files, archive.files);
    if archived.Err? {
      assert Digests(sha, archive.files)[archived.error.path] != Digests(sha, source.files)[archived.error.path];
      return Err(archived.error);
    }
    if installed.files.Keys != source.files.Keys { return Err(InstalledLayout); }
    if installed.directories != source.directories { return Err(InstalledTopology); }
    var copied := VerifyFileDigests(sha, source.files, installed.files);
    if copied.Err? {
      assert Digests(sha, installed.files)[copied.error.path] != Digests(sha, source.files)[copied.error.path];
      return Err(copied.error);
    }
    assert Digests(sha, archive.files) == Digests(sha, source.files);
    assert Digests(sha, installed.files) == Digests(sha, source.files);
    var a := ComputeTreeDigest(sha, source.files);
    var b := ComputeTreeDigest(sha, archive.files);
    var c := ComputeTreeDigest(sha, installed.files);
    TreeDigestIsAFunction(sha, Digests(sha, source.files), a, b);
    TreeDigestIsAFunction(sha, Digests(sha, source.files), a, c);
    if |{a, b, c}| != 1 { return Err(TreeDigestsDiffer); }
    r := Ok(a);
  }

  lemma TreeDigestIsAFunction(sha: Hash, m: map<PathName, Bytes>, a: Bytes, b: Bytes)
    requires IsTreeDigest(sha, m, a) && IsTreeDigest(sha, m, b)
    ensures a == b
  {
    var s :| Enumerates(s, m) && a == sha(Encode(s));
    var t :| Enumerates(t, m) && b == sha(Encode(t));
    EnumerationIsUnique(s, t, m);
  }

  /** Unless the hash collides on the two encodings, equal tree digests mean equal path-to-digest maps. */
  lemma EqualTreeDigests(sha: Hash, m: map<PathName, Bytes>, n: map<PathName, Bytes>, digest: Bytes)
    requires IsTreeDigest(sha, m, digest) && IsTreeDigest(sha, n, digest)
    requires EncodableMap(m) && EncodableMap(n)
    requires forall a, b :: Enumerates(a, m) && Enumerates(b, n) && sha(Encode(a)) == sha(Encode(b)) ==> Encode(a) == Encode(b)
    ensures m == n
  {
    var a :| Enumerates(a, m) && digest == sha(Encode(a));
    var b :| Enumerates(b, n) && digest == sha(Encode(b));
    StreamDeterminesMap(m, n, a, b);
  }
}
