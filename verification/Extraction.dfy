/**
 Model of archive extraction in scripts/verify_final_archive.py (`_register_path`,
 `_bounded_size`, `_write_member`, `_parent_directories`, `_extract_zip`,
 `_extract_tar`, lines 136-270). Decoding is somebody else's: an entry comes with
 the bytes its decompressed stream would deliver, which may disagree with the
 declared size. The file system may refuse to create anything at any time, unless it
 is `reliable`: then it refuses only what clashes with what is there.
 */
module Extraction {
  import opened Common
  import opened ArchivePaths

  const MAX_ARCHIVE_ENTRIES := 20_000
  const MAX_FILE_BYTES := 256 * 1024 * 1024
  const MAX_TOTAL_BYTES := 1024 * 1024 * 1024
  const MAX_COMPRESSION_RATIO := 1_000
  const READ_BYTES := 1024 * 1024

  datatype Error =
    | UnsafePath | DuplicatePath | EntryCount | Link | Encrypted | WrongKind
    | FileTooLarge | TotalTooLarge | Ratio | Expanded | SizeMismatch | System

  /** The file type bits of a zip entry; `Unspecified` when there are none. */
  datatype FileType = Unspecified | Regular | Directory | Symlink | Special

  datatype ZipEntry = ZipEntry(
    filename: Bytes, isDir: bool, fileType: FileType, encrypted: bool,
    fileSize: int, compressSize: nat, content: Bytes)

  datatype TarKind = TarDirectory | TarFile | TarOther

  datatype TarEntry = TarEntry(name: Bytes, kind: TarKind, size: int, content: Bytes)

  /** The naming rules: reserved stems, and the Unicode folding under which names must differ. */
  datatype Naming = Naming(reserved: Bytes -> bool, fold: Bytes -> Bytes)

  // ---------- streams and the disk ----------

  /** A decompressed member: a read delivers at least one byte unless the stream is exhausted, and may be short. */
  class MemberStream {
    var left: Bytes

    constructor (content: Bytes)
      ensures left == content
    {
      left := content;
    }

    method Read(limit: nat) returns (chunk: Bytes)
      requires limit > 0
      modifies this
      ensures |chunk| <= limit && chunk + left == old(left)
      ensures chunk == [] <==> old(left) == []
    {
      if left == [] { return []; }
      var count: nat :| 1 <= count <= limit && count <= |left|;
      chunk := left[..count];
      left := left[count..];
    }
  }

  /** The directories a path needs to be one itself. */
  function Prefixes(path: Path): set<Path> {
    set k | 1 <= k <= |path| :: path[..k]
  }

  /** The extraction directory. Unless it is `reliable` it may refuse to create anything at any time. */
  class Disk {
    const reliable: bool
    var files: map<Path, Bytes>
    var directories: set<Path>
    /** Every byte ever written; never decreases. */
    var written: nat

    constructor (reliable: bool)
      ensures this.reliable == reliable && files == map[] && directories == {} && written == 0
    {
      this.reliable := reliable;
      files, directories, written := map[], {}, 0;
    }

    /** `mkdir` with parents, where existing directories are no error but existing files are. */
    method MakeDirectories(path: Path) returns (ok: bool)
      modifies this`directories
      ensures ok ==> directories == old(directories) + Prefixes(path)
      ensures reliable ==> (ok <==> Prefixes(path) !! files.Keys)
    {
      ok := *;
      if reliable { ok := Prefixes(path) !! files.Keys; }
      if ok { directories := directories + Prefixes(path); }
    }

    /** Exclusive creation: fails if there is a file or directory of that name. */
    method Create(path: Path) returns (ok: bool)
      modifies this`files
      ensures ok ==> path !in old(files) && files == old(files)[path := []]
      ensures !ok ==> files == old(files)
      ensures reliable ==> (ok <==> path !in old(files) && path !in directories)
    {
      ok := *;
      if reliable { ok := path !in directories; }
      ok := ok && path !in files;
      if ok { files := files[path := []]; }
    }

    method Append(path: Path, chunk: Bytes)
      requires path in files
      modifies this`files, this`written
      ensures files == old(files)[path := old(files)[path] + chunk]
      ensures written == old(written) + |chunk|
    {
      files := files[path := files[path] + chunk];
      written := written + |chunk|;
    }
  }

  /** Copies one member. It writes at most the declared size, and succeeds iff that is what the stream holds. */
  method WriteMember(stream: MemberStream, disk: Disk, path: Path, expected: nat) returns (r: Result<(), Error>)
    requires path != []
    modifies stream, disk
    ensures old(disk.written) <= disk.written <= old(disk.written) + expected
    ensures r == Err(System) ==> disk.files == old(disk.files) && disk.written == old(disk.written)
    ensures r != Err(System) ==> path !in old(disk.files)
    ensures r.Ok? ==> |old(stream.left)| == expected
    ensures r.Ok? ==> disk.files == old(disk.files)[path := old(stream.left)] && disk.written == old(disk.written) + expected
    ensures r.Err? ==> r.error in {System, Expanded, SizeMismatch}
    ensures r == Err(Expanded) ==> |old(stream.left)| > expected
    ensures r == Err(SizeMismatch) ==> |old(stream.left)| < expected
    ensures r.Ok? ==> disk.directories == old(disk.directories) + Prefixes(path[..|path| - 1])
    ensures disk.reliable ==> (r == Err(System) <==> Blocked(path, old(disk.files).Keys, old(disk.directories)))
  {
    PrefixesAreShorter(path);
    var parent := disk.MakeDirectories(path[..|path| - 1]);
    if !parent { return Err(System); }
    var created := disk.Create(path);
    if !created { return Err(System); }
    var count := 0;
    ghost var copied: Bytes := [];
    while true
      invariant count == |copied| <= expected
      invariant copied + stream.left == old(stream.left)
      invariant disk.written == old(disk.written) + count
      invariant disk.files == old(disk.files)[path := copied]
      invariant disk.directories == old(disk.directories) + Prefixes(path[..|path| - 1])
      decreases |stream.left|
    {
      var chunk := stream.Read(if READ_BYTES < expected - count + 1 then READ_BYTES else expected - count + 1);
      if chunk == [] { break; }
      count := count + |chunk|;
      if count > expected { return Err(Expanded); }
      disk.Append(path, chunk);
      copied := copied + chunk;
    }
    assert copied == old(stream.left);
    if count != expected { return Err(SizeMismatch); }
    r := Ok(());
  }

  /** A file of this path cannot be created: something has its name, or a file the name of one of its directories. */
  predicate Blocked(path: Path, files: set<Path>, directories: set<Path>)
    requires path != []
  {
    path in files || path in directories || !(Prefixes(path[..|path| - 1]) !! files)
  }

  lemma PrefixesAreShorter(path: Path)
    requires path != []
    ensures path !in Prefixes(path[..|path| - 1])
    ensures Prefixes(path[..|path| - 1]) == ParentDirectories(path)
    ensures Prefixes(path) == ParentDirectories(path) + {path}
  {
    var parent := path[..|path| - 1];
    assert forall k :: 1 <= k < |path| ==> parent[..k] == path[..k];
    assert path[..|path|] == path;
  }

  /** The directories above a path are its non-empty proper prefixes; to be a directory itself it needs those and itself. */
  lemma DirectoriesArePrefixes(path: Path, d: Path)
    ensures d in ParentDirectories(path) <==> d != [] && d < path
    ensures d in Prefixes(path) <==> d != [] && d <= path
  {
    if d <= path { assert d == path[..|d|]; }
  }

  // ---------- registration ----------

  /** `seen` and `casefolded`. */
  class Registry {
    var seen: set<Path>
    var casefolded: set<Bytes>

    constructor ()
      ensures seen == {} && casefolded == {}
    {
      seen, casefolded := {}, {};
    }

    /** The path is registered already, or folds together with one that is. */
    predicate Taken(naming: Naming, path: Path) reads this {
      path in seen || naming.fold(Join(path)) in casefolded
    }

    method Register(naming: Naming, raw: Bytes, directory: bool) returns (r: Result<Path, Error>)
      modifies this
      ensures r.Ok? ==>
        && Spells(naming.reserved, raw, directory, r.value)
        && r.value !in old(seen) && naming.fold(Join(r.value)) !in old(casefolded)
        && seen == old(seen) + {r.value} && casefolded == old(casefolded) + {naming.fold(Join(r.value))}
      ensures r.Err? ==> seen == old(seen) && casefolded == old(casefolded)
      ensures r == Err(UnsafePath) <==> forall path :: !Spells(naming.reserved, raw, directory, path)
      ensures r == Err(DuplicatePath) <==> exists path :: Spells(naming.reserved, raw, directory, path) && old(Taken(naming, path))
      ensures r.Err? ==> r.error in {UnsafePath, DuplicatePath}
    {
      var safe := SafeRelativePath(naming.reserved, raw, directory);
      if safe.None? {
        forall path ensures !Spells(naming.reserved, raw, directory, path) {
          SafeRelativePathIsExact(naming.reserved, raw, directory, path);
        }
        return Err(UnsafePath);
      }
      var path := safe.value;
      SafeRelativePathIsExact(naming.reserved, raw, directory, path);
      forall other | Spells(naming.reserved, raw, directory, other) ensures other == path {
        SafeRelativePathIsExact(naming.reserved, raw, directory, other);
      }
      var folded := naming.fold(Join(path));
      if path in seen || folded in casefolded { return Err(DuplicatePath); }
      seen := seen + {path};
      casefolded := casefolded + {folded};
      r := Ok(path);
    }
  }

  function BoundedSize(size: int, total: int): (r: Result<int, Error>)
    ensures r.Ok? <==> 0 <= size <= MAX_FILE_BYTES && total + size <= MAX_TOTAL_BYTES
    ensures r.Ok? ==> r.value - total == size
  {
    if size < 0 || size > MAX_FILE_BYTES then Err(FileTooLarge)
    else if total + size > MAX_TOTAL_BYTES then Err(TotalTooLarge)
    else Ok(total + size)
  }

  function ParentDirectories(path: Path): set<Path> {
    set k | 1 <= k < |path| :: path[..k]
  }

  // ---------- what an extraction means ----------

  /** An entry as both formats see it: its registered path, and its content unless it is a directory. */
  datatype Member = Member(path: Path, content: Option<Bytes>)

  function Paths(members: seq<Member>): set<Path> {
    set m | m in members :: m.path
  }

  function Folds(naming: Naming, members: seq<Member>): set<Bytes> {
    set m | m in members :: naming.fold(Join(m.path))
  }

  predicate DistinctFolds(naming: Naming, members: seq<Member>) {
    forall i, j :: 0 <= i < j < |members| ==> naming.fold(Join(members[i].path)) != naming.fold(Join(members[j].path))
  }

  function Size(m: Member): nat {
    if m.content.Some? then |m.content.value| else 0
  }

  function TotalSize(members: seq<Member>): nat {
    if members == [] then 0 else TotalSize(members[..|members| - 1]) + Size(members[|members| - 1])
  }

  lemma {:induction false} TotalGrows(members: seq<Member>, n: nat)
    requires n <= |members|
    ensures TotalSize(members[..n]) <= TotalSize(members)
  {
    if n < |members| {
      var init := members[..|members| - 1];
      TotalGrows(init, n);
      assert init[..n] == members[..n];
    } else {
      assert members[..n] == members;
    }
  }

  lemma TotalOfNext(members: seq<Member>, m: Member)
    ensures TotalSize(members + [m]) == TotalSize(members) + Size(m)
  {
    assert (members + [m])[..|members|] == members;
  }

  /** A new name joins the others. */
  lemma NamesGrow(naming: Naming, members: seq<Member>, m: Member)
    requires DistinctFolds(naming, members) && naming.fold(Join(m.path)) !in Folds(naming, members)
    ensures DistinctFolds(naming, members + [m])
    ensures Paths(members + [m]) == Paths(members) + {m.path}
    ensures Folds(naming, members + [m]) == Folds(naming, members) + {naming.fold(Join(m.path))}
  {
    var longer := members + [m];
    forall i, j | 0 <= i < j < |longer| ensures naming.fold(Join(longer[i].path)) != naming.fold(Join(longer[j].path)) {
      assert longer[i] == members[i] && members[i] in members;
    }
  }

  /** `files`, `directories`, the disk and the registry agree with the members handled so far. */
  ghost predicate Reflects(naming: Naming, members: seq<Member>, files: set<Path>, directories: set<Path>,
                           contents: map<Path, Bytes>, seen: set<Path>, casefolded: set<Bytes>) {
    && files == (set m | m in members && m.content.Some? :: m.path)
    && (forall d :: d in directories <==> exists m :: m in members && d in NewDirectories(m))
    && contents.Keys == files
    && (forall m :: m in members && m.content.Some? ==> contents[m.path] == m.content.value)
    && DistinctFolds(naming, members)
    && seen == Paths(members) && casefolded == Folds(naming, members)
  }

  function NewFiles(m: Member): set<Path> {
    if m.content.Some? then {m.path} else {}
  }

  function NewDirectories(m: Member): set<Path> {
    (if m.content.Some? then {} else {m.path}) + ParentDirectories(m.path)
  }

  /** Registering and writing one member changed the registry and the disk in the right way. */
  ghost predicate Placed(naming: Naming, m: Member, seen: set<Path>, seen': set<Path>, folded: set<Bytes>, folded': set<Bytes>,
                         contents: map<Path, Bytes>, contents': map<Path, Bytes>) {
    && naming.fold(Join(m.path)) !in folded
    && seen' == seen + {m.path}
    && folded' == folded + {naming.fold(Join(m.path))}
    && contents' == if m.content.Some? then contents[m.path := m.content.value] else contents
  }

  lemma ReflectsMember(naming: Naming, members: seq<Member>, files: set<Path>, directories: set<Path>,
                       contents: map<Path, Bytes>, seen: set<Path>, folded: set<Bytes>, m: Member,
                       contents': map<Path, Bytes>, seen': set<Path>, folded': set<Bytes>)
    requires Reflects(naming, members, files, directories, contents, seen, folded)
    requires Placed(naming, m, seen, seen', folded, folded', contents, contents')
    ensures Reflects(naming, members + [m], files + NewFiles(m), directories + NewDirectories(m), contents', seen', folded')
  {
    var longer := members + [m];
    assert forall x :: x in longer <==> x in members || x == m;
    forall x | x in members ensures x.path != m.path {
      assert naming.fold(Join(x.path)) in folded;
    }
    NamesGrow(naming, members, m);
    forall d
      ensures d in directories + NewDirectories(m) <==> exists x :: x in longer && d in NewDirectories(x)
    {
      if exists x :: x in longer && d in NewDirectories(x) {
        var x :| x in longer && d in NewDirectories(x);
      }
      if d in NewDirectories(m) { assert m in longer; }
    }
  }

  /** Where the extraction loop stands. */
  ghost predicate Handled(naming: Naming, members: seq<Member>, files: set<Path>, directories: set<Path>,
                          contents: map<Path, Bytes>, seen: set<Path>, folded: set<Bytes>, total: int) {
    Reflects(naming, members, files, directories, contents, seen, folded) && total == TotalSize(members) <= MAX_TOTAL_BYTES
  }

  lemma NothingHandled(naming: Naming)
    ensures Handled(naming, [], {}, {}, map[], {}, {}, 0)
  {}

  lemma OneMoreHandled(naming: Naming, members: seq<Member>, files: set<Path>, directories: set<Path>,
                       contents: map<Path, Bytes>, seen: set<Path>, folded: set<Bytes>, total: int, m: Member,
                       contents': map<Path, Bytes>, seen': set<Path>, folded': set<Bytes>)
    requires Handled(naming, members, files, directories, contents, seen, folded, total) && total + Size(m) <= MAX_TOTAL_BYTES
    requires Placed(naming, m, seen, seen', folded, folded', contents, contents')
    ensures Handled(naming, members + [m], files + NewFiles(m), directories + NewDirectories(m), contents', seen', folded', total + Size(m))
  {
    ReflectsMember(naming, members, files, directories, contents, seen, folded, m, contents', seen', folded');
    TotalOfNext(members, m);
  }

  /**
     The returned sets, in terms of paths: the files are the paths of the file members;
     the directories are the directory members and all directories above any member.
   */
  lemma ReflectedPaths(naming: Naming, members: seq<Member>, files: set<Path>, directories: set<Path>,
                       contents: map<Path, Bytes>, seen: set<Path>, folded: set<Bytes>, d: Path)
    requires Reflects(naming, members, files, directories, contents, seen, folded)
    ensures d in files <==> exists m :: m in members && m.content.Some? && m.path == d
    ensures d in directories <==> exists m :: m in members && ((m.content.None? && m.path == d) || (d != [] && d < m.path))
  {
    forall m | m in members
      ensures d in NewDirectories(m) <==> (m.content.None? && m.path == d) || (d != [] && d < m.path)
    {
      DirectoriesArePrefixes(m.path, d);
    }
  }

  /** No file has the name of a directory that some member needs. */
  predicate TreeLike(members: seq<Member>) {
    forall a, b :: a in members && b in members && a.content.Some? ==> a.path !in NewDirectories(b)
  }

  /** What a reliable disk refuses. */
  predicate Clashes(m: Member, files: set<Path>, directories: set<Path>) {
    (m.content.Some? && (m.path in files || m.path in directories)) || !(NewDirectories(m) !! files)
  }

  /** In terms of the two ways to create a member. */
  lemma ClashesOf(m: Member, files: set<Path>, directories: set<Path>)
    requires m.path != []
    ensures NewDirectories(m) == if m.content.Some? then Prefixes(m.path[..|m.path| - 1]) else Prefixes(m.path)
    ensures Clashes(m, files, directories) <==>
      if m.content.Some? then Blocked(m.path, files, directories) else !(Prefixes(m.path) !! files)
  {
    PrefixesAreShorter(m.path);
  }

  lemma TreeGrows(naming: Naming, members: seq<Member>, files: set<Path>, directories: set<Path>,
                  contents: map<Path, Bytes>, seen: set<Path>, folded: set<Bytes>, m: Member)
    requires Reflects(naming, members, files, directories, contents, seen, folded)
    requires TreeLike(members) && !Clashes(m, files, directories)
    ensures TreeLike(members + [m])
  {
    forall a, b | a in members + [m] && b in members + [m] && a.content.Some? ensures a.path !in NewDirectories(b) {
      if a in members && b !in members { assert a.path in files; }
    }
  }

  /** In a tree-like listing no member clashes with the ones before it. */
  lemma NextDoesNotClash(naming: Naming, listing: seq<Member>, n: nat, files: set<Path>, directories: set<Path>,
                         contents: map<Path, Bytes>, seen: set<Path>, folded: set<Bytes>)
    requires n < |listing| && DistinctFolds(naming, listing) && TreeLike(listing)
    requires Reflects(naming, listing[..n], files, directories, contents, seen, folded)
    ensures !Clashes(listing[n], files, directories)
  {
    var m := listing[n];
    NextIsNew(naming, listing, n);
    assert forall x :: x in listing[..n] ==> x in listing;
    assert forall x :: x in listing[..n] && x.content.Some? ==> x.path !in NewDirectories(m);
  }

  // ---------- when an entry is refused, and why ----------

  /** First the name, then the first broken rule of the format. */
  function Refusal(naming: Naming, raw: Bytes, directory: bool, seen: set<Path>, folded: set<Bytes>, broken: Option<Error>): Option<Error> {
    match SafeRelativePath(naming.reserved, raw, directory)
    case None => Some(UnsafePath)
    case Some(path) => if path in seen || naming.fold(Join(path)) in folded then Some(DuplicatePath) else broken
  }

  /** Size limits before the copy, and what the copy finds. */
  function BrokenSizeRule(size: int, total: int): Option<Error> {
    if size < 0 || size > MAX_FILE_BYTES then Some(FileTooLarge)
    else if total + size > MAX_TOTAL_BYTES then Some(TotalTooLarge)
    else None
  }

  function BrokenCopyRule(size: int, content: Bytes): Option<Error> {
    if |content| > size then Some(Expanded) else if |content| < size then Some(SizeMismatch) else None
  }

  /** The only spelled path decides about the name. */
  lemma RefusalIsExact(naming: Naming, raw: Bytes, directory: bool, seen: set<Path>, folded: set<Bytes>, broken: Option<Error>)
    ensures Refusal(naming, raw, directory, seen, folded, broken) == None <==>
      broken == None && exists path :: Spells(naming.reserved, raw, directory, path) && path !in seen && naming.fold(Join(path)) !in folded
    ensures forall path :: Spells(naming.reserved, raw, directory, path) <==> SafeRelativePath(naming.reserved, raw, directory) == Some(path)
  {
    forall path ensures Spells(naming.reserved, raw, directory, path) <==> SafeRelativePath(naming.reserved, raw, directory) == Some(path) {
      SafeRelativePathIsExact(naming.reserved, raw, directory, path);
    }
  }

  /** The error is the refusal, or a failure of the system, which is asked only after all rules that can be decided without copying. */
  predicate Explains(error: Error, refusal: Option<Error>) {
    refusal == Some(error) || (error == System && refusal in {None, Some(Expanded), Some(SizeMismatch)})
  }

  /** In a listing every member is new to the ones before it, and fits behind them. */
  lemma NextFits(naming: Naming, listing: seq<Member>, n: nat)
    requires n < |listing| && DistinctFolds(naming, listing) && TotalSize(listing) <= MAX_TOTAL_BYTES
    ensures listing[n].path !in Paths(listing[..n]) && naming.fold(Join(listing[n].path)) !in Folds(naming, listing[..n])
    ensures TotalSize(listing[..n]) + Size(listing[n]) <= MAX_TOTAL_BYTES
  {
    NextIsNew(naming, listing, n);
    SumFits(listing, n);
  }

  lemma NextIsNew(naming: Naming, listing: seq<Member>, n: nat)
    requires n < |listing| && DistinctFolds(naming, listing)
    ensures listing[n].path !in Paths(listing[..n]) && naming.fold(Join(listing[n].path)) !in Folds(naming, listing[..n])
  {
    forall m | m in listing[..n] ensures naming.fold(Join(m.path)) != naming.fold(Join(listing[n].path)) {
      var i :| 0 <= i < n && listing[i] == m;
    }
  }

  lemma SumFits(listing: seq<Member>, n: nat)
    requires n < |listing|
    ensures TotalSize(listing[..n]) + Size(listing[n]) <= TotalSize(listing)
  {
    assert listing[..n + 1] == listing[..n] + [listing[n]];
    TotalOfNext(listing[..n], listing[n]);
    TotalGrows(listing, n + 1);
  }

  /** The name of an entry: refused before anything else is looked at, or registered and then refused by its broken rule. */
  method RegisterEntry(naming: Naming, raw: Bytes, directory: bool, registry: Registry, ghost broken: Option<Error>) returns (r: Result<Path, Error>)
    modifies registry
    ensures r.Ok? ==> Spells(naming.reserved, raw, directory, r.value) && naming.fold(Join(r.value)) !in old(registry.casefolded)
    ensures r.Ok? ==> registry.seen == old(registry.seen) + {r.value}
    ensures r.Ok? ==> registry.casefolded == old(registry.casefolded) + {naming.fold(Join(r.value))}
    ensures r.Ok? ==> Refusal(naming, raw, directory, old(registry.seen), old(registry.casefolded), broken) == broken
    ensures r.Ok? ==> forall path :: Spells(naming.reserved, raw, directory, path) ==> path == r.value
    ensures r.Err? ==> r.error in {UnsafePath, DuplicatePath}
    ensures r.Err? ==> Refusal(naming, raw, directory, old(registry.seen), old(registry.casefolded), broken) == Some(r.error)
  {
    RefusalIsExact(naming, raw, directory, registry.seen, registry.casefolded, broken);
    r := registry.Register(naming, raw, directory);
  }

  /** The member itself: a directory, or a stream over the content and the copy of the declared size. */
  method Place(disk: Disk, m: Member, size: nat) returns (r: Result<(), Error>)
    requires m.path != []
    modifies disk
    ensures old(disk.written) <= disk.written <= old(disk.written) + if m.content.Some? then size else 0
    ensures r.Ok? ==> disk.files == if m.content.Some? then old(disk.files)[m.path := m.content.value] else old(disk.files)
    ensures r.Ok? ==> disk.written == old(disk.written) + Size(m) && disk.directories == old(disk.directories) + NewDirectories(m)
    ensures r.Ok? ==> BrokenContentRule(m, size) == None
    ensures r.Err? ==> r.error == System || BrokenContentRule(m, size) == Some(r.error)
    ensures disk.reliable ==> (r == Err(System) <==> Clashes(m, old(disk.files).Keys, old(disk.directories)))
  {
    ClashesOf(m, disk.files.Keys, disk.directories);
    if m.content.None? {
      var made := disk.MakeDirectories(m.path);
      return if made then Ok(()) else Err(System);
    }
    var stream := new MemberStream(m.content.value);
    r := WriteMember(stream, disk, m.path, size);
  }

  function BrokenContentRule(m: Member, size: nat): Option<Error> {
    if m.content.None? then None else BrokenCopyRule(size, m.content.value)
  }

  // ---------- zip ----------

  predicate ZipMember(naming: Naming, e: ZipEntry, m: Member) {
    && Spells(naming.reserved, e.filename, e.isDir, m.path)
    && !e.encrypted
    && (e.fileType == Unspecified || e.fileType == if e.isDir then Directory else Regular)
    && m.content == (if e.isDir then None else Some(e.content))
    && (!e.isDir ==> |e.content| == e.fileSize <= MAX_FILE_BYTES && e.fileSize <= e.compressSize * MAX_COMPRESSION_RATIO)
  }

  /** The first broken rule for a zip entry, apart from its name. */
  function BrokenZipRule(e: ZipEntry, total: int): Option<Error> {
    if e.fileType == Symlink then Some(Link)
    else if e.encrypted then Some(Encrypted)
    else if e.fileType != Unspecified && e.fileType != (if e.isDir then Directory else Regular) then Some(WrongKind)
    else if e.isDir then None
    else if BrokenSizeRule(e.fileSize, total).Some? then BrokenSizeRule(e.fileSize, total)
    else if e.fileSize > 0 && (e.compressSize == 0 || e.fileSize > e.compressSize * MAX_COMPRESSION_RATIO) then Some(Ratio)
    else BrokenCopyRule(e.fileSize, e.content)
  }

  function ZipRefusal(naming: Naming, e: ZipEntry, seen: set<Path>, folded: set<Bytes>, total: int): Option<Error> {
    Refusal(naming, e.filename, e.isDir, seen, folded, BrokenZipRule(e, total))
  }

  /** An entry breaks no rule exactly when it is a member with a new name that still fits. */
  lemma ZipRefusalIsExact(naming: Naming, e: ZipEntry, seen: set<Path>, folded: set<Bytes>, total: nat)
    requires total <= MAX_TOTAL_BYTES
    ensures ZipRefusal(naming, e, seen, folded, total) == None <==>
      exists m :: ZipMember(naming, e, m) && m.path !in seen && naming.fold(Join(m.path)) !in folded && total + Size(m) <= MAX_TOTAL_BYTES
  {
    RefusalIsExact(naming, e.filename, e.isDir, seen, folded, BrokenZipRule(e, total));
    var safe := SafeRelativePath(naming.reserved, e.filename, e.isDir);
    if safe.Some? {
      var m := Member(safe.value, if e.isDir then None else Some(e.content));
      assert BrokenZipRule(e, total) == None <==> ZipMember(naming, e, m) && total + Size(m) <= MAX_TOTAL_BYTES;
    }
  }

  /** There is one member an entry can be. */
  lemma ZipMemberIsUnique(naming: Naming, e: ZipEntry, a: Member, b: Member)
    requires ZipMember(naming, e, a) && ZipMember(naming, e, b)
    ensures a == b
  {
    SafeRelativePathIsExact(naming.reserved, e.filename, e.isDir, a.path);
    SafeRelativePathIsExact(naming.reserved, e.filename, e.isDir, b.path);
  }

  /** The first entries are these members. */
  predicate AreZipMembers(naming: Naming, entries: seq<ZipEntry>, members: seq<Member>) {
    |members| <= |entries| && forall i :: 0 <= i < |members| ==> ZipMember(naming, entries[i], members[i])
  }

  lemma AreZipMembersGrow(naming: Naming, entries: seq<ZipEntry>, members: seq<Member>, m: Member)
    requires AreZipMembers(naming, entries, members) && |members| < |entries| && ZipMember(naming, entries[|members|], m)
    ensures AreZipMembers(naming, entries, members + [m])
  {}

  /** The entries are members under these names and with these contents, all names differ, and all fit. */
  predicate ZipListing(naming: Naming, entries: seq<ZipEntry>, members: seq<Member>) {
    && |members| == |entries| && AreZipMembers(naming, entries, members)
    && DistinctFolds(naming, members) && TotalSize(members) <= MAX_TOTAL_BYTES
  }

  /** What can be listed is not refused. */
  lemma ZipListingIsAccepted(naming: Naming, entries: seq<ZipEntry>, listing: seq<Member>, members: seq<Member>)
    requires ZipListing(naming, entries, listing) && |members| < |entries|
    requires AreZipMembers(naming, entries, members)
    ensures TotalSize(members) <= MAX_TOTAL_BYTES
    ensures ZipRefusal(naming, entries[|members|], Paths(members), Folds(naming, members), TotalSize(members)) == None
  {
    var n := |members|;
    forall i | 0 <= i < n ensures members[i] == listing[i] {
      ZipMemberIsUnique(naming, entries[i], members[i], listing[i]);
    }
    assert members == listing[..n];
    NextFits(naming, listing, n);
    ZipRefusalIsExact(naming, entries[n], Paths(members), Folds(naming, members), TotalSize(members));
  }

  /** Extraction stopped behind these members, with an error that the next entry explains. */
  predicate ZipStops(naming: Naming, entries: seq<ZipEntry>, members: seq<Member>, error: Error) {
    && |members| < |entries| && AreZipMembers(naming, entries, members)
    && Explains(error, ZipRefusal(naming, entries[|members|], Paths(members), Folds(naming, members), TotalSize(members)))
  }

  ghost predicate ZipListable(naming: Naming, entries: seq<ZipEntry>) {
    exists listing :: ZipListing(naming, entries, listing)
  }

  /** On entries that can be listed, extraction stops for the system only. */
  lemma ZipStopsForSystem(naming: Naming, entries: seq<ZipEntry>, members: seq<Member>, error: Error)
    requires ZipStops(naming, entries, members, error)
    ensures ZipListable(naming, entries) ==> error == System
  {
    if ZipListable(naming, entries) {
      var listing :| ZipListing(naming, entries, listing);
      ZipListingIsAccepted(naming, entries, listing, members);
    }
  }

  /** The entries can be listed, and as a tree. */
  ghost predicate ZipTree(naming: Naming, entries: seq<ZipEntry>) {
    exists listing :: ZipListing(naming, entries, listing) && TreeLike(listing)
  }

  /** On entries that form a tree, the next one does not clash. */
  lemma ZipTreeGoesOn(naming: Naming, entries: seq<ZipEntry>, members: seq<Member>, files: set<Path>, directories: set<Path>,
                      contents: map<Path, Bytes>, seen: set<Path>, folded: set<Bytes>)
    requires Reflects(naming, members, files, directories, contents, seen, folded)
    requires |members| < |entries| && AreZipMembers(naming, entries, members)
    ensures ZipTree(naming, entries) ==> exists m :: ZipMember(naming, entries[|members|], m) && !Clashes(m, files, directories)
    ensures ZipTree(naming, entries) ==> ZipListable(naming, entries)
  {
    if ZipTree(naming, entries) {
      var listing :| ZipListing(naming, entries, listing) && TreeLike(listing);
      var n := |members|;
      forall i | 0 <= i < n ensures members[i] == listing[i] {
        ZipMemberIsUnique(naming, entries[i], members[i], listing[i]);
      }
      assert members == listing[..n];
      NextDoesNotClash(naming, listing, n, files, directories, contents, seen, folded);
    }
  }

  lemma ZipStopsHere(naming: Naming, entries: seq<ZipEntry>, members: seq<Member>, files: set<Path>, directories: set<Path>,
                     contents: map<Path, Bytes>, seen: set<Path>, folded: set<Bytes>, total: int, error: Error)
    requires Handled(naming, members, files, directories, contents, seen, folded, total)
    requires |members| < |entries| && AreZipMembers(naming, entries, members)
    requires Explains(error, ZipRefusal(naming, entries[|members|], seen, folded, total))
    ensures ZipStops(naming, entries, members, error)
    ensures ZipListable(naming, entries) ==> error == System
  {
    ZipStopsForSystem(naming, entries, members, error);
  }

  /** The checks between the name and the copy, in their order; the result is the new total. */
  method CheckZipEntry(entry: ZipEntry, total: int) returns (r: Result<int, Error>)
    requires 0 <= total <= MAX_TOTAL_BYTES
    ensures r.Err? ==> BrokenZipRule(entry, total) == Some(r.error) && r.error !in {System, EntryCount}
    ensures r.Ok? ==> BrokenZipRule(entry, total) == if entry.isDir then None else BrokenCopyRule(entry.fileSize, entry.content)
    ensures r.Ok? ==> !entry.encrypted && (entry.fileType == Unspecified || entry.fileType == if entry.isDir then Directory else Regular)
    ensures r.Ok? ==> r.value == if entry.isDir then total else total + entry.fileSize
    ensures r.Ok? && !entry.isDir ==> 0 <= entry.fileSize <= MAX_FILE_BYTES && total + entry.fileSize <= MAX_TOTAL_BYTES
    ensures r.Ok? && !entry.isDir ==> entry.fileSize <= entry.compressSize * MAX_COMPRESSION_RATIO
  {
    if entry.fileType == Symlink { return Err(Link); }
    if entry.encrypted { return Err(Encrypted); }
    if entry.isDir {
      if entry.fileType != Unspecified && entry.fileType != Directory { return Err(WrongKind); }
      return Ok(total);
    }
    if entry.fileType != Unspecified && entry.fileType != Regular { return Err(WrongKind); }
    var size := BoundedSize(entry.fileSize, total);
    if size.Err? { return Err(size.error); }
    if entry.fileSize > 0 && (entry.compressSize == 0 || entry.fileSize > entry.compressSize * MAX_COMPRESSION_RATIO) {
      return Err(Ratio);
    }
    r := Ok(size.value);
  }

  /** One entry: the checks in their order, then the directory or the file. */
  method ExtractZipEntry(naming: Naming, entry: ZipEntry, registry: Registry, disk: Disk, total: int)
    returns (r: Result<(Member, int), Error>)
    requires 0 <= total <= MAX_TOTAL_BYTES
    modifies registry, disk
    ensures old(disk.written) <= disk.written <= old(disk.written) + MAX_TOTAL_BYTES - total
    ensures r.Ok? ==> ZipMember(naming, entry, r.value.0) && Placed(naming, r.value.0, old(registry.seen), registry.seen,
      old(registry.casefolded), registry.casefolded, old(disk.files), disk.files)
    ensures r.Ok? ==> ZipRefusal(naming, entry, old(registry.seen), old(registry.casefolded), total) == None
    ensures r != Err(EntryCount)
    ensures r.Ok? ==> disk.directories == old(disk.directories) + NewDirectories(r.value.0)
    ensures r.Ok? && disk.reliable ==> !Clashes(r.value.0, old(disk.files).Keys, old(disk.directories))
    ensures r == Err(System) && disk.reliable ==>
      forall m :: ZipMember(naming, entry, m) ==> Clashes(m, old(disk.files).Keys, old(disk.directories))
    ensures r.Err? ==> Explains(r.error, ZipRefusal(naming, entry, old(registry.seen), old(registry.casefolded), total))
    ensures r.Ok? ==> r.value.1 == total + Size(r.value.0)
    ensures r.Ok? ==> r.value.1 == total + disk.written - old(disk.written) <= MAX_TOTAL_BYTES
  {
    ghost var refusal, broken := ZipRefusal(naming, entry, registry.seen, registry.casefolded, total), BrokenZipRule(entry, total);
    var registered := RegisterEntry(naming, entry.filename, entry.isDir, registry, broken);
    if registered.Err? { return Err(registered.error); }
    var path := registered.value;
    assert refusal == broken;
    var checked := CheckZipEntry(entry, total);
    if checked.Err? { return Err(checked.error); }
    var member := Member(path, if entry.isDir then None else Some(entry.content));
    var placed := Place(disk, member, if entry.isDir then 0 else entry.fileSize);
    r := if placed.Ok? then Ok((member, checked.value)) else Err(placed.error);
  }

  /** One turn of the loop of `ExtractZip`: one more entry is handled, or extraction stops here. */
  method HandleZipEntry(naming: Naming, entries: seq<ZipEntry>, i: nat, ghost members: seq<Member>, registry: Registry, disk: Disk,
                        files: set<Path>, directories: set<Path>, total: int)
    returns (r: Result<(set<Path>, set<Path>, int), Error>, ghost longer: seq<Member>)
    requires i == |members| < |entries| && AreZipMembers(naming, entries, members)
    requires Handled(naming, members, files, directories, disk.files, registry.seen, registry.casefolded, total) && 0 <= total
    requires disk.directories == directories && (disk.reliable ==> TreeLike(members))
    modifies registry, disk
    ensures old(disk.written) <= disk.written <= old(disk.written) + MAX_TOTAL_BYTES - total
    ensures r.Ok? ==> |longer| == |members| + 1 && AreZipMembers(naming, entries, longer)
    ensures r.Ok? ==> Handled(naming, longer, r.value.0, r.value.1, disk.files, registry.seen, registry.casefolded, r.value.2)
    ensures r.Ok? ==> total <= r.value.2 == total + disk.written - old(disk.written)
    ensures r.Err? ==> r.error != EntryCount && longer == members && ZipStops(naming, entries, members, r.error)
    ensures r.Ok? ==> disk.directories == r.value.1 && (disk.reliable ==> TreeLike(longer))
    ensures r.Err? && disk.reliable ==> !ZipTree(naming, entries)
    ensures r.Err? && ZipListable(naming, entries) ==> r.error == System
  {
    var extracted := ExtractZipEntry(naming, entries[i], registry, disk, total);
    if extracted.Err? {
      ZipStopsHere(naming, entries, members, files, directories, old(disk.files), old(registry.seen), old(registry.casefolded), total, extracted.error);
      if disk.reliable {
        ZipTreeGoesOn(naming, entries, members, files, directories, old(disk.files), old(registry.seen), old(registry.casefolded));
      }
      return Err(extracted.error), members;
    }
    var member := extracted.value.0;
    OneMoreHandled(naming, members, files, directories, old(disk.files), old(registry.seen), old(registry.casefolded), total, member,
                   disk.files, registry.seen, registry.casefolded);
    if disk.reliable {
      TreeGrows(naming, members, files, directories, old(disk.files), old(registry.seen), old(registry.casefolded), member);
    }
    AreZipMembersGrow(naming, entries, members, member);
    r, longer := Ok((files + NewFiles(member), directories + NewDirectories(member), extracted.value.1)), members + [member];
  }

  /**
     Whatever the archive claims and however the extraction ends, at most
     MAX_TOTAL_BYTES are written. It ends well exactly if the entries can be listed and
     the system does not fail; then disk and results are exactly the members. Any other
     error is the refusal of the first entry that is refused.
   */
  method ExtractZip(naming: Naming, entries: seq<ZipEntry>, disk: Disk)
    returns (r: Result<(set<Path>, set<Path>), Error>, ghost members: seq<Member>)
    requires disk.files == map[] && disk.directories == {}
    modifies disk
    ensures old(disk.written) <= disk.written <= old(disk.written) + MAX_TOTAL_BYTES
    ensures r == Err(EntryCount) <==> |entries| == 0 || |entries| > MAX_ARCHIVE_ENTRIES
    ensures r.Ok? ==> ZipListing(naming, entries, members)
    ensures r.Ok? ==> Reflects(naming, members, r.value.0, r.value.1, disk.files, Paths(members), Folds(naming, members))
    ensures disk.reliable ==> (r.Ok? <==> 0 < |entries| <= MAX_ARCHIVE_ENTRIES && ZipTree(naming, entries))
    ensures ZipListable(naming, entries) ==> r.Ok? || r.error in {System, EntryCount}
    ensures r.Err? && r.error != EntryCount ==> ZipStops(naming, entries, members, r.error)
  {
    members := [];
    if |entries| == 0 || |entries| > MAX_ARCHIVE_ENTRIES { return Err(EntryCount), members; }
    var registry := new Registry();
    var files: set<Path>, directories: set<Path>, total := {}, {}, 0;
    var i := 0;
    NothingHandled(naming);
    while i < |entries|
      invariant i == |members| <= |entries|
      invariant disk.written == old(disk.written) + total && 0 <= total <= MAX_TOTAL_BYTES
      invariant AreZipMembers(naming, entries, members)
      invariant Handled(naming, members, files, directories, disk.files, registry.seen, registry.casefolded, total)
      invariant disk.directories == directories && (disk.reliable ==> TreeLike(members))
    {
      var handled;
      handled, members := HandleZipEntry(naming, entries, i, members, registry, disk, files, directories, total);
      if handled.Err? { return Err(handled.error), members; }
      files, directories, total := handled.value.0, handled.value.1, handled.value.2;
      i := i + 1;
    }
    r := Ok((files, directories));
  }

  // ---------- tar ----------

  predicate TarMember(naming: Naming, e: TarEntry, m: Member) {
    && Spells(naming.reserved, e.name, false, m.path)
    && e.kind != TarOther
    && m.content == (if e.kind == TarDirectory then None else Some(e.content))
    && (e.kind == TarFile ==> |e.content| == e.size <= MAX_FILE_BYTES)
  }

  /** The first broken rule for a tar entry, apart from its name. */
  function BrokenTarRule(e: TarEntry, total: int): Option<Error> {
    if e.kind == TarDirectory then None
    else if e.kind == TarOther then Some(WrongKind)
    else if BrokenSizeRule(e.size, total).Some? then BrokenSizeRule(e.size, total)
    else BrokenCopyRule(e.size, e.content)
  }

  function TarRefusal(naming: Naming, e: TarEntry, seen: set<Path>, folded: set<Bytes>, total: int): Option<Error> {
    Refusal(naming, e.name, false, seen, folded, BrokenTarRule(e, total))
  }

  /** An entry breaks no rule exactly when it is a member with a new name that still fits. */
  lemma TarRefusalIsExact(naming: Naming, e: TarEntry, seen: set<Path>, folded: set<Bytes>, total: nat)
    requires total <= MAX_TOTAL_BYTES
    ensures TarRefusal(naming, e, seen, folded, total) == None <==>
      exists m :: TarMember(naming, e, m) && m.path !in seen && naming.fold(Join(m.path)) !in folded && total + Size(m) <= MAX_TOTAL_BYTES
  {
    RefusalIsExact(naming, e.name, false, seen, folded, BrokenTarRule(e, total));
    var safe := SafeRelativePath(naming.reserved, e.name, false);
    if safe.Some? {
      var m := Member(safe.value, if e.kind == TarDirectory then None else Some(e.content));
      assert BrokenTarRule(e, total) == None <==> TarMember(naming, e, m) && total + Size(m) <= MAX_TOTAL_BYTES;
    }
  }

  lemma TarMemberIsUnique(naming: Naming, e: TarEntry, a: Member, b: Member)
    requires TarMember(naming, e, a) && TarMember(naming, e, b)
    ensures a == b
  {
    SafeRelativePathIsExact(naming.reserved, e.name, false, a.path);
    SafeRelativePathIsExact(naming.reserved, e.name, false, b.path);
  }

  /** The first entries are these members. */
  predicate AreTarMembers(naming: Naming, entries: seq<TarEntry>, members: seq<Member>) {
    |members| <= |entries| && forall i :: 0 <= i < |members| ==> TarMember(naming, entries[i], members[i])
  }

  lemma AreTarMembersGrow(naming: Naming, entries: seq<TarEntry>, members: seq<Member>, m: Member)
    requires AreTarMembers(naming, entries, members) && |members| < |entries| && TarMember(naming, entries[|members|], m)
    ensures AreTarMembers(naming, entries, members + [m])
  {}

  predicate TarListing(naming: Naming, entries: seq<TarEntry>, members: seq<Member>) {
    && |members| == |entries| && AreTarMembers(naming, entries, members)
    && DistinctFolds(naming, members) && TotalSize(members) <= MAX_TOTAL_BYTES
  }

  lemma TarListingIsAccepted(naming: Naming, entries: seq<TarEntry>, listing: seq<Member>, members: seq<Member>)
    requires TarListing(naming, entries, listing) && |members| < |entries|
    requires AreTarMembers(naming, entries, members)
    ensures TotalSize(members) <= MAX_TOTAL_BYTES
    ensures TarRefusal(naming, entries[|members|], Paths(members), Folds(naming, members), TotalSize(members)) == None
  {
    var n := |members|;
    forall i | 0 <= i < n ensures members[i] == listing[i] {
      TarMemberIsUnique(naming, entries[i], members[i], listing[i]);
    }
    assert members == listing[..n];
    NextFits(naming, listing, n);
    TarRefusalIsExact(naming, entries[n], Paths(members), Folds(naming, members), TotalSize(members));
  }

  /** Extraction stopped behind these members, with an error that the next entry explains. */
  predicate TarStops(naming: Naming, entries: seq<TarEntry>, members: seq<Member>, error: Error) {
    && |members| < |entries| && AreTarMembers(naming, entries, members)
    && Explains(error, TarRefusal(naming, entries[|members|], Paths(members), Folds(naming, members), TotalSize(members)))
  }

  ghost predicate TarListable(naming: Naming, entries: seq<TarEntry>) {
    exists listing :: TarListing(naming, entries, listing)
  }

  /** On entries that can be listed, extraction stops for the system only. */
  lemma TarStopsForSystem(naming: Naming, entries: seq<TarEntry>, members: seq<Member>, error: Error)
    requires TarStops(naming, entries, members, error)
    ensures TarListable(naming, entries) ==> error == System
  {
    if TarListable(naming, entries) {
      var listing :| TarListing(naming, entries, listing);
      TarListingIsAccepted(naming, entries, listing, members);
    }
  }

  /** The entries can be listed, and as a tree. */
  ghost predicate TarTree(naming: Naming, entries: seq<TarEntry>) {
    exists listing :: TarListing(naming, entries, listing) && TreeLike(listing)
  }

  /** On entries that form a tree, the next one does not clash. */
  lemma TarTreeGoesOn(naming: Naming, entries: seq<TarEntry>, members: seq<Member>, files: set<Path>, directories: set<Path>,
                      contents: map<Path, Bytes>, seen: set<Path>, folded: set<Bytes>)
    requires Reflects(naming, members, files, directories, contents, seen, folded)
    requires |members| < |entries| && AreTarMembers(naming, entries, members)
    ensures TarTree(naming, entries) ==> exists m :: TarMember(naming, entries[|members|], m) && !Clashes(m, files, directories)
    ensures TarTree(naming, entries) ==> TarListable(naming, entries)
  {
    if TarTree(naming, entries) {
      var listing :| TarListing(naming, entries, listing) && TreeLike(listing);
      var n := |members|;
      forall i | 0 <= i < n ensures members[i] == listing[i] {
        TarMemberIsUnique(naming, entries[i], members[i], listing[i]);
      }
      assert members == listing[..n];
      NextDoesNotClash(naming, listing, n, files, directories, contents, seen, folded);
    }
  }

  lemma TarStopsHere(naming: Naming, entries: seq<TarEntry>, members: seq<Member>, files: set<Path>, directories: set<Path>,
                     contents: map<Path, Bytes>, seen: set<Path>, folded: set<Bytes>, total: int, error: Error)
    requires Handled(naming, members, files, directories, contents, seen, folded, total)
    requires |members| < |entries| && AreTarMembers(naming, entries, members)
    requires Explains(error, TarRefusal(naming, entries[|members|], seen, folded, total))
    ensures TarStops(naming, entries, members, error)
    ensures TarListable(naming, entries) ==> error == System
  {
    TarStopsForSystem(naming, entries, members, error);
  }

  /** The checks between the name and the copy; the result is the new total. */
  method CheckTarEntry(entry: TarEntry, total: int) returns (r: Result<int, Error>)
    requires 0 <= total <= MAX_TOTAL_BYTES
    ensures r.Err? ==> BrokenTarRule(entry, total) == Some(r.error) && r.error !in {System, EntryCount}
    ensures r.Ok? ==> BrokenTarRule(entry, total) == if entry.kind == TarDirectory then None else BrokenCopyRule(entry.size, entry.content)
    ensures r.Ok? ==> entry.kind != TarOther && r.value == if entry.kind == TarDirectory then total else total + entry.size
    ensures r.Ok? && entry.kind == TarFile ==> 0 <= entry.size <= MAX_FILE_BYTES && total + entry.size <= MAX_TOTAL_BYTES
  {
    if entry.kind == TarDirectory { return Ok(total); }
    if entry.kind == TarOther { return Err(WrongKind); }
    var size := BoundedSize(entry.size, total);
    r := if size.Ok? then Ok(size.value) else Err(size.error);
  }

  method ExtractTarEntry(naming: Naming, entry: TarEntry, registry: Registry, disk: Disk, total: int)
    returns (r: Result<(Member, int), Error>)
    requires 0 <= total <= MAX_TOTAL_BYTES
    modifies registry, disk
    ensures old(disk.written) <= disk.written <= old(disk.written) + MAX_TOTAL_BYTES - total
    ensures r.Ok? ==> TarMember(naming, entry, r.value.0) && Placed(naming, r.value.0, old(registry.seen), registry.seen,
      old(registry.casefolded), registry.casefolded, old(disk.files), disk.files)
    ensures r.Ok? ==> TarRefusal(naming, entry, old(registry.seen), old(registry.casefolded), total) == None
    ensures r != Err(EntryCount)
    ensures r.Ok? ==> disk.directories == old(disk.directories) + NewDirectories(r.value.0)
    ensures r.Ok? && disk.reliable ==> !Clashes(r.value.0, old(disk.files).Keys, old(disk.directories))
    ensures r == Err(System) && disk.reliable ==>
      forall m :: TarMember(naming, entry, m) ==> Clashes(m, old(disk.files).Keys, old(disk.directories))
    ensures r.Err? ==> Explains(r.error, TarRefusal(naming, entry, old(registry.seen), old(registry.casefolded), total))
    ensures r.Ok? ==> r.value.1 == total + Size(r.value.0)
    ensures r.Ok? ==> r.value.1 == total + disk.written - old(disk.written) <= MAX_TOTAL_BYTES
  {
    ghost var refusal, broken := TarRefusal(naming, entry, registry.seen, registry.casefolded, total), BrokenTarRule(entry, total);
    var registered := RegisterEntry(naming, entry.name, false, registry, broken);
    if registered.Err? { return Err(registered.error); }
    var path := registered.value;
    assert refusal == broken;
    var checked := CheckTarEntry(entry, total);
    if checked.Err? { return Err(checked.error); }
    var member := Member(path, if entry.kind == TarDirectory then None else Some(entry.content));
    var placed := Place(disk, member, if entry.kind == TarDirectory then 0 else entry.size);
    r := if placed.Ok? then Ok((member, checked.value)) else Err(placed.error);
  }

  /** One turn of the loop of `ExtractTar`: one more entry is handled, or extraction stops here. */
  method HandleTarEntry(naming: Naming, entries: seq<TarEntry>, i: nat, ghost members: seq<Member>, registry: Registry, disk: Disk,
                        files: set<Path>, directories: set<Path>, total: int)
    returns (r: Result<(set<Path>, set<Path>, int), Error>, ghost longer: seq<Member>)
    requires i == |members| < |entries| && AreTarMembers(naming, entries, members)
    requires Handled(naming, members, files, directories, disk.files, registry.seen, registry.casefolded, total) && 0 <= total
    requires disk.directories == directories && (disk.reliable ==> TreeLike(members))
    modifies registry, disk
    ensures old(disk.written) <= disk.written <= old(disk.written) + MAX_TOTAL_BYTES - total
    ensures r.Ok? ==> |longer| == |members| + 1 && AreTarMembers(naming, entries, longer)
    ensures r.Ok? ==> Handled(naming, longer, r.value.0, r.value.1, disk.files, registry.seen, registry.casefolded, r.value.2)
    ensures r.Ok? ==> total <= r.value.2 == total + disk.written - old(disk.written)
    ensures r.Err? ==> r.error != EntryCount && longer == members && TarStops(naming, entries, members, r.error)
    ensures r.Ok? ==> disk.directories == r.value.1 && (disk.reliable ==> TreeLike(longer))
    ensures r.Err? && disk.reliable ==> !TarTree(naming, entries)
    ensures r.Err? && TarListable(naming, entries) ==> r.error == System
  {
    var extracted := ExtractTarEntry(naming, entries[i], registry, disk, total);
    if extracted.Err? {
      TarStopsHere(naming, entries, members, files, directories, old(disk.files), old(registry.seen), old(registry.casefolded), total, extracted.error);
      if disk.reliable {
        TarTreeGoesOn(naming, entries, members, files, directories, old(disk.files), old(registry.seen), old(registry.casefolded));
      }
      return Err(extracted.error), members;
    }
    var member := extracted.value.0;
    OneMoreHandled(naming, members, files, directories, old(disk.files), old(registry.seen), old(registry.casefolded), total, member,
                   disk.files, registry.seen, registry.casefolded);
    if disk.reliable {
      TreeGrows(naming, members, files, directories, old(disk.files), old(registry.seen), old(registry.casefolded), member);
    }
    AreTarMembersGrow(naming, entries, members, member);
    r, longer := Ok((files + NewFiles(member), directories + NewDirectories(member), extracted.value.1)), members + [member];
  }

  method ExtractTar(naming: Naming, entries: seq<TarEntry>, disk: Disk)
    returns (r: Result<(set<Path>, set<Path>), Error>, ghost members: seq<Member>)
    requires disk.files == map[] && disk.directories == {}
    modifies disk
    ensures old(disk.written) <= disk.written <= old(disk.written) + MAX_TOTAL_BYTES
    ensures r == Err(EntryCount) <==> |entries| == 0 || |entries| > MAX_ARCHIVE_ENTRIES
    ensures r.Ok? ==> TarListing(naming, entries, members)
    ensures r.Ok? ==> Reflects(naming, members, r.value.0, r.value.1, disk.files, Paths(members), Folds(naming, members))
    ensures disk.reliable ==> (r.Ok? <==> 0 < |entries| <= MAX_ARCHIVE_ENTRIES && TarTree(naming, entries))
    ensures TarListable(naming, entries) ==> r.Ok? || r.error in {System, EntryCount}
    ensures r.Err? && r.error != EntryCount ==> TarStops(naming, entries, members, r.error)
  {
    members := [];
    if |entries| == 0 || |entries| > MAX_ARCHIVE_ENTRIES { return Err(EntryCount), members; }
    var registry := new Registry();
    var files: set<Path>, directories: set<Path>, total := {}, {}, 0;
    var i := 0;
    NothingHandled(naming);
    while i < |entries|
      invariant i == |members| <= |entries|
      invariant disk.written == old(disk.written) + total && 0 <= total <= MAX_TOTAL_BYTES
      invariant AreTarMembers(naming, entries, members)
      invariant Handled(naming, members, files, directories, disk.files, registry.seen, registry.casefolded, total)
      invariant disk.directories == directories && (disk.reliable ==> TreeLike(members))
    {
      var handled;
      handled, members := HandleTarEntry(naming, entries, i, members, registry, disk, files, directories, total);
      if handled.Err? { return Err(handled.error), members; }
      files, directories, total := handled.value.0, handled.value.1, handled.value.2;
      i := i + 1;
    }
    r := Ok((files, directories));
  }
}
