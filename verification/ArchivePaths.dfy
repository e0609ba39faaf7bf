/**
 Model of `_safe_relative_path` in scripts/verify_final_archive.py (lines 106-133).
 Names are UTF-8 bytes, so a length in bytes is a length. `PurePosixPath` is
 modelled by its documented parsing: split at slashes, drop empty and "." parts,
 remember a leading slash. Which stems Windows reserves is a parameter.
 */
module ArchivePaths {
  import opened Common

  type Path = seq<Bytes>

  const SPACE: byte := 32
  const DOT: byte := 46
  const SLASH: byte := 47
  const COLON: byte := 58
  const BACKSLASH: byte := 92
  const MAX_PATH_BYTES := 1024
  const MAX_PATH_DEPTH := 64
  const MAX_PART_BYTES := 255

  // ---------- specification ----------

  predicate SafePart(reserved: Bytes -> bool, part: Bytes) {
    && 0 < |part| <= MAX_PART_BYTES
    && part[|part| - 1] != SPACE && part[|part| - 1] != DOT
    && !reserved(part)
    && SLASH !in part && COLON !in part && NUL !in part && BACKSLASH !in part
  }

  /** The spelling of a relative path: its parts with a slash between neighbours. */
  function Join(path: Path): Bytes {
    if path == [] then [] else if |path| == 1 then path[0] else path[0] + [SLASH] + Join(path[1..])
  }

  /** `raw` is the one admitted spelling of `path`. */
  predicate Spells(reserved: Bytes -> bool, raw: Bytes, directory: bool, path: Path) {
    && path != [] && |path| <= MAX_PATH_DEPTH
    && (forall i :: 0 <= i < |path| ==> SafePart(reserved, path[i]))
    && raw == Join(path) + (if directory then [SLASH] else [])
    && |raw| <= MAX_PATH_BYTES
  }

  /** Where a path leads from `base`, one part at a time, as a file system reads it. */
  function Walk(base: Path, path: Path): Path
    decreases path
  {
    if path == [] then base
    else if path[0] == [DOT, DOT] then Walk(if base == [] then [] else base[..|base| - 1], path[1..])
    else if path[0] == [] || path[0] == [DOT] then Walk(base, path[1..])
    else Walk(base + [path[0]], path[1..])
  }

  // ---------- the program ----------

  /** The pieces between slashes. */
  function Split(s: Bytes): (pieces: seq<Bytes>)
    ensures pieces != [] && forall i :: 0 <= i < |pieces| ==> SLASH !in pieces[i]
  {
    if s == [] then [[]]
    else
      var rest := Split(s[1..]);
      if s[0] == SLASH then [[]] + rest else [[s[0]] + rest[0]] + rest[1..]
  }

  function DropTrivial(pieces: seq<Bytes>): (parts: Path)
    ensures forall i :: 0 <= i < |parts| ==> parts[i] in pieces && parts[i] != [] && parts[i] != [DOT]
  {
    if pieces == [] then []
    else (if pieces[0] == [] || pieces[0] == [DOT] then [] else [pieces[0]]) + DropTrivial(pieces[1..])
  }

  /** `PurePosixPath(spelling)`: an absolute path keeps its leading slash as a root. */
  datatype PosixPath = PosixPath(absolute: bool, parts: Path) {
    function AsPosix(): Bytes {
      if absolute then [SLASH] + Join(parts) else if parts == [] then [DOT] else Join(parts)
    }
  }

  function ParsePosix(spelling: Bytes): PosixPath {
    PosixPath(spelling != [] && spelling[0] == SLASH, DropTrivial(Split(spelling)))
  }

  function SafeRelativePath(reserved: Bytes -> bool, raw: Bytes, directory: bool): Option<Path> {
    if raw == [] || NUL in raw || BACKSLASH in raw then None
    else
      var spelling := if directory && raw[|raw| - 1] == SLASH then raw[..|raw| - 1] else raw;
      var path := ParsePosix(spelling);
      if raw != path.AsPosix() + (if directory then [SLASH] else []) then None
      else if || path.parts == [] || path.absolute
              || |raw| > MAX_PATH_BYTES || |path.parts| > MAX_PATH_DEPTH
              || AnyUnsafe(reserved, path.parts) then None
      else Some(path.parts)
  }

  predicate AnyUnsafe(reserved: Bytes -> bool, parts: Path) {
    exists i :: 0 <= i < |parts| && UnsafeComponent(reserved, parts[i])
  }

  predicate UnsafeComponent(reserved: Bytes -> bool, part: Bytes) {
    || |part| > MAX_PART_BYTES
    || (part != [] && part[|part| - 1] in {SPACE, DOT})
    || reserved(part)
    || part in {[], [DOT], [DOT, DOT]}
    || COLON in part
  }

  // ---------- what it accepts ----------

  lemma {:induction false} JoinBytes(path: Path, b: byte)
    ensures b != SLASH ==> (b in Join(path) <==> exists i :: 0 <= i < |path| && b in path[i])
  {
    if |path| > 1 {
      JoinBytes(path[1..], b);
      if b != SLASH && b in Join(path[1..]) {
        var i :| 0 <= i < |path[1..]| && b in path[1..][i];
        assert b in path[i + 1];
      }
      if exists i :: 0 <= i < |path| && b in path[i] {
        var i :| 0 <= i < |path| && b in path[i];
        assert i > 0 ==> path[i] == path[1..][i - 1];
      }
    } else if |path| == 1 {
      assert b in path[0] ==> exists i :: 0 <= i < |path| && b in path[i];
    }
  }

  lemma {:induction false} SplitPiece(piece: Bytes, rest: Bytes)
    requires SLASH !in piece
    ensures Split(piece) == [piece]
    ensures Split(piece + [SLASH] + rest) == [piece] + Split(rest)
  {
    if piece == [] {
      assert piece + [SLASH] + rest == [SLASH] + rest;
      assert ([SLASH] + rest)[1..] == rest;
    } else {
      SplitPiece(piece[1..], rest);
      assert (piece + [SLASH] + rest)[1..] == piece[1..] + [SLASH] + rest;
      assert piece == [piece[0]] + piece[1..];
    }
  }

  /** Splitting undoes joining. */
  lemma {:induction false} SplitJoin(path: Path)
    requires path != [] && forall i :: 0 <= i < |path| ==> SLASH !in path[i]
    ensures Split(Join(path)) == path
  {
    if |path| == 1 {
      SplitPiece(path[0], []);
    } else {
      SplitPiece(path[0], Join(path[1..]));
      SplitJoin(path[1..]);
      assert path == [path[0]] + path[1..];
    }
  }

  lemma {:induction false} DropsNothing(pieces: seq<Bytes>)
    requires forall i :: 0 <= i < |pieces| ==> pieces[i] != [] && pieces[i] != [DOT]
    ensures DropTrivial(pieces) == pieces
  {
    if pieces != [] {
      DropsNothing(pieces[1..]);
      assert pieces == [pieces[0]] + pieces[1..];
    }
  }

  /** A name is accepted exactly when it is the admitted spelling of a list of safe parts, and that list is the answer. */
  lemma SafeRelativePathIsExact(reserved: Bytes -> bool, raw: Bytes, directory: bool, path: Path)
    ensures SafeRelativePath(reserved, raw, directory) == Some(path) <==> Spells(reserved, raw, directory, path)
  {
    if SafeRelativePath(reserved, raw, directory) == Some(path) {
      AcceptedIsSpelled(reserved, raw, directory, path);
    }
    if Spells(reserved, raw, directory, path) {
      SpelledIsAccepted(reserved, raw, directory, path);
    }
  }

  lemma AcceptedIsSpelled(reserved: Bytes -> bool, raw: Bytes, directory: bool, path: Path)
    requires SafeRelativePath(reserved, raw, directory) == Some(path)
    ensures Spells(reserved, raw, directory, path)
  {
    assert !AnyUnsafe(reserved, path);
    assert forall b :: b in Join(path) ==> b in raw;
    JoinBytes(path, NUL);
    JoinBytes(path, BACKSLASH);
    forall i | 0 <= i < |path| ensures SafePart(reserved, path[i]) {
      assert !UnsafeComponent(reserved, path[i]);
    }
  }

  /** What the single bytes of safe parts say about the joined spelling. */
  lemma SafeBytes(reserved: Bytes -> bool, path: Path)
    requires path != [] && forall i :: 0 <= i < |path| ==> SafePart(reserved, path[i])
    ensures NUL !in Join(path) && BACKSLASH !in Join(path)
    ensures Join(path) != [] && Join(path)[0] != SLASH
  {
    JoinBytes(path, NUL);
    JoinBytes(path, BACKSLASH);
    assert SafePart(reserved, path[0]);
    assert Join(path)[0] == path[0][0] && path[0][0] in path[0];
  }

  lemma SafeIsNotUnsafe(reserved: Bytes -> bool, path: Path)
    requires forall i :: 0 <= i < |path| ==> SafePart(reserved, path[i])
    ensures !AnyUnsafe(reserved, path)
  {
    forall i | 0 <= i < |path| ensures !UnsafeComponent(reserved, path[i]) {
      assert SafePart(reserved, path[i]);
    }
  }

  /** A joined list of safe parts parses back to that list. */
  lemma ParseJoin(reserved: Bytes -> bool, path: Path)
    requires path != [] && forall i :: 0 <= i < |path| ==> SafePart(reserved, path[i])
    ensures ParsePosix(Join(path)) == PosixPath(false, path)
  {
    forall i | 0 <= i < |path| ensures SLASH !in path[i] && path[i] != [] && path[i] != [DOT] {
      assert SafePart(reserved, path[i]);
    }
    SafeBytes(reserved, path);
    SplitJoin(path);
    DropsNothing(path);
  }

  lemma SpelledIsAccepted(reserved: Bytes -> bool, raw: Bytes, directory: bool, path: Path)
    requires Spells(reserved, raw, directory, path)
    ensures SafeRelativePath(reserved, raw, directory) == Some(path)
  {
    ParseJoin(reserved, path);
    SafeBytes(reserved, path);
    SafeIsNotUnsafe(reserved, path);
    var suffix := if directory then [SLASH] else [];
    assert raw == Join(path) + suffix;
    assert NUL !in suffix && BACKSLASH !in suffix;
    if directory {
      assert raw[|raw| - 1] == SLASH && raw[..|raw| - 1] == Join(path);
    } else {
      assert raw == Join(path);
    }
  }

  /** An accepted path leads strictly below the directory it is resolved against. */
  lemma AcceptedStaysBelow(reserved: Bytes -> bool, raw: Bytes, directory: bool, path: Path, destination: Path)
    requires SafeRelativePath(reserved, raw, directory) == Some(path)
    ensures Walk(destination, path) == destination + path && path != []
  {
    SafeRelativePathIsExact(reserved, raw, directory, path);
    forall i | 0 <= i < |path| ensures path[i] != [] && path[i] != [DOT] && path[i] != [DOT, DOT] {
      assert SafePart(reserved, path[i]);
    }
    PlainWalk(destination, path);
  }

  lemma {:induction false} PlainWalk(base: Path, path: Path)
    requires forall i :: 0 <= i < |path| ==> path[i] != [] && path[i] != [DOT] && path[i] != [DOT, DOT]
    ensures Walk(base, path) == base + path
    decreases path
  {
    if path != [] {
      PlainWalk(base + [path[0]], path[1..]);
      assert base + path == base + [path[0]] + path[1..];
    } else {
      assert base + path == base;
    }
  }

  /** Different accepted paths have different spellings. */
  lemma JoinIsInjective(reserved: Bytes -> bool, a: Path, b: Path)
    requires a != [] && b != []
    requires forall i :: 0 <= i < |a| ==> SafePart(reserved, a[i])
    requires forall i :: 0 <= i < |b| ==> SafePart(reserved, b[i])
    ensures Join(a) == Join(b) <==> a == b
  {
    assert forall i :: 0 <= i < |a| ==> SLASH !in a[i] by { assert forall i :: 0 <= i < |a| ==> SafePart(reserved, a[i]); }
    assert forall i :: 0 <= i < |b| ==> SLASH !in b[i] by { assert forall i :: 0 <= i < |b| ==> SafePart(reserved, b[i]); }
    SplitJoin(a);
    SplitJoin(b);
  }
}
