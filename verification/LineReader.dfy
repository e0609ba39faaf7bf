/**
 Model of crates/dcc-cua-cli/src/bounded_jsonl.rs.

 `ChunkSource` stands for the asynchronous buffered reader: it delivers a byte
 stream in non-empty chunks of any size. `BoundedJsonlReader`
 reads one bounded line at a time from it, in place. The specification knows
 nothing about chunks: it cuts the byte stream into newline-inclusive segments.
 */
module LineReader {
  import opened Common

  const NEWLINE: byte := 10

  /** What one call of `next_line` answers. */
  datatype Line = Text(bytes: Bytes) | TooLong | NotUtf8 | EndOfStream

  // ---------- specification: segments of a byte stream ----------

  predicate NoNewline(s: Bytes) {
    forall i :: 0 <= i < |s| ==> s[i] != NEWLINE
  }

  /** Non-empty, and a newline can only be the last byte. */
  predicate IsSegment(s: Bytes) {
    s != [] && NoNewline(s[..|s| - 1])
  }

  predicate Terminated(s: Bytes) {
    s != [] && s[|s| - 1] == NEWLINE
  }

  /** `parts` is the line split of `s`: segments that join to `s`, all terminated but perhaps the last. */
  predicate IsLineSplit(parts: seq<Bytes>, s: Bytes) {
    && Flatten(parts) == s
    && (forall i :: 0 <= i < |parts| ==> IsSegment(parts[i]))
    && (forall i :: 0 <= i < |parts| - 1 ==> Terminated(parts[i]))
  }

  /** `head` is the first segment of `s`: up to and including the first newline, or all of it. */
  predicate IsFirst(s: Bytes, head: Bytes) {
    head <= s && IsSegment(head) && (Terminated(head) || head == s)
  }

  function FirstSegment(s: Bytes): (head: Bytes)
    requires s != []
    ensures IsFirst(s, head)
  {
    if s[0] == NEWLINE || |s| == 1 then [s[0]] else [s[0]] + FirstSegment(s[1..])
  }

  function Segments(s: Bytes): seq<Bytes> {
    if s == [] then [] else var head := FirstSegment(s); [head] + Segments(s[|head|..])
  }

  /** The verdict on one segment: size first, then encoding. */
  function Judge(utf8: Bytes -> bool, segment: Bytes): Line {
    if |segment| > MAX_JSON_FRAME_BYTES then TooLong
    else if utf8(segment) then Text(segment) else NotUtf8
  }

  /** There is only one first segment. */
  lemma FirstIsUnique(s: Bytes, a: Bytes, b: Bytes)
    requires IsFirst(s, a) && IsFirst(s, b)
    ensures a == b
  {
    if |a| < |b| { PrefixEndsLine(s, a, b); }
    if |b| < |a| { PrefixEndsLine(s, b, a); }
    assert a == s[..|a|] && b == s[..|b|];
  }

  /** A first segment cannot go on behind a shorter one. */
  lemma PrefixEndsLine(s: Bytes, short: Bytes, long: Bytes)
    requires IsFirst(s, short) && IsFirst(s, long)
    ensures |short| >= |long|
  {
    var last := |short| - 1;
    assert short[last] == s[last];
    assert forall i :: 0 <= i < |long| - 1 ==> long[..|long| - 1][i] == s[i];
  }

  lemma {:induction false} SegmentsSplit(s: Bytes)
    ensures IsLineSplit(Segments(s), s)
    decreases |s|
  {
    if s != [] {
      var head := FirstSegment(s);
      var tail := s[|head|..];
      SegmentsSplit(tail);
      SplitGrows(head, Segments(tail), tail);
      assert head + tail == s;
    }
  }

  lemma OnlyNothingSplitsToNothing(parts: seq<Bytes>, s: Bytes)
    requires IsLineSplit(parts, s)
    ensures parts == [] <==> s == []
  {
    assert parts != [] ==> |Flatten(parts)| == |parts[0]| + |Flatten(parts[1..])|;
  }

  lemma SplitGrows(head: Bytes, parts: seq<Bytes>, rest: Bytes)
    requires IsSegment(head) && IsLineSplit(parts, rest)
    requires Terminated(head) || rest == []
    ensures IsLineSplit([head] + parts, head + rest)
  {
    var longer := [head] + parts;
    assert longer[1..] == parts;
    OnlyNothingSplitsToNothing(parts, rest);
    forall i | 0 <= i < |longer| ensures IsSegment(longer[i]) {
      assert i > 0 ==> longer[i] == parts[i - 1];
    }
    forall i | 0 <= i < |longer| - 1 ensures Terminated(longer[i]) {
      assert i > 0 ==> longer[i] == parts[i - 1];
    }
  }

  /** The first part of a line split is the first segment, and the others split what follows it. */
  lemma SplitShrinks(parts: seq<Bytes>, s: Bytes)
    requires IsLineSplit(parts, s) && s != []
    ensures parts != [] && IsFirst(s, parts[0])
    ensures IsLineSplit(parts[1..], s[|parts[0]|..])
  {
    var head, rest := parts[0], parts[1..];
    assert s == head + Flatten(rest);
    assert s[|head|..] == Flatten(rest);
    forall i | 0 <= i < |rest| ensures IsSegment(rest[i]) && (i < |rest| - 1 ==> Terminated(rest[i])) {
      assert rest[i] == parts[i + 1];
    }
    if rest == [] { assert Flatten(rest) == []; }
  }

  lemma {:induction false} SplitIsSegments(s: Bytes, parts: seq<Bytes>)
    requires IsLineSplit(parts, s)
    ensures parts == Segments(s)
    decreases |s|
  {
    OnlyNothingSplitsToNothing(parts, s);
    if s != [] {
      SplitShrinks(parts, s);
      FirstIsUnique(s, parts[0], FirstSegment(s));
      SplitIsSegments(s[|parts[0]|..], parts[1..]);
      assert parts == [parts[0]] + parts[1..];
    }
  }

  /** `Segments` computes the line split, and no other list of segments is one. */
  lemma SegmentsAreTheLineSplit(s: Bytes, parts: seq<Bytes>)
    ensures IsLineSplit(parts, s) <==> parts == Segments(s)
  {
    SegmentsSplit(s);
    if IsLineSplit(parts, s) { SplitIsSegments(s, parts); }
  }

  /** Which part of a chunk belongs to the current line. */
  function Take(chunk: Bytes, newline: Option<nat>): nat {
    if newline.None? then |chunk| else newline.value + 1
  }

  /** `newline` is the index of the first newline of the chunk. */
  predicate IsFirstNewline(chunk: Bytes, newline: Option<nat>) {
    match newline
    case None => NoNewline(chunk)
    case Some(i) => i < |chunk| && chunk[i] == NEWLINE && NoNewline(chunk[..i])
  }

  /**
     A newline-free buffer takes from the stream what belongs to its line: it stays
     newline-free, or becomes the first segment.
   */
  lemma LineGrows(buffer: Bytes, before: Bytes, chunk: Bytes, newline: Option<nat>)
    requires NoNewline(buffer) && chunk != [] && chunk <= before && IsFirstNewline(chunk, newline)
    ensures var take := Take(chunk, newline); var grown, rest := buffer + chunk[..take], before[take..];
      && buffer + before == grown + rest && |rest| < |before|
      && if newline.None? then NoNewline(grown) else IsFirst(grown + rest, grown)
  {
    var take := Take(chunk, newline);
    var grown := buffer + chunk[..take];
    assert before == chunk[..take] + before[take..];
    if newline.Some? {
      assert grown[..|grown| - 1] == buffer + chunk[..newline.value];
    }
  }

  /** A newline-free beginning belongs to the first segment of whatever follows it. */
  lemma FirstSegmentOfAppend(prefix: Bytes, rest: Bytes, head: Bytes)
    requires NoNewline(prefix) && prefix + rest != []
    requires if rest == [] then head == [] else IsFirst(rest, head)
    ensures IsFirst(prefix + rest, prefix + head)
  {
    var joined := prefix + head;
    assert prefix + rest == joined + rest[|head|..];
    if head != [] {
      assert joined[..|joined| - 1] == prefix + head[..|head| - 1];
    }
  }

  // ---------- the reader ----------

  /** A byte stream behind a buffer. Nobody controls how much of it the buffer holds at a time. */
  class ChunkSource {
    /** What has not been consumed, the buffered bytes first. */
    var stream: Bytes
    var buffered: nat

    ghost predicate Valid() reads this {
      buffered <= |stream|
    }

    constructor (stream: Bytes)
      ensures Valid() && this.stream == stream
    {
      this.stream := stream;
      this.buffered := 0;
    }

    /** The buffered bytes without consuming them, after filling an empty buffer; empty only at the end of the stream. */
    method FillBuf() returns (chunk: Bytes)
      requires Valid()
      modifies this`buffered
      ensures Valid() && chunk == stream[..buffered]
      ensures chunk == [] <==> stream == []
    {
      if buffered == 0 && stream != [] {
        var size: nat :| 1 <= size <= |stream|;
        buffered := size;
      }
      chunk := stream[..buffered];
    }

    method Consume(count: nat)
      requires Valid() && count <= buffered
      modifies this
      ensures Valid() && stream == old(stream)[count..]
    {
      stream := stream[count..];
      buffered := buffered - count;
    }
  }

  /** Index of the first newline of a chunk. */
  method Position(chunk: Bytes) returns (found: Option<nat>)
    ensures IsFirstNewline(chunk, found)
  {
    var i := 0;
    while i < |chunk|
      invariant i <= |chunk| && NoNewline(chunk[..i])
    {
      if chunk[i] == NEWLINE { return Some(i); }
      i := i + 1;
    }
    found := None;
  }

  class BoundedJsonlReader {
    const reader: ChunkSource
    const utf8: Bytes -> bool

    constructor (reader: ChunkSource, utf8: Bytes -> bool)
      ensures this.reader == reader && this.utf8 == utf8
    {
      this.reader := reader;
      this.utf8 := utf8;
    }

    /**
     One line; `segment` is what was taken off the stream for it, and `peak` the
     largest size the line buffer ever had.
     */
    method NextLine() returns (line: Line, ghost segment: Bytes, ghost peak: nat)
      requires reader.Valid()
      modifies reader
      ensures reader.Valid()
      ensures peak <= MAX_JSON_FRAME_BYTES
      ensures old(reader.stream) == segment + reader.stream
      ensures old(reader.stream) == [] ==> line == EndOfStream
      ensures old(reader.stream) != [] ==> IsFirst(old(reader.stream), segment) && line == Judge(utf8, segment)
    {
      ghost var stream := reader.stream;
      var buffer: Bytes := [];
      segment, peak := [], 0;
      while true
        invariant reader.Valid()
        invariant stream == buffer + reader.stream
        invariant NoNewline(buffer)
        invariant |buffer| <= peak <= MAX_JSON_FRAME_BYTES
        decreases |reader.stream|
      {
        var chunk := reader.FillBuf();
        if chunk == [] {
          segment := buffer;
          if buffer == [] {
            return EndOfStream, segment, peak;
          }
          return if utf8(buffer) then Text(buffer) else NotUtf8, segment, peak;
        }
        var newline := Position(chunk);
        var take := Take(chunk, newline);
        ghost var before := reader.stream;
        ghost var grown, rest := buffer + chunk[..take], before[take..];
        LineGrows(buffer, before, chunk, newline);
        if |buffer| + take > MAX_JSON_FRAME_BYTES {
          reader.Consume(take);
          segment := grown;
          if newline.None? {
            ghost var skipped := DiscardUntilNewline();
            FirstSegmentOfAppend(grown, rest, skipped);
            segment := grown + skipped;
          }
          return TooLong, segment, peak;
        }
        buffer := buffer + chunk[..take];
        peak := if |buffer| > peak then |buffer| else peak;
        reader.Consume(take);
        if newline.Some? {
          segment := buffer;
          return if utf8(buffer) then Text(buffer) else NotUtf8, segment, peak;
        }
      }
    }

    /** Skips the rest of an over-long line, which is `skipped`. */
    method DiscardUntilNewline() returns (ghost skipped: Bytes)
      requires reader.Valid()
      modifies reader
      ensures reader.Valid()
      ensures old(reader.stream) == skipped + reader.stream
      ensures if old(reader.stream) == [] then skipped == [] else IsFirst(old(reader.stream), skipped)
    {
      ghost var stream := reader.stream;
      skipped := [];
      while true
        invariant reader.Valid()
        invariant stream == skipped + reader.stream
        invariant NoNewline(skipped)
        decreases |reader.stream|
      {
        var chunk := reader.FillBuf();
        if chunk == [] {
          return;
        }
        var newline := Position(chunk);
        var take := Take(chunk, newline);
        var endsWithNewline := chunk[|chunk| - 1] == NEWLINE;
        ghost var before := reader.stream;
        ghost var grown, rest := skipped + chunk[..take], before[take..];
        LineGrows(skipped, before, chunk, newline);
        assert newline.Some? <==> take < |chunk| || endsWithNewline;
        reader.Consume(take);
        skipped := grown;
        if take < |chunk| || endsWithNewline {
          return;
        }
      }
    }

    /**
     Any number of successive calls: the verdicts on the segments of the stream,
     one per call and in order, and then the end of the stream for ever. The
     answer mentions the bytes only, so the chunk boundaries cannot matter.
     */
    method NextLines(calls: nat) returns (lines: seq<Line>)
      requires reader.Valid()
      modifies reader
      ensures reader.Valid()
      ensures |lines| == calls
      ensures forall i :: 0 <= i < calls ==>
        lines[i] == if i < |Segments(old(reader.stream))|
                    then Judge(utf8, Segments(old(reader.stream))[i])
                    else EndOfStream
    {
      ghost var segments := Segments(reader.stream);
      lines := [];
      while |lines| < calls
        invariant reader.Valid() && |lines| <= calls
        invariant Segments(reader.stream) == if |lines| <= |segments| then segments[|lines|..] else []
        invariant forall i :: 0 <= i < |lines| ==>
          lines[i] == if i < |segments| then Judge(utf8, segments[i]) else EndOfStream
      {
        ghost var before := reader.stream;
        var line, segment, _ := NextLine();
        if before != [] {
          FirstIsUnique(before, segment, FirstSegment(before));
          assert before[|segment|..] == reader.stream;
          assert Segments(before)[1..] == Segments(reader.stream);
        }
        lines := lines + [line];
      }
    }
  }
}
