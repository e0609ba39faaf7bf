/**
 Model of the native-messaging framing in crates/dcc-cua-cli/src/browser_extension.rs
 (`read_native_message`, `write_native_message`, lines 368-408): a four-byte
 little-endian length followed by a JSON body.
 */
module Framing {
  import opened Common

  const TWO_TO_THE_32: nat := 0x1_0000_0000

  datatype Error = UnexpectedEof | LengthOutOfRange | InvalidJson

  /** The JSON library: `decode` undoes `encode`, and nothing else is known about it. */
  datatype Json<!V> = Json(encode: V -> Bytes, decode: Bytes -> Option<V>) {
    ghost predicate Faithful(v: V) {
      decode(encode(v)) == Some(v)
    }
  }

  predicate AdmissibleLength(n: int) {
    0 < n <= MAX_JSON_FRAME_BYTES
  }

  // ---------- four little-endian bytes ----------

  function ToLeBytes(n: nat): (bytes: Bytes)
    requires n < TWO_TO_THE_32
    ensures |bytes| == 4
  {
    [(n % 256) as byte, (n / 256 % 256) as byte, (n / 65536 % 256) as byte, (n / 16777216) as byte]
  }

  function FromLeBytes(b: Bytes): (n: nat)
    requires |b| == 4
    ensures n < TWO_TO_THE_32
  {
    b[0] as nat + 256 * b[1] as nat + 65536 * b[2] as nat + 16777216 * b[3] as nat
  }

  lemma LeBytesRoundTrip(n: nat)
    requires n < TWO_TO_THE_32
    ensures FromLeBytes(ToLeBytes(n)) == n
  {
    var a, b, c := n / 256, n / 65536, n / 16777216;
    assert b == a / 256 && c == b / 256;
    assert n == 256 * a + n % 256 && a == 256 * b + a % 256 && b == 256 * c + b % 256;
  }

  lemma LeBytesInjective(b: Bytes)
    requires |b| == 4
    ensures ToLeBytes(FromLeBytes(b)) == b
  {
    var n := FromLeBytes(b);
    var a := b[1] as nat + 256 * b[2] as nat + 65536 * b[3] as nat;
    var c := b[2] as nat + 256 * b[3] as nat;
    assert n == b[0] as nat + 256 * a && n / 256 == a && n % 256 == b[0] as nat;
    assert a == b[1] as nat + 256 * c && n / 65536 == c && a % 256 == b[1] as nat;
    assert n / 16777216 == b[3] as nat && c % 256 == b[2] as nat;
  }

  /** The least byte comes first: the first byte is the remainder, and the others are the bytes of the quotient. */
  lemma LeastByteFirst(n: nat)
    requires n < TWO_TO_THE_32
    ensures ToLeBytes(n)[0] as nat == n % 256
    ensures ToLeBytes(n / 256) == ToLeBytes(n)[1..] + [0]
  {
    var a, b, c := n / 256, n / 65536, n / 16777216;
    assert b == a / 256 && c == b / 256 && a / 65536 == c && a / 16777216 == 0;
    assert c % 256 == c;
  }

  lemma LeastByteFirstReading(b: Bytes)
    requires |b| == 4
    ensures FromLeBytes(b) % 256 == b[0] as nat && FromLeBytes(b) / 256 == FromLeBytes(b[1..] + [0])
  {
    var rest := b[1] as nat + 256 * b[2] as nat + 65536 * b[3] as nat;
    assert FromLeBytes(b) == b[0] as nat + 256 * rest;
  }

  // ---------- specification: frames on a byte stream ----------

  function Frame(body: Bytes): Bytes
    requires |body| < TWO_TO_THE_32
  {
    ToLeBytes(|body|) + body
  }

  /** `stream` begins with a well-formed frame around `body`, followed by `rest`. */
  predicate StartsWithFrame(stream: Bytes, body: Bytes, rest: Bytes) {
    AdmissibleLength(|body|) && stream == Frame(body) + rest
  }

  /** All messages of a list, one frame after the other. */
  function Transcript<V>(json: Json<V>, messages: seq<V>): Bytes
    requires forall i :: 0 <= i < |messages| ==> AdmissibleLength(|json.encode(messages[i])|)
  {
    if messages == [] then []
    else
      assert AdmissibleLength(|json.encode(messages[0])|);
      Frame(json.encode(messages[0])) + Transcript(json, messages[1..])
  }

  lemma {:induction false} TranscriptGrows<V>(json: Json<V>, messages: seq<V>, last: V)
    requires forall i :: 0 <= i < |messages| ==> AdmissibleLength(|json.encode(messages[i])|)
    requires AdmissibleLength(|json.encode(last)|)
    ensures Transcript(json, messages + [last]) == Transcript(json, messages) + Frame(json.encode(last))
  {
    if messages == [] {
      assert Transcript(json, messages + [last]) == Frame(json.encode(last)) + [];
    } else {
      assert (messages + [last])[1..] == messages[1..] + [last];
      TranscriptGrows(json, messages[1..], last);
    }
  }

  lemma OnlyNothingIsEmpty<V>(json: Json<V>, messages: seq<V>)
    requires forall i :: 0 <= i < |messages| ==> AdmissibleLength(|json.encode(messages[i])|)
    ensures Transcript(json, messages) == [] <==> messages == []
  {}

  /** A stream starts with at most one frame: the length prefix decides where it ends. */
  lemma FrameIsUnique(stream: Bytes, body: Bytes, rest: Bytes, body': Bytes, rest': Bytes)
    requires StartsWithFrame(stream, body, rest) && StartsWithFrame(stream, body', rest')
    ensures body == body' && rest == rest'
  {
    LeBytesRoundTrip(|body|);
    LeBytesRoundTrip(|body'|);
    assert stream[..4] == ToLeBytes(|body|) && stream[..4] == ToLeBytes(|body'|);
    assert stream[4..][..|body|] == body && stream[4..][..|body'|] == body';
    assert stream[4 + |body|..] == rest && stream[4 + |body'|..] == rest';
  }

  // ---------- the two functions ----------

  class Pipe {
    var pending: Bytes

    constructor ()
      ensures pending == []
    {
      pending := [];
    }

    method WriteAll(bytes: Bytes)
      modifies this
      ensures pending == old(pending) + bytes
    {
      pending := pending + bytes;
    }

    /** Exactly `count` bytes, or the end of the stream; what a failing read swallows is not specified. */
    method ReadExact(count: nat) returns (r: Result<Bytes, Error>)
      modifies this
      ensures r.Ok? <==> count <= |old(pending)|
      ensures r.Ok? ==> r.value == old(pending)[..count] && pending == old(pending)[count..]
      ensures r.Err? ==> r.error == UnexpectedEof
    {
      if count <= |pending| {
        r := Ok(pending[..count]);
        pending := pending[count..];
      } else {
        pending := [];
        r := Err(UnexpectedEof);
      }
    }
  }

  /** The writer accepts a message iff its encoding has an admissible length, and writes nothing otherwise. */
  method WriteNativeMessage<V>(writer: Pipe, json: Json<V>, value: V) returns (r: Result<(), Error>)
    modifies writer
    ensures r.Ok? <==> AdmissibleLength(|json.encode(value)|)
    ensures r.Ok? ==> writer.pending == old(writer.pending) + Frame(json.encode(value))
    ensures r.Err? ==> r.error == LengthOutOfRange && writer.pending == old(writer.pending)
  {
    var body := json.encode(value);
    if |body| == 0 || |body| > MAX_JSON_FRAME_BYTES {
      return Err(LengthOutOfRange);
    }
    writer.WriteAll(ToLeBytes(|body| % TWO_TO_THE_32));
    writer.WriteAll(body);
    assert writer.pending == old(writer.pending) + Frame(body);
    r := Ok(());
  }

  /**
     The reader succeeds iff the stream starts with a frame whose body parses, and
     then takes exactly that frame off the stream.
   */
  method ReadNativeMessage<V>(reader: Pipe, json: Json<V>) returns (r: Result<V, Error>)
    modifies reader
    ensures r.Ok? ==> exists body :: StartsWithFrame(old(reader.pending), body, reader.pending) && json.decode(body) == Some(r.value)
    ensures forall body, rest :: StartsWithFrame(old(reader.pending), body, rest) ==>
      reader.pending == rest && r == match json.decode(body) case Some(v) => Ok(v) case None => Err(InvalidJson)
    ensures r == Err(LengthOutOfRange) <==>
      |old(reader.pending)| >= 4 && !AdmissibleLength(FromLeBytes(old(reader.pending)[..4]))
    ensures r == Err(UnexpectedEof) <==>
      |old(reader.pending)| < 4
      || (AdmissibleLength(FromLeBytes(old(reader.pending)[..4])) && |old(reader.pending)| < 4 + FromLeBytes(old(reader.pending)[..4]))
  {
    ghost var stream := reader.pending;
    forall body, rest | StartsWithFrame(stream, body, rest)
      ensures |stream| == 4 + |body| + |rest| && FromLeBytes(stream[..4]) == |body|
    {
      LeBytesRoundTrip(|body|);
      assert stream[..4] == ToLeBytes(|body|);
    }
    var prefix := reader.ReadExact(4);
    if prefix.Err? { return Err(prefix.error); }
    var length := FromLeBytes(prefix.value);
    if length == 0 || length > MAX_JSON_FRAME_BYTES {
      return Err(LengthOutOfRange);
    }
    var body := reader.ReadExact(length);
    if body.Err? { return Err(body.error); }
    LeBytesInjective(prefix.value);
    assert stream == Frame(body.value) + reader.pending;
    assert StartsWithFrame(stream, body.value, reader.pending);
    forall body', rest' | StartsWithFrame(stream, body', rest') ensures body' == body.value && rest' == reader.pending {
      FrameIsUnique(stream, body.value, reader.pending, body', rest');
    }
    var value := json.decode(body.value);
    r := match value case Some(v) => Ok(v) case None => Err(InvalidJson);
  }

  /** Writing any list of admissible messages and reading as many back yields the list and an empty stream. */
  method Exchange<V>(json: Json<V>, messages: seq<V>) returns (received: seq<V>)
    requires forall i :: 0 <= i < |messages| ==> AdmissibleLength(|json.encode(messages[i])|)
    requires forall i :: 0 <= i < |messages| ==> json.Faithful(messages[i])
    ensures received == messages
  {
    var pipe := new Pipe();
    var i := 0;
    while i < |messages|
      invariant i <= |messages|
      invariant pipe.pending == Transcript(json, messages[..i])
    {
      TranscriptGrows(json, messages[..i], messages[i]);
      assert messages[..i + 1] == messages[..i] + [messages[i]];
      var _ := WriteNativeMessage(pipe, json, messages[i]);
      i := i + 1;
    }
    assert messages[..i] == messages;
    received := [];
    while pipe.pending != []
      invariant |received| <= |messages|
      invariant received == messages[..|received|]
      invariant pipe.pending == Transcript(json, messages[|received|..])
      decreases |messages| - |received|
    {
      ghost var left := messages[|received|..];
      assert StartsWithFrame(pipe.pending, json.encode(left[0]), Transcript(json, left[1..]));
      assert json.Faithful(messages[|received|]);
      assert messages[|received| + 1..] == left[1..];
      var next := ReadNativeMessage(pipe, json);
      received := received + [next.value];
    }
    OnlyNothingIsEmpty(json, messages[|received|..]);
    assert messages[..|messages|] == messages;
  }

  /** Two lists of messages with the same transcript are the same list. */
  lemma {:induction false} TranscriptIsInjective<V>(json: Json<V>, a: seq<V>, b: seq<V>)
    requires forall i :: 0 <= i < |a| ==> AdmissibleLength(|json.encode(a[i])|) && json.Faithful(a[i])
    requires forall i :: 0 <= i < |b| ==> AdmissibleLength(|json.encode(b[i])|) && json.Faithful(b[i])
    requires Transcript(json, a) == Transcript(json, b)
    ensures a == b
  {
    if a != [] && b != [] {
      FrameIsUnique(Transcript(json, a), json.encode(a[0]), Transcript(json, a[1..]), json.encode(b[0]), Transcript(json, b[1..]));
      assert json.Faithful(a[0]) && json.Faithful(b[0]);
      TranscriptIsInjective(json, a[1..], b[1..]);
      assert a == [a[0]] + a[1..] && b == [b[0]] + b[1..];
    }
  }
}
