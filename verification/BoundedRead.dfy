/**
 * Size-bounded reading of response bodies in TypeScript (`readWithLimit`, `concat`, the artifact
 * sink) and PHP (`boundedBody`), for every way the network cuts a body into chunks.
 */
module BoundedRead {
  import opened Prelude

  newtype Byte = b: int | 0 <= b < 256

  type Bytes = seq<Byte>

  /** What follows the last chunk: the end, a broken stream, or an abort by the caller. */
  datatype Close = Ends | Breaks | Aborts

  datatype ReadError = TooLarge | Broken | Aborted

  function Body(chunks: seq<Bytes>): Bytes {
    if |chunks| == 0 then [] else Body(chunks[..|chunks| - 1]) + chunks[|chunks| - 1]
  }

  /** The outcome in terms of the whole body alone. */
  function Bounded(limit: nat, declared: int, body: Bytes, close: Close): Result<Bytes, ReadError> {
    if declared > limit || |body| > limit then Err(TooLarge)
    else match close
      case Ends => Ok(body)
      case Breaks => Err(Broken)
      case Aborts => Err(Aborted)
  }

  // ---------------------------------------------------------------- TypeScript: concat and readWithLimit

  lemma {:induction false} BodySnoc(chunks: seq<Bytes>, chunk: Bytes)
    ensures Body(chunks + [chunk]) == Body(chunks) + chunk
  {
    assert (chunks + [chunk])[..|chunks|] == chunks;
  }

  lemma {:induction false} BodyGrows(chunks: seq<Bytes>, k: nat)
    requires k <= |chunks|
    ensures Body(chunks[..k]) <= Body(chunks)
    decreases |chunks| - k
  {
    if k == |chunks| {
      assert chunks[..k] == chunks;
    } else {
      assert chunks[..k + 1][..k] == chunks[..k];
      BodyGrows(chunks, k + 1);
    }
  }

  /** Copies the chunks one behind the other into a buffer of the counted size. */
  method Concat(chunks: seq<Bytes>, size: nat) returns (result: array<Byte>)
    requires size == |Body(chunks)|
    ensures fresh(result) && result[..] == Body(chunks)
  {
    result := new Byte[size](_ => 0);
    var offset := 0;
    for i := 0 to |chunks|
      invariant offset == |Body(chunks[..i])| <= size
      invariant result[..offset] == Body(chunks[..i])
    {
      var chunk := chunks[i];
      assert chunks[..i + 1][..i] == chunks[..i];
      BodyGrows(chunks, i + 1);
      forall j | 0 <= j < |chunk| {
        result[offset + j] := chunk[j];
      }
      assert result[..offset + |chunk|] == result[..offset] + chunk;
      offset := offset + |chunk|;
    }
    assert chunks[..|chunks|] == chunks;
  }

  /** `declared` is the number in Content-Length, 0 without the header. */
  method ReadWithLimit(limit: nat, declared: int, stream: seq<Bytes>, close: Close)
    returns (r: Result<Bytes, ReadError>)
    ensures r == Bounded(limit, declared, Body(stream), close)
  {
    if declared > limit {
      return Err(TooLarge);
    }
    var chunks: seq<Bytes>, size: nat := [], 0;
    for i := 0 to |stream|
      invariant chunks == stream[..i] && size == |Body(chunks)| <= limit
    {
      BodySnoc(chunks, stream[i]);
      assert stream[..i + 1] == chunks + [stream[i]];
      size := size + |stream[i]|;
      if size > limit {
        BodyGrows(stream, i + 1);
        return Err(TooLarge);
      }
      chunks := chunks + [stream[i]];
    }
    assert stream[..|stream|] == stream;
    if close.Breaks? {
      return Err(Broken);
    }
    if close.Aborts? {
      return Err(Aborted);
    }
    var whole := Concat(chunks, size);
    r := Ok(whole[..]);
  }

  // ---------------------------------------------------------------- TypeScript: streaming into a sink

  /** A sink with what it received; its `write` and `close` may reject. */
  class Sink {
    var received: Bytes
    var writes: nat
    var closed: bool
    var aborted: bool
    const rejectsWrite: Option<nat>
    const rejectsClose: bool

    constructor (rejectsWrite: Option<nat>, rejectsClose: bool)
      ensures received == [] && writes == 0 && !closed && !aborted
      ensures this.rejectsWrite == rejectsWrite && this.rejectsClose == rejectsClose
    {
      received, writes, closed, aborted := [], 0, false, false;
      this.rejectsWrite, this.rejectsClose := rejectsWrite, rejectsClose;
    }

    method Write(chunk: Bytes) returns (accepted: bool)
      modifies this`received, this`writes
      ensures writes == old(writes) + 1
      ensures accepted <==> rejectsWrite != Some(old(writes))
      ensures received == if accepted then old(received) + chunk else old(received)
    {
      accepted := rejectsWrite != Some(writes);
      writes := writes + 1;
      if accepted {
        received := received + chunk;
      }
    }

    method Close() returns (accepted: bool)
      modifies this`closed
      ensures accepted <==> !rejectsClose
      ensures closed == (accepted || old(closed))
    {
      accepted := !rejectsClose;
      closed := closed || accepted;
    }

    method Abort()
      modifies this`aborted
      ensures aborted
    {
      aborted := true;
    }
  }

  datatype ArtifactError = ReadFailed(read: ReadError) | WriteRejected | CloseRejected | ChecksumMalformed |
      ChecksumMismatch

  function LowerChar(c: char): char { if 'A' <= c <= 'Z' then (c as int + 32) as char else c }

  function Lower(s: string): string { Map(LowerChar, s) }

  /** The same letter up to case, or the same character. */
  predicate SameLetter(a: char, b: char) {
    || a == b
    || ('A' <= a <= 'Z' && b as int == a as int + 32)
    || ('A' <= b <= 'Z' && a as int == b as int + 32)
  }

  /** Lowering leaves no capital and compares texts up to the case of ASCII letters. */
  lemma {:induction false} LowerIff(a: string, b: string)
    ensures forall c :: c in Lower(a) ==> !('A' <= c <= 'Z')
    ensures Lower(a) == Lower(b) <==> |a| == |b| && forall i :: 0 <= i < |a| ==> SameLetter(a[i], b[i])
  {
    if |a| == |b| && forall i :: 0 <= i < |a| ==> SameLetter(a[i], b[i]) {
      assert forall i :: 0 <= i < |a| ==> Lower(a)[i] == Lower(b)[i];
    }
    if Lower(a) == Lower(b) {
      forall i | 0 <= i < |a| ensures SameLetter(a[i], b[i]) {
        assert Lower(a)[i] == Lower(b)[i];
      }
    }
  }

  predicate IsHexDigest(s: string) {
    |s| == 64 && forall c :: c in s ==> '0' <= c <= '9' || 'a' <= c <= 'f' || 'A' <= c <= 'F'
  }

  /** The empty expectation is no expectation; hexadecimal case does not matter. */
  predicate ChecksumOk(sha256: Bytes -> string, expected: string, body: Bytes) {
    expected == "" || (IsHexDigest(expected) && sha256(body) == Lower(expected))
  }

  /** An expectation is met when it is 64 hexadecimal digits and, up to the case of its letters, the digest. */
  lemma {:induction false} ChecksumIff(sha256: Bytes -> string, expected: string, body: Bytes)
    requires forall c :: c in sha256(body) ==> !('A' <= c <= 'Z')
    ensures ChecksumOk(sha256, expected, body) <==>
      || expected == ""
      || (|expected| == |sha256(body)| == 64 && (forall c :: c in expected ==> c in "0123456789abcdefABCDEF")
          && forall i :: 0 <= i < 64 ==> SameLetter(expected[i], sha256(body)[i]))
  {
    var digest := sha256(body);
    assert forall i :: 0 <= i < |digest| ==> digest[i] in digest;
    assert Lower(digest) == digest;
    LowerIff(expected, sha256(body));
    forall c ensures c in "0123456789abcdefABCDEF" <==> '0' <= c <= '9' || 'a' <= c <= 'f' || 'A' <= c <= 'F' {
      HexLetters(c);
    }
  }

  lemma {:induction false} HexLetters(c: char)
    ensures c in "0123456789abcdefABCDEF" <==> '0' <= c <= '9' || 'a' <= c <= 'f' || 'A' <= c <= 'F'
  {
    var digits := "0123456789abcdefABCDEF";
    if '0' <= c <= '9' {
      assert digits[c as int - '0' as int] == c;
    } else if 'a' <= c <= 'f' {
      assert digits[c as int - 'a' as int + 10] == c;
    } else if 'A' <= c <= 'F' {
      assert digits[c as int - 'A' as int + 16] == c;
    }
  }

  /** The body of `downloadDatasetArtifactTo` once a response with a success status has come. */
  method DownloadToSink(sink: Sink, sha256: Bytes -> string, limit: nat, declared: int, expected: string,
      stream: seq<Bytes>, close: Close)
    returns (error: Option<ArtifactError>)
    requires sink.received == [] && sink.writes == 0 && !sink.closed && !sink.aborted
    modifies sink
    ensures sink.received <= Body(stream) && |sink.received| <= limit
    ensures error.None? <==> sink.closed
    ensures sink.aborted <==> error.Some?
    ensures error.None? ==> Bounded(limit, declared, Body(stream), close) == Ok(sink.received)
    ensures error.None? ==> ChecksumOk(sha256, expected, sink.received)
    ensures sink.rejectsWrite.None? && !sink.rejectsClose ==>
      (error.None? <==> Bounded(limit, declared, Body(stream), close).Ok? && ChecksumOk(sha256, expected, Body(stream)))
  {
    var size := 0;
    var checksumChunks: seq<Bytes> := [];
    if declared > limit {
      sink.Abort();
      return Some(ReadFailed(TooLarge));
    }
    for i := 0 to |stream|
      invariant sink.received == Body(stream[..i]) && size == |Body(stream[..i])| <= limit
      invariant !sink.closed && !sink.aborted
      invariant expected != "" ==> checksumChunks == stream[..i]
    {
      var chunk := stream[i];
      assert stream[..i + 1] == stream[..i] + [chunk];
      BodySnoc(stream[..i], chunk);
      BodyGrows(stream, i);
      BodyGrows(stream, i + 1);
      size := size + |chunk|;
      if size > limit {
        sink.Abort();
        return Some(ReadFailed(TooLarge));
      }
      if expected != "" {
        checksumChunks := checksumChunks + [chunk];
      }
      var accepted := sink.Write(chunk);
      if !accepted {
        sink.Abort();
        return Some(WriteRejected);
      }
    }
    assert stream[..|stream|] == stream;
    if !close.Ends? {
      sink.Abort();
      return Some(ReadFailed(if close.Breaks? then Broken else Aborted));
    }
    if expected != "" {
      if !IsHexDigest(expected) {
        sink.Abort();
        return Some(ChecksumMalformed);
      }
      var whole := Concat(checksumChunks, size);
      if sha256(whole[..]) != Lower(expected) {
        sink.Abort();
        return Some(ChecksumMismatch);
      }
    }
    var accepted := sink.Close();
    if !accepted {
      sink.Abort();
      return Some(CloseRejected);
    }
    error := None;
  }

  // ---------------------------------------------------------------- PHP: boundedBody

  /**
   * A body stream: each read returns part of what was asked, and `eof` may turn true one read
   * late. A broken one delivers `body` and throws at the next read instead of ending.
   */
  class Stream {
    const body: Bytes
    const sizes: nat -> nat
    const lateEnd: bool
    const breaks: bool
    var position: nat
    var count: nat
    var ended: bool

    predicate Valid()
      reads this
    {
      position <= |body| && (ended ==> position == |body| && !breaks)
    }

    constructor (body: Bytes, sizes: nat -> nat, lateEnd: bool, breaks: bool)
      ensures Valid() && position == 0 && this.body == body && this.breaks == breaks
    {
      this.body, this.sizes, this.lateEnd, this.breaks := body, sizes, lateEnd, breaks;
      position, count := 0, 0;
      ended := |body| == 0 && !lateEnd && !breaks;
    }

    /** What is left of the stream: its bytes, and its end when that is not reached yet. */
    function Left(): nat
      requires Valid()
      reads this
    {
      |body| - position + (if ended then 0 else 1)
    }

    /** Progress: at least one byte while any are left; `thrown` is the exception of a broken stream. */
    method Read(asked: nat) returns (chunk: Bytes, thrown: bool)
      requires Valid() && asked > 0 && !ended
      modifies this
      ensures Valid() && position == old(position) + |chunk| && chunk == body[old(position)..position] &&
        |chunk| <= asked
      ensures thrown <==> breaks && old(position) == |body|
      ensures !thrown ==> Left() < old(Left())
    {
      var left := |body| - position;
      if left == 0 && breaks {
        return [], true;
      }
      var wanted := if sizes(count) == 0 then 1 else sizes(count);
      var taken := if wanted < asked then wanted else asked;
      if taken > left {
        taken := left;
      }
      chunk, thrown := body[position..position + taken], false;
      if position + taken == |body| && !breaks && (!lateEnd || taken == 0) {
        ended := true;
      }
      position, count := position + taken, count + 1;
    }
  }

  const READ_SIZE := 65_536

  method BoundedBody(stream: Stream, declared: Option<int>, limit: nat) returns (r: Result<Bytes, ReadError>)
    requires stream.Valid() && stream.position == 0
    modifies stream
    ensures r == Bounded(limit, if declared.Some? then declared.value else 0, stream.body,
      if stream.breaks then Breaks else Ends)
  {
    if declared.Some? && declared.value > limit {
      return Err(TooLarge);
    }
    var out: Bytes := [];
    while !stream.ended
      invariant stream.Valid() && out == stream.body[..stream.position] && |out| <= limit
      decreases stream.Left()
    {
      var room := limit - |out| + 1;
      var chunk, thrown := stream.Read(if room < READ_SIZE then room else READ_SIZE);
      if thrown {
        assert stream.body[..|stream.body|] == stream.body;
        return Err(Broken);
      }
      out := out + chunk;
      if |out| > limit {
        return Err(TooLarge);
      }
    }
    assert stream.body[..|stream.body|] == stream.body;
    r := Ok(out);
  }

  // ---------------------------------------------------------------- chunking never matters

  /** With an honest length, the body comes back whole exactly when it fits. */
  lemma {:induction false} HonestLength(limit: nat, declared: int, body: Bytes)
    requires declared == 0 || declared == |body|
    ensures Bounded(limit, declared, body, Ends) == if |body| <= limit then Ok(body) else Err(TooLarge)
  {
  }

  /** A length that overstates the body rejects it even where it fits; one that understates it changes nothing. */
  lemma {:induction false} DishonestLength(limit: nat, declared: int, body: Bytes)
    ensures Bounded(limit, declared, body, Ends) == Bounded(limit, 0, body, Ends) <==>
      declared <= limit || |body| > limit
  {
  }
}
