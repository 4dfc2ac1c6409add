/**
 * Verified downloads to a file: the Go client's `DownloadDatasetArtifactTo` and the PHP client's
 * `consumeDownload`, over a file system that records every state it goes through.
 */
module Download {
  import opened Prelude
  import opened Delays
  import opened BoundedRead
  import Retry

  type Files = map<string, Bytes>

  /** A directory tree by path; each mutation appends the new state to `history`. */
  class FileSystem {
    var files: Files
    ghost var history: seq<Files>

    method Create(name: string)
      modifies this
      ensures files == old(files)[name := []] && history == old(history) + [files]
    {
      files := files[name := []];
      history := history + [files];
    }

    method Append(name: string, chunk: Bytes)
      requires name in files
      modifies this
      ensures files == old(files)[name := old(files)[name] + chunk] && history == old(history) + [files]
    {
      files := files[name := files[name] + chunk];
      history := history + [files];
    }

    method Rename(name: string, target: string)
      requires name in files && name != target
      modifies this
      ensures files == (old(files) - {name})[target := old(files)[name]] && history == old(history) + [files]
    {
      files := (files - {name})[target := files[name]];
      history := history + [files];
    }

    method Remove(name: string)
      modifies this
      ensures files == old(files) - {name} && history == old(history) + [files]
    {
      files := files - {name};
      history := history + [files];
    }
  }

  /** All states since `before` leave every file but the temporary one as it was. */
  ghost predicate OnlyTemporaryChanged(history: seq<Files>, from: nat, before: Files, temporary: string) {
    forall i :: from <= i < |history| ==> history[i] - {temporary} == before
  }

  /** All states since `before` show the destination as it was or with the complete content. */
  ghost predicate OldOrComplete(history: seq<Files>, from: nat, before: Files, temporary: string, destination: string,
      content: Bytes)
  {
    forall i :: from <= i < |history| ==>
      history[i] - {temporary} == before || history[i] - {temporary} == before[destination := content]
  }

  lemma {:induction false} HistoryGrows(history: seq<Files>, next: Files, from: nat, before: Files, temporary: string)
    requires OnlyTemporaryChanged(history, from, before, temporary) && next - {temporary} == before
    ensures OnlyTemporaryChanged(history + [next], from, before, temporary)
  {
  }

  /** One write to the temporary file. */
  method WriteTemporary(fs: FileSystem, temporary: string, part: Bytes, ghost before: Files, ghost from: nat)
    requires temporary in fs.files && fs.files - {temporary} == before
    requires OnlyTemporaryChanged(fs.history, from, before, temporary)
    modifies fs
    ensures temporary in fs.files && fs.files - {temporary} == before
    ensures fs.files[temporary] == old(fs.files)[temporary] + part
    ensures old(fs.history) <= fs.history && OnlyTemporaryChanged(fs.history, from, before, temporary)
  {
    ghost var was := fs.history;
    fs.Append(temporary, part);
    assert fs.files - {temporary} == before;
    HistoryGrows(was, fs.files, from, before, temporary);
  }

  // ---------------------------------------------------------------- Go

  /** A response body: its chunks, and whether the connection breaks after them. */
  datatype ResponseBody = ResponseBody(chunks: seq<Bytes>, breaks: bool)

  /** One attempt of the download loop: what the retry loop sees, and the body if it is a response. */
  datatype Attempt = Attempt(plain: Retry.Attempt, body: ResponseBody)

  type World = nat -> Attempt

  function Plain(world: World): Retry.World { (k: nat) => world(k).plain }

  /** Which file operations fail. */
  datatype Faults = Faults(create: bool, write: Option<nat>, sync: bool, close: bool, rename: bool, remove: bool)

  datatype Error =
    | CreateFailed
    | Stopped(final: Retry.Final)
    | Transport
    | Api(status: int)
    | ReadBroken
    | WriteFailed
    | TooLarge
    | ChecksumMismatch
    | SyncFailed
    | CloseFailed
    | RenameFailed

  const DEFAULT_MAX_DOWNLOAD_BYTES: int := 64 * 0x10_0000

  function Limit(maxBytes: int): int { if maxBytes <= 0 then DEFAULT_MAX_DOWNLOAD_BYTES else maxBytes }

  predicate IsSuccess(status: int) { 200 <= status < 300 }

  /** `io.LimitReader(body, limit+1)`: the bytes it lets through, none if the sum wrapped around. */
  function Allowance(limit: int): nat {
    var n := Wrap64(limit + 1);
    if n < 0 then 0 else n
  }

  function Take(n: nat, body: Bytes): Bytes { if n < |body| then body[..n] else body }

  lemma {:induction false} TakePrefix(n: nat, chunks: seq<Bytes>, k: nat)
    requires k <= |chunks| && |Body(chunks[..k])| >= n
    ensures Take(n, Body(chunks)) == Take(n, Body(chunks[..k]))
  {
    BodyGrows(chunks, k);
  }

  /** What copying the next chunk up to the limit comes to: the limited body, or one chunk more of it. */
  lemma {:induction false} PartCopied(n: nat, chunks: seq<Bytes>, i: nat, written: Bytes)
    requires i < |chunks| && written == Body(chunks[..i]) && |written| < n
    ensures var next := written + Take(n - |written|, chunks[i]);
      if |next| >= n then next == Take(n, Body(chunks)) && |Body(chunks)| >= n else next == Body(chunks[..i + 1])
  {
    assert chunks[..i + 1] == chunks[..i] + [chunks[i]];
    BodySnoc(chunks[..i], chunks[i]);
    BodyGrows(chunks, i + 1);
    if |Body(chunks[..i + 1])| >= n {
      TakePrefix(n, chunks, i + 1);
    }
  }

  /** How copying ends: the limited prefix unless the stream breaks first. */
  function CopyError(n: nat, body: ResponseBody): Option<Error> {
    if body.breaks && |Body(body.chunks)| < n then Some(ReadBroken) else None
  }

  /** `io.Copy` of the limited body into the temporary file, chunk by chunk. */
  method CopyLimited(fs: FileSystem, temporary: string, n: nat, body: ResponseBody, faults: Faults, ghost before: Files,
      ghost from: nat)
    returns (written: Bytes, error: Option<Error>)
    requires temporary in fs.files && fs.files[temporary] == [] && fs.files - {temporary} == before
    requires OnlyTemporaryChanged(fs.history, from, before, temporary) && from <= |fs.history|
    modifies fs
    ensures old(fs.history) <= fs.history && OnlyTemporaryChanged(fs.history, from, before, temporary)
    ensures temporary in fs.files && fs.files - {temporary} == before && fs.files[temporary] == written
    ensures error.None? ==> written == Take(n, Body(body.chunks)) && CopyError(n, body).None?
    ensures error.Some? ==> error.value == WriteFailed || error == CopyError(n, body)
    ensures faults.write.None? ==> error == CopyError(n, body)
  {
    written := [];
    var writes: nat := 0;
    assert Body([]) == [];
    for i := 0 to |body.chunks|
      invariant if n == 0 then written == [] else written == Body(body.chunks[..i]) && |written| < n
      invariant temporary in fs.files && fs.files - {temporary} == before && fs.files[temporary] == written
      invariant old(fs.history) <= fs.history && OnlyTemporaryChanged(fs.history, from, before, temporary)
    {
      var chunk := body.chunks[i];
      if n == 0 {
        break;
      }
      PartCopied(n, body.chunks, i, written);
      var part := Take(n - |written|, chunk);
      if |part| > 0 {
        if faults.write == Some(writes) {
          return written, Some(WriteFailed);
        }
        WriteTemporary(fs, temporary, part, before, from);
        written, writes := written + part, writes + 1;
      }
      if |written| >= n {
        return written, None;
      }
    }
    assert body.chunks[..|body.chunks|] == body.chunks;
    error := if n > 0 && body.breaks then Some(ReadBroken) else None;
  }

  datatype Options = Options(maxBytes: int, sha256: string)

  /** The attempt whose success response is copied, if the retry loop ends in one. */
  function Accepted(c: GoConfig, world: World): Option<nat>
    requires c.retries >= 0
  {
    match Retry.GoFrom(c, Plain(world), 0).final
    case Delivered(k) =>
      if world(k).plain.outcome.Response? && IsSuccess(world(k).plain.outcome.status) then Some(k) else None
    case _ => None
  }

  /** The bytes copied from the response of attempt `k`. */
  function Copied(world: World, options: Options, k: nat): Bytes {
    Take(Allowance(Limit(options.maxBytes)), Body(world(k).body.chunks))
  }

  predicate GoChecksumOk(sha256: Bytes -> string, expected: string, content: Bytes) {
    expected == "" || Lower(expected) == Lower(sha256(content))
  }

  /** The copy ends cleanly, within the limit, and with the expected digest. */
  predicate Verifies(sha256: Bytes -> string, options: Options, body: ResponseBody) {
    var content := Take(Allowance(Limit(options.maxBytes)), Body(body.chunks));
    && CopyError(Allowance(Limit(options.maxBytes)), body).None?
    && |content| <= Limit(options.maxBytes)
    && GoChecksumOk(sha256, options.sha256, content)
  }

  /** `download`: the retry loop, writing to the temporary file only from the response it ends with. */
  method GoDownload(fs: FileSystem, c: GoConfig, world: World, options: Options, sha256: Bytes -> string,
      temporary: string, faults: Faults, ghost before: Files, ghost from: nat) returns (error: Option<Error>)
    requires ValidGoConfig(c)
    requires temporary in fs.files && fs.files[temporary] == [] && fs.files - {temporary} == before
    requires OnlyTemporaryChanged(fs.history, from, before, temporary) && from <= |fs.history|
    modifies fs
    ensures old(fs.history) <= fs.history && OnlyTemporaryChanged(fs.history, from, before, temporary)
    ensures temporary in fs.files && fs.files - {temporary} == before
    ensures error.None? ==>
      Accepted(c, world).Some? && fs.files[temporary] == Copied(world, options, Accepted(c, world).value)
    ensures error.None? ==> Verifies(sha256, options, world(Accepted(c, world).value).body)
    ensures faults.write.None? ==>
      (error.None? <==> Accepted(c, world).Some? && Verifies(sha256, options, world(Accepted(c, world).value).body))
    ensures Accepted(c, world).None? ==> fs.files == old(fs.files) && fs.history == old(fs.history)
  {
    var limit := Limit(options.maxBytes);
    ghost var plain := Plain(world);
    var attempt: nat := 0;
    while attempt <= c.retries
      invariant attempt <= c.retries
      invariant Retry.GoFrom(c, plain, 0).final == Retry.GoFrom(c, plain, attempt).final
      invariant fs.files == old(fs.files) && fs.history == old(fs.history)
      decreases c.retries - attempt
    {
      var w := world(attempt);
      if w.plain.cancelled {
        return Some(Stopped(Retry.Cancelled(attempt)));
      }
      if w.plain.outcome.TransportError? {
        if w.plain.cancelledDuring {
          return Some(Stopped(Retry.Cancelled(attempt)));
        }
        if attempt == c.retries {
          return Some(Transport);
        }
      } else if !(Retry.IsRetryable(w.plain.outcome.status) && attempt < c.retries) {
        assert Retry.GoFrom(c, plain, attempt).final == Retry.Delivered(attempt);
        var status := w.plain.outcome.status;
        if !IsSuccess(status) {
          return Some(Api(status));
        }
        var written, copyError := CopyLimited(fs, temporary, Allowance(limit), w.body, faults, before, from);
        if copyError.Some? {
          return copyError;
        }
        if |written| > limit {
          return Some(Error.TooLarge);
        }
        if options.sha256 != "" && Lower(options.sha256) != Lower(sha256(written)) {
          return Some(Error.ChecksumMismatch);
        }
        return None;
      }
      if w.plain.sleep.SleepFailed? {
        return Some(Stopped(Retry.Interrupted(attempt)));
      }
      attempt := attempt + 1;
    }
    assert false;
  }

  /** No file function fails before the last one that can, the rename. */
  predicate NoFaults(f: Faults) { !f.create && f.write.None? && !f.sync && !f.close && !f.rename }

  /**
   * `DownloadDatasetArtifactTo`: a temporary sibling receives the bytes and is renamed onto the
   * destination at the very end; every other way out removes it, unless `os.Remove` fails.
   */
  method DownloadTo(fs: FileSystem, c: GoConfig, world: World, options: Options, sha256: Bytes -> string,
      temporary: string, destination: string, faults: Faults) returns (error: Option<Error>)
    requires ValidGoConfig(c)
    requires temporary !in fs.files && temporary != destination
    modifies fs
    ensures old(fs.history) <= fs.history
    ensures error.Some? ==> fs.files - {temporary} == old(fs.files)
    ensures error.Some? ==> (temporary in fs.files <==> faults.remove && !faults.create)
    ensures error.Some? ==> OnlyTemporaryChanged(fs.history, |old(fs.history)|, old(fs.files), temporary)
    ensures error.None? ==> Accepted(c, world).Some? && Verifies(sha256, options, world(Accepted(c, world).value).body)
    ensures error.None? ==> fs.files == old(fs.files)[destination := Copied(world, options, Accepted(c, world).value)]
    ensures error.None? ==> OldOrComplete(fs.history, |old(fs.history)|, old(fs.files), temporary, destination,
      fs.files[destination])
    ensures NoFaults(faults) ==>
      (error.None? <==> Accepted(c, world).Some? && Verifies(sha256, options, world(Accepted(c, world).value).body))
  {
    ghost var before, from := fs.files, |fs.history|;
    if faults.create {
      return Some(CreateFailed);
    }
    fs.Create(temporary);
    assert fs.files - {temporary} == before;
    error := GoDownload(fs, c, world, options, sha256, temporary, faults, before, from);
    if error.None? && faults.sync {
      error := Some(SyncFailed);
    }
    if error.None? && faults.close {
      error := Some(CloseFailed);
    }
    if error.None? && faults.rename {
      error := Some(RenameFailed);
    }
    ghost var was := fs.history;
    if error.None? {
      fs.Rename(temporary, destination);
      assert fs.files == before[destination := Copied(world, options, Accepted(c, world).value)];
    } else if !faults.remove {
      fs.Remove(temporary);
      assert fs.files == before && fs.files - {temporary} == before;
      HistoryGrows(was, fs.files, from, before, temporary);
    }
  }

  /** A response is accepted when the retry loop ends in it and its status is one of the 2xx. */
  lemma {:induction false} AcceptedIff(c: GoConfig, world: World, k: nat)
    requires c.retries >= 0
    ensures Accepted(c, world) == Some(k) <==>
      && Retry.GoFrom(c, Plain(world), 0).final == Retry.Delivered(k)
      && world(k).plain.outcome.Response? && 200 <= world(k).plain.outcome.status <= 299
  {
  }

  /**
   * Below the greatest limit a body verifies exactly when it came whole, fits the limit (64 MiB
   * unless one is given) and has the expected digest, in capitals or not.
   */
  lemma {:induction false} VerifiesIff(sha256: Bytes -> string, options: Options, body: ResponseBody)
    requires options.maxBytes < MAX_INT64
    ensures Verifies(sha256, options, body) <==>
      && !body.breaks
      && |Body(body.chunks)| <= (if options.maxBytes > 0 then options.maxBytes else 67_108_864)
      && (options.sha256 == "" || Lower(options.sha256) == Lower(sha256(Body(body.chunks))))
  {
    WrapIdentity(Limit(options.maxBytes) + 1);
  }

  /**
   * Verified bytes are the complete, unbroken body of the response, exactly unless the limit is
   * 2^63-1 and the body is not empty.
   */
  lemma {:induction false} VerifiedIsComplete(sha256: Bytes -> string, options: Options, body: ResponseBody)
    requires options.maxBytes <= MAX_INT64 && Verifies(sha256, options, body)
    ensures Take(Allowance(Limit(options.maxBytes)), Body(body.chunks)) == Body(body.chunks)
       <==> options.maxBytes < MAX_INT64 || Body(body.chunks) == []
    ensures options.maxBytes < MAX_INT64 ==> !body.breaks && |Body(body.chunks)| <= Limit(options.maxBytes)
    ensures options.maxBytes == MAX_INT64 ==> Take(Allowance(Limit(options.maxBytes)), Body(body.chunks)) == []
  {
    if options.maxBytes < MAX_INT64 {
      WrapIdentity(Limit(options.maxBytes) + 1);
    } else {
      assert Wrap64(MAX_INT64 + 1) == -MAX_INT64 - 1;
    }
  }
}
