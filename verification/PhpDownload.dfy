/** The PHP client's `consumeDownload`, over the file system of `Download`. */
module PhpDownload {
  import opened Prelude
  import opened BoundedRead
  import opened Download

  /**
   * Which operations fail; a failing `fwrite` still stores `partial` bytes of its chunk.
   * `elsewhere`: the directory could not be written to, and `tempnam` fell back to the system's own,
   * on another file system. There `rename` copies, `step` bytes at a time; one that fails has opened
   * the destination and written `copied` bytes, or (`None`) not opened it.
   */
  datatype PhpFaults = PhpFaults(
    directory: bool, tempnam: bool, fopen: bool, write: Option<nat>, partial: nat, elsewhere: bool, step: nat,
    rename: bool, copied: Option<nat>, unlink: bool)

  /** `BodyBroken`: the body's `read` threw. */
  datatype PhpError = NoTemporary | PayloadTooLarge | ShortWrite | BodyBroken | ChecksumDiffers | StoreFailed

  /** No file function fails before the last one that can, the rename. */
  predicate NoPhpFaults(f: PhpFaults) {
    !f.directory && !f.tempnam && !f.fopen && f.write.None? && !f.rename
  }

  /** The whole body comes, within the limit and with the expected digest. */
  predicate PhpVerifies(sha256: Bytes -> string, max: nat, checksum: Option<string>, body: Bytes, breaks: bool) {
    !breaks && |body| <= max && PhpChecksumOk(sha256, checksum, body)
  }

  /** A `sha256:` prefix is dropped before comparing; no checksum compares nothing. */
  function Expected(checksum: string): string {
    if "sha256:" <= checksum then checksum[7..] else checksum
  }

  predicate PhpChecksumOk(sha256: Bytes -> string, checksum: Option<string>, content: Bytes) {
    checksum.None? || Lower(Expected(checksum.value)) == sha256(content)
  }

  ghost predicate Spells(text: string, digest: string) {
    |text| == |digest| && forall i :: 0 <= i < |text| ==> SameLetter(text[i], digest[i])
  }

  /**
   * A body verifies when it came whole, fits the limit and has the digest that was asked for, in
   * capitals or not and with or without `sha256:` in front, if one was.
   */
  lemma {:induction false} PhpVerifiesIff(sha256: Bytes -> string, max: nat, checksum: Option<string>, body: Bytes,
      breaks: bool)
    requires forall c :: c in sha256(body) ==> '0' <= c <= '9' || 'a' <= c <= 'f'
    ensures PhpVerifies(sha256, max, checksum, body, breaks) <==>
      && !breaks && |body| <= max
      && (checksum.Some? ==>
        || Spells(checksum.value, sha256(body))
        || exists text :: checksum.value == "sha256:" + text && Spells(text, sha256(body)))
  {
    if checksum.Some? {
      var digest := sha256(body);
      LowerIff(Expected(checksum.value), digest);
      PlainDigest(digest);
      PrefixDropped(checksum.value, digest);
    }
  }

  lemma {:induction false} PlainDigest(digest: string)
    requires forall c :: c in digest ==> '0' <= c <= '9' || 'a' <= c <= 'f'
    ensures Lower(digest) == digest
  {
    assert forall i :: 0 <= i < |digest| ==> digest[i] in digest;
  }

  lemma {:induction false} PrefixDropped(checksum: string, digest: string)
    requires forall c :: c in digest ==> '0' <= c <= '9' || 'a' <= c <= 'f'
    ensures Spells(Expected(checksum), digest) <==>
      Spells(checksum, digest) || exists text :: checksum == "sha256:" + text && Spells(text, digest)
  {
    if "sha256:" <= checksum {
      assert checksum == "sha256:" + checksum[7..];
      assert forall text :: checksum == "sha256:" + text ==> text == checksum[7..];
      assert checksum[6] == ':';
      assert |digest| > 6 ==> digest[6] in digest;
      assert |digest| > 6 ==> !SameLetter(':', digest[6]);
    }
  }

  /**
   * The ways out that leave the temporary file behind, once the call has failed: `fopen` failed on
   * the file `tempnam` had just created, or the final `unlink` failed.
   */
  predicate LeavesTemporary(destination: Option<string>, f: PhpFaults) {
    destination.Some? && !f.directory && !f.tempnam && (f.fopen || f.unlink)
  }

  /** Streaming into the temporary file, or into a string when there is no destination. */
  method Receive(fs: FileSystem, stream: Stream, max: nat, handle: bool, temporary: string, faults: PhpFaults,
      ghost before: Files, ghost from: nat)
    returns (bytes: Bytes, error: Option<PhpError>)
    requires stream.Valid() && stream.position == 0
    requires handle ==> temporary in fs.files && fs.files[temporary] == []
    requires handle ==> fs.files - {temporary} == before && from <= |fs.history|
    requires handle ==> OnlyTemporaryChanged(fs.history, from, before, temporary)
    modifies fs, stream
    ensures old(fs.history) <= fs.history
    ensures !handle ==> fs.files == old(fs.files) && fs.history == old(fs.history)
    ensures handle ==> temporary in fs.files && fs.files - {temporary} == before
    ensures handle ==> OnlyTemporaryChanged(fs.history, from, before, temporary)
    ensures error.None? ==> !stream.breaks && |stream.body| <= max && bytes == stream.body
    ensures error.None? && handle ==> fs.files[temporary] == bytes
    ensures error.Some? ==> error.value in {ShortWrite, PayloadTooLarge, BodyBroken}
    ensures error == Some(PayloadTooLarge) ==> |stream.body| > max
    ensures error == Some(BodyBroken) ==> stream.breaks && |stream.body| <= max
    ensures faults.write.None? || !handle ==> (error.None? <==> !stream.breaks && |stream.body| <= max)
  {
    bytes, error := [], None;
    var writes: nat := 0;
    while !stream.ended
      invariant stream.Valid() && bytes == stream.body[..stream.position] && |bytes| <= max
      invariant old(fs.history) <= fs.history
      invariant !handle ==> fs.files == old(fs.files) && fs.history == old(fs.history)
      invariant handle ==> temporary in fs.files && fs.files - {temporary} == before && fs.files[temporary] == bytes
      invariant handle ==> OnlyTemporaryChanged(fs.history, from, before, temporary)
      decreases stream.Left()
    {
      var room := max - |bytes| + 1;
      var chunk, thrown := stream.Read(if room < READ_SIZE then room else READ_SIZE);
      if thrown {
        return bytes, Some(BodyBroken);
      }
      if |bytes| + |chunk| > max {
        return bytes, Some(PayloadTooLarge);
      }
      if handle {
        var failing := faults.write == Some(writes) && faults.partial < |chunk|;
        var stored := if failing then chunk[..faults.partial] else chunk;
        WriteTemporary(fs, temporary, stored, before, from);
        if failing {
          return bytes, Some(ShortWrite);
        }
        writes := writes + 1;
      }
      bytes := bytes + chunk;
    }
    assert stream.body[..|stream.body|] == stream.body;
  }

  // ---------------------------------------------------------------- a rename that has to copy

  /** All states since `before` show the destination as it was or with some prefix of the content. */
  ghost predicate OldOrPrefix(history: seq<Files>, from: nat, before: Files, temporary: string, destination: string,
      content: Bytes)
  {
    forall i :: from <= i < |history| ==>
      history[i] - {temporary} == before || PrefixAt(history[i] - {temporary}, before, destination, content)
  }

  ghost predicate PrefixAt(files: Files, before: Files, destination: string, content: Bytes) {
    exists n :: 0 <= n <= |content| && files == before[destination := content[..n]]
  }

  /** Some state since `before` shows the destination with this content. */
  ghost predicate Passes(history: seq<Files>, from: nat, before: Files, temporary: string, destination: string,
      content: Bytes)
  {
    exists i :: from <= i < |history| && history[i] - {temporary} == before[destination := content]
  }

  /** All states since `from` show the destination empty or with the whole content. */
  ghost predicate AllOrNothing(history: seq<Files>, from: nat, before: Files, temporary: string, destination: string,
      content: Bytes)
  {
    forall i :: from <= i < |history| ==>
      history[i] - {temporary} == before[destination := []] ||
        history[i] - {temporary} == before[destination := content]
  }

  /** One more state in which the destination holds a prefix. */
  lemma {:induction false} PrefixAdded(history: seq<Files>, next: Files, from: nat, before: Files, temporary: string,
      destination: string, content: Bytes, n: nat)
    requires n <= |content| && next - {temporary} == before[destination := content[..n]] && from <= |history|
    ensures OldOrPrefix(history, from, before, temporary, destination, content) ==>
      OldOrPrefix(history + [next], from, before, temporary, destination, content)
    ensures Passes(history + [next], from, before, temporary, destination, content[..n])
    ensures forall part :: Passes(history, from, before, temporary, destination, part) ==>
      Passes(history + [next], from, before, temporary, destination, part)
  {
    var all := history + [next];
    assert all[|history|] == next;
    forall part | Passes(history, from, before, temporary, destination, part)
      ensures Passes(all, from, before, temporary, destination, part)
    {
      var i :| from <= i < |history| && history[i] - {temporary} == before[destination := part];
      assert all[i] == history[i];
    }
  }

  lemma {:induction false} Overwritten(files: Files, temporary: string, before: Files, destination: string,
      was: Bytes, part: Bytes)
    requires temporary != destination && files - {temporary} == before[destination := was]
    ensures files[destination := part] - {temporary} == before[destination := part]
  {
    assert files[destination := part] - {temporary} == (files - {temporary})[destination := part];
    assert before[destination := was][destination := part] == before[destination := part];
  }

  /** `rename` onto another file system: the destination is opened anew and filled `step` bytes at a time. */
  method CopyAcross(fs: FileSystem, temporary: string, destination: string, content: Bytes, step: nat, total: nat,
      ghost before: Files, ghost from: nat)
    requires temporary in fs.files && temporary != destination && fs.files - {temporary} == before
    requires total <= |content| && step > 0 && from <= |fs.history|
    requires OnlyTemporaryChanged(fs.history, from, before, temporary)
    modifies fs
    ensures old(fs.history) <= fs.history
    ensures temporary in fs.files && fs.files - {temporary} == before[destination := content[..total]]
    ensures OldOrPrefix(fs.history, from, before, temporary, destination, content)
    ensures Passes(fs.history, from, before, temporary, destination, [])
    ensures step < total ==> Passes(fs.history, from, before, temporary, destination, content[..step])
    ensures total <= step ==>
      AllOrNothing(fs.history, |old(fs.history)|, before, temporary, destination, content[..total])
  {
    ghost var was := fs.history;
    fs.Create(destination);
    assert content[..0] == [] && fs.files - {temporary} == before[destination := content[..0]];
    PrefixAdded(was, fs.files, from, before, temporary, destination, content, 0);
    var done: nat := 0;
    while done < total
      invariant done <= total && temporary in fs.files && (total <= step ==> done == 0 || done == total)
      invariant fs.files - {temporary} == before[destination := content[..done]]
      invariant destination in fs.files && fs.files[destination] == content[..done]
      invariant was <= fs.history
      invariant OldOrPrefix(fs.history, from, before, temporary, destination, content)
      invariant Passes(fs.history, from, before, temporary, destination, [])
      invariant step < total && done > 0 ==> Passes(fs.history, from, before, temporary, destination, content[..step])
      invariant total <= step ==> AllOrNothing(fs.history, |was|, before, temporary, destination, content[..total])
    {
      var next := if done + step < total then done + step else total;
      CopyPart(fs, temporary, destination, content, done, next, before, from);
      done := next;
    }
  }

  /** One turn of the copying loop. */
  method CopyPart(fs: FileSystem, temporary: string, destination: string, content: Bytes, done: nat, next: nat,
      ghost before: Files, ghost from: nat)
    requires done <= next <= |content| && temporary != destination && from <= |fs.history|
    requires temporary in fs.files && destination in fs.files && fs.files[destination] == content[..done]
    requires fs.files - {temporary} == before[destination := content[..done]]
    modifies fs
    ensures temporary in fs.files && destination in fs.files && fs.files[destination] == content[..next]
    ensures fs.files - {temporary} == before[destination := content[..next]]
    ensures fs.history == old(fs.history) + [fs.files]
    ensures old(OldOrPrefix(fs.history, from, before, temporary, destination, content)) ==>
      OldOrPrefix(fs.history, from, before, temporary, destination, content)
    ensures Passes(fs.history, from, before, temporary, destination, content[..next])
    ensures forall part :: old(Passes(fs.history, from, before, temporary, destination, part)) ==>
      Passes(fs.history, from, before, temporary, destination, part)
  {
    ghost var earlier := fs.history;
    Overwritten(fs.files, temporary, before, destination, content[..done], content[..next]);
    assert content[..done] + content[done..next] == content[..next];
    fs.Append(destination, content[done..next]);
    PrefixAdded(earlier, fs.files, from, before, temporary, destination, content, next);
  }

  function Step(f: PhpFaults): nat { if f.step == 0 then 1 else f.step }

  /** How much of the content a failing copy wrote. */
  function CopiedBefore(f: PhpFaults, content: Bytes): nat {
    if f.copied.Some? && f.copied.value < |content| then f.copied.value else |content|
  }

  /** A copying rename that fails after it opened the destination. */
  predicate Tears(f: PhpFaults) { f.elsewhere && f.rename && f.copied.Some? }

  /** The rename does not copy, or no state of the copying differs from both old and new content. */
  predicate StaysWhole(before: Files, destination: string, content: Bytes, f: PhpFaults) {
    || !f.elsewhere
    || content == []
    || (destination in before && before[destination] == [] && |content| <= Step(f))
  }

  /** What the states of a copying rename come to. */
  lemma {:induction false} CopiedWhole(history: seq<Files>, from: nat, n: nat, before: Files, temporary: string,
      destination: string, content: Bytes, f: PhpFaults)
    requires f.elsewhere && from <= n <= |history|
    requires OnlyTemporaryChanged(history[..n], from, before, temporary)
    requires Passes(history, from, before, temporary, destination, [])
    requires Step(f) < |content| ==> Passes(history, from, before, temporary, destination, content[..Step(f)])
    requires |content| <= Step(f) ==> AllOrNothing(history, n, before, temporary, destination, content)
    ensures OldOrComplete(history, from, before, temporary, destination, content) <==>
      StaysWhole(before, destination, content, f)
  {
    if StaysWhole(before, destination, content, f) {
      forall i | from <= i < |history|
        ensures history[i] - {temporary} == before || history[i] - {temporary} == before[destination := content]
      {
        if i < n {
          assert history[..n][i] == history[i];
        } else if content == [] || |content| <= Step(f) {
          assert destination in before && before[destination] == [] ==> before[destination := []] == before;
        }
      }
    } else {
      var part := if destination in before && before[destination] == [] then content[..Step(f)] else [];
      var i :| from <= i < |history| && history[i] - {temporary} == before[destination := part];
      assert before[destination := part] != before[destination := content] by {
        assert before[destination := part][destination] != before[destination := content][destination];
      }
      assert before[destination := part] != before by {
        assert destination in before ==> before[destination] != part;
      }
    }
  }

  /** `rename`, by moving the file or, onto another file system, by copying it. */
  method Store(fs: FileSystem, temporary: string, destination: string, content: Bytes, faults: PhpFaults,
      ghost before: Files, ghost from: nat) returns (stored: bool)
    requires temporary in fs.files && temporary != destination && fs.files - {temporary} == before
    requires fs.files[temporary] == content && from <= |fs.history|
    requires OnlyTemporaryChanged(fs.history, from, before, temporary)
    modifies fs
    ensures old(fs.history) <= fs.history && stored == !faults.rename
    ensures stored ==> fs.files == before[destination := content]
    ensures stored ==> (OldOrComplete(fs.history, from, before, temporary, destination, content) <==>
      StaysWhole(before, destination, content, faults))
    ensures OldOrPrefix(fs.history, from, before, temporary, destination, content)
    ensures !stored ==> temporary in fs.files
    ensures !stored && Tears(faults) ==>
      fs.files - {temporary} == before[destination := content[..CopiedBefore(faults, content)]]
    ensures !stored && !Tears(faults) ==> fs.files == old(fs.files) && fs.history == old(fs.history)
  {
    if !faults.elsewhere {
      if faults.rename {
        return false;
      }
      fs.Rename(temporary, destination);
      assert fs.files == before[destination := content] && fs.files - {temporary} == fs.files;
      assert content[..|content|] == content;
      PrefixAdded(old(fs.history), fs.files, from, before, temporary, destination, content, |content|);
      return true;
    }
    if faults.rename && faults.copied.None? {
      return false;
    }
    var total := if faults.rename then CopiedBefore(faults, content) else |content|;
    CopyAcross(fs, temporary, destination, content, Step(faults), total, before, from);
    if faults.rename {
      return false;
    }
    ghost var copied := fs.history;
    assert content[..|content|] == content;
    fs.Remove(temporary);
    assert fs.files == before[destination := content] && fs.files - {temporary} == fs.files;
    PrefixAdded(copied, fs.files, from, before, temporary, destination, content, |content|);
    CopiedWhole(fs.history, from, |old(fs.history)|, before, temporary, destination, content, faults);
    stored := true;
  }

  /**
   * `consumeDownload`: the body goes into a temporary file and is verified, and the file is renamed
   * onto the destination at the very end; on every other way out it is unlinked.
   */
  method ConsumeDownload(fs: FileSystem, stream: Stream, max: nat, sha256: Bytes -> string, destination: Option<string>,
      checksum: Option<string>, temporary: string, faults: PhpFaults) returns (r: Result<Bytes, PhpError>)
    requires stream.Valid() && stream.position == 0
    requires temporary !in fs.files && (destination.Some? ==> temporary != destination.value)
    modifies fs, stream
    ensures old(fs.history) <= fs.history
    ensures r.Err? ==> (temporary in fs.files <==> LeavesTemporary(destination, faults))
    ensures r.Err? && !(r.error.StoreFailed? && Tears(faults)) ==>
      && fs.files - {temporary} == old(fs.files)
      && OnlyTemporaryChanged(fs.history, |old(fs.history)|, old(fs.files), temporary)
    ensures r.Err? && r.error.StoreFailed? ==>
      destination.Some? && faults.rename && PhpVerifies(sha256, max, checksum, stream.body, stream.breaks)
    ensures r.Err? && r.error.StoreFailed? && Tears(faults) ==>
      var stored := stream.body[..CopiedBefore(faults, stream.body)];
      fs.files - {temporary} == old(fs.files)[destination.value := stored]
    ensures r.Ok? ==> PhpVerifies(sha256, max, checksum, stream.body, stream.breaks)
    ensures r.Ok? && destination.None? ==> r.value == stream.body && fs.files == old(fs.files)
    ensures r.Ok? && destination.Some? ==> r.value == [] && fs.files == old(fs.files)[destination.value := stream.body]
    ensures destination.Some? ==>
      OldOrPrefix(fs.history, |old(fs.history)|, old(fs.files), temporary, destination.value, stream.body)
    ensures r.Ok? && destination.Some? ==>
      (OldOrComplete(fs.history, |old(fs.history)|, old(fs.files), temporary, destination.value, stream.body) <==>
        StaysWhole(old(fs.files), destination.value, stream.body, faults))
    ensures destination.None? || NoPhpFaults(faults) ==>
      (r.Ok? <==> PhpVerifies(sha256, max, checksum, stream.body, stream.breaks))
  {
    ghost var before, from := fs.files, |fs.history|;
    if destination.Some? {
      if faults.directory || faults.tempnam {
        return Err(NoTemporary);
      }
      fs.Create(temporary);
      assert fs.files - {temporary} == before;
      if faults.fopen {
        return Err(NoTemporary);
      }
    }
    var bytes, error := Receive(fs, stream, max, destination.Some?, temporary, faults, before, from);
    if error.None? && checksum.Some? && Lower(Expected(checksum.value)) != sha256(bytes) {
      error := Some(ChecksumDiffers);
    }
    if destination.None? {
      return if error.Some? then Err(error.value) else Ok(bytes);
    }
    if error.None? {
      var stored := Store(fs, temporary, destination.value, bytes, faults, before, from);
      if stored {
        return Ok([]);
      }
      error := Some(StoreFailed);
    }
    r := Err(error.value);
    if !faults.unlink {
      Discard(fs, temporary, destination.value, stream.body, before, from);
    }
  }

  /** `unlink` of the temporary file, which changes nothing else. */
  method Discard(fs: FileSystem, temporary: string, destination: string, ghost content: Bytes, ghost before: Files,
      ghost from: nat)
    requires from <= |fs.history| && OldOrPrefix(fs.history, from, before, temporary, destination, content)
    requires fs.files - {temporary} == before || PrefixAt(fs.files - {temporary}, before, destination, content)
    modifies fs
    ensures old(fs.history) <= fs.history && fs.files == old(fs.files) - {temporary}
    ensures OldOrPrefix(fs.history, from, before, temporary, destination, content)
    ensures old(OnlyTemporaryChanged(fs.history, from, before, temporary)) && old(fs.files) - {temporary} == before ==>
      OnlyTemporaryChanged(fs.history, from, before, temporary)
  {
    fs.Remove(temporary);
    assert fs.files - {temporary} == old(fs.files) - {temporary};
  }
}
