/** Sealing a database backup as a chunked AEAD stream that marks its last chunk, and opening it. */
module Backup {
  import opened Common

  type Bytes = seq<byte>

  const BACKUP_MAGIC: Bytes := [86, 82, 84, 66, 65, 75, 49, 10]
  const SALT_SIZE: nat := 16
  const PREFIX_SIZE: nat := 7
  const HEADER_SIZE: nat := 8 + SALT_SIZE + PREFIX_SIZE
  const CHUNK_SIZE: nat := 0x1_0000
  const OVERHEAD: nat := 16
  const SEALED_SIZE: nat := CHUNK_SIZE + OVERHEAD
  const MAX_UINT32: nat := 0xFFFF_FFFF

  type uint32 = n: nat | n <= MAX_UINT32

  /** Sealing or opening the chunk of a number, last or not. */
  type Sealer = (uint32, bool, Bytes) -> Bytes
  type Opener = (uint32, bool, Bytes) -> Option<Bytes>

  // ---------------------------------------------------------------- what sealing and opening compute

  /** How a run ended, and what it wrote until then. */
  datatype Outcome = Outcome(ok: bool, written: Bytes)

  /** The chunks from counter on, for the rest of the plaintext. */
  function SealFrom(seal: Sealer, plain: Bytes, counter: uint32): Outcome
    decreases |plain|
  {
    if |plain| <= CHUNK_SIZE then Outcome(true, seal(counter, true, plain))
    else
      var chunk := seal(counter, false, plain[..CHUNK_SIZE]);
      if counter == MAX_UINT32 then Outcome(false, chunk)
      else
        var rest := SealFrom(seal, plain[CHUNK_SIZE..], counter + 1);
        Outcome(rest.ok, chunk + rest.written)
  }

  /** A uint32 counter wraps. */
  function Next(counter: uint32): uint32 {
    if counter == MAX_UINT32 then 0 else counter + 1
  }

  /** Opening what is left of a file. */
  function OpenFrom(open: Opener, rest: Bytes, counter: uint32): Outcome
    decreases |rest|
  {
    if rest == [] then Outcome(false, [])
    else if |rest| <= SEALED_SIZE then
      match open(counter, true, rest)
      case None => Outcome(false, [])
      case Some(plain) => Outcome(true, plain)
    else
      match open(counter, false, rest[..SEALED_SIZE])
      case None => Outcome(false, [])
      case Some(plain) =>
        var more := OpenFrom(open, rest[SEALED_SIZE..], Next(counter));
        Outcome(more.ok, plain + more.written)
  }

  /** Opening undoes sealing, and a sealed chunk is longer by the overhead. */
  ghost predicate Matched(seal: Sealer, open: Opener) {
    forall c: uint32, last, p :: |seal(c, last, p)| == |p| + OVERHEAD && open(c, last, seal(c, last, p)) == Some(p)
  }

  lemma {:induction false} ChunksOpen(seal: Sealer, open: Opener, plain: Bytes, counter: uint32)
    requires Matched(seal, open) && SealFrom(seal, plain, counter).ok
    ensures OpenFrom(open, SealFrom(seal, plain, counter).written, counter) == Outcome(true, plain)
    ensures |SealFrom(seal, plain, counter).written| >= OVERHEAD
    decreases |plain|
  {
    if |plain| > CHUNK_SIZE {
      var chunk := seal(counter, false, plain[..CHUNK_SIZE]);
      var more := SealFrom(seal, plain[CHUNK_SIZE..], counter + 1).written;
      ChunksOpen(seal, open, plain[CHUNK_SIZE..], counter + 1);
      assert (chunk + more)[..SEALED_SIZE] == chunk && (chunk + more)[SEALED_SIZE..] == more;
      assert plain[..CHUNK_SIZE] + plain[CHUNK_SIZE..] == plain;
    }
  }

  /** A seal fails only when it would need more chunks than the counter can number. */
  lemma {:induction false} SealSucceedsIff(seal: Sealer, plain: Bytes, counter: uint32)
    ensures SealFrom(seal, plain, counter).ok <==> |plain| <= (MAX_UINT32 - counter + 1) * CHUNK_SIZE
    decreases |plain|
  {
    if |plain| > CHUNK_SIZE && counter < MAX_UINT32 {
      SealSucceedsIff(seal, plain[CHUNK_SIZE..], counter + 1);
    }
  }

  // ---------------------------------------------------------------- only the sealed chunks open

  /** The chunk of number c was sealed for this plaintext, marked last or not. */
  ghost predicate RecordIn(seal: Sealer, plain: Bytes, counter: nat, c: uint32, last: bool, chunk: Bytes)
    decreases |plain|
  {
    if |plain| <= CHUNK_SIZE then c == counter && last && chunk == seal(c, true, plain)
    else
      || (c == counter && !last && chunk == seal(c, false, plain[..CHUNK_SIZE]))
      || RecordIn(seal, plain[CHUNK_SIZE..], counter + 1, c, last, chunk)
  }

  lemma {:induction false} RecordsCountUp(seal: Sealer, plain: Bytes, counter: nat, c: uint32, last: bool, chunk: Bytes)
    requires RecordIn(seal, plain, counter, c, last, chunk)
    ensures counter <= c
    decreases |plain|
  {
    if |plain| > CHUNK_SIZE && c != counter {
      RecordsCountUp(seal, plain[CHUNK_SIZE..], counter + 1, c, last, chunk);
    }
  }

  /** What of a plaintext is left for chunk c, when there is a chunk of that number. */
  function Left(plain: Bytes, counter: nat, c: nat): Option<Bytes>
    requires counter <= c
    decreases c - counter
  {
    if counter == c then Some(plain)
    else if |plain| <= CHUNK_SIZE then None
    else Left(plain[CHUNK_SIZE..], counter + 1, c)
  }

  lemma {:induction false} LeftNext(plain: Bytes, counter: nat, c: nat)
    requires counter <= c && Left(plain, counter, c).Some? && |Left(plain, counter, c).value| > CHUNK_SIZE
    ensures Left(plain, counter, c + 1) == Some(Left(plain, counter, c).value[CHUNK_SIZE..])
    decreases c - counter
  {
    if counter < c { LeftNext(plain[CHUNK_SIZE..], counter + 1, c); }
  }

  /** A record's number says which chunk it is, and its mark whether that chunk is the last. */
  lemma {:induction false} RecordIsChunk(seal: Sealer, plain: Bytes, counter: nat, c: uint32, last: bool, chunk: Bytes)
    requires counter <= c && RecordIn(seal, plain, counter, c, last, chunk)
    ensures Left(plain, counter, c).Some?
    ensures var left := Left(plain, counter, c).value;
            && last == (|left| <= CHUNK_SIZE)
            && chunk == seal(c, last, if last then left else left[..CHUNK_SIZE])
    decreases |plain|
  {
    if counter < c {
      RecordIsChunk(seal, plain[CHUNK_SIZE..], counter + 1, c, last, chunk);
    } else if |plain| > CHUNK_SIZE && RecordIn(seal, plain[CHUNK_SIZE..], counter + 1, c, last, chunk) {
      RecordsCountUp(seal, plain[CHUNK_SIZE..], counter + 1, c, last, chunk);
    }
  }

  /** Any stretch of the bytes that opens was sealed for this plaintext. */
  ghost predicate Unforged(seal: Sealer, open: Opener, rest: Bytes, plain: Bytes) {
    forall c: uint32, last, i, j :: 0 <= i <= j <= |rest| && open(c, last, rest[i..j]).Some? ==>
      RecordIn(seal, plain, 0, c, last, rest[i..j])
  }

  lemma UnforgedTail(seal: Sealer, open: Opener, rest: Bytes, plain: Bytes, n: nat)
    requires n <= |rest| && Unforged(seal, open, rest, plain)
    ensures Unforged(seal, open, rest[n..], plain)
  {
    forall c: uint32, last, i, j | 0 <= i <= j <= |rest[n..]| && open(c, last, rest[n..][i..j]).Some?
      ensures RecordIn(seal, plain, 0, c, last, rest[n..][i..j])
    {
      assert rest[n..][i..j] == rest[n + i..n + j];
    }
  }

  /** Whatever stands where the chunks were, opening writes a prefix, and succeeds only on the sealed chunks. */
  lemma {:induction false} OnlySealedChunksOpen(seal: Sealer, open: Opener, rest: Bytes, plain: Bytes, c: uint32)
    requires Matched(seal, open) && Unforged(seal, open, rest, plain)
    requires Left(plain, 0, c).Some? && SealFrom(seal, Left(plain, 0, c).value, c).ok
    ensures var left := Left(plain, 0, c).value;
            var result := OpenFrom(open, rest, c);
            && result.written <= left
            && (result.ok ==> rest == SealFrom(seal, left, c).written && result.written == left)
    decreases |rest|
  {
    var left := Left(plain, 0, c).value;
    if 0 < |rest| <= SEALED_SIZE {
      if open(c, true, rest).Some? {
        assert rest[0..|rest|] == rest;
        RecordIsChunk(seal, plain, 0, c, true, rest);
      }
    } else if |rest| > SEALED_SIZE {
      var chunk, more := rest[..SEALED_SIZE], rest[SEALED_SIZE..];
      if open(c, false, chunk).Some? {
        assert rest[0..SEALED_SIZE] == chunk && rest == chunk + more;
        RecordIsChunk(seal, plain, 0, c, false, chunk);
        assert left == left[..CHUNK_SIZE] + left[CHUNK_SIZE..];
        LeftNext(plain, 0, c);
        UnforgedTail(seal, open, rest, plain, SEALED_SIZE);
        OnlySealedChunksOpen(seal, open, more, plain, c + 1);
      }
    }
  }

  // ---------------------------------------------------------------- the file

  /** AES-256-GCM under the key a recovery phrase gives for a salt: seal and open take nonce, text and header. */
  datatype Aead = Aead(seal: (Bytes, Bytes, Bytes) -> Bytes, open: (Bytes, Bytes, Bytes) -> Option<Bytes>)

  ghost predicate Lawful(a: Aead) {
    && (forall n, p, h :: |a.seal(n, p, h)| == |p| + OVERHEAD)
    && (forall n, p, h :: a.open(n, a.seal(n, p, h), h) == Some(p))
  }

  type Header = h: Bytes | |h| == HEADER_SIZE witness seq(HEADER_SIZE, i => 0)

  function Salt(header: Header): Bytes {
    header[8..8 + SALT_SIZE]
  }

  function Prefix(header: Header): Bytes {
    header[8 + SALT_SIZE..]
  }

  function Nonce(prefix: Bytes, counter: uint32, last: bool): Bytes {
    prefix + PutUint32(counter) + [if last then 1 else 0]
  }

  /** No two chunks of one backup share a nonce, nor does a last chunk share one with an inner chunk. */
  lemma NoncesDiffer(prefix: Bytes, c: uint32, last: bool, d: uint32, final: bool)
    requires Nonce(prefix, c, last) == Nonce(prefix, d, final)
    ensures c == d && last == final
  {
    var n := |prefix|;
    assert Nonce(prefix, c, last)[n..n + 4] == PutUint32(c);
    assert Nonce(prefix, d, final)[n..n + 4] == PutUint32(d);
    assert Nonce(prefix, c, last)[n + 4] == if last then 1 else 0;
  }

  /** A header is the magic, the salt the key is derived from, and the prefix of its nonces. */
  lemma HeaderParts(salt: Bytes, prefix: Bytes)
    requires |salt| == SALT_SIZE && |prefix| == PREFIX_SIZE
    ensures |BACKUP_MAGIC + salt + prefix| == HEADER_SIZE
    ensures Salt(BACKUP_MAGIC + salt + prefix) == salt && Prefix(BACKUP_MAGIC + salt + prefix) == prefix
  {
  }

  /** Backups whose headers differ behind the salt share no nonce, whatever their chunks. */
  lemma BackupsShareNoNonce(a: Header, b: Header, c: uint32, last: bool, d: uint32, final: bool)
    requires a[8 + SALT_SIZE..] != b[8 + SALT_SIZE..]
    ensures Nonce(Prefix(a), c, last) != Nonce(Prefix(b), d, final)
  {
    assert Nonce(Prefix(a), c, last)[..PREFIX_SIZE] == a[8 + SALT_SIZE..];
    assert Nonce(Prefix(b), d, final)[..PREFIX_SIZE] == b[8 + SALT_SIZE..];
  }

  function SealerOf(a: Aead, header: Header): Sealer {
    (c: uint32, last: bool, p: Bytes) => a.seal(Nonce(Prefix(header), c, last), p, header)
  }

  function OpenerOf(a: Aead, header: Header): Opener {
    (c: uint32, last: bool, p: Bytes) => a.open(Nonce(Prefix(header), c, last), p, header)
  }

  lemma LawfulMatches(a: Aead, header: Header)
    requires Lawful(a)
    ensures Matched(SealerOf(a, header), OpenerOf(a, header))
  {
    var seal, open := SealerOf(a, header), OpenerOf(a, header);
    forall c: uint32, last: bool, p: Bytes
      ensures |seal(c, last, p)| == |p| + OVERHEAD && open(c, last, seal(c, last, p)) == Some(p)
    {
      assert seal(c, last, p) == a.seal(Nonce(Prefix(header), c, last), p, header);
    }
  }

  /** The whole file of a backup. */
  function Sealed(aead: Bytes -> Aead, header: Header, plain: Bytes): Outcome {
    var chunks := SealFrom(SealerOf(aead(Salt(header)), header), plain, 0);
    Outcome(chunks.ok, header + chunks.written)
  }

  function Opened(aead: Bytes -> Aead, file: Bytes): Outcome {
    if |file| < HEADER_SIZE || file[..8] != BACKUP_MAGIC then Outcome(false, [])
    else
      var header: Header := file[..HEADER_SIZE];
      OpenFrom(OpenerOf(aead(Salt(header)), header), file[HEADER_SIZE..], 0)
  }

  /** Every plaintext a seal accepts, empty and exact multiples of the chunk size included, opens to itself. */
  lemma BackupRoundTrips(aead: Bytes -> Aead, header: Header, plain: Bytes)
    requires header[..8] == BACKUP_MAGIC && Lawful(aead(Salt(header)))
    requires Sealed(aead, header, plain).ok
    ensures Opened(aead, Sealed(aead, header, plain).written) == Outcome(true, plain)
  {
    var file := Sealed(aead, header, plain).written;
    var a := aead(Salt(header));
    LawfulMatches(a, header);
    ChunksOpen(SealerOf(a, header), OpenerOf(a, header), plain, 0);
    assert file[..HEADER_SIZE] == header && file[..8] == header[..8];
    assert file[HEADER_SIZE..] == SealFrom(SealerOf(a, header), plain, 0).written;
  }

  /**
   * Ideal authenticity: when a stretch of the file opens under the header and some nonce, that nonce
   * and stretch are a chunk of the backup sealed under this header, if there is one.
   */
  ghost predicate NothingForged(aead: Bytes -> Aead, header: Header, rest: Bytes, sealed: Option<Bytes>) {
    var a := aead(Salt(header));
    forall nonce, i, j :: 0 <= i <= j <= |rest| && a.open(nonce, rest[i..j], header).Some? ==>
      && sealed.Some?
      && exists c: uint32, last ::
           nonce == Nonce(Prefix(header), c, last) && RecordIn(SealerOf(a, header), sealed.value, 0, c, last, rest[i..j])
  }

  lemma NoncesIdentifyChunks(aead: Bytes -> Aead, header: Header, rest: Bytes, plain: Bytes)
    requires NothingForged(aead, header, rest, Some(plain))
    ensures Unforged(SealerOf(aead(Salt(header)), header), OpenerOf(aead(Salt(header)), header), rest, plain)
  {
    var a := aead(Salt(header));
    var seal, open := SealerOf(a, header), OpenerOf(a, header);
    forall c: uint32, last, i, j | 0 <= i <= j <= |rest| && open(c, last, rest[i..j]).Some?
      ensures RecordIn(seal, plain, 0, c, last, rest[i..j])
    {
      assert a.open(Nonce(Prefix(header), c, last), rest[i..j], header).Some?;
      var d: uint32, final :| Nonce(Prefix(header), c, last) == Nonce(Prefix(header), d, final)
                              && RecordIn(seal, plain, 0, d, final, rest[i..j]);
      NoncesDiffer(Prefix(header), c, last, d, final);
    }
  }

  lemma NothingOpens(aead: Bytes -> Aead, header: Header, rest: Bytes)
    requires NothingForged(aead, header, rest, None)
    ensures OpenFrom(OpenerOf(aead(Salt(header)), header), rest, 0) == Outcome(false, [])
  {
    var a := aead(Salt(header));
    var n := Min(|rest|, SEALED_SIZE);
    assert rest[0..n] == rest[..n] && rest[..|rest|] == rest;
    assert a.open(Nonce(Prefix(header), 0, |rest| <= SEALED_SIZE), rest[0..n], header).None?;
  }

  /**
   * Among any number of sealed backups with their own headers, openBackup succeeds only on one of
   * their files, byte for byte; whatever it writes, even when it fails, is a prefix of that backup.
   */
  lemma OnlySealedFilesOpen(aead: Bytes -> Aead, file: Bytes, backups: map<Header, Bytes>)
    requires forall salt :: Lawful(aead(salt))
    requires forall h :: h in backups ==> Sealed(aead, h, backups[h]).ok
    requires |file| >= HEADER_SIZE ==>
               NothingForged(aead, file[..HEADER_SIZE], file[HEADER_SIZE..],
                             if file[..HEADER_SIZE] in backups then Some(backups[file[..HEADER_SIZE]]) else None)
    ensures var result := Opened(aead, file);
            && (result.ok ==>
                  && |file| >= HEADER_SIZE && file[..HEADER_SIZE] in backups
                  && file == Sealed(aead, file[..HEADER_SIZE], backups[file[..HEADER_SIZE]]).written
                  && result.written == backups[file[..HEADER_SIZE]])
            && (result.written != [] ==>
                  && |file| >= HEADER_SIZE && file[..HEADER_SIZE] in backups
                  && result.written <= backups[file[..HEADER_SIZE]])
  {
    if |file| >= HEADER_SIZE {
      var header: Header, rest := file[..HEADER_SIZE], file[HEADER_SIZE..];
      var a := aead(Salt(header));
      if header in backups {
        LawfulMatches(a, header);
        NoncesIdentifyChunks(aead, header, rest, backups[header]);
        OnlySealedChunksOpen(SealerOf(a, header), OpenerOf(a, header), rest, backups[header], 0);
        assert file == header + rest;
      } else {
        NothingOpens(aead, header, rest);
      }
    }
  }

  // ---------------------------------------------------------------- the loops

  datatype ReadError = NoError | Eof | UnexpectedEof | Failure

  /** A stream, which may fail once some more reads have succeeded. */
  class Reader {
    var rest: Bytes
    var failsAfter: Option<nat>

    /** io.ReadFull. */
    method ReadFull(buffer: array<byte>) returns (n: nat, err: ReadError)
      requires buffer.Length > 0
      modifies this, buffer
      ensures n <= buffer.Length
      ensures old(failsAfter).None? ==> failsAfter.None? && !err.Failure?
      ensures !err.Failure? ==> Ahead(old(rest), buffer[..n], err, rest, buffer.Length)
    {
      if failsAfter == Some(0) { return 0, Failure; }
      if failsAfter.Some? { failsAfter := Some(failsAfter.value - 1); }
      n := Min(|rest|, buffer.Length);
      forall i | 0 <= i < n { buffer[i] := rest[i]; }
      err := if n == buffer.Length then NoError else if n == 0 then Eof else UnexpectedEof;
      rest := rest[n..];
    }
  }

  /** The stream splits into the buffer's bytes and the rest; a buffer that is not full means the stream ended. */
  ghost predicate Ahead(left: Bytes, buffer: Bytes, err: ReadError, rest: Bytes, size: nat) {
    && |buffer| <= size
    && left == buffer + rest
    && (err.NoError? <==> |buffer| == size)
    && (err.Eof? <==> buffer == [])
    && (!err.NoError? ==> rest == [])
  }

  /** The whole output is what was written and what is still to come. */
  ghost predicate Towards(whole: Outcome, written: Bytes, todo: Outcome) {
    whole.ok == todo.ok && whole.written == written + todo.written
  }

  lemma TowardsNext(whole: Outcome, written: Bytes, chunk: Bytes, todo: Outcome)
    requires Towards(whole, written, Outcome(todo.ok, chunk + todo.written))
    ensures Towards(whole, written + chunk, todo)
  {
    assert written + (chunk + todo.written) == (written + chunk) + todo.written;
  }

  /** sealBackup after the header: one chunk is read ahead to know which is last. */
  method SealChunks(r: Reader, seal: Sealer, before: Bytes) returns (ok: bool, written: Bytes)
    modifies r
    ensures written <= before + SealFrom(seal, old(r.rest), 0).written
    ensures ok || old(r.failsAfter).None? ==>
              ok == SealFrom(seal, old(r.rest), 0).ok && written == before + SealFrom(seal, old(r.rest), 0).written
  {
    ghost var whole := Outcome(SealFrom(seal, r.rest, 0).ok, before + SealFrom(seal, r.rest, 0).written);
    ghost var left := r.rest;
    written := before;
    var current, next := new byte[CHUNK_SIZE], new byte[CHUNK_SIZE];
    var n, readErr := r.ReadFull(current);
    var counter: uint32 := 0;
    while true
      invariant current.Length == next.Length == CHUNK_SIZE && current != next && fresh(current) && fresh(next)
      invariant 0 <= n <= CHUNK_SIZE && (!readErr.Failure? ==> Ahead(left, current[..n], readErr, r.rest, CHUNK_SIZE))
      invariant old(r.failsAfter).None? ==> r.failsAfter.None? && !readErr.Failure?
      invariant Towards(whole, written, SealFrom(seal, left, counter))
      decreases MAX_UINT32 - counter
    {
      if readErr.Failure? { return false, written; }
      ghost var rest := r.rest;
      var last := readErr != NoError;
      var m, nextErr := 0, NoError;
      if !last {
        m, nextErr := r.ReadFull(next);
        if nextErr.Eof? { last := true; } else if nextErr.Failure? { return false, written; }
      }
      var chunk := seal(counter, last, current[..n]);
      if last {
        assert left == current[..n];
        return true, written + chunk;
      }
      assert left[..CHUNK_SIZE] == current[..n] && left[CHUNK_SIZE..] == rest;
      if counter == MAX_UINT32 { return false, written + chunk; }
      TowardsNext(whole, written, chunk, SealFrom(seal, rest, counter + 1));
      written := written + chunk;
      left := rest;
      current, next := next, current;
      n, readErr := m, nextErr;
      counter := counter + 1;
    }
  }

  /** openBackup after the header: writes each chunk as soon as it opens. */
  method OpenChunks(r: Reader, open: Opener) returns (ok: bool, written: Bytes)
    modifies r
    ensures written <= OpenFrom(open, old(r.rest), 0).written
    ensures ok || old(r.failsAfter).None? ==> Outcome(ok, written) == OpenFrom(open, old(r.rest), 0)
  {
    ghost var whole := OpenFrom(open, r.rest, 0);
    ghost var left := r.rest;
    written := [];
    var current, next := new byte[SEALED_SIZE], new byte[SEALED_SIZE];
    var n, readErr := r.ReadFull(current);
    var counter: uint32 := 0;
    while true
      invariant current.Length == next.Length == SEALED_SIZE && current != next && fresh(current) && fresh(next)
      invariant 0 <= n <= SEALED_SIZE && (!readErr.Failure? ==> Ahead(left, current[..n], readErr, r.rest, SEALED_SIZE))
      invariant old(r.failsAfter).None? ==> r.failsAfter.None? && !readErr.Failure?
      invariant Towards(whole, written, OpenFrom(open, left, counter))
      decreases |left|
    {
      if readErr.Eof? || readErr.Failure? { return false, written; }
      ghost var rest := r.rest;
      var last := readErr != NoError;
      var m, nextErr := 0, NoError;
      if !last {
        m, nextErr := r.ReadFull(next);
        if nextErr.Eof? { last := true; } else if nextErr.Failure? { return false, written; }
      }
      var plain := open(counter, last, current[..n]);
      assert if last then left == current[..n] else left[..SEALED_SIZE] == current[..n] && left[SEALED_SIZE..] == rest;
      if plain.None? { return false, written; }
      if last { return true, written + plain.value; }
      TowardsNext(whole, written, plain.value, OpenFrom(open, rest, Next(counter)));
      written := written + plain.value;
      left := rest;
      current, next := next, current;
      n, readErr := m, nextErr;
      counter := Next(counter);
    }
  }

  /** sealBackup, given the header it drew. */
  method SealBackup(r: Reader, aead: Bytes -> Aead, header: Header) returns (ok: bool, written: Bytes)
    modifies r
    ensures written <= Sealed(aead, header, old(r.rest)).written
    ensures ok || old(r.failsAfter).None? ==> Outcome(ok, written) == Sealed(aead, header, old(r.rest))
  {
    ok, written := SealChunks(r, SealerOf(aead(Salt(header)), header), header);
  }

  /** openBackup: with OnlySealedFilesOpen, what it writes is a prefix of the backup even when the stream fails. */
  method OpenBackup(r: Reader, aead: Bytes -> Aead) returns (ok: bool, written: Bytes)
    modifies r
    ensures written <= Opened(aead, old(r.rest)).written
    ensures ok || old(r.failsAfter).None? ==> Outcome(ok, written) == Opened(aead, old(r.rest))
  {
    var buffer := new byte[HEADER_SIZE];
    var n, err := r.ReadFull(buffer);
    if err != NoError { return false, []; }
    var header: Header := buffer[..];
    assert header == old(r.rest)[..HEADER_SIZE] && r.rest == old(r.rest)[HEADER_SIZE..];
    assert header[..8] == old(r.rest)[..8];
    if header[..8] != BACKUP_MAGIC { return false, []; }
    ok, written := OpenChunks(r, OpenerOf(aead(Salt(header)), header));
  }
}
