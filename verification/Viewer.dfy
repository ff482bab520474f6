/** The encrypted viewer channel: length-prefixed AEAD frames numbered by their nonces. */
module Viewer {
  import opened Common

  type Bytes = seq<byte>

  const MAX_PLAIN_FRAME: nat := 0x8000
  const OVERHEAD: nat := 16
  const MAX_CIPHER_FRAME: nat := MAX_PLAIN_FRAME + OVERHEAD
  const MAX_UINT64: nat := 0xFFFF_FFFF_FFFF_FFFF

  type uint64 = n: nat | n <= MAX_UINT64

  // ---------------------------------------------------------------- nonces

  function FrameNonce(number: uint64): Bytes {
    [0, 0, 0, 0] + PutUint64(number)
  }

  /** Below 2^64 frames no nonce repeats. */
  lemma FrameNoncesDiffer(i: uint64, j: uint64)
    requires FrameNonce(i) == FrameNonce(j)
    ensures i == j
  {
    assert FrameNonce(i)[4..] == PutUint64(i) && FrameNonce(j)[4..] == PutUint64(j);
  }

  /** AES-256-GCM under one direction's key, without additional data. */
  datatype Aead = Aead(seal: (Bytes, Bytes) -> Bytes, open: (Bytes, Bytes) -> Option<Bytes>)

  ghost predicate Lawful(a: Aead) {
    forall n, p :: |a.seal(n, p)| == |p| + OVERHEAD && a.open(n, a.seal(n, p)) == Some(p)
  }

  /** Sealing and opening the frame of a number. */
  type Sealer = (uint64, Bytes) -> Bytes
  type Opener = (uint64, Bytes) -> Option<Bytes>

  function SealerOf(a: Aead): Sealer {
    (number: uint64, p: Bytes) => a.seal(FrameNonce(number), p)
  }

  function OpenerOf(a: Aead): Opener {
    (number: uint64, c: Bytes) => a.open(FrameNonce(number), c)
  }

  ghost predicate Matched(seal: Sealer, open: Opener) {
    forall n: uint64, p :: |seal(n, p)| == |p| + OVERHEAD && open(n, seal(n, p)) == Some(p)
  }

  lemma LawfulMatches(a: Aead)
    requires Lawful(a)
    ensures Matched(SealerOf(a), OpenerOf(a))
  {
    var seal, open := SealerOf(a), OpenerOf(a);
    forall n: uint64, p: Bytes ensures |seal(n, p)| == |p| + OVERHEAD && open(n, seal(n, p)) == Some(p) {
      assert seal(n, p) == a.seal(FrameNonce(n), p);
    }
  }

  // ---------------------------------------------------------------- the stream of frames

  /** The plaintexts sealed so far in one direction, in the order of their numbers. */
  type Log = seq<Bytes>

  /** The first n plaintexts one after the other. */
  function Flat(log: Log, n: nat): Bytes
    requires n <= |log|
  {
    if n == 0 then [] else Flat(log, n - 1) + log[n - 1]
  }

  lemma {:induction false} FlatPrefix(log: Log, n: nat, m: nat)
    requires n <= m <= |log|
    ensures Flat(log, n) <= Flat(log, m)
    decreases m
  {
    if n < m { FlatPrefix(log, n, m - 1); }
  }

  lemma {:induction false} FlatSame(log: Log, more: Log, n: nat)
    requires n <= |log| && log <= more
    ensures Flat(more, n) == Flat(log, n)
  {
    if n > 0 { FlatSame(log, more, n - 1); }
  }

  lemma {:induction false} FlatAppend(log: Log, more: Log, n: nat)
    requires n <= |more|
    ensures Flat(log + more, |log| + n) == Flat(log, |log|) + Flat(more, n)
  {
    if n == 0 {
      FlatSame(log, log + more, |log|);
    } else {
      FlatAppend(log, more, n - 1);
      assert (log + more)[|log| + n - 1] == more[n - 1];
      assert Flat(log, |log|) + Flat(more, n) == (Flat(log, |log|) + Flat(more, n - 1)) + more[n - 1];
    }
  }

  /** A frame on the wire: the length, truncated to 32 bits, and the ciphertext. */
  type Framer = (uint64, Bytes) -> Bytes

  function FramerOf(seal: Sealer): Framer {
    (number: uint64, plain: Bytes) =>
      PutUint32(|seal(number, plain)| % 0x1_0000_0000) + seal(number, plain)
  }

  /** The frames of the log from a number on, as written to the wire. */
  ghost function Frames(frame: Framer, log: Log, from: nat): Bytes
    requires from <= |log| <= MAX_UINT64
    decreases |log| - from
  {
    if from == |log| then [] else frame(from, log[from]) + Frames(frame, log, from + 1)
  }

  lemma {:induction false} FramesAppend(frame: Framer, log: Log, plain: Bytes, from: nat)
    requires from <= |log| < MAX_UINT64
    ensures Frames(frame, log + [plain], from) == Frames(frame, log, from) + frame(|log|, plain)
    decreases |log| - from
  {
    if from == |log| {
      assert Frames(frame, log + [plain], from) == frame(from, plain) + [];
    } else {
      FramesAppend(frame, log, plain, from + 1);
    }
  }

  /** What opens under a number is what was sealed under it. */
  ghost predicate Genuine(open: Opener, log: Log, n: uint64, chunk: Bytes) {
    open(n, chunk).Some? ==> n < |log| && open(n, chunk) == Some(log[n])
  }

  /** So it is for every number and every stretch of the bytes. */
  ghost predicate Unforged(open: Opener, incoming: Bytes, log: Log) {
    forall n: uint64, i, j :: 0 <= i <= j <= |incoming| ==> Genuine(open, log, n, incoming[i..j])
  }

  /** What is left of a stream once its first bytes are taken. */
  ghost predicate Suffix(part: Bytes, whole: Bytes) {
    |part| <= |whole| && part == whole[|whole| - |part|..]
  }

  lemma UnforgedSuffix(open: Opener, incoming: Bytes, log: Log, part: Bytes)
    requires Suffix(part, incoming) && Unforged(open, incoming, log)
    ensures Unforged(open, part, log)
  {
    var k := |incoming| - |part|;
    forall n: uint64, i, j | 0 <= i <= j <= |part| ensures Genuine(open, log, n, part[i..j]) {
      assert part[i..j] == incoming[k + i..k + j];
    }
  }

  lemma UnforgedPrefix(open: Opener, incoming: Bytes, log: Log, part: Bytes)
    requires part <= incoming && Unforged(open, incoming, log)
    ensures Unforged(open, part, log)
  {
    forall n: uint64, i, j | 0 <= i <= j <= |part| ensures Genuine(open, log, n, part[i..j]) {
      assert part[i..j] == incoming[i..j];
    }
  }

  /**
   * Ideal authenticity, as a cipher can promise it: a stretch of the bytes that opens under a nonce is
   * what was sealed under that nonce.
   */
  ghost predicate Authentic(a: Aead, incoming: Bytes, log: Log) {
    forall nonce, i, j :: 0 <= i <= j <= |incoming| && a.open(nonce, incoming[i..j]).Some? ==>
      SealedUnder(a, log, nonce, incoming[i..j])
  }

  ghost predicate SealedUnder(a: Aead, log: Log, nonce: Bytes, chunk: Bytes) {
    exists m: uint64 :: m < |log| && nonce == FrameNonce(m) && chunk == a.seal(nonce, log[m])
  }

  /** Nonces tell frames apart, so what opens as frame n is frame n. */
  lemma NoncesIdentifyFrames(a: Aead, incoming: Bytes, log: Log)
    requires Lawful(a) && Authentic(a, incoming, log)
    ensures Unforged(OpenerOf(a), incoming, log)
  {
    var open := OpenerOf(a);
    forall n: uint64, i, j | 0 <= i <= j <= |incoming| ensures Genuine(open, log, n, incoming[i..j]) {
      var chunk := incoming[i..j];
      if a.open(FrameNonce(n), chunk).Some? {
        assert SealedUnder(a, log, FrameNonce(n), chunk);
        var m: uint64 :| m < |log| && FrameNonce(n) == FrameNonce(m) && chunk == a.seal(FrameNonce(n), log[m]);
        FrameNoncesDiffer(n, m);
      }
    }
  }

  lemma SuffixOfSuffix(part: Bytes, middle: Bytes, whole: Bytes)
    requires Suffix(part, middle) && Suffix(middle, whole)
    ensures Suffix(part, whole)
  {
  }

  lemma SuffixGrows(part: Bytes, whole: Bytes, more: Bytes)
    requires Suffix(part, whole)
    ensures Suffix(part + more, whole + more)
  {
  }

  // ---------------------------------------------------------------- reading

  function Next(number: uint64): uint64 {
    if number == MAX_UINT64 then 0 else number + 1
  }

  /** The reading side: the number expected next, bytes opened but not delivered, bytes that arrived. */
  datatype ReadSide = ReadSide(number: uint64, buffer: Bytes, incoming: Bytes)

  /** Read's loop: frames are opened until one has content; an error consumes what was read. */
  function Fill(open: Opener, s: ReadSide): (bool, ReadSide)
    decreases |s.incoming|
  {
    if s.buffer != [] then (true, s)
    else if |s.incoming| < 4 then (false, s.(incoming := []))
    else
      var length := Uint32(s.incoming[..4]);
      if length <= 0 || length > MAX_CIPHER_FRAME then (false, s.(incoming := s.incoming[4..]))
      else if |s.incoming| < 4 + length then (false, s.(incoming := []))
      else
        var rest := s.incoming[4 + length..];
        match open(s.number, s.incoming[4..4 + length])
        case None => (false, s.(incoming := rest))
        case Some(plain) => Fill(open, ReadSide(Next(s.number), plain, rest))
  }

  /** Everything opened so far, delivered or still buffered, is the log up to the next number. */
  ghost predicate InStep(s: ReadSide, delivered: Bytes, log: Log) {
    s.number <= |log| <= MAX_UINT64 && delivered + s.buffer == Flat(log, s.number)
  }

  /** Whatever arrives, opening keeps in step with what was sealed. */
  lemma {:induction false} FillKeepsStep(open: Opener, s: ReadSide, delivered: Bytes, log: Log)
    requires InStep(s, delivered, log) && Unforged(open, s.incoming, log)
    ensures InStep(Fill(open, s).1, delivered, log)
    ensures Suffix(Fill(open, s).1.incoming, s.incoming)
    ensures Fill(open, s).0 <==> Fill(open, s).1.buffer != []
    decreases |s.incoming|
  {
    if s.buffer == [] && |s.incoming| >= 4 {
      var length := Uint32(s.incoming[..4]);
      if 0 < length <= MAX_CIPHER_FRAME && |s.incoming| >= 4 + length {
        var chunk := s.incoming[4..4 + length];
        assert Genuine(open, log, s.number, chunk);
        if open(s.number, chunk).Some? {
          var after := ReadSide(Next(s.number), log[s.number], s.incoming[4 + length..]);
          UnforgedSuffix(open, s.incoming, log, after.incoming);
          FillKeepsStep(open, after, delivered, log);
          SuffixOfSuffix(Fill(open, after).1.incoming, after.incoming, s.incoming);
        }
      }
    }
  }

  /** Frames as Write makes them: never empty, never longer than a reader accepts. */
  ghost predicate WellSized(log: Log) {
    forall i :: 0 <= i < |log| ==> 0 < |log[i]| <= MAX_PLAIN_FRAME
  }

  /** A frame with anything after it is read back as the plaintext and what follows. */
  ghost predicate Parses(frame: Framer, open: Opener, number: uint64, plain: Bytes, rest: Bytes) {
    var wire := frame(number, plain) + rest;
    && |wire| >= 4
    && var length := Uint32(wire[..4]);
       && 0 < length <= MAX_CIPHER_FRAME && 4 + length <= |wire|
       && open(number, wire[4..4 + length]) == Some(plain)
       && wire[4 + length..] == rest
  }

  lemma FrameParses(seal: Sealer, open: Opener, number: uint64, plain: Bytes, rest: Bytes)
    requires Matched(seal, open) && |plain| <= MAX_PLAIN_FRAME
    ensures Parses(FramerOf(seal), open, number, plain, rest)
  {
    var chunk := seal(number, plain);
    var wire := FramerOf(seal)(number, plain) + rest;
    assert wire == PutUint32(|chunk|) + chunk + rest;
    assert wire[..4] == PutUint32(|chunk|) && wire[4..4 + |chunk|] == chunk && wire[4 + |chunk|..] == rest;
  }

  /** The frame is one a reader accepts, whatever follows it. */
  ghost predicate Readable(frame: Framer, open: Opener) {
    forall number: uint64, plain, rest :: |plain| <= MAX_PLAIN_FRAME ==> Parses(frame, open, number, plain, rest)
  }

  lemma WrittenFramesAreReadable(seal: Sealer, open: Opener)
    requires Matched(seal, open)
    ensures Readable(FramerOf(seal), open)
  {
    forall number: uint64, plain, rest | |plain| <= MAX_PLAIN_FRAME
      ensures Parses(FramerOf(seal), open, number, plain, rest)
    {
      FrameParses(seal, open, number, plain, rest);
    }
  }

  lemma FillOneFrame(frame: Framer, open: Opener, number: uint64, plain: Bytes, rest: Bytes)
    requires Parses(frame, open, number, plain, rest) && plain != []
    ensures Fill(open, ReadSide(number, [], frame(number, plain) + rest)) == (true, ReadSide(Next(number), plain, rest))
  {
  }

  lemma FillNothing(open: Opener, s: ReadSide)
    requires s.buffer == [] && s.incoming == []
    ensures Fill(open, s) == (false, s)
  {
  }

  /** One frame more is opened and becomes the buffer. */
  lemma FillNextFrame(frame: Framer, open: Opener, s: ReadSide, delivered: Bytes, log: Log)
    requires Readable(frame, open) && WellSized(log) && InStep(s, delivered, log)
    requires s.incoming == Frames(frame, log, s.number) && s.buffer == [] && s.number < |log|
    ensures var after := ReadSide(s.number + 1, log[s.number], Frames(frame, log, s.number + 1));
            Fill(open, s) == (true, after) && InStep(after, delivered, log)
  {
    var number, plain := s.number, log[s.number];
    var rest := Frames(frame, log, number + 1);
    assert Parses(frame, open, number, plain, rest);
    FillOneFrame(frame, open, number, plain, rest);
    assert s == ReadSide(number, [], frame(number, plain) + rest);
    assert delivered + [] == delivered;
  }

  /** On the bytes the peer wrote, every frame passes the length check and opens, until none is left. */
  lemma FillReadsFrames(frame: Framer, open: Opener, s: ReadSide, delivered: Bytes, log: Log)
    requires Readable(frame, open) && WellSized(log) && InStep(s, delivered, log)
    requires s.incoming == Frames(frame, log, s.number)
    ensures var (ok, after) := Fill(open, s);
            && (ok <==> s.buffer != [] || s.number < |log|)
            && (ok <==> after.buffer != [])
            && InStep(after, delivered, log)
            && after.incoming == Frames(frame, log, after.number)
  {
    if s.buffer != [] {
      assert Fill(open, s) == (true, s);
    } else if s.number < |log| {
      FillNextFrame(frame, open, s, delivered, log);
    } else {
      FillNothing(open, s);
    }
  }

  // ---------------------------------------------------------------- writing

  /** What one Write is cut into. */
  function Pieces(p: Bytes): Log {
    if p == [] then []
    else if |p| <= MAX_PLAIN_FRAME then [p]
    else [p[..MAX_PLAIN_FRAME]] + Pieces(p[MAX_PLAIN_FRAME..])
  }

  lemma {:induction false} PiecesAreWellSized(p: Bytes)
    ensures WellSized(Pieces(p))
    decreases |p|
  {
    if |p| > MAX_PLAIN_FRAME { PiecesAreWellSized(p[MAX_PLAIN_FRAME..]); }
  }

  lemma FlatOne(p: Bytes)
    ensures Flat([p], 1) == p
  {
    assert Flat([p], 0) == [] && [] + p == p;
  }

  lemma {:induction false} PiecesAddUp(p: Bytes)
    ensures Flat(Pieces(p), |Pieces(p)|) == p
    decreases |p|
  {
    if |p| > MAX_PLAIN_FRAME {
      var first, rest := p[..MAX_PLAIN_FRAME], p[MAX_PLAIN_FRAME..];
      var pieces := Pieces(rest);
      PiecesAddUp(rest);
      FlatOne(first);
      FlatAppend([first], pieces, |pieces|);
      assert first + rest == p;
    } else if p != [] {
      FlatOne(p);
    }
  }

  // ---------------------------------------------------------------- the connection

  class EncryptedConn {
    const seal: Sealer
    const open: Opener
    ghost const frame: Framer
    var readSeq: uint64
    var writeSeq: uint64
    var readBuf: Bytes
    /** Bytes the network brought and Read has not taken. */
    var incoming: Bytes
    /** Bytes given to the network, and how many more it takes before it fails. */
    var outgoing: Bytes
    var room: Option<nat>
    /** What was sealed, and what Read returned. */
    ghost var log: Log
    ghost var delivered: Bytes

    constructor (seal: Sealer, open: Opener, room: Option<nat>)
      ensures this.seal == seal && this.open == open && this.room == room
      ensures log == [] && delivered == [] && incoming == [] && outgoing == []
      ensures WriteValid() && Reading() == ReadSide(0, [], [])
    {
      this.seal, this.open, this.room, this.frame := seal, open, room, FramerOf(seal);
      readSeq, writeSeq, readBuf, incoming, outgoing, log, delivered := 0, 0, [], [], [], [], [];
    }

    ghost predicate WriteValid()
      reads this
    {
      writeSeq == |log| && frame == FramerOf(seal)
    }

    function Reading(): ReadSide
      reads this
    {
      ReadSide(readSeq, readBuf, incoming)
    }

    /** The network takes the bytes, or as many as it can and fails. */
    method Send(bytes: Bytes) returns (ok: bool)
      modifies this`outgoing, this`room
      ensures outgoing <= old(outgoing) + bytes && old(outgoing) <= outgoing
      ensures ok ==> outgoing == old(outgoing) + bytes
      ensures old(room).None? ==> ok && room.None?
    {
      if room.Some? && room.value < |bytes| {
        outgoing := outgoing + bytes[..room.value];
        room := Some(0);
        return false;
      }
      if room.Some? { room := Some(room.value - |bytes|); }
      outgoing := outgoing + bytes;
      ok := true;
    }

    /** One frame: the next number, the length and the ciphertext. */
    method WriteFrame(piece: Bytes, ghost since: nat) returns (ok: bool)
      requires WriteValid() && since <= |log| < MAX_UINT64
      modifies this`writeSeq, this`outgoing, this`room, this`log
      ensures WriteValid() && log == old(log) + [piece]
      ensures ok ==> exists wire :: outgoing == old(outgoing) + wire
                               && Frames(frame, log, since) == Frames(frame, old(log), since) + wire
      ensures old(room).None? ==> ok && room.None?
    {
      var ciphertext := seal(writeSeq, piece);
      writeSeq := writeSeq + 1;
      FramesAppend(frame, log, piece, since);
      log := log + [piece];
      var lengthBytes := PutUint32(|ciphertext| % 0x1_0000_0000);
      ok := Send(lengthBytes);
      if !ok { return; }
      ok := Send(ciphertext);
      ghost var wire := frame(writeSeq - 1, piece);
      assert wire == lengthBytes + ciphertext;
      assert old(outgoing) + lengthBytes + ciphertext == old(outgoing) + wire;
    }

    /** Every frame of the write gets the next number; a failed write has sealed only a part of it. */
    method Write(p: Bytes) returns (written: nat, ok: bool)
      requires WriteValid() && |log| + |Pieces(p)| <= MAX_UINT64
      modifies this`writeSeq, this`outgoing, this`room, this`log
      ensures WriteValid() && old(log) <= log <= old(log) + Pieces(p)
      ensures ok ==> written == |p| && log == old(log) + Pieces(p)
      ensures ok ==> outgoing == old(outgoing) + Frames(frame, log, |old(log)|)
      ensures old(room).None? ==> ok && room.None?
      ensures written <= |p|
    {
      written := 0;
      ghost var before := log;
      assert p[0..] == p;
      while written < |p|
        invariant 0 <= written <= |p| && WriteValid()
        invariant before <= log && log + Pieces(p[written..]) == before + Pieces(p)
        invariant outgoing == old(outgoing) + Frames(frame, log, |before|)
        invariant old(room).None? ==> room.None?
      {
        var end := Min(written + MAX_PLAIN_FRAME, |p|);
        var piece := p[written..end];
        PieceNext(p, written, end);
        assert (log + [piece]) + Pieces(p[end..]) == log + ([piece] + Pieces(p[end..]));
        ok := WriteFrame(piece, |before|);
        if !ok { return; }
        written := end;
      }
      assert Pieces(p[written..]) == [];
      ok := true;
    }

    /** Read: delivers buffered bytes, opening frames first when there are none. */
    method Read(size: nat) returns (result: Bytes, ok: bool)
      modifies this`readSeq, this`readBuf, this`incoming, this`delivered
      ensures ok == Fill(open, old(Reading())).0
      ensures readSeq == Fill(open, old(Reading())).1.number && incoming == Fill(open, old(Reading())).1.incoming
      ensures result + readBuf == Fill(open, old(Reading())).1.buffer
      ensures ok ==> |result| == Min(size, |Fill(open, old(Reading())).1.buffer|)
      ensures !ok ==> result == []
      ensures delivered == old(delivered) + result
    {
      while readBuf == []
        invariant Fill(open, Reading()) == Fill(open, old(Reading()))
        invariant delivered == old(delivered)
        decreases |incoming|, |readBuf|
      {
        if |incoming| < 4 {
          incoming := [];
          return [], false;
        }
        var length := Uint32(incoming[..4]);
        if length <= 0 || length > MAX_CIPHER_FRAME {
          incoming := incoming[4..];
          return [], false;
        }
        if |incoming| < 4 + length {
          incoming := [];
          return [], false;
        }
        var plaintext := open(readSeq, incoming[4..4 + length]);
        incoming := incoming[4 + length..];
        if plaintext.None? { return [], false; }
        readSeq := Next(readSeq);
        readBuf := plaintext.value;
      }
      var n := Min(size, |readBuf|);
      result := readBuf[..n];
      readBuf := readBuf[n..];
      delivered := delivered + result;
      ok := true;
    }
  }

  lemma PieceNext(p: Bytes, written: nat, end: nat)
    requires written < |p| && end == Min(written + MAX_PLAIN_FRAME, |p|)
    ensures Pieces(p[written..]) == [p[written..end]] + Pieces(p[end..])
  {
    var rest := p[written..];
    if |rest| <= MAX_PLAIN_FRAME {
      assert rest == p[written..end] && p[end..] == [];
    } else {
      assert rest[..MAX_PLAIN_FRAME] == p[written..end] && rest[MAX_PLAIN_FRAME..] == p[end..];
    }
  }

  // ---------------------------------------------------------------- whole exchanges

  /** Reading to the end of what the peer wrote delivers all of it, in reads of any size. */
  method ReadToEnd(conn: EncryptedConn, size: nat, ghost frame: Framer, ghost log: Log) returns (received: Bytes)
    requires size > 0 && Readable(frame, conn.open) && WellSized(log)
    requires InStep(conn.Reading(), conn.delivered, log) && conn.incoming == Frames(frame, log, conn.readSeq)
    modifies conn
    ensures conn.delivered == Flat(log, |log|) == old(conn.delivered) + received
  {
    received := [];
    var ok := true;
    while ok
      invariant InStep(conn.Reading(), conn.delivered, log) && conn.incoming == Frames(frame, log, conn.readSeq)
      invariant conn.delivered == old(conn.delivered) + received
      invariant !ok ==> conn.readBuf == [] && conn.readSeq == |log|
      decreases ok, |Flat(log, |log|)| - |conn.delivered|
    {
      ghost var (willRead, after) := Fill(conn.open, conn.Reading());
      FillReadsFrames(frame, conn.open, conn.Reading(), conn.delivered, log);
      FlatPrefix(log, after.number, |log|);
      var result;
      result, ok := conn.Read(size);
      assert old(conn.delivered) + received + (result + conn.readBuf) == conn.delivered + conn.readBuf;
      received := received + result;
    }
  }

  /** The frames of a log, split where more were added. */
  lemma {:induction false} FramesSplit(frame: Framer, log: Log, more: Log, from: nat)
    requires from <= |log| && log <= more && |more| <= MAX_UINT64
    ensures Frames(frame, more, from) == Frames(frame, log, from) + Frames(frame, more, |log|)
    decreases |log| - from
  {
    if from < |log| {
      FramesSplit(frame, log, more, from + 1);
      assert more[from] == log[from];
    }
  }

  lemma WellSizedAppend(log: Log, p: Bytes)
    requires WellSized(log)
    ensures WellSized(log + Pieces(p))
  {
    PiecesAreWellSized(p);
  }

  /** A write that goes through adds its frames to the wire and its text to the log. */
  method WriteAll(conn: EncryptedConn, p: Bytes)
    requires conn.WriteValid() && conn.room.None? && |conn.log| + |Pieces(p)| <= MAX_UINT64
    requires WellSized(conn.log) && conn.outgoing == Frames(conn.frame, conn.log, 0)
    modifies conn
    ensures conn.WriteValid() && conn.room.None? && conn.log == old(conn.log) + Pieces(p)
    ensures WellSized(conn.log) && conn.outgoing == Frames(conn.frame, conn.log, 0)
    ensures Flat(conn.log, |conn.log|) == old(Flat(conn.log, |conn.log|)) + p
  {
    ghost var log := conn.log;
    WellSizedAppend(log, p);
    PiecesAddUp(p);
    FlatExtend(log, Pieces(p), Flat(log, |log|), p);
    FramesSplit(conn.frame, log, log + Pieces(p), 0);
    var written, ok := conn.Write(p);
  }

  /** How many frames the first n writes make. */
  function FrameCount(writes: seq<Bytes>, n: nat): nat
    requires n <= |writes|
  {
    if n == 0 then 0 else FrameCount(writes, n - 1) + |Pieces(writes[n - 1])|
  }

  lemma {:induction false} FrameCountGrows(writes: seq<Bytes>, n: nat, m: nat)
    requires n <= m <= |writes|
    ensures FrameCount(writes, n) <= FrameCount(writes, m)
    decreases m
  {
    if n < m { FrameCountGrows(writes, n, m - 1); }
  }

  /** Over a network that delivers what it is given, everything written is received, in reads of any size. */
  method SendAndReceive(a: Aead, writes: seq<Bytes>, size: nat) returns (received: Bytes)
    requires Lawful(a) && size > 0 && FrameCount(writes, |writes|) <= MAX_UINT64
    ensures received == Flat(writes, |writes|)
  {
    var writer := new EncryptedConn(SealerOf(a), OpenerOf(a), None);
    WriteEach(writer, writes);
    var reader := new EncryptedConn(SealerOf(a), OpenerOf(a), None);
    LawfulMatches(a);
    WrittenFramesAreReadable(SealerOf(a), OpenerOf(a));
    reader.incoming := writer.outgoing;
    received := ReadToEnd(reader, size, writer.frame, writer.log);
  }

  method WriteEach(conn: EncryptedConn, writes: seq<Bytes>)
    requires conn.WriteValid() && conn.room.None? && conn.log == [] && conn.outgoing == []
    requires FrameCount(writes, |writes|) <= MAX_UINT64
    modifies conn
    ensures conn.WriteValid() && WellSized(conn.log) && |conn.log| <= MAX_UINT64
    ensures conn.outgoing == Frames(conn.frame, conn.log, 0) && Flat(conn.log, |conn.log|) == Flat(writes, |writes|)
  {
    var i := 0;
    while i < |writes|
      invariant 0 <= i <= |writes| && conn.WriteValid() && conn.room.None?
      invariant |conn.log| == FrameCount(writes, i) <= MAX_UINT64
      invariant WellSized(conn.log) && conn.outgoing == Frames(conn.frame, conn.log, 0)
      invariant Flat(conn.log, |conn.log|) == Flat(writes, i)
    {
      FrameCountGrows(writes, i + 1, |writes|);
      WriteAll(conn, writes[i]);
      i := i + 1;
    }
  }

  /** One end writes, bytes arrive at the other from anywhere, and the other reads. */
  datatype Event = Writes(p: Bytes) | Arrives(bytes: Bytes) | Reads(size: nat)

  function NewText(event: Event): Bytes {
    if event.Writes? then event.p else []
  }

  function NewFrames(event: Event): Log {
    if event.Writes? then Pieces(event.p) else []
  }

  function NewBytes(event: Event): Bytes {
    if event.Arrives? then event.bytes else []
  }

  /** What the first n events wrote, as bytes and as frames, and what arrived in them. */
  function Sent(events: seq<Event>, n: nat): Bytes
    requires n <= |events|
  {
    if n == 0 then [] else Sent(events, n - 1) + NewText(events[n - 1])
  }

  function Sealed(events: seq<Event>, n: nat): Log
    requires n <= |events|
  {
    if n == 0 then [] else Sealed(events, n - 1) + NewFrames(events[n - 1])
  }

  function Arrived(events: seq<Event>, n: nat): Bytes
    requires n <= |events|
  {
    if n == 0 then [] else Arrived(events, n - 1) + NewBytes(events[n - 1])
  }

  lemma FlatExtend(log: Log, more: Log, before: Bytes, text: Bytes)
    requires Flat(log, |log|) == before && Flat(more, |more|) == text
    ensures Flat(log + more, |log + more|) == before + text
  {
    FlatAppend(log, more, |more|);
  }

  lemma NewFramesAddUp(event: Event)
    ensures Flat(NewFrames(event), |NewFrames(event)|) == NewText(event)
  {
    if event.Writes? { PiecesAddUp(event.p); }
  }

  lemma {:induction false} SealedIsSent(events: seq<Event>, n: nat)
    requires n <= |events|
    ensures Flat(Sealed(events, n), |Sealed(events, n)|) == Sent(events, n)
  {
    if n > 0 {
      SealedIsSent(events, n - 1);
      NewFramesAddUp(events[n - 1]);
      FlatExtend(Sealed(events, n - 1), NewFrames(events[n - 1]), Sent(events, n - 1), NewText(events[n - 1]));
    }
  }

  lemma {:induction false} SealedGrows(events: seq<Event>, n: nat, m: nat)
    requires n <= m <= |events|
    ensures |Sealed(events, n)| <= |Sealed(events, m)|
    decreases m
  {
    if n < m { SealedGrows(events, n, m - 1); }
  }

  lemma SealedNext(events: seq<Event>, i: nat)
    requires i < |events|
    ensures Sealed(events, i + 1) == Sealed(events, i) + NewFrames(events[i])
  {
  }

  /** One Read on the reading side: what is left, and what is delivered. */
  function Delivered(open: Opener, s: ReadSide, size: nat): (ReadSide, Bytes) {
    var (ok, after) := Fill(open, s);
    var n := if ok then Min(size, |after.buffer|) else 0;
    (after.(buffer := after.buffer[n..]), after.buffer[..n])
  }

  /** The reading side after the first n events, and all that was delivered. */
  function ReadRun(open: Opener, events: seq<Event>, n: nat): (ReadSide, Bytes)
    requires n <= |events|
  {
    if n == 0 then (ReadSide(0, [], []), [])
    else
      var (s, received) := ReadRun(open, events, n - 1);
      match events[n - 1]
      case Writes(_) => (s, received)
      case Arrives(bytes) => (s.(incoming := s.incoming + bytes), received)
      case Reads(size) => var (after, result) := Delivered(open, s, size); (after, received + result)
  }

  lemma DeliveredKeepsStep(open: Opener, s: ReadSide, received: Bytes, log: Log, size: nat)
    requires InStep(s, received, log) && Unforged(open, s.incoming, log)
    ensures var (after, result) := Delivered(open, s, size);
            InStep(after, received + result, log) && Suffix(after.incoming, s.incoming)
  {
    FillKeepsStep(open, s, received, log);
    var (ok, filled) := Fill(open, s);
    var n := if ok then Min(size, |filled.buffer|) else 0;
    assert filled.buffer == filled.buffer[..n] + filled.buffer[n..];
    assert (received + filled.buffer[..n]) + filled.buffer[n..] == received + filled.buffer;
  }

  /** Whatever order writes, arrivals and reads come in, the reading side keeps in step with the log. */
  lemma {:induction false} ReadRunKeepsStep(open: Opener, events: seq<Event>, n: nat, log: Log)
    requires n <= |events| && |log| <= MAX_UINT64 && Unforged(open, Arrived(events, n), log)
    ensures var (s, received) := ReadRun(open, events, n);
            InStep(s, received, log) && Suffix(s.incoming, Arrived(events, n))
  {
    if n > 0 {
      var arrived := Arrived(events, n - 1);
      UnforgedPrefix(open, Arrived(events, n), log, arrived);
      ReadRunKeepsStep(open, events, n - 1, log);
      var (s, received) := ReadRun(open, events, n - 1);
      match events[n - 1]
      case Writes(_) =>
        assert Arrived(events, n) == arrived;
      case Arrives(bytes) =>
        SuffixGrows(s.incoming, arrived, bytes);
      case Reads(size) =>
        assert Arrived(events, n) == arrived;
        UnforgedSuffix(open, arrived, log, s.incoming);
        DeliveredKeepsStep(open, s, received, log, size);
        SuffixOfSuffix(Delivered(open, s, size).0.incoming, s.incoming, arrived);
    }
  }

  lemma InStepIsPrefix(s: ReadSide, received: Bytes, log: Log)
    requires InStep(s, received, log)
    ensures received <= Flat(log, |log|)
  {
    FlatPrefix(log, s.number, |log|);
    assert received <= received + s.buffer;
  }

  lemma UnforgedIsPrefix(open: Opener, events: seq<Event>, log: Log)
    requires |log| <= MAX_UINT64 && Unforged(open, Arrived(events, |events|), log)
    ensures ReadRun(open, events, |events|).1 <= Flat(log, |log|)
  {
    ReadRunKeepsStep(open, events, |events|, log);
    var run := ReadRun(open, events, |events|);
    InStepIsPrefix(run.0, run.1, log);
  }

  /** What was delivered by the end is a prefix of what was sealed by then, if nothing that arrived is forged. */
  lemma DeliveredIsPrefix(a: Aead, events: seq<Event>, log: Log)
    requires Lawful(a) && |log| <= MAX_UINT64 && Authentic(a, Arrived(events, |events|), log)
    ensures ReadRun(OpenerOf(a), events, |events|).1 <= Flat(log, |log|)
  {
    NoncesIdentifyFrames(a, Arrived(events, |events|), log);
    UnforgedIsPrefix(OpenerOf(a), events, log);
  }

  /** What a writer has sealed after the first n events, none of which it may have finished. */
  ghost predicate Wrote(writer: EncryptedConn, events: seq<Event>, n: nat, reliable: bool)
    requires n <= |events|
    reads writer
  {
    && writer.WriteValid() && |writer.log| <= |Sealed(events, n)|
    && (reliable ==> writer.room.None? && writer.log == Sealed(events, n))
  }

  /** One event, at both ends. */
  method Happen(writer: EncryptedConn, reader: EncryptedConn, events: seq<Event>, n: nat, ghost reliable: bool) returns (result: Bytes)
    requires writer != reader && n < |events| && |Sealed(events, |events|)| <= MAX_UINT64
    requires Wrote(writer, events, n, reliable) && ReadRun(reader.open, events, n) == (reader.Reading(), reader.delivered)
    modifies writer, reader
    ensures Wrote(writer, events, n + 1, reliable)
    ensures ReadRun(reader.open, events, n + 1) == (reader.Reading(), reader.delivered)
    ensures reader.delivered == old(reader.delivered) + result
  {
    result := [];
    SealedNext(events, n);
    SealedGrows(events, n + 1, |events|);
    match events[n] {
      case Writes(p) =>
        var written, ok := writer.Write(p);
      case Arrives(bytes) =>
        reader.incoming := reader.incoming + bytes;
      case Reads(size) =>
        var ok;
        result, ok := reader.Read(size);
        assert (result + reader.readBuf)[..|result|] == result && (result + reader.readBuf)[|result|..] == reader.readBuf;
    }
  }

  /**
   * However writes, arrivals and reads interleave, whichever writes fail on the way, and whatever bytes
   * arrive as long as none are forged, what was delivered is a prefix of what was sealed; and when no
   * write can fail, that is what was written.
   */
  method Exchange(a: Aead, writer: EncryptedConn, reader: EncryptedConn, events: seq<Event>) returns (received: Bytes)
    requires Lawful(a) && writer != reader && reader.open == OpenerOf(a)
    requires writer.seal == SealerOf(a) && writer.WriteValid() && writer.log == []
    requires reader.Reading() == ReadSide(0, [], []) && reader.delivered == []
    requires |Sealed(events, |events|)| <= MAX_UINT64
    modifies writer, reader
    ensures Authentic(a, Arrived(events, |events|), writer.log) ==> received <= Flat(writer.log, |writer.log|)
    ensures old(writer.room).None? ==> Flat(writer.log, |writer.log|) == Sent(events, |events|)
  {
    ghost var reliable := writer.room.None?;
    received := [];
    var i := 0;
    while i < |events|
      invariant 0 <= i <= |events| && Wrote(writer, events, i, reliable)
      invariant ReadRun(reader.open, events, i) == (reader.Reading(), reader.delivered) && received == reader.delivered
    {
      var result := Happen(writer, reader, events, i, reliable);
      received := received + result;
      i := i + 1;
    }
    SealedIsSent(events, i);
    if Authentic(a, Arrived(events, i), writer.log) { DeliveredIsPrefix(a, events, writer.log); }
  }

  // ---------------------------------------------------------------- handshake messages

  const MAX_PUBLIC_KEY: nat := 2048

  function WriteHandshake(magic: Bytes, key: Bytes): Result<Bytes> {
    if |key| <= 0 || |key| > MAX_PUBLIC_KEY then Err
    else Ok(magic + [(|key| / 256) as byte, (|key| % 256) as byte] + key)
  }

  /** The key, and what follows it on the stream. */
  function ReadHandshake(expected: Bytes, stream: Bytes): Result<(Bytes, Bytes)> {
    if |stream| < |expected| || stream[..|expected|] != expected then Err
    else
      var rest := stream[|expected|..];
      if |rest| < 2 then Err
      else
        var length := rest[0] as nat * 256 + rest[1] as nat;
        if length <= 0 || length > MAX_PUBLIC_KEY || |rest| < 2 + length then Err
        else Ok((rest[2..2 + length], rest[2 + length..]))
  }

  /** A message read back is the key that was written, and the stream goes on right after it. */
  lemma HandshakeRoundTrips(magic: Bytes, key: Bytes, rest: Bytes)
    ensures WriteHandshake(magic, key).Ok? <==> 0 < |key| <= MAX_PUBLIC_KEY
    ensures WriteHandshake(magic, key).Ok? ==>
              ReadHandshake(magic, WriteHandshake(magic, key).value + rest) == Ok((key, rest))
  {
    if 0 < |key| <= MAX_PUBLIC_KEY {
      var stream := WriteHandshake(magic, key).value + rest;
      var tail := [(|key| / 256) as byte, (|key| % 256) as byte] + key + rest;
      assert stream[..|magic|] == magic && stream[|magic|..] == tail;
      assert tail[2..2 + |key|] == key && tail[2 + |key|..] == rest;
    }
  }

  /** Only one key can have been written in the bytes a read consumed. */
  lemma HandshakeReadsWhatWasWritten(magic: Bytes, stream: Bytes)
    requires ReadHandshake(magic, stream).Ok?
    ensures var (key, rest) := ReadHandshake(magic, stream).value;
            WriteHandshake(magic, key).Ok? && stream == WriteHandshake(magic, key).value + rest
  {
    var (key, rest) := ReadHandshake(magic, stream).value;
    var tail := stream[|magic|..];
    assert |key| / 256 == tail[0] as nat && |key| % 256 == tail[1] as nat;
    assert tail == [tail[0], tail[1]] + key + rest;
    assert stream == magic + tail;
  }
}
