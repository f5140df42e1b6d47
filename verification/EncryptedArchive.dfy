/** The framed encryption of backup archives (internal/backup/backup.go): a magic line, then for
    every piece that was read a nonce, a length and the sealed piece.  The cipher is any pair of
    functions with the two laws the format needs. */
module EncryptedArchive {
  import opened Options

  type byte = b: int | 0 <= b < 256
  type Bytes = seq<byte>

  const NONCE_SIZE := 12
  const OVERHEAD := 16
  const CHUNK_SIZE := 65536
  const KEY_SIZE := 32

  /** AES-GCM under one key: nonce and plaintext in, ciphertext out, and back. */
  datatype Aead = Aead(seal: (Bytes, Bytes) -> Bytes, open: (Bytes, Bytes) -> Option<Bytes>)

  ghost predicate Lawful(aead: Aead) {
    forall nonce: Bytes, plain: Bytes ::
      && aead.open(nonce, aead.seal(nonce, plain)) == Some(plain)
      && |aead.seal(nonce, plain)| == |plain| + OVERHEAD
  }

  /** The magic line, "PROIDENTITY-BACKUP-AESGCM-CHUNKED-V1" and a line feed. */
  function Magic(): (m: Bytes)
    ensures |m| == 37
  {
    [80, 82, 79, 73, 68, 69, 78, 84, 73, 84, 89, 45, 66, 65, 67, 75, 85, 80, 45, 65, 69, 83, 71, 67, 77, 45,
     67, 72, 85, 78, 75, 69, 68, 45, 86, 49, 10]
  }

  function BigEndian(n: nat): (b: Bytes)
    requires n < 0x1_0000_0000
    ensures |b| == 4
  {
    [n / 256 / 256 / 256, n / 256 / 256 % 256, n / 256 % 256, n % 256]
  }

  function FromBigEndian(b: Bytes): (n: nat)
    requires |b| == 4
    ensures n < 0x1_0000_0000
  {
    ((b[0] as int * 256 + b[1] as int) * 256 + b[2] as int) * 256 + b[3] as int
  }

  lemma SizesRoundTrip(n: nat, b: Bytes)
    requires n < 0x1_0000_0000 && |b| == 4
    ensures FromBigEndian(BigEndian(n)) == n
    ensures BigEndian(FromBigEndian(b)) == b
  {
  }

  /* ---- frames ---- */

  datatype Frame = Frame(nonce: Bytes, ciphertext: Bytes)

  predicate ValidFrame(f: Frame) {
    |f.nonce| == NONCE_SIZE && 0 < |f.ciphertext| <= CHUNK_SIZE + OVERHEAD
  }

  function Encoded(f: Frame): (b: Bytes)
    requires ValidFrame(f)
    ensures |b| == NONCE_SIZE + 4 + |f.ciphertext|
  {
    f.nonce + BigEndian(|f.ciphertext|) + f.ciphertext
  }

  ghost predicate ValidFrames(frames: seq<Frame>) {
    forall f :: f in frames ==> ValidFrame(f)
  }

  function Flat(frames: seq<Frame>): Bytes
    requires ValidFrames(frames)
  {
    if frames == [] then [] else Encoded(frames[0]) + Flat(frames[1..])
  }

  /** The layout of a file of one frame, byte by byte. */
  lemma Layout(f: Frame, k: nat)
    requires ValidFrame(f)
    ensures |f.nonce| == 12 && 0 < |f.ciphertext| <= 65536 + 16
    ensures var n, file := |f.ciphertext|, Magic() + Flat([f]);
            && |file| == 37 + 12 + 4 + n
            && (k < 37 ==> file[k] as int == "PROIDENTITY-BACKUP-AESGCM-CHUNKED-V1\n"[k] as int)
            && file[37..49] == f.nonce && file[53..] == f.ciphertext
            && n == file[49] as int * 0x100_0000 + file[50] as int * 0x1_0000 + file[51] as int * 0x100 + file[52] as int
  {
    hide Magic, BigEndian, FromBigEndian;
    assert Flat([f]) == Encoded(f) + Flat([f][1..]);
    MagicLine(k);
    HighestByteFirst(|f.ciphertext|);
    var file := Magic() + Flat([f]);
    assert file == Magic() + (f.nonce + BigEndian(|f.ciphertext|) + f.ciphertext);
  }

  lemma MagicLine(k: nat)
    ensures k < 37 ==> Magic()[k] as int == "PROIDENTITY-BACKUP-AESGCM-CHUNKED-V1\n"[k] as int
  {
  }

  lemma HighestByteFirst(n: nat)
    requires n < 0x1_0000_0000
    ensures var b := BigEndian(n); n == b[0] as int * 0x100_0000 + b[1] as int * 0x1_0000 + b[2] as int * 0x100 + b[3] as int
  {
  }

  datatype Problem = NotEncrypted | NeedsKey | Truncated | BadSize | AuthenticationFailed
  datatype Decoded = Plain(bytes: Bytes) | Error(problem: Problem)

  /** What decryptFile makes of the bytes after the magic line. */
  function DecodeFrames(aead: Aead, b: Bytes): Decoded
    decreases |b|
  {
    if b == [] then Plain([])
    else if |b| < NONCE_SIZE + 4 then Error(Truncated)
    else
      var nonce := b[..NONCE_SIZE];
      var size := FromBigEndian(b[NONCE_SIZE..NONCE_SIZE+4]);
      var rest := b[NONCE_SIZE+4..];
      if size == 0 || size > CHUNK_SIZE + OVERHEAD then Error(BadSize)
      else if |rest| < size then Error(Truncated)
      else
        var plaintext := aead.open(nonce, rest[..size]);
        if plaintext == None then Error(AuthenticationFailed)
        else
          var tail := DecodeFrames(aead, rest[size..]);
          if tail.Error? then tail else Plain(plaintext.value + tail.bytes)
  }

  function Decode(aead: Aead, b: Bytes): Decoded {
    if |b| < |Magic()| then Error(Truncated)
    else if b[..|Magic()|] != Magic() then Error(NotEncrypted)
    else DecodeFrames(aead, b[|Magic()|..])
  }

  /** Taking the first frame off. */
  lemma FirstFrame(f: Frame, rest: Bytes)
    requires ValidFrame(f)
    ensures var b := Encoded(f) + rest;
            && |b| >= NONCE_SIZE + 4 && b[..NONCE_SIZE] == f.nonce
            && FromBigEndian(b[NONCE_SIZE..NONCE_SIZE+4]) == |f.ciphertext|
            && |b[NONCE_SIZE+4..]| >= |f.ciphertext|
            && b[NONCE_SIZE+4..][..|f.ciphertext|] == f.ciphertext
            && b[NONCE_SIZE+4..][|f.ciphertext|..] == rest
  {
    hide BigEndian, FromBigEndian;
    var b := Encoded(f) + rest;
    assert b[NONCE_SIZE..NONCE_SIZE+4] == BigEndian(|f.ciphertext|);
    SizesRoundTrip(|f.ciphertext|, b[NONCE_SIZE..NONCE_SIZE+4]);
  }

  /** What the frames hold, if every one of them opens. */
  function OpenAll(aead: Aead, frames: seq<Frame>): Option<Bytes> {
    if frames == [] then Some([])
    else
      var first := aead.open(frames[0].nonce, frames[0].ciphertext);
      var rest := OpenAll(aead, frames[1..]);
      if first == None || rest == None then None else Some(first.value + rest.value)
  }

  /** Bytes made of whole frames are decoded to what the frames hold. */
  lemma {:induction false} DecodesFlat(aead: Aead, frames: seq<Frame>)
    requires ValidFrames(frames)
    ensures OpenAll(aead, frames).Some? ==> DecodeFrames(aead, Flat(frames)) == Plain(OpenAll(aead, frames).value)
    ensures OpenAll(aead, frames) == None ==> DecodeFrames(aead, Flat(frames)) == Error(AuthenticationFailed)
  {
    hide Encoded, FromBigEndian;
    if frames != [] {
      FirstFrame(frames[0], Flat(frames[1..]));
      DecodesFlat(aead, frames[1..]);
    }
  }

  /** Whatever is accepted is made of whole frames that open. */
  lemma {:induction false} AcceptedIsFlat(aead: Aead, b: Bytes) returns (frames: seq<Frame>)
    requires DecodeFrames(aead, b).Plain?
    ensures ValidFrames(frames) && Flat(frames) == b
    ensures OpenAll(aead, frames) == Some(DecodeFrames(aead, b).bytes)
    decreases |b|
  {
    hide FromBigEndian, BigEndian;
    if b == [] {
      frames := [];
    } else {
      var sizeBytes := b[NONCE_SIZE..NONCE_SIZE+4];
      var size := FromBigEndian(sizeBytes);
      var rest := b[NONCE_SIZE+4..];
      var f := Frame(b[..NONCE_SIZE], rest[..size]);
      var tail := AcceptedIsFlat(aead, rest[size..]);
      frames := [f] + tail;
      SizesRoundTrip(size, sizeBytes);
      assert frames[1..] == tail;
      assert Encoded(f) + rest[size..] == b;
    }
  }

  /** Frame boundaries are unique. */
  lemma {:induction false} BoundariesAreUnique(fs: seq<Frame>, gs: seq<Frame>)
    requires ValidFrames(fs) && ValidFrames(gs) && Flat(fs) == Flat(gs)
    ensures fs == gs
  {
    hide Encoded, FromBigEndian;
    if fs != [] && gs != [] {
      FirstFrame(fs[0], Flat(fs[1..]));
      FirstFrame(gs[0], Flat(gs[1..]));
      BoundariesAreUnique(fs[1..], gs[1..]);
      assert fs == [fs[0]] + fs[1..] && gs == [gs[0]] + gs[1..];
    }
  }

  /** An input is accepted exactly when it is the magic line followed by whole frames that open. */
  lemma AcceptedIff(aead: Aead, b: Bytes, plain: Bytes)
    ensures Decode(aead, b) == Plain(plain) <==>
              exists frames :: ValidFrames(frames) && b == Magic() + Flat(frames) && OpenAll(aead, frames) == Some(plain)
  {
    hide Magic, DecodeFrames, Flat, OpenAll;
    if Decode(aead, b) == Plain(plain) {
      var frames := AcceptedIsFlat(aead, b[|Magic()|..]);
      assert b == b[..|Magic()|] + b[|Magic()|..];
      assert ValidFrames(frames) && b == Magic() + Flat(frames) && OpenAll(aead, frames) == Some(plain);
    }
    if frames :| ValidFrames(frames) && b == Magic() + Flat(frames) && OpenAll(aead, frames) == Some(plain) {
      assert b[..|Magic()|] == Magic() && b[|Magic()|..] == Flat(frames);
      DecodesFlat(aead, frames);
    }
  }

  /* ---- writing ---- */

  function Concat(pieces: seq<Bytes>): Bytes {
    if pieces == [] then [] else Concat(pieces[..|pieces|-1]) + pieces[|pieces|-1]
  }

  /** One frame for every non-empty piece. */
  function Sealed(aead: Aead, pieces: seq<Bytes>, nonces: seq<Bytes>): seq<Frame>
    requires |pieces| == |nonces|
  {
    if pieces == [] then []
    else
      var n := |pieces| - 1;
      Sealed(aead, pieces[..n], nonces[..n]) +
      (if pieces[n] == [] then [] else [Frame(nonces[n], aead.seal(nonces[n], pieces[n]))])
  }

  ghost predicate Reads(pieces: seq<Bytes>, nonces: seq<Bytes>) {
    && |pieces| == |nonces|
    && (forall piece :: piece in pieces ==> |piece| <= CHUNK_SIZE)
    && forall nonce :: nonce in nonces ==> |nonce| == NONCE_SIZE
  }

  lemma {:induction false} FlatAppend(frames: seq<Frame>, f: Frame)
    requires ValidFrames(frames) && ValidFrame(f)
    ensures ValidFrames(frames + [f]) && Flat(frames + [f]) == Flat(frames) + Encoded(f)
  {
    hide Encoded;
    if frames == [] {
      assert frames + [f] == [f];
    } else {
      assert (frames + [f])[1..] == frames[1..] + [f];
      FlatAppend(frames[1..], f);
      assert Encoded(frames[0]) + (Flat(frames[1..]) + Encoded(f)) == Encoded(frames[0]) + Flat(frames[1..]) + Encoded(f);
    }
  }

  lemma {:induction false} OpenAllAppend(aead: Aead, frames: seq<Frame>, f: Frame)
    requires OpenAll(aead, frames).Some? && aead.open(f.nonce, f.ciphertext).Some?
    ensures OpenAll(aead, frames + [f]) == Some(OpenAll(aead, frames).value + aead.open(f.nonce, f.ciphertext).value)
  {
    if frames == [] {
      assert frames + [f] == [f] && [f][1..] == [];
      var x := aead.open(f.nonce, f.ciphertext).value;
      assert x + [] == x && [] + x == x;
      assert OpenAll(aead, [f]) == Some(x);
    } else {
      assert (frames + [f])[1..] == frames[1..] + [f];
      OpenAllAppend(aead, frames[1..], f);
      var a, b, c := aead.open(frames[0].nonce, frames[0].ciphertext).value, OpenAll(aead, frames[1..]).value, aead.open(f.nonce, f.ciphertext).value;
      assert a + (b + c) == a + b + c;
    }
  }

  lemma {:induction false} SealedOpens(aead: Aead, pieces: seq<Bytes>, nonces: seq<Bytes>)
    requires Lawful(aead) && Reads(pieces, nonces)
    ensures ValidFrames(Sealed(aead, pieces, nonces))
    ensures OpenAll(aead, Sealed(aead, pieces, nonces)) == Some(Concat(pieces))
  {
    if pieces != [] {
      var n := |pieces| - 1;
      assert pieces[n] in pieces && nonces[n] in nonces;
      SealedOpens(aead, pieces[..n], nonces[..n]);
      if pieces[n] != [] {
        var f := Frame(nonces[n], aead.seal(nonces[n], pieces[n]));
        assert ValidFrame(f);
        assert aead.open(f.nonce, f.ciphertext) == Some(pieces[n]);
        OpenAllAppend(aead, Sealed(aead, pieces[..n], nonces[..n]), f);
      } else {
        assert Concat(pieces[..n]) + [] == Concat(pieces[..n]);
        assert Sealed(aead, pieces[..n], nonces[..n]) + [] == Sealed(aead, pieces[..n], nonces[..n]);
      }
    }
  }

  /** However the input is cut into pieces by reading, and whatever the nonces, decryption gives
      back what was encrypted. */
  lemma RoundTrip(aead: Aead, pieces: seq<Bytes>, nonces: seq<Bytes>)
    requires Lawful(aead) && Reads(pieces, nonces)
    ensures ValidFrames(Sealed(aead, pieces, nonces))
    ensures Decode(aead, Magic() + Flat(Sealed(aead, pieces, nonces))) == Plain(Concat(pieces))
  {
    hide Magic, Decode, Flat, OpenAll, Sealed, Concat;
    SealedOpens(aead, pieces, nonces);
    AcceptedIff(aead, Magic() + Flat(Sealed(aead, pieces, nonces)), Concat(pieces));
  }

  /* ---- what the format does not bind ---- */

  function Pick<T>(s: seq<T>, picks: seq<nat>): (r: seq<T>)
    requires forall k :: 0 <= k < |picks| ==> picks[k] < |s|
    ensures |r| == |picks| && forall k :: 0 <= k < |picks| ==> r[k] == s[picks[k]]
  {
    seq(|picks|, k requires 0 <= k < |picks| => s[picks[k]])
  }

  ghost predicate Holds(aead: Aead, frames: seq<Frame>, pieces: seq<Bytes>) {
    |frames| == |pieces| && forall k :: 0 <= k < |frames| ==> aead.open(frames[k].nonce, frames[k].ciphertext) == Some(pieces[k])
  }

  lemma {:induction false} HoldsAll(aead: Aead, frames: seq<Frame>, pieces: seq<Bytes>)
    requires Holds(aead, frames, pieces)
    ensures OpenAll(aead, frames) == Some(Concat(pieces))
  {
    if frames != [] {
      var n := |frames| - 1;
      HoldsAll(aead, frames[..n], pieces[..n]);
      OpenAllAppend(aead, frames[..n], frames[n]);
      assert frames == frames[..n] + [frames[n]];
    }
  }

  lemma {:induction false} OpenAllHolds(aead: Aead, frames: seq<Frame>) returns (pieces: seq<Bytes>)
    requires OpenAll(aead, frames).Some?
    ensures Holds(aead, frames, pieces)
  {
    if frames == [] {
      pieces := [];
    } else {
      var rest := OpenAllHolds(aead, frames[1..]);
      pieces := [aead.open(frames[0].nonce, frames[0].ciphertext).value] + rest;
    }
  }

  /** Nothing binds a frame to its place: with the frames of an accepted archive, every choice of them,
      in any order, with gaps and repetitions, is accepted too and holds just the chosen pieces. */
  lemma FramesCanBeMoved(aead: Aead, b: Bytes) returns (frames: seq<Frame>, pieces: seq<Bytes>)
    requires Decode(aead, b).Plain?
    ensures ValidFrames(frames) && b == Magic() + Flat(frames)
    ensures |pieces| == |frames| && Decode(aead, b) == Plain(Concat(pieces))
    ensures forall picks: seq<nat> :: (forall k :: 0 <= k < |picks| ==> picks[k] < |frames|) ==>
              ValidFrames(Pick(frames, picks)) && Decode(aead, Magic() + Flat(Pick(frames, picks))) == Plain(Concat(Pick(pieces, picks)))
  {
    hide Magic, DecodeFrames, Flat, OpenAll, Concat, Pick, ValidFrame;
    frames := AcceptedIsFlat(aead, b[|Magic()|..]);
    assert b == b[..|Magic()|] + b[|Magic()|..];
    pieces := OpenAllHolds(aead, frames);
    HoldsAll(aead, frames, pieces);
    forall picks: seq<nat> | forall k :: 0 <= k < |picks| ==> picks[k] < |frames|
      ensures ValidFrames(Pick(frames, picks))
      ensures Decode(aead, Magic() + Flat(Pick(frames, picks))) == Plain(Concat(Pick(pieces, picks)))
    {
      PickedOpen(aead, frames, pieces, picks);
    }
  }

  lemma PickedOpen(aead: Aead, frames: seq<Frame>, pieces: seq<Bytes>, picks: seq<nat>)
    requires ValidFrames(frames) && Holds(aead, frames, pieces)
    requires forall k :: 0 <= k < |picks| ==> picks[k] < |frames|
    ensures ValidFrames(Pick(frames, picks))
    ensures Decode(aead, Magic() + Flat(Pick(frames, picks))) == Plain(Concat(Pick(pieces, picks)))
  {
    hide Magic, Decode, Flat, OpenAll, Concat, ValidFrame;
    HoldsAll(aead, Pick(frames, picks), Pick(pieces, picks));
    AcceptedIff(aead, Magic() + Flat(Pick(frames, picks)), Concat(Pick(pieces, picks)));
  }

  /* ---- the files ---- */

  datatype Encrypted = BadKey | ReadFailed | Written(bytes: Bytes)

  /** Encrypts what the reads return until the end of the input or a read error. */
  method EncryptFile(aead: Aead, key: Bytes, pieces: seq<Bytes>, nonces: seq<Bytes>, readError: bool)
    returns (result: Encrypted)
    requires Lawful(aead) && Reads(pieces, nonces)
    ensures result == BadKey <==> |key| != 32
    ensures result == ReadFailed <==> |key| == 32 && readError
    ensures result.Written? ==>
              ValidFrames(Sealed(aead, pieces, nonces)) && result.bytes == Magic() + Flat(Sealed(aead, pieces, nonces))
              && Decode(aead, result.bytes) == Plain(Concat(pieces))
  {
    hide Magic, Flat, Encoded, Decode, BigEndian;
    if |key| != KEY_SIZE {
      return BadKey;
    }
    var output := Magic();
    var i := 0;
    FlatNone();
    while i < |pieces|
      invariant 0 <= i <= |pieces|
      invariant ValidFrames(Sealed(aead, pieces[..i], nonces[..i]))
      invariant output == Magic() + Flat(Sealed(aead, pieces[..i], nonces[..i]))
    {
      var piece, nonce := pieces[i], nonces[i];
      SealedNext(aead, pieces, nonces, i);
      if |piece| > 0 {
        var ciphertext := aead.seal(nonce, piece);
        WriteFrame(output, Frame(nonce, ciphertext));
        FlatAppend(Sealed(aead, pieces[..i], nonces[..i]), Frame(nonce, ciphertext));
        output := output + nonce;
        output := output + BigEndian(|ciphertext|);
        output := output + ciphertext;
      }
      i := i + 1;
    }
    if readError {
      return ReadFailed;
    }
    assert pieces[..i] == pieces && nonces[..i] == nonces;
    RoundTrip(aead, pieces, nonces);
    result := Written(output);
  }

  lemma FlatNone()
    ensures Flat([]) == []
  {
  }

  lemma WriteFrame(output: Bytes, f: Frame)
    requires ValidFrame(f)
    ensures output + f.nonce + BigEndian(|f.ciphertext|) + f.ciphertext == output + Encoded(f)
    ensures forall head, tail :: output == head + tail ==> output + Encoded(f) == head + (tail + Encoded(f))
  {
    hide BigEndian;
  }

  lemma SealedNext(aead: Aead, pieces: seq<Bytes>, nonces: seq<Bytes>, i: nat)
    requires Lawful(aead) && Reads(pieces, nonces) && i < |pieces|
    ensures pieces[i] == [] ==> Sealed(aead, pieces[..i+1], nonces[..i+1]) == Sealed(aead, pieces[..i], nonces[..i])
    ensures pieces[i] != [] ==>
              Sealed(aead, pieces[..i+1], nonces[..i+1])
              == Sealed(aead, pieces[..i], nonces[..i]) + [Frame(nonces[i], aead.seal(nonces[i], pieces[i]))]
    ensures pieces[i] != [] ==> ValidFrame(Frame(nonces[i], aead.seal(nonces[i], pieces[i])))
  {
    assert pieces[i] in pieces && nonces[i] in nonces;
    assert pieces[..i+1][..i] == pieces[..i] && nonces[..i+1][..i] == nonces[..i];
  }

  /* ---- reading ---- */

  /** Reads frame after frame from the input. */
  method DecryptFile(aead: Aead, input: Bytes) returns (result: Decoded)
    ensures result == Decode(aead, input)
  {
    hide Magic, DecodeFrames, FromBigEndian;
    if |input| < |Magic()| {
      return Error(Truncated);
    }
    if input[..|Magic()|] != Magic() {
      return Error(NotEncrypted);
    }
    var at := |Magic()|;
    var output: Bytes := [];
    while true
      invariant |Magic()| <= at <= |input|
      invariant Decode(aead, input) == Prepend(output, DecodeFrames(aead, input[at..]))
      decreases |input| - at
    {
      DecodeStep(aead, input, at, output);
      if at == |input| {
        return Plain(output);
      }
      if |input| - at < NONCE_SIZE + 4 {
        return Error(Truncated);
      }
      var nonce := input[at..at+NONCE_SIZE];
      var size := FromBigEndian(input[at+NONCE_SIZE..at+NONCE_SIZE+4]);
      at := at + NONCE_SIZE + 4;
      if size == 0 || size > CHUNK_SIZE + OVERHEAD {
        return Error(BadSize);
      }
      if |input| - at < size {
        return Error(Truncated);
      }
      var plaintext := aead.open(nonce, input[at..at+size]);
      if plaintext == None {
        return Error(AuthenticationFailed);
      }
      output := output + plaintext.value;
      at := at + size;
    }
  }

  function Prepend(output: Bytes, d: Decoded): Decoded {
    if d.Error? then d else Plain(output + d.bytes)
  }

  /** One turn of the reading loop. */
  lemma DecodeStep(aead: Aead, input: Bytes, at: nat, output: Bytes)
    requires at <= |input|
    ensures at == |input| ==> Prepend(output, DecodeFrames(aead, input[at..])) == Plain(output)
    ensures at < |input| && |input| - at < NONCE_SIZE + 4 ==> DecodeFrames(aead, input[at..]) == Error(Truncated)
    ensures |input| - at >= NONCE_SIZE + 4 ==>
      var nonce := input[at..at+NONCE_SIZE];
      var size := FromBigEndian(input[at+NONCE_SIZE..at+NONCE_SIZE+4]);
      var next := at + NONCE_SIZE + 4;
      && (size == 0 || size > CHUNK_SIZE + OVERHEAD ==> DecodeFrames(aead, input[at..]) == Error(BadSize))
      && (0 < size <= CHUNK_SIZE + OVERHEAD ==>
            && (|input| - next < size ==> DecodeFrames(aead, input[at..]) == Error(Truncated))
            && (|input| - next >= size ==>
                  var plaintext := aead.open(nonce, input[next..next+size]);
                  && (plaintext == None ==> DecodeFrames(aead, input[at..]) == Error(AuthenticationFailed))
                  && (plaintext.Some? ==>
                        Prepend(output, DecodeFrames(aead, input[at..]))
                        == Prepend(output + plaintext.value, DecodeFrames(aead, input[next+size..])))))
  {
    hide FromBigEndian;
    var b := input[at..];
    if |b| >= NONCE_SIZE + 4 {
      var next := at + NONCE_SIZE + 4;
      assert b[..NONCE_SIZE] == input[at..at+NONCE_SIZE];
      assert b[NONCE_SIZE..NONCE_SIZE+4] == input[at+NONCE_SIZE..next];
      assert b[NONCE_SIZE+4..] == input[next..];
      var size := FromBigEndian(b[NONCE_SIZE..NONCE_SIZE+4]);
      if |input| - next >= size {
        assert input[next..][..size] == input[next..next+size];
        assert input[next..][size..] == input[next+size..];
      }
    }
  }

  /** archiveIsEncrypted: reads as many bytes as the magic line has, or as there are. */
  method ArchiveIsEncrypted(input: Bytes) returns (encrypted: bool)
    ensures encrypted <==> Magic() <= input
  {
    hide Magic;
    var n := if |input| < |Magic()| then |input| else |Magic()|;
    encrypted := n == |Magic()| && input[..n] == Magic();
  }

  function Opened(aead: Aead, key: Bytes, input: Bytes): Decoded {
    if !(Magic() <= input) then Plain(input)
    else if |key| != KEY_SIZE then Error(NeedsKey)
    else Decode(aead, input)
  }

  /** openArchive: a file without the magic line is taken as it is. */
  method OpenArchive(aead: Aead, key: Bytes, input: Bytes) returns (result: Decoded)
    ensures result == Opened(aead, key, input)
  {
    hide Magic, Decode;
    var encrypted := ArchiveIsEncrypted(input);
    if !encrypted {
      return Plain(input);
    }
    if |key| != KEY_SIZE {
      return Error(NeedsKey);
    }
    result := DecryptFile(aead, input);
  }

  /** A backup is read back from its file, whether it was written encrypted or not. */
  lemma OpensWhatWasWritten(aead: Aead, key: Bytes, pieces: seq<Bytes>, nonces: seq<Bytes>)
    requires Lawful(aead) && Reads(pieces, nonces) && |key| == KEY_SIZE && !(Magic() <= Concat(pieces))
    ensures Opened(aead, key, Concat(pieces)) == Plain(Concat(pieces))
    ensures ValidFrames(Sealed(aead, pieces, nonces))
    ensures Opened(aead, key, Magic() + Flat(Sealed(aead, pieces, nonces))) == Plain(Concat(pieces))
    ensures Opened(aead, [], Magic() + Flat(Sealed(aead, pieces, nonces))) == Error(NeedsKey)
  {
    hide Magic, Decode, Concat, Flat, Sealed, ValidFrames;
    RoundTrip(aead, pieces, nonces);
  }
}
