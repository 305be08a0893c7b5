// internal/store/encryption.go: a byte stream is cut into 64 KB chunks, each sealed under a fresh nonce
// and written as [4-byte length][nonce][ciphertext and tag].
module Encryption {
  import opened Bytes

  const CHUNK: nat := 65536
  const NONCE_SIZE: nat := 12
  const TAG_SIZE: nat := 16

  /** What a frame adds to its chunk: length, nonce and tag. */
  const OVERHEAD: nat := 4 + NONCE_SIZE + TAG_SIZE

  /** The largest sealed length the reader accepts. */
  const MAX_SEALED: nat := CHUNK + NONCE_SIZE + TAG_SIZE + 1024

  type Nonce = s: seq<byte> | |s| == NONCE_SIZE
    witness [0, 0, 0, 0, 0, 0, 0, 0, 0, 0, 0, 0]

  /** A keyed AES-GCM instance. Its cryptography is opaque. */
  datatype Aead = Aead(seal: (Nonce, seq<byte>) -> seq<byte>, open: (Nonce, seq<byte>) -> Option<seq<byte>>) {
    /** All that is assumed of it: opening undoes sealing, and sealing adds a 16-byte tag. */
    ghost predicate Sound() {
      forall nonce: Nonce, p: seq<byte> ::
        && |seal(nonce, p)| == |p| + TAG_SIZE
        && open(nonce, seal(nonce, p)) == Some(p)
    }
  }

  // ---------------------------------------------------------------- the format

  function Frame(g: Aead, nonce: Nonce, chunk: seq<byte>): seq<byte> {
    var sealed := nonce + g.seal(nonce, chunk);
    PutUint(|sealed|, 4) + sealed
  }

  /** The file for a plaintext; the i-th frame is sealed under nonces(first + i). */
  function Encode(g: Aead, nonces: nat -> Nonce, first: nat, plain: seq<byte>): seq<byte>
    decreases |plain|
  {
    if plain == [] then []
    else
      var n := Min(CHUNK, |plain|);
      Frame(g, nonces(first), plain[..n]) + Encode(g, nonces, first + 1, plain[n..])
  }

  datatype ReadError = Eof | UnexpectedEof | ChunkTooLarge | CiphertextTooShort | DecryptFailed

  /** What the reader finds at the head of s, and how many bytes of s it takes to find it. */
  datatype Next = Chunk(plain: seq<byte>, used: nat) | Stop(err: ReadError, used: nat)

  function NextChunk(g: Aead, s: seq<byte>): (r: Next)
    ensures r.used <= |s|
    ensures r.Chunk? ==> r.used >= 4
    ensures r == Stop(Eof, r.used) ==> r.used == |s|
  {
    if |s| < 4 then Stop(if s == [] then Eof else UnexpectedEof, |s|)
    else
      var n := Uint(s[..4]);
      if n > MAX_SEALED then Stop(ChunkTooLarge, 4)
      else if |s| < 4 + n then Stop(if |s| == 4 then Eof else UnexpectedEof, |s|)
      else if n < NONCE_SIZE then Stop(CiphertextTooShort, 4 + n)
      else
        match g.open(s[4..4 + NONCE_SIZE], s[4 + NONCE_SIZE..4 + n])
        case Some(p) => Chunk(p, 4 + n)
        case None => Stop(DecryptFailed, 4 + n)
  }

  lemma AppendAssociates(a: seq<byte>, b: seq<byte>, c: seq<byte>)
    ensures a + (b + c) == (a + b) + c
  {
  }

  /** A complete read: the bytes delivered before the first error, and that error (Eof for a clean end). */
  datatype Reading = Reading(plain: seq<byte>, end: ReadError)

  function Decode(g: Aead, s: seq<byte>): Reading
    decreases |s|
  {
    match NextChunk(g, s)
    case Stop(err, _) => Reading([], err)
    case Chunk(p, used) =>
      var rest := Decode(g, s[used..]);
      Reading(p + rest.plain, rest.end)
  }

  // ---------------------------------------------------------------- frame arithmetic

  /** A closed stream of n bytes takes n bytes and 32 for each started chunk. */
  lemma {:induction false} EncodedLength(g: Aead, nonces: nat -> Nonce, first: nat, plain: seq<byte>)
    requires g.Sound()
    ensures |Encode(g, nonces, first, plain)| == |plain| + 32 * ((|plain| + 65535) / 65536)
    decreases |plain|
  {
    if plain != [] {
      EncodedLength(g, nonces, first + 1, plain[Min(CHUNK, |plain|)..]);
    }
  }

  /** The chunks of a plaintext, in order. */
  function Chunks(plain: seq<byte>): seq<seq<byte>> {
    if plain == [] then [] else [plain[..Min(CHUNK, |plain|)]] + Chunks(plain[Min(CHUNK, |plain|)..])
  }

  /** Frames number `first`, `first` + 1, ... laid end to end. */
  function Frames(g: Aead, nonces: nat -> Nonce, first: nat, chunks: seq<seq<byte>>): seq<byte>
    decreases |chunks|
  {
    if chunks == [] then [] else Frame(g, nonces(first), chunks[0]) + Frames(g, nonces, first + 1, chunks[1..])
  }

  /** The file is the frames of a partition of the plaintext in which no chunk is empty and every
      chunk but the last is full (so that FrameHead applies to each). */
  lemma {:induction false} FrameShape(g: Aead, nonces: nat -> Nonce, first: nat, plain: seq<byte>)
    requires g.Sound()
    ensures Flatten(Chunks(plain)) == plain
    ensures Encode(g, nonces, first, plain) == Frames(g, nonces, first, Chunks(plain))
    ensures forall i :: 0 <= i < |Chunks(plain)| ==> 0 < |Chunks(plain)[i]| <= 65536
    ensures forall i :: 0 <= i < |Chunks(plain)| - 1 ==> |Chunks(plain)[i]| == 65536
    decreases |plain|
  {
    if plain != [] {
      var n := Min(CHUNK, |plain|);
      var head, tail := plain[..n], plain[n..];
      FrameShape(g, nonces, first + 1, tail);
      FrameHead(g, nonces(first), head, []);
      assert head + tail == plain;
    }
  }

  // ---------------------------------------------------------------- round trip and truncation

  /** A frame's length field is exact and passes the reader's size check, and the reader takes exactly
      that frame off the head of any stream. */
  lemma FrameHead(g: Aead, nonce: Nonce, chunk: seq<byte>, rest: seq<byte>)
    requires g.Sound() && |chunk| <= CHUNK
    ensures |Frame(g, nonce, chunk)| == |chunk| + OVERHEAD
    ensures Uint(Frame(g, nonce, chunk)[..4]) == |chunk| + NONCE_SIZE + TAG_SIZE <= MAX_SEALED
    ensures NextChunk(g, Frame(g, nonce, chunk) + rest) == Chunk(chunk, |Frame(g, nonce, chunk)|)
  {
    var sealed := nonce + g.seal(nonce, chunk);
    var n := |sealed|;
    assert n < Pow256(4) by {
      assert Pow256(4) == 256 * Pow256(3) == 65536 * Pow256(2);
    }
    UintRoundTrip(n, 4);
    var frame := Frame(g, nonce, chunk);
    var s := frame + rest;
    assert frame[..4] == s[..4] == PutUint(n, 4);
    assert s[4..4 + n] == sealed;
    assert s[4..4 + NONCE_SIZE] == sealed[..NONCE_SIZE] == nonce;
    assert s[4 + NONCE_SIZE..4 + n] == sealed[NONCE_SIZE..] == g.seal(nonce, chunk);
  }

  /** A frame is the length of what follows, the nonce, and the sealed chunk, in this order. */
  lemma FrameLayout(g: Aead, nonce: Nonce, chunk: seq<byte>)
    requires g.Sound() && |chunk| <= CHUNK
    ensures var f := Frame(g, nonce, chunk);
      && |f| == 32 + |chunk| && (forall i :: 0 <= i < 4 ==> f[i] == (|chunk| + 28) / Pow256(3 - i) % 256)
      && f[4..16] == nonce && f[16..] == g.seal(nonce, chunk)
  {
    var n := |chunk| + 28;
    forall i | 0 <= i < 4
      ensures PutUint(n, 4)[i] == n / Pow256(3 - i) % 256
    {
      BigEndian(n, 4, i);
    }
  }

  /** Whatever was encoded is decoded, and the end is clean. */
  lemma {:induction false} RoundTrip(g: Aead, nonces: nat -> Nonce, first: nat, plain: seq<byte>)
    requires g.Sound()
    ensures Decode(g, Encode(g, nonces, first, plain)) == Reading(plain, Eof)
    decreases |plain|
  {
    if plain != [] {
      var n := Min(CHUNK, |plain|);
      var rest := Encode(g, nonces, first + 1, plain[n..]);
      hide Decode, Frame;
      DecodeFrame(g, nonces(first), plain[..n], rest);
      RoundTrip(g, nonces, first + 1, plain[n..]);
      assert plain[..n] + plain[n..] == plain;
    }
  }

  /** What a reader of the first `cut` bytes of the file for a plaintext of n bytes gets: how many
      plaintext bytes, and how the read ends. */
  function TruncatedRead(n: nat, total: nat, cut: nat): (nat, ReadError) {
    if cut == total then (n, Eof)
    else
      (cut / (CHUNK + OVERHEAD) * CHUNK,
       if cut % (CHUNK + OVERHEAD) == 0 || cut % (CHUNK + OVERHEAD) == 4 then Eof else UnexpectedEof)
  }

  /** A frame cut short: nothing of it is delivered, and the end is clean exactly when the cut is before
      the frame or right after its length field. */
  lemma CutInFrame(g: Aead, nonce: Nonce, chunk: seq<byte>, rest: seq<byte>, cut: nat)
    requires g.Sound() && |chunk| <= CHUNK && cut < |Frame(g, nonce, chunk)|
    ensures Decode(g, (Frame(g, nonce, chunk) + rest)[..cut])
         == Reading([], if cut == 0 || cut == 4 then Eof else UnexpectedEof)
  {
    FrameHead(g, nonce, chunk, rest);
    if cut >= 4 {
      assert (Frame(g, nonce, chunk) + rest)[..cut][..4] == Frame(g, nonce, chunk)[..4];
    }
  }

  lemma DecodeFrame(g: Aead, nonce: Nonce, chunk: seq<byte>, rest: seq<byte>)
    requires g.Sound() && |chunk| <= CHUNK
    ensures Decode(g, Frame(g, nonce, chunk) + rest) == Reading(chunk + Decode(g, rest).plain, Decode(g, rest).end)
  {
    FrameHead(g, nonce, chunk, rest);
    assert (Frame(g, nonce, chunk) + rest)[|Frame(g, nonce, chunk)|..] == rest;
  }

  lemma SplitPrefix(s: seq<byte>, n: nat, m: nat)
    requires n + m <= |s|
    ensures s[..n] + s[n..][..m] == s[..n + m]
  {
  }

  lemma CutAfterFrame(g: Aead, nonce: Nonce, head: seq<byte>, rest: seq<byte>, cut: nat, got: seq<byte>, end: ReadError)
    requires g.Sound() && |head| <= CHUNK
    requires |Frame(g, nonce, head)| <= cut <= |Frame(g, nonce, head) + rest|
    requires Decode(g, rest[..cut - |Frame(g, nonce, head)|]) == Reading(got, end)
    ensures Decode(g, (Frame(g, nonce, head) + rest)[..cut]) == Reading(head + got, end)
  {
    var frame := Frame(g, nonce, head);
    assert (frame + rest)[..cut] == frame + rest[..cut - |frame|];
    DecodeFrame(g, nonce, head, rest[..cut - |frame|]);
  }

  lemma TruncatedReadStart(n: nat, total: nat, cut: nat)
    requires cut < CHUNK + OVERHEAD && cut < total
    ensures TruncatedRead(n, total, cut) == (0, if cut == 0 || cut == 4 then Eof else UnexpectedEof)
  {
  }

  lemma TruncatedReadShift(n: nat, total: nat, cut: nat)
    requires CHUNK + OVERHEAD <= cut <= total && CHUNK <= n
    ensures var rest := TruncatedRead(n - CHUNK, total - (CHUNK + OVERHEAD), cut - (CHUNK + OVERHEAD));
      TruncatedRead(n, total, cut) == (CHUNK + rest.0, rest.1)
  {
    var d := CHUNK + OVERHEAD;
    RemainderUnique(cut, d, (cut - d) / d + 1, (cut - d) % d);
  }

  /** For every cut of a file: the bytes delivered are exactly those of the whole frames before the cut,
      and the read ends cleanly exactly at a frame boundary or right after a length field. */
  lemma {:induction false} Truncation(g: Aead, nonces: nat -> Nonce, first: nat, plain: seq<byte>, cut: nat)
    requires g.Sound() && cut <= |Encode(g, nonces, first, plain)|
    ensures var (n, end) := TruncatedRead(|plain|, |Encode(g, nonces, first, plain)|, cut);
      n <= |plain| && Decode(g, Encode(g, nonces, first, plain)[..cut]) == Reading(plain[..n], end)
    decreases |plain|
  {
    var file := Encode(g, nonces, first, plain);
    if cut == |file| {
      RoundTrip(g, nonces, first, plain);
      assert file[..cut] == file && plain[..|plain|] == plain;
    } else {
      TruncationInside(g, nonces, first, plain, cut);
    }
  }

  lemma {:induction false} TruncationInside(g: Aead, nonces: nat -> Nonce, first: nat, plain: seq<byte>, cut: nat)
    requires g.Sound() && plain != [] && cut < |Encode(g, nonces, first, plain)|
    ensures var (n, end) := TruncatedRead(|plain|, |Encode(g, nonces, first, plain)|, cut);
      n <= |plain| && Decode(g, Encode(g, nonces, first, plain)[..cut]) == Reading(plain[..n], end)
    decreases |plain|, 0
  {
    hide Decode, TruncatedRead, Frame;
    var size := Min(CHUNK, |plain|);
    var head, tail := plain[..size], plain[size..];
    var frame, rest := Frame(g, nonces(first), head), Encode(g, nonces, first + 1, tail);
    FrameHead(g, nonces(first), head, []);
    if cut < |frame| {
      CutInFrame(g, nonces(first), head, rest, cut);
      assert plain[..0] == [];
      TruncatedReadStart(|plain|, |frame + rest|, cut);
    } else {
      assert tail == [] ==> rest == [];
      Truncation(g, nonces, first + 1, tail, cut - |frame|);
      TruncatedReadShift(|plain|, |frame + rest|, cut);
      var (m, end) := TruncatedRead(|tail|, |rest|, cut - |frame|);
      CutAfterFrame(g, nonces(first), head, rest, cut, tail[..m], end);
      SplitPrefix(plain, size, m);
    }
  }

  // ---------------------------------------------------------------- damaged files

  /** Whole frames are delivered, whatever follows them. */
  lemma {:induction false} DecodeFrames(g: Aead, nonces: nat -> Nonce, first: nat,
                                        chunks: seq<seq<byte>>, s: seq<byte>)
    requires g.Sound() && forall i :: 0 <= i < |chunks| ==> |chunks[i]| <= CHUNK
    ensures Decode(g, Frames(g, nonces, first, chunks) + s)
         == Reading(Flatten(chunks) + Decode(g, s).plain, Decode(g, s).end)
    decreases |chunks|
  {
    hide Decode, Frame;
    if chunks == [] {
      assert Frames(g, nonces, first, chunks) + s == s && Flatten(chunks) + Decode(g, s).plain == Decode(g, s).plain;
    } else {
      var frame, rest := Frame(g, nonces(first), chunks[0]), Frames(g, nonces, first + 1, chunks[1..]);
      AppendAssociates(frame, rest, s);
      DecodeFrame(g, nonces(first), chunks[0], rest + s);
      DecodeFrames(g, nonces, first + 1, chunks[1..], s);
      AppendAssociates(chunks[0], Flatten(chunks[1..]), Decode(g, s).plain);
    }
  }

  /** The file breaks off after whole frames with this error, and nothing is delivered but their chunks. */
  ghost predicate FailsAfter(g: Aead, nonces: nat -> Nonce, first: nat,
                             chunks: seq<seq<byte>>, s: seq<byte>, err: ReadError)
  {
    Decode(g, Frames(g, nonces, first, chunks) + s) == Reading(Flatten(chunks), err)
  }

  lemma FailsAtOnce(g: Aead, nonces: nat -> Nonce, first: nat, chunks: seq<seq<byte>>, s: seq<byte>, err: ReadError)
    requires g.Sound() && forall i :: 0 <= i < |chunks| ==> |chunks[i]| <= CHUNK
    requires Decode(g, s) == Reading([], err)
    ensures FailsAfter(g, nonces, first, chunks, s, err)
  {
    DecodeFrames(g, nonces, first, chunks, s);
    assert Flatten(chunks) + [] == Flatten(chunks);
  }

  /** A chunk that does not open ends the read with an error, and neither it nor anything after it is delivered. */
  lemma DoesNotOpen(g: Aead, nonces: nat -> Nonce, first: nat, chunks: seq<seq<byte>>,
                    len: seq<byte>, nonce: Nonce, sealed: seq<byte>, rest: seq<byte>)
    requires g.Sound() && forall i :: 0 <= i < |chunks| ==> |chunks[i]| <= CHUNK
    requires |len| == 4 && Uint(len) == 12 + |sealed| <= 66588 && g.open(nonce, sealed) == None
    ensures FailsAfter(g, nonces, first, chunks, len + nonce + sealed + rest, DecryptFailed)
  {
    var s := len + nonce + sealed + rest;
    assert s[..4] == len && s[4..16] == nonce && s[16..4 + Uint(len)] == sealed;
    FailsAtOnce(g, nonces, first, chunks, s, DecryptFailed);
  }

  /** So does a length beyond the largest frame ... */
  lemma LengthTooLarge(g: Aead, nonces: nat -> Nonce, first: nat, chunks: seq<seq<byte>>,
                       len: seq<byte>, rest: seq<byte>)
    requires g.Sound() && forall i :: 0 <= i < |chunks| ==> |chunks[i]| <= CHUNK
    requires |len| == 4 && Uint(len) > 66588
    ensures FailsAfter(g, nonces, first, chunks, len + rest, ChunkTooLarge)
  {
    assert (len + rest)[..4] == len;
    FailsAtOnce(g, nonces, first, chunks, len + rest, ChunkTooLarge);
  }

  /** ... and one that leaves no room for a nonce. */
  lemma LengthTooShort(g: Aead, nonces: nat -> Nonce, first: nat, chunks: seq<seq<byte>>,
                       len: seq<byte>, body: seq<byte>, rest: seq<byte>)
    requires g.Sound() && forall i :: 0 <= i < |chunks| ==> |chunks[i]| <= CHUNK
    requires |len| == 4 && Uint(len) == |body| < 12
    ensures FailsAfter(g, nonces, first, chunks, len + body + rest, CiphertextTooShort)
  {
    assert (len + body + rest)[..4] == len;
    FailsAtOnce(g, nonces, first, chunks, len + body + rest, CiphertextTooShort);
  }

  /** A frame as it stands in a file, and what it opens to. */
  datatype Opened = Opened(len: seq<byte>, nonce: Nonce, sealed: seq<byte>, plain: seq<byte>) {
    predicate Opens(g: Aead) {
      |len| == 4 && Uint(len) == 12 + |sealed| <= 66588 && g.open(nonce, sealed) == Some(plain)
    }

    function Bytes(): seq<byte> {
      len + nonce + sealed
    }
  }

  function Raw(frames: seq<Opened>): seq<byte> {
    if frames == [] then [] else frames[0].Bytes() + Raw(frames[1..])
  }

  function Plain(frames: seq<Opened>): seq<byte> {
    if frames == [] then [] else frames[0].plain + Plain(frames[1..])
  }

  /** What may follow the last frame of a file that ends cleanly: nothing, or a length that announces a frame. */
  predicate CleanTail(s: seq<byte>) {
    s == [] || (|s| == 4 && 0 < Uint(s) <= 66588)
  }

  lemma OpenedHead(g: Aead, o: Opened, rest: seq<byte>)
    requires o.Opens(g)
    ensures Decode(g, o.Bytes() + rest) == Reading(o.plain + Decode(g, rest).plain, Decode(g, rest).end)
  {
    var s, n := o.Bytes() + rest, Uint(o.len);
    assert s[..4] == o.len && s[4..16] == o.nonce && s[16..4 + n] == o.sealed && s[4 + n..] == rest;
  }

  /** The bytes of any sequence of frames that open, and a clean tail, read as what the frames open to ... */
  lemma {:induction false} OpenedReads(g: Aead, frames: seq<Opened>, tail: seq<byte>)
    requires CleanTail(tail) && forall i :: 0 <= i < |frames| ==> frames[i].Opens(g)
    ensures Decode(g, Raw(frames) + tail) == Reading(Plain(frames), Eof)
  {
    if frames == [] {
      assert Raw(frames) + tail == tail && tail[..|tail|] == tail;
    } else {
      hide Decode;
      AppendAssociates(frames[0].Bytes(), Raw(frames[1..]), tail);
      OpenedHead(g, frames[0], Raw(frames[1..]) + tail);
      OpenedReads(g, frames[1..], tail);
    }
  }

  /** ... and nothing else ends cleanly: then every byte delivered came out of a chunk that opened. */
  lemma {:induction false} CleanEndOpened(g: Aead, s: seq<byte>) returns (frames: seq<Opened>, tail: seq<byte>)
    requires Decode(g, s).end == Eof
    ensures CleanTail(tail) && forall i :: 0 <= i < |frames| ==> frames[i].Opens(g)
    ensures s == Raw(frames) + tail && Decode(g, s).plain == Plain(frames)
    decreases |s|
  {
    if |s| == 0 || |s| == 4 {
      frames, tail := [], s;
      assert s[..|s|] == s;
    } else {
      var n := Uint(s[..4]);
      var rest := s[4 + n..];
      var o := Opened(s[..4], s[4..16], s[16..4 + n], NextChunk(g, s).plain);
      assert s == o.Bytes() + rest;
      OpenedHead(g, o, rest);
      hide Decode, NextChunk;
      var more;
      more, tail := CleanEndOpened(g, rest);
      frames := [o] + more;
      AppendAssociates(o.Bytes(), Raw(more), tail);
      assert frames[1..] == more;
    }
  }

  // ---------------------------------------------------------------- the writer

  /** The part of a plaintext made of whole chunks. */
  function WholeChunks(plain: seq<byte>): seq<byte> {
    plain[..|plain| / CHUNK * CHUNK]
  }

  /** What a destination with room for `room` bytes holds after `s` was written to it. */
  function Clip(s: seq<byte>, room: nat): seq<byte> {
    if |s| <= room then s else s[..room]
  }

  lemma EncodeStep(g: Aead, nonces: nat -> Nonce, first: nat, plain: seq<byte>)
    requires |plain| >= CHUNK
    ensures Encode(g, nonces, first, plain)
         == Frame(g, nonces(first), plain[..CHUNK]) + Encode(g, nonces, first + 1, plain[CHUNK..])
  {
  }

  lemma EncodeNothing(g: Aead, nonces: nat -> Nonce, first: nat)
    ensures Encode(g, nonces, first, []) == []
  {
  }

  lemma {:induction false} EncodeAppend(g: Aead, nonces: nat -> Nonce, first: nat, a: seq<byte>, b: seq<byte>)
    requires |a| % CHUNK == 0
    ensures Encode(g, nonces, first, a + b)
         == Encode(g, nonces, first, a) + Encode(g, nonces, first + |a| / CHUNK, b)
    decreases |a|
  {
    hide Encode, Frame;
    if a == [] {
      EncodeNothing(g, nonces, first);
      assert a + b == b && [] + Encode(g, nonces, first, b) == Encode(g, nonces, first, b);
    } else {
      EncodeStep(g, nonces, first, a);
      EncodeStep(g, nonces, first, a + b);
      assert (a + b)[..CHUNK] == a[..CHUNK];
      assert (a + b)[CHUNK..] == a[CHUNK..] + b;
      assert |a[CHUNK..]| == |a| - CHUNK && |a[CHUNK..]| / CHUNK == |a| / CHUNK - 1;
      EncodeAppend(g, nonces, first + 1, a[CHUNK..], b);
      AppendAssociates(Frame(g, nonces(first), a[..CHUNK]), Encode(g, nonces, first + 1, a[CHUNK..]),
                       Encode(g, nonces, first + |a| / CHUNK, b));
    }
  }

  /** Sealing one more chunk appends one frame. */
  lemma EncodeNext(g: Aead, nonces: nat -> Nonce, a: seq<byte>, chunk: seq<byte>)
    requires |a| % CHUNK == 0 && 0 < |chunk| <= CHUNK
    ensures Encode(g, nonces, 0, a + chunk) == Encode(g, nonces, 0, a) + Frame(g, nonces(|a| / CHUNK), chunk)
  {
    EncodeAppend(g, nonces, 0, a, chunk);
    assert chunk[..Min(CHUNK, |chunk|)] == chunk;
  }

  /** What the whole chunks of a plaintext are written as begins what any longer plaintext is written as. */
  lemma WholeChunksPrefix(g: Aead, nonces: nat -> Nonce, k: nat, plain: seq<byte>)
    requires k * CHUNK <= |plain|
    ensures Encode(g, nonces, 0, plain[..k * CHUNK]) <= Encode(g, nonces, 0, plain)
  {
    EncodeAppend(g, nonces, 0, plain[..k * CHUNK], plain[k * CHUNK..]);
    assert plain[..k * CHUNK] + plain[k * CHUNK..] == plain;
  }

  /** The frames of the whole chunks of a plaintext are written one after the other. */
  lemma NextWholeChunk(g: Aead, nonces: nat -> Nonce, k: nat, plain: seq<byte>)
    requires (k + 1) * CHUNK <= |plain|
    ensures Encode(g, nonces, 0, plain[..(k + 1) * CHUNK])
         == Encode(g, nonces, 0, plain[..k * CHUNK]) + Frame(g, nonces(k), plain[k * CHUNK..][..CHUNK])
    ensures Encode(g, nonces, 0, plain[..(k + 1) * CHUNK]) <= Encode(g, nonces, 0, WholeChunks(plain))
  {
    EncodeNext(g, nonces, plain[..k * CHUNK], plain[k * CHUNK..][..CHUNK]);
    assert plain[..k * CHUNK] + plain[k * CHUNK..][..CHUNK] == plain[..(k + 1) * CHUNK];
    WholeChunksPrefix(g, nonces, k + 1, WholeChunks(plain));
    assert WholeChunks(plain)[..(k + 1) * CHUNK] == plain[..(k + 1) * CHUNK];
  }

  /** Closing writes what is left as one last frame, or nothing. */
  lemma LastChunk(g: Aead, nonces: nat -> Nonce, plain: seq<byte>)
    ensures var rest := plain[|WholeChunks(plain)|..];
      Encode(g, nonces, 0, plain) == Encode(g, nonces, 0, WholeChunks(plain))
        + if rest == [] then [] else Frame(g, nonces(|plain| / CHUNK), rest)
  {
    var rest := plain[|WholeChunks(plain)|..];
    assert WholeChunks(plain) + rest == plain;
    if rest == [] {
      assert WholeChunks(plain) == plain;
    } else {
      EncodeNext(g, nonces, WholeChunks(plain), rest);
    }
  }

  /** Writing more never changes what has been sent. */
  lemma WholeChunksGrow(g: Aead, nonces: nat -> Nonce, plain: seq<byte>, more: seq<byte>)
    ensures Encode(g, nonces, 0, WholeChunks(plain)) <= Encode(g, nonces, 0, WholeChunks(plain + more))
  {
    WholeChunksPrefix(g, nonces, |plain| / CHUNK, WholeChunks(plain + more));
    assert WholeChunks(plain + more)[..|plain| / CHUNK * CHUNK] == WholeChunks(plain);
  }

  lemma ClipPrefix(a: seq<byte>, b: seq<byte>, room: nat)
    requires a <= b && |a| >= room
    ensures Clip(a, room) == Clip(b, room)
  {
  }

  class EncryptingWriter {
    const gcm: Aead
    /** The nonces rand.Read will hand out. */
    const nonces: nat -> Nonce
    /** How many bytes the destination can take. */
    const room: nat
    var dst: seq<byte>
    var buf: seq<byte>
    var closed: bool
    var drawn: nat
    /** Everything passed to Write so far. */
    ghost var plain: seq<byte>

    /** The destination refused some byte of the frames due so far. */
    ghost predicate Full()
      reads this
    {
      |Encode(gcm, nonces, 0, WholeChunks(plain))| > room
    }

    ghost predicate Valid()
      reads this
    {
      if closed then
        dst == Clip(Encode(gcm, nonces, 0, plain), room)
      else
        && dst == Clip(Encode(gcm, nonces, 0, WholeChunks(plain)), room)
        && (if Full() then |buf| >= CHUNK
            else buf == plain[|WholeChunks(plain)|..] && drawn == |plain| / CHUNK)
    }

    constructor (gcm: Aead, nonces: nat -> Nonce, room: nat)
      ensures Valid() && !closed && !Full() && plain == [] && dst == []
      ensures this.gcm == gcm && this.nonces == nonces && this.room == room
    {
      this.gcm, this.nonces, this.room := gcm, nonces, room;
      dst, buf, closed, drawn, plain := [], [], false, 0, [];
      new;
      assert WholeChunks(plain) == [];
      assert Encode(gcm, nonces, 0, WholeChunks(plain)) == [];
    }

    method WriteChunk(chunk: seq<byte>) returns (ok: bool)
      requires |dst| <= room
      modifies this`dst, this`drawn
      ensures drawn == old(drawn) + 1
      ensures dst == Clip(old(dst) + Frame(gcm, nonces(old(drawn)), chunk), room)
      ensures ok <==> |old(dst) + Frame(gcm, nonces(old(drawn)), chunk)| <= room
    {
      var nonce := nonces(drawn);
      drawn := drawn + 1;
      var ciphertext := nonce + gcm.seal(nonce, chunk);
      var lenBuf := PutUint(|ciphertext|, 4);
      assert lenBuf + ciphertext == Frame(gcm, nonce, chunk);
      assert dst + lenBuf + ciphertext == dst + (lenBuf + ciphertext);
      ok := WriteDst(lenBuf);
      if ok {
        ok := WriteDst(ciphertext);
      }
    }

    /** The destination: a short write fails. */
    method WriteDst(p: seq<byte>) returns (ok: bool)
      requires |dst| <= room
      modifies this`dst
      ensures dst == Clip(old(dst) + p, room)
      ensures ok <==> |old(dst) + p| <= room
    {
      ok := |dst| + |p| <= room;
      dst := dst + p[..Min(|p|, room - |dst|)];
    }

    /** Everything but `buf` has been written, or the destination was full already. */
    ghost predicate Draining(wasFull: bool)
      reads this
    {
      && !closed
      && (wasFull ==> Full() && |buf| >= CHUNK && dst == Clip(Encode(gcm, nonces, 0, WholeChunks(plain)), room))
      && (!wasFull ==> drawn * CHUNK <= |plain| && buf == plain[drawn * CHUNK..])
      && (!wasFull ==> dst == Encode(gcm, nonces, 0, plain[..drawn * CHUNK]) && |dst| <= room)
    }

    method WriteWholeChunks(ghost wasFull: bool) returns (ok: bool)
      requires Draining(wasFull)
      modifies this`dst, this`drawn, this`buf
      ensures Valid() && ok == !Full()
    {
      while |buf| >= CHUNK
        invariant Draining(wasFull)
      {
        if !wasFull {
          NextWholeChunk(gcm, nonces, drawn, plain);
        }
        var sent := WriteChunk(buf[..CHUNK]);
        if !sent {
          return false;
        }
        buf := buf[CHUNK..];
      }
      assert drawn == |plain| / CHUNK && plain[..drawn * CHUNK] == WholeChunks(plain);
      return true;
    }

    /** Accepts p, whatever way the plaintext is split into calls: the destination then holds exactly the
        frames of the whole chunks of everything written, as far as it has room for them. */
    method Write(p: seq<byte>) returns (n: nat, ok: bool)
      requires Valid()
      modifies this
      ensures Valid() && closed == old(closed)
      ensures closed ==> !ok && n == 0 && plain == old(plain) && dst == old(dst)
      ensures !closed ==> plain == old(plain) + p && ok == !Full() && n == if ok then |p| else 0
    {
      if closed {
        return 0, false;
      }
      ghost var wasFull := Full();
      WholeChunksGrow(gcm, nonces, plain, p);
      if !wasFull {
        assert (plain + p)[..drawn * CHUNK] == WholeChunks(plain);
        assert buf + p == (plain + p)[drawn * CHUNK..];
      }
      plain := plain + p;
      buf := buf + p;
      ok := WriteWholeChunks(wasFull);
      n := if ok then |p| else 0;
    }

    /** Flushes the last, shorter chunk, if any; no end marker is written. */
    method Close() returns (ok: bool)
      requires Valid()
      modifies this
      ensures Valid() && closed && plain == old(plain)
      ensures old(closed) ==> ok && dst == old(dst)
      ensures !old(closed) ==> ok == (|Encode(gcm, nonces, 0, plain)| <= room)
    {
      if closed {
        return true;
      }
      closed := true;
      LastChunk(gcm, nonces, plain);
      if |buf| > 0 {
        ok := WriteChunk(buf);
      } else {
        ok := true;
      }
    }
  }

  // ---------------------------------------------------------------- the reader

  lemma DecodeNext(g: Aead, s: seq<byte>)
    ensures var next := NextChunk(g, s);
      if next.Stop? then Decode(g, s) == Reading([], next.err)
      else Decode(g, s) == Reading(next.plain + Decode(g, s[next.used..]).plain, Decode(g, s[next.used..]).end)
  {
  }

  lemma NothingNext(g: Aead)
    ensures NextChunk(g, []) == Stop(Eof, 0)
  {
  }

  class DecryptingReader {
    const gcm: Aead
    const src: seq<byte>
    var pos: nat
    var buf: seq<byte>
    var readPos: nat
    var exhausted: bool

    ghost predicate Valid()
      reads this
    {
      pos <= |src| && readPos <= |buf| && (exhausted ==> pos == |src| && readPos == |buf|)
    }

    /** What is still to be delivered, and how it will end. */
    ghost function Pending(): Reading
      requires Valid()
      reads this
    {
      var rest := Decode(gcm, src[pos..]);
      Reading(buf[readPos..] + rest.plain, rest.end)
    }

    constructor (gcm: Aead, src: seq<byte>)
      ensures Valid() && this.gcm == gcm && this.src == src
      ensures Pending() == Decode(gcm, src)
    {
      this.gcm, this.src := gcm, src;
      pos, buf, readPos, exhausted := 0, [], 0, false;
      new;
      assert src[0..] == src;
    }

    /** io.ReadFull on the source: a clean Eof only when nothing at all is left to read. */
    method ReadFull(n: nat) returns (data: seq<byte>, err: Option<ReadError>)
      requires Valid()
      modifies this`pos
      ensures pos == Min(old(pos) + n, |src|)
      ensures err.None? <==> old(pos) + n <= |src|
      ensures err.None? ==> data == src[old(pos)..old(pos) + n]
      ensures err.Some? ==> err.value == if old(pos) == |src| then Eof else UnexpectedEof
    {
      if pos + n <= |src| {
        data, err := src[pos..pos + n], None;
        pos := pos + n;
      } else {
        data, err := [], Some(if pos == |src| then Eof else UnexpectedEof);
        pos := |src|;
      }
    }

    method ReadNextChunk() returns (err: Option<ReadError>)
      requires Valid() && !exhausted && readPos == |buf|
      modifies this`pos, this`buf, this`readPos
      ensures Valid()
      ensures var next := NextChunk(gcm, src[old(pos)..]);
        && next.used <= |src| - old(pos) && (next.Chunk? ==> next.used > 0)
        && (next == Stop(Eof, next.used) ==> pos == |src|)
        && pos == old(pos) + next.used
        && (if next.Chunk? then err == None && buf == next.plain && readPos == 0
            else err == Some(next.err) && buf == old(buf) && readPos == old(readPos))
    {
      ghost var s := src[pos..];
      ghost var start := pos;
      var lenBuf, lenErr := ReadFull(4);
      if lenErr.Some? {
        return lenErr;
      }
      assert lenBuf == s[..4];
      var chunkLen := Uint(lenBuf);
      if chunkLen > MAX_SEALED {
        return Some(ChunkTooLarge);
      }
      var sealed, bodyErr := ReadFull(chunkLen);
      if bodyErr.Some? {
        return bodyErr;
      }
      assert sealed == s[4..4 + chunkLen];
      if |sealed| < NONCE_SIZE {
        return Some(CiphertextTooShort);
      }
      assert sealed[..NONCE_SIZE] == s[4..4 + NONCE_SIZE];
      assert sealed[NONCE_SIZE..] == s[4 + NONCE_SIZE..4 + chunkLen];
      var plaintext := gcm.open(sealed[..NONCE_SIZE], sealed[NONCE_SIZE..]);
      if plaintext.None? {
        return Some(DecryptFailed);
      }
      buf := plaintext.value;
      readPos := 0;
      return None;
    }

    /** copy: as much of the current chunk as fits. */
    method CopyOut(size: nat) returns (out: seq<byte>)
      requires readPos <= |buf|
      modifies this`readPos
      ensures old(readPos) <= readPos <= |buf| && |out| <= size && (|out| == size || readPos == |buf|)
      ensures buf[old(readPos)..] == out + buf[readPos..]
      ensures size > 0 && old(readPos) < |buf| ==> readPos > old(readPos)
    {
      var n := Min(size, |buf| - readPos);
      out := buf[readPos..readPos + n];
      assert buf[readPos..] == out + buf[readPos + n..];
      readPos := readPos + n;
    }

    /** One Read into a buffer of `size` bytes: what it returns is the head of what was pending, as much
        as fits of the current chunk, and it fails exactly when nothing is pending before the failure. */
    method Read(size: nat) returns (out: seq<byte>, err: Option<ReadError>)
      requires Valid()
      modifies this
      ensures Valid() && |out| <= size
      ensures err.None? ==> old(Pending()).plain == out + Pending().plain && old(Pending()).end == Pending().end
      ensures err.Some? ==> out == [] && old(Pending()) == Reading([], err.value)
      ensures err.None? ==> |out| == size || readPos == |buf|
      ensures err.None? && size > 0 ==> pos > old(pos) || (pos == old(pos) && |buf| - readPos < old(|buf| - readPos))
    {
      hide Decode, NextChunk;
      ghost var s := src[pos..];
      DecodeNext(gcm, s);
      assert exhausted ==> s == [];
      NothingNext(gcm);
      if readPos < |buf| {
        out := CopyOut(size);
        err := None;
        AppendAssociates(out, buf[readPos..], Decode(gcm, s).plain);
        return;
      }
      assert buf[readPos..] == [];
      assert Pending() == Decode(gcm, s);
      if exhausted {
        return [], Some(Eof);
      }
      err := ReadNextChunk();
      if err.Some? {
        if err == Some(Eof) {
          exhausted := true;
        }
        return [], err;
      }
      ghost var rest := src[pos..];
      assert s[NextChunk(gcm, s).used..] == rest;
      assert buf[0..] == buf;
      out := CopyOut(size);
      AppendAssociates(out, buf[readPos..], Decode(gcm, rest).plain);
    }

    /** io.Copy out of the reader, with non-empty buffers of any sizes. */
    method ReadAll(sizes: nat -> nat) returns (plain: seq<byte>, end: ReadError)
      requires Valid() && forall i :: sizes(i) > 0
      modifies this
      ensures Reading(plain, end) == old(Pending())
    {
      plain := [];
      assert plain + Pending().plain == Pending().plain;
      var i := 0;
      while true
        invariant Valid()
        invariant old(Pending()) == Reading(plain + Pending().plain, Pending().end)
        decreases |src| - pos, |buf| - readPos
      {
        var out, err := Read(sizes(i));
        if err.Some? {
          return plain, err.value;
        }
        AppendAssociates(plain, out, Pending().plain);
        plain := plain + out;
        i := i + 1;
      }
    }
  }

  // ---------------------------------------------------------------- copying a stream through the writer

  /** The file left behind, and success, when a reader that delivered `data` and then ended cleanly or
      failed was copied through a writer whose destination has room for `room` bytes. */
  function Copied(g: Aead, nonces: nat -> Nonce, room: nat, data: seq<byte>, clean: bool): (seq<byte>, bool) {
    (Clip(Encode(g, nonces, 0, if clean then data else WholeChunks(data)), room),
     clean && |Encode(g, nonces, 0, data)| <= room)
  }

  /** io.Copy into an encrypting writer, then Close: the file does not depend on how the reader's data is
      split into pieces, and neither does success. `used` is how many pieces were read. */
  method CopyEncrypted(g: Aead, nonces: nat -> Nonce, room: nat, pieces: seq<seq<byte>>, clean: bool)
    returns (file: seq<byte>, n: nat, used: nat, ok: bool)
    ensures (file, ok) == Copied(g, nonces, room, Flatten(pieces), clean)
    ensures used <= |pieces| && (ok ==> used == |pieces| && n == |Flatten(pieces)|)
  {
    hide Encode, WholeChunks, Clip, Frame;
    var w := new EncryptingWriter(g, nonces, room);
    ghost var data := Flatten(pieces);
    n := 0;
    for i := 0 to |pieces|
      invariant w.Valid() && !w.closed && w.gcm == g && w.nonces == nonces && w.room == room && fresh(w)
      invariant w.plain + Flatten(pieces[i..]) == data && n == |w.plain| && !w.Full()
    {
      assert pieces[i..][1..] == pieces[i + 1..];
      ghost var before := w.plain;
      var m, sent := w.Write(pieces[i]);
      assert w.plain + Flatten(pieces[i + 1..]) == data;
      if !sent {
        WriteFailed(g, nonces, room, w.plain, data);
        return w.dst, n, i + 1, false;
      }
      n := n + m;
    }
    assert w.plain == data;
    used := |pieces|;
    if !clean {
      return w.dst, n, used, false;
    }
    ok := w.Close();
    file := w.dst;
  }

  /** Once the destination is full, the rest of the stream does not matter. */
  lemma WriteFailed(g: Aead, nonces: nat -> Nonce, room: nat, sofar: seq<byte>, data: seq<byte>)
    requires sofar <= data && |Encode(g, nonces, 0, WholeChunks(sofar))| > room
    ensures forall clean :: Copied(g, nonces, room, data, clean)
                         == (Clip(Encode(g, nonces, 0, WholeChunks(sofar)), room), false)
  {
    var k := |sofar| / CHUNK;
    assert data[..k * CHUNK] == WholeChunks(sofar) == WholeChunks(data)[..k * CHUNK];
    WholeChunksPrefix(g, nonces, k, data);
    WholeChunksPrefix(g, nonces, k, WholeChunks(data));
    ClipPrefix(Encode(g, nonces, 0, WholeChunks(sofar)), Encode(g, nonces, 0, data), room);
    ClipPrefix(Encode(g, nonces, 0, WholeChunks(sofar)), Encode(g, nonces, 0, WholeChunks(data)), room);
  }

  /** What a reader later gets out of such a file: a successful copy reads back whole; a failed one reads
      back as a prefix made of whole chunks, which ends without any error whenever the destination had room. */
  lemma CopiedReadsBack(g: Aead, nonces: nat -> Nonce, room: nat, data: seq<byte>, clean: bool)
    requires g.Sound()
    ensures var (file, ok) := Copied(g, nonces, room, data, clean);
      && Decode(g, file).plain <= data
      && (ok ==> Decode(g, file) == Reading(data, Eof))
      && (!ok && |Encode(g, nonces, 0, data)| <= room ==> Decode(g, file) == Reading(WholeChunks(data), Eof))
  {
    var stored := if clean then data else WholeChunks(data);
    var all := Encode(g, nonces, 0, stored);
    WholeChunksPrefix(g, nonces, |data| / CHUNK, data);
    Truncation(g, nonces, 0, stored, Min(room, |all|));
    RoundTrip(g, nonces, 0, stored);
    if |all| <= room {
      assert Clip(all, room) == all;
    }
  }
}
