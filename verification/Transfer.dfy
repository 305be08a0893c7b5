// internal/fileserver/transfer.go and StoreFileToPeer / handleStoreFileMessage of fileserver.go: a file is
// offered to a peer, read decrypted from the local store, sent as [2-byte key length][key][8-byte size][data],
// and stored at the peer under the peer's own encryption key.
module Transfer {
  import opened Bytes
  import opened Encryption
  import opened ContentStore

  const MAX_KEY_LENGTH: nat := 1024

  // ---------------------------------------------------------------- the wire format

  function Wire(key: Key, data: seq<byte>): seq<byte> {
    PutUint(|key|, 2) + key + PutUint(|data|, 8) + data
  }

  /** int64(n), for a 64-bit n. */
  function ToInt64(n: nat): int {
    if n < 0x8000_0000_0000_0000 then n else n - 0x1_0000_0000_0000_0000
  }

  datatype Header = Header(key: Key, size: int, rest: seq<byte>)

  /** What the receiver makes of the head of a stream; None when it hangs up without an answer. */
  function ParseHeader(s: seq<byte>): Option<Header> {
    if |s| < 2 then None
    else
      var keyLen := Uint(s[..2]);
      if keyLen == 0 || keyLen > MAX_KEY_LENGTH || |s| < 2 + keyLen + 8 then None
      else Some(Header(s[2..2 + keyLen], ToInt64(Uint(s[2 + keyLen..2 + keyLen + 8])), s[2 + keyLen + 8..]))
  }

  function HeaderLength(key: Key): nat {
    2 + |key| + 8
  }

  lemma FieldWidths()
    ensures Pow256(2) == 0x1_0000 && Pow256(8) == 0x1_0000_0000_0000_0000
  {
    assert Pow256(2) == 256 * Pow256(1);
    assert Pow256(4) == 256 * Pow256(3);
    assert Pow256(6) == 256 * Pow256(5);
    assert Pow256(8) == 256 * Pow256(7);
  }

  lemma Fields(a: seq<byte>, b: seq<byte>, c: seq<byte>, d: seq<byte>)
    ensures var s := a + b + c + d;
      && s[..|a|] == a && s[|a|..|a| + |b|] == b
      && s[|a| + |b|..|a| + |b| + |c|] == c && s[|a| + |b| + |c|..] == d
  {
  }

  lemma HeaderOf(key: Key, tail: seq<byte>, size: nat)
    requires size < 0x1_0000_0000_0000_0000 && 1 <= |key| <= MAX_KEY_LENGTH
    ensures ParseHeader(PutUint(|key|, 2) + key + PutUint(size, 8) + tail) == Some(Header(key, ToInt64(size), tail))
  {
    Fields(PutUint(|key|, 2), key, PutUint(size, 8), tail);
    FieldWidths();
    hide Pow256, PutUint, Uint;
    UintRoundTrip(|key|, 2);
    UintRoundTrip(size, 8);
  }

  /** The receiver recovers the key, the size and the data exactly for keys of 1 to 1024 bytes: the sender cuts
      the key length to 16 bits, and the receiver refuses lengths outside that range. */
  lemma HeaderRoundTrip(key: Key, data: seq<byte>)
    requires |data| < 0x8000_0000_0000_0000
    ensures ParseHeader(Wire(key, data)) == Some(Header(key, |data|, data)) <==> 1 <= |key| <= 1024
  {
    if 1 <= |key| <= MAX_KEY_LENGTH {
      HeaderOf(key, data, |data|);
    }
    var h := ParseHeader(Wire(key, data));
    assert h.Some? ==> 1 <= |h.value.key| <= MAX_KEY_LENGTH;
  }

  /** The bytes of the stream, field by field. */
  lemma WireLayout(key: Key, data: seq<byte>, i: nat)
    requires |key| < 0x1_0000
    ensures var w, n := Wire(key, data), |key|;
      && |w| == 2 + n + 8 + |data|
      && w[0] == n / 256 && w[1] == n % 256 && w[2..2 + n] == key
      && (i < 8 ==> w[2 + n + i] == |data| / Pow256(7 - i) % 256)
      && w[2 + n + 8..] == data
  {
    Fields(PutUint(|key|, 2), key, PutUint(|data|, 8), data);
    BigEndian(|key|, 2, 0);
    BigEndian(|key|, 2, 1);
    assert Pow256(1) == 256 * Pow256(0) == 256;
    if i < 8 {
      BigEndian(|data|, 8, i);
      assert Wire(key, data)[2 + |key|..2 + |key| + 8][i] == PutUint(|data|, 8)[i];
    }
  }

  // ---------------------------------------------------------------- receiving

  /** How the stream ends once its last byte has been read. */
  datatype StreamEnd = Closed | Reset

  /** What the size-limited reader delivers of the rest of the stream, and whether it then ends cleanly. */
  function Limited(size: int, rest: seq<byte>, end: StreamEnd): (seq<byte>, bool) {
    if size <= 0 then ([], true)
    else if size <= |rest| then (rest[..size], true)
    else (rest, end == Closed)
  }

  /** The receiver's disk and answer after a stream. */
  function Received(c: Config, d: Disk, s: seq<byte>, end: StreamEnd, nonces: nat -> Nonce, room: nat)
    : (Disk, Option<byte>)
  {
    match ParseHeader(s)
    case None => (d, None)
    case Some(h) =>
      var (data, clean) := Limited(h.size, h.rest, end);
      var (content, whole) := c.Content(nonces, room, data, clean);
      var (after, created) := WriteTo(c, d, h.key, content);
      (after, Some(if created && whole then 1 else 0))
  }

  /** A positive answer means that the header could be read and that a file is stored under its key; without an
      answer nothing has happened. */
  lemma AnswerMeansFile(c: Config, d: Disk, s: seq<byte>, end: StreamEnd, nonces: nat -> Nonce, room: nat)
    ensures var (after, ack) := Received(c, d, s, end, nonces, room);
      && (ack == None <==> ParseHeader(s) == None) && (ack == None ==> after == d)
      && (ack == Some(1) ==>
            var p := c.PathOf(ParseHeader(s).value.key);
            p in after && after[p].File?)
      && (ack.Some? && ack != Some(1) ==> ack == Some(0))
  {
    hide ParseHeader, Limited, Config.Content, MkdirAll;
  }

  /** Running totals of the sizes of the pieces. */
  function Totals(pieces: seq<seq<byte>>): seq<nat> {
    seq(|pieces|, i requires 0 <= i < |pieces| => |Flatten(pieces[..i + 1])|)
  }

  datatype Event =
    | ReceiveStarted(key: Key, size: int)
    | ReceiveProgress(key: Key, received: nat, total: int)
    | ReceiveComplete(key: Key, stored: nat)
    | ReceiveFailed(key: Key)

  /** One progress event for every piece, with the running total. */
  function ProgressEvents(key: Key, total: int, pieces: seq<seq<byte>>): seq<Event> {
    seq(|pieces|, i requires 0 <= i < |pieces| => ReceiveProgress(key, Totals(pieces)[i], total))
  }

  /** What a transfer of which these pieces were read publishes. */
  function EventsOf(h: Header, pieces: seq<seq<byte>>, ok: bool): seq<Event> {
    [ReceiveStarted(h.key, h.size)] + ProgressEvents(h.key, h.size, pieces)
    + [if ok then ReceiveComplete(h.key, |Flatten(pieces)|) else ReceiveFailed(h.key)]
  }

  /** First that the transfer started, then one event for each piece, last how it ended. */
  lemma EventsAre(h: Header, pieces: seq<seq<byte>>, ok: bool)
    ensures var e, n := EventsOf(h, pieces, ok), |pieces|;
      && |e| == n + 2 && e[0] == ReceiveStarted(h.key, h.size)
      && (forall i :: 1 <= i <= n ==> e[i] == ReceiveProgress(h.key, |Flatten(pieces[..i])|, h.size))
      && e[n + 1] == if ok then ReceiveComplete(h.key, |Flatten(pieces)|) else ReceiveFailed(h.key)
  {
    var e := EventsOf(h, pieces, ok);
    forall i | 1 <= i <= |pieces|
      ensures e[i] == ReceiveProgress(h.key, |Flatten(pieces[..i])|, h.size)
    {
      assert e[i] == ProgressEvents(h.key, h.size, pieces)[i - 1];
      assert Totals(pieces)[i - 1] == |Flatten(pieces[..i - 1 + 1])|;
    }
  }

  datatype Status = Success | EmptyKey | SessionRejected | AlreadyExists

  /** handleStoreFileMessage's answer to an offer. */
  function Verdict(key: Key, waiting: bool, session: string, active: string, has: bool): Status {
    if key == [] then EmptyKey
    else if !waiting && active != "" && session != active then SessionRejected
    else if has then AlreadyExists
    else Success
  }

  /** What goes over the network between the two nodes: whether the negotiation got through, how many bytes of
      the stream arrived and how it then ended, and whether the sender could write it all and was answered. */
  datatype Link = Link(negotiated: bool, arrived: nat, end: StreamEnd, sent: bool, answered: bool) {
    function Arriving(key: Key, data: seq<byte>): seq<byte> {
      Wire(key, data)[..Min(arrived, |Wire(key, data)|)]
    }
  }

  /** What arrives is the head of the stream, as long as said. */
  lemma ArrivingIs(link: Link, key: Key, data: seq<byte>)
    ensures link.Arriving(key, data) <= Wire(key, data)
    ensures |link.Arriving(key, data)| == if link.arrived < |Wire(key, data)| then link.arrived else |Wire(key, data)|
  {
  }

  const Perfect: Link := Link(true, 0x1_0000_0000_0000_0000, Closed, true, true)

  datatype SendResult = Stored | NegotiationFailed | Refused(status: Status) | ReadFailed | TransferFailed

  type Waiter = nat

  function WaitersOf(waiters: map<Key, seq<Waiter>>, key: Key): seq<Waiter> {
    if key in waiters then waiters[key] else []
  }

  predicate Awaits(waiters: map<Key, seq<Waiter>>, key: Key, ch: Waiter) {
    ch in WaitersOf(waiters, key)
  }

  class ProgressReader {
    const key: Key
    const total: int
    var written: nat
    var published: seq<Event>

    constructor (key: Key, total: int)
      ensures this.key == key && this.total == total && written == 0 && published == []
    {
      this.key, this.total := key, total;
      written, published := 0, [];
    }

    /** The bookkeeping of one Read that returned n bytes. */
    method Count(n: nat)
      modifies this
      ensures written == old(written) + n
      ensures published == old(published) + if n > 0 then [ReceiveProgress(key, written, total)] else []
    {
      if n > 0 {
        written := written + n;
        published := published + [ReceiveProgress(key, written, total)];
      }
    }
  }

  class FileServer {
    const store: Store
    var sessionName: string
    /** Channels waiting for a transfer of a key, and what was sent to channels so far. */
    var waiters: map<Key, seq<Waiter>>
    var told: map<Waiter, bool>
    var made: nat
    var events: seq<Event>

    constructor (store: Store)
      ensures this.store == store && sessionName == "" && waiters == map[] && events == [] && Valid()
    {
      this.store := store;
      sessionName, waiters, told, made, events := "", map[], map[], 0, [];
    }

    /** Whoever still waits has not been told anything. */
    ghost predicate Valid()
      reads this`waiters, this`told, this`made
    {
      && (forall ch: Waiter :: ch in told ==> ch < made)
      && (forall k, ch: Waiter :: Awaits(waiters, k, ch) ==> ch < made && ch !in told)
      && (forall j, k, ch: Waiter :: Awaits(waiters, j, ch) && Awaits(waiters, k, ch) ==> j == k)
    }

    method RegisterTransferWaiter(key: Key) returns (ch: Waiter)
      requires Valid()
      modifies this`waiters, this`made
      ensures Valid() && key in waiters && ch !in told
      ensures forall k, w: Waiter :: Awaits(waiters, k, w) <==> Awaits(old(waiters), k, w) || (k == key && w == ch)
      ensures !Awaits(old(waiters), key, ch)
    {
      ch := made;
      made := made + 1;
      waiters := waiters[key := WaitersOf(waiters, key) + [ch]];
      assert forall k, w: Waiter :: Awaits(waiters, k, w) <==> Awaits(old(waiters), k, w) || (k == key && w == ch);
    }

    /** Tells everyone who waits for the key how its transfer ended, each once, and nobody else. */
    method NotifyTransferComplete(key: Key, ok: bool)
      requires Valid()
      modifies this`waiters, this`told
      ensures Valid() && waiters == old(waiters) - {key}
      ensures forall ch: Waiter :: ch in told <==> ch in old(told) || Awaits(old(waiters), key, ch)
      ensures forall ch: Waiter :: Awaits(old(waiters), key, ch) ==> told[ch] == ok
      ensures forall ch :: ch in old(told) ==> told[ch] == old(told)[ch]
    {
      if key !in waiters {
        assert waiters - {key} == waiters;
        return;
      }
      var channels := waiters[key];
      for i := 0 to |channels|
        invariant waiters == old(waiters)
        invariant forall ch :: ch in told <==> ch in old(told) || ch in channels[..i]
        invariant forall ch :: ch in channels[..i] ==> told[ch] == ok
        invariant forall ch :: ch in old(told) ==> told[ch] == old(told)[ch]
      {
        assert Awaits(waiters, key, channels[i]);
        told := told[channels[i] := ok];
        assert channels[..i + 1] == channels[..i] + [channels[i]];
      }
      waiters := waiters - {key};
      assert channels[..|channels|] == channels;
      assert forall ch: Waiter :: ch in channels <==> Awaits(old(waiters), key, ch);
      assert forall k, ch: Waiter :: Awaits(waiters, k, ch) <==> Awaits(old(waiters), k, ch) && k != key;
    }

    /** Whether an offered file will be taken. */
    function Answer(key: Key, session: string): Status
      reads this, store
    {
      Verdict(key, key in waiters, session, sessionName, HasIn(store.config, store.disk, key))
    }

    method HandleStoreFile(key: Key, session: string) returns (status: Status)
      ensures status == Answer(key, session)
      ensures status == EmptyKey <==> key == []
      ensures status == SessionRejected <==>
        key != [] && key !in waiters && sessionName != "" && session != sessionName
      ensures store.config.Valid() && Shaped(store.config, store.disk) && key in store.config.keys ==>
        var refused := key == [] || (key !in waiters && sessionName != "" && session != sessionName);
        && (status == AlreadyExists <==> !refused && store.config.PathOf(key) in store.disk)
        && (status == Success <==> !refused && store.config.PathOf(key) !in store.disk)
    {
      if key == [] {
        return EmptyKey;
      }
      if key !in waiters {
        if sessionName != "" && session != sessionName {
          return SessionRejected;
        }
      }
      var has := store.Has(key);
      status := if has then AlreadyExists else Success;
    }

    /** The data after the header arrives in `pieces`, cut in any way into non-empty reads; `used` of them are
        read. The disk and the answer do not depend on how it is cut, and the outcome is published and told
        to whoever waits for the key. */
    method HandleIncomingStream(s: seq<byte>, end: StreamEnd, pieces: seq<seq<byte>>, nonces: nat -> Nonce, room: nat)
      returns (ack: Option<byte>, used: nat)
      requires Valid()
      requires ParseHeader(s).Some? ==>
        Flatten(pieces) == Limited(ParseHeader(s).value.size, ParseHeader(s).value.rest, end).0
      requires forall i :: 0 <= i < |pieces| ==> pieces[i] != []
      modifies this`events, this`waiters, this`told, store
      ensures Valid() && used <= |pieces|
      ensures (store.disk, ack) == Received(store.config, old(store.disk), s, end, nonces, room)
      ensures ack == Some(1) ==> used == |pieces|
      ensures ack == None ==> events == old(events) && waiters == old(waiters) && told == old(told)
      ensures ack.Some? ==>
        && |events| == |old(events)| + used + 2
        && events[|events| - 1].ReceiveComplete? == (ack == Some(1))
        && events[|events| - 1].ReceiveFailed? == (ack == Some(0))
      ensures ack.Some? ==>
        var h := ParseHeader(s).value;
        && events == old(events) + EventsOf(h, pieces[..used], ack == Some(1))
        && waiters == old(waiters) - {h.key}
        && (forall ch: Waiter :: ch in told <==> ch in old(told) || Awaits(old(waiters), h.key, ch))
        && forall ch: Waiter :: Awaits(old(waiters), h.key, ch) ==> ch in told && told[ch] == (ack == Some(1))
    {
      hide ParseHeader, Limited, ProgressEvents, Awaits, WriteTo, Config.Content;
      var header := ParseHeader(s);
      if header.None? {
        return None, 0;
      }
      var h := header.value;
      events := events + [ReceiveStarted(h.key, h.size)];
      var limited := Limited(h.size, h.rest, end);
      var n, ok;
      n, used, ok := store.Write(h.key, pieces, limited.1, nonces, room);
      var progress := CountPieces(h.key, h.size, pieces[..used]);
      events := events + progress;
      assert ok ==> pieces[..used] == pieces;
      events := events + [if ok then ReceiveComplete(h.key, n) else ReceiveFailed(h.key)];
      EventsAre(h, pieces[..used], ok);
      NotifyTransferComplete(h.key, ok);
      ack := Some(if ok then 1 else 0);
    }
  }

  /** What the progress-tracking reader publishes while these pieces are read. */
  method CountPieces(key: Key, total: int, pieces: seq<seq<byte>>) returns (published: seq<Event>)
    requires forall i :: 0 <= i < |pieces| ==> pieces[i] != []
    ensures published == ProgressEvents(key, total, pieces)
  {
    var reader := new ProgressReader(key, total);
    for i := 0 to |pieces|
      invariant fresh(reader) && reader.key == key && reader.total == total
      invariant reader.published == ProgressEvents(key, total, pieces)[..i] && reader.written == |Flatten(pieces[..i])|
    {
      assert pieces[..i + 1] == pieces[..i] + [pieces[i]];
      FlattenSnoc(pieces[..i], pieces[i]);
      reader.Count(|pieces[i]|);
      assert Totals(pieces)[i] == |Flatten(pieces[..i + 1])| == reader.written;
      assert ProgressEvents(key, total, pieces)[i] == ReceiveProgress(key, reader.written, total);
    }
    published := reader.published;
  }

  /** StoreFileToPeer: negotiate, read, send, and wait for the answer. */
  method StoreFileToPeer(from: Store, peer: FileServer, key: Key, session: string, link: Link, sizes: nat -> nat,
                         pieces: seq<seq<byte>>, nonces: nat -> Nonce, room: nat) returns (result: SendResult)
    requires from != peer.store && peer.Valid() && forall i :: sizes(i) > 0
    requires var data := ReadFrom(from.config, from.disk, key);
      data.Some? && ParseHeader(link.Arriving(key, data.value)).Some? ==>
        var h := ParseHeader(link.Arriving(key, data.value)).value;
        Flatten(pieces) == Limited(h.size, h.rest, link.end).0
    requires forall i :: 0 <= i < |pieces| ==> pieces[i] != []
    modifies peer`events, peer`waiters, peer`told, peer.store
    ensures peer.Valid()
    ensures var status, data := old(peer.Answer(key, session)), old(ReadFrom(from.config, from.disk, key));
      if !link.negotiated then result == NegotiationFailed && peer.store.disk == old(peer.store.disk)
      else if status != Success then result == Refused(status) && peer.store.disk == old(peer.store.disk)
      else if data.None? then result == ReadFailed && peer.store.disk == old(peer.store.disk)
      else
        var s := link.Arriving(key, data.value);
        var (after, ack) := Received(peer.store.config, old(peer.store.disk), s, link.end, nonces, room);
        && peer.store.disk == after
        && result == (if link.sent && link.answered && ack == Some(1) then Stored else TransferFailed)
        && (ack == Some(1) ==> peer.events == old(peer.events) + EventsOf(ParseHeader(s).value, pieces, true))
  {
    if !link.negotiated {
      return NegotiationFailed;
    }
    var status := peer.HandleStoreFile(key, session);
    if status != Success {
      return Refused(status);
    }
    var data := from.Read(key, sizes);
    if data.None? {
      return ReadFailed;
    }
    var wire := SendFile(key, data.value);
    var ack, used := peer.HandleIncomingStream(wire[..Min(link.arrived, |wire|)], link.end, pieces, nonces, room);
    assert used == |pieces| ==> pieces[..used] == pieces;
    result := if link.sent && link.answered && ack == Some(1) then Stored else TransferFailed;
  }

  /** The bytes SendFile writes, one field after the other. */
  method SendFile(key: Key, data: seq<byte>) returns (stream: seq<byte>)
    ensures stream == Wire(key, data)
  {
    stream := PutUint(|key|, 2);
    stream := stream + key;
    stream := stream + PutUint(|data|, 8);
    stream := stream + data;
  }

  // ---------------------------------------------------------------- end to end

  /** How much a plaintext takes in this store. */
  function StoredSize(c: Config, nonces: nat -> Nonce, data: seq<byte>): nat {
    match c.encryption
    case Some(g) => |Encode(g, nonces, 0, data)|
    case None => |data|
  }

  /** A whole file with enough room is stored, and reads back as it was; what other keys hold is untouched. */
  lemma WholeFileStored(c: Config, d: Disk, key: Key, nonces: nat -> Nonce, room: nat, data: seq<byte>)
    requires c.Valid() && Shaped(c, d) && key in c.keys && StoredSize(c, nonces, data) <= room
    ensures var (content, whole) := c.Content(nonces, room, data, true);
      var (after, created) := WriteTo(c, d, key, content);
      && created && whole && Shaped(c, after)
      && ReadFrom(c, after, key) == Some(data)
      && forall k :: k in c.keys && k != key ==> ReadFrom(c, after, k) == ReadFrom(c, d, k)
  {
    var (content, whole) := c.Content(nonces, room, data, true);
    WriteSucceeds(c, d, key, content);
    WriteKeeps(c, d, key, content);
    if c.encryption.Some? {
      RoundTrip(c.encryption.value, nonces, 0, data);
    }
  }

  /** A file written at A and sent to B over a stream that delivers everything reads back at B as the same
      bytes, whatever keys the two stores encrypt with, and B keeps what it had under all other keys. */
  lemma EndToEnd(a: Config, da: Disk, b: Config, db: Disk, key: Key, data: seq<byte>,
                 noncesA: nat -> Nonce, noncesB: nat -> Nonce, room: nat)
    requires a.Valid() && Shaped(a, da) && b.Valid() && Shaped(b, db) && key in a.keys && key in b.keys
    requires 1 <= |key| <= MAX_KEY_LENGTH && |data| < 0x8000_0000_0000_0000
    requires StoredSize(a, noncesA, data) <= room && StoredSize(b, noncesB, data) <= room
    ensures var atA := WriteTo(a, da, key, a.Content(noncesA, room, data, true).0).0;
      && ReadFrom(a, atA, key) == Some(data)
      && var (atB, ack) := Received(b, db, Wire(key, data), Closed, noncesB, room);
         && ack == Some(1)
         && ReadFrom(b, atB, key) == Some(data)
         && forall k :: k in b.keys && k != key ==> ReadFrom(b, atB, k) == ReadFrom(b, db, k)
  {
    hide WriteTo, Config.Content, Config.Valid, ReadFrom, Shaped, StoredSize, Wire, ParseHeader, Separated;
    WholeFileStored(a, da, key, noncesA, room, data);
    WholeFileStored(b, db, key, noncesB, room, data);
    HeaderRoundTrip(key, data);
    assert data[..|data|] == data;
  }

  /** The same through the objects: write at A, offer and send over a perfect link, read at B. However the file
      is split into writes at A, reads at A, network reads at B and reads at B, B returns the same bytes, and
      publishes progress counts that strictly increase up to the size. */
  method SendAcross(a: Store, b: FileServer, key: Key, session: string, data: seq<byte>,
                    writes: seq<seq<byte>>, arrivals: seq<seq<byte>>, sizes: nat -> nat,
                    noncesA: nat -> Nonce, noncesB: nat -> Nonce, room: nat)
    returns (result: SendResult, got: Option<seq<byte>>)
    requires a != b.store && b.Valid() && b.Answer(key, session) == Success
    requires a.config.Valid() && Shaped(a.config, a.disk) && key in a.config.keys
    requires b.store.config.Valid() && Shaped(b.store.config, b.store.disk) && key in b.store.config.keys
    requires 1 <= |key| <= MAX_KEY_LENGTH && |data| < 0x8000_0000_0000_0000
    requires StoredSize(a.config, noncesA, data) <= room && StoredSize(b.store.config, noncesB, data) <= room
    requires Flatten(writes) == data == Flatten(arrivals) && forall i :: sizes(i) > 0
    requires forall i :: 0 <= i < |arrivals| ==> arrivals[i] != []
    modifies a, b`events, b`waiters, b`told, b.store
    ensures b.Valid() && result == Stored && got == Some(data)
    ensures b.events == old(b.events) + EventsOf(Header(key, |data|, data), arrivals, true)
    ensures forall i, j :: 0 <= i < j < |arrivals| ==> Totals(arrivals)[i] < Totals(arrivals)[j]
    ensures data != [] ==> arrivals != [] && Totals(arrivals)[|arrivals| - 1] == |data|
    ensures forall k :: k in b.store.config.keys && k != key ==>
      ReadFrom(b.store.config, b.store.disk, k) == old(ReadFrom(b.store.config, b.store.disk, k))
  {
    hide WriteTo, Config.Content, Config.Valid, ReadFrom, ParseHeader, Wire, Shaped, Limited, Totals, EventsOf,
      StoredSize, Separated;
    EndToEnd(a.config, a.disk, b.store.config, b.store.disk, key, data, noncesA, noncesB, room);
    HeaderRoundTrip(key, data);
    PerfectDelivers(key, data);
    ProgressIncreases(arrivals);
    var n, used, ok := a.Write(key, writes, true, noncesA, room);
    assert ReadFrom(a.config, a.disk, key) == Some(data);
    assert b.Answer(key, session) == Success;
    result := StoreFileToPeer(a, b, key, session, Perfect, sizes, arrivals, noncesB, room);
    got := b.store.Read(key, sizes);
  }

  lemma PerfectDelivers(key: Key, data: seq<byte>)
    requires |key| <= MAX_KEY_LENGTH && |data| < 0x8000_0000_0000_0000
    ensures Perfect.Arriving(key, data) == Wire(key, data)
    ensures Limited(|data|, data, Closed) == (data, true)
  {
    assert |Wire(key, data)| == HeaderLength(key) + |data|;
    assert data[..|data|] == data;
  }

  /** What an answer to an offer tells the sender: a rejected session says nothing about what is stored, and on
      a disk in shape the other two say whether the key is stored. */
  lemma AnswerTells(c: Config, d: Disk, key: Key, waiting: bool, session: string, active: string)
    requires c.Valid() && Shaped(c, d) && key in c.keys && key != []
    ensures var status := Verdict(key, waiting, session, active, HasIn(c, d, key));
      && (status == SessionRejected <==> !waiting && active != "" && session != active)
      && (status == AlreadyExists ==> c.PathOf(key) in d)
      && (status == Success ==> c.PathOf(key) !in d && ReadFrom(c, d, key) == None)
  {
    NotThroughFile(c, d, key);
  }

  /** An accepted offer is taken at most once: after the transfer, whole, short or broken, the same offer is
      answered as already existing, until the key is deleted. */
  lemma AcceptedOnce(c: Config, d: Disk, key: Key, waiting: bool, session: string, active: string,
                     s: seq<byte>, end: StreamEnd, nonces: nat -> Nonce, room: nat)
    requires c.Valid() && Shaped(c, d) && key in c.keys
    requires ParseHeader(s).Some? && ParseHeader(s).value.key == key
    requires Verdict(key, waiting, session, active, HasIn(c, d, key)) == Success
    ensures var after := Received(c, d, s, end, nonces, room).0;
      && Shaped(c, after)
      && Verdict(key, waiting, session, active, HasIn(c, after, key)) == AlreadyExists
      && Verdict(key, waiting, session, active, HasIn(c, Pruned(after, c.PathOf(key)), key)) == Success
  {
    var h := ParseHeader(s).value;
    var (got, clean) := Limited(h.size, h.rest, end);
    var content := c.Content(nonces, room, got, clean).0;
    WriteSucceeds(c, d, key, content);
    WriteKeeps(c, d, key, content);
    var after := Written(c, d, key, content);
    hide WriteTo, Written, Config.Content, ParseHeader, Limited;
    assert Received(c, d, s, end, nonces, room).0 == after;
    DeleteKeeps(c, after, key);
    NotThroughFile(c, Pruned(after, c.PathOf(key)), key);
  }

  /** What the receiver sees of a transfer that breaks off after `cut` bytes. */
  lemma CutHeader(key: Key, data: seq<byte>, cut: nat)
    requires 1 <= |key| <= MAX_KEY_LENGTH && |data| < 0x8000_0000_0000_0000 && cut <= |Wire(key, data)|
    ensures var s := Wire(key, data)[..cut];
      if cut < HeaderLength(key) then ParseHeader(s) == None
      else ParseHeader(s) == Some(Header(key, |data|, data[..cut - HeaderLength(key)]))
  {
    var w, n := Wire(key, data), HeaderLength(key);
    var head := PutUint(|key|, 2) + key + PutUint(|data|, 8);
    assert w == head + data;
    if cut < n {
      if cut >= 2 {
        HeaderOf(key, data, |data|);
        Fields(PutUint(|key|, 2), key, PutUint(|data|, 8), data);
        FieldWidths();
        UintRoundTrip(|key|, 2);
        assert w[..cut][..2] == w[..2];
      }
    } else {
      assert w[..cut] == head + data[..cut - n];
      HeaderOf(key, data[..cut - n], |data|);
    }
  }

  /** When the stream just ends early, the receiver does not notice: short of a part of the header, it stores
      what it got, and acknowledges success. The file is complete exactly when nothing was cut off. */
  lemma ShortTransfer(c: Config, d: Disk, key: Key, data: seq<byte>, cut: nat, nonces: nat -> Nonce, room: nat)
    requires c.Valid() && Shaped(c, d) && key in c.keys
    requires 1 <= |key| <= MAX_KEY_LENGTH && |data| < 0x8000_0000_0000_0000 && cut <= |Wire(key, data)|
    requires cut >= HeaderLength(key) ==> StoredSize(c, nonces, data[..cut - HeaderLength(key)]) <= room
    ensures var (after, ack) := Received(c, d, Wire(key, data)[..cut], Closed, nonces, room);
      if cut < HeaderLength(key) then after == d && ack == None
      else
        && ack == Some(1)
        && ReadFrom(c, after, key) == Some(data[..cut - HeaderLength(key)])
        && (ReadFrom(c, after, key) == Some(data) <==> cut == |Wire(key, data)|)
  {
    CutHeader(key, data, cut);
    if cut >= HeaderLength(key) {
      var got := data[..cut - HeaderLength(key)];
      WholeFileStored(c, d, key, nonces, room, got);
      assert got == data <==> |got| == |data|;
      assert |got| == |data| ==> got[..|data|] == got;
    }
  }

  /** A header whose size has the top bit set announces a negative size: an empty file is stored, whatever
      follows, and acknowledged. */
  lemma HugeSize(c: Config, d: Disk, key: Key, size: nat, rest: seq<byte>, end: StreamEnd,
                 nonces: nat -> Nonce, room: nat)
    requires c.Valid() && Shaped(c, d) && key in c.keys && 1 <= |key| <= MAX_KEY_LENGTH
    requires 0x8000_0000_0000_0000 <= size < 0x1_0000_0000_0000_0000
    ensures var (after, ack) := Received(c, d, PutUint(|key|, 2) + key + PutUint(size, 8) + rest, end, nonces, room);
      ack == Some(1) && ReadFrom(c, after, key) == Some([])
  {
    hide ParseHeader, PutUint, WriteTo, Config.Content, ReadFrom, Config.Valid, Shaped, StoredSize, Separated;
    HeaderOf(key, rest, size);
    assert ToInt64(size) < 0;
    NothingFits(c, nonces, room);
    WholeFileStored(c, d, key, nonces, room, []);
  }

  lemma NothingFits(c: Config, nonces: nat -> Nonce, room: nat)
    ensures StoredSize(c, nonces, []) <= room
  {
  }

  /** When the stream breaks with an error instead, the sender is told; but the file stays. It holds the whole
      chunks received (all bytes received, without encryption), reads back without an error, and makes the
      receiver refuse the same file from then on. */
  lemma BrokenTransfer(c: Config, d: Disk, key: Key, data: seq<byte>, cut: nat, nonces: nat -> Nonce, room: nat)
    requires c.Valid() && Shaped(c, d) && key in c.keys
    requires 1 <= |key| <= MAX_KEY_LENGTH && |data| < 0x8000_0000_0000_0000
    requires HeaderLength(key) <= cut < |Wire(key, data)|
    requires StoredSize(c, nonces, data[..cut - HeaderLength(key)]) <= room
    ensures var (after, ack) := Received(c, d, Wire(key, data)[..cut], Reset, nonces, room);
      var got := data[..cut - HeaderLength(key)];
      && ack == Some(0)
      && (forall waiting, session, active :: waiting || active == "" || session == active ==>
            Verdict(key, waiting, session, active, HasIn(c, after, key)) == AlreadyExists)
      && ReadFrom(c, after, key) == Some(if c.encryption.Some? then WholeChunks(got) else got)
  {
    CutHeader(key, data, cut);
    var got := data[..cut - HeaderLength(key)];
    var (content, whole) := c.Content(nonces, room, got, false);
    WriteSucceeds(c, d, key, content);
    WriteKeeps(c, d, key, content);
    if c.encryption.Some? {
      CopiedReadsBack(c.encryption.value, nonces, room, got, false);
    }
  }

  lemma TotalsStep(pieces: seq<seq<byte>>, i: nat)
    requires i < |pieces|
    ensures Totals(pieces)[i] == |Flatten(pieces[..i])| + |pieces[i]|
  {
    assert pieces[..i + 1] == pieces[..i] + [pieces[i]];
    FlattenSnoc(pieces[..i], pieces[i]);
  }

  /** Progress counts strictly increase, and end at the size of a file that is not empty. */
  lemma {:induction false} ProgressIncreases(pieces: seq<seq<byte>>)
    requires forall i :: 0 <= i < |pieces| ==> pieces[i] != []
    ensures forall i, j :: 0 <= i < j < |pieces| ==> Totals(pieces)[i] < Totals(pieces)[j]
    ensures Flatten(pieces) != [] ==> pieces != [] && Totals(pieces)[|pieces| - 1] == |Flatten(pieces)|
  {
    forall i, j | 0 <= i < j < |pieces|
      ensures Totals(pieces)[i] < Totals(pieces)[j]
    {
      TotalsGrow(pieces, i, j);
    }
    if pieces != [] {
      assert pieces[..|pieces| - 1 + 1] == pieces;
    }
  }

  lemma {:induction false} TotalsGrow(pieces: seq<seq<byte>>, i: nat, j: nat)
    requires i < j < |pieces| && forall k :: i < k <= j ==> pieces[k] != []
    ensures Totals(pieces)[i] < Totals(pieces)[j]
    decreases j
  {
    TotalsStep(pieces, j);
    assert Totals(pieces)[j - 1] == |Flatten(pieces[..j])|;
    if i < j - 1 {
      TotalsGrow(pieces, i, j - 1);
    }
  }
}
