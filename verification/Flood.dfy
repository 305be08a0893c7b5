// internal/fileserver/get.go, with BroadcastGet of fileserver.go: one GET_FILE request spreading through the
// network. Messages may be delivered in any order or lost; each node remembers which message IDs it has seen,
// until an entry expires or is evicted.
module Flood {
  import opened Bytes
  import opened PeerSelector
  import Dedup

  const DEFAULT_TTL := 3
  const FANOUT: nat := 10

  type Node = string

  datatype Payload = Payload(key: string, msgId: string, ttl: int, requesterId: Node, requesterAddrs: seq<string>)

  datatype Packet = Packet(from: Node, to: Node, payload: Payload)

  datatype Event =
    | GetDelivering(msgId: string, key: string, requesterId: Node)
    | GetReceived(msgId: string, key: string, ttl: int)

  /** What a node does about one incoming copy. */
  datatype Effect = Effect(events: seq<Event>, deliver: bool, sends: seq<Packet>)

  function Sends(self: Node, payload: Payload, selected: seq<Node>): seq<Packet> {
    seq(|selected|, i requires 0 <= i < |selected| => Packet(self, selected[i], payload))
  }

  function Process(self: Node, payload: Payload, isNew: bool, has: bool, selected: seq<Node>): Effect {
    if !isNew then Effect([], false, [])
    else if has then Effect([GetDelivering(payload.msgId, payload.key, payload.requesterId)], true, [])
    else
      var received := [GetReceived(payload.msgId, payload.key, payload.ttl)];
      if payload.ttl <= 0 then Effect(received, false, [])
      else Effect(received, false, Sends(self, payload.(ttl := payload.ttl - 1), selected))
  }

  // ---------------------------------------------------------------- one node

  class FileServer {
    const self: Node
    const seen: Dedup.SeenMessages
    var keys: set<string>
    var peers: seq<Node>
    var events: seq<Event>
    var outbox: seq<Packet>
    var delivering: seq<Payload>

    constructor (self: Node, keys: set<string>, peers: seq<Node>)
      ensures this.self == self && this.keys == keys && this.peers == peers
      ensures events == [] && outbox == [] && delivering == [] && fresh(seen)
      ensures seen.entries == map[] && seen.maxSize == 10000 && seen.window == 60_000_000_000
    {
      this.self, this.keys, this.peers := self, keys, peers;
      seen := new Dedup.SeenMessages(10000, 60_000_000_000);
      events, outbox, delivering := [], [], [];
    }

    method ProcessGet(sender: Node, payload: Payload, now: int, draws: seq<nat>) returns (isNew: bool)
      requires var candidates := Candidates(peers, sender);
        |draws| == Min(FANOUT, |candidates|) && ValidDraws(draws, |candidates|)
      modifies this`events, this`outbox, this`delivering, seen
      ensures Dedup.SeeStep(seen.maxSize, seen.window, old(seen.entries), payload.msgId, now, isNew, seen.entries)
      ensures var e := Process(self, payload, isNew, payload.key in keys, Sample(Candidates(peers, sender), draws));
        && events == old(events) + e.events
        && outbox == old(outbox) + e.sends
        && delivering == old(delivering) + if e.deliver then [payload] else []
      ensures !isNew ==> events == old(events) && outbox == old(outbox) && delivering == old(delivering)
      ensures isNew && payload.key in keys ==>
        && events == old(events) + [GetDelivering(payload.msgId, payload.key, payload.requesterId)]
        && outbox == old(outbox) && delivering == old(delivering) + [payload]
      ensures isNew && payload.key !in keys ==>
        && events == old(events) + [GetReceived(payload.msgId, payload.key, payload.ttl)]
        && delivering == old(delivering)
        && (payload.ttl <= 0 ==> outbox == old(outbox))
        && |outbox| == |old(outbox)| + if payload.ttl <= 0 then 0 else |draws|
      ensures forall i :: |old(outbox)| <= i < |outbox| ==>
        && outbox[i].from == self && outbox[i].to in peers && outbox[i].to != sender
        && outbox[i].payload == payload.(ttl := payload.ttl - 1)
    {
      hide Sample, Candidates, Dedup.SeeStep;
      CandidatesAre(peers, sender);
      SampleFrom(Candidates(peers, sender), draws);
      isNew := seen.See(payload.msgId, now);
      if !isNew {
        return;
      }
      if payload.key in keys {
        events := events + [GetDelivering(payload.msgId, payload.key, payload.requesterId)];
        delivering := delivering + [payload];
        return;
      }
      events := events + [GetReceived(payload.msgId, payload.key, payload.ttl)];
      if payload.ttl <= 0 {
        return;
      }
      var selected := Select(peers, sender, FANOUT, draws);
      SendAll(payload.(ttl := payload.ttl - 1), selected);
    }

    /** The network, in a state that shows this node as far as one request is concerned. */
    ghost predicate Shows(s: State, req: Request, now: int)
      reads this, seen
    {
      && s.PeersOf(self) == (set n | n in peers)
      && (self in s.holders <==> req.key in keys)
      && (self in s.seen <==> Dedup.Remembers(seen.entries, seen.window, req.msgId, now))
    }

    /** handleGet: processing packet i of the network is a delivery step of the network. */
    method HandleGet(ghost s: State, ghost req: Request, ghost i: nat,
                     sender: Node, payload: Payload, now: int, draws: seq<nat>)
      returns (ghost t: State)
      requires Distinct(peers) && seen.window > 0
      requires var candidates := Candidates(peers, sender);
        |draws| == Min(FANOUT, |candidates|) && ValidDraws(draws, |candidates|)
      requires Shows(s, req, now) && payload == req.Copy(payload.ttl)
      requires i < |s.net| && s.net[i] == Packet(sender, self, payload)
      modifies this`events, this`outbox, this`delivering, seen
      ensures Next(s, Deliver(i, Sample(Candidates(peers, sender), draws)), t) && Shows(t, req, now)
      ensures old(outbox) <= outbox && t.net == RemoveAt(s.net, i) + outbox[|old(outbox)|..]
      ensures t.deliverers == if delivering == old(delivering) then s.deliverers else s.deliverers + {self}
    {
      hide Selectable, Process, Sample, Candidates, Dedup.SeeStep, Dedup.Remembers, EffectOf, ValidDraws;
      var selected := Sample(Candidates(peers, sender), draws);
      ghost var before := seen.entries;
      var isNew := ProcessGet(sender, payload, now, draws);
      Dedup.RemembersSeen(seen.maxSize, seen.window, before, payload.msgId, now, isNew, seen.entries);
      assert isNew == (self !in s.seen);
      SelectorChoices(peers, sender, selected);
      assert Drawn(Candidates(peers, sender), draws, selected);
      t := Delivered(s, i, selected);
      EffectIs(s, i, selected);
      assert EffectOf(s, i, selected) == Process(self, payload, isNew, payload.key in keys, selected);
      assert delivering == old(delivering) || |delivering| == |old(delivering)| + 1;
    }

    method SendAll(payload: Payload, selected: seq<Node>)
      modifies this`outbox
      ensures outbox == old(outbox) + Sends(self, payload, selected)
    {
      for i := 0 to |selected|
        invariant outbox == old(outbox) + Sends(self, payload, selected)[..i]
      {
        outbox := outbox + [Packet(self, selected[i], payload)];
      }
    }
  }

  // ---------------------------------------------------------------- the network

  /** The parts of a request that no node changes. */
  datatype Request = Request(key: string, msgId: string, requester: Node, addrs: seq<string>) {
    function Copy(ttl: int): Payload {
      Payload(key, msgId, ttl, requester, addrs)
    }
  }

  /** The network, as far as one request is concerned. `seen` holds the nodes whose table has the request's
      ID, each with the TTL of the copy it accepted (the one its GetReceived event shows). */
  datatype State = State(
    peers: map<Node, set<Node>>,
    holders: set<Node>,
    seen: map<Node, int>,
    deliverers: set<Node>,
    net: seq<Packet>
  ) {
    function PeersOf(n: Node): set<Node> {
      if n in peers then peers[n] else {}
    }
  }

  datatype Label =
    | Deliver(i: nat, selected: seq<Node>)
    | Drop(i: nat)
    | Forget(n: Node)
    | Environment

  /** What RandomPeerSelector may return. */
  ghost predicate Selectable(peers: set<Node>, exclude: Node, selected: seq<Node>) {
    && Distinct(selected)
    && (forall n :: n in selected ==> n in peers && n != exclude)
    && |selected| == Min(FANOUT, |peers - {exclude}|)
  }

  /** BroadcastGet: one copy for every peer of the requester. */
  ghost predicate Init(req: Request, s: State) {
    && s.seen == map[] && s.deliverers == {}
    && exists order :: Broadcast(req, s, order)
  }

  ghost predicate Broadcast(req: Request, s: State, order: seq<Node>) {
    && Distinct(order)
    && (forall n :: n in order <==> n in s.PeersOf(req.requester))
    && s.net == Sends(req.requester, req.Copy(DEFAULT_TTL), order)
  }

  function RemoveAt<T>(s: seq<T>, i: nat): seq<T>
    requires i < |s|
  {
    s[..i] + s[i + 1..]
  }

  /** The effect of delivering packet i. */
  function EffectOf(s: State, i: nat, selected: seq<Node>): Effect
    requires i < |s.net|
  {
    var p := s.net[i];
    Process(p.to, p.payload, p.to !in s.seen, p.to in s.holders, selected)
  }

  function Delivered(s: State, i: nat, selected: seq<Node>): State
    requires i < |s.net|
  {
    var p, e := s.net[i], EffectOf(s, i, selected);
    State(
      s.peers, s.holders,
      if p.to in s.seen then s.seen else s.seen[p.to := p.payload.ttl],
      if e.deliver then s.deliverers + {p.to} else s.deliverers,
      RemoveAt(s.net, i) + e.sends)
  }

  ghost predicate Next(s: State, l: Label, t: State) {
    match l
    case Deliver(i, selected) =>
      && i < |s.net|
      && Selectable(s.PeersOf(s.net[i].to), s.net[i].from, selected)
      && t == Delivered(s, i, selected)
    case Drop(i) => i < |s.net| && t == s.(net := RemoveAt(s.net, i))
    case Forget(n) => t == s.(seen := s.seen - {n})
    case Environment => t == s.(peers := t.peers, holders := t.holders)
  }

  datatype Run = Run(states: seq<State>, labels: seq<Label>) {
    ghost predicate Valid(req: Request) {
      && |states| == |labels| + 1
      && Init(req, states[0])
      && forall n :: 0 <= n < |labels| ==> Next(states[n], labels[n], states[n + 1])
    }
  }

  ghost predicate Drawn(candidates: seq<Node>, draws: seq<nat>, selected: seq<Node>) {
    && |draws| == Min(FANOUT, |candidates|)
    && ValidDraws(draws, |candidates|)
    && Sample(candidates, draws) == selected
  }

  /** The choices in the model are exactly the ones the selector can make. */
  lemma SelectorChoices(all: seq<Node>, exclude: Node, selected: seq<Node>)
    requires Distinct(all)
    ensures var peers := set n | n in all;
      Selectable(peers, exclude, selected)
      <==> exists draws :: Drawn(Candidates(all, exclude), draws, selected)
  {
    var peers := set n | n in all;
    var candidates := Candidates(all, exclude);
    CandidatesAre(all, exclude);
    assert (set n | n in candidates) == peers - {exclude};
    DistinctSize(candidates);
    if Selectable(peers, exclude, selected) {
      SampleOnto(candidates, selected);
      assert Drawn(candidates, DrawsOf(candidates, selected), selected);
    }
    forall draws | Drawn(candidates, draws, selected)
      ensures Selectable(peers, exclude, selected)
    {
      SampleDistinct(candidates, draws);
    }
  }

  lemma EffectIs(s: State, i: nat, selected: seq<Node>)
    requires i < |s.net|
    ensures var p := s.net[i];
      EffectOf(s, i, selected) == Process(p.to, p.payload, p.to !in s.seen, p.to in s.holders, selected)
  {
  }

  /** What else a node's table goes through is, for one request, forgetting it or nothing: time passes, entries
      expire and are cleaned up, and other ids are entered, evicting what they may. */
  lemma ForgetOrNothing(s: State, n: Node, id: string, before: Dedup.Table, after: Dedup.Table,
                        window: int, now: int, later: int)
    returns (l: Label, t: State)
    requires n in s.seen <==> Dedup.Remembers(before, window, id, now)
    requires now <= later
    requires || after == before || after == Dedup.Unexpired(before, window, later)
             || OtherSeen(before, after, window, id, later)
    ensures l == Forget(n) || l == Environment
    ensures Next(s, l, t) && t.peers == s.peers && t.holders == s.holders
    ensures n in t.seen <==> Dedup.Remembers(after, window, id, later)
  {
    if Dedup.Remembers(after, window, id, later) {
      l, t := Environment, s;
    } else {
      l, t := Forget(n), s.(seen := s.seen - {n});
    }
  }

  ghost predicate OtherSeen(before: Dedup.Table, after: Dedup.Table, window: int, id: string, now: int) {
    exists maxSize: nat, other: string, isNew: bool ::
      other != id && Dedup.SeeStep(maxSize, window, before, other, now, isNew, after)
  }

  lemma {:induction false} DistinctSize<T>(s: seq<T>)
    requires Distinct(s)
    ensures |set x | x in s| == |s|
  {
    if s != [] {
      DistinctSize(s[1..]);
      assert (set x | x in s) == (set x | x in s[1..]) + {s[0]};
    }
  }

  lemma RemoveAtMembers<T>(s: seq<T>, i: nat)
    requires i < |s|
    ensures forall x :: x in RemoveAt(s, i) ==> x in s
    ensures forall x :: x in s ==> x == s[i] || x in RemoveAt(s, i)
  {
  }

  // ---------------------------------------------------------------- safety

  /** A walk that copy p took up to state n: its edges existed when it crossed them, every node on the way
      lacked the file when it forwarded, and nobody sent the copy back to where it came from. */
  ghost predicate Route(run: Run, req: Request, n: nat, p: Packet, walk: seq<Node>, times: seq<nat>)
    requires n < |run.states|
  {
    && p.payload == req.Copy(p.payload.ttl) && 0 <= p.payload.ttl <= DEFAULT_TTL
    && |walk| == |times| + 1 == DEFAULT_TTL - p.payload.ttl + 2
    && walk[0] == req.requester && walk[|walk| - 2] == p.from && walk[|walk| - 1] == p.to
    && (forall i :: 0 <= i < |times| ==> times[i] <= n && Crossed(run.states[times[i]], walk, i))
    && (forall i, j :: 0 <= i < j < |times| ==> times[i] <= times[j])
    && (forall i :: 0 <= i < |walk| - 2 ==> walk[i] != walk[i + 2])
  }

  ghost predicate Crossed(s: State, walk: seq<Node>, i: nat)
    requires i + 1 < |walk|
  {
    walk[i + 1] in s.PeersOf(walk[i]) && (i > 0 ==> walk[i] !in s.holders)
  }

  lemma RouteStarts(run: Run, req: Request, p: Packet)
    requires run.Valid(req) && p in run.states[0].net
    ensures Route(run, req, 0, p, [req.requester, p.to], [0])
  {
    var order :| Broadcast(req, run.states[0], order);
    assert Crossed(run.states[0], [req.requester, p.to], 0);
  }

  lemma RouteLater(run: Run, req: Request, n: nat, p: Packet, walk: seq<Node>, times: seq<nat>)
    requires n + 1 < |run.states| && Route(run, req, n, p, walk, times)
    ensures Route(run, req, n + 1, p, walk, times)
  {
  }

  lemma RouteForwarded(run: Run, req: Request, n: nat, q: Packet, p: Packet, walk: seq<Node>, times: seq<nat>)
    requires n + 1 < |run.states| && Route(run, req, n, q, walk, times)
    requires p == Packet(q.to, p.to, q.payload.(ttl := q.payload.ttl - 1)) && q.payload.ttl > 0
    requires p.to in run.states[n].PeersOf(q.to) && q.to !in run.states[n].holders && p.to != q.from
    ensures Route(run, req, n + 1, p, walk + [p.to], times + [n])
  {
    var w, t := walk + [p.to], times + [n];
    forall i | 0 <= i < |t|
      ensures t[i] <= n + 1 && Crossed(run.states[t[i]], w, i)
    {
      if i < |times| {
        assert Crossed(run.states[times[i]], walk, i);
      }
    }
  }

  /** In every run, every copy in flight carries the request unchanged, with a TTL between 0 and the
      default, and has come along a real walk of DEFAULT_TTL - TTL + 1 edges. */
  lemma {:induction false} CopiesRouted(run: Run, req: Request, n: nat, p: Packet)
    returns (walk: seq<Node>, times: seq<nat>)
    requires run.Valid(req) && n < |run.states| && p in run.states[n].net
    ensures Route(run, req, n, p, walk, times)
    decreases n
  {
    if n == 0 {
      walk, times := [req.requester, p.to], [0];
      RouteStarts(run, req, p);
    } else {
      hide Route, Crossed, Init;
      var s, l := run.states[n - 1], run.labels[n - 1];
      assert Next(s, l, run.states[n]);
      if l.Deliver? || l.Drop? {
        RemoveAtMembers(s.net, l.i);
      }
      if p in s.net {
        walk, times := CopiesRouted(run, req, n - 1, p);
        RouteLater(run, req, n - 1, p, walk, times);
      } else {
        var q := s.net[l.i];
        assert p in EffectOf(s, l.i, l.selected).sends;
        walk, times := CopiesRouted(run, req, n - 1, q);
        RouteForwarded(run, req, n - 1, q, p, walk, times);
        walk, times := walk + [p.to], times + [n - 1];
      }
    }
  }

  /** Every node that starts a delivery holds the file at that moment, and lies within DEFAULT_TTL + 1 hops
      of the requester on such a walk. */
  lemma {:induction false} DeliverersReached(run: Run, req: Request, n: nat, d: Node)
    returns (m: nat, p: Packet, walk: seq<Node>, times: seq<nat>)
    requires run.Valid(req) && n < |run.states| && d in run.states[n].deliverers
    ensures m < n && d in run.states[m].holders && p in run.states[m].net && p.to == d
    ensures Route(run, req, m, p, walk, times) && |times| <= DEFAULT_TTL + 1
    decreases n
  {
    assert n > 0 && Next(run.states[n - 1], run.labels[n - 1], run.states[n]);
    if d in run.states[n - 1].deliverers {
      m, p, walk, times := DeliverersReached(run, req, n - 1, d);
    } else {
      m, p := n - 1, run.states[n - 1].net[run.labels[n - 1].i];
      walk, times := CopiesRouted(run, req, m, p);
    }
  }

  // ---------------------------------------------------------------- termination and message bounds

  /** The most messages that one copy with this TTL can account for, itself included. */
  function Weight(ttl: int): nat {
    if ttl <= 0 then 1 else 1 + FANOUT * Weight(ttl - 1)
  }

  function TotalWeight(net: seq<Packet>): nat {
    if net == [] then 0 else Weight(net[0].payload.ttl) + TotalWeight(net[1..])
  }

  lemma {:induction false} TotalWeightConcat(a: seq<Packet>, b: seq<Packet>)
    ensures TotalWeight(a + b) == TotalWeight(a) + TotalWeight(b)
  {
    if a == [] {
      assert a + b == b;
    } else {
      assert (a + b)[1..] == a[1..] + b;
      TotalWeightConcat(a[1..], b);
    }
  }

  lemma TotalWeightRemove(net: seq<Packet>, i: nat)
    requires i < |net|
    ensures TotalWeight(net) == Weight(net[i].payload.ttl) + TotalWeight(RemoveAt(net, i))
  {
    assert net == net[..i] + net[i..];
    TotalWeightConcat(net[..i], net[i..]);
    TotalWeightConcat(net[..i], net[i + 1..]);
    assert net[i..][1..] == net[i + 1..];
  }

  lemma {:induction false} TotalWeightUniform(net: seq<Packet>, ttl: int)
    requires forall i :: 0 <= i < |net| ==> net[i].payload.ttl == ttl
    ensures TotalWeight(net) == |net| * Weight(ttl)
  {
    if net != [] {
      TotalWeightUniform(net[1..], ttl);
      assert |net| * Weight(ttl) == Weight(ttl) + |net[1..]| * Weight(ttl);
    }
  }

  lemma {:induction false} TotalWeightAtLeast(net: seq<Packet>)
    ensures TotalWeight(net) >= |net|
  {
    if net != [] {
      TotalWeightAtLeast(net[1..]);
    }
  }

  /** Handling a message, by delivery or by loss, strictly decreases the total weight, whatever the
      deduplication does; nothing else changes it. So every run handles finitely many messages. */
  lemma WeightDecreases(s: State, l: Label, t: State)
    requires Next(s, l, t)
    ensures if l.Deliver? || l.Drop? then TotalWeight(t.net) < TotalWeight(s.net)
            else TotalWeight(t.net) == TotalWeight(s.net)
  {
    if l.Deliver? || l.Drop? {
      TotalWeightRemove(s.net, l.i);
    }
    if l.Deliver? {
      var sends := EffectOf(s, l.i, l.selected).sends;
      TotalWeightConcat(RemoveAt(s.net, l.i), sends);
      if sends != [] {
        var ttl := s.net[l.i].payload.ttl;
        TotalWeightUniform(sends, ttl - 1);
        ProductGrows(|sends|, FANOUT, Weight(ttl - 1));
      }
    }
  }

  lemma ProductGrows(a: nat, b: nat, w: nat)
    requires a <= b
    ensures a * w <= b * w
  {
  }

  function SentBy(s: State, l: Label): nat {
    if l.Deliver? && l.i < |s.net| then |EffectOf(s, l.i, l.selected).sends| else 0
  }

  /** All messages sent up to state n, the broadcast included. */
  function Sent(run: Run, n: nat): nat
    requires n < |run.states| && n <= |run.labels|
  {
    if n == 0 then |run.states[0].net| else Sent(run, n - 1) + SentBy(run.states[n - 1], run.labels[n - 1])
  }

  function Handled(labels: seq<Label>): nat {
    if labels == [] then 0
    else Handled(labels[..|labels| - 1]) + if labels[|labels| - 1].Deliver? || labels[|labels| - 1].Drop? then 1 else 0
  }

  /** Every message sent is in flight or was handled, and the weight of the broadcast pays for all of them. */
  lemma {:induction false} Accounting(run: Run, req: Request, n: nat)
    requires run.Valid(req) && n < |run.states|
    ensures Sent(run, n) == Handled(run.labels[..n]) + |run.states[n].net|
    ensures Handled(run.labels[..n]) + TotalWeight(run.states[n].net) <= TotalWeight(run.states[0].net)
  {
    if n > 0 {
      Accounting(run, req, n - 1);
      assert Next(run.states[n - 1], run.labels[n - 1], run.states[n]);
      WeightDecreases(run.states[n - 1], run.labels[n - 1], run.states[n]);
      assert run.labels[..n][..n - 1] == run.labels[..n - 1];
    }
  }

  lemma BroadcastSize(req: Request, s: State)
    requires Init(req, s)
    ensures |s.net| == |s.PeersOf(req.requester)|
    ensures TotalWeight(s.net) == 1111 * |s.PeersOf(req.requester)|
  {
    var order :| Broadcast(req, s, order);
    DistinctSize(order);
    assert (set n | n in order) == s.PeersOf(req.requester);
    TotalWeightUniform(s.net, DEFAULT_TTL);
    assert Weight(3) == 1111;
  }

  /** Even if no node remembered anything, a request causes at most 1111 messages per initial peer. */
  lemma MessageBound(run: Run, req: Request, n: nat)
    requires run.Valid(req) && n < |run.states|
    ensures Sent(run, n) <= 1111 * |run.states[0].PeersOf(req.requester)|
  {
    Accounting(run, req, n);
    BroadcastSize(req, run.states[0]);
    TotalWeightAtLeast(run.states[n].net);
  }

  /** Only a node that has not seen the request sends anything. */
  lemma SendsPaidFor(s: State, l: Label, t: State)
    requires Next(s, l, t) && !l.Forget?
    ensures SentBy(s, l) + FANOUT * |s.seen| <= FANOUT * |t.seen|
  {
    hide Delivered, EffectOf;
    if l.Deliver? {
      SeenStep(s, l, t);
      SendsFew(s, l.i, l.selected);
      SeenGrows(s.seen, s.net[l.i].to, s.net[l.i].payload.ttl);
    }
  }

  lemma SendsFew(s: State, i: nat, selected: seq<Node>)
    requires i < |s.net| && |selected| <= FANOUT
    ensures |EffectOf(s, i, selected).sends| <= if s.net[i].to in s.seen then 0 else FANOUT
  {
  }

  lemma SeenGrows(seen: map<Node, int>, n: Node, ttl: int)
    ensures n !in seen ==> |seen[n := ttl]| == |seen| + 1
  {
    assert seen[n := ttl].Keys == seen.Keys + {n};
    assert |seen.Keys + {n}| == |seen.Keys| + if n in seen then 0 else 1;
  }

  /** As long as no node forgets the ID, every node forwards at most once. */
  lemma {:induction false} DedupBound(run: Run, req: Request, n: nat)
    requires run.Valid(req) && n < |run.states|
    requires forall i :: 0 <= i < n ==> !run.labels[i].Forget?
    ensures Sent(run, n) <= |run.states[0].PeersOf(req.requester)| + FANOUT * |run.states[n].seen|
  {
    if n == 0 {
      BroadcastSize(req, run.states[0]);
    } else {
      DedupBound(run, req, n - 1);
      assert Next(run.states[n - 1], run.labels[n - 1], run.states[n - 1 + 1]);
      hide Next, Run.Valid;
      SendsPaidFor(run.states[n - 1], run.labels[n - 1], run.states[n]);
    }
  }

  // ---------------------------------------------------------------- completeness

  /** Nothing is lost or forgotten, and the network stands still. */
  ghost predicate Lossless(run: Run) {
    forall n :: 0 <= n < |run.labels| ==> run.labels[n].Deliver?
  }

  /** Packet i does not bring a node other than the requester more hops than the copy that it accepted had. */
  ghost predicate Timely(s: State, i: nat, req: Request) {
    i < |s.net| ==>
      var p := s.net[i];
      p.to in s.seen && p.to != req.requester ==> s.seen[p.to] >= p.payload.ttl
  }

  /** No node accepts a copy that has overtaken one with more hops left. */
  ghost predicate Unovertaken(run: Run, req: Request) {
    forall n :: 0 <= n < |run.labels| && n < |run.states| && run.labels[n].Deliver? ==>
      Timely(run.states[n], run.labels[n].i, req)
  }

  /** Forwarding reaches all candidates. */
  ghost predicate SmallDegree(s: State) {
    forall m, n :: n in s.PeersOf(m) ==> |s.PeersOf(n) - {m}| <= FANOUT
  }

  /** A walk of d edges from the requester to v, whose interior nodes lack the file. */
  ghost predicate Walk(s: State, req: Request, d: nat, v: Node) {
    if d == 0 then v == req.requester
    else exists u :: Walk(s, req, d - 1, u) && v in s.PeersOf(u) && (d > 1 ==> u !in s.holders)
  }

  /** v has been reached, or is about to be, with at least this TTL. */
  ghost predicate Covered(s: State, req: Request, v: Node, ttl: int) {
    || v == req.requester
    || (v in s.seen && s.seen[v] >= ttl)
    || exists p :: p in s.net && p.to == v && p.payload.ttl >= ttl
  }

  /** Copies in flight come from the requester, or from a node that lacks the file and accepted a copy with
      one more hop to go. */
  ghost predicate Origin(s: State, req: Request, p: Packet) {
    && 0 <= p.payload.ttl <= DEFAULT_TTL
    && p.to in s.PeersOf(p.from)
    && Walk(s, req, DEFAULT_TTL - p.payload.ttl, p.from)
    && (p.payload.ttl < DEFAULT_TTL ==> p.from !in s.holders)
    && ((p.from == req.requester && p.payload.ttl == DEFAULT_TTL)
        || (p.from in s.seen && s.seen[p.from] == p.payload.ttl + 1))
  }

  ghost predicate SeenOnWalk(s: State, req: Request, v: Node)
    requires v in s.seen
  {
    0 <= s.seen[v] <= DEFAULT_TTL && Walk(s, req, DEFAULT_TTL + 1 - s.seen[v], v)
  }

  /** Whatever is in flight, and whoever has seen the request, is at the end of a walk that accounts for its TTL. */
  ghost predicate Traced(s: State, req: Request) {
    && (forall p :: p in s.net ==> Origin(s, req, p))
    && (forall v :: v in s.seen ==> SeenOnWalk(s, req, v))
  }

  /** Everyone next to the requester, or to a node that forwarded, has been reached or is about to be. */
  ghost predicate Covering(s: State, req: Request) {
    && (forall v :: v in s.PeersOf(req.requester) ==> Covered(s, req, v, DEFAULT_TTL))
    && (forall u, v :: u in s.seen && u !in s.holders && s.seen[u] > 0 && v in s.PeersOf(u)
          ==> Covered(s, req, v, s.seen[u] - 1))
  }

  /** Walks do not depend on what the request has done so far. */
  lemma {:induction false} WalkStable(s: State, t: State, req: Request, d: nat, v: Node)
    requires s.peers == t.peers && s.holders == t.holders && Walk(s, req, d, v)
    ensures Walk(t, req, d, v)
  {
    if d > 0 {
      var u :| Walk(s, req, d - 1, u) && v in s.PeersOf(u) && (d > 1 ==> u !in s.holders);
      WalkStable(s, t, req, d - 1, u);
      assert v in t.PeersOf(u);
    }
  }

  lemma InitTraced(req: Request, s: State)
    requires Init(req, s)
    ensures Traced(s, req)
  {
  }

  lemma InitCovering(req: Request, s: State)
    requires Init(req, s)
    ensures Covering(s, req)
  {
    var order :| Broadcast(req, s, order);
    forall v | v in s.PeersOf(req.requester)
      ensures Covered(s, req, v, DEFAULT_TTL)
    {
      var i :| 0 <= i < |order| && order[i] == v;
      assert s.net[i] in s.net && s.net[i].to == v;
    }
  }

  /** The copy that is delivered extends a walk to the node it reaches. */
  lemma OriginWalk(s: State, req: Request, p: Packet)
    requires Origin(s, req, p)
    ensures Walk(s, req, DEFAULT_TTL + 1 - p.payload.ttl, p.to)
  {
  }

  /** What was covered stays covered when a copy is delivered that has overtaken nothing. */
  lemma CoveredStays(s: State, l: Label, t: State, req: Request, v: Node, ttl: int)
    requires Next(s, l, t) && l.Deliver? && Timely(s, l.i, req) && Covered(s, req, v, ttl)
    ensures Covered(t, req, v, ttl)
  {
    RemoveAtMembers(s.net, l.i);
    if p :| p in s.net && p.to == v && p.payload.ttl >= ttl {
      if p == s.net[l.i] {
        assert v == req.requester || (v in t.seen && t.seen[v] >= ttl);
      } else {
        assert p in t.net;
      }
    }
  }

  /** A node that forwards covers all its peers. */
  lemma ForwardCovers(s: State, l: Label, t: State, req: Request, v: Node)
    requires SmallDegree(s) && Next(s, l, t) && l.Deliver? && l.i < |s.net| && Origin(s, req, s.net[l.i])
    requires var p := s.net[l.i];
      p.to !in s.seen && p.to !in s.holders && p.payload.ttl > 0 && v in s.PeersOf(p.to)
    ensures Covered(t, req, v, s.net[l.i].payload.ttl - 1)
  {
    var p := s.net[l.i];
    if v != p.from {
      AllSelected(s.PeersOf(p.to), p.from, l.selected);
      var i :| 0 <= i < |l.selected| && l.selected[i] == v;
      var q := EffectOf(s, l.i, l.selected).sends[i];
      assert q in t.net && q.to == v && q.payload.ttl == p.payload.ttl - 1;
    }
  }

  lemma AllSelected(peers: set<Node>, exclude: Node, selected: seq<Node>)
    requires Selectable(peers, exclude, selected) && |peers - {exclude}| <= FANOUT
    ensures forall n :: n in peers && n != exclude ==> n in selected
  {
    DistinctSize(selected);
    var chosen := set n | n in selected;
    SameSize(chosen, peers - {exclude});
    forall n | n in peers && n != exclude
      ensures n in selected
    {
      assert n in chosen;
    }
  }

  lemma SameSize<T>(a: set<T>, b: set<T>)
    requires a <= b && |a| == |b|
    ensures a == b
  {
    assert |b - a| == |b| - |a|;
  }

  /** Every copy in flight after a delivery was there before, or has just been forwarded. */
  lemma NetStep(s: State, l: Label, t: State, p: Packet)
    requires Next(s, l, t) && l.Deliver? && p in t.net
    ensures l.i < |s.net|
    ensures var q := s.net[l.i];
      || p in s.net
      || (p.from == q.to && p.payload == q.payload.(ttl := q.payload.ttl - 1) && q.payload.ttl > 0
          && q.to !in s.seen && q.to !in s.holders && p.to in s.PeersOf(q.to) && t.seen[q.to] == q.payload.ttl)
  {
    RemoveAtMembers(s.net, l.i);
    if p !in s.net {
      assert p in EffectOf(s, l.i, l.selected).sends;
    }
  }

  lemma OriginKept(s: State, t: State, req: Request, p: Packet)
    requires Origin(s, req, p) && t.peers == s.peers && t.holders == s.holders
    requires p.from in s.seen ==> p.from in t.seen && t.seen[p.from] == s.seen[p.from]
    ensures Origin(t, req, p)
  {
    hide Walk;
    WalkStable(s, t, req, DEFAULT_TTL - p.payload.ttl, p.from);
  }

  lemma OriginSent(s: State, t: State, req: Request, q: Packet, p: Packet)
    requires Origin(s, req, q) && t.peers == s.peers && t.holders == s.holders
    requires p.from == q.to && p.payload.ttl == q.payload.ttl - 1 && q.payload.ttl > 0
    requires q.to !in s.holders && p.to in s.PeersOf(q.to) && q.to in t.seen && t.seen[q.to] == q.payload.ttl
    ensures Origin(t, req, p)
  {
    OriginWalk(s, req, q);
    hide Walk;
    WalkStable(s, t, req, DEFAULT_TTL + 1 - q.payload.ttl, q.to);
  }

  lemma SeenStep(s: State, l: Label, t: State)
    requires Next(s, l, t) && l.Deliver?
    ensures t.peers == s.peers && t.holders == s.holders && l.i < |s.net|
    ensures var p := s.net[l.i];
      t.seen == if p.to in s.seen then s.seen else s.seen[p.to := p.payload.ttl]
    ensures forall n :: s.PeersOf(n) == t.PeersOf(n)
  {
  }

  lemma OriginStep(s: State, l: Label, t: State, req: Request, p: Packet)
    requires Traced(s, req) && Next(s, l, t) && l.Deliver? && p in t.net
    ensures Origin(t, req, p)
  {
    hide Walk, Origin, SeenOnWalk, Next, State.PeersOf;
    SeenStep(s, l, t);
    NetStep(s, l, t, p);
    if p in s.net {
      OriginFrom(s, req, p);
      OriginKept(s, t, req, p);
    } else {
      OriginSent(s, t, req, s.net[l.i], p);
    }
  }

  lemma OriginFrom(s: State, req: Request, p: Packet)
    requires Origin(s, req, p)
    ensures p.from in s.seen || p.from == req.requester
  {
  }

  lemma SeenOnWalkStep(s: State, l: Label, t: State, req: Request, v: Node)
    requires Traced(s, req) && Next(s, l, t) && l.Deliver? && v in t.seen
    ensures SeenOnWalk(t, req, v)
  {
    hide Walk, Next, State.PeersOf;
    SeenStep(s, l, t);
    OriginWalk(s, req, s.net[l.i]);
    assert v in s.seen ==> SeenOnWalk(s, req, v);
    WalkStable(s, t, req, DEFAULT_TTL + 1 - t.seen[v], v);
  }

  lemma TracedStep(s: State, l: Label, t: State, req: Request)
    requires Traced(s, req) && Next(s, l, t) && l.Deliver?
    ensures Traced(t, req)
  {
    hide Walk, Next, Origin, SeenOnWalk;
    forall p | p in t.net
      ensures Origin(t, req, p)
    {
      OriginStep(s, l, t, req, p);
    }
    forall v | v in t.seen
      ensures SeenOnWalk(t, req, v)
    {
      SeenOnWalkStep(s, l, t, req, v);
    }
  }

  lemma CoveringStep(s: State, l: Label, t: State, req: Request)
    requires Traced(s, req) && Covering(s, req) && SmallDegree(s)
    requires Next(s, l, t) && l.Deliver? && Timely(s, l.i, req)
    ensures Covering(t, req)
  {
    hide Walk, Covered, Origin, SeenOnWalk, Next, Timely, SmallDegree, State.PeersOf;
    SeenStep(s, l, t);
    forall v | v in t.PeersOf(req.requester)
      ensures Covered(t, req, v, DEFAULT_TTL)
    {
      CoveredStays(s, l, t, req, v, DEFAULT_TTL);
    }
    forall u, v | u in t.seen && u !in t.holders && t.seen[u] > 0 && v in t.PeersOf(u)
      ensures Covered(t, req, v, t.seen[u] - 1)
    {
      if u in s.seen {
        CoveredStays(s, l, t, req, v, s.seen[u] - 1);
      } else {
        ForwardCovers(s, l, t, req, v);
      }
    }
  }

  ghost predicate StandsStill(s: State, t: State) {
    s.peers == t.peers && s.holders == t.holders
  }

  lemma SmallDegreeStable(s: State, t: State)
    requires SmallDegree(s) && StandsStill(s, t)
    ensures SmallDegree(t)
  {
    assert forall n :: t.PeersOf(n) == s.PeersOf(n);
  }

  lemma StillStep(s: State, l: Label, t: State)
    requires Next(s, l, t) && l.Deliver?
    ensures StandsStill(s, t)
  {
  }

  lemma {:induction false} TracedThroughout(run: Run, req: Request, n: nat)
    requires run.Valid(req) && Lossless(run) && n < |run.states|
    ensures Traced(run.states[n], req) && StandsStill(run.states[0], run.states[n])
  {
    hide Next, Init, Traced;
    if n == 0 {
      InitTraced(req, run.states[0]);
    } else {
      TracedThroughout(run, req, n - 1);
      var s, l, t := run.states[n - 1], run.labels[n - 1], run.states[n - 1 + 1];
      assert Next(s, l, t);
      TracedStep(s, l, t, req);
      StillStep(s, l, t);
    }
  }

  lemma {:induction false} CoveringThroughout(run: Run, req: Request, n: nat)
    requires run.Valid(req) && Lossless(run) && Unovertaken(run, req) && SmallDegree(run.states[0]) && n < |run.states|
    ensures Covering(run.states[n], req)
  {
    hide Next, Init, Traced, Covering, SmallDegree, Timely;
    if n == 0 {
      InitCovering(req, run.states[0]);
    } else {
      CoveringThroughout(run, req, n - 1);
      TracedThroughout(run, req, n - 1);
      var s, l, t := run.states[n - 1], run.labels[n - 1], run.states[n - 1 + 1];
      assert Next(s, l, t) && Timely(s, l.i, req);
      SmallDegreeStable(run.states[0], s);
      CoveringStep(s, l, t, req);
    }
  }

  /** Once no copy in flight could still have come d edges, every node at the end of a walk of d edges has been
      reached. */
  lemma {:induction false} WalkReached(s: State, req: Request, d: nat, v: Node)
    requires Traced(s, req) && Covering(s, req) && forall p :: p in s.net ==> p.payload.ttl < DEFAULT_TTL + 1 - d
    requires 1 <= d <= DEFAULT_TTL + 1 && Walk(s, req, d, v) && v != req.requester
    ensures v in s.seen && s.seen[v] >= DEFAULT_TTL + 1 - d
  {
    var u :| Walk(s, req, d - 1, u) && v in s.PeersOf(u) && (d > 1 ==> u !in s.holders);
    if u == req.requester {
      assert Covered(s, req, v, DEFAULT_TTL);
    } else {
      WalkReached(s, req, d - 1, u);
      assert Covered(s, req, v, s.seen[u] - 1);
    }
  }

  /** A lossless run in which nothing is left in flight. */
  ghost predicate Settled(run: Run, req: Request) {
    && run.Valid(req) && Lossless(run) && SmallDegree(run.states[0])
    && run.states[|run.labels|].net == []
  }

  function End(run: Run): State
    requires |run.states| == |run.labels| + 1
  {
    run.states[|run.labels|]
  }

  /** Every node other than the requester at the end of a short enough walk has been reached, by a copy that has
      as many hops left as along that walk. */
  ghost predicate AllReached(start: State, end: State, req: Request) {
    forall v, d: nat :: v != req.requester && d <= DEFAULT_TTL + 1 && Walk(start, req, d, v) ==>
      ReachedWith(end, v, DEFAULT_TTL + 1 - d)
  }

  ghost predicate ReachedWith(s: State, v: Node, ttl: int) {
    v in s.seen && s.seen[v] >= ttl
  }

  lemma WalkReachedAtEnd(run: Run, req: Request, d: nat, v: Node)
    requires Settled(run, req) && Unovertaken(run, req) && v != req.requester
    requires d <= DEFAULT_TTL + 1 && Walk(run.states[0], req, d, v)
    ensures ReachedWith(End(run), v, DEFAULT_TTL + 1 - d)
  {
    var n := |run.labels|;
    TracedThroughout(run, req, n);
    CoveringThroughout(run, req, n);
    assert d > 0;
    hide Walk, Traced, Covering, Lossless, Unovertaken, Run.Valid, SmallDegree;
    WalkStable(run.states[0], run.states[n], req, d, v);
    WalkReached(run.states[n], req, d, v);
  }

  lemma ReachedByWalk(run: Run, req: Request, n: nat, v: Node)
    requires run.Valid(req) && Lossless(run) && n < |run.states| && v in run.states[n].seen
    ensures var ttl := run.states[n].seen[v];
      0 <= ttl <= DEFAULT_TTL && Walk(run.states[0], req, DEFAULT_TTL + 1 - ttl, v)
  {
    TracedThroughout(run, req, n);
    assert SeenOnWalk(run.states[n], req, v);
    hide Walk, Traced, Lossless, Run.Valid;
    WalkStable(run.states[n], run.states[0], req, DEFAULT_TTL + 1 - run.states[n].seen[v], v);
  }

  /** What a node accepted first stays. */
  lemma {:induction false} SeenStays(run: Run, req: Request, m: nat, n: nat, v: Node)
    requires run.Valid(req) && Lossless(run) && m <= n < |run.states| && v in run.states[m].seen
    ensures v in run.states[n].seen && run.states[n].seen[v] == run.states[m].seen[v]
    decreases n
  {
    if m < n {
      SeenStays(run, req, m, n - 1, v);
      assert Next(run.states[n - 1], run.labels[n - 1], run.states[n - 1 + 1]);
      hide Next, Run.Valid;
      SeenStep(run.states[n - 1], run.labels[n - 1], run.states[n]);
    }
  }

  /** A copy that comes too late shows a walk whose end was reached with fewer hops left than along it. */
  lemma TimelyWhenAllReached(run: Run, req: Request, n: nat)
    requires Settled(run, req) && AllReached(run.states[0], End(run), req) && n < |run.labels|
    ensures Timely(run.states[n], run.labels[n].i, req)
  {
    var s, i := run.states[n], run.labels[n].i;
    if i < |s.net| && s.net[i].to in s.seen && s.net[i].to != req.requester {
      var p := s.net[i];
      TracedThroughout(run, req, n);
      assert Origin(s, req, p);
      OriginWalk(s, req, p);
      var d: nat := DEFAULT_TTL + 1 - p.payload.ttl;
      hide Walk, Traced, Origin, Run.Valid;
      WalkStable(s, run.states[0], req, d, p.to);
      SeenStays(run, req, n, |run.labels|, p.to);
      assert ReachedWith(End(run), p.to, DEFAULT_TTL + 1 - d);
    }
  }

  /** The flood reaches every node within reach with all the hops it could have left exactly when no copy
      comes after one with fewer hops left that its receiver accepted. */
  lemma ReachesAll(run: Run, req: Request)
    requires Settled(run, req)
    ensures AllReached(run.states[0], End(run), req) <==> Unovertaken(run, req)
  {
    hide Walk, Timely, ReachedWith, SmallDegree;
    if Unovertaken(run, req) {
      forall v, d: nat | v != req.requester && d <= DEFAULT_TTL + 1 && Walk(run.states[0], req, d, v)
        ensures ReachedWith(End(run), v, DEFAULT_TTL + 1 - d)
      {
        WalkReachedAtEnd(run, req, d, v);
      }
    }
    if AllReached(run.states[0], End(run), req) {
      forall n | 0 <= n < |run.labels|
        ensures Timely(run.states[n], run.labels[n].i, req)
      {
        TimelyWhenAllReached(run, req, n);
      }
    }
  }

  /** A walk of at most DEFAULT_TTL + 1 edges, through nodes that lack the file, leads to v. */
  ghost predicate Within(s: State, req: Request, v: Node) {
    exists d: nat :: d <= DEFAULT_TTL + 1 && Walk(s, req, d, v)
  }

  /** Then a node receives the request exactly when it is within reach. */
  lemma Completeness(run: Run, req: Request, v: Node)
    requires Settled(run, req) && Unovertaken(run, req) && v != req.requester
    ensures v in End(run).seen <==> Within(run.states[0], req, v)
  {
    hide Walk, SmallDegree, Unovertaken;
    if v in End(run).seen {
      ReachedByWalk(run, req, |run.labels|, v);
      var d: nat := DEFAULT_TTL + 1 - End(run).seen[v];
      assert Walk(run.states[0], req, d, v);
    }
    if d: nat :| d <= DEFAULT_TTL + 1 && Walk(run.states[0], req, d, v) {
      WalkReachedAtEnd(run, req, d, v);
    }
  }

  lemma DeliverersStep(s: State, l: Label, t: State)
    requires Next(s, l, t) && l.Deliver?
    requires forall v :: v in s.deliverers <==> v in s.holders && v in s.seen
    ensures forall v :: v in t.deliverers <==> v in t.holders && v in t.seen
  {
    SeenStep(s, l, t);
  }

  lemma {:induction false} DeliverersAre(run: Run, req: Request, n: nat)
    requires run.Valid(req) && Lossless(run) && n < |run.states|
    ensures forall v :: v in run.states[n].deliverers <==> v in run.states[n].holders && v in run.states[n].seen
  {
    if n > 0 {
      DeliverersAre(run, req, n - 1);
      assert Next(run.states[n - 1], run.labels[n - 1], run.states[n - 1 + 1]);
      hide Next, Run.Valid;
      DeliverersStep(run.states[n - 1], run.labels[n - 1], run.states[n]);
    }
  }

  /** And exactly the nodes within reach that hold the file start a delivery. */
  lemma DeliveryCompleteness(run: Run, req: Request, v: Node)
    requires Settled(run, req) && Unovertaken(run, req) && v != req.requester
    ensures v in End(run).deliverers <==> v in run.states[0].holders && Within(run.states[0], req, v)
  {
    DeliverersAre(run, req, |run.labels|);
    TracedThroughout(run, req, |run.labels|);
    hide Within, Traced, SmallDegree, Unovertaken, Lossless, Run.Valid;
    Completeness(run, req, v);
  }

  /** A node at distance d accepts a copy with TTL DEFAULT_TTL - (d - 1). */
  lemma FirstReceivedTtl(run: Run, req: Request, d: nat, v: Node)
    requires Settled(run, req) && Unovertaken(run, req) && v != req.requester
    requires d <= DEFAULT_TTL + 1 && Walk(run.states[0], req, d, v)
    requires forall e: nat :: e < d ==> !Walk(run.states[0], req, e, v)
    ensures v in End(run).seen && End(run).seen[v] == DEFAULT_TTL - (d - 1)
  {
    hide SmallDegree, Unovertaken;
    WalkReachedAtEnd(run, req, d, v);
    ReachedByWalk(run, req, |run.labels|, v);
  }

  // ---------------------------------------------------------------- synchronous rounds

  /** Every step delivers a copy with the highest TTL in flight: no round begins before the last one is over. */
  ghost predicate Synchronous(run: Run) {
    forall n :: 0 <= n < |run.labels| && n < |run.states| ==>
      run.labels[n].Deliver? && Foremost(run.states[n], run.labels[n].i)
  }

  ghost predicate Foremost(s: State, i: nat) {
    i < |s.net| && forall p :: p in s.net ==> p.payload.ttl <= s.net[i].payload.ttl
  }

  /** Every node that has seen the request accepted a copy with at least the hops of any in flight. */
  ghost predicate Ahead(s: State) {
    forall v, p :: v in s.seen && p in s.net ==> s.seen[v] >= p.payload.ttl
  }

  lemma AheadStep(s: State, l: Label, t: State)
    requires Ahead(s) && Next(s, l, t) && l.Deliver? && Foremost(s, l.i)
    ensures Ahead(t)
  {
    SeenStep(s, l, t);
    hide Next, State.PeersOf;
    forall v, p | v in t.seen && p in t.net
      ensures t.seen[v] >= p.payload.ttl
    {
      NetStep(s, l, t, p);
      assert p.payload.ttl <= s.net[l.i].payload.ttl;
    }
  }

  lemma {:induction false} AheadThroughout(run: Run, req: Request, n: nat)
    requires run.Valid(req) && Synchronous(run) && n < |run.states|
    ensures Ahead(run.states[n])
  {
    hide Next, Foremost, Init;
    if n == 0 {
      NobodySeen(req, run.states[0]);
    } else {
      AheadThroughout(run, req, n - 1);
      assert Next(run.states[n - 1], run.labels[n - 1], run.states[n - 1 + 1]);
      assert run.labels[n - 1].Deliver? && Foremost(run.states[n - 1], run.labels[n - 1].i);
      hide Ahead, Synchronous, Run.Valid;
      AheadStep(run.states[n - 1], run.labels[n - 1], run.states[n]);
    }
  }

  lemma NobodySeen(req: Request, s: State)
    requires Init(req, s)
    ensures s.seen == map[]
  {
  }

  /** In synchronous rounds nothing is overtaken. */
  lemma SynchronousUnovertaken(run: Run, req: Request)
    requires run.Valid(req) && Synchronous(run)
    ensures Lossless(run) && Unovertaken(run, req)
  {
    forall n | 0 <= n < |run.labels|
      ensures run.labels[n].Deliver? && Timely(run.states[n], run.labels[n].i, req)
    {
      AheadThroughout(run, req, n);
      assert run.labels[n].Deliver? && Foremost(run.states[n], run.labels[n].i);
    }
  }

  // ---------------------------------------------------------------- rounds of a first-in, first-out network

  /** Every step delivers the oldest copy in flight. */
  ghost predicate Fifo(run: Run) {
    forall n :: 0 <= n < |run.labels| && n < |run.states| ==> run.labels[n].Deliver? && run.labels[n].i == 0
  }

  /** Along the queue the TTL falls, by one at most. */
  ghost predicate Layered(net: seq<Packet>) {
    forall i, j :: 0 <= i < j < |net| ==> net[j].payload.ttl <= net[i].payload.ttl <= net[j].payload.ttl + 1
  }

  lemma FifoStep(s: State, l: Label, t: State)
    requires Next(s, l, t) && l.Deliver? && l.i == 0
    ensures t.net == s.net[1..] + EffectOf(s, 0, l.selected).sends
    ensures forall p :: p in EffectOf(s, 0, l.selected).sends ==> p.payload.ttl == s.net[0].payload.ttl - 1
    ensures t.seen == if s.net[0].to in s.seen then s.seen else s.seen[s.net[0].to := s.net[0].payload.ttl]
  {
  }

  lemma LayeredStep(net: seq<Packet>, sends: seq<Packet>)
    requires net != [] && Layered(net)
    requires forall p :: p in sends ==> p.payload.ttl == net[0].payload.ttl - 1
    ensures Layered(net[1..] + sends)
  {
    var after := net[1..] + sends;
    forall i, j | 0 <= i < j < |after|
      ensures after[j].payload.ttl <= after[i].payload.ttl <= after[j].payload.ttl + 1
    {
      assert i < |net| - 1 ==> net[0].payload.ttl - 1 <= after[i].payload.ttl <= net[0].payload.ttl;
      assert i >= |net| - 1 ==> after[i] in sends;
      assert j >= |net| - 1 ==> after[j] in sends;
    }
  }

  lemma {:induction false} FifoLayered(run: Run, req: Request, n: nat)
    requires run.Valid(req) && Fifo(run) && n < |run.states|
    ensures Layered(run.states[n].net)
  {
    if n > 0 {
      var s, l, t := run.states[n - 1], run.labels[n - 1], run.states[n];
      assert Next(s, l, t);
      FifoLayered(run, req, n - 1);
      FifoStep(s, l, t);
      LayeredStep(s.net, EffectOf(s, 0, l.selected).sends);
    }
  }

  /** Delivering in the order of sending is one way to run in synchronous rounds. */
  lemma FifoSynchronous(run: Run, req: Request)
    requires run.Valid(req) && Fifo(run)
    ensures Synchronous(run)
  {
    forall n | 0 <= n < |run.labels|
      ensures run.labels[n].Deliver? && Foremost(run.states[n], run.labels[n].i)
    {
      assert Next(run.states[n], run.labels[n], run.states[n + 1]);
      FifoLayered(run, req, n);
    }
  }

  /** The step at which round r is over: round r + 1 delivers exactly the copies then in flight. */
  function RoundEnd(run: Run, r: nat): nat {
    if r == 0 then 0
    else
      var m := RoundEnd(run, r - 1);
      if m < |run.states| then m + |run.states[m].net| else m
  }

  ghost predicate AcceptedWith(seen: map<Node, int>, ttl: int) {
    forall v :: v in seen ==> seen[v] >= ttl
  }

  /** k deliveries into a round that started with the copies `all`: the rest of them are in front, what they
      caused is behind. */
  ghost predicate InRound(all: seq<Packet>, k: nat, s: State, ttl: int)
    requires k <= |all|
  {
    && all[k..] <= s.net
    && (forall j :: |all| - k <= j < |s.net| ==> s.net[j].payload.ttl == ttl - 1)
    && AcceptedWith(s.seen, ttl)
  }

  lemma InRoundStep(all: seq<Packet>, k: nat, s: State, l: Label, t: State, ttl: int)
    requires k < |all| && InRound(all, k, s, ttl) && all[k].payload.ttl == ttl
    requires Next(s, l, t) && l.Deliver? && l.i == 0
    ensures InRound(all, k + 1, t, ttl)
  {
    FifoStep(s, l, t);
    assert s.net[0] == all[k..][0] == all[k];
    var sends := EffectOf(s, 0, l.selected).sends;
    hide Next, EffectOf;
    assert all[k + 1..] == all[k..][1..] <= s.net[1..] <= t.net;
    forall j | |all| - (k + 1) <= j < |t.net|
      ensures t.net[j].payload.ttl == ttl - 1
    {
      if j < |s.net| - 1 {
        assert t.net[j] == s.net[j + 1];
      } else {
        assert t.net[j] == sends[j - (|s.net| - 1)];
      }
    }
  }

  lemma {:induction false} RoundProceeds(run: Run, req: Request, m: nat, k: nat, ttl: int)
    requires run.Valid(req) && Fifo(run) && m + k < |run.states| && k <= |run.states[m].net|
    requires forall p :: p in run.states[m].net ==> p.payload.ttl == ttl
    requires AcceptedWith(run.states[m].seen, ttl)
    ensures InRound(run.states[m].net, k, run.states[m + k], ttl)
    decreases k
  {
    if k > 0 {
      var s, l, t := run.states[m + k - 1], run.labels[m + k - 1], run.states[m + k];
      var all := run.states[m].net;
      RoundProceeds(run, req, m, k - 1, ttl);
      assert Next(s, l, t) && l.Deliver? && l.i == 0;
      assert all[k - 1] in all;
      hide Next, Run.Valid, InRound, AcceptedWith;
      InRoundStep(all, k - 1, s, l, t, ttl);
    }
  }

  /** At the end of round r, all copies in flight have r hops less to go, and every node that has seen the
      request accepted a copy of one of the rounds so far. */
  lemma {:induction false} RoundEnds(run: Run, req: Request, r: nat)
    requires Settled(run, req) && Fifo(run)
    ensures RoundEnd(run, r) <= |run.labels|
    ensures var s := run.states[RoundEnd(run, r)];
      && (forall p :: p in s.net ==> p.payload.ttl == DEFAULT_TTL - r)
      && AcceptedWith(s.seen, DEFAULT_TTL - r + 1)
  {
    if r > 0 {
      RoundEnds(run, req, r - 1);
      var m, end := RoundEnd(run, r - 1), |run.labels|;
      var all, ttl := run.states[m].net, DEFAULT_TTL - (r - 1);
      if end - m < |all| {
        RoundProceeds(run, req, m, end - m, ttl);
      }
      RoundProceeds(run, req, m, |all|, ttl);
      forall p | p in run.states[m + |all|].net
        ensures p.payload.ttl == DEFAULT_TTL - r
      {
        var j :| 0 <= j < |run.states[m + |all|].net| && run.states[m + |all|].net[j] == p;
      }
    }
  }

  /** A node at distance d first sees the request in round d: not before round d - 1 is over, and before round
      d is; and it accepts the copy with TTL DEFAULT_TTL - (d - 1). */
  lemma ReachedInRound(run: Run, req: Request, d: nat, v: Node)
    requires Settled(run, req) && Fifo(run) && v != req.requester
    requires d <= DEFAULT_TTL + 1 && Walk(run.states[0], req, d, v)
    requires forall e: nat :: e < d ==> !Walk(run.states[0], req, e, v)
    ensures 0 < d && RoundEnd(run, d) <= |run.labels|
    ensures RoundEnd(run, d - 1) <= |run.labels| && v !in run.states[RoundEnd(run, d - 1)].seen
    ensures var seen := run.states[RoundEnd(run, d)].seen;
      v in seen && seen[v] == DEFAULT_TTL - (d - 1)
  {
    hide Walk, Traced, Covering, RoundEnd, Fifo, Lossless, Unovertaken, SmallDegree, Next, Init, AcceptedWith;
    WalkPositive(run.states[0], req, d, v);
    RoundEnds(run, req, d);
    RoundEnds(run, req, d - 1);
    SeenLate(run, req, d, v, RoundEnd(run, d - 1));
    SeenLate(run, req, d, v, RoundEnd(run, d));
    FifoSynchronous(run, req);
    SynchronousUnovertaken(run, req);
    ReachedBy(run, req, d, v, RoundEnd(run, d));
    NotAccepted(run.states[RoundEnd(run, d - 1)].seen, v, DEFAULT_TTL + 1 - d);
  }

  lemma WalkPositive(s: State, req: Request, d: nat, v: Node)
    requires Walk(s, req, d, v) && v != req.requester
    ensures d > 0
  {
  }

  lemma NotAccepted(seen: map<Node, int>, v: Node, ttl: int)
    requires AcceptedWith(seen, ttl + 1) && (v in seen ==> seen[v] <= ttl)
    ensures v !in seen
  {
  }

  lemma ReachedBy(run: Run, req: Request, d: nat, v: Node, n: nat)
    requires run.Valid(req) && Lossless(run) && Unovertaken(run, req) && SmallDegree(run.states[0])
    requires n < |run.states| && forall p :: p in run.states[n].net ==> p.payload.ttl == DEFAULT_TTL - d
    requires 0 < d <= DEFAULT_TTL + 1 && Walk(run.states[0], req, d, v) && v != req.requester
    ensures v in run.states[n].seen && run.states[n].seen[v] >= DEFAULT_TTL + 1 - d
  {
    hide Walk, Traced, Covering, Lossless, Unovertaken, SmallDegree, Run.Valid;
    TracedThroughout(run, req, n);
    CoveringThroughout(run, req, n);
    WalkStable(run.states[0], run.states[n], req, d, v);
    WalkReached(run.states[n], req, d, v);
  }

  /** Whoever has seen the request by step n accepted a copy that came at least its distance. */
  lemma SeenLate(run: Run, req: Request, d: nat, v: Node, n: nat)
    requires run.Valid(req) && Lossless(run) && n < |run.states|
    requires forall e: nat :: e < d ==> !Walk(run.states[0], req, e, v)
    ensures v in run.states[n].seen ==> run.states[n].seen[v] <= DEFAULT_TTL + 1 - d
  {
    if v in run.states[n].seen {
      hide Walk, Lossless, Run.Valid;
      ReachedByWalk(run, req, n, v);
    }
  }

  lemma SomeSelection(peers: set<Node>, exclude: Node) returns (selected: seq<Node>)
    ensures Selectable(peers, exclude, selected)
  {
    var all := Enumerated(peers - {exclude});
    selected := all[..Min(FANOUT, |all|)];
    forall n | n in selected
      ensures n in peers && n != exclude
    {
      assert n in all;
    }
  }

  lemma NextDelivered(s: State, i: nat, selected: seq<Node>)
    requires i < |s.net| && Selectable(s.PeersOf(s.net[i].to), s.net[i].from, selected)
    ensures Next(s, Deliver(i, selected), Delivered(s, i, selected))
  {
  }

  lemma RunExtended(req: Request, run: Run, l: Label, t: State)
    requires run.Valid(req) && Fifo(run) && Next(run.states[|run.labels|], l, t) && l.Deliver? && l.i == 0
    ensures var more := Run(run.states + [t], run.labels + [l]);
      more.Valid(req) && Fifo(more)
  {
    hide Next, Init;
    var more := Run(run.states + [t], run.labels + [l]);
    forall n | 0 <= n < |more.labels|
      ensures Next(more.states[n], more.labels[n], more.states[n + 1])
    {
      if n < |run.labels| {
        assert Next(run.states[n], run.labels[n], run.states[n + 1]);
      }
    }
  }

  lemma {:induction false} RunOn(req: Request, run: Run) returns (all: Run)
    requires run.Valid(req) && Fifo(run)
    ensures all.Valid(req) && Fifo(all) && all.states[0] == run.states[0]
    ensures all.states[|all.labels|].net == []
    decreases TotalWeight(run.states[|run.labels|].net)
  {
    hide Next, TotalWeight, Init, Delivered, Selectable, Fifo;
    var s := run.states[|run.labels|];
    if s.net == [] {
      all := run;
    } else {
      var selected := SomeSelection(s.PeersOf(s.net[0].to), s.net[0].from);
      var l, t := Deliver(0, selected), Delivered(s, 0, selected);
      NextDelivered(s, 0, selected);
      WeightDecreases(s, l, t);
      RunExtended(req, run, l, t);
      all := RunOn(req, Run(run.states + [t], run.labels + [l]));
    }
  }

  /** Such runs exist: from every broadcast in a network of small degree, first-in, first-out delivery comes to
      an end, in synchronous rounds. */
  lemma FinishedRunExists(req: Request, s: State) returns (run: Run)
    requires Init(req, s) && SmallDegree(s)
    ensures Settled(run, req) && Fifo(run) && run.states[0] == s
  {
    run := RunOn(req, Run([s], []));
    FifoSynchronous(run, req);
  }

  // ---------------------------------------------------------------- a copy that is overtaken

  /** A chain r - m - n - o - q with a detour from r over b to m. */
  const Detour: map<Node, set<Node>> := map[
    "r" := {"b", "m"}, "b" := {"r", "m"}, "m" := {"r", "b", "n"}, "n" := {"m", "o"}, "o" := {"n", "q"}, "q" := {"o"}]

  function At(seen: map<Node, int>, net: seq<Packet>): State {
    State(Detour, {}, seen, {}, net)
  }

  function Hop(req: Request, from: Node, to: Node, ttl: int): Packet {
    Packet(from, to, req.Copy(ttl))
  }

  /** Delivering packet i to a node that forwards, or would forward, to all its candidates. */
  lemma Delivery(s: State, i: nat, selected: seq<Node>, t: State)
    requires i < |s.net| && s.holders == {} && Distinct(selected) && |selected| <= FANOUT
    requires (set n | n in selected) == s.PeersOf(s.net[i].to) - {s.net[i].from}
    requires var p := s.net[i];
      t == s.(seen := if p.to in s.seen then s.seen else s.seen[p.to := p.payload.ttl],
              net := RemoveAt(s.net, i) + if p.to in s.seen || p.payload.ttl <= 0 then []
                                          else Sends(p.to, p.payload.(ttl := p.payload.ttl - 1), selected))
    ensures Next(s, Deliver(i, selected), t)
  {
    DistinctSize(selected);
    var chosen := set n | n in selected;
    forall n | n in selected
      ensures n in s.PeersOf(s.net[i].to) && n != s.net[i].from
    {
      assert n in chosen;
    }
  }

  /** The run in which the copy over b reaches m before the copy straight from r. */
  function Overtaken(req: Request): Run {
    Run([
      At(map[], [Hop(req, "r", "b", 3), Hop(req, "r", "m", 3)]),
      At(map["b" := 3], [Hop(req, "r", "m", 3), Hop(req, "b", "m", 2)]),
      At(map["b" := 3, "m" := 2], [Hop(req, "r", "m", 3), Hop(req, "m", "r", 1), Hop(req, "m", "n", 1)]),
      At(map["b" := 3, "m" := 2, "n" := 1], [Hop(req, "r", "m", 3), Hop(req, "m", "r", 1), Hop(req, "n", "o", 0)]),
      At(map["b" := 3, "m" := 2, "n" := 1, "o" := 0], [Hop(req, "r", "m", 3), Hop(req, "m", "r", 1)]),
      At(map["b" := 3, "m" := 2, "n" := 1, "o" := 0], [Hop(req, "m", "r", 1)]),
      At(map["b" := 3, "m" := 2, "n" := 1, "o" := 0, "r" := 1], [Hop(req, "r", "b", 0)]),
      At(map["b" := 3, "m" := 2, "n" := 1, "o" := 0, "r" := 1], [])
    ], [
      Deliver(0, ["m"]), Deliver(1, ["r", "n"]), Deliver(2, ["o"]), Deliver(2, ["q"]),
      Deliver(0, ["b", "n"]), Deliver(0, ["b"]), Deliver(0, ["m"])
    ])
  }

  lemma OvertakenStarts(req: Request)
    ensures var run := Overtaken(req);
      forall n :: 0 <= n < 2 ==> Next(run.states[n], run.labels[n], run.states[n + 1])
  {
    var run := Overtaken(req);
    hide Next;
    Delivery(run.states[0], 0, ["m"], run.states[1]);
    Delivery(run.states[1], 1, ["r", "n"], run.states[2]);
  }

  lemma OvertakenGoesOn(req: Request)
    ensures var run := Overtaken(req);
      forall n :: 2 <= n < 5 ==> Next(run.states[n], run.labels[n], run.states[n + 1])
  {
    var run := Overtaken(req);
    hide Next;
    Delivery(run.states[2], 2, ["o"], run.states[3]);
    Delivery(run.states[3], 2, ["q"], run.states[4]);
    Delivery(run.states[4], 0, ["b", "n"], run.states[5]);
  }

  lemma OvertakenEnds(req: Request)
    ensures var run := Overtaken(req);
      forall n :: 5 <= n < 7 ==> Next(run.states[n], run.labels[n], run.states[n + 1])
  {
    var run := Overtaken(req);
    hide Next;
    Delivery(run.states[5], 0, ["b"], run.states[6]);
    Delivery(run.states[6], 0, ["m"], run.states[7]);
  }

  lemma OvertakenValid(req: Request)
    requires req.requester == "r"
    ensures Overtaken(req).Valid(req)
  {
    OvertakenStarts(req);
    OvertakenGoesOn(req);
    OvertakenEnds(req);
    hide Next;
    var s := Overtaken(req).states[0];
    assert Broadcast(req, s, ["b", "m"]);
  }

  lemma WalkOn(s: State, req: Request, d: nat, u: Node, v: Node)
    requires Walk(s, req, d, u) && v in s.PeersOf(u) && u !in s.holders
    ensures Walk(s, req, d + 1, v)
  {
  }

  lemma DetourWalk(s: State, req: Request)
    requires s.peers == Detour && s.holders == {} && req.requester == "r"
    ensures Walk(s, req, 4, "q")
  {
    assert Walk(s, req, 0, "r");
    hide Walk;
    WalkOn(s, req, 0, "r", "m");
    WalkOn(s, req, 1, "m", "n");
    WalkOn(s, req, 2, "n", "o");
    WalkOn(s, req, 3, "o", "q");
  }

  lemma DetourSmall(n: Node)
    ensures n in Detour ==> |Detour[n]| <= 3
  {
  }

  lemma DetourDegree(s: State)
    requires s.peers == Detour
    ensures SmallDegree(s)
  {
    forall m, n | n in s.PeersOf(m)
      ensures |s.PeersOf(n) - {m}| <= FANOUT
    {
      SubsetSize(s.PeersOf(n) - {m}, s.PeersOf(n));
      DetourSmall(n);
      hide Detour;
    }
  }

  lemma OvertakenOutcome(req: Request)
    ensures var run := Overtaken(req);
      && |run.states| == |run.labels| + 1
      && (forall n :: 0 <= n < |run.labels| ==> run.labels[n].Deliver?)
      && run.states[0].peers == Detour && run.states[0].holders == {}
      && run.states[|run.labels|].net == [] && "q" !in run.states[|run.labels|].seen
  {
  }

  /** Completeness needs the synchronous rounds: here every message is delivered, nothing is forgotten and
      the network stands still, and yet q, four edges from the requester, is never reached, because m accepts
      the copy that came the longer way and ignores the one with a hop more to go. */
  lemma OvertakingLosesNodes(req: Request)
    requires req.requester == "r"
    ensures var run := Overtaken(req);
      && run.Valid(req) && (forall n :: 0 <= n < |run.labels| ==> run.labels[n].Deliver?)
      && SmallDegree(run.states[0])
      && run.states[|run.labels|].net == []
      && Walk(run.states[0], req, DEFAULT_TTL + 1, "q")
      && "q" !in run.states[|run.labels|].seen
  {
    OvertakenValid(req);
    OvertakenOutcome(req);
    DetourDegree(Overtaken(req).states[0]);
    DetourWalk(Overtaken(req).states[0], req);
    hide *;
  }
}
