// internal/middleware/ratelimit.go: a sliding-window rate limiter with one window per peer.
// Times are integer ticks; the clock is a parameter of every call.
module RateLimit {
  type Peer = string

  /** peerWindow, as a value. */
  datatype Window = Window(requests: seq<int>, lastSeen: int)

  type Peers = map<Peer, Window>

  /** The times after the cutoff, in order. */
  function Recent(ts: seq<int>, cutoff: int): seq<int> {
    if ts == [] then []
    else
      var rest := Recent(ts[..|ts| - 1], cutoff);
      if ts[|ts| - 1] > cutoff then rest + [ts[|ts| - 1]] else rest
  }

  datatype Config = Config(limit: int, window: int, ttl: int)

  function Requests(peers: Peers, p: Peer): seq<int> {
    if p in peers then peers[p].requests else []
  }

  function Allowed(c: Config, peers: Peers, id: Peer, now: int): (Peers, bool) {
    var kept := Recent(Requests(peers, id), now - c.window);
    var ok := |kept| < c.limit;
    (peers[id := Window(if ok then kept + [now] else kept, now)], ok)
  }

  function Purged(c: Config, peers: Peers, now: int): Peers {
    map id | id in peers && now - peers[id].lastSeen <= c.ttl :: peers[id]
  }

  // ---------------------------------------------------------------- the limiter

  class PeerWindow {
    var requests: seq<int>
    var lastSeen: int

    constructor ()
      ensures requests == [] && lastSeen == 0
    {
      requests, lastSeen := [], 0;
    }

    /** Drops the old requests in place: the kept ones overwrite the front of the same storage while the
        rest of it is still being read. */
    method Compact(cutoff: int)
      modifies this`requests
      ensures requests == Recent(old(requests), cutoff)
    {
      ghost var all := requests;
      var n, kept := |requests|, 0;
      for i := 0 to n
        invariant |requests| == n && kept <= i
        invariant requests[..kept] == Recent(all[..i], cutoff)
        invariant requests[i..] == all[i..]
      {
        assert all[..i + 1][..i] == all[..i];
        var t := requests[i];
        assert t == requests[i..][0] == all[i];
        ghost var before := requests;
        if t > cutoff {
          requests := requests[kept := t];
          kept := kept + 1;
          assert requests[..kept] == before[..kept - 1] + [t];
        }
        assert requests[i + 1..] == before[i..][1..];
      }
      assert all[..n] == all;
      requests := requests[..kept];
    }

    /** The decision on one request, on the peer's own window. */
    method Admit(now: int, cutoff: int, limit: int) returns (ok: bool)
      modifies this
      ensures lastSeen == now
      ensures var kept := Recent(old(requests), cutoff);
        ok == (|kept| < limit) && requests == if ok then kept + [now] else kept
    {
      lastSeen := now;
      Compact(cutoff);
      if |requests| >= limit {
        return false;
      }
      requests := requests + [now];
      return true;
    }
  }

  class RateLimiter {
    var peers: map<Peer, PeerWindow>
    const config: Config

    /** No two peers share a window. */
    ghost predicate Valid()
      reads this
    {
      forall p, q :: p in peers && q in peers && p != q ==> peers[p] != peers[q]
    }

    ghost function View(): Peers
      reads this, peers.Values
    {
      map p | p in peers :: Window(peers[p].requests, peers[p].lastSeen)
    }

    constructor (config: Config)
      ensures Valid() && View() == map[] && this.config == config
    {
      this.config := config;
      peers := map[];
    }

    method WindowOf(id: Peer) returns (pw: PeerWindow)
      requires Valid()
      modifies this`peers
      ensures Valid() && id in peers && pw == peers[id]
      ensures id in old(peers) ==> peers == old(peers)
      ensures id !in old(peers) ==> peers == old(peers)[id := pw] && fresh(pw) && pw.requests == []
    {
      if id in peers {
        pw := peers[id];
      } else {
        pw := new PeerWindow();
        peers := peers[id := pw];
      }
    }

    method Allow(id: Peer, now: int) returns (ok: bool)
      requires Valid()
      modifies this, peers.Values
      ensures Valid() && fresh(peers.Values - old(peers.Values))
      ensures (View(), ok) == Allowed(config, old(View()), id, now)
      ensures id in peers && peers[id].lastSeen == now
    {
      hide Recent;
      var pw := WindowOf(id);
      ok := pw.Admit(now, now - config.window, config.limit);
      assert old(Requests(View(), id)) == if id in old(peers) then old(peers[id].requests) else [];
      OthersKept(id, pw);
      hide RateLimiter.View;
    }

    /** Only the given peer's window changed. */
    twostate lemma OthersKept(id: Peer, new pw: PeerWindow)
      requires Valid() && old(Valid()) && id in peers && peers[id] == pw
      requires id in old(peers) ==> peers == old(peers)
      requires id !in old(peers) ==> peers == old(peers)[id := pw]
      requires forall p :: p in old(peers) && p != id ==> unchanged(old(peers)[p])
      ensures View() == old(View())[id := Window(pw.requests, pw.lastSeen)]
    {
    }

    method Cleanup(now: int)
      requires Valid()
      modifies this`peers
      ensures Valid() && peers.Values <= old(peers.Values)
      ensures View() == Purged(config, old(View()), now)
      ensures forall p :: p in peers <==> p in old(peers) && now - old(peers)[p].lastSeen <= config.ttl
    {
      var rest := peers.Keys;
      while rest != {}
        invariant rest <= old(peers).Keys
        invariant forall p :: p in peers <==>
          p in old(peers) && (p in rest || now - old(peers)[p].lastSeen <= config.ttl)
        invariant forall p :: p in peers ==> peers[p] == old(peers)[p]
        decreases rest
      {
        var id :| id in rest;
        if now - peers[id].lastSeen > config.ttl {
          peers := peers - {id};
        }
        rest := rest - {id};
      }
    }
  }

  // ---------------------------------------------------------------- runs

  datatype Call = Allow(id: Peer, now: int) | Cleanup(now: int)

  /** The state after a run, and what each call answered (nothing, for a cleanup). */
  function Exec(c: Config, calls: seq<Call>): (r: (Peers, seq<bool>))
    ensures |r.1| == |calls|
  {
    if calls == [] then (map[], [])
    else
      var (peers, answers) := Exec(c, calls[..|calls| - 1]);
      match calls[|calls| - 1]
      case Allow(id, now) => var (peers', ok) := Allowed(c, peers, id, now); (peers', answers + [ok])
      case Cleanup(now) => (Purged(c, peers, now), answers + [false])
  }

  ghost predicate Sorted(ts: seq<int>) {
    forall i, j :: 0 <= i < j < |ts| ==> ts[i] <= ts[j]
  }

  ghost predicate Monotone(calls: seq<Call>) {
    forall i, j :: 0 <= i < j < |calls| ==> calls[i].now <= calls[j].now
  }

  /** When peer p asked. */
  function Arrivals(calls: seq<Call>, p: Peer): seq<int> {
    if calls == [] then []
    else
      var last, rest := calls[|calls| - 1], Arrivals(calls[..|calls| - 1], p);
      if last.Allow? && last.id == p then rest + [last.now] else rest
  }

  /** What peer p was answered. */
  function Answers(calls: seq<Call>, answers: seq<bool>, p: Peer): (r: seq<bool>)
    requires |calls| == |answers|
    ensures |r| == |Arrivals(calls, p)|
  {
    if calls == [] then []
    else
      var last, rest := calls[|calls| - 1], Answers(calls[..|calls| - 1], answers[..|calls| - 1], p);
      if last.Allow? && last.id == p then rest + [answers[|calls| - 1]] else rest
  }

  /** The times at which a schedule accepts. */
  function Picked(arrivals: seq<int>, schedule: seq<bool>): seq<int>
    requires |arrivals| == |schedule|
  {
    if arrivals == [] then []
    else
      var n := |arrivals| - 1;
      var rest := Picked(arrivals[..n], schedule[..n]);
      if schedule[n] then rest + [arrivals[n]] else rest
  }

  /** The specification of the limiter for one peer, on the full history: accept exactly when fewer than
      `limit` requests were accepted within the window. */
  function Greedy(limit: int, window: int, arrivals: seq<int>): (r: seq<bool>)
    ensures |r| == |arrivals|
  {
    if arrivals == [] then []
    else
      var n := |arrivals| - 1;
      var rest := Greedy(limit, window, arrivals[..n]);
      rest + [|Recent(Picked(arrivals[..n], rest), arrivals[n] - window)| < limit]
  }

  // ---------------------------------------------------------------- facts about Recent

  ghost predicate AtMost(ts: seq<int>, hi: int) {
    forall i :: 0 <= i < |ts| ==> ts[i] <= hi
  }

  lemma {:induction false} RecentAppend(ts: seq<int>, t: int, cutoff: int)
    ensures Recent(ts + [t], cutoff) == if t > cutoff then Recent(ts, cutoff) + [t] else Recent(ts, cutoff)
  {
    assert (ts + [t])[..|ts|] == ts;
  }

  lemma {:induction false} RecentTwice(ts: seq<int>, c: int, d: int)
    requires c <= d
    ensures Recent(Recent(ts, c), d) == Recent(ts, d)
  {
    if ts != [] {
      var init := ts[..|ts| - 1];
      RecentTwice(init, c, d);
      RecentAppend(Recent(init, c), ts[|ts| - 1], d);
    }
  }

  lemma {:induction false} RecentNone(ts: seq<int>, cutoff: int)
    requires AtMost(ts, cutoff)
    ensures Recent(ts, cutoff) == []
  {
    if ts != [] {
      RecentNone(ts[..|ts| - 1], cutoff);
    }
  }

  lemma {:induction false} RecentShrinks(ts: seq<int>, c: int, d: int)
    requires c <= d
    ensures |Recent(ts, d)| <= |Recent(ts, c)|
  {
    if ts != [] {
      RecentShrinks(ts[..|ts| - 1], c, d);
    }
  }

  lemma {:induction false} ArrivalsBounded(calls: seq<Call>, p: Peer, clock: int)
    requires forall i :: 0 <= i < |calls| ==> calls[i].now <= clock
    ensures AtMost(Arrivals(calls, p), clock)
  {
    if calls != [] {
      ArrivalsBounded(calls[..|calls| - 1], p, clock);
    }
  }

  lemma SortedAppend(ts: seq<int>, t: int)
    requires Sorted(ts) && AtMost(ts, t)
    ensures Sorted(ts + [t])
  {
  }

  lemma {:induction false} ArrivalsSorted(calls: seq<Call>, p: Peer)
    requires Monotone(calls)
    ensures Sorted(Arrivals(calls, p))
  {
    if calls != [] {
      ArrivalsSorted(calls[..|calls| - 1], p);
      ArrivalsBounded(calls[..|calls| - 1], p, calls[|calls| - 1].now);
      SortedAppend(Arrivals(calls[..|calls| - 1], p), calls[|calls| - 1].now);
    }
  }

  lemma {:induction false} PickedAtMost(arrivals: seq<int>, schedule: seq<bool>, hi: int)
    requires |arrivals| == |schedule| && AtMost(arrivals, hi)
    ensures AtMost(Picked(arrivals, schedule), hi)
  {
    if arrivals != [] {
      PickedAtMost(arrivals[..|arrivals| - 1], schedule[..|arrivals| - 1], hi);
    }
  }

  // ---------------------------------------------------------------- the table refines the full history

  /** The accepts of p in a run. */
  function Accepts(c: Config, calls: seq<Call>, p: Peer): seq<int> {
    Picked(Arrivals(calls, p), Answers(calls, Exec(c, calls).1, p))
  }

  /** What the table keeps of p is enough: within the window it agrees with p's whole history. */
  ghost predicate Agrees(c: Config, peers: Peers, p: Peer, history: seq<int>, clock: int) {
    && Recent(Requests(peers, p), clock - c.window) == Recent(history, clock - c.window)
    && (p in peers ==> AtMost(history, peers[p].lastSeen))
  }

  lemma AgreesLater(c: Config, peers: Peers, p: Peer, history: seq<int>, clock: int, now: int)
    requires Agrees(c, peers, p, history, clock) && clock <= now
    ensures Agrees(c, peers, p, history, now)
  {
    RecentTwice(Requests(peers, p), clock - c.window, now - c.window);
    RecentTwice(history, clock - c.window, now - c.window);
  }

  lemma RecentKept(history: seq<int>, now: int, cutoff: int)
    ensures var kept := Recent(history, cutoff);
      && Recent(kept, cutoff) == kept
      && Recent(kept + [now], cutoff) == Recent(history + [now], cutoff)
  {
    RecentTwice(history, cutoff, cutoff);
    RecentAppend(Recent(history, cutoff), now, cutoff);
    RecentAppend(history, now, cutoff);
  }

  lemma AgreesAllow(c: Config, peers: Peers, p: Peer, history: seq<int>, now: int)
    requires Agrees(c, peers, p, history, now) && AtMost(history, now)
    ensures var (after, ok) := Allowed(c, peers, p, now);
      && ok == (|Recent(history, now - c.window)| < c.limit)
      && Agrees(c, after, p, if ok then history + [now] else history, now)
  {
    hide Recent;
    var kept := Recent(history, now - c.window);
    RecentKept(history, now, now - c.window);
    var (after, ok) := Allowed(c, peers, p, now);
    assert after[p] == Window(if ok then kept + [now] else kept, now);
  }

  /** A peer is kept until all its accepts have left the window (times are whole ticks), or there is nothing
      to keep. */
  predicate KeptLongEnough(c: Config) {
    c.window <= c.ttl + 1 || c.window <= 0 || c.limit <= 0
  }

  lemma AgreesCleanup(c: Config, peers: Peers, p: Peer, history: seq<int>, now: int)
    requires Agrees(c, peers, p, history, now) && AtMost(history, now)
    requires KeptLongEnough(c) && (c.limit <= 0 ==> history == [])
    ensures Agrees(c, Purged(c, peers, now), p, history, now)
  {
    if p in peers && p !in Purged(c, peers, now) {
      RecentNone(history, now - c.window);
    }
  }

  lemma {:induction false} GreedyNone(limit: int, window: int, arrivals: seq<int>)
    requires limit <= 0
    ensures Picked(arrivals, Greedy(limit, window, arrivals)) == []
  {
    if arrivals != [] {
      var n := |arrivals| - 1;
      GreedyNone(limit, window, arrivals[..n]);
      GreedyPrefix(limit, window, arrivals, n);
    }
  }

  /** One more call, as p's history sees it. */
  lemma HistoryStep(c: Config, init: seq<Call>, last: Call, p: Peer)
    ensures var calls := init + [last];
      var (peers, answers) := Exec(c, init);
      if last == Allow(p, last.now) then
        var (after, ok) := Allowed(c, peers, p, last.now);
        && Exec(c, calls) == (after, answers + [ok])
        && Arrivals(calls, p) == Arrivals(init, p) + [last.now]
        && Answers(calls, Exec(c, calls).1, p) == Answers(init, answers, p) + [ok]
      else
        && Exec(c, calls).0 == (if last.Allow? then Allowed(c, peers, last.id, last.now).0
                                else Purged(c, peers, last.now))
        && Arrivals(calls, p) == Arrivals(init, p)
        && Answers(calls, Exec(c, calls).1, p) == Answers(init, answers, p)
  {
    var calls := init + [last];
    assert calls[..|calls| - 1] == init;
    assert Exec(c, calls).1[..|init|] == Exec(c, init).1;
  }

  lemma PickedStep(arrivals: seq<int>, schedule: seq<bool>, t: int, ok: bool)
    requires |arrivals| == |schedule|
    ensures Picked(arrivals + [t], schedule + [ok])
         == if ok then Picked(arrivals, schedule) + [t] else Picked(arrivals, schedule)
  {
    assert (arrivals + [t])[..|arrivals|] == arrivals && (schedule + [ok])[..|arrivals|] == schedule;
  }

  lemma GreedyStep(limit: int, window: int, arrivals: seq<int>, t: int)
    ensures var rest := Greedy(limit, window, arrivals);
      Greedy(limit, window, arrivals + [t])
      == rest + [|Recent(Picked(arrivals, rest), t - window)| < limit]
  {
    assert (arrivals + [t])[..|arrivals|] == arrivals;
  }

  lemma AcceptsBounded(c: Config, calls: seq<Call>, p: Peer, clock: int)
    requires forall i :: 0 <= i < |calls| ==> calls[i].now <= clock
    ensures AtMost(Accepts(c, calls, p), clock)
  {
    ArrivalsBounded(calls, p, clock);
    PickedAtMost(Arrivals(calls, p), Answers(calls, Exec(c, calls).1, p), clock);
  }

  lemma AgreesOther(c: Config, peers: Peers, p: Peer, history: seq<int>, id: Peer, now: int)
    requires Agrees(c, peers, p, history, now) && id != p
    ensures Agrees(c, Allowed(c, peers, id, now).0, p, history, now)
  {
  }

  /** The table agrees with p's history, and p was answered as the specification says. */
  ghost predicate Refined(c: Config, calls: seq<Call>, p: Peer, clock: int) {
    && Answers(calls, Exec(c, calls).1, p) == Greedy(c.limit, c.window, Arrivals(calls, p))
    && Agrees(c, Exec(c, calls).0, p, Accepts(c, calls, p), clock)
  }

  lemma RefinedAllow(c: Config, init: seq<Call>, p: Peer, now: int)
    requires Refined(c, init, p, now) && forall i :: 0 <= i < |init| ==> init[i].now <= now
    ensures Refined(c, init + [Allow(p, now)], p, now)
  {
    hide Recent, Exec, Arrivals, Answers, Greedy, Picked, Allowed;
    var (peers, answers) := Exec(c, init);
    var arrivals := Arrivals(init, p);
    HistoryStep(c, init, Allow(p, now), p);
    AcceptsBounded(c, init, p, now);
    AgreesAllow(c, peers, p, Accepts(c, init, p), now);
    GreedyStep(c.limit, c.window, arrivals, now);
    PickedStep(arrivals, Answers(init, answers, p), now, Allowed(c, peers, p, now).1);
  }

  lemma RefinedStep(c: Config, init: seq<Call>, last: Call, p: Peer)
    requires KeptLongEnough(c) && Refined(c, init, p, last.now)
    requires forall i :: 0 <= i < |init| ==> init[i].now <= last.now
    ensures Refined(c, init + [last], p, last.now)
  {
    if last == Allow(p, last.now) {
      RefinedAllow(c, init, p, last.now);
    } else {
      HistoryStep(c, init, last, p);
      if last.Cleanup? {
        AcceptsBounded(c, init, p, last.now);
        if c.limit <= 0 {
          GreedyNone(c.limit, c.window, Arrivals(init, p));
        }
        AgreesCleanup(c, Exec(c, init).0, p, Accepts(c, init, p), last.now);
      } else {
        AgreesOther(c, Exec(c, init).0, p, Accepts(c, init, p), last.id, last.now);
      }
    }
  }

  /** Over any interleaving of peers' requests and cleanups, what p is answered depends only on p's own
      arrivals, and is what the full-history specification says. */
  lemma {:induction false} RefinesHistory(c: Config, calls: seq<Call>, p: Peer, clock: int)
    requires KeptLongEnough(c) && Monotone(calls)
    requires forall i :: 0 <= i < |calls| ==> calls[i].now <= clock
    ensures Answers(calls, Exec(c, calls).1, p) == Greedy(c.limit, c.window, Arrivals(calls, p))
    ensures Refined(c, calls, p, clock)
    decreases |calls|
  {
    hide Exec, Arrivals, Answers, Greedy, Picked, Agrees, KeptLongEnough;
    if calls == [] {
      RefinedStart(c, p, clock);
    } else {
      var init, last := calls[..|calls| - 1], calls[|calls| - 1];
      RefinesHistory(c, init, p, last.now);
      RefinedStep(c, init, last, p);
      assert calls == init + [last];
      AgreesLater(c, Exec(c, calls).0, p, Accepts(c, calls, p), last.now, clock);
    }
  }

  lemma RefinedStart(c: Config, p: Peer, clock: int)
    ensures Refined(c, [], p, clock)
  {
  }

  // ---------------------------------------------------------------- every window holds at most `limit` accepts

  /** The times in the half-open window (lo, hi]. */
  function Within(ts: seq<int>, lo: int, hi: int): seq<int> {
    if ts == [] then []
    else
      var rest := Within(ts[..|ts| - 1], lo, hi);
      if lo < ts[|ts| - 1] <= hi then rest + [ts[|ts| - 1]] else rest
  }

  lemma {:induction false} WithinRecent(ts: seq<int>, lo: int, hi: int)
    ensures |Within(ts, lo, hi)| <= |Recent(ts, lo)|
    ensures AtMost(ts, hi) ==> Within(ts, lo, hi) == Recent(ts, lo)
  {
    if ts != [] {
      WithinRecent(ts[..|ts| - 1], lo, hi);
    }
  }

  /** How many of the times fall in the half-open window of the given length that ends at `end`. */
  function InWindow(ts: seq<int>, window: int, end: int): nat {
    |Within(ts, end - window, end)|
  }

  lemma InWindowAppend(ts: seq<int>, t: int, window: int, end: int)
    ensures InWindow(ts + [t], window, end) == InWindow(ts, window, end) + if end - window < t <= end then 1 else 0
  {
    assert (ts + [t])[..|ts|] == ts;
  }

  lemma NoneInWindow(limit: int, window: int, end: int)
    ensures Greedy(limit, window, []) == [] && Picked([], []) == [] && InWindow([], window, end) == 0
  {
  }

  lemma {:induction false} WindowBound(limit: nat, window: int, arrivals: seq<int>, end: int)
    requires Sorted(arrivals)
    ensures InWindow(Picked(arrivals, Greedy(limit, window, arrivals)), window, end) <= limit
  {
    hide Greedy, Picked, Recent, Within;
    if arrivals == [] {
      NoneInWindow(limit, window, end);
    } else {
      var init, t := arrivals[..|arrivals| - 1], arrivals[|arrivals| - 1];
      assert arrivals == init + [t];
      var greedy := Greedy(limit, window, init);
      var history := Picked(init, greedy);
      WindowBound(limit, window, init, end);
      GreedyStep(limit, window, init, t);
      PickedStep(init, greedy, t, |Recent(history, t - window)| < limit);
      InWindowAppend(history, t, window, end);
      if end - window < t <= end {
        WithinRecent(history, end - window, end);
        RecentShrinks(history, t - window, end - window);
      }
    }
  }

  /** In any run, no window of the configured length, ending at any instant, holds more than `limit`
      accepts of one peer. */
  lemma RunWindowBound(c: Config, calls: seq<Call>, p: Peer, end: int)
    requires KeptLongEnough(c) && Monotone(calls)
    ensures InWindow(Accepts(c, calls, p), c.window, end) <= if c.limit < 0 then 0 else c.limit
  {
    RefinesHistory(c, calls, p, if calls == [] then 0 else calls[|calls| - 1].now);
    if c.limit < 0 {
      GreedyNone(c.limit, c.window, Arrivals(calls, p));
      return;
    }
    ArrivalsSorted(calls, p);
    WindowBound(c.limit, c.window, Arrivals(calls, p), end);
  }

  // ---------------------------------------------------------------- when cleanups are too eager

  /** Time after which a cleanup drops a peer. */
  function Forgotten(c: Config): int {
    if c.ttl < 0 then 0 else c.ttl + 1
  }

  /** As many requests at once as are accepted, a cleanup as soon as it has an effect, and one more request. */
  function Burst(c: Config, p: Peer): seq<Call>
    requires c.limit > 0
  {
    Requested(p, c.limit) + [Cleanup(Forgotten(c))] + [Allow(p, Forgotten(c))]
  }

  function Requested(p: Peer, k: nat): seq<Call> {
    seq(k, _ => Allow(p, 0))
  }

  function Trues(k: nat): (r: seq<bool>)
    ensures |r| == k
  {
    seq(k, _ => true)
  }

  function Zeros(k: nat): seq<int> {
    seq(k, _ => 0)
  }

  lemma {:induction false} AllRecent(k: nat, cutoff: int)
    ensures Recent(Zeros(k), cutoff) == if cutoff < 0 then Zeros(k) else []
  {
    if k > 0 {
      assert Zeros(k)[..k - 1] == Zeros(k - 1);
      AllRecent(k - 1, cutoff);
      assert Zeros(k) == Zeros(k - 1) + [0];
    }
  }

  lemma Longer(p: Peer, k: nat)
    ensures Requested(p, 0) == [] && Zeros(0) == [] && Trues(0) == []
    ensures Requested(p, k + 1) == Requested(p, k) + [Allow(p, 0)]
    ensures Zeros(k + 1) == Zeros(k) + [0] && Trues(k + 1) == Trues(k) + [true]
  {
  }

  /** What the table holds after k requests of p at time 0. */
  function After(p: Peer, k: nat): Peers {
    if k == 0 then map[] else map[p := Window(Zeros(k), 0)]
  }

  lemma NoneAccepted(c: Config, p: Peer)
    ensures Exec(c, Requested(p, 0)) == (After(p, 0), Trues(0))
    ensures Arrivals(Requested(p, 0), p) == Zeros(0)
    ensures Answers(Requested(p, 0), Exec(c, Requested(p, 0)).1, p) == Trues(0)
  {
    Longer(p, 0);
  }

  lemma {:induction false} AllAccepted(c: Config, p: Peer, k: nat)
    requires k <= c.limit && 0 < c.window
    ensures Exec(c, Requested(p, k)) == (After(p, k), Trues(k))
    ensures Arrivals(Requested(p, k), p) == Zeros(k)
    ensures Answers(Requested(p, k), Exec(c, Requested(p, k)).1, p) == Trues(k)
  {
    hide Requested, Zeros, Trues, Exec, Arrivals, Answers, Allowed, After;
    if k == 0 {
      NoneAccepted(c, p);
    } else {
      AllAccepted(c, p, k - 1);
      Longer(p, k - 1);
      HistoryStep(c, Requested(p, k - 1), Allow(p, 0), p);
      AcceptedAtOnce(c, p, k - 1);
    }
  }

  lemma AcceptedAtOnce(c: Config, p: Peer, k: nat)
    requires k < c.limit && 0 < c.window
    ensures Allowed(c, After(p, k), p, 0) == (After(p, k + 1), true)
  {
    AllRecent(k, -c.window);
    Longer(p, k);
    assert Requests(After(p, k), p) == Zeros(k);
    hide Zeros, Recent;
    assert After(p, k)[p := Window(Zeros(k + 1), 0)] == After(p, k + 1);
  }

  /** The cleanup drops the peer, so that the last request is accepted too. */
  lemma BurstAnswers(c: Config, p: Peer)
    requires !KeptLongEnough(c)
    ensures var calls, g := Burst(c, p), Forgotten(c);
      && Exec(c, calls).1 == Trues(c.limit) + [false] + [true]
      && Arrivals(calls, p) == Zeros(c.limit) + [g]
      && Answers(calls, Exec(c, calls).1, p) == Trues(c.limit) + [true]
  {
    var k, g := c.limit, Forgotten(c);
    var asked := Requested(p, k);
    AllAccepted(c, p, k);
    AcceptedAfresh(c, p, k, g);
    hide Allowed, Purged, Exec, Arrivals, Answers, Zeros, Trues, Requested, After;
    HistoryStep(c, asked, Cleanup(g), p);
    HistoryStep(c, asked + [Cleanup(g)], Allow(p, g), p);
    ExecLast(c, asked, Cleanup(g));
  }

  lemma AcceptedAfresh(c: Config, p: Peer, k: nat, g: int)
    requires g > c.ttl && c.limit > 0
    ensures Purged(c, After(p, k), g) == map[]
    ensures Allowed(c, map[], p, g).1
  {
    assert Requests(map[], p) == [];
  }

  lemma ExecLast(c: Config, init: seq<Call>, last: Call)
    ensures last.Cleanup? ==> Exec(c, init + [last]).1 == Exec(c, init).1 + [false]
  {
    assert (init + [last])[..|init|] == init;
  }

  /** With any other configuration, a cleanup can forget accepts that still count: this run is not answered
      as the peer's history demands, and puts limit + 1 accepts into one window. */
  lemma CleanupForgets(c: Config, p: Peer)
    requires !KeptLongEnough(c)
    ensures var calls := Burst(c, p);
      && Monotone(calls)
      && Exec(c, calls).1 == Trues(c.limit) + [false] + [true]
      && Answers(calls, Exec(c, calls).1, p) != Greedy(c.limit, c.window, Arrivals(calls, p))
      && InWindow(Accepts(c, calls, p), c.window, Forgotten(c)) == c.limit + 1
  {
    BurstAnswers(c, p);
    BurstSorted(c, p);
    OverfullWindow(c.limit, c.window, Forgotten(c));
    var arrivals, answers := Zeros(c.limit) + [Forgotten(c)], Trues(c.limit) + [true];
    hide Exec, Arrivals, Answers, Zeros, Trues, Burst, Picked, Greedy, Monotone, Sorted, InWindow;
    if answers == Greedy(c.limit, c.window, arrivals) {
      WindowBound(c.limit, c.window, arrivals, Forgotten(c));
    }
  }

  lemma OverfullWindow(k: nat, window: int, g: int)
    requires 0 <= g < window
    ensures InWindow(Picked(Zeros(k) + [g], Trues(k) + [true]), window, g) == k + 1
  {
    AllPicked(k);
    AllRecent(k, g - window);
    assert AtMost(Zeros(k), g) && |Zeros(k)| == k;
    hide Zeros, Trues, Picked, Recent, Within;
    PickedStep(Zeros(k), Trues(k), g, true);
    InWindowAppend(Zeros(k), g, window, g);
    WithinRecent(Zeros(k), g - window, g);
  }

  lemma BurstSorted(c: Config, p: Peer)
    requires c.limit > 0
    ensures Monotone(Burst(c, p)) && Sorted(Zeros(c.limit) + [Forgotten(c)])
  {
  }

  lemma {:induction false} AllPicked(k: nat)
    ensures Picked(Zeros(k), Trues(k)) == Zeros(k)
  {
    if k > 0 {
      assert Zeros(k)[..k - 1] == Zeros(k - 1) && Trues(k)[..k - 1] == Trues(k - 1);
      AllPicked(k - 1);
      assert Zeros(k) == Zeros(k - 1) + [0];
    }
  }

  ghost predicate AlwaysRefines(c: Config) {
    forall calls: seq<Call>, p: Peer :: Monotone(calls) ==>
      Answers(calls, Exec(c, calls).1, p) == Greedy(c.limit, c.window, Arrivals(calls, p))
  }

  /** So the limiter answers every run from full history exactly in these configurations. */
  lemma RefinesExactly(c: Config)
    ensures AlwaysRefines(c) <==> KeptLongEnough(c)
  {
    hide KeptLongEnough;
    if KeptLongEnough(c) {
      forall calls: seq<Call>, p: Peer | Monotone(calls)
        ensures Answers(calls, Exec(c, calls).1, p) == Greedy(c.limit, c.window, Arrivals(calls, p))
      {
        RefinesHistory(c, calls, p, if calls == [] then 0 else calls[|calls| - 1].now);
      }
    } else {
      CleanupForgets(c, "");
    }
  }

  // ---------------------------------------------------------------- no valid schedule accepts more

  /** How many of the sorted arrivals are not after the cutoff. */
  function Before(arrivals: seq<int>, cutoff: int): (m: nat)
    ensures m <= |arrivals|
  {
    if arrivals == [] then 0
    else if arrivals[|arrivals| - 1] <= cutoff then |arrivals|
    else Before(arrivals[..|arrivals| - 1], cutoff)
  }

  /** Accepts up to a cutoff are the accepts of the arrivals up to it. */
  lemma {:induction false} SplitAtCutoff(arrivals: seq<int>, schedule: seq<bool>, cutoff: int)
    requires |arrivals| == |schedule| && Sorted(arrivals)
    ensures var m := Before(arrivals, cutoff);
      |Picked(arrivals, schedule)|
      == |Picked(arrivals[..m], schedule[..m])| + |Recent(Picked(arrivals, schedule), cutoff)|
  {
    if arrivals != [] {
      var n := |arrivals| - 1;
      var m := Before(arrivals, cutoff);
      var accepted := Picked(arrivals, schedule);
      if arrivals[n] <= cutoff {
        assert arrivals[..m] == arrivals && schedule[..m] == schedule;
        PickedAtMost(arrivals, schedule, cutoff);
        RecentNone(accepted, cutoff);
      } else {
        SplitAtCutoff(arrivals[..n], schedule[..n], cutoff);
        assert arrivals[..n][..m] == arrivals[..m] && schedule[..n][..m] == schedule[..m];
        RecentAppend(Picked(arrivals[..n], schedule[..n]), arrivals[n], cutoff);
      }
    }
  }

  lemma {:induction false} GreedyPrefix(limit: int, window: int, arrivals: seq<int>, n: nat)
    requires n <= |arrivals|
    ensures Greedy(limit, window, arrivals)[..n] == Greedy(limit, window, arrivals[..n])
  {
    if n < |arrivals| {
      GreedyPrefix(limit, window, arrivals[..|arrivals| - 1], n);
      assert arrivals[..|arrivals| - 1][..n] == arrivals[..n];
    } else {
      assert arrivals[..n] == arrivals;
    }
  }

  /** A schedule that keeps the limit in every window. */
  ghost predicate KeepsLimit(limit: int, window: int, arrivals: seq<int>, schedule: seq<bool>)
    requires |arrivals| == |schedule|
  {
    forall end :: InWindow(Picked(arrivals, schedule), window, end) <= limit
  }

  lemma {:induction false} KeepsLimitPrefix(limit: int, window: int, arrivals: seq<int>, schedule: seq<bool>)
    requires |arrivals| == |schedule| > 0 && KeepsLimit(limit, window, arrivals, schedule)
    ensures KeepsLimit(limit, window, arrivals[..|arrivals| - 1], schedule[..|arrivals| - 1])
  {
    var n := |arrivals| - 1;
    var less := Picked(arrivals[..n], schedule[..n]);
    forall end
      ensures InWindow(less, window, end) <= limit
    {
      InWindowAppend(less, arrivals[n], window, end);
      assert InWindow(Picked(arrivals, schedule), window, end) <= limit;
    }
  }

  /** The limiter is optimal: whatever the arrivals, no schedule that keeps the limit in every window has
      accepted more after any number of arrivals, so its k-th accept never comes earlier. (NotOptimal below
      shows that an empty window with limit 0 is the one exception.) */
  lemma {:induction false} Optimal(limit: int, window: int, arrivals: seq<int>, schedule: seq<bool>, n: nat)
    requires (0 < window || limit != 0) && Sorted(arrivals) && n <= |arrivals| == |schedule|
    requires KeepsLimit(limit, window, arrivals, schedule)
    ensures |Picked(arrivals[..n], schedule[..n])|
         <= |Picked(arrivals[..n], Greedy(limit, window, arrivals)[..n])|
    decreases |arrivals|, n
  {
    GreedyPrefix(limit, window, arrivals, n);
    if n < |arrivals| {
      var k := |arrivals| - 1;
      KeepsLimitPrefix(limit, window, arrivals, schedule);
      Optimal(limit, window, arrivals[..k], schedule[..k], n);
      GreedyPrefix(limit, window, arrivals[..k], n);
      assert arrivals[..k][..n] == arrivals[..n] && schedule[..k][..n] == schedule[..n];
    } else if n > 0 {
      OptimalLast(limit, window, arrivals, schedule);
      assert arrivals[..n] == arrivals && schedule[..n] == schedule;
    }
  }

  lemma {:induction false} OptimalLast(limit: int, window: int, arrivals: seq<int>, schedule: seq<bool>)
    requires (0 < window || limit != 0) && Sorted(arrivals) && 0 < |arrivals| == |schedule|
    requires KeepsLimit(limit, window, arrivals, schedule)
    ensures |Picked(arrivals, schedule)| <= |Picked(arrivals, Greedy(limit, window, arrivals))|
    decreases |arrivals|, 0
  {
    hide KeepsLimit, InWindow, Within, Before, Recent, Picked, Greedy;
    var k := |arrivals| - 1;
    var init, t, less := arrivals[..k], arrivals[k], schedule[..k];
    var greedy := Greedy(limit, window, init);
    var ok := |Recent(Picked(init, greedy), t - window)| < limit;
    assert arrivals == init + [t] && schedule == less + [schedule[k]];
    GreedyStep(limit, window, init, t);
    PickedStep(init, less, t, schedule[k]);
    PickedStep(init, greedy, t, ok);
    KeepsLimitPrefix(limit, window, arrivals, schedule);
    Optimal(limit, window, init, less, k);
    assert init[..k] == init && less[..k] == less && greedy[..k] == greedy;
    if limit != 0 {
      AcceptsInEmptyWindow(limit, window, arrivals, schedule);
    }
    if !ok {
      var m := Before(init, t - window);
      Optimal(limit, window, init, less, m);
      assert init[..m] == arrivals[..m] && less[..m] == schedule[..m];
      RejectedLast(limit, window, arrivals, schedule);
    }
  }

  lemma AcceptsInEmptyWindow(limit: int, window: int, arrivals: seq<int>, schedule: seq<bool>)
    requires Sorted(arrivals) && 0 < |arrivals| == |schedule| && limit != 0
    requires KeepsLimit(limit, window, arrivals, schedule)
    ensures window <= 0 ==> Greedy(limit, window, arrivals)[|arrivals| - 1]
  {
    var k := |arrivals| - 1;
    var t, greedy := arrivals[k], Greedy(limit, window, arrivals[..k]);
    assert InWindow(Picked(arrivals, schedule), window, t) <= limit;
    if window <= 0 {
      PickedAtMost(arrivals[..k], greedy, t);
      RecentNone(Picked(arrivals[..k], greedy), t - window);
    }
  }

  /** A request is rejected only when the window is full: a schedule that was not ahead before the window
      opened cannot be ahead now. */
  lemma RejectedLast(limit: int, window: int, arrivals: seq<int>, schedule: seq<bool>)
    requires 0 < window && Sorted(arrivals) && 0 < |arrivals| == |schedule|
    requires KeepsLimit(limit, window, arrivals, schedule)
    requires var k := |arrivals| - 1;
      var greedy := Greedy(limit, window, arrivals[..k]);
      var m := Before(arrivals[..k], arrivals[k] - window);
      && |Recent(Picked(arrivals[..k], greedy), arrivals[k] - window)| >= limit
      && |Picked(arrivals[..m], schedule[..m])| <= |Picked(arrivals[..k][..m], greedy[..m])|
    ensures var k := |arrivals| - 1;
      |Picked(arrivals, schedule)| <= |Picked(arrivals[..k], Greedy(limit, window, arrivals[..k]))|
  {
    var k := |arrivals| - 1;
    var t := arrivals[k];
    LastWindow(limit, window, arrivals, schedule);
    hide Recent, Picked, Greedy, Before, InWindow, Within, KeepsLimit;
    BeforeLast(arrivals, t - window);
    SplitAtCutoff(arrivals[..k], Greedy(limit, window, arrivals[..k]), t - window);
    SplitAtCutoff(arrivals, schedule, t - window);
  }

  /** The accepts after the cutoff of the last arrival are those in the window that ends there. */
  lemma LastWindow(limit: int, window: int, arrivals: seq<int>, schedule: seq<bool>)
    requires Sorted(arrivals) && 0 < |arrivals| == |schedule| && KeepsLimit(limit, window, arrivals, schedule)
    ensures |Recent(Picked(arrivals, schedule), arrivals[|arrivals| - 1] - window)| <= limit
  {
    var t, accepted := arrivals[|arrivals| - 1], Picked(arrivals, schedule);
    assert InWindow(accepted, window, t) <= limit;
    PickedAtMost(arrivals, schedule, t);
    hide Recent, Within, Picked;
    WithinRecent(accepted, t - window, t);
  }

  lemma BeforeLast(arrivals: seq<int>, cutoff: int)
    requires 0 < |arrivals| && cutoff < arrivals[|arrivals| - 1]
    ensures var k := |arrivals| - 1;
      Before(arrivals, cutoff) == Before(arrivals[..k], cutoff)
      && arrivals[..k][..Before(arrivals, cutoff)] == arrivals[..Before(arrivals, cutoff)]
  {
  }

  /** A window of no length never holds an accept, so with limit 0 any schedule keeps the limit, while the
      limiter rejects everything. */
  lemma NotOptimal(window: int, t: int)
    requires window <= 0
    ensures KeepsLimit(0, window, [t], [true])
    ensures |Picked([t], [true])| > |Picked([t], Greedy(0, window, [t]))|
  {
    assert [t] == [] + [t] && [true] == [] + [true];
    assert Picked([], []) == [] && Greedy(0, window, []) == [] && InWindow([], window, 0) == 0;
    PickedStep([], [], t, true);
    PickedStep([], [], t, false);
    GreedyStep(0, window, [], t);
    hide Picked, Greedy, Recent, Within;
    forall end
      ensures InWindow([t], window, end) <= 0
    {
      EmptyWindow(t, window, end);
    }
  }

  lemma EmptyWindow(t: int, window: int, end: int)
    requires window <= 0
    ensures InWindow([t], window, end) == 0
  {
    InWindowAppend([], t, window, end);
    assert [] + [t] == [t];
  }
}
