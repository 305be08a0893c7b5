// internal/event/event.go: the in-process event bus, as a concurrent step system. Publishers hold the read
// lock from Begin to End and send to one subscriber after another; Subscribe and Unsubscribe need the write
// lock, so they happen only while no publisher is active.
module EventBus {
  import opened Bytes

  type EventType = string
  type Channel = nat
  type Publisher = nat

  /** The buffer of every subscriber channel. */
  const CAPACITY: nat := 10

  datatype Event = Event(kind: EventType, data: string)

  /** An event in a channel, tagged with who published it and as which of its publications. */
  datatype Message = Message(publisher: Publisher, number: nat, event: Event)

  function Get<K, V>(m: map<K, V>, k: K, default: V): V {
    if k in m then m[k] else default
  }

  // ---------------------------------------------------------------- the subscriber table

  function Without(channels: seq<Channel>, ch: Channel): seq<Channel> {
    if channels == [] then []
    else if channels[0] == ch then channels[1..]
    else [channels[0]] + Without(channels[1..], ch)
  }

  /** `after` is `before` with one occurrence of ch taken out, and everything else left in its place. */
  ghost predicate LeftBy(before: seq<Channel>, after: seq<Channel>, ch: Channel) {
    exists i :: 0 <= i < |before| && before[i] == ch && after == before[..i] + before[i + 1..]
  }

  /** The part of the bus that the write lock protects. */
  class Bus {
    var subscribers: map<EventType, seq<Channel>>
    var closed: set<Channel>
    var made: nat

    /** The step system, in a state with this table. */
    ghost predicate Shows(s: State)
      reads this
    {
      s.subscribers == subscribers && s.closed == closed && s.made == made
    }

    /** The table is one that the step system can have while nobody holds the read lock. */
    ghost predicate Valid()
      reads this
    {
      exists s :: Shape(s) && s.active == map[] && Shows(s)
    }

    constructor ()
      ensures subscribers == map[] && closed == {} && made == 0 && Valid() && Shows(Initial)
    {
      subscribers, closed, made := map[], {}, 0;
      new;
      assert Shape(Initial) && Shows(Initial);
    }

    /** A subscription is the step system's: the new channel joins the list of its kind; no channel in any
        list, and no closed one, is that channel. */
    method Subscribe(kind: EventType) returns (ch: Channel)
      requires Valid()
      modifies this`subscribers, this`made
      ensures Valid() && forall s :: old(Shows(s)) ==> Shows(Subscribed(s, kind))
      ensures ch !in closed && forall k :: ch !in Get(old(subscribers), k, [])
      ensures Get(subscribers, kind, []) == Get(old(subscribers), kind, []) + [ch]
      ensures forall k :: k != kind ==> Get(subscribers, k, []) == Get(old(subscribers), k, [])
    {
      ghost var before: State :| Shape(before) && before.active == map[] && Shows(before);
      SubscribedShape(before, kind);
      assert forall k :: before.Subs(k) == Get(subscribers, k, []);
      hide Shape;
      ch := made;
      made := made + 1;
      subscribers := subscribers[kind := Get(subscribers, kind, []) + [ch]];
      assert Shows(Subscribed(before, kind));
    }

    /** So is an unsubscription: the channel leaves the list and is closed, if it was there. */
    method Unsubscribe(kind: EventType, ch: Channel)
      requires Valid()
      modifies this`subscribers, this`closed
      ensures Valid() && forall s :: old(Shows(s)) ==> Shows(Unsubscribed(s, kind, ch))
      ensures ch in Get(old(subscribers), kind, []) ==> ch in closed && forall k :: ch !in Get(subscribers, k, [])
      ensures ch !in Get(old(subscribers), kind, []) ==> subscribers == old(subscribers) && closed == old(closed)
      ensures ch in Get(old(subscribers), kind, []) ==>
        && closed == old(closed) + {ch}
        && LeftBy(Get(old(subscribers), kind, []), Get(subscribers, kind, []), ch)
      ensures forall k :: k != kind ==> Get(subscribers, k, []) == Get(old(subscribers), k, [])
    {
      ghost var before: State :| Shape(before) && before.active == map[] && Shows(before);
      ghost var after := Unsubscribed(before, kind, ch);
      UnsubscribedShape(before, kind, ch);
      hide Shape;
      var subs := Get(subscribers, kind, []);
      for i := 0 to |subs|
        invariant ch !in subs[..i] && subscribers == old(subscribers) && closed == old(closed)
      {
        if subs[i] == ch {
          WithoutAt(subs, i, ch);
          subscribers := subscribers[kind := subs[..i] + subs[i + 1..]];
          closed := closed + {ch};
          assert subs[i] == ch && Get(subscribers, kind, []) == subs[..i] + subs[i + 1..];
          assert Shows(after) && Shape(after);
          assert forall k :: after.Subs(k) == Get(subscribers, k, []);
          return;
        }
      }
      assert Shows(before) && Shape(before);
    }
  }

  lemma SubscribedShape(s: State, kind: EventType)
    requires Shape(s) && s.active == map[]
    ensures Shape(Subscribed(s, kind))
    ensures s.made !in s.closed && forall k :: s.made !in s.Subs(k)
  {
    SubscribeShape(s, kind, Subscribed(s, kind));
    SubscribeTable(s, kind, Subscribed(s, kind));
  }

  lemma UnsubscribedShape(s: State, kind: EventType, ch: Channel)
    requires Shape(s) && s.active == map[]
    ensures Shape(Unsubscribed(s, kind, ch))
    ensures ch in s.Subs(kind) ==> forall k :: ch !in Unsubscribed(s, kind, ch).Subs(k)
  {
    var t := Unsubscribed(s, kind, ch);
    if ch in s.Subs(kind) {
      var at := UnsubscribeTable(s, kind, ch, t);
      UnsubscribeShape(s, kind, ch, t, at);
      assert forall k, j :: 0 <= j < |t.Subs(k)| ==> t.Subs(k)[j] !in t.closed;
    }
  }

  lemma {:induction false} WithoutAt(channels: seq<Channel>, i: nat, ch: Channel)
    requires i < |channels| && channels[i] == ch && ch !in channels[..i]
    ensures Without(channels, ch) == channels[..i] + channels[i + 1..]
  {
    if i > 0 {
      assert channels[0] in channels[..i];
      assert channels[1..][..i - 1] == channels[..i][1..];
      WithoutAt(channels[1..], i - 1, ch);
    }
  }

  // ---------------------------------------------------------------- the step system

  /** `active` holds the publishers inside Publish, each with the position it sends to next; the event it is
      publishing is the last of its log. `start` remembers how much every publisher had published when a
      channel was subscribed, and `received` what was taken out of the channel since. */
  datatype State = State(
    subscribers: map<EventType, seq<Channel>>,
    closed: set<Channel>,
    made: nat,
    queues: map<Channel, seq<Message>>,
    received: map<Channel, seq<Message>>,
    active: map<Publisher, nat>,
    log: map<Publisher, seq<Event>>,
    start: map<Channel, map<Publisher, nat>>
  ) {
    function Subs(kind: EventType): seq<Channel> {
      Get(subscribers, kind, [])
    }

    function Log(p: Publisher): seq<Event> {
      Get(log, p, [])
    }

    /** How much every publisher has published so far. */
    function Counts(): map<Publisher, nat> {
      map p | p in log :: |log[p]|
    }

    /** Everything that ever entered the channel, in order. */
    function Delivered(ch: Channel): seq<Message> {
      Get(received, ch, []) + Get(queues, ch, [])
    }

    function StartOf(ch: Channel, p: Publisher): nat {
      Get(Get(start, ch, map[]), p, 0)
    }

    /** How many of p's publications the channel at position j of this kind's list should have been given. */
    function Due(p: Publisher, kind: EventType, j: nat): nat {
      var n := |Log(p)|;
      if p in active && n > 0 && Log(p)[n - 1].kind == kind && active[p] <= j then n - 1 else n
    }
  }

  datatype Step =
    | Subscribe(kind: EventType)
    | Unsubscribe(kind: EventType, ch: Channel)
    | Begin(p: Publisher, event: Event)
    | Send(p: Publisher)
    | End(p: Publisher)
    | Receive(ch: Channel)

  const Initial: State := State(map[], {}, 0, map[], map[], map[], map[], map[])

  /** The channel p sends to next. */
  function Target(s: State, p: Publisher): Option<Channel> {
    var n := |s.Log(p)|;
    if p in s.active && n > 0 && s.active[p] < |s.Subs(s.Log(p)[n - 1].kind)|
    then Some(s.Subs(s.Log(p)[n - 1].kind)[s.active[p]])
    else None
  }

  function Subscribed(s: State, kind: EventType): State {
    s.(
      subscribers := s.subscribers[kind := s.Subs(kind) + [s.made]],
      made := s.made + 1,
      queues := s.queues[s.made := []],
      received := s.received[s.made := []],
      start := s.start[s.made := s.Counts()])
  }

  function Unsubscribed(s: State, kind: EventType, ch: Channel): State {
    if ch in s.Subs(kind)
    then s.(subscribers := s.subscribers[kind := Without(s.Subs(kind), ch)], closed := s.closed + {ch})
    else s
  }

  ghost predicate Next(s: State, step: Step, t: State) {
    match step
    case Subscribe(kind) =>
      s.active == map[] && t == Subscribed(s, kind)
    case Unsubscribe(kind, ch) =>
      s.active == map[] && t == Unsubscribed(s, kind, ch)
    case Begin(p, event) =>
      && p !in s.active
      && t == s.(log := s.log[p := s.Log(p) + [event]], active := s.active[p := 0])
    case Send(p) =>
      && Target(s, p).Some?
      && var ch, n := Target(s, p).value, |s.Log(p)|;
        && |Get(s.queues, ch, [])| < CAPACITY
        && t == s.(
          queues := s.queues[ch := Get(s.queues, ch, []) + [Message(p, n - 1, s.Log(p)[n - 1])]],
          active := s.active[p := s.active[p] + 1])
    case End(p) =>
      && p in s.active && Target(s, p).None?
      && t == s.(active := s.active - {p})
    case Receive(ch) =>
      && ch in s.queues && s.queues[ch] != []
      && t == s.(
        queues := s.queues[ch := s.queues[ch][1..]],
        received := s.received[ch := Get(s.received, ch, []) + [s.queues[ch][0]]])
  }

  ghost predicate Run(states: seq<State>, steps: seq<Step>) {
    && |states| == |steps| + 1 && states[0] == Initial
    && forall n :: 0 <= n < |steps| ==> Next(states[n], steps[n], states[n + 1])
  }

  lemma TableFrozenStep(s: State, step: Step, t: State)
    requires Next(s, step, t) && s.active != map[]
    ensures t.subscribers == s.subscribers && t.closed == s.closed
  {
  }

  /** A check of how the lock is encoded: the table does not change while a publish is in progress. */
  lemma TableFrozen(states: seq<State>, steps: seq<Step>, m: nat, n: nat)
    requires Run(states, steps) && m <= n < |states|
    requires forall i :: m <= i < n ==> states[i].active != map[]
    ensures states[n].subscribers == states[m].subscribers && states[n].closed == states[m].closed
    decreases n
  {
    if m < n {
      var s, t := states[n - 1], states[n];
      assert s.active != map[] && Next(s, steps[n - 1], t);
      TableFrozenStep(s, steps[n - 1], t);
      hide Next, Run;
      TableFrozen(states, steps, m, n - 1);
      assert s.subscribers == states[m].subscribers && s.closed == states[m].closed;
    }
  }

  // ---------------------------------------------------------------- what every step keeps

  function From(messages: seq<Message>, p: Publisher): seq<Message> {
    if messages == [] then []
    else
      var last, rest := messages[|messages| - 1], From(messages[..|messages| - 1], p);
      if last.publisher == p then rest + [last] else rest
  }

  /** p's publications number `first` up to `limit` that are of this kind, each once and in order. */
  function Published(log: seq<Event>, p: Publisher, kind: EventType, first: nat, limit: nat): seq<Message>
    requires limit <= |log|
  {
    if limit <= first then []
    else
      var rest := Published(log, p, kind, first, limit - 1);
      if log[limit - 1].kind == kind then rest + [Message(p, limit - 1, log[limit - 1])] else rest
  }

  /** The channel at position j of a kind's list has exactly what p published of that kind since the channel
      was subscribed, less what p is just about to send. */
  ghost predicate Conserved(s: State, kind: EventType, j: nat, p: Publisher)
    requires j < |s.Subs(kind)|
  {
    var ch := s.Subs(kind)[j];
    From(s.Delivered(ch), p) == Published(s.Log(p), p, kind, s.StartOf(ch, p), s.Due(p, kind, j))
  }

  /** Channels appear in one place only, are known and open; publishers in progress are within bounds. */
  ghost predicate Shape(s: State) {
    && (forall ch :: ch in s.closed ==> ch < s.made)
    && (forall ch :: ch in s.queues ==> ch < s.made)
    && (forall kind, j :: 0 <= j < |s.Subs(kind)| ==>
          s.Subs(kind)[j] in s.queues && s.Subs(kind)[j] in s.received && s.Subs(kind)[j] !in s.closed)
    && (forall k, l, i, j :: 0 <= i < |s.Subs(k)| && 0 <= j < |s.Subs(l)| && s.Subs(k)[i] == s.Subs(l)[j] ==>
          k == l && i == j)
    && (forall p :: p in s.active ==> |s.Log(p)| > 0 && s.active[p] <= |s.Subs(s.Log(p)[|s.Log(p)| - 1].kind)|)
  }

  ghost predicate Bounded(s: State) {
    forall ch :: ch in s.queues ==> |s.queues[ch]| <= CAPACITY
  }

  /** A publication in progress began after every subscription. */
  ghost predicate Started(s: State) {
    forall ch, p :: s.StartOf(ch, p) <= |s.Log(p)| && (p in s.active ==> s.StartOf(ch, p) < |s.Log(p)|)
  }

  ghost predicate AllConserved(s: State) {
    forall kind, j, p :: 0 <= j < |s.Subs(kind)| ==> Conserved(s, kind, j, p)
  }

  ghost predicate Invariant(s: State) {
    Shape(s) && Bounded(s) && Started(s) && AllConserved(s)
  }

  /** `r` is `channels` without the entry at position i. */
  ghost predicate Shifted(channels: seq<Channel>, r: seq<Channel>, i: nat) {
    && i < |channels| && |r| == |channels| - 1
    && forall j :: 0 <= j < |r| ==> r[j] == channels[if j < i then j else j + 1]
  }

  lemma WithoutIs(channels: seq<Channel>, ch: Channel) returns (i: nat)
    requires ch in channels && forall i, j :: 0 <= i < j < |channels| ==> channels[i] != channels[j]
    ensures Shifted(channels, Without(channels, ch), i) && channels[i] == ch
  {
    i :| 0 <= i < |channels| && channels[i] == ch;
    WithoutAt(channels, i, ch);
  }

  lemma StartedKeeps(s: State, step: Step, t: State)
    requires Started(s) && Next(s, step, t)
    ensures Started(t)
  {
    forall ch, p
      ensures t.StartOf(ch, p) <= |t.Log(p)| && (p in t.active ==> t.StartOf(ch, p) < |t.Log(p)|)
    {
      assert s.StartOf(ch, p) <= |s.Log(p)|;
      assert t.StartOf(ch, p) == if step.Subscribe? && ch == s.made then |s.Log(p)| else s.StartOf(ch, p);
      assert t.Log(p) == if step.Begin? && p == step.p then s.Log(p) + [step.event] else s.Log(p);
    }
  }

  lemma SubscribeTable(s: State, kind: EventType, t: State)
    requires Shape(s) && Next(s, Subscribe(kind), t)
    ensures forall k :: t.Subs(k) == if k == kind then s.Subs(k) + [s.made] else s.Subs(k)
    ensures forall k, j :: 0 <= j < |s.Subs(k)| ==> s.Subs(k)[j] < s.made
    ensures Bounded(s) ==> Bounded(t)
    ensures t.closed == s.closed && t.made == s.made + 1 && t.active == s.active == map[]
    ensures t.queues.Keys == s.queues.Keys + {s.made} && t.received.Keys == s.received.Keys + {s.made}
  {
    assert forall k, j :: 0 <= j < |s.Subs(k)| ==> s.Subs(k)[j] in s.queues;
  }

  lemma SubscribeDistinct(s: State, t: State, kind: EventType, k: EventType, l: EventType, i: nat, j: nat)
    requires Shape(s) && i < |t.Subs(k)| && j < |t.Subs(l)| && t.Subs(k)[i] == t.Subs(l)[j]
    requires forall n :: t.Subs(n) == if n == kind then s.Subs(n) + [s.made] else s.Subs(n)
    requires forall n, m :: 0 <= m < |s.Subs(n)| ==> s.Subs(n)[m] < s.made
    ensures k == l && i == j
  {
    hide State.Subs;
    assert t.Subs(k)[i] == if i < |s.Subs(k)| then s.Subs(k)[i] else s.made;
    assert t.Subs(l)[j] == if j < |s.Subs(l)| then s.Subs(l)[j] else s.made;
  }

  lemma SubscribeShape(s: State, kind: EventType, t: State)
    requires Shape(s) && Next(s, Subscribe(kind), t)
    ensures Shape(t)
  {
    hide Next, State.Subs, State.Log, Bounded;
    SubscribeTable(s, kind, t);
    assert forall ch :: ch in t.queues <==> ch in s.queues || ch == s.made;
    assert forall ch :: ch in t.received <==> ch in s.received || ch == s.made;
    forall k, l, i, j | 0 <= i < |t.Subs(k)| && 0 <= j < |t.Subs(l)| && t.Subs(k)[i] == t.Subs(l)[j]
      ensures k == l && i == j
    {
      SubscribeDistinct(s, t, kind, k, l, i, j);
    }
  }

  lemma SubscribeKeeps(s: State, kind: EventType, t: State)
    requires Invariant(s) && Next(s, Subscribe(kind), t)
    ensures Invariant(t)
  {
    hide Shape, Bounded, Started, Next, Conserved, State.Subs;
    StartedKeeps(s, Subscribe(kind), t);
    SubscribeShape(s, kind, t);
    SubscribeTable(s, kind, t);
    forall k, j, p | 0 <= j < |t.Subs(k)|
      ensures Conserved(t, k, j, p)
    {
      if j < |s.Subs(k)| {
        assert Conserved(s, k, j, p);
        SubscribeConserves(s, kind, t, k, j, p);
      } else {
        SubscribeStarts(s, kind, t, k, j, p);
      }
    }
  }

  lemma SubscribeConserves(s: State, kind: EventType, t: State, k: EventType, j: nat, p: Publisher)
    requires Next(s, Subscribe(kind), t) && j < |s.Subs(k)| && s.Subs(k)[j] != s.made && Conserved(s, k, j, p)
    ensures j < |t.Subs(k)| && Conserved(t, k, j, p)
  {
    var ch := s.Subs(k)[j];
    assert t.Subs(k)[j] == ch;
    assert t.Log(p) == s.Log(p) && t.Due(p, k, j) == s.Due(p, k, j);
    assert t.Delivered(ch) == s.Delivered(ch) && t.StartOf(ch, p) == s.StartOf(ch, p);
  }

  /** A channel has got nothing when it is subscribed, and is due nothing of what was published before. */
  lemma SubscribeStarts(s: State, kind: EventType, t: State, k: EventType, j: nat, p: Publisher)
    requires Next(s, Subscribe(kind), t) && j < |t.Subs(k)| && t.Subs(k)[j] == s.made
    ensures Conserved(t, k, j, p)
  {
    assert t.Log(p) == s.Log(p) && t.Due(p, k, j) == |s.Log(p)|;
    assert t.Delivered(s.made) == [] && t.StartOf(s.made, p) == |s.Log(p)|;
  }

  /** Where the channel at position j of kind k's list was before position `at` of list `kind` was removed. */
  function Before(k: EventType, kind: EventType, at: nat, j: nat): nat {
    if k == kind && j >= at then j + 1 else j
  }

  lemma UnsubscribeTable(s: State, kind: EventType, ch: Channel, t: State) returns (at: nat)
    requires Shape(s) && Next(s, Unsubscribe(kind, ch), t) && ch in s.Subs(kind)
    ensures at < |s.Subs(kind)| && s.Subs(kind)[at] == ch
    ensures forall k, j :: 0 <= j < |t.Subs(k)| ==>
      Before(k, kind, at, j) < |s.Subs(k)| && t.Subs(k)[j] == s.Subs(k)[Before(k, kind, at, j)]
  {
    assert forall i, j :: 0 <= i < j < |s.Subs(kind)| ==> s.Subs(kind)[i] != s.Subs(kind)[j];
    at := WithoutIs(s.Subs(kind), ch);
    hide Shape;
    assert forall k :: t.Subs(k) == if k == kind then Without(s.Subs(k), ch) else s.Subs(k);
  }

  lemma UnsubscribeShape(s: State, kind: EventType, ch: Channel, t: State, at: nat)
    requires Shape(s) && Next(s, Unsubscribe(kind, ch), t) && ch in s.Subs(kind)
    requires at < |s.Subs(kind)| && s.Subs(kind)[at] == ch
    requires forall k, j :: 0 <= j < |t.Subs(k)| ==>
      Before(k, kind, at, j) < |s.Subs(k)| && t.Subs(k)[j] == s.Subs(k)[Before(k, kind, at, j)]
    ensures Shape(t)
  {
    assert ch < s.made;
    hide State.Subs, Without;
    forall k, j | 0 <= j < |t.Subs(k)|
      ensures t.Subs(k)[j] in t.queues && t.Subs(k)[j] in t.received && t.Subs(k)[j] !in t.closed
    {
      var i := Before(k, kind, at, j);
      assert s.Subs(k)[i] in s.queues && (s.Subs(k)[i] == ch ==> k == kind && i == at);
    }
    forall k, l, i, j | 0 <= i < |t.Subs(k)| && 0 <= j < |t.Subs(l)| && t.Subs(k)[i] == t.Subs(l)[j]
      ensures k == l && i == j
    {
      assert s.Subs(k)[Before(k, kind, at, i)] == s.Subs(l)[Before(l, kind, at, j)];
    }
  }

  lemma UnsubscribeKeeps(s: State, kind: EventType, ch: Channel, t: State)
    requires Invariant(s) && Next(s, Unsubscribe(kind, ch), t)
    ensures Invariant(t)
  {
    StartedKeeps(s, Unsubscribe(kind, ch), t);
    if ch in s.Subs(kind) {
      var at := UnsubscribeTable(s, kind, ch, t);
      UnsubscribeShape(s, kind, ch, t, at);
      assert Bounded(t);
      hide Shape, Bounded, Started, State.Subs, Without;
      forall k, j, p | 0 <= j < |t.Subs(k)|
        ensures Conserved(t, k, j, p)
      {
        var i := Before(k, kind, at, j);
        var c := s.Subs(k)[i];
        assert t.Subs(k)[j] == c && Conserved(s, k, i, p);
        assert t.Log(p) == s.Log(p) && t.Due(p, k, j) == s.Due(p, k, i);
        assert t.Delivered(c) == s.Delivered(c) && t.StartOf(c, p) == s.StartOf(c, p);
      }
    }
  }

  lemma {:induction false} PublishedPrefix(log: seq<Event>, more: Event, p: Publisher, kind: EventType,
                                           first: nat, limit: nat)
    requires limit <= |log|
    ensures Published(log + [more], p, kind, first, limit) == Published(log, p, kind, first, limit)
    decreases limit
  {
    if limit > first {
      PublishedPrefix(log, more, p, kind, first, limit - 1);
    }
  }

  /** The four steps below leave the subscriber table alone. */
  lemma TableSame(s: State, t: State)
    requires Shape(s) && t.subscribers == s.subscribers && t.closed == s.closed && t.made == s.made
    requires t.queues.Keys == s.queues.Keys && t.received.Keys >= s.received.Keys
    requires forall p :: p in t.active ==>
      |t.Log(p)| > 0 && t.active[p] <= |s.Subs(t.Log(p)[|t.Log(p)| - 1].kind)|
    ensures Shape(t) && forall k :: t.Subs(k) == s.Subs(k)
  {
    assert forall k :: t.Subs(k) == s.Subs(k);
  }

  lemma BeginConserves(s: State, p: Publisher, event: Event, t: State, k: EventType, j: nat, q: Publisher)
    requires Next(s, Begin(p, event), t) && j < |s.Subs(k)| && t.Subs(k) == s.Subs(k) && Conserved(s, k, j, q)
    ensures Conserved(t, k, j, q)
  {
    var ch := s.Subs(k)[j];
    assert t.Delivered(ch) == s.Delivered(ch) && t.StartOf(ch, q) == s.StartOf(ch, q);
    if q == p {
      assert t.Log(p) == s.Log(p) + [event];
      PublishedPrefix(s.Log(p), event, p, k, s.StartOf(ch, p), |s.Log(p)|);
    } else {
      assert t.Log(q) == s.Log(q) && t.Due(q, k, j) == s.Due(q, k, j);
    }
  }

  lemma BeginShape(s: State, p: Publisher, event: Event, t: State)
    requires Shape(s) && Next(s, Begin(p, event), t)
    ensures Shape(t) && forall k :: t.Subs(k) == s.Subs(k)
  {
    forall q | q in t.active
      ensures |t.Log(q)| > 0 && t.active[q] <= |s.Subs(t.Log(q)[|t.Log(q)| - 1].kind)|
    {
      hide State.Subs;
      assert t.Log(q) == if q == p then s.Log(p) + [event] else s.Log(q);
    }
    hide State.Log;
    TableSame(s, t);
  }

  lemma BeginKeeps(s: State, p: Publisher, event: Event, t: State)
    requires Invariant(s) && Next(s, Begin(p, event), t)
    ensures Invariant(t)
  {
    assert Bounded(t);
    hide Shape, Started, Next, Conserved, State.Subs;
    StartedKeeps(s, Begin(p, event), t);
    BeginShape(s, p, event, t);
    forall k, j, q | 0 <= j < |t.Subs(k)|
      ensures Conserved(t, k, j, q)
    {
      assert Conserved(s, k, j, q);
      BeginConserves(s, p, event, t, k, j, q);
    }
  }

  lemma FromAppend(messages: seq<Message>, m: Message, p: Publisher)
    ensures From(messages + [m], p) == if m.publisher == p then From(messages, p) + [m] else From(messages, p)
  {
    assert (messages + [m])[..|messages|] == messages;
  }

  /** What Send(p) does to the channel it sends to, and to what is due there. */
  lemma SendHits(s: State, p: Publisher, t: State, k: EventType, j: nat)
    requires Shape(s) && Next(s, Send(p), t) && j < |s.Subs(k)| && Target(s, p) == Some(s.Subs(k)[j])
    ensures var ch, n := s.Subs(k)[j], |s.Log(p)|;
      && n > 0 && s.Log(p)[n - 1].kind == k && s.active[p] == j && t.Subs(k) == s.Subs(k)
      && t.Delivered(ch) == s.Delivered(ch) + [Message(p, n - 1, s.Log(p)[n - 1])]
      && s.Due(p, k, j) == n - 1 && t.Due(p, k, j) == n
  {
    var ch, n := s.Subs(k)[j], |s.Log(p)|;
    assert s.Subs(s.Log(p)[n - 1].kind)[s.active[p]] == ch;
    hide Shape;
    var m := Message(p, n - 1, s.Log(p)[n - 1]);
    assert Get(t.queues, ch, []) == Get(s.queues, ch, []) + [m] && Get(t.received, ch, []) == Get(s.received, ch, []);
  }

  /** No other channel, and nothing due to another channel, changes. */
  lemma SendMisses(s: State, p: Publisher, t: State, k: EventType, j: nat, q: Publisher)
    requires Next(s, Send(p), t) && j < |s.Subs(k)|
    ensures Target(s, p) != Some(s.Subs(k)[j]) ==> t.Delivered(s.Subs(k)[j]) == s.Delivered(s.Subs(k)[j])
    ensures q != p || Target(s, p) != Some(s.Subs(k)[j]) ==> t.Due(q, k, j) == s.Due(q, k, j)
    ensures t.Log(q) == s.Log(q) && t.StartOf(s.Subs(k)[j], q) == s.StartOf(s.Subs(k)[j], q)
  {
  }

  lemma SendConserves(s: State, p: Publisher, t: State, k: EventType, j: nat, q: Publisher)
    requires Shape(s) && Started(s) && Next(s, Send(p), t) && j < |s.Subs(k)| && t.Subs(k) == s.Subs(k)
    requires Conserved(s, k, j, q)
    ensures Conserved(t, k, j, q)
  {
    var ch, n := s.Subs(k)[j], |s.Log(p)|;
    SendMisses(s, p, t, k, j, q);
    assert Target(s, p).Some? && p in s.active;
    assert s.StartOf(ch, p) < n;
    if Target(s, p) == Some(ch) {
      SendHits(s, p, t, k, j);
      hide Shape, Started, Next, State.Due, State.Delivered, State.Subs, State.StartOf, Target;
      FromAppend(s.Delivered(ch), Message(p, n - 1, s.Log(p)[n - 1]), q);
    }
  }

  lemma SendShape(s: State, p: Publisher, t: State)
    requires Shape(s) && Bounded(s) && Next(s, Send(p), t)
    ensures Shape(t) && Bounded(t) && forall k :: t.Subs(k) == s.Subs(k)
  {
    assert forall q :: t.Log(q) == s.Log(q);
    TableSame(s, t);
  }

  lemma SendKeeps(s: State, p: Publisher, t: State)
    requires Invariant(s) && Next(s, Send(p), t)
    ensures Invariant(t)
  {
    hide Shape, Bounded, Started, Next, Conserved, State.Subs;
    StartedKeeps(s, Send(p), t);
    SendShape(s, p, t);
    forall k, j, q | 0 <= j < |t.Subs(k)|
      ensures Conserved(t, k, j, q)
    {
      assert Conserved(s, k, j, q);
      SendConserves(s, p, t, k, j, q);
    }
  }

  /** Ending a publish, or receiving, moves no event into any channel. */
  lemma QuietConserves(s: State, step: Step, t: State, k: EventType, j: nat, q: Publisher)
    requires Shape(s) && Next(s, step, t) && (step.End? || step.Receive?)
    requires j < |s.Subs(k)| && t.Subs(k) == s.Subs(k) && Conserved(s, k, j, q)
    ensures Conserved(t, k, j, q)
  {
    var ch := s.Subs(k)[j];
    assert t.Log(q) == s.Log(q) && t.StartOf(ch, q) == s.StartOf(ch, q);
    assert t.Due(q, k, j) == s.Due(q, k, j);
    assert t.Delivered(ch) == s.Delivered(ch);
  }

  lemma QuietShape(s: State, step: Step, t: State)
    requires Shape(s) && Bounded(s) && Next(s, step, t) && (step.End? || step.Receive?)
    ensures Shape(t) && Bounded(t) && forall k :: t.Subs(k) == s.Subs(k)
  {
    assert forall q :: t.Log(q) == s.Log(q);
    TableSame(s, t);
  }

  lemma QuietKeeps(s: State, step: Step, t: State)
    requires Invariant(s) && Next(s, step, t) && (step.End? || step.Receive?)
    ensures Invariant(t)
  {
    hide Shape, Bounded, Started, Next, Conserved, State.Subs;
    StartedKeeps(s, step, t);
    QuietShape(s, step, t);
    forall k, j, q | 0 <= j < |t.Subs(k)|
      ensures Conserved(t, k, j, q)
    {
      assert Conserved(s, k, j, q);
      QuietConserves(s, step, t, k, j, q);
    }
  }

  /** The invariant holds in every state of every run, whatever the interleaving. */
  lemma {:induction false} InvariantHolds(states: seq<State>, steps: seq<Step>, n: nat)
    requires Run(states, steps) && n < |states|
    ensures Invariant(states[n])
  {
    if n > 0 {
      InvariantHolds(states, steps, n - 1);
      var s, t := states[n - 1], states[n];
      assert Next(s, steps[n - 1], t);
      match steps[n - 1]
      case Subscribe(kind) => SubscribeKeeps(s, kind, t);
      case Unsubscribe(kind, ch) => UnsubscribeKeeps(s, kind, ch, t);
      case Begin(p, event) => BeginKeeps(s, p, event, t);
      case Send(p) => SendKeeps(s, p, t);
      case End(p) => QuietKeeps(s, End(p), t);
      case Receive(ch) => QuietKeeps(s, Receive(ch), t);
    }
  }

  // ---------------------------------------------------------------- what subscribers rely on

  lemma {:induction false} WithoutKeeps(channels: seq<Channel>, x: Channel, ch: Channel)
    requires ch in channels && ch != x
    ensures ch in Without(channels, x)
  {
    if channels[0] != x && channels[0] != ch {
      WithoutKeeps(channels[1..], x, ch);
      assert Without(channels, x)[1..] == Without(channels[1..], x);
    } else if channels[0] == ch {
      assert Without(channels, x)[0] == ch;
    } else {
      assert ch in channels[1..];
    }
  }

  lemma StaysListed(s: State, step: Step, t: State, kind: EventType, ch: Channel)
    requires Next(s, step, t) && ch in s.Subs(kind) && step != Unsubscribe(kind, ch)
    ensures ch in t.Subs(kind)
  {
    if step.Unsubscribe? && step.kind == kind && step.ch in s.Subs(kind) {
      WithoutKeeps(s.Subs(kind), step.ch, ch);
    }
    assert step.Subscribe? && step.kind == kind ==> t.Subs(kind) == s.Subs(kind) + [s.made];
  }

  /** A subscription lasts until it is itself ended, whoever else comes and goes. */
  lemma {:induction false} StaysSubscribed(states: seq<State>, steps: seq<Step>, m: nat, n: nat,
                                           kind: EventType, ch: Channel)
    requires Run(states, steps) && m <= n < |states| && ch in states[m].Subs(kind)
    requires forall i :: m <= i < n ==> steps[i] != Unsubscribe(kind, ch)
    ensures ch in states[n].Subs(kind)
    decreases n
  {
    if m < n {
      StaysSubscribed(states, steps, m, n - 1, kind, ch);
      assert steps[n - 1] != Unsubscribe(kind, ch);
      assert Next(states[n - 1], steps[n - 1], states[n - 1 + 1]);
      hide Next, Run, State.Subs;
      StaysListed(states[n - 1], steps[n - 1], states[n], kind, ch);
    }
  }

  /** So it gets everything of its kind that a publisher publishes meanwhile, each once, when the publisher is done. */
  lemma SubscriberGetsAll(states: seq<State>, steps: seq<Step>, m: nat, n: nat,
                          p: Publisher, kind: EventType, ch: Channel)
    requires Run(states, steps) && m <= n < |states| && ch in states[m].Subs(kind) && p !in states[n].active
    requires forall i :: m <= i < n ==> steps[i] != Unsubscribe(kind, ch)
    ensures forall k :: |states[m].Log(p)| <= k < |states[n].Log(p)| && states[n].Log(p)[k].kind == kind ==>
      multiset(states[n].Delivered(ch))[Message(p, k, states[n].Log(p)[k])] == 1
  {
    StaysSubscribed(states, steps, m, n, kind, ch);
    var s := states[n];
    var j :| 0 <= j < |s.Subs(kind)| && s.Subs(kind)[j] == ch;
    DeliveredExactlyOnce(states, steps, n, p, kind, j);
    StartedBefore(states, steps, m, n, p, kind, ch);
    forall k | |states[m].Log(p)| <= k < |s.Log(p)| && s.Log(p)[k].kind == kind
      ensures multiset(s.Delivered(ch))[Message(p, k, s.Log(p)[k])] == 1
    {
      FromIn(s.Delivered(ch), p, Message(p, k, s.Log(p)[k]));
      OnceIn(From(s.Delivered(ch), p), Message(p, k, s.Log(p)[k]));
    }
  }

  lemma {:induction false} OnceIn(messages: seq<Message>, m: Message)
    requires forall i, j :: 0 <= i < j < |messages| ==> messages[i].number < messages[j].number
    ensures multiset(messages)[m] == if m in messages then 1 else 0
  {
    if messages != [] {
      OnceIn(messages[1..], m);
      assert messages == [messages[0]] + messages[1..];
    }
  }

  /** What `From` takes out of a channel is exactly p's messages. */
  lemma {:induction false} FromIn(messages: seq<Message>, p: Publisher, m: Message)
    ensures multiset(From(messages, p))[m] == if m.publisher == p then multiset(messages)[m] else 0
    ensures m in From(messages, p) ==> m in messages && m.publisher == p
  {
    if messages != [] {
      FromIn(messages[..|messages| - 1], p, m);
      assert messages == messages[..|messages| - 1] + [messages[|messages| - 1]];
    }
  }

  lemma StartStays(s: State, step: Step, t: State, ch: Channel, p: Publisher)
    requires Next(s, step, t) && ch < s.made
    ensures t.StartOf(ch, p) == s.StartOf(ch, p) && ch < t.made
  {
  }

  lemma {:induction false} StartedBefore(states: seq<State>, steps: seq<Step>, m: nat, n: nat,
                                         p: Publisher, kind: EventType, ch: Channel)
    requires Run(states, steps) && m <= n < |states| && ch in states[m].Subs(kind)
    ensures states[n].StartOf(ch, p) <= |states[m].Log(p)| && ch < states[n].made
    decreases n
  {
    if m == n {
      InvariantHolds(states, steps, m);
      KnownChannel(states[m], kind, ch);
      assert states[m].StartOf(ch, p) <= |states[m].Log(p)|;
    } else {
      StartedBefore(states, steps, m, n - 1, p, kind, ch);
      assert Next(states[n - 1], steps[n - 1], states[n - 1 + 1]);
      hide Next, Run;
      StartStays(states[n - 1], steps[n - 1], states[n], ch, p);
    }
  }

  lemma KnownChannel(s: State, kind: EventType, ch: Channel)
    requires Shape(s) && ch in s.Subs(kind)
    ensures ch < s.made
  {
    var j :| 0 <= j < |s.Subs(kind)| && s.Subs(kind)[j] == ch;
    assert s.Subs(kind)[j] in s.queues;
  }

  /** No publisher ever sends on a closed channel, and no channel ever holds more than its buffer. */
  lemma NoSendOnClosed(states: seq<State>, steps: seq<Step>, n: nat, p: Publisher, ch: Channel)
    requires Run(states, steps) && n < |states|
    ensures Target(states[n], p) == Some(ch) ==> ch !in states[n].closed
    ensures ch in states[n].queues ==> |states[n].queues[ch]| <= 10
  {
    InvariantHolds(states, steps, n);
  }

  lemma {:induction false} PublishedOnce(log: seq<Event>, p: Publisher, kind: EventType, first: nat, limit: nat)
    requires limit <= |log|
    ensures forall i, j :: 0 <= i < j < |Published(log, p, kind, first, limit)| ==>
      Published(log, p, kind, first, limit)[i].number < Published(log, p, kind, first, limit)[j].number < limit
    ensures forall i :: 0 <= i < |Published(log, p, kind, first, limit)| ==>
      Published(log, p, kind, first, limit)[i].number < limit
    ensures forall k :: first <= k < limit && log[k].kind == kind ==>
      Message(p, k, log[k]) in Published(log, p, kind, first, limit)
    decreases limit
  {
    if limit > first {
      PublishedOnce(log, p, kind, first, limit - 1);
      var all, rest := Published(log, p, kind, first, limit), Published(log, p, kind, first, limit - 1);
      forall k | first <= k < limit && log[k].kind == kind
        ensures Message(p, k, log[k]) in all
      {
        if k < limit - 1 {
          assert Message(p, k, log[k]) in rest;
        } else {
          assert all[|all| - 1] == Message(p, k, log[k]);
        }
      }
      forall i, j | 0 <= i < j < |all|
        ensures all[i].number < all[j].number < limit
      {
        assert all[i] == rest[i] && rest[i].number < limit - 1;
      }
    }
  }

  /** When a publisher is not inside Publish, every channel still subscribed has received or queued, of that
      publisher's events of its kind, exactly those published since it subscribed, each exactly once and in
      the order in which they were published. */
  lemma DeliveredExactlyOnce(states: seq<State>, steps: seq<Step>, n: nat, p: Publisher, kind: EventType, j: nat)
    requires Run(states, steps) && n < |states|
    requires p !in states[n].active && j < |states[n].Subs(kind)|
    ensures var s, ch := states[n], states[n].Subs(kind)[j];
      var got := From(s.Delivered(ch), p);
      && got == Published(s.Log(p), p, kind, s.StartOf(ch, p), |s.Log(p)|)
      && (forall a, b :: 0 <= a < b < |got| ==> got[a].number < got[b].number)
      && (forall k :: s.StartOf(ch, p) <= k < |s.Log(p)| && s.Log(p)[k].kind == kind ==>
            Message(p, k, s.Log(p)[k]) in got)
  {
    InvariantHolds(states, steps, n);
    var s := states[n];
    assert Conserved(s, kind, j, p);
    PublishedOnce(s.Log(p), p, kind, s.StartOf(s.Subs(kind)[j], p), |s.Log(p)|);
  }
}
