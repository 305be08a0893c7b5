// internal/fileserver/seenmsgs.go: message-ID deduplication over a sliding window, with a bounded table.
// Times are integer ticks; the clock is a parameter of every call.
module Dedup {
  import opened Bytes

  type Table = map<string, int>

  /** The eviction scan over the entries in the given order. "" marks that nothing was found yet. */
  function Scan(entries: Table, order: seq<string>): (oldest: string)
    requires forall k :: k in order ==> k in entries
    ensures oldest == "" || oldest in order
  {
    if order == [] then ""
    else
      var k, oldest := order[|order| - 1], Scan(entries, order[..|order| - 1]);
      if oldest == "" || entries[k] < entries[oldest] then k else oldest
  }

  /** An order in which a map may be iterated. */
  ghost predicate Order(entries: Table, order: seq<string>) {
    && (forall k :: k in order <==> k in entries)
    && (forall i, j :: 0 <= i < j < |order| ==> order[i] != order[j])
  }

  ghost predicate Evictable(entries: Table, victim: string) {
    exists order :: Order(entries, order) && victim == Scan(entries, order)
  }

  predicate Remembers(entries: Table, window: int, id: string, now: int) {
    id in entries && now - entries[id] < window
  }

  ghost predicate SeeStep(maxSize: nat, window: int, before: Table, id: string, now: int, isNew: bool, after: Table) {
    && isNew == !Remembers(before, window, id, now)
    && if !isNew then after == before
       else if |before| < maxSize then after == before[id := now]
       else exists victim :: Evictable(before, victim) && after == (before - {victim})[id := now]
  }

  /** See answers whether the id is remembered, and then it is. */
  lemma RemembersSeen(maxSize: nat, window: int, before: Table, id: string, now: int, isNew: bool, after: Table)
    requires SeeStep(maxSize, window, before, id, now, isNew, after)
    ensures isNew == !Remembers(before, window, id, now) && (window > 0 ==> Remembers(after, window, id, now))
  {
  }

  function Unexpired(entries: Table, window: int, now: int): Table {
    map k | k in entries && now - entries[k] < window :: entries[k]
  }

  class SeenMessages {
    var entries: Table
    const maxSize: nat
    const window: int

    constructor (maxSize: nat, window: int)
      ensures entries == map[] && this.maxSize == maxSize && this.window == window
    {
      this.maxSize, this.window := maxSize, window;
      entries := map[];
    }

    method Oldest() returns (oldest: string)
      ensures Evictable(entries, oldest)
    {
      oldest := "";
      var oldestTime := 0;
      var rest := entries.Keys;
      ghost var order: seq<string> := [];
      while rest != {}
        invariant rest <= entries.Keys
        invariant forall k :: k in order <==> k in entries.Keys - rest
        invariant forall i, j :: 0 <= i < j < |order| ==> order[i] != order[j]
        invariant oldest == Scan(entries, order)
        invariant oldest != "" ==> oldestTime == entries[oldest]
        decreases rest
      {
        var k :| k in rest;
        assert (order + [k])[..|order|] == order;
        assert k !in order && forall i :: 0 <= i < |order| ==> order[i] in order;
        if oldest == "" || entries[k] < oldestTime {
          oldest := k;
          oldestTime := entries[k];
        }
        order := order + [k];
        rest := rest - {k};
      }
      assert Order(entries, order);
    }

    method See(id: string, now: int) returns (isNew: bool)
      modifies this
      ensures SeeStep(maxSize, window, old(entries), id, now, isNew, entries)
      ensures isNew <==> (id in old(entries) ==> now - old(entries)[id] >= window)
      ensures !isNew ==> entries == old(entries)
      ensures isNew && |old(entries)| < maxSize ==> entries == old(entries)[id := now]
      ensures isNew && |old(entries)| >= maxSize && old(entries) != map[] && ScanSafe(old(entries)) ==>
        exists k :: IsOldest(old(entries), k) && entries == (old(entries) - {k})[id := now]
    {
      if entries != map[] {
        EvictsOldest(entries);
      }
      if id in entries && now - entries[id] < window {
        return false;
      }
      if |entries| >= maxSize {
        var oldest := Oldest();
        entries := entries - {oldest};
      }
      entries := entries[id := now];
      return true;
    }

    method Cleanup(now: int)
      modifies this
      ensures entries == Unexpired(old(entries), window, now)
      ensures forall id :: id in entries <==> id in old(entries) && now - old(entries)[id] < window
      ensures forall id :: id in entries ==> entries[id] == old(entries)[id]
    {
      var rest := entries.Keys;
      while rest != {}
        invariant rest <= old(entries).Keys
        invariant forall k :: k in entries <==>
          k in old(entries) && (k in rest || now - old(entries)[k] < window)
        invariant forall k :: k in entries ==> entries[k] == old(entries)[k]
        decreases rest
      {
        var id :| id in rest;
        if now - entries[id] >= window {
          entries := entries - {id};
        }
        rest := rest - {id};
      }
    }
  }

  // ---------------------------------------------------------------- runs

  datatype Call = See(id: string, now: int) | Cleanup(now: int)

  /** A history of calls, what See answered, and the table before each call and after the last. */
  datatype Run = Run(calls: seq<Call>, isNew: seq<bool>, tables: seq<Table>) {
    ghost predicate Valid(maxSize: nat, window: int) {
      && |isNew| == |calls| && |tables| == |calls| + 1 && tables[0] == map[]
      && forall n :: 0 <= n < |calls| ==> Step(maxSize, window, n)
    }

    ghost predicate Step(maxSize: nat, window: int, n: nat)
      requires n < |calls| == |isNew| == |tables| - 1
    {
      match calls[n]
      case See(id, now) => SeeStep(maxSize, window, tables[n], id, now, isNew[n], tables[n + 1])
      case Cleanup(now) => tables[n + 1] == Unexpired(tables[n], window, now)
    }

    ghost predicate Monotone() {
      forall m, n :: 0 <= m < n < |calls| ==> calls[m].now <= calls[n].now
    }

    ghost predicate StrictlyMonotone() {
      forall m, n :: 0 <= m < n < |calls| ==> calls[m].now < calls[n].now
    }

    /** Before call i, no other id was accepted at the tick of call i. */
    ghost predicate NoneAtTick(i: nat)
      requires i < |calls| == |isNew| && calls[i].See?
    {
      forall h :: 0 <= h < i && calls[h].See? && isNew[h] && calls[h].id != calls[i].id ==> calls[h].now != calls[i].now
    }

    /** Call n accepted `id`. */
    predicate Accepted(n: nat, id: string) {
      n < |calls| && n < |isNew| && calls[n].See? && calls[n].id == id && isNew[n]
    }

    /** From call `from` up to call `to`, no eviction finds the empty id strictly the oldest of several. */
    ghost predicate EvictsSafely(maxSize: nat, from: nat, to: nat)
      requires to <= |calls| == |isNew| == |tables| - 1
    {
      forall n :: from <= n < to && calls[n].See? && isNew[n] && |tables[n]| >= maxSize ==> ScanSafe(tables[n])
    }

    /** The ids other than `id` accepted from call `from` up to call n, no earlier than `since`. */
    ghost function Others(id: string, from: nat, n: nat, since: int): set<string>
      requires n <= |calls| && n <= |isNew|
    {
      set h | from <= h < n && calls[h].See? && isNew[h] && calls[h].now >= since && calls[h].id != id :: calls[h].id
    }
  }

  // ---------------------------------------------------------------- the scan finds the oldest entry

  ghost predicate IsOldest(entries: Table, k: string) {
    k in entries && forall h :: h in entries ==> entries[k] <= entries[h]
  }

  /** The empty id is not in the table, or is its only entry, or some other entry is at least as old. */
  ghost predicate ScanSafe(entries: Table) {
    "" in entries ==> entries.Keys == {""} || exists k :: k in entries && k != "" && entries[k] <= entries[""]
  }

  ghost predicate AllAtLeast(entries: Table, ids: seq<string>, time: int) {
    forall i :: 0 <= i < |ids| ==> ids[i] in entries && time <= entries[ids[i]]
  }

  /** Scanning on over non-empty ids: the result is the least of them and of what had been found before. */
  lemma {:induction false} ScanOn(entries: Table, init: seq<string>, rest: seq<string>)
    requires "" !in rest && forall k :: k in init + rest ==> k in entries
    ensures var found, r := Scan(entries, init), Scan(entries, init + rest);
      if rest == [] then r == found
      else
        && (r in rest || (r == found && found != "")) && AllAtLeast(entries, rest, entries[r])
        && (found != "" ==> entries[r] <= entries[found])
  {
    if rest == [] {
      assert init + rest == init;
    } else {
      var less := rest[..|rest| - 1];
      assert (init + rest)[..|init + rest| - 1] == init + less;
      ScanOn(entries, init, less);
    }
  }

  /** Every entry other than "" is listed in one of the two parts, and "" in neither. */
  ghost predicate Parts(entries: Table, pre: seq<string>, post: seq<string>) {
    && "" !in pre && "" !in post
    && (forall k :: k in pre + post ==> k in entries)
    && forall k :: k in entries && k != "" ==> k in pre || k in post
  }

  lemma AtLeast(entries: Table, ids: seq<string>, time: int, k: string)
    requires AllAtLeast(entries, ids, time) && k in ids && k in entries
    ensures time <= entries[k]
  {
  }

  /** The scan over a table without the empty id. */
  lemma ScanWithout(entries: Table, order: seq<string>)
    requires Order(entries, order) && "" !in order && order != []
    ensures IsOldest(entries, Scan(entries, order))
  {
    assert [] + order == order;
    ScanOn(entries, [], order);
    var r := Scan(entries, order);
    forall k | k in entries
      ensures entries[r] <= entries[k]
    {
      AtLeast(entries, order, entries[r], k);
    }
  }

  /** The scan that comes across the empty id after `pre`, and goes on with `post`. */
  lemma ScanAround(entries: Table, pre: seq<string>, post: seq<string>)
    requires Parts(entries, pre, post) && "" in entries && ScanSafe(entries)
    ensures IsOldest(entries, Scan(entries, pre + [""] + post))
  {
    assert [] + pre == pre && (pre + [""])[..|pre|] == pre;
    assert forall k :: k in pre + [""] ==> k == "" || k in pre;
    assert forall k :: k in pre + [""] + post ==> k == "" || k in pre + post;
    ScanOn(entries, [], pre);
    ScanOn(entries, pre + [""], post);
    var p, q, r := Scan(entries, pre), Scan(entries, pre + [""]), Scan(entries, pre + [""] + post);
    assert q == if p == "" || entries[""] < entries[p] then "" else p;
    hide Scan, AllAtLeast;
    SafeEnough(entries, pre, post, p, q, r);
  }

  /** `p`, `q` and `r` are what the scan has found before the empty id, right after it, and at the end. */
  lemma SafeEnough(entries: Table, pre: seq<string>, post: seq<string>, p: string, q: string, r: string)
    requires Parts(entries, pre, post) && "" in entries && ScanSafe(entries)
    requires if pre == [] then p == "" else p in pre && AllAtLeast(entries, pre, entries[p])
    requires q == if p == "" || entries[""] < entries[p] then "" else p
    requires if post == [] then r == q
             else (r in post || (r == q && q != "")) && AllAtLeast(entries, post, entries[r])
                  && (q != "" ==> entries[r] <= entries[q])
    ensures IsOldest(entries, r)
  {
    hide AllAtLeast;
    assert p != "" ==> p in pre && p in entries;
    assert r in entries;
    forall k | k in pre
      ensures entries[p] <= entries[k]
    {
      AtLeast(entries, pre, entries[p], k);
    }
    forall k | k in post
      ensures entries[r] <= entries[k]
    {
      AtLeast(entries, post, entries[r], k);
    }
    assert entries[r] <= entries[""];
  }

  lemma ScanEnds(entries: Table, order: seq<string>)
    requires Order(entries, order) && entries != map[] && ScanSafe(entries)
    ensures IsOldest(entries, Scan(entries, order))
  {
    if i :| 0 <= i < |order| && order[i] == "" {
      var pre, post := order[..i], order[i + 1..];
      assert order == pre + [""] + post;
      OrderParts(entries, order, i);
      hide Scan, ScanSafe, IsOldest, Parts;
      ScanAround(entries, pre, post);
    } else {
      var k :| k in entries;
      assert k in order;
      hide Scan, ScanSafe, IsOldest;
      ScanWithout(entries, order);
    }
  }

  lemma OrderParts(entries: Table, order: seq<string>, i: nat)
    requires Order(entries, order) && i < |order| && order[i] == ""
    ensures Parts(entries, order[..i], order[i + 1..]) && "" in entries
  {
    var pre, post := order[..i], order[i + 1..];
    assert order[i] in order;
    forall k | k in pre + post
      ensures k in entries
    {
      assert k in order;
    }
    forall k | k in entries && k != ""
      ensures k in pre || k in post
    {
      var j :| 0 <= j < |order| && order[j] == k;
      assert if j < i then k == pre[j] else k == post[j - i - 1];
    }
  }

  lemma UnsafeEvicts(entries: Table) returns (victim: string)
    requires !ScanSafe(entries)
    ensures Evictable(entries, victim) && !IsOldest(entries, victim)
  {
    var rest := Enumerated(entries.Keys - {""});
    var order := [""] + rest;
    assert [""][..0] == [] && Scan(entries, [""]) == "";
    ScanOn(entries, [""], rest);
    assert Order(entries, order);
    victim := Scan(entries, order);
    assert rest == [] ==> entries.Keys == {""};
  }

  /** Whatever the iteration order, the evicted entry is an oldest one, exactly when the empty id is not
      strictly the oldest of several entries. */
  lemma EvictsOldest(entries: Table)
    requires entries != map[]
    ensures (forall victim :: Evictable(entries, victim) ==> IsOldest(entries, victim)) <==> ScanSafe(entries)
  {
    if ScanSafe(entries) {
      forall victim | Evictable(entries, victim)
        ensures IsOldest(entries, victim)
      {
        var order :| Order(entries, order) && victim == Scan(entries, order);
        ScanEnds(entries, order);
      }
    } else {
      var victim := UnsafeEvicts(entries);
    }
  }

  lemma {:induction false} ScanFindsOne(entries: Table, order: seq<string>)
    requires order != [] && forall k :: k in order ==> k in entries
    ensures Scan(entries, order) in order
  {
    if |order| > 1 {
      ScanFindsOne(entries, order[..|order| - 1]);
    }
  }

  // ---------------------------------------------------------------- safety over all runs

  /** The table never grows beyond maxSize (beyond one entry, when maxSize is 0). */
  lemma {:induction false} SizeBound(run: Run, maxSize: nat, window: int, n: nat)
    requires run.Valid(maxSize, window) && n <= |run.calls|
    ensures |run.tables[n]| <= if maxSize == 0 then 1 else maxSize
  {
    if n > 0 {
      SizeBound(run, maxSize, window, n - 1);
      var before, after := run.tables[n - 1], run.tables[n];
      assert run.Step(maxSize, window, n - 1);
      if run.calls[n - 1].Cleanup? {
        SubmapSize(after, before);
      } else if run.isNew[n - 1] {
        InsertSize(before, run.calls[n - 1].id, run.calls[n - 1].now);
        if |before| >= maxSize {
          var id, now := run.calls[n - 1].id, run.calls[n - 1].now;
          var victim :| Evictable(before, victim) && after == (before - {victim})[id := now];
          var order :| Order(before, order) && victim == Scan(before, order);
          if before != map[] {
            var k :| k in before;
            assert k in order;
            ScanFindsOne(before, order);
            RemoveSize(before, victim);
          } else {
            assert before - {victim} == before;
          }
          InsertSize(before - {victim}, run.calls[n - 1].id, run.calls[n - 1].now);
        }
      }
    }
  }

  lemma SubmapSize(a: Table, b: Table)
    requires a.Keys <= b.Keys
    ensures |a| <= |b|
  {
    SubsetSize(a.Keys, b.Keys);
    assert |a| == |a.Keys| && |b| == |b.Keys|;
  }

  lemma RemoveSize(m: Table, k: string)
    requires k in m
    ensures |m - {k}| == |m| - 1
  {
    assert (m - {k}).Keys == m.Keys - {k};
    assert |(m - {k}).Keys| == |m.Keys| - 1;
  }

  lemma InsertSize(m: Table, k: string, v: int)
    ensures |m[k := v]| <= |m| + 1
  {
    assert m[k := v].Keys == m.Keys + {k};
    assert |m[k := v].Keys| <= |m.Keys| + 1;
  }

  /** Every entry records an accepted call. */
  lemma {:induction false} EntriesAccepted(run: Run, maxSize: nat, window: int, n: nat, id: string)
    requires run.Valid(maxSize, window) && n <= |run.calls| && id in run.tables[n]
    ensures exists h :: 0 <= h < n && run.Accepted(h, id) && run.calls[h].now == run.tables[n][id]
  {
    assert n > 0 && run.Step(maxSize, window, n - 1);
    if id in run.tables[n - 1] && run.tables[n - 1][id] == run.tables[n][id] {
      EntriesAccepted(run, maxSize, window, n - 1, id);
    } else {
      assert run.Accepted(n - 1, id);
    }
  }

  /** A duplicate was accepted less than the window ago. */
  lemma RejectedWasAccepted(run: Run, maxSize: nat, window: int, j: nat)
    requires run.Valid(maxSize, window) && j < |run.calls| && run.calls[j].See? && !run.isNew[j]
    ensures exists i :: 0 <= i < j && run.Accepted(i, run.calls[j].id) && run.calls[j].now - run.calls[i].now < window
  {
    assert run.Step(maxSize, window, j);
    EntriesAccepted(run, maxSize, window, j, run.calls[j].id);
  }

  /** An id that a See for another one removed was an oldest entry of a full table. */
  lemma EvictedIsOldest(maxSize: nat, window: int, before: Table, id: string, x: string, now: int, after: Table)
    requires SeeStep(maxSize, window, before, x, now, true, after) && x != id
    requires id in before && id !in after && now - before[id] < window
    requires |before| >= maxSize ==> ScanSafe(before)
    ensures |before| >= maxSize && IsOldest(before, id)
    ensures x !in before || now - before[x] >= window
  {
    if |before| >= maxSize {
      var victim :| Evictable(before, victim) && after == (before - {victim})[x := now];
      assert victim == id;
      EvictsOldest(before);
    }
  }

  /** An evicted id was the oldest of a full table, all of whose other ids, and the newcomer, came later. */
  lemma EvictionCrowds(run: Run, maxSize: nat, window: int, i: nat, n: nat, id: string)
    requires run.Valid(maxSize, window) && run.Monotone() && i < n < |run.calls| && run.EvictsSafely(maxSize, n, n + 1)
    requires run.calls[n].See? && run.isNew[n] && run.calls[n].id != id
    requires id in run.tables[n] && run.tables[n][id] >= run.calls[i].now
    requires id !in run.tables[n + 1] && run.calls[n].now - run.calls[i].now < window
    ensures |run.Others(id, 0, n + 1, run.calls[i].now)| >= maxSize
  {
    var before, x, since := run.tables[n], run.calls[n].id, run.calls[i].now;
    assert run.Step(maxSize, window, n);
    EvictedIsOldest(maxSize, window, before, id, x, run.calls[n].now, run.tables[n + 1]);
    hide SeeStep, ScanSafe, Run.EvictsSafely;
    assert IsOldest(before, id) && x !in before;
    var crowd := run.Others(id, 0, n + 1, since);
    forall k | k in before.Keys - {id}
      ensures k in crowd
    {
      EntriesAccepted(run, maxSize, window, n, k);
    }
    assert run.calls[i].now <= run.calls[n].now;
    assert x in crowd;
    SubsetSize(before.Keys - {id} + {x}, crowd);
    assert |before.Keys - {id} + {x}| == |before.Keys|;
  }

  lemma OthersGrow(run: Run, id: string, n: nat, since: int)
    requires n < |run.calls| == |run.isNew|
    ensures |run.Others(id, 0, n, since)| <= |run.Others(id, 0, n + 1, since)|
  {
    SubsetSize(run.Others(id, 0, n, since), run.Others(id, 0, n + 1, since));
  }

  /** After an accept, the id stays in the table until the window has passed or maxSize others came. */
  lemma {:induction false} Remembered(run: Run, maxSize: nat, window: int, i: nat, n: nat, id: string)
    requires run.Valid(maxSize, window) && run.Monotone()
    requires run.Accepted(i, id) && i < n <= |run.calls| && run.EvictsSafely(maxSize, i + 1, n)
    requires forall c :: i <= c < n ==> run.calls[c].now - run.calls[i].now < window
    ensures (id in run.tables[n] && run.tables[n][id] >= run.calls[i].now)
         || |run.Others(id, 0, n, run.calls[i].now)| >= maxSize
    decreases n
  {
    assert run.Step(maxSize, window, n - 1);
    if n > i + 1 {
      Remembered(run, maxSize, window, i, n - 1, id);
      OthersGrow(run, id, n - 1, run.calls[i].now);
      assert run.calls[i].now <= run.calls[n - 1].now;
      if id in run.tables[n - 1] && run.tables[n - 1][id] >= run.calls[i].now && id !in run.tables[n] {
        EvictionCrowds(run, maxSize, window, i, n - 1, id);
      }
    }
  }

  /** If an id is accepted twice within less than the window, at least maxSize distinct other ids were
      accepted no earlier than the first time. */
  lemma AcceptedTwice(run: Run, maxSize: nat, window: int, i: nat, j: nat, id: string)
    requires run.Valid(maxSize, window) && run.Monotone()
    requires i < j && run.Accepted(i, id) && run.Accepted(j, id) && run.EvictsSafely(maxSize, i + 1, j)
    requires run.calls[j].now - run.calls[i].now < window
    ensures |run.Others(id, 0, j, run.calls[i].now)| >= maxSize
  {
    assert run.Step(maxSize, window, j);
    Remembered(run, maxSize, window, i, j, id);
  }

  /** They were accepted in between, unless another id was accepted before the first time at the very same tick. */
  lemma AcceptedTwiceBetween(run: Run, maxSize: nat, window: int, i: nat, j: nat, id: string)
    requires run.Valid(maxSize, window) && run.Monotone()
    requires i < j && run.Accepted(i, id) && run.Accepted(j, id) && run.EvictsSafely(maxSize, i + 1, j)
    requires run.calls[j].now - run.calls[i].now < window
    requires run.NoneAtTick(i)
    ensures |run.Others(id, i + 1, j, run.calls[i].now)| >= maxSize
  {
    AcceptedTwice(run, maxSize, window, i, j, id);
    assert run.Others(id, 0, j, run.calls[i].now) == run.Others(id, i + 1, j, run.calls[i].now);
  }

  /** With such an id it fails: in a table of two, b can be accepted twice with only c in between, although the
      empty id is nowhere. */
  lemma SameTickInBetween(a: string, b: string, c: string) returns (run: Run)
    requires a != "" && b != "" && c != "" && a != b && b != c && a != c
    ensures run.Valid(2, 100) && run.Monotone()
    ensures run.calls == [See(a, 1), See(b, 1), See(c, 1), See(b, 1)] && run.EvictsSafely(2, 0, 4)
    ensures run.Accepted(1, b) && run.Accepted(3, b) && !run.NoneAtTick(1)
    ensures |run.Others(b, 2, 3, 1)| < 2
  {
    hide SeeStep, Evictable, Run.Others, Run.Step, Run.Valid, ScanSafe;
    var t1, t2, t3, t4 := map[a := 1], map[b := 1, a := 1], map[a := 1, c := 1], map[c := 1, b := 1];
    run := Run([See(a, 1), See(b, 1), See(c, 1), See(b, 1)], [true, true, true, true], [map[], t1, t2, t3, t4]);
    EntersFirst(a, 1, map[]);
    EntersFirst(b, 1, t1);
    assert t1[b := 1] == t2;
    EvictsEither(b, a, c);
    EvictsEither(a, c, b);
    FourCalls(run);
    NeverEmpty(run, 2, 4);
    OneOther(run, b, 2, 1);
    assert run.Accepted(0, a);
  }

  lemma NeverEmpty(run: Run, maxSize: nat, to: nat)
    requires to <= |run.calls| == |run.isNew| == |run.tables| - 1
    requires forall n :: 0 <= n < to ==> "" !in run.tables[n]
    ensures run.EvictsSafely(maxSize, 0, to)
  {
  }

  lemma FourCalls(run: Run)
    requires |run.calls| == |run.isNew| == 4 && |run.tables| == 5 && run.tables[0] == map[]
    requires forall n :: 0 <= n < 4 ==> run.calls[n].See? && run.calls[n].now == 1 && run.isNew[n]
    requires forall n :: 0 <= n < 4 ==> SeeStep(2, 100, run.tables[n], run.calls[n].id, 1, true, run.tables[n + 1])
    ensures run.Valid(2, 100) && run.Monotone()
  {
    hide SeeStep;
  }

  /** Of two entries of the same age, either may be evicted. */
  lemma EvictsEither(victim: string, other: string, x: string)
    requires victim != "" && other != "" && victim != other && x != victim && x != other
    ensures SeeStep(2, 100, map[victim := 1, other := 1], x, 1, true, map[other := 1, x := 1])
  {
    var m, order := map[victim := 1, other := 1], [victim, other];
    assert order[..1] == [victim] && [victim][..0] == [];
    assert Scan(m, [victim]) == victim;
    assert Order(m, order) && Scan(m, order) == victim;
    assert (m - {victim})[x := 1] == map[other := 1, x := 1];
    assert m.Keys == {victim, other} && |m| == |m.Keys| == 2;
  }

  /** As long as fewer than maxSize other ids are accepted per window, See answers exactly whether the id
      was accepted within the window. */
  lemma DedupExact(run: Run, maxSize: nat, window: int, j: nat)
    requires run.Valid(maxSize, window) && run.Monotone()
    requires j < |run.calls| && run.calls[j].See? && run.EvictsSafely(maxSize, 0, j)
    requires |run.Others(run.calls[j].id, 0, j, run.calls[j].now - window + 1)| < maxSize
    ensures run.isNew[j] <==>
      !exists i :: 0 <= i < j && run.Accepted(i, run.calls[j].id) && run.calls[j].now - run.calls[i].now < window
  {
    var id, now := run.calls[j].id, run.calls[j].now;
    if !run.isNew[j] {
      RejectedWasAccepted(run, maxSize, window, j);
    } else if i :| 0 <= i < j && run.Accepted(i, id) && now - run.calls[i].now < window {
      AcceptedTwice(run, maxSize, window, i, j, id);
      SubsetSize(run.Others(id, 0, j, run.calls[i].now), run.Others(id, 0, j, now - window + 1));
    }
  }

  /** The empty id is the scan's own marker, and breaks it: with a table of two and a window of 100, c is
      accepted at time 2 and again at time 4, although only d was accepted in between. */
  lemma EmptyIdBreaksEviction(c: string, d: string) returns (run: Run)
    requires c != "" && d != "" && c != d
    ensures run.Valid(2, 100) && run.StrictlyMonotone()
    ensures run.Accepted(1, c) && run.calls[1].now == 2
    ensures run.Accepted(3, c) && run.calls[3].now == 4
    ensures |run.Others(c, 2, 3, 2)| < 2 && !run.EvictsSafely(2, 2, 3)
  {
    var t1, t2, t3 := map["" := 1], map["" := 1, c := 2], map["" := 1, d := 3];
    run := Run([See("", 1), See(c, 2), See(d, 3), See(c, 4)], [true, true, true, true],
      [map[], t1, t2, t3, map["" := 1, c := 4]]);
    EntersFirst("", 1, map[]);
    EntersFirst(c, 2, t1);
    EvictsSecond(c, 2, d, 3);
    EvictsSecond(d, 3, c, 4);
    hide SeeStep, Evictable, ScanSafe, Run.Others;
    assert run.Step(2, 100, 0) && run.Step(2, 100, 1) && run.Step(2, 100, 2) && run.Step(2, 100, 3);
    UnsafeTable(c, t2);
    hide Run.Step, ScanSafe;
    OneOther(run, c, 2, 2);
  }

  lemma OneOther(run: Run, id: string, n: nat, since: int)
    requires n < |run.calls| == |run.isNew|
    ensures |run.Others(id, n, n + 1, since)| <= 1
  {
    if run.calls[n].See? {
      assert run.Others(id, n, n + 1, since) <= {run.calls[n].id};
      SubsetSize(run.Others(id, n, n + 1, since), {run.calls[n].id});
    } else {
      assert run.Others(id, n, n + 1, since) == {};
    }
  }

  lemma UnsafeTable(k: string, m: Table)
    requires k != "" && m == map["" := 1, k := 2]
    ensures !ScanSafe(m) && |m| == 2
  {
    assert k in m && m.Keys == {"", k} && |m| == |m.Keys|;
  }

  lemma EntersFirst(x: string, now: int, m: Table)
    requires |m| < 2 && x !in m
    ensures SeeStep(2, 100, m, x, now, true, m[x := now])
  {
  }

  /** In a full table of two, a newcomer replaces the other entry, not the older empty id. */
  lemma EvictsSecond(k: string, t: int, x: string, now: int)
    requires k != "" && x != "" && k != x && 1 < t < now < 100
    ensures SeeStep(2, 100, map["" := 1, k := t], x, now, true, map["" := 1, x := now])
  {
    var m, order := map["" := 1, k := t], ["", k];
    assert order[..1] == [""];
    assert [""][..0] == [];
    assert Scan(m, [""]) == "";
    assert Order(m, order) && Scan(m, order) == k;
    assert (m - {k})[x := now] == map["" := 1, x := now];
    assert m.Keys == {"", k};
    assert |m| == |m.Keys| == 2;
  }
}
