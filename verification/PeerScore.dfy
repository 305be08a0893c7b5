// internal/network/peerscore.go: peer scores that decay exponentially, updated lazily. Weights are exact reals,
// time is in whole ticks and the decay is rate^ticks; the clock is read once per call and is a parameter.
module PeerScore {
  type Peer = string

  function Pow(rate: real, n: nat): real {
    if n == 0 then 1.0 else rate * Pow(rate, n - 1)
  }

  function Times(a: real, b: real): real {
    a * b
  }

  datatype Score = Score(success: real, failure: real, avgLatency: int, lastUpdated: int)

  type Scores = map<Peer, Score>

  const TICKS_PER_SECOND: int := 1_000_000_000

  function Decayed(rate: real, s: Score, now: int): Score {
    var elapsed := now - s.lastUpdated;
    if elapsed <= 0 then s
    else Score(Times(s.success, Pow(rate, elapsed)), Times(s.failure, Pow(rate, elapsed)), s.avgLatency, now)
  }

  /** Go's conversion of a / b to an integer truncates toward zero. */
  function Truncated(a: int, b: int): int
    requires b > 0
  {
    if a >= 0 then a / b else -((-a) / b)
  }

  /** The moving average of latencies, with 0 for "none yet" and alpha 3/10. */
  function Averaged(avg: int, latency: int): int {
    if avg == 0 then latency else Truncated(7 * avg + 3 * latency, 10)
  }

  function Penalty(avgLatency: int): real {
    if avgLatency > 0 then avgLatency as real / TICKS_PER_SECOND as real * 0.1 else 0.0
  }

  function ComputeScore(s: Score): real {
    s.success - s.failure - Penalty(s.avgLatency)
  }

  function Fetch(scores: Scores, id: Peer, now: int): Score {
    if id in scores then scores[id] else Score(0.0, 0.0, 0, now)
  }

  function Succeeded(rate: real, s: Score, latency: int, now: int): Score {
    var d := Decayed(rate, s, now);
    d.(success := d.success + 1.0, avgLatency := Averaged(d.avgLatency, latency))
  }

  function Failed(rate: real, s: Score, now: int): Score {
    var d := Decayed(rate, s, now);
    d.(failure := d.failure + 1.0)
  }

  /** All the given peers that are known, brought up to date. */
  function Refreshed(rate: real, scores: Scores, peers: seq<Peer>, now: int): Scores {
    map p | p in scores :: if p in peers then Decayed(rate, scores[p], now) else scores[p]
  }

  /** What GetScore returns. */
  function ScoreAt(rate: real, scores: Scores, id: Peer, now: int): real {
    if id in scores then ComputeScore(Decayed(rate, scores[id], now)) else 0.0
  }

  datatype Pair = Pair(id: Peer, score: real)

  function Pairs(rate: real, scores: Scores, peers: seq<Peer>, now: int): seq<Pair> {
    if peers == [] then []
    else
      var last := peers[|peers| - 1];
      Pairs(rate, scores, peers[..|peers| - 1], now) + [Pair(last, ScoreAt(rate, scores, last, now))]
  }

  ghost predicate NonIncreasing(list: seq<Pair>) {
    forall i, j :: 0 <= i < j < |list| ==> list[i].score >= list[j].score
  }

  function Ids(list: seq<Pair>): seq<Peer> {
    seq(|list|, i requires 0 <= i < |list| => list[i].id)
  }

  /** `result` heads some ranking of the list by score (sort.Slice leaves the order of ties open). */
  ghost predicate TopOf(list: seq<Pair>, n: int, result: seq<Peer>) {
    exists ranked :: Ranking(list, ranked) && result == Ids(ranked[..Count(n, |list|)])
  }

  ghost predicate Ranking(list: seq<Pair>, ranked: seq<Pair>) {
    multiset(ranked) == multiset(list) && |ranked| == |list| && NonIncreasing(ranked)
  }

  function Count(n: int, size: nat): (k: nat)
    ensures k <= size
  {
    if n < 0 then 0 else if n < size then n else size
  }

  // ---------------------------------------------------------------- the scorer

  class ScoreCell {
    var weightedSuccess: real
    var weightedFailure: real
    var avgLatency: int
    var lastUpdated: int

    constructor (now: int)
      ensures Value() == Score(0.0, 0.0, 0, now)
    {
      weightedSuccess, weightedFailure, avgLatency, lastUpdated := 0.0, 0.0, 0, now;
    }

    ghost function Value(): Score
      reads this
    {
      Score(weightedSuccess, weightedFailure, avgLatency, lastUpdated)
    }

    method ApplyDecay(rate: real, now: int)
      modifies this
      ensures Value() == Decayed(rate, old(Value()), now)
    {
      var elapsed := now - lastUpdated;
      if elapsed <= 0 {
        return;
      }
      var factor := Pow(rate, elapsed);
      weightedSuccess := weightedSuccess * factor;
      weightedFailure := weightedFailure * factor;
      lastUpdated := now;
    }
  }

  class PeerScorer {
    var scores: map<Peer, ScoreCell>
    const rate: real

    ghost predicate Valid()
      reads this
    {
      forall p, q :: p in scores && q in scores && p != q ==> scores[p] != scores[q]
    }

    ghost function View(): Scores
      reads this, scores.Values
    {
      map p | p in scores :: scores[p].Value()
    }

    constructor (rate: real)
      ensures Valid() && View() == map[] && this.rate == rate
    {
      this.rate := rate;
      scores := map[];
    }

    method CellOf(id: Peer, now: int) returns (s: ScoreCell)
      requires Valid()
      modifies this`scores
      ensures Valid() && id in scores && s == scores[id]
      ensures id in old(scores) ==> scores == old(scores)
      ensures id !in old(scores) ==> scores == old(scores)[id := s] && fresh(s) && s.Value() == Score(0.0, 0.0, 0, now)
    {
      if id in scores {
        s := scores[id];
      } else {
        s := new ScoreCell(now);
        scores := scores[id := s];
      }
    }

    method RecordSuccess(id: Peer, latency: int, now: int)
      requires Valid()
      modifies this, scores.Values
      ensures Valid() && fresh(scores.Values - old(scores.Values))
      ensures View() == old(View())[id := Succeeded(rate, Fetch(old(View()), id, now), latency, now)]
    {
      hide Decayed, Pow, Truncated, PeerScorer.View;
      FetchCell(id, now);
      var s := CellOf(id, now);
      s.ApplyDecay(rate, now);
      s.weightedSuccess := s.weightedSuccess + 1.0;
      if s.avgLatency == 0 {
        s.avgLatency := latency;
      } else {
        s.avgLatency := Truncated(7 * s.avgLatency + 3 * latency, 10);
      }
      OthersKept(id, s);
    }

    method RecordFailure(id: Peer, now: int)
      requires Valid()
      modifies this, scores.Values
      ensures Valid() && fresh(scores.Values - old(scores.Values))
      ensures View() == old(View())[id := Failed(rate, Fetch(old(View()), id, now), now)]
    {
      hide Decayed, Pow, PeerScorer.View;
      FetchCell(id, now);
      var s := CellOf(id, now);
      s.ApplyDecay(rate, now);
      s.weightedFailure := s.weightedFailure + 1.0;
      OthersKept(id, s);
    }

    lemma FetchCell(id: Peer, now: int)
      ensures Fetch(View(), id, now) == if id in scores then scores[id].Value() else Score(0.0, 0.0, 0, now)
    {
    }

    /** Only the given peer's cell changed. */
    twostate lemma OthersKept(id: Peer, new s: ScoreCell)
      requires Valid() && old(Valid()) && id in scores && scores[id] == s
      requires id in old(scores) ==> scores == old(scores)
      requires id !in old(scores) ==> scores == old(scores)[id := s]
      requires forall p :: p in old(scores) && p != id ==> unchanged(old(scores)[p])
      ensures View() == old(View())[id := s.Value()]
    {
    }

    method GetScore(id: Peer, now: int) returns (score: real)
      requires Valid()
      modifies scores.Values
      ensures Valid() && score == ScoreAt(rate, old(View()), id, now)
      ensures View() == Refreshed(rate, old(View()), [id], now)
      ensures scores == old(scores) && (id in scores ==> scores[id].lastUpdated >= now)
    {
      if id !in scores {
        return 0.0;
      }
      score := ScoreNow(id, now);
    }

    /** Insertion sort; all that the source relies on is that it sorts. */
    static method SortByScore(list: seq<Pair>) returns (ranked: seq<Pair>)
      ensures Ranking(list, ranked)
    {
      ranked := [];
      RanksNothing();
      hide *;
      assert list[..0] == [];
      for i := 0 to |list|
        invariant Ranking(list[..i], ranked)
      {
        var k := Place(ranked, list[i]);
        InsertRanks(list[..i], ranked, k, list[i]);
        ranked := ranked[..k] + [list[i]] + ranked[k..];
        assert list[..i + 1] == list[..i] + [list[i]];
      }
      assert list[..|list|] == list;
    }

    static lemma RanksNothing()
      ensures Ranking([], [])
    {
    }

    /** Where a pair belongs: after all that score at least as high. */
    static method Place(ranked: seq<Pair>, x: Pair) returns (k: nat)
      ensures k <= |ranked| && (k > 0 ==> ranked[k - 1].score >= x.score)
      ensures forall j :: k <= j < |ranked| ==> ranked[j].score < x.score
    {
      k := |ranked|;
      while k > 0 && ranked[k - 1].score < x.score
        invariant k <= |ranked|
        invariant forall j :: k <= j < |ranked| ==> ranked[j].score < x.score
      {
        k := k - 1;
      }
    }

    static lemma InsertRanks(list: seq<Pair>, ranked: seq<Pair>, k: nat, x: Pair)
      requires Ranking(list, ranked) && k <= |ranked|
      requires forall j :: k <= j < |ranked| ==> ranked[j].score < x.score
      requires k > 0 ==> ranked[k - 1].score >= x.score
      ensures Ranking(list + [x], ranked[..k] + [x] + ranked[k..])
    {
      InsertSameElements(ranked, k, x);
      InsertOrdered(ranked, k, x);
    }

    static lemma InsertSameElements(ranked: seq<Pair>, k: nat, x: Pair)
      requires k <= |ranked|
      ensures multiset(ranked[..k] + [x] + ranked[k..]) == multiset(ranked) + multiset{x}
    {
      assert ranked == ranked[..k] + ranked[k..];
    }

    static lemma InsertOrdered(ranked: seq<Pair>, k: nat, x: Pair)
      requires NonIncreasing(ranked) && k <= |ranked|
      requires k > 0 ==> ranked[k - 1].score >= x.score
      requires forall j :: k <= j < |ranked| ==> ranked[j].score < x.score
      ensures NonIncreasing(ranked[..k] + [x] + ranked[k..])
    {
      var r := ranked[..k] + [x] + ranked[k..];
      assert forall i :: 0 <= i < |r| ==> r[i] == if i < k then ranked[i] else if i == k then x else ranked[i - 1];
    }

    /** The first loop of BestPeers: bring every known peer of the list up to date, and list the scores. */
    method ScorePeers(peers: seq<Peer>, now: int) returns (list: seq<Pair>)
      requires Valid()
      modifies scores.Values
      ensures Valid() && View() == Refreshed(rate, old(View()), peers, now)
      ensures list == Pairs(rate, old(View()), peers, now)
    {
      list := [];
      hide Decayed, ComputeScore, ScoreAt;
      for i := 0 to |peers|
        invariant View() == Refreshed(rate, old(View()), peers[..i], now)
        invariant list == Pairs(rate, old(View()), peers[..i], now)
      {
        var p := peers[i];
        RefreshStep(rate, old(View()), peers, i, now);
        if p !in scores {
          list := list + [Pair(p, 0.0)];
        } else {
          var score := ScoreNow(p, now);
          list := list + [Pair(p, score)];
        }
      }
      assert peers[..|peers|] == peers;
    }

    /** The n best of the given peers; unknown peers score 0. */
    method BestPeers(peers: seq<Peer>, n: int, now: int) returns (result: seq<Peer>)
      requires Valid()
      modifies scores.Values
      ensures Valid() && View() == Refreshed(rate, old(View()), peers, now)
      ensures TopOf(Pairs(rate, old(View()), peers, now), n, result)
    {
      hide Decayed, ScoreAt, Pairs;
      var list := ScorePeers(peers, now);
      var ranked := SortByScore(list);
      result := [];
      var k := 0;
      while k < |ranked| && k < n
        invariant 0 <= k <= |ranked| && (k <= n || k == 0)
        invariant result == Ids(ranked[..k])
      {
        result := result + [ranked[k].id];
        k := k + 1;
      }
      TopOfRanking(list, ranked, n, result);
    }

    /** Decays one cell and scores it. */
    method ScoreNow(id: Peer, now: int) returns (score: real)
      requires Valid() && id in scores
      modifies scores[id]
      ensures score == ComputeScore(Decayed(rate, old(View())[id], now))
      ensures View() == old(View())[id := Decayed(rate, old(View())[id], now)]
      ensures scores[id].lastUpdated >= now
    {
      var s := scores[id];
      s.ApplyDecay(rate, now);
      OthersKept(id, s);
      score := s.weightedSuccess - s.weightedFailure;
      if s.avgLatency > 0 {
        score := score - s.avgLatency as real / TICKS_PER_SECOND as real * 0.1;
      }
    }
  }

  lemma TopOfRanking(list: seq<Pair>, ranked: seq<Pair>, n: int, result: seq<Peer>)
    requires Ranking(list, ranked) && result == Ids(ranked[..Count(n, |list|)])
    ensures TopOf(list, n, result)
  {
  }

  /** Refreshing one more peer of the list; refreshing it again at the same instant changes nothing. */
  lemma RefreshStep(rate: real, scores: Scores, peers: seq<Peer>, i: nat, now: int)
    requires i < |peers|
    ensures var before, p := Refreshed(rate, scores, peers[..i], now), peers[i];
      && Refreshed(rate, scores, peers[..i + 1], now)
         == (if p in scores then before[p := Decayed(rate, before[p], now)] else before)
      && Pairs(rate, scores, peers[..i + 1], now)
         == Pairs(rate, scores, peers[..i], now) + [Pair(p, ScoreAt(rate, scores, p, now))]
      && (p !in scores ==> ScoreAt(rate, scores, p, now) == 0.0)
      && (p in scores ==> ScoreAt(rate, scores, p, now) == ComputeScore(Decayed(rate, before[p], now)))
  {
    assert peers[..i + 1] == peers[..i] + [peers[i]];
    assert peers[..i + 1][..i] == peers[..i];
  }

  // ---------------------------------------------------------------- runs

  datatype Call =
    | Success(id: Peer, latency: int, now: int)
    | Failure(id: Peer, now: int)
    | Get(id: Peer, now: int)
    | Best(peers: seq<Peer>, now: int)

  function Apply(rate: real, scores: Scores, call: Call): Scores {
    match call
    case Success(id, latency, now) => scores[id := Succeeded(rate, Fetch(scores, id, now), latency, now)]
    case Failure(id, now) => scores[id := Failed(rate, Fetch(scores, id, now), now)]
    case Get(id, now) => Refreshed(rate, scores, [id], now)
    case Best(peers, now) => Refreshed(rate, scores, peers, now)
  }

  function Exec(rate: real, calls: seq<Call>): Scores {
    if calls == [] then map[] else Apply(rate, Exec(rate, calls[..|calls| - 1]), calls[|calls| - 1])
  }

  /** When p succeeded, when it failed, and with which latencies it succeeded. */
  function Successes(calls: seq<Call>, p: Peer): seq<int> {
    if calls == [] then []
    else
      var last, rest := calls[|calls| - 1], Successes(calls[..|calls| - 1], p);
      if last.Success? && last.id == p then rest + [last.now] else rest
  }

  function Failures(calls: seq<Call>, p: Peer): seq<int> {
    if calls == [] then []
    else
      var last, rest := calls[|calls| - 1], Failures(calls[..|calls| - 1], p);
      if last.Failure? && last.id == p then rest + [last.now] else rest
  }

  function Latencies(calls: seq<Call>, p: Peer): seq<int> {
    if calls == [] then []
    else
      var last, rest := calls[|calls| - 1], Latencies(calls[..|calls| - 1], p);
      if last.Success? && last.id == p then rest + [last.latency] else rest
  }

  /** The closed form: every event counts rate^age. */
  function Weight(rate: real, times: seq<int>, now: int): real {
    if times == [] then 0.0
    else
      var age := now - times[|times| - 1];
      Weight(rate, times[..|times| - 1], now) + Pow(rate, if age < 0 then 0 else age)
  }

  function Average(latencies: seq<int>): int {
    if latencies == [] then 0 else Averaged(Average(latencies[..|latencies| - 1]), latencies[|latencies| - 1])
  }

  ghost predicate AtMost(times: seq<int>, now: int) {
    forall i :: 0 <= i < |times| ==> times[i] <= now
  }

  lemma TimesAssociates(a: real, b: real, c: real)
    ensures a * Times(b, c) == Times(a * b, c)
  {
  }

  lemma TimesDistributes(a: real, b: real, c: real)
    ensures Times(a + b, c) == Times(a, c) + Times(b, c)
  {
  }

  lemma {:induction false} PowAdd(rate: real, m: nat, n: nat)
    ensures Pow(rate, m + n) == Times(Pow(rate, m), Pow(rate, n))
  {
    if m > 0 {
      assert Pow(rate, m + n) == Times(rate, Pow(rate, m - 1 + n)) && Pow(rate, m) == Times(rate, Pow(rate, m - 1));
      hide Pow;
      PowAdd(rate, m - 1, n);
      TimesAssociates(rate, Pow(rate, m - 1), Pow(rate, n));
    }
  }

  /** Decaying in two steps is decaying once, so it does not matter when a weight is brought up to date. */
  lemma DecayComposes(rate: real, s: Score, between: int, now: int)
    requires between <= now
    ensures Decayed(rate, Decayed(rate, s, between), now) == Decayed(rate, s, now)
  {
    if s.lastUpdated < between < now {
      var m, n := between - s.lastUpdated, now - between;
      PowAdd(rate, m, n);
      hide Pow;
      TimesTwice(s.success, Pow(rate, m), Pow(rate, n));
      TimesTwice(s.failure, Pow(rate, m), Pow(rate, n));
      hide Times;
    }
  }

  lemma TimesTwice(a: real, b: real, c: real)
    ensures Times(Times(a, b), c) == Times(a, Times(b, c))
  {
  }

  /** With a rate between 0 and 1, weights only ever shrink, and never below 0. */
  lemma DecayShrinks(rate: real, s: Score, now: int)
    requires 0.0 <= rate <= 1.0 && 0.0 <= s.success && 0.0 <= s.failure
    ensures 0.0 <= Decayed(rate, s, now).success <= s.success
    ensures 0.0 <= Decayed(rate, s, now).failure <= s.failure
  {
    if s.lastUpdated < now {
      PowInRange(rate, now - s.lastUpdated);
      TimesInRange(s.success, Pow(rate, now - s.lastUpdated));
      TimesInRange(s.failure, Pow(rate, now - s.lastUpdated));
    }
  }

  lemma {:induction false} PowInRange(rate: real, n: nat)
    requires 0.0 <= rate <= 1.0
    ensures 0.0 <= Pow(rate, n) <= 1.0
  {
    if n > 0 {
      PowInRange(rate, n - 1);
      TimesInRange(Pow(rate, n - 1), rate);
    }
  }

  lemma TimesInRange(a: real, b: real)
    requires 0.0 <= a && 0.0 <= b <= 1.0
    ensures 0.0 <= Times(a, b) <= a
  {
    assert a * b <= a * 1.0;
  }

  /** Letting time pass multiplies the closed form by the decay. */
  lemma {:induction false} WeightLater(rate: real, times: seq<int>, since: int, now: int)
    requires AtMost(times, since) && since <= now
    ensures Weight(rate, times, now) == Times(Weight(rate, times, since), Pow(rate, now - since))
  {
    if times != [] {
      var init, t := times[..|times| - 1], times[|times| - 1];
      WeightLast(rate, times, since);
      WeightLast(rate, times, now);
      hide Pow, Weight, Times;
      WeightLater(rate, init, since, now);
      PowAdd(rate, since - t, now - since);
      TimesDistributes(Weight(rate, init, since), Pow(rate, since - t), Pow(rate, now - since));
    }
  }

  lemma WeightLast(rate: real, times: seq<int>, now: int)
    requires times != [] && times[|times| - 1] <= now
    ensures Weight(rate, times, now)
         == Weight(rate, times[..|times| - 1], now) + Pow(rate, now - times[|times| - 1])
  {
  }

  lemma WeightAppend(rate: real, times: seq<int>, now: int)
    ensures Weight(rate, times + [now], now) == Weight(rate, times, now) + 1.0
  {
    assert (times + [now])[..|times|] == times;
  }

  /** A score stands for these events, as of its last update. */
  ghost predicate Stands(rate: real, s: Score, successes: seq<int>, failures: seq<int>, latencies: seq<int>) {
    && AtMost(successes, s.lastUpdated) && AtMost(failures, s.lastUpdated)
    && s.success == Weight(rate, successes, s.lastUpdated)
    && s.failure == Weight(rate, failures, s.lastUpdated)
    && s.avgLatency == Average(latencies)
  }

  lemma StandsDecayed(rate: real, s: Score, successes: seq<int>, failures: seq<int>, latencies: seq<int>, now: int)
    requires Stands(rate, s, successes, failures, latencies) && s.lastUpdated <= now
    ensures Stands(rate, Decayed(rate, s, now), successes, failures, latencies)
    ensures Decayed(rate, s, now).lastUpdated == now
  {
    hide Pow, Weight, Times;
    WeightLater(rate, successes, s.lastUpdated, now);
    WeightLater(rate, failures, s.lastUpdated, now);
  }

  lemma StandsSucceeded(rate: real, s: Score, successes: seq<int>, failures: seq<int>, latencies: seq<int>,
                        latency: int, now: int)
    requires Stands(rate, s, successes, failures, latencies) && s.lastUpdated <= now
    ensures Stands(rate, Succeeded(rate, s, latency, now), successes + [now], failures, latencies + [latency])
    ensures Succeeded(rate, s, latency, now).lastUpdated == now
  {
    StandsDecayed(rate, s, successes, failures, latencies, now);
    WeightAppend(rate, successes, now);
    assert (latencies + [latency])[..|latencies|] == latencies;
  }

  lemma StandsFailed(rate: real, s: Score, successes: seq<int>, failures: seq<int>, latencies: seq<int>, now: int)
    requires Stands(rate, s, successes, failures, latencies) && s.lastUpdated <= now
    ensures Stands(rate, Failed(rate, s, now), successes, failures + [now], latencies)
    ensures Failed(rate, s, now).lastUpdated == now
  {
    StandsDecayed(rate, s, successes, failures, latencies, now);
    WeightAppend(rate, failures, now);
  }

  /** One more tick multiplies both decayed weights by the rate. */
  lemma DecayTick(rate: real, s: Score, now: int)
    requires s.lastUpdated <= now
    ensures Decayed(rate, s, s.lastUpdated) == s
    ensures Decayed(rate, s, now + 1).success == rate * Decayed(rate, s, now).success
    ensures Decayed(rate, s, now + 1).failure == rate * Decayed(rate, s, now).failure
    ensures Decayed(rate, s, now + 1).avgLatency == s.avgLatency == Decayed(rate, s, now).avgLatency
  {
    var n := now - s.lastUpdated;
    assert Pow(rate, n + 1) == rate * Pow(rate, n);
    hide Pow;
    if n > 0 {
      MovesOut(s.success, rate, Pow(rate, n));
      MovesOut(s.failure, rate, Pow(rate, n));
    } else {
      OnePower(rate);
    }
  }

  lemma OnePower(rate: real)
    ensures Pow(rate, 0) == 1.0 && Pow(rate, 1) == rate
  {
  }

  lemma MovesOut(a: real, b: real, c: real)
    ensures Times(a, b * c) == b * Times(a, c)
  {
  }

  /** What a score is apart from the latency penalty is multiplied by the rate with every tick that passes; with
      a rate between 0 and 1, a peer whose successes outweigh its failures loses score with every tick. */
  lemma ScoreFades(rate: real, scores: Scores, p: Peer, now: int)
    requires p in scores && scores[p].lastUpdated <= now
    ensures var penalty := Penalty(scores[p].avgLatency);
      && ScoreAt(rate, scores, p, now + 1) + penalty == rate * (ScoreAt(rate, scores, p, now) + penalty)
      && (0.0 < rate < 1.0 && ScoreAt(rate, scores, p, now) + penalty > 0.0 ==>
            -penalty < ScoreAt(rate, scores, p, now + 1) < ScoreAt(rate, scores, p, now))
  {
    var s := scores[p];
    hide Decayed, Penalty;
    var v := Decayed(rate, s, now).success - Decayed(rate, s, now).failure;
    var w := Decayed(rate, s, now + 1).success - Decayed(rate, s, now + 1).failure;
    DifferenceTick(rate, s, now, v, w);
    Fades(rate, v, w, Penalty(s.avgLatency));
  }

  lemma DifferenceTick(rate: real, s: Score, now: int, v: real, w: real)
    requires s.lastUpdated <= now
    requires v == Decayed(rate, s, now).success - Decayed(rate, s, now).failure
    requires w == Decayed(rate, s, now + 1).success - Decayed(rate, s, now + 1).failure
    ensures w == Times(rate, v)
    ensures Decayed(rate, s, now).avgLatency == Decayed(rate, s, now + 1).avgLatency == s.avgLatency
  {
    DecayTick(rate, s, now);
    hide Decayed;
    Factored(rate, Decayed(rate, s, now).success, Decayed(rate, s, now).failure);
  }

  lemma Factored(a: real, b: real, c: real)
    ensures a * b - a * c == a * (b - c)
  {
  }

  lemma Fades(rate: real, v: real, w: real, penalty: real)
    requires w == Times(rate, v)
    ensures w - penalty + penalty == Times(rate, v - penalty + penalty)
    ensures 0.0 < rate < 1.0 && v - penalty + penalty > 0.0 ==> -penalty < w - penalty < v - penalty
  {
    hide Times;
    assert v - penalty + penalty == v;
    if 0.0 < rate < 1.0 && v > 0.0 {
      Shrinks(rate, v);
    }
  }

  lemma Shrinks(rate: real, v: real)
    requires 0.0 < rate < 1.0 && v > 0.0
    ensures 0.0 < Times(rate, v) < v
  {
    hide Times;
    TimesPositive(rate, v);
    TimesPositive(1.0 - rate, v);
    TimesDistributes(rate, 1.0 - rate, v);
    assert rate + (1.0 - rate) == 1.0;
    TimesOne(v);
  }

  lemma TimesPositive(a: real, b: real)
    requires a > 0.0 && b > 0.0
    ensures Times(a, b) > 0.0
  {
  }

  lemma TimesOne(a: real)
    ensures Times(1.0, a) == a
  {
  }

  /** A first success without latency counts 1 at once, and the rate one tick later. */
  lemma FirstSuccess(rate: real, p: Peer, t: int)
    ensures var scores := Exec(rate, [Success(p, 0, t)]);
      && p in scores
      && ScoreAt(rate, scores, p, t) == 1.0 && ScoreAt(rate, scores, p, t + 1) == rate
  {
    var calls := [Success(p, 0, t)];
    assert calls[..|calls| - 1] == [];
    assert Exec(rate, []) == map[];
    var scores := Exec(rate, calls);
    assert scores == Apply(rate, map[], calls[0]);
    assert scores[p] == Score(1.0, 0.0, 0, t);
    ScoreFades(rate, scores, p, t);
  }

  /** Latency costs a tenth of a point a second, and none at all when it is not positive. */
  lemma LatencyCosts(rate: real, scores: Scores, p: Peer, q: Peer, now: int)
    requires p in scores && q in scores
    requires scores[q] == scores[p].(avgLatency := scores[q].avgLatency)
    requires 0 <= scores[p].avgLatency <= scores[q].avgLatency
    ensures ScoreAt(rate, scores, p, now) - ScoreAt(rate, scores, q, now)
         == (scores[q].avgLatency - scores[p].avgLatency) as real / 1_000_000_000.0 * 0.1
    ensures scores[p].avgLatency < scores[q].avgLatency ==>
      ScoreAt(rate, scores, p, now) > ScoreAt(rate, scores, q, now)
  {
    PenaltyIs(scores[p].avgLatency);
    PenaltyIs(scores[q].avgLatency);
    hide Pow, Penalty;
  }

  lemma PenaltyIs(latency: int)
    requires 0 <= latency
    ensures Penalty(latency) == latency as real / 1_000_000_000.0 * 0.1
  {
  }

  /** A second latency counts three tenths, the first, when it is set, seven. */
  lemma SecondLatency(x: int, y: int)
    requires 0 <= x && 0 <= y
    ensures Average([x]) == x
    ensures Average([x, y]) == if x == 0 then y else (7 * x + 3 * y) / 10
  {
    assert [x, y][..1] == [x] && [x][..0] == [];
    assert Average([x]) == Averaged(Average([]), x);
  }

  ghost predicate Monotone(calls: seq<Call>, clock: int) {
    && (forall i, j :: 0 <= i < j < |calls| ==> calls[i].now <= calls[j].now)
    && (forall i :: 0 <= i < |calls| ==> calls[i].now <= clock)
  }

  ghost predicate Matches(rate: real, scores: Scores, calls: seq<Call>, p: Peer, clock: int) {
    if p in scores then
      && scores[p].lastUpdated <= clock
      && Stands(rate, scores[p], Successes(calls, p), Failures(calls, p), Latencies(calls, p))
    else
      Successes(calls, p) == [] && Failures(calls, p) == [] && Latencies(calls, p) == []
  }

  lemma EventsStep(calls: seq<Call>, p: Peer)
    requires calls != []
    ensures var init, last := calls[..|calls| - 1], calls[|calls| - 1];
      && Successes(calls, p) ==
           (if last.Success? && last.id == p then Successes(init, p) + [last.now] else Successes(init, p))
      && Failures(calls, p) ==
           (if last.Failure? && last.id == p then Failures(init, p) + [last.now] else Failures(init, p))
      && Latencies(calls, p) ==
           (if last.Success? && last.id == p then Latencies(init, p) + [last.latency] else Latencies(init, p))
  {
  }

  lemma FetchStands(rate: real, scores: Scores, calls: seq<Call>, p: Peer, clock: int)
    requires Matches(rate, scores, calls, p, clock)
    ensures Stands(rate, Fetch(scores, p, clock), Successes(calls, p), Failures(calls, p), Latencies(calls, p))
    ensures Fetch(scores, p, clock).lastUpdated <= clock
  {
  }

  /** What one call does to p's score. */
  lemma ApplyAt(rate: real, scores: Scores, call: Call, p: Peer)
    ensures var t, s := Apply(rate, scores, call), Fetch(scores, p, call.now);
      if call.Success? && call.id == p then p in t && t[p] == Succeeded(rate, s, call.latency, call.now)
      else if call.Failure? && call.id == p then p in t && t[p] == Failed(rate, s, call.now)
      else (p in t <==> p in scores) && (p in scores ==> t[p] == s || t[p] == Decayed(rate, s, call.now))
  {
    hide Succeeded, Failed, Decayed;
  }

  lemma MatchesStep(rate: real, scores: Scores, calls: seq<Call>, p: Peer)
    requires calls != [] && Matches(rate, scores, calls[..|calls| - 1], p, calls[|calls| - 1].now)
    ensures Matches(rate, Apply(rate, scores, calls[|calls| - 1]), calls, p, calls[|calls| - 1].now)
  {
    hide Stands, Successes, Failures, Latencies, Apply, Fetch, Succeeded, Failed, Decayed;
    var init, last := calls[..|calls| - 1], calls[|calls| - 1];
    var successes, failures, latencies := Successes(init, p), Failures(init, p), Latencies(init, p);
    EventsStep(calls, p);
    FetchStands(rate, scores, init, p, last.now);
    ApplyAt(rate, scores, last, p);
    var s := Fetch(scores, p, last.now);
    StandsDecayed(rate, s, successes, failures, latencies, last.now);
    if last.Success? {
      StandsSucceeded(rate, s, successes, failures, latencies, last.latency, last.now);
    } else if last.Failure? {
      StandsFailed(rate, s, successes, failures, latencies, last.now);
    }
  }

  lemma {:induction false} RunMatches(rate: real, calls: seq<Call>, p: Peer, clock: int)
    requires Monotone(calls, clock)
    ensures Matches(rate, Exec(rate, calls), calls, p, clock)
    decreases |calls|
  {
    if calls != [] {
      var init, last := calls[..|calls| - 1], calls[|calls| - 1];
      RunMatches(rate, init, p, last.now);
      MatchesStep(rate, Exec(rate, init), calls, p);
    }
  }

  /** After any interleaving of calls, a score is the sum over the recorded events of their decayed weights,
      less the penalty for the average latency. */
  lemma ClosedForm(rate: real, calls: seq<Call>, p: Peer, now: int)
    requires Monotone(calls, now)
    ensures ScoreAt(rate, Exec(rate, calls), p, now)
         == Weight(rate, Successes(calls, p), now) - Weight(rate, Failures(calls, p), now)
            - Penalty(Average(Latencies(calls, p)))
  {
    RunMatches(rate, calls, p, now);
    var scores := Exec(rate, calls);
    if p in scores {
      StandsDecayed(rate, scores[p], Successes(calls, p), Failures(calls, p), Latencies(calls, p), now);
    }
  }

  /** The calls that record something. */
  function Records(calls: seq<Call>): seq<Call> {
    if calls == [] then []
    else
      var last, rest := calls[|calls| - 1], Records(calls[..|calls| - 1]);
      if last.Success? || last.Failure? then rest + [last] else rest
  }

  lemma {:induction false} RecordsMonotone(calls: seq<Call>, clock: int)
    requires Monotone(calls, clock)
    ensures Monotone(Records(calls), clock)
    decreases |calls|
  {
    if calls != [] {
      RecordsMonotone(calls[..|calls| - 1], calls[|calls| - 1].now);
    }
  }

  lemma {:induction false} RecordsSameEvents(calls: seq<Call>, p: Peer)
    ensures Successes(Records(calls), p) == Successes(calls, p)
    ensures Failures(Records(calls), p) == Failures(calls, p)
    ensures Latencies(Records(calls), p) == Latencies(calls, p)
    decreases |calls|
  {
    if calls != [] {
      var init, last := calls[..|calls| - 1], calls[|calls| - 1];
      RecordsSameEvents(init, p);
      EventsStep(calls, p);
      hide Successes, Failures, Latencies;
      if last.Success? || last.Failure? {
        assert Records(calls)[..|Records(init)|] == Records(init);
        EventsStep(Records(calls), p);
      }
    }
  }

  /** Reading scores never changes any later score. */
  lemma ReadsDoNotMatter(rate: real, calls: seq<Call>, p: Peer, now: int)
    requires Monotone(calls, now)
    ensures ScoreAt(rate, Exec(rate, calls), p, now) == ScoreAt(rate, Exec(rate, Records(calls)), p, now)
  {
    RecordsSameEvents(calls, p);
    RecordsMonotone(calls, now);
    ClosedForm(rate, calls, p, now);
    ClosedForm(rate, Records(calls), p, now);
  }

  /** The average of non-negative latencies stays between the least and the greatest of them. */
  lemma {:induction false} AverageInRange(latencies: seq<int>, lo: int, hi: int)
    requires latencies != [] && 0 <= lo
    requires forall i :: 0 <= i < |latencies| ==> lo <= latencies[i] <= hi
    ensures lo <= Average(latencies) <= hi
  {
    var init, last := latencies[..|latencies| - 1], latencies[|latencies| - 1];
    if init != [] {
      AverageInRange(init, lo, hi);
    }
  }

  // ---------------------------------------------------------------- the best peers

  lemma {:induction false} PairsAre(rate: real, scores: Scores, peers: seq<Peer>, now: int)
    ensures |Pairs(rate, scores, peers, now)| == |peers|
    ensures forall i :: 0 <= i < |peers| ==>
      Pairs(rate, scores, peers, now)[i] == Pair(peers[i], ScoreAt(rate, scores, peers[i], now))
  {
    if peers != [] {
      PairsAre(rate, scores, peers[..|peers| - 1], now);
    }
  }

  /** The result has as many peers as asked for and available, each of them one of the inputs, best first by
      what GetScore says at that instant, and no input that was left out scores higher than one kept. */
  lemma BestPeersOptimal(rate: real, scores: Scores, peers: seq<Peer>, n: int, now: int, result: seq<Peer>)
    requires TopOf(Pairs(rate, scores, peers, now), n, result)
    ensures |result| == if n < 0 then 0 else if n < |peers| then n else |peers|
    ensures multiset(result) <= multiset(peers)
    ensures forall i, j :: 0 <= i < j < |result| ==>
      ScoreAt(rate, scores, result[i], now) >= ScoreAt(rate, scores, result[j], now)
    ensures forall kept: Peer, left: Peer :: kept in result && left in multiset(peers) - multiset(result) ==>
      ScoreAt(rate, scores, kept, now) >= ScoreAt(rate, scores, left, now)
  {
    PairsAre(rate, scores, peers, now);
    var list := Pairs(rate, scores, peers, now);
    var ranked: seq<Pair> :| Ranking(list, ranked) && result == Ids(ranked[..Count(n, |list|)]);
    RankedScores(rate, scores, peers, now, ranked);
    IdsOfSame(list, ranked);
    IdsOfPairs(rate, scores, peers, now);
    IdsSplit(ranked, Count(n, |list|));
    hide Pairs, ScoreAt, Ids;
    SplitMultiset(peers, result, Ids(ranked[|result|..]));
    HeadIsBest(rate, scores, peers, now, ranked, result);
  }

  lemma IdsOfPairs(rate: real, scores: Scores, peers: seq<Peer>, now: int)
    ensures Ids(Pairs(rate, scores, peers, now)) == peers
  {
    PairsAre(rate, scores, peers, now);
  }

  lemma IdsSplit(ranked: seq<Pair>, k: nat)
    requires k <= |ranked|
    ensures Ids(ranked) == Ids(ranked[..k]) + Ids(ranked[k..]) && |Ids(ranked[..k])| == k
  {
  }

  lemma HeadIsBest(rate: real, scores: Scores, peers: seq<Peer>, now: int, ranked: seq<Pair>, result: seq<Peer>)
    requires NonIncreasing(ranked) && |result| <= |ranked| && result == Ids(ranked[..|result|])
    requires forall i :: 0 <= i < |ranked| ==> ranked[i].score == ScoreAt(rate, scores, ranked[i].id, now)
    requires forall x :: x in multiset(peers) - multiset(result) ==> x in Ids(ranked[|result|..])
    ensures forall i, j :: 0 <= i < j < |result| ==>
      ScoreAt(rate, scores, result[i], now) >= ScoreAt(rate, scores, result[j], now)
    ensures forall kept: Peer, left: Peer :: kept in result && left in multiset(peers) - multiset(result) ==>
      ScoreAt(rate, scores, kept, now) >= ScoreAt(rate, scores, left, now)
  {
    hide ScoreAt;
    forall kept, left | kept in result && left in multiset(peers) - multiset(result)
      ensures ScoreAt(rate, scores, kept, now) >= ScoreAt(rate, scores, left, now)
    {
      KeptBeatsLeft(rate, scores, now, ranked, result, kept, left);
    }
  }

  lemma KeptBeatsLeft(rate: real, scores: Scores, now: int, ranked: seq<Pair>, result: seq<Peer>,
                      kept: Peer, left: Peer)
    requires NonIncreasing(ranked) && |result| <= |ranked| && result == Ids(ranked[..|result|])
    requires forall i :: 0 <= i < |ranked| ==> ranked[i].score == ScoreAt(rate, scores, ranked[i].id, now)
    requires kept in result && left in Ids(ranked[|result|..])
    ensures ScoreAt(rate, scores, kept, now) >= ScoreAt(rate, scores, left, now)
  {
    hide ScoreAt;
    var i :| 0 <= i < |result| && result[i] == kept;
    var j :| 0 <= j < |ranked[|result|..]| && Ids(ranked[|result|..])[j] == left;
    assert ranked[i].id == kept && ranked[|result| + j].id == left;
  }

  lemma SplitMultiset(all: seq<Peer>, a: seq<Peer>, b: seq<Peer>)
    requires multiset(all) == multiset(a + b)
    ensures multiset(a) <= multiset(all)
    ensures forall x :: x in multiset(all) - multiset(a) ==> x in b
  {
    assert multiset(a + b) == multiset(a) + multiset(b);
  }

  lemma RankedScores(rate: real, scores: Scores, peers: seq<Peer>, now: int, ranked: seq<Pair>)
    requires Ranking(Pairs(rate, scores, peers, now), ranked)
    ensures forall i :: 0 <= i < |ranked| ==> ranked[i].score == ScoreAt(rate, scores, ranked[i].id, now)
  {
    PairsAre(rate, scores, peers, now);
    hide ScoreAt, Pairs;
    forall i | 0 <= i < |ranked|
      ensures ranked[i].score == ScoreAt(rate, scores, ranked[i].id, now)
    {
      assert ranked[i] in multiset(ranked);
      assert ranked[i] in Pairs(rate, scores, peers, now);
    }
  }

  lemma RemoveOne(s: seq<Pair>, x: Pair) returns (rest: seq<Pair>)
    requires x in s
    ensures |rest| == |s| - 1 && multiset(s) == multiset(rest) + multiset{x}
    ensures multiset(Ids(s)) == multiset(Ids(rest)) + multiset{x.id}
  {
    var j :| 0 <= j < |s| && s[j] == x;
    rest := s[..j] + s[j + 1..];
    assert s == s[..j] + [s[j]] + s[j + 1..];
    assert Ids(s) == Ids(s[..j]) + [s[j].id] + Ids(s[j + 1..]);
    assert Ids(rest) == Ids(s[..j]) + Ids(s[j + 1..]);
  }

  /** Equal multisets of pairs have equal multisets of ids. */
  lemma {:induction false} IdsOfSame(a: seq<Pair>, b: seq<Pair>)
    requires multiset(a) == multiset(b)
    ensures multiset(Ids(a)) == multiset(Ids(b))
    decreases |a|
  {
    if a == [] {
      assert |multiset(b)| == 0;
      assert b == [];
    } else {
      hide Ids;
      assert a[0] in multiset(b);
      var restA := RemoveOne(a, a[0]);
      var restB := RemoveOne(b, a[0]);
      SameRest(multiset(restA), multiset(restB), a[0]);
      IdsOfSame(restA, restB);
    }
  }

  lemma SameRest(a: multiset<Pair>, b: multiset<Pair>, x: Pair)
    requires a + multiset{x} == b + multiset{x}
    ensures a == b
  {
    assert a == (a + multiset{x}) - multiset{x};
    assert b == (b + multiset{x}) - multiset{x};
  }
}
