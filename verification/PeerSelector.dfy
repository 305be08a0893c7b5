// internal/fileserver/peerselector.go: a partial Fisher-Yates shuffle. The random draws are a parameter:
// draws[i] is what rand.Intn(n - i) returns.
module PeerSelector {
  import opened Bytes

  /** The peers a message may go to. */
  function Candidates<T(==)>(all: seq<T>, exclude: T): seq<T> {
    if all == [] then []
    else if all[0] == exclude then Candidates(all[1..], exclude)
    else [all[0]] + Candidates(all[1..], exclude)
  }

  predicate ValidDraws(draws: seq<nat>, n: nat) {
    |draws| <= n && forall i :: 0 <= i < |draws| ==> draws[i] < n - i
  }

  ghost predicate Distinct<T>(s: seq<T>) {
    forall i, j :: 0 <= i < j < |s| ==> s[i] != s[j]
  }

  /** Sampling without replacement: each draw takes an element of the pool, whose place the first one fills. */
  function Sample<T>(pool: seq<T>, draws: seq<nat>): (r: seq<T>)
    requires ValidDraws(draws, |pool|)
    ensures |r| == |draws|
    decreases |draws|
  {
    if draws == [] then []
    else [pool[draws[0]]] + Sample(Remaining(pool, draws[0]), draws[1..])
  }

  function Remaining<T>(pool: seq<T>, j: nat): (r: seq<T>)
    requires j < |pool|
    ensures |r| == |pool| - 1
  {
    pool[j := pool[0]][1..]
  }

  /** One step of the in-place shuffle draws one element and leaves the rest of the pool behind it. */
  lemma SwapStep<T>(s: seq<T>, i: nat, draws: seq<nat>)
    requires i < |s| && i < |draws| && ValidDraws(draws, |s|)
    ensures var j := i + draws[i];
      var t := s[i := s[j]][j := s[i]];
      t[..i + 1] + Sample(t[i + 1..], draws[i + 1..]) == s[..i] + Sample(s[i..], draws[i..])
  {
    var j := i + draws[i];
    var t := s[i := s[j]][j := s[i]];
    assert draws[i..][1..] == draws[i + 1..];
    assert t[i + 1..] == Remaining(s[i..], draws[i]);
    assert t[..i + 1] == s[..i] + [s[i..][draws[i]]];
  }

  /** The swaps, in place: the first |draws| cells end up holding the sample. */
  method Shuffle<T>(a: array<T>, draws: seq<nat>)
    requires ValidDraws(draws, a.Length)
    modifies a
    ensures a[..|draws|] == Sample(old(a[..]), draws)
    ensures multiset(a[..]) == multiset(old(a[..]))
  {
    hide Sample, Remaining;
    ghost var pool := a[..];
    assert pool[..0] + Sample(pool[0..], draws[0..]) == Sample(pool, draws) by {
      assert pool[0..] == pool && draws[0..] == draws;
    }
    for i := 0 to |draws|
      invariant a[..][..i] + Sample(a[..][i..], draws[i..]) == Sample(pool, draws)
      invariant multiset(a[..]) == multiset(pool)
    {
      var j := i + draws[i];
      ghost var before := a[..];
      SwapStep(before, i, draws);
      SwapSame(before, i, j);
      a[i], a[j] := a[j], a[i];
      assert a[..] == before[i := before[j]][j := before[i]];
    }
    NothingDrawn(a[..][|draws|..]);
    assert draws[|draws|..] == [];
    assert a[..][..|draws|] == a[..|draws|];
  }

  lemma NothingDrawn<T>(pool: seq<T>)
    ensures Sample(pool, []) == []
  {
  }

  lemma SwapSame<T>(s: seq<T>, i: nat, j: nat)
    requires i < |s| && j < |s|
    ensures multiset(s[i := s[j]][j := s[i]]) == multiset(s)
  {
  }

  method CopyCandidates<T(==)>(all: seq<T>, exclude: T) returns (candidates: seq<T>)
    ensures candidates == Candidates(all, exclude)
  {
    candidates := [];
    assert all[0..] == all;
    for i := 0 to |all|
      invariant candidates + Candidates(all[i..], exclude) == Candidates(all, exclude)
    {
      assert all[i..][1..] == all[i + 1..];
      if all[i] != exclude {
        assert candidates + ([all[i]] + Candidates(all[i + 1..], exclude))
            == (candidates + [all[i]]) + Candidates(all[i + 1..], exclude);
        candidates := candidates + [all[i]];
      }
    }
  }

  /** RandomPeerSelector.Select on a copy of the list. A negative max makes the source panic. */
  method Select<T(==, 0)>(all: seq<T>, exclude: T, max: nat, draws: seq<nat>) returns (r: seq<T>)
    requires |draws| == Min(max, |Candidates(all, exclude)|) && ValidDraws(draws, |Candidates(all, exclude)|)
    ensures r == Sample(Candidates(all, exclude), draws)
  {
    var candidates := CopyCandidates(all, exclude);
    var n := |candidates|;
    var a := new T[n](i requires 0 <= i < n => candidates[i]);
    assert a[..] == candidates;
    var k := if max > n then n else max;
    Shuffle(a, draws);
    r := a[..k];
  }

  // ---------------------------------------------------------------- what the candidates are

  lemma DistinctCons<T>(x: T, s: seq<T>)
    requires Distinct(s) && x !in s
    ensures Distinct([x] + s)
  {
  }

  lemma {:induction false} CandidatesAre<T>(all: seq<T>, exclude: T)
    ensures forall p :: p in Candidates(all, exclude) <==> p in all && p != exclude
    ensures Distinct(all) ==> Distinct(Candidates(all, exclude))
    ensures |Candidates(all, exclude)| <= |all|
  {
    if all != [] {
      CandidatesAre(all[1..], exclude);
      assert forall p :: p in all <==> p == all[0] || p in all[1..];
      if Distinct(all) && all[0] != exclude {
        DistinctCons(all[0], Candidates(all[1..], exclude));
      }
    }
  }

  /** They keep their order: filtering a list in two parts is filtering it. */
  lemma {:induction false} CandidatesInOrder<T>(a: seq<T>, b: seq<T>, exclude: T)
    ensures Candidates(a + b, exclude) == Candidates(a, exclude) + Candidates(b, exclude)
    ensures forall x :: Candidates([x], exclude) == if x == exclude then [] else [x]
  {
    if a == [] {
      assert a + b == b;
    } else {
      assert (a + b)[1..] == a[1..] + b;
      CandidatesInOrder(a[1..], b, exclude);
    }
  }

  // ---------------------------------------------------------------- the bijection

  lemma RemainingIs<T>(pool: seq<T>, j: nat)
    requires Distinct(pool) && j < |pool|
    ensures Distinct(Remaining(pool, j))
    ensures forall x :: x in Remaining(pool, j) <==> x in pool && x != pool[j]
  {
    forall x | x in pool && x != pool[j]
      ensures x in Remaining(pool, j)
    {
      var i :| 0 <= i < |pool| && pool[i] == x;
      assert Remaining(pool, j)[if i == 0 then j - 1 else i - 1] == x;
    }
  }

  /** A selection has no duplicate and takes only from the pool. */
  lemma {:induction false} SampleDistinct<T>(pool: seq<T>, draws: seq<nat>)
    requires Distinct(pool) && ValidDraws(draws, |pool|)
    ensures Distinct(Sample(pool, draws))
    ensures forall x :: x in Sample(pool, draws) ==> x in pool
    decreases |draws|
  {
    if draws != [] {
      RemainingIs(pool, draws[0]);
      SampleDistinct(Remaining(pool, draws[0]), draws[1..]);
      DistinctCons(pool[draws[0]], Sample(Remaining(pool, draws[0]), draws[1..]));
    }
  }

  /** Nothing is selected that is not in the pool. */
  lemma {:induction false} SampleFrom<T>(pool: seq<T>, draws: seq<nat>)
    requires ValidDraws(draws, |pool|)
    ensures forall i :: 0 <= i < |draws| ==> Sample(pool, draws)[i] in pool
    decreases |draws|
  {
    if draws != [] {
      SampleFrom(Remaining(pool, draws[0]), draws[1..]);
      forall i | 0 <= i < |draws|
        ensures Sample(pool, draws)[i] in pool
      {
        if i > 0 {
          assert Sample(pool, draws)[i] == Sample(Remaining(pool, draws[0]), draws[1..])[i - 1];
          RemainingFrom(pool, draws[0], Sample(pool, draws)[i]);
        }
      }
    }
  }

  lemma RemainingFrom<T>(pool: seq<T>, j: nat, x: T)
    requires j < |pool| && x in Remaining(pool, j)
    ensures x in pool
  {
    var i :| 0 <= i < |pool| - 1 && Remaining(pool, j)[i] == x;
    assert x == pool[if i + 1 == j then 0 else i + 1];
  }

  function IndexOf<T(==)>(s: seq<T>, x: T): (i: nat)
    requires x in s
    ensures i < |s| && s[i] == x
  {
    if s[0] == x then 0 else 1 + IndexOf(s[1..], x)
  }

  /** The draws that lead to a given selection. */
  function DrawsOf<T(==)>(pool: seq<T>, r: seq<T>): (draws: seq<nat>)
    requires Distinct(pool) && Distinct(r) && forall x :: x in r ==> x in pool
    decreases |r|
  {
    if r == [] then []
    else
      var j := IndexOf(pool, r[0]);
      RemainingIs(pool, j);
      [j] + DrawsOf(Remaining(pool, j), r[1..])
  }

  /** Every duplicate-free sequence of candidates is selected by some draws ... */
  lemma {:induction false} SampleOnto<T>(pool: seq<T>, r: seq<T>)
    requires Distinct(pool) && Distinct(r) && forall x :: x in r ==> x in pool
    ensures |DrawsOf(pool, r)| == |r| && ValidDraws(DrawsOf(pool, r), |pool|)
    ensures Sample(pool, DrawsOf(pool, r)) == r
    decreases |r|
  {
    if r != [] {
      var j := IndexOf(pool, r[0]);
      RemainingIs(pool, j);
      SampleOnto(Remaining(pool, j), r[1..]);
      assert DrawsOf(pool, r)[1..] == DrawsOf(Remaining(pool, j), r[1..]);
    }
  }

  /** ... and by no other draws: with uniform draws, every selection is equally likely. */
  lemma {:induction false} SampleOneToOne<T>(pool: seq<T>, d: seq<nat>, e: seq<nat>)
    requires Distinct(pool) && ValidDraws(d, |pool|) && ValidDraws(e, |pool|)
    requires Sample(pool, d) == Sample(pool, e)
    ensures d == e
    decreases |d|
  {
    assert |d| == |e|;
    if d != [] {
      assert Sample(pool, d)[0] == pool[d[0]] && Sample(pool, e)[0] == pool[e[0]];
      assert d[0] == e[0];
      assert Sample(pool, d)[1..] == Sample(Remaining(pool, d[0]), d[1..]);
      assert Sample(pool, e)[1..] == Sample(Remaining(pool, d[0]), e[1..]);
      RemainingIs(pool, d[0]);
      SampleOneToOne(Remaining(pool, d[0]), d[1..], e[1..]);
      assert d == [d[0]] + d[1..] && e == [e[0]] + e[1..];
    }
  }

  /** When there is room for all candidates, all of them are selected. */
  lemma {:induction false} SampleAll<T>(pool: seq<T>, draws: seq<nat>)
    requires Distinct(pool) && ValidDraws(draws, |pool|) && |draws| == |pool|
    ensures forall x :: x in Sample(pool, draws) <==> x in pool
    decreases |draws|
  {
    if draws != [] {
      RemainingIs(pool, draws[0]);
      SampleAll(Remaining(pool, draws[0]), draws[1..]);
      var rest := Sample(Remaining(pool, draws[0]), draws[1..]);
      assert forall x :: x in Sample(pool, draws) <==> x == pool[draws[0]] || x in rest;
    }
  }
}
