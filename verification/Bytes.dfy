// Bytes and the fixed-width big-endian integers used on disk and on the wire.
module Bytes {
  type byte = x: int | 0 <= x < 256

  datatype Option<+T> = None | Some(value: T)

  function Min(a: int, b: int): int {
    if a <= b then a else b
  }

  function Pow256(width: nat): (p: nat)
    ensures p > 0
  {
    if width == 0 then 1 else 256 * Pow256(width - 1)
  }

  /** The low `width` bytes of n, most significant first: binary.BigEndian.PutUintXX(uintXX(n)). */
  function PutUint(n: nat, width: nat): (s: seq<byte>)
    ensures |s| == width
  {
    if width == 0 then [] else PutUint(n / 256, width - 1) + [n % 256]
  }

  /** binary.BigEndian.UintXX. */
  function Uint(s: seq<byte>): nat {
    if s == [] then 0 else 256 * Uint(s[..|s| - 1]) + s[|s| - 1]
  }

  lemma MultipleBounds(k: int, d: int)
    requires 0 < d
    ensures k >= 1 ==> k * d >= d
    ensures k <= -1 ==> k * d <= -d
  {
  }

  lemma RemainderUnique(n: int, d: int, q: int, r: int)
    requires 0 <= r < d && n == q * d + r
    ensures n % d == r && n / d == q
  {
    var k := n / d - q;
    assert k * d == r - n % d by {
      assert n == (n / d) * d + n % d;
    }
    MultipleBounds(k, d);
  }

  lemma RemainderOfDigits(n: nat, p: nat)
    requires 0 < p
    ensures n % (256 * p) == 256 * ((n / 256) % p) + n % 256
  {
    var high := n / 256;
    var q, r := high / p, high % p;
    assert high == q * p + r;
    assert q * (256 * p) == 256 * (q * p);
    RemainderUnique(n, 256 * p, q, 256 * r + n % 256);
  }

  /** Reading back a written integer gives it modulo 256^width: a value that does not fit is truncated. */
  lemma {:induction false} UintOfPutUint(n: nat, width: nat)
    ensures Uint(PutUint(n, width)) == n % Pow256(width)
  {
    if width > 0 {
      UintOfPutUint(n / 256, width - 1);
      assert PutUint(n, width)[..width - 1] == PutUint(n / 256, width - 1);
      RemainderOfDigits(n, Pow256(width - 1));
    }
  }

  lemma UintRoundTrip(n: nat, width: nat)
    requires n < Pow256(width)
    ensures Uint(PutUint(n, width)) == n
  {
    UintOfPutUint(n, width);
    RemainderUnique(n, Pow256(width), 0, n);
  }

  /** Byte i of a written integer: the most significant comes first. */
  lemma {:induction false} BigEndian(n: nat, width: nat, i: nat)
    requires i < width
    ensures PutUint(n, width)[i] == n / Pow256(width - 1 - i) % 256
    decreases width
  {
    if i < width - 1 {
      BigEndian(n / 256, width - 1, i);
      assert PutUint(n, width)[i] == PutUint(n / 256, width - 1)[i];
      DivideTwice(n, Pow256(width - 2 - i));
    }
  }

  lemma DivideTwice(n: nat, p: nat)
    requires p > 0
    ensures n / (256 * p) == n / 256 / p
  {
    var q, r := n / 256 / p, n / 256 % p;
    assert n / 256 == q * p + r;
    assert q * (256 * p) == 256 * (q * p);
    RemainderUnique(n, 256 * p, q, 256 * r + n % 256);
  }

  function Flatten<T>(parts: seq<seq<T>>): seq<T> {
    if parts == [] then [] else parts[0] + Flatten(parts[1..])
  }

  lemma {:induction false} FlattenSnoc<T>(parts: seq<seq<T>>, last: seq<T>)
    ensures Flatten(parts + [last]) == Flatten(parts) + last
  {
    if parts == [] {
      assert [last][1..] == [];
    } else {
      assert (parts + [last])[1..] == parts[1..] + [last];
      FlattenSnoc(parts[1..], last);
      assert parts[0] + (Flatten(parts[1..]) + last) == parts[0] + Flatten(parts[1..]) + last;
    }
  }

  lemma SubsetSize<T>(a: set<T>, b: set<T>)
    requires a <= b
    ensures |a| <= |b|
  {
    assert |b - a| == |b| - |a|;
  }

  /** The elements of a set, each once, in some order. */
  lemma {:induction false} Enumerated<T>(s: set<T>) returns (order: seq<T>)
    ensures forall x :: x in order <==> x in s
    ensures forall i, j :: 0 <= i < j < |order| ==> order[i] != order[j]
    ensures |order| == |s|
  {
    if s == {} {
      order := [];
    } else {
      var x :| x in s;
      var rest := Enumerated(s - {x});
      order := rest + [x];
    }
  }
}
