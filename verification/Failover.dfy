/** Going round in a circle: the endpoints that a socket tries and the sockets that a
    search visits. */
module Failover {
  /** k of n places, one after the other in the circle, from place b on. */
  function Round(b: nat, k: nat, n: nat): (r: seq<nat>)
    requires n > 0
    ensures |r| == k && forall j :: 0 <= j < k ==> r[j] == (b + j) % n
  {
    seq(k, j requires 0 <= j < k => (b + j) % n)
  }

  lemma AtLeast(n: nat, d: nat)
    ensures n * (d + 1) >= n
  {
  }

  lemma Remainder(q: nat, r: nat, n: nat)
    requires r < n
    ensures (n * q + r) % n == r
  {
    var q', r' := (n * q + r) / n, (n * q + r) % n;
    assert n * q == n * q' + n * (q - q');
    if q' < q {
      AtLeast(n, q - q' - 1);
    } else if q' > q {
      AtLeast(n, q' - q - 1);
    }
  }

  /** The place after the j-th. */
  lemma RoundStep(b: nat, j: nat, n: nat)
    requires n > 0
    ensures ((b + j) % n + 1) % n == (b + j + 1) % n
    ensures (b + j) % n + 1 < n ==> (b + j + 1) % n == (b + j) % n + 1
    ensures (b + j) % n + 1 == n ==> (b + j + 1) % n == 0
  {
    var q, r := (b + j) / n, (b + j) % n;
    assert b + j == n * q + r;
    if r + 1 < n {
      Remainder(q, r + 1, n);
    } else {
      Remainder(q + 1, 0, n);
      assert n * (q + 1) == n * q + n;
      Remainder(1, 0, n);
    }
  }

  lemma PlaceOf(b: nat, j: nat, n: nat)
    requires b < n && j < n
    ensures (b + j) % n == if b + j < n then b + j else b + j - n
  {
    if b + j < n {
      Remainder(0, b + j, n);
    } else {
      Remainder(1, b + j - n, n);
    }
  }

  lemma Apart(b: nat, i: nat, j: nat, n: nat)
    requires b < n && i < j < n
    ensures (b + i) % n != (b + j) % n
  {
    PlaceOf(b, i, n);
    PlaceOf(b, j, n);
  }

  /** Less than a whole round visits no place twice. */
  lemma RoundOnce(b: nat, k: nat, n: nat)
    requires b < n && k <= n
    ensures forall i, j :: 0 <= i < j < k ==> Round(b, k, n)[i] != Round(b, k, n)[j]
  {
    forall i, j | 0 <= i < j < k
      ensures Round(b, k, n)[i] != Round(b, k, n)[j]
    {
      Apart(b, i, j, n);
    }
  }

  /** A whole round visits every place. */
  lemma RoundAll(b: nat, n: nat, e: nat)
    requires b < n && e < n
    ensures var j := if b <= e then e - b else e + n - b;
      j < n && Round(b, n, n)[j] == e
  {
    PlaceOf(b, if b <= e then e - b else e + n - b, n);
  }

  /** The endpoint to try first the next time, after connecting to b. */
  function NextBackup(b: nat, rand: nat, n: nat): (r: nat)
    requires b < n
    ensures r < n && (n > 1 ==> r != b)
  {
    if n > 1 then
      PlaceOf(b, 1 + rand % (n - 1), n);
      (b + (1 + rand % (n - 1))) % n
    else b
  }

  /** Every other endpoint may be chosen. */
  lemma EveryBackup(b: nat, e: nat, n: nat)
    requires b < n && e < n && e != b
    ensures exists rand: nat :: NextBackup(b, rand, n) == e
  {
    var d := if b < e then e - b else e + n - b;
    Remainder(0, d - 1, n - 1);
    PlaceOf(b, d, n);
    assert NextBackup(b, d - 1, n) == e;
  }
}
