/** Printing numbers into a buffer: digits come out backwards and are turned round in
    place; and counting digits without printing them. */
module NumberText {
  import opened Bytes
  import opened Decimal

  const LLSTR_SIZE := 21

  function Reversed(s: bytes): (r: bytes)
    ensures |r| == |s|
  {
    if s == [] then [] else Reversed(s[1..]) + [s[0]]
  }

  lemma {:induction false} ReversedAt(s: bytes, i: nat)
    requires i < |s|
    ensures Reversed(s)[i] == s[|s| - 1 - i]
  {
    if i < |s| - 1 {
      ReversedAt(s[1..], i);
    }
  }

  /** Reversal from the other end. */
  lemma ReversedSnoc(s: bytes, c: byte)
    ensures Reversed(s + [c]) == [c] + Reversed(s)
  {
    if s != [] {
      assert (s + [c])[1..] == s[1..] + [c];
      ReversedSnoc(s[1..], c);
    }
  }

  /** Turn s[..n] round in place. */
  method ReverseInPlace(s: array<byte>, n: nat)
    requires n <= s.Length
    modifies s
    ensures s[..n] == Reversed(old(s[..n]))
    ensures s[n..] == old(s[n..])
  {
    var i, j := 0, n - 1;
    while i < j
      invariant 0 <= i <= n && j == n - 1 - i && i <= j + 1
      invariant forall k :: 0 <= k < i ==> s[k] == old(s[n - 1 - k]) && s[n - 1 - k] == old(s[k])
      invariant forall k :: i <= k <= j ==> s[k] == old(s[k])
      invariant forall k :: n <= k < s.Length ==> s[k] == old(s[k])
    {
      s[i], s[j] := s[j], s[i];
      i, j := i + 1, j - 1;
    }
    ghost var was := old(s[..n]);
    forall k | 0 <= k < n
      ensures s[..n][k] == Reversed(was)[k]
    {
      ReversedAt(was, k);
    }
  }

  lemma FewDigits(w: nat)
    requires w < 10000
    ensures |Dec(w)| == if w < 10 then 1 else if w < 100 then 2 else if w < 1000 then 3 else 4
  {
    assert w >= 10 ==> |Dec(w)| == 1 + |Dec(w / 10)|;
    assert w >= 100 ==> |Dec(w / 10)| == 1 + |Dec(w / 10 / 10)|;
    assert w >= 1000 ==> |Dec(w / 10 / 10)| == 1 + |Dec(w / 10 / 10 / 10)|;
  }

  lemma FourDigits(w: nat)
    requires w >= 10000
    ensures |Dec(w)| == 4 + |Dec(w / 10000)|
  {
    assert w / 10 / 10 / 10 / 10 == w / 10000;
    assert |Dec(w)| == 1 + |Dec(w / 10)|;
    assert |Dec(w / 10)| == 1 + |Dec(w / 10 / 10)|;
    assert |Dec(w / 10 / 10)| == 1 + |Dec(w / 10 / 10 / 10)|;
  }

  /** A factor of 10000 is worth at most four digits. */
  lemma DigitsWithin(w: nat, n: nat)
    requires n > 0 && |Dec(w / 10000)| <= n
    ensures |Dec(w)| <= n + 4
  {
    if w < 10000 {
      FewDigits(w);
    } else {
      FourDigits(w);
    }
  }

  /** The text of a 64-bit number fits the buffer with its sign and the NUL. */
  lemma SizeOfDec(value: nat, negative: bool)
    requires value < 0x1_0000_0000_0000_0000 && (negative ==> value <= 0x8000_0000_0000_0000)
    ensures |Dec(value)| + (if negative then 1 else 0) < LLSTR_SIZE
  {
    var a, b, c, d := value / 10000, value / 10000 / 10000,
                      value / 10000 / 10000 / 10000, value / 10000 / 10000 / 10000 / 10000;
    assert d < 1845 && (negative ==> d < 923);
    FewDigits(d);
    DigitsWithin(c, |Dec(d)|);
    DigitsWithin(b, |Dec(d)| + 4);
    DigitsWithin(a, |Dec(d)| + 8);
    DigitsWithin(value, |Dec(d)| + 12);
  }

  /** The digits of value from the last to the first. */
  method PutBackwards(s: array<byte>, value: nat) returns (p: nat)
    requires |Dec(value)| <= s.Length
    modifies s
    ensures p == |Dec(value)| && Reversed(s[..p]) == Dec(value)
    ensures forall k :: p <= k < s.Length ==> s[k] == old(s[k])
  {
    ghost var text := Dec(value);
    s[0] := Digit(value % 10);
    var v: nat := value / 10;
    p := 1;
    assert s[..p] == [Digit(value % 10)] && Reversed(s[..p]) == s[..p];
    while v != 0
      invariant 0 < p <= |text|
      invariant text == (if v == 0 then [] else Dec(v)) + Reversed(s[..p])
      invariant forall k :: |text| <= k < s.Length ==> s[k] == old(s[k])
    {
      ghost var before := s[..p];
      s[p] := Digit(v % 10);
      assert s[..p + 1] == before + [Digit(v % 10)];
      ReversedSnoc(before, Digit(v % 10));
      p, v := p + 1, v / 10;
    }
  }

  /** `sdsll2str` and `sdsull2str`: the digits backwards, a minus sign if asked for,
      then all turned round. The code negates a negative number, so -2^63 is not one. */
  method PutDigits(s: array<byte>, value: nat, negative: bool) returns (l: nat)
    requires value < 0x1_0000_0000_0000_0000 && (negative ==> 0 < value < 0x8000_0000_0000_0000)
    requires s.Length >= LLSTR_SIZE
    modifies s
    ensures l < LLSTR_SIZE && s[l] == NUL
    ensures s[..l] == DecInt(if negative then 0 - value else value)
  {
    SizeOfDec(value, negative);
    l := PutBackwards(s, value);
    if negative {
      ghost var before := s[..l];
      s[l] := MINUS;
      assert s[..l + 1] == before + [MINUS];
      ReversedSnoc(before, MINUS);
      l := l + 1;
    }
    s[l] := NUL;
    ReverseInPlace(s, l);
    assert s[l] == s[l..][0];
  }

  /** Number of decimal digits of v, four at a time. */
  method CountDigits(v: nat) returns (n: nat)
    ensures n == |Dec(v)|
  {
    var w, result := v, 1;
    while true
      invariant |Dec(v)| == result - 1 + |Dec(w)|
      decreases w
    {
      if w < 10000 { FewDigits(w); }
      if w < 10 { return result; }
      if w < 100 { return result + 1; }
      if w < 1000 { return result + 2; }
      if w < 10000 { return result + 3; }
      FourDigits(w);
      w := w / 10000;
      result := result + 4;
    }
  }
}
