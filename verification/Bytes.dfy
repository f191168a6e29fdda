/** Bytes, the constants of the wire protocol, and the search for a line end. */
module Bytes {

  datatype Option<+T> = None | Some(value: T)

  type byte = b: int | 0 <= b < 256
  type bytes = seq<byte>

  const NUL: byte := 0
  const LF: byte := 10
  const CR: byte := 13
  const SPACE: byte := 32
  const DOLLAR: byte := 36
  const PERCENT: byte := 37
  const STAR: byte := 42
  const PLUS: byte := 43
  const MINUS: byte := 45
  const COLON: byte := 58

  const CRLF: bytes := [CR, LF]

  predicate IsDigit(c: byte) { 48 <= c <= 57 }

  /** A line ends at i: the two bytes there are CR LF. */
  predicate CrlfAt(b: bytes, i: int) {
    0 <= i && i + 1 < |b| && b[i] == CR && b[i + 1] == LF
  }

  /** Position of the first CR LF. */
  function NewlineAt(b: bytes): (r: Option<nat>)
    ensures r.None? ==> forall i :: !CrlfAt(b, i)
    ensures r.Some? ==> CrlfAt(b, r.value) && forall i :: 0 <= i < r.value ==> !CrlfAt(b, i)
  {
    if |b| < 2 then None
    else if CrlfAt(b, 0) then Some(0)
    else
      match NewlineAt(b[1..])
      case None =>
        assert forall i :: CrlfAt(b, i) ==> i > 0 && CrlfAt(b[1..], i - 1);
        None
      case Some(i) =>
        assert forall j :: 0 < j && CrlfAt(b, j) ==> CrlfAt(b[1..], j - 1);
        Some(i + 1)
  }

  /** The first line end is determined by where it is, not by what follows it. */
  lemma NewlineUnique(b: bytes, i: nat)
    requires CrlfAt(b, i) && forall j :: 0 <= j < i ==> !CrlfAt(b, j)
    ensures NewlineAt(b) == Some(i)
  {
    assert CrlfAt(b, i);
  }

  lemma NewlineNone(b: bytes)
    requires forall i :: 0 <= i < |b| - 1 ==> !CrlfAt(b, i)
    ensures NewlineAt(b) == None
  {
  }

  lemma NewlineExtends(b: bytes, m: bytes)
    requires NewlineAt(b).Some?
    ensures NewlineAt(b + m) == NewlineAt(b)
  {
    var i := NewlineAt(b).value;
    forall j | 0 <= j < i
      ensures !CrlfAt(b + m, j)
    {
      assert !CrlfAt(b, j);
    }
    NewlineUnique(b + m, i);
  }

  /** What stands behind a position is extended by what is appended. */
  lemma DropAppend(a: bytes, n: nat, b: bytes)
    requires n <= |a|
    ensures (a + b)[n..] == a[n..] + b
  {
  }

  lemma Assoc(a: bytes, b: bytes, c: bytes)
    ensures a + b + c == a + (b + c)
  {
  }
}
