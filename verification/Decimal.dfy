/** Decimal text: the canonical printed form of a number and the reader's
    tolerant way of reading it back (`readLongLong`). */
module Decimal {
  import opened Bytes

  function Digit(d: nat): (c: byte)
    requires d < 10
    ensures IsDigit(c)
  {
    48 + d
  }

  /** Canonical decimal text of a natural number: no leading zero except for 0. */
  function Dec(v: nat): (s: bytes)
    ensures |s| > 0
    ensures forall i :: 0 <= i < |s| ==> IsDigit(s[i])
  {
    if v < 10 then [Digit(v)] else Dec(v / 10) + [Digit(v % 10)]
  }

  function DecInt(v: int): (s: bytes)
    ensures |s| > 0
    ensures CR !in s && DOLLAR !in s
  {
    if v < 0 then [MINUS] + Dec(-v) else Dec(v)
  }

  /** Digits up to the first CR, most significant first; None on any other byte. */
  function Digits(b: bytes, acc: nat): Option<nat>
    requires CR in b
  {
    if b[0] == CR then Some(acc)
    else if IsDigit(b[0]) then Digits(b[1..], acc * 10 + (b[0] - 48))
    else None
  }

  /** `readLongLong`: optional sign, digits up to the first CR, -1 on anything else. */
  function ReadLongLong(b: bytes): int
    requires CR in b
  {
    var negative := b[0] == MINUS;
    var body := if negative || b[0] == PLUS then b[1..] else b;
    assert CR in body;
    match Digits(body, 0)
    case None => -1
    case Some(v) => (if negative then -1 else 1) * v
  }

  lemma DigitsExtend(b: bytes, m: bytes, acc: nat)
    requires CR in b
    ensures CR in b + m && Digits(b + m, acc) == Digits(b, acc)
  {
    assert (b + m)[0] == b[0];
    if b[0] != CR && IsDigit(b[0]) {
      assert (b + m)[1..] == b[1..] + m;
      DigitsExtend(b[1..], m, acc * 10 + (b[0] - 48));
    }
  }

  /** The number at the front of a buffer does not change when bytes are appended. */
  lemma ReadLongLongExtends(b: bytes, m: bytes)
    requires CR in b
    ensures CR in b + m && ReadLongLong(b + m) == ReadLongLong(b)
  {
    if b[0] == MINUS || b[0] == PLUS {
      assert (b + m)[1..] == b[1..] + m;
      DigitsExtend(b[1..], m, 0);
    } else {
      DigitsExtend(b, m, 0);
    }
  }

  /** Reading the digits of v from zero arrives at v, then goes on with what follows. */
  lemma {:induction false} DigitsOfDec(v: nat, m: bytes)
    requires CR in m
    ensures CR in Dec(v) + m
    ensures Digits(Dec(v) + m, 0) == Digits(m, v)
  {
    if v < 10 {
      assert (Dec(v) + m)[1..] == m;
    } else {
      var c := [Digit(v % 10)];
      assert Dec(v) + m == Dec(v / 10) + (c + m);
      DigitsOfDec(v / 10, c + m);
      assert (c + m)[1..] == m;
    }
  }

  lemma ReadOfNat(v: nat, tail: bytes)
    requires tail != [] && tail[0] == CR
    ensures CR in Dec(v) + tail && ReadLongLong(Dec(v) + tail) == v
  {
    DigitsOfDec(v, tail);
    assert (Dec(v) + tail)[0] == Dec(v)[0];
  }

  lemma ReadOfNegative(v: nat, tail: bytes)
    requires tail != [] && tail[0] == CR
    ensures CR in [MINUS] + Dec(v) + tail && ReadLongLong([MINUS] + Dec(v) + tail) == 0 - v
  {
    DigitsOfDec(v, tail);
    Assoc([MINUS], Dec(v), tail);
    assert ([MINUS] + (Dec(v) + tail))[1..] == Dec(v) + tail;
  }

  lemma ReadOfText(v: int, tail: bytes)
    requires tail != [] && tail[0] == CR
    ensures CR in DecInt(v) + tail && ReadLongLong(DecInt(v) + tail) == v
  {
    if v < 0 {
      ReadOfNegative(-v, tail);
    } else {
      ReadOfNat(v, tail);
    }
  }

  /** Printing then reading gives the number back, whatever follows the CR. */
  lemma ReadOfDec(v: int, m: bytes)
    ensures CR in DecInt(v) + CRLF + m
    ensures ReadLongLong(DecInt(v) + CRLF + m) == v
  {
    Assoc(DecInt(v), CRLF, m);
    ReadOfText(v, CRLF + m);
  }

  /** Different numbers have different texts. */
  lemma DecInjective(v: int, w: int)
    requires DecInt(v) == DecInt(w)
    ensures v == w
  {
    ReadOfDec(v, []);
    ReadOfDec(w, []);
  }
}
