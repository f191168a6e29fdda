/** What ranges and formatted appends of strings mean, said on positions and on the pieces of
    a format. */
module SdsLaws {
  import opened Bytes
  import opened Decimal
  import opened Sds

  /** Both ends of a range are kept; -1 is the last byte, -2 the one before it. Beyond either
      end of the string there is nothing to keep. */
  lemma SliceMeans(s: bytes, i: nat, j: nat, far: nat)
    requires i <= j < |s| && far >= |s|
    ensures Slice(s, i, j) == s[i..j + 1] && Slice(s, i - |s|, j - |s|) == s[i..j + 1]
    ensures Slice(s, i, j - |s|) == s[i..j + 1] && Slice(s, i - |s|, j) == s[i..j + 1]
    ensures Slice(s, i, far) == s[i..] && Slice(s, 0 - far, j) == s[..j + 1]
    ensures Slice(s, far, far) == [] && (i < j ==> Slice(s, j, i) == [])
  {
  }

  /** The header chosen for a size is the smallest: a type before it would not hold even one
      more byte. */
  lemma SmallestHeader(size: nat)
    ensures var t := ReqType(size);
      && (t != T5 ==> size >= 32) && (t !in {T5, T8} ==> size + 1 >= 0x100)
      && (t in {T32, T64} ==> size + 1 >= 0x1_0000) && (t == T64 ==> size + 1 >= 0x1_0000_0000)
  {
  }

  // ------------------------------------------------------------------------
  // Formatted appends

  /** A piece of a format: a byte that stands for itself, a byte behind a percent sign that is
      no directive, or a directive with its argument: a C string, a string with its length, a
      signed number of 32 or 64 bits, or an unsigned one. */
  datatype Piece =
    | Itself(c: byte)
    | Escaped(c: byte)
    | CText(text: bytes)
    | SdsText(text: bytes)
    | Int(n: int)
    | Long(n: int)
    | Unsigned(u: nat)
    | UnsignedLong(u: nat)

  predicate Fine(p: Piece) {
    match p
    case Itself(c) => c != 0 && c != 37
    case Escaped(c) => c !in {0, 115, 83, 105, 73, 117, 85}
    case CText(text) => 0 !in text
    case SdsText(_) => true
    case Int(n) => -0x8000_0000 <= n < 0x8000_0000
    case Long(n) => -0x8000_0000_0000_0000 < n < 0x8000_0000_0000_0000
    case Unsigned(n) => n < 0x1_0000_0000_0000_0000
    case UnsignedLong(n) => n < 0x1_0000_0000_0000_0000
  }

  function Written(p: Piece): bytes {
    match p
    case Itself(c) => [c]
    case Escaped(c) => [37, c]
    case CText(_) => [37, 115]
    case SdsText(_) => [37, 83]
    case Int(_) => [37, 105]
    case Long(_) => [37, 73]
    case Unsigned(_) => [37, 117]
    case UnsignedLong(_) => [37, 85]
  }

  function Passed(p: Piece): seq<FmtArg> {
    match p
    case Itself(_) | Escaped(_) => []
    case CText(text) => [Str(text)]
    case SdsText(text) => [Str(text)]
    case Int(n) => [Num(n)]
    case Long(n) => [Num(n)]
    case Unsigned(n) => [Num(n)]
    case UnsignedLong(n) => [Num(n)]
  }

  /** An unsigned number of 32 bits is all that its directive sees. */
  function Meant(p: Piece): bytes {
    match p
    case Itself(c) => [c]
    case Escaped(c) => [c]
    case CText(text) => text
    case SdsText(text) => text
    case Int(n) => DecInt(n)
    case Long(n) => DecInt(n)
    case Unsigned(n) => Dec(n % 0x1_0000_0000)
    case UnsignedLong(n) => Dec(n)
  }

  function AllWritten(ps: seq<Piece>): bytes {
    if ps == [] then [] else Written(ps[0]) + AllWritten(ps[1..])
  }

  function AllPassed(ps: seq<Piece>): seq<FmtArg> {
    if ps == [] then [] else Passed(ps[0]) + AllPassed(ps[1..])
  }

  function AllMeant(ps: seq<Piece>): bytes {
    if ps == [] then [] else Meant(ps[0]) + AllMeant(ps[1..])
  }

  lemma PieceRead(p: Piece, fmt: bytes, args: seq<FmtArg>)
    requires Fine(p) && FmtOk(fmt, args)
    ensures FmtOk(Written(p) + fmt, Passed(p) + args)
    ensures FmtText(Written(p) + fmt, Passed(p) + args) == Meant(p) + FmtText(fmt, args)
  {
    var f, a := Written(p) + fmt, Passed(p) + args;
    assert f[|Written(p)|..] == fmt && a[|Passed(p)|..] == args;
    assert f[0] == Written(p)[0];
    if !p.Itself? {
      assert f[1] == Written(p)[1];
    }
  }

  /** Every piece of a format contributes its text, in order. */
  lemma {:induction false} FormatMeans(ps: seq<Piece>)
    requires forall i :: 0 <= i < |ps| ==> Fine(ps[i])
    ensures FmtOk(AllWritten(ps), AllPassed(ps)) && FmtText(AllWritten(ps), AllPassed(ps)) == AllMeant(ps)
    decreases |ps|
  {
    if ps != [] {
      FormatMeans(ps[1..]);
      PieceRead(ps[0], AllWritten(ps[1..]), AllPassed(ps[1..]));
    }
  }
}
