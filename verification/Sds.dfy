/** sds strings: a buffer behind a header whose width depends on the size, holding
    arbitrary bytes and always a NUL after them. */
module Sds {
  import opened Bytes
  import opened Decimal
  import opened NumberText

  datatype HdrType = T5 | T8 | T16 | T32 | T64

  const MAX_PREALLOC := 1024 * 1024
  const SIZE_LIMIT := 0x1_0000_0000_0000_0000

  /** The header fields of a type hold numbers below this. */
  function Width(t: HdrType): nat {
    match t
    case T5 => 32
    case T8 => 0x100
    case T16 => 0x1_0000
    case T32 => 0x1_0000_0000
    case T64 => SIZE_LIMIT
  }

  /** What a header field of type t holds after n was stored into it. */
  function Field(t: HdrType, n: nat): (f: nat)
    ensures f < Width(t) && exists lost: nat :: n == f + lost * Width(t)
  {
    assert n == n % Width(t) + (n / Width(t)) * Width(t);
    assert n < Width(t) ==> n == n + 0 * Width(t);
    if n < Width(t) then n else n % Width(t)
  }

  function ReqType(size: nat): (t: HdrType)
    ensures size < SIZE_LIMIT ==> size < Width(t)
  {
    if size < 32 then T5
    else if size < 0xff then T8
    else if size < 0xffff then T16
    else if size < 0xffffffff then T32
    else T64
  }

  /** The part of a string that `Range` keeps: positions count from the end when
      negative, both ends are included, and what lies outside does not count. */
  function Slice(s: bytes, start: int, end: int): bytes {
    var first := if start >= 0 then start else if |s| + start < 0 then 0 else |s| + start;
    var last := if end >= 0 then end else if |s| + end < 0 then 0 else |s| + end;
    if first > last || first >= |s| then []
    else s[first..if last < |s| then last + 1 else |s|]
  }

  /** What stands behind the first n bytes. */
  lemma SliceTail(s: bytes, n: nat)
    requires n <= |s|
    ensures Slice(s, n, -1) == s[n..]
  {
  }

  /** Where the part that is kept starts and how long it is, found by clipping. */
  method RangeBounds(len: nat, start: int, end: int, ghost s: bytes) returns (first: int, newlen: int)
    requires 0 < len == |s|
    ensures newlen == 0 ==> Slice(s, start, end) == []
    ensures newlen != 0 ==> 0 <= first && 0 < newlen && first + newlen <= len
    ensures newlen != 0 ==> s[first..first + newlen] == Slice(s, start, end)
  {
    var last := end;
    first := start;
    if first < 0 {
      first := len + first;
      if first < 0 { first := 0; }
    }
    if last < 0 {
      last := len + last;
      if last < 0 { last := 0; }
    }
    newlen := if first > last then 0 else last - first + 1;
    if newlen != 0 {
      if first >= len {
        newlen := 0;
      } else if last >= len {
        last := len - 1;
        newlen := if first > last then 0 else last - first + 1;
      }
    } else {
      first := 0;
    }
  }

  /** An argument of a formatted append. */
  datatype FmtArg = Str(str: bytes) | Num(num: int)

  /** The directives that take an argument: s S i I u U. */
  predicate Takes(c: byte) { c in {115, 83, 105, 73, 117, 85} }

  /** The argument suits the directive: C strings have no NUL, numbers fit the type they
      are passed as, and -2^63, which the code cannot negate, is not printed. An unsigned
      directive takes any 64-bit number. */
  predicate Suits(c: byte, arg: FmtArg) {
    if c == 115 then arg.Str? && NUL !in arg.str
    else if c == 83 then arg.Str?
    else if c == 105 then arg.Num? && -0x8000_0000 <= arg.num < 0x8000_0000
    else if c == 73 then arg.Num? && -0x8000_0000_0000_0000 < arg.num < 0x8000_0000_0000_0000
    else arg.Num? && 0 <= arg.num < SIZE_LIMIT
  }

  /** What a directive prints; %u sees only 32 bits of its argument. */
  function Printed(c: byte, arg: FmtArg): bytes
    requires Suits(c, arg)
  {
    if arg.Str? then arg.str
    else if c == 117 then DecInt(arg.num % 0x1_0000_0000)
    else DecInt(arg.num)
  }

  /** A format is a C string, is followed by the arguments it needs and has no lone % at
      its end. */
  predicate FmtOk(fmt: bytes, args: seq<FmtArg>) {
    if fmt == [] then true
    else if fmt[0] != PERCENT then fmt[0] != NUL && FmtOk(fmt[1..], args)
    else
      && |fmt| >= 2 && fmt[1] != NUL
      && if Takes(fmt[1]) then |args| > 0 && Suits(fmt[1], args[0]) && FmtOk(fmt[2..], args[1..])
         else FmtOk(fmt[2..], args)
  }

  /** The text that a format and its arguments stand for. */
  function FmtText(fmt: bytes, args: seq<FmtArg>): bytes
    requires FmtOk(fmt, args)
  {
    if fmt == [] then []
    else if fmt[0] != PERCENT then [fmt[0]] + FmtText(fmt[1..], args)
    else if Takes(fmt[1]) then Printed(fmt[1], args[0]) + FmtText(fmt[2..], args[1..])
    else [fmt[1]] + FmtText(fmt[2..], args)
  }

  /** The characters that one directive contributes, printed digit by digit. */
  method Converted(c: byte, arg: FmtArg) returns (text: bytes)
    requires Takes(c) && Suits(c, arg)
    ensures text == Printed(c, arg)
  {
    if arg.Str? {
      return arg.str;
    }
    var tmp := new byte[LLSTR_SIZE](_ => NUL);
    var num := if c == 117 then arg.num % 0x1_0000_0000 else arg.num;
    var l := PutDigits(tmp, if num < 0 then -num else num, num < 0);
    return tmp[..l];
  }

  /** Take the next character or directive off the format. */
  method NextPiece(fmt: bytes, f: nat, args: seq<FmtArg>, a: nat) returns (piece: bytes, f': nat, a': nat)
    requires f < |fmt| && a <= |args| && FmtOk(fmt[f..], args[a..])
    ensures f < f' <= |fmt| && a <= a' <= |args| && FmtOk(fmt[f'..], args[a'..])
    ensures FmtText(fmt[f..], args[a..]) == piece + FmtText(fmt[f'..], args[a'..])
  {
    ghost var fs, rest := fmt[f..], args[a..];
    if fmt[f] != PERCENT {
      assert fs[1..] == fmt[f + 1..];
      return [fmt[f]], f + 1, a;
    }
    assert fs[2..] == fmt[f + 2..];
    var next := fmt[f + 1];
    if Takes(next) {
      assert rest[1..] == args[a + 1..];
      piece := Converted(next, args[a]);
      return piece, f + 2, a + 1;
    }
    return [next], f + 2, a;
  }

  lemma TextStep(before: bytes, piece: bytes, left: bytes, total: bytes)
    requires before + (piece + left) == total
    ensures before + piece + left == total && |before| + |piece| + |left| == |total|
  {
    assert before + (piece + left) == before + piece + left;
  }

  class Sds {
    var kind: HdrType
    /** Header fields; type 5 has no capacity field. */
    var hdrLen: nat
    var hdrAlloc: nat
    var buf: array<byte>

    function Len(): nat
      reads this
    {
      hdrLen
    }

    function Alloc(): nat
      reads this
    {
      if kind == T5 then hdrLen else hdrAlloc
    }

    function Avail(): int
      reads this
    {
      if kind == T5 then 0 else hdrAlloc - hdrLen
    }

    /** The header is wide enough for length and capacity, and the block for both. */
    ghost predicate Sized()
      reads this
    {
      && hdrLen <= Alloc() < Width(kind)
      && Alloc() + 1 <= buf.Length
    }

    ghost predicate Valid()
      reads this, buf
    {
      Sized() && buf[hdrLen] == NUL
    }

    /** The bytes that the string stands for. */
    ghost function Content(): bytes
      requires Sized()
      reads this, buf
    {
      buf[..hdrLen]
    }

    /** The setters store a number faithfully exactly if it fits the header type, and
        otherwise what is left of it modulo the width. */
    method SetLen(n: nat)
      modifies this`hdrLen
      ensures hdrLen < Width(kind) && (Len() == n <==> n < Width(kind))
      ensures exists lost: nat :: n == hdrLen + lost * Width(kind)
    {
      hdrLen := Field(kind, n);
    }

    /** A type 5 header has no capacity to store: it stays the length. */
    method SetAlloc(n: nat)
      modifies this`hdrAlloc
      ensures kind == T5 ==> Alloc() == Len() && hdrAlloc == old(hdrAlloc)
      ensures kind != T5 ==> Alloc() < Width(kind) && (Alloc() == n <==> n < Width(kind))
      ensures kind != T5 ==> exists lost: nat :: n == Alloc() + lost * Width(kind)
    {
      if kind != T5 {
        hdrAlloc := Field(kind, n);
      }
    }

    /** A string of zero bytes: `sdsnewlen` without initial bytes. */
    constructor Zeroed(len: nat)
      requires len < SIZE_LIMIT - 1
      ensures Valid() && fresh(buf) && Content() == seq(len, _ => NUL)
      ensures Alloc() == len && kind == (if len == 0 then T8 else ReqType(len))
    {
      var t := ReqType(len);
      if t == T5 && len == 0 {
        t := T8;
      }
      kind := t;
      hdrLen := Field(t, len);
      hdrAlloc := Field(t, len);
      buf := new byte[len + 1](_ => NUL);
    }

    constructor (init: bytes)
      requires |init| < SIZE_LIMIT - 1
      ensures Valid() && fresh(buf) && Content() == init
      ensures Alloc() == |init| && kind == (if init == [] then T8 else ReqType(|init|))
    {
      var t := ReqType(|init|);
      if t == T5 && |init| == 0 {
        t := T8;
      }
      kind := t;
      hdrLen := Field(t, |init|);
      hdrAlloc := Field(t, |init|);
      var mem := new byte[|init| + 1](_ => NUL);
      buf := mem;
      new;
      forall i | 0 <= i < |init| {
        mem[i] := init[i];
      }
      mem[|init|] := NUL;
    }

    /** Move the string into a new block with the given header type and capacity. */
    method Reallocate(t: HdrType, size: nat)
      requires Sized() && Len() <= size < Width(t) && (t == T5 ==> size == Len())
      modifies this
      ensures Sized() && (old(Valid()) ==> Valid()) && fresh(buf) && Content() == old(Content())
      ensures kind == t && Alloc() == size && buf.Length == size + 1
    {
      var len := Len();
      var mem := new byte[size + 1](_ => NUL);
      var src := buf;
      forall i | 0 <= i <= len {
        mem[i] := src[i];
      }
      buf := mem;
      kind := t;
      SetLen(len);
      SetAlloc(size);
      assert buf[..hdrLen] == old(buf[..hdrLen]);
    }

    /** Make sure that addlen more bytes fit, doubling small strings. */
    method MakeRoomFor(addlen: nat)
      requires Sized() && Len() + addlen + MAX_PREALLOC < SIZE_LIMIT
      modifies this
      ensures Sized() && (old(Valid()) ==> Valid()) && Content() == old(Content()) && Avail() >= addlen
      ensures buf == old(buf) || fresh(buf)
      ensures old(Avail()) >= addlen ==> buf == old(buf) && kind == old(kind) && Alloc() == old(Alloc())
      ensures old(Avail()) < addlen ==>
        var need := old(Len()) + addlen;
        && Alloc() == (if need < MAX_PREALLOC then 2 * need else need + MAX_PREALLOC)
        && kind == (if Alloc() < 32 then T8 else ReqType(Alloc()))
    {
      if Avail() >= addlen {
        return;
      }
      var newlen := Len() + addlen;
      if newlen < MAX_PREALLOC {
        newlen := newlen * 2;
      } else {
        newlen := newlen + MAX_PREALLOC;
      }
      var t := ReqType(newlen);
      if t == T5 {
        t := T8;
      }
      Reallocate(t, newlen);
    }

    /** Give back unused capacity; short strings end up with the smallest header. */
    method RemoveFreeSpace()
      requires Valid()
      modifies this
      ensures Valid() && Content() == old(Content())
      ensures Alloc() == Len() && kind == ReqType(Len())
      ensures fresh(buf)
    {
      Reallocate(ReqType(Len()), Len());
    }

    /** Store t behind the first `at` bytes, where it fits, and end the string there. */
    method Write(at: nat, t: bytes)
      requires Valid() && at <= Len() && at + |t| <= Alloc()
      requires kind == T5 ==> at + |t| <= Len()
      modifies this`hdrLen, buf
      ensures Valid() && Content() == old(Content())[..at] + t
      ensures kind != T5 ==> Alloc() == old(Alloc())
    {
      forall i | 0 <= i < |t| {
        buf[at + i] := t[i];
      }
      buf[at + |t|] := NUL;
      SetLen(at + |t|);
      assert buf[..hdrLen] == old(buf[..at]) + t;
    }

    method CatLen(t: bytes)
      requires Valid() && Len() + |t| + MAX_PREALLOC < SIZE_LIMIT
      modifies this, buf
      ensures Valid() && Content() == old(Content()) + t
      ensures buf == old(buf) || fresh(buf)
      ensures old(Avail()) >= |t| ==> buf == old(buf) && Avail() == old(Avail()) - |t|
    {
      MakeRoomFor(|t|);
      Write(Len(), t);
    }

    method CpyLen(t: bytes)
      requires Valid() && |t| + MAX_PREALLOC < SIZE_LIMIT
      modifies this, buf
      ensures Valid() && Content() == t
      ensures buf == old(buf) || fresh(buf)
    {
      if Alloc() < |t| {
        MakeRoomFor(|t| - Len());
      }
      Write(0, t);
    }

    /** Extend the string with zero bytes up to the given length. */
    method GrowZero(len: nat)
      requires Valid() && len + MAX_PREALLOC < SIZE_LIMIT
      modifies this, buf
      ensures Valid()
      ensures Content() == old(Content()) + seq(if len <= old(Len()) then 0 else len - old(Len()), _ => NUL)
      ensures buf == old(buf) || fresh(buf)
    {
      var curlen := Len();
      if len <= curlen {
        return;
      }
      MakeRoomFor(len - curlen);
      Write(curlen, seq(len - curlen, _ => NUL));
    }

    /** Keep only the bytes from position start to position end. */
    method Range(start: int, end: int)
      requires Valid() && Len() < 0x8000_0000
      modifies this`hdrLen, buf
      ensures Valid() && Content() == Slice(old(Content()), start, end)
    {
      ghost var was := Content();
      if Len() == 0 {
        return;
      }
      var first, newlen := RangeBounds(Len(), start, end, was);
      if first != 0 && newlen != 0 {
        forall i | 0 <= i < newlen {
          buf[i] := buf[first + i];
        }
      }
      assert forall i :: 0 <= i < newlen ==> buf[i] == was[first + i];
      buf[newlen] := NUL;
      SetLen(newlen);
      assert newlen != 0 ==> buf[..newlen] == was[first..first + newlen];
    }

    /** Move the end of the string by incr, within the capacity and the block. */
    method IncrLen(incr: int)
      requires Valid() && 0 <= Len() + incr < buf.Length
      requires if kind == T5 then incr != 0 && Len() + incr < 32 else Len() + incr <= Alloc()
      modifies this`hdrLen, buf
      ensures Valid() && Len() == old(Len()) + incr
      ensures incr <= 0 ==> Content() == old(Content())[..Len()]
      ensures Content() == old(buf[..hdrLen + incr])
    {
      SetLen(Len() + incr);
      buf[hdrLen] := NUL;
    }

    /** Copy t behind the string and count it in; the NUL is written later. */
    method Append(t: bytes)
      requires Sized() && kind != T5 && Len() + |t| + MAX_PREALLOC < SIZE_LIMIT
      modifies this, buf
      ensures Sized() && kind != T5 && Content() == old(Content()) + t
      ensures buf == old(buf) || fresh(buf)
    {
      if Avail() < |t| {
        MakeRoomFor(|t|);
      }
      var i := Len();
      forall k | 0 <= k < |t| {
        buf[i + k] := t[k];
      }
      SetLen(i + |t|);
      assert buf[..hdrLen] == old(buf[..hdrLen]) + t;
    }

    /** Append text with %-directives, growing as needed, one character of the format
        after the other. */
    method CatFmt(fmt: bytes, args: seq<FmtArg>)
      requires Valid() && FmtOk(fmt, args)
      requires Len() + |FmtText(fmt, args)| + MAX_PREALLOC + 1 < SIZE_LIMIT
      modifies this, buf
      ensures Valid() && Content() == old(Content()) + FmtText(fmt, args)
      ensures buf == old(buf) || fresh(buf)
    {
      var f, a := 0, 0;
      ghost var left, total := FmtText(fmt, args), Content() + FmtText(fmt, args);
      assert fmt[0..] == fmt && args[0..] == args;
      while f < |fmt|
        invariant 0 <= f <= |fmt| && 0 <= a <= |args|
        invariant Sized() && (buf == old(buf) || fresh(buf))
        invariant FmtOk(fmt[f..], args[a..])
        invariant left == FmtText(fmt[f..], args[a..]) && Content() + left == total
      {
        if Avail() == 0 {
          MakeRoomFor(1);
        }
        ghost var before := Content();
        var piece;
        piece, f, a := NextPiece(fmt, f, args, a);
        assert left == piece + FmtText(fmt[f..], args[a..]);
        left := FmtText(fmt[f..], args[a..]);
        TextStep(before, piece, left, total);
        Append(piece);
      }
      assert FmtText([], args[a..]) == [];
      buf[hdrLen] := NUL;
    }
  }
}
