/** What a line splits into and how bytes are quoted, said on the bytes themselves. */
module QuotingLaws {
  import opened Bytes
  import opened Quoting

  /** An argument as a user may write it: bare, between apostrophes, or between quotes. */
  datatype Item = Bare(text: bytes) | Apostrophes(text: bytes) | Quotes(text: bytes)

  predicate Blank(c: byte) { c == 32 || 9 <= c <= 13 }

  /** A bare word is not empty and has no blanks and no quotes; between apostrophes or quotes
      anything may stand but the one that closes, and backslashes. */
  predicate Neat(i: Item) {
    match i
    case Bare(text) => text != [] && forall k :: 0 <= k < |text| ==> !Blank(text[k]) && text[k] != 34 && text[k] != 39
    case Apostrophes(text) => 39 !in text && 92 !in text
    case Quotes(text) => 34 !in text && 92 !in text
  }

  function Written(i: Item): bytes {
    match i
    case Bare(text) => text
    case Apostrophes(text) => [39] + text + [39]
    case Quotes(text) => [34] + text + [34]
  }

  /** Arguments with a space between them. */
  function Line(items: seq<Item>): bytes {
    if items == [] then []
    else if |items| == 1 then Written(items[0])
    else Written(items[0]) + [32] + Line(items[1..])
  }

  function Texts(items: seq<Item>): (ts: seq<bytes>)
    ensures |ts| == |items| && forall k :: 0 <= k < |items| ==> ts[k] == items[k].text
  {
    seq(|items|, k requires 0 <= k < |items| => items[k].text)
  }

  lemma {:induction false} BareRead(text: bytes, tail: bytes, cur: bytes)
    requires forall k :: 0 <= k < |text| ==> !Blank(text[k]) && text[k] != 34 && text[k] != 39
    ensures ScanToken(Plain, text + tail, cur) == ScanToken(Plain, tail, cur + text)
    decreases |text|
  {
    if text == [] {
      assert text + tail == tail && cur + text == cur;
    } else {
      assert (text + tail)[1..] == text[1..] + tail;
      BareRead(text[1..], tail, cur + [text[0]]);
      assert cur + [text[0]] + text[1..] == cur + text;
    }
  }

  /** Text between quotes of a kind, up to its end. */
  lemma {:induction false} InsideRead(mode: Mode, text: bytes, tail: bytes, cur: bytes)
    requires mode != Plain && 92 !in text && (if mode == Single then 39 else 34) !in text
    ensures ScanToken(mode, text + tail, cur) == ScanToken(mode, tail, cur + text)
    decreases |text|
  {
    if text == [] {
      assert text + tail == tail && cur + text == cur;
    } else {
      assert (text + tail)[1..] == text[1..] + tail;
      InsideRead(mode, text[1..], tail, cur + [text[0]]);
      assert cur + [text[0]] + text[1..] == cur + text;
    }
  }

  lemma EnclosedRead(mode: Mode, q: byte, text: bytes, rest: bytes)
    requires mode != Plain && q == (if mode == Single then 39 else 34) && 92 !in text && q !in text
    ensures ScanToken(Plain, [q] + text + [q] + rest, []) == Close(text, rest)
  {
    var tail := [q] + rest;
    assert ([q] + text + [q] + rest)[1..] == text + tail;
    InsideRead(mode, text, tail, []);
    assert [] + text == text && tail[1..] == rest;
  }

  /** One argument, at the end of the line or with a space behind it. */
  lemma ItemRead(i: Item, rest: bytes)
    requires Neat(i) && (rest == [] || rest[0] == 32)
    ensures SkipBlanks(Written(i) + rest) == Written(i) + rest != []
    ensures var r := ScanToken(Plain, Written(i) + rest, []);
      r == Token(i.text, if i.Bare? && rest != [] then rest[1..] else rest)
  {
    assert (Written(i) + rest)[0] == Written(i)[0];
    match i
    case Bare(text) =>
      BareRead(text, rest, []);
      assert [] + text == text;
    case Apostrophes(text) => EnclosedRead(Single, 39, text, rest);
    case Quotes(text) => EnclosedRead(Quoted, 34, text, rest);
  }

  /** Arguments written in any of these ways, with a space between them, are split into
      exactly their texts. */
  lemma {:induction false} SplitOfLine(items: seq<Item>)
    requires forall k :: 0 <= k < |items| ==> Neat(items[k])
    ensures Split(Line(items)) == Some(Texts(items))
    decreases |items|
  {
    if items != [] {
      var others := Line(items[1..]);
      var rest := if |items| == 1 then [] else [32] + others;
      assert Line(items) == Written(items[0]) + rest;
      ItemRead(items[0], rest);
      SplitOfLine(items[1..]);
      if |items| == 1 {
        assert Split([]) == Some([]);
        assert Texts(items) == [items[0].text] + [];
      } else {
        assert rest[1..] == others;
        assert SkipBlanks(rest) == SkipBlanks(others);
        assert Texts(items) == [items[0].text] + Texts(items[1..]);
      }
    }
  }

  /** A quote that is not closed, or is closed in the middle of a word, is an error. */
  lemma Misplaced(text: bytes, c: byte, rest: bytes)
    requires 34 !in text && 92 !in text && !Blank(c)
    ensures Split([34] + text) == None && Split([34] + text + [34] + ([c] + rest)) == None
  {
    var line, tail := [34] + text, [34] + ([c] + rest);
    assert line[1..] == text && text + [] == text;
    InsideRead(Quoted, text, [], []);
    EnclosedRead(Quoted, 34, text, [c] + rest);
    assert ([34] + text + tail)[0] == 34;
  }

  // ------------------------------------------------------------------------
  // How bytes are quoted

  function Hex(d: nat): byte
    requires d < 16
  {
    if d < 10 then 48 + d else 97 + (d - 10)
  }

  /** A backslash goes before backslashes and quotes, five control characters have a letter,
      other printable bytes stand as they are, and all others are written in hexadecimal. */
  lemma EscapeMeans(c: byte)
    ensures c in {34, 92} ==> Escape(c) == [92, c]
    ensures Escape(10) == [92, 110] && Escape(13) == [92, 114] && Escape(9) == [92, 116]
    ensures Escape(7) == [92, 97] && Escape(8) == [92, 98]
    ensures 32 <= c < 127 && c !in {34, 92} ==> Escape(c) == [c]
    ensures !(32 <= c < 127) && c !in {7, 8, 9, 10, 13} ==>
      Escape(c) == [92, 120, Hex(c / 16), Hex(c % 16)]
  {
  }

  /** Printable text without quotes and backslashes is quoted by quotes around it. */
  lemma {:induction false} ReprOfText(text: bytes)
    requires forall k :: 0 <= k < |text| ==> 32 <= text[k] < 127 && text[k] !in {34, 92}
    ensures Repr(text) == [34] + text + [34] && EscapeAll(text) == text
  {
    if text != [] {
      var front, last := text[..|text| - 1], text[|text| - 1];
      ReprOfText(front);
      EscapeMeans(last);
      assert text == front + [last];
    }
  }
}
