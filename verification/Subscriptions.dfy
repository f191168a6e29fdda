/** Who is subscribed to what, said on the texts of commands and messages, from the whole log
    of what has been issued and heard. The tables of the context play no part in it. */
module Subscriptions {
  import opened Bytes
  import opened Resp
  import opened Dict
  import opened History
  import opened Command
  import opened PubSub

  type ascii = s: string | forall i :: 0 <= i < |s| ==> s[i] as int < 128

  function Text(s: ascii): (b: bytes)
    ensures |b| == |s| && forall i :: 0 <= i < |s| ==> b[i] == s[i] as int
  {
    seq(|s|, i requires 0 <= i < |s| => s[i] as int)
  }

  /** A small letter for a capital. */
  function Small(c: byte): byte {
    if 'A' as int <= c <= 'Z' as int then c + 32 else c
  }

  /** The text begins with the word, in letters of either size. */
  predicate Starts(text: bytes, word: bytes) {
    |word| <= |text| && forall i :: 0 <= i < |word| ==> Small(text[i]) == word[i]
  }

  /** The name of a command counts up to its first line end. */
  predicate IsCommand(argv: seq<bytes>, name: ascii) {
    argv != [] && Starts(argv[0] + [13, 10], Text(name) + [13, 10])
  }

  /** SUBSCRIBE and PSUBSCRIBE, with at least one name. */
  predicate Subscribes(argv: seq<bytes>, pattern: bool) {
    |argv| > 1 && IsCommand(argv, if pattern then "psubscribe" else "subscribe")
  }

  predicate Unsubscribes(argv: seq<bytes>) {
    IsCommand(argv, "unsubscribe") || IsCommand(argv, "punsubscribe")
  }

  /** A command that gets a reply of its own. */
  predicate Ordinary(argv: seq<bytes>) {
    argv != [] && !Subscribes(argv, true) && !Subscribes(argv, false) && !Unsubscribes(argv)
  }

  /** An array whose second item is the name is a message for it; a first item that begins with
      p makes it one of a pattern. */
  predicate MessageFor(reply: Reply, pattern: bool, name: bytes) {
    && reply.Array? && |reply.items| >= 2 && reply.items[0].Bulk? && reply.items[1] == Bulk(name)
    && pattern == Starts(reply.items[0].text, Text("p"))
  }

  /** The word of an ordinary message. */
  function MessageWord(pattern: bool): bytes {
    if pattern then Text("pmessage") else Text("message")
  }

  /** The message says that the name is no longer subscribed; a C string ends at its NUL. */
  predicate TakesOff(reply: Reply, pattern: bool, name: bytes) {
    && MessageFor(reply, pattern, name)
    && Starts(reply.items[0].text + [0], Text(if pattern then "punsubscribe" else "unsubscribe") + [0])
  }

  /** Who subscribed to the name last, unless it has been taken off since. */
  function Latest(deeds: seq<Deed>, pattern: bool, name: bytes): Option<Callback> {
    if deeds == [] then None
    else
      var earlier := Latest(deeds[..|deeds| - 1], pattern, name);
      match deeds[|deeds| - 1]
      case Issued(argv, cb) => if Subscribes(argv, pattern) && name in argv[1..] then Some(cb) else earlier
      case Heard(reply) => if TakesOff(reply, pattern, name) then None else earlier
  }

  /** The message takes off the last name: it says that none is left. */
  ghost predicate Last(deeds: seq<Deed>, reply: Reply) {
    exists pattern, name :: TakesOff(reply, pattern, name) && Latest(deeds, pattern, name).Some?
      && |reply.items| > 2 && reply.items[2] == Integer(0)
  }

  /** Whether the context is in the mode for messages. */
  ghost predicate InMode(deeds: seq<Deed>) {
    deeds != [] &&
    var front := deeds[..|deeds| - 1];
    match deeds[|deeds| - 1]
    case Issued(argv, _) => Subscribes(argv, false) || Subscribes(argv, true) || InMode(front)
    case Heard(reply) => InMode(front) && !Last(front, reply)
  }

  /** The bytes of all commands that were issued, in order. */
  function Output(deeds: seq<Deed>): bytes {
    if deeds == [] then []
    else
      var last := deeds[|deeds| - 1];
      Output(deeds[..|deeds| - 1]) + (if last.Issued? then Encode(last.argv) else [])
  }

  /** One more deed. */
  lemma DeedSnoc(deeds: seq<Deed>, d: Deed)
    ensures (deeds + [d])[..|deeds|] == deeds
    ensures Output(deeds + [d]) == Output(deeds) + (if d.Issued? then Encode(d.argv) else [])
  {
    assert (deeds + [d])[..|deeds|] == deeds;
  }

  // ------------------------------------------------------------------------
  // What the code makes of the same texts

  lemma SameLetters(text: bytes, p: nat, word: bytes)
    requires p <= |text|
    ensures CasePrefix(text, p, word) <==> Starts(text[p..], word)
  {
    if p + |word| <= |text| {
      forall i | 0 <= i < |word|
        ensures Lower(text[p + i]) == Small(text[p..][i])
      {
      }
    }
  }

  lemma SubscribeWords()
    ensures SUBSCRIBE == Text("subscribe") + [13, 10]
    ensures Text("psubscribe") + [13, 10] == Text("p") + (Text("subscribe") + [13, 10])
  {
  }

  lemma UnsubscribeWords()
    ensures UNSUBSCRIBE == Text("unsubscribe") + [13, 10]
    ensures Text("punsubscribe") + [13, 10] == Text("p") + (Text("unsubscribe") + [13, 10])
  {
  }

  lemma MessageWords()
    ensures UNSUBSCRIBE_WORD == Text("unsubscribe") + [0]
    ensures Text("punsubscribe") + [0] == Text("p") + (Text("unsubscribe") + [0])
  {
  }

  /** A word that begins with p: the p, and the rest behind it. */
  lemma StartsP(text: bytes, word: bytes)
    requires word != []
    ensures Starts(text, Text("p") + word) <==> Starts(text, Text("p")) && Starts(text[1..], word)
    ensures word[0] != 112 && Starts(text, word) ==> !Starts(text, Text("p"))
  {
    var pw := Text("p") + word;
    if Starts(text, pw) {
      assert pw[0] == 112;
      forall i | 0 <= i < |word|
        ensures Small(text[1..][i]) == word[i]
      {
        assert Small(text[i + 1]) == pw[i + 1];
      }
    }
  }

  lemma BeginsP(name: bytes, tail: bytes)
    requires tail == [] || Small(tail[0]) != 112
    ensures Starts(name + tail, Text("p")) <==> Variant(name) == 1
  {
    var word := Text("p");
    assert word[0] == 112;
    assert name != [] ==> (name + tail)[0] == name[0];
    assert name == [] && tail != [] ==> (name + tail)[0] == tail[0];
  }

  /** A text does not begin with both words. */
  lemma Apart(text: bytes)
    ensures !(Starts(text, SUBSCRIBE) && Starts(text, UNSUBSCRIBE))
  {
    assert SUBSCRIBE[0] != UNSUBSCRIBE[0];
  }

  /** The comparisons of the code recognise exactly these commands. */
  lemma ClassifyMeans(argv: seq<bytes>)
    requires argv != []
    ensures forall pattern :: Classify(argv) == Subscribe(pattern) <==> Subscribes(argv, pattern)
    ensures Classify(argv) == Unsubscribe <==> Unsubscribes(argv)
    ensures Classify(argv) == Other <==> Ordinary(argv)
  {
    var text, p := argv[0] + CRLF, Variant(argv[0]);
    SubscribeWords();
    UnsubscribeWords();
    BeginsP(argv[0], CRLF);
    assert text[0..] == text;
    StartsP(text, SUBSCRIBE);
    StartsP(text, UNSUBSCRIBE);
    SameLetters(text, p, SUBSCRIBE);
    SameLetters(text, p, UNSUBSCRIBE);
    Apart(text[p..]);
  }

  /** ... and exactly these messages. */
  lemma MessageMeans(reply: Reply, pattern: bool)
    requires IsMessage(reply)
    ensures var name := reply.items[1].text;
      && (MessageFor(reply, pattern, name) <==> OfPattern(reply) == pattern)
      && (TakesOff(reply, pattern, name) <==> OfPattern(reply) == pattern && Unsubscribed(reply))
  {
    var word := reply.items[0].text;
    var text, p := word + [0], Variant(word);
    MessageWords();
    BeginsP(word, [0]);
    BeginsP(word, []);
    assert text[0..] == text && word + [] == word;
    StartsP(text, UNSUBSCRIBE_WORD);
    SameLetters(text, p, UNSUBSCRIBE_WORD);
  }
}
