/** The text of bus messages: printers and parsers of libbb/bb_bus.c and services/bb-busd.c. */
module BusMessages {
  import opened Common
  import opened LineFraming

  datatype Message = Message(topic: string, payload: string)

  const TOPIC_WIDTH: nat := 255   // the 255 of the scanf conversions

  function SkipSpaces(s: string): (r: string)
    ensures |r| <= |s| && (r == [] || !IsSpace(r[0]))
  {
    if s == [] || !IsSpace(s[0]) then s else SkipSpaces(s[1..])
  }

  /** What a %255s conversion takes from the front of s. */
  function Token(s: string, width: nat): (t: string)
    ensures |t| <= |s| && t == s[..|t|] && |t| <= width
    ensures forall c :: c in t ==> !IsSpace(c)
    decreases width
  {
    if s == [] || width == 0 || IsSpace(s[0]) then [] else [s[0]] + Token(s[1..], width - 1)
  }

  /** Length of the text before the first blank, or the whole length. */
  function BlankAt(s: string): (n: nat)
    ensures n <= |s| && ' ' !in s[..n]
    ensures n < |s| ==> s[n] == ' '
  {
    if s == [] || s[0] == ' ' then 0 else 1 + BlankAt(s[1..])
  }

  /** The pointer walk that finds the payload: past the first word and one blank. */
  function AfterWord(s: string): string {
    var n := BlankAt(s);
    if n < |s| then s[n + 1..] else []
  }

  // ---- The commands ----

  /** bb_bus_publish before truncation, and the daemon's reprint: both without the newline. */
  function PrintPub(m: Message): string { "PUB " + m.topic + " " + m.payload }

  datatype Command = Pub(m: Message) | Sub(topic: string) | Unsub(topic: string) | Ping | Ignored

  /** The daemon's reading of one line. */
  function ParseCommand(line: string): Command {
    if StartsWith(line, "PUB ") then
      var after := SkipSpaces(line[3..]);
      var topic := Token(after, TOPIC_WIDTH);
      if topic != [] && SkipSpaces(after[|topic|..]) != [] then Pub(Message(topic, AfterWord(line[4..]))) else Ignored
    else if StartsWith(line, "SUB ") && Token(SkipSpaces(line[3..]), TOPIC_WIDTH) != [] then
      Sub(Token(SkipSpaces(line[3..]), TOPIC_WIDTH))
    else if StartsWith(line, "UNSUB ") && Token(SkipSpaces(line[5..]), TOPIC_WIDTH) != [] then
      Unsub(Token(SkipSpaces(line[5..]), TOPIC_WIDTH))
    else if line == "PING" then Ping
    else Ignored
  }

  /** The receiving client's reading of one line. */
  function ParseDelivery(line: string): Option<Message> {
    if StartsWith(line, "PUB ") && ' ' in line[4..] then
      var n := BlankAt(line[4..]);
      Some(Message(line[4..][..n], line[4..][n + 1..]))
    else None
  }

  /** The loop `while (*p && *p != ' ') p++` of the daemon. */
  method FindPayload(line: string) returns (payload: string)
    requires StartsWith(line, "PUB ")
    ensures payload == AfterWord(line[4..])
  {
    var p: nat := 4;
    while p < |line| && line[p] != ' '
      invariant 4 <= p <= |line|
      invariant 4 + BlankAt(line[4..]) == p + BlankAt(line[p..])
    {
      p := p + 1;
    }
    if p < |line| { p := p + 1; }
    payload := line[p..];
  }

  // ---- Round trips ----

  predicate HasVisible(s: string) { exists i :: 0 <= i < |s| && !IsSpace(s[i]) }

  /** A topic that survives scanf: one nonempty word within the conversion width. */
  predicate GoodTopic(topic: string) {
    1 <= |topic| <= TOPIC_WIDTH && forall c :: c in topic ==> !IsSpace(c)
  }

  predicate Good(m: Message) { GoodTopic(m.topic) && NEWLINE !in m.payload && HasVisible(m.payload) }

  lemma {:induction false} TokenOfWord(word: string, rest: string, width: nat)
    requires |word| <= width && (forall c :: c in word ==> !IsSpace(c)) && (rest == [] || IsSpace(rest[0]))
    ensures Token(word + rest, width) == word
    decreases |word|
  {
    if word == [] {
      assert word + rest == rest;
    } else {
      assert (word + rest)[1..] == word[1..] + rest;
      TokenOfWord(word[1..], rest, width - 1);
    }
  }

  lemma {:induction false} SkipSpacesEmptyIff(s: string)
    ensures SkipSpaces(s) == [] <==> !HasVisible(s)
    decreases |s|
  {
    if s != [] && IsSpace(s[0]) {
      SkipSpacesEmptyIff(s[1..]);
      if HasVisible(s) {
        var i :| 0 <= i < |s| && !IsSpace(s[i]);
        assert s[1..][i - 1] == s[i];
      }
      if HasVisible(s[1..]) {
        var i :| 0 <= i < |s[1..]| && !IsSpace(s[1..][i]);
        assert s[i + 1] == s[1..][i];
      }
    }
  }

  lemma {:induction false} BlankAfterWord(word: string, rest: string)
    requires ' ' !in word
    ensures BlankAt(word + " " + rest) == |word|
    decreases |word|
  {
    if word != [] {
      assert (word + " " + rest)[1..] == word[1..] + " " + rest;
      BlankAfterWord(word[1..], rest);
    }
  }

  lemma PrintedShape(m: Message)
    requires GoodTopic(m.topic)
    ensures StartsWith(PrintPub(m), "PUB ")
    ensures PrintPub(m)[4..] == m.topic + " " + m.payload
    ensures SkipSpaces(PrintPub(m)[3..]) == m.topic + " " + m.payload
  {
    assert PrintPub(m)[3..] == " " + (m.topic + " " + m.payload);
    assert m.topic[0] in m.topic;
    assert SkipSpaces(" " + (m.topic + " " + m.payload)) == SkipSpaces(m.topic + " " + m.payload);
  }

  /** With a good topic, a payload that shows a visible character is forwarded; a blank one is silently dropped. */
  lemma GoodTopicRoundTrip(m: Message)
    requires GoodTopic(m.topic)
    ensures ParseCommand(PrintPub(m)) == if HasVisible(m.payload) then Pub(m) else Ignored
  {
    PrintedShape(m);
    var rest := " " + m.payload;
    assert m.topic + " " + m.payload == m.topic + rest;
    TokenOfWord(m.topic, rest, TOPIC_WIDTH);
    assert (m.topic + rest)[|m.topic|..] == rest;
    assert rest[1..] == m.payload;
    SkipSpacesEmptyIff(m.payload);
    BlankAfterWord(m.topic, m.payload);
    assert AfterWord(PrintPub(m)[4..]) == m.payload;
  }

  lemma ForwardedTopicIsGood(line: string)
    ensures ParseCommand(line).Pub? ==> GoodTopic(ParseCommand(line).m.topic)
  {
  }

  /**
    For every message: the daemon reads a printed message back unchanged exactly when its topic is one word of at
    most 255 characters and its payload shows a visible character.
  */
  lemma DaemonRoundTrip(m: Message)
    ensures ParseCommand(PrintPub(m)) == Pub(m) <==> GoodTopic(m.topic) && HasVisible(m.payload)
    ensures GoodTopic(m.topic) && !HasVisible(m.payload) ==> ParseCommand(PrintPub(m)) == Ignored
  {
    ForwardedTopicIsGood(PrintPub(m));
    if GoodTopic(m.topic) { GoodTopicRoundTrip(m); }
  }

  /** The receiving client recovers the message from the daemon's reprint, blank payload or not. */
  lemma ClientRoundTrip(m: Message)
    requires GoodTopic(m.topic)
    ensures ParseDelivery(PrintPub(m)) == Some(m)
  {
    PrintedShape(m);
    BlankAfterWord(m.topic, m.payload);
    var rest := m.topic + " " + m.payload;
    assert rest[|m.topic|] == ' ' && rest[..|m.topic|] == m.topic && rest[|m.topic| + 1..] == m.payload;
  }

  function PrintSub(topic: string): string { "SUB " + topic }
  function PrintUnsub(topic: string): string { "UNSUB " + topic }

  lemma OtherWord(s: string, prefix: string)
    requires s != [] && prefix != [] && s[0] != prefix[0]
    ensures !StartsWith(s, prefix)
  {
    assert |prefix| <= |s| ==> s[..|prefix|][0] == s[0];
  }

  lemma WordAfterCommand(command: string, topic: string)
    requires command != [] && GoodTopic(topic)
    ensures StartsWith(command + " " + topic, command + " ")
    ensures Token(SkipSpaces((command + " " + topic)[|command|..]), TOPIC_WIDTH) == topic
  {
    var rest := [' '] + topic;
    assert command + " " + topic == command + rest;
    assert (command + rest)[|command|..] == rest && rest[1..] == topic;
    assert (command + rest)[..|command| + 1] == command + " ";
    assert topic[0] in topic;
    assert SkipSpaces(rest) == topic;
    TokenOfWord(topic, [], TOPIC_WIDTH);
    assert topic + [] == topic;
  }

  /** Subscriptions reach the daemon's table under the topic the client named. */
  lemma SubscriptionRoundTrip(topic: string)
    requires GoodTopic(topic)
    ensures ParseCommand(PrintSub(topic)) == Sub(topic)
    ensures ParseCommand(PrintUnsub(topic)) == Unsub(topic)
  {
    var sub, unsub := PrintSub(topic), PrintUnsub(topic);
    WordAfterCommand("SUB", topic);
    WordAfterCommand("UNSUB", topic);
    assert sub == "SUB" + " " + topic && unsub == "UNSUB" + " " + topic;
    assert "SUB" + " " == "SUB " && "UNSUB" + " " == "UNSUB ";
    OtherWord(sub, "PUB ");
    OtherWord(unsub, "PUB ");
    OtherWord(unsub, "SUB ");
  }
}
