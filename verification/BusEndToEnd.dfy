/**
  From bb_bus_publish, bb_bus_subscribe and bb_bus_unsubscribe in any number of clients, through the daemon, to the
  message handler of one of them.
*/
module BusEndToEnd {
  import opened Common
  import opened LineFraming
  import opened BusMessages
  import opened SubscriptionTable
  import opened BusDaemon

  const MAX_LINE: nat := 4288   // BB_MAX_LINE

  /** snprintf into a MAX_LINE buffer. */
  function Cut(s: string): string { if |s| < MAX_LINE then s else s[..MAX_LINE - 1] }

  // ---- Streams of lines ----

  /** The lines as send_line puts them on the wire. */
  function Stream(lines: seq<string>): string {
    if lines == [] then [] else lines[0] + [NEWLINE] + Stream(lines[1..])
  }

  predicate OneLiners(lines: seq<string>) { forall i :: 0 <= i < |lines| ==> NEWLINE !in lines[i] }

  lemma {:induction false} StreamLines(lines: seq<string>)
    requires OneLiners(lines)
    ensures Lines(Stream(lines)) == lines && Tail(Stream(lines)) == []
    decreases |lines|
  {
    if lines != [] {
      StreamLines(lines[1..]);
      LineThenRest(lines[0], Stream(lines[1..]));
    }
  }

  /** A stream gets through a buffer, with room at every point, exactly if each line fits with its newline. */
  lemma StreamFitsExactly(lines: seq<string>, size: nat)
    requires OneLiners(lines) && size >= 1
    ensures GetsThrough(Stream(lines), size) <==> forall i :: 0 <= i < |lines| ==> |lines[i]| + 1 < size
    ensures RoomThroughout(Stream(lines), size) <==> forall i :: 0 <= i < |lines| ==> |lines[i]| + 1 < size
  {
    StreamLines(lines);
    RoomExactly(Stream(lines), size);
    GetsThroughExactly(Stream(lines), size);
  }

  lemma {:induction false} StreamConcat(a: seq<string>, b: seq<string>)
    ensures Stream(a + b) == Stream(a) + Stream(b)
    decreases |a|
  {
    if a == [] {
      assert a + b == b;
    } else {
      assert (a + b)[1..] == a[1..] + b;
      StreamConcat(a[1..], b);
      Associative(a[0] + [NEWLINE], Stream(a[1..]), Stream(b));
    }
  }

  // ---- Messages on the wire ----

  function ClientText(m: Message): string { Cut(PrintPub(m)) }

  function Printed(msgs: seq<Message>): (lines: seq<string>)
    ensures |lines| == |msgs| && forall i :: 0 <= i < |msgs| ==> lines[i] == ClientText(msgs[i])
  {
    if msgs == [] then [] else [ClientText(msgs[0])] + Printed(msgs[1..])
  }

  function ClientStream(msgs: seq<Message>): string { Stream(Printed(msgs)) }

  /** A good message that bb_bus_publish prints untruncated. */
  predicate Printable(m: Message) { Good(m) && |PrintPub(m)| < MAX_LINE }

  /** One the receiver has room for: bb_bus_poll needs a byte for the newline and one for the terminator. */
  predicate Receivable(m: Message) { |PrintPub(m)| + 1 < MAX_LINE }

  predicate AllPrintable(msgs: seq<Message>) { forall i :: 0 <= i < |msgs| ==> Printable(msgs[i]) }
  predicate AllReceivable(msgs: seq<Message>) { forall i :: 0 <= i < |msgs| ==> Receivable(msgs[i]) }
  predicate AllOnOneLine(msgs: seq<Message>) { forall i :: 0 <= i < |msgs| ==> NEWLINE !in PrintPub(msgs[i]) }

  lemma PrintedOnOneLine(msgs: seq<Message>)
    requires AllOnOneLine(msgs)
    ensures OneLiners(Printed(msgs))
  {
    forall i | 0 <= i < |msgs| ensures NEWLINE !in ClientText(msgs[i]) {
      assert forall c :: c in ClientText(msgs[i]) ==> c in PrintPub(msgs[i]);
    }
  }

  lemma PrintableOnOneLine(msgs: seq<Message>)
    requires AllPrintable(msgs)
    ensures AllOnOneLine(msgs)
  {
    forall i | 0 <= i < |msgs| ensures NEWLINE !in PrintPub(msgs[i]) { assert Printable(msgs[i]); }
  }

  /**
    A receiver's buffer, which is as long as the longest print, takes a stream of messages exactly if each print
    leaves room for its newline; then, and only then, no recv on the way is left without room.
  */
  lemma ReceivedExactly(msgs: seq<Message>)
    requires AllOnOneLine(msgs)
    ensures GetsThrough(ClientStream(msgs), MAX_LINE) <==> AllReceivable(msgs)
    ensures RoomThroughout(ClientStream(msgs), MAX_LINE) <==> AllReceivable(msgs)
  {
    PrintedOnOneLine(msgs);
    StreamFitsExactly(Printed(msgs), MAX_LINE);
    assert forall i :: 0 <= i < |msgs| ==> (Receivable(msgs[i]) <==> |Printed(msgs)[i]| + 1 < MAX_LINE);
  }

  /** The failing case: a print of 4287 characters, which the client sends whole, blocks every receiver. */
  lemma LongestPrintBlocks(payload: string)
    requires |payload| == 4281 && payload[0] == 'x' && NEWLINE !in payload
    ensures Printable(Message("t", payload)) && |PrintPub(Message("t", payload))| == 4287
    ensures !GetsThrough(ClientStream([Message("t", payload)]), MAX_LINE)
  {
    var m := Message("t", payload);
    assert !IsSpace(payload[0]);
    assert Printable([m][0]) && !Receivable([m][0]);
    PrintableOnOneLine([m]);
    ReceivedExactly([m]);
  }

  /** The handler calls bb_bus_poll makes for these lines. */
  function HandlerCalls(lines: seq<string>): seq<Message> {
    if lines == [] then []
    else (match ParseDelivery(lines[0]) case Some(m) => [m] case None => []) + HandlerCalls(lines[1..])
  }

  lemma {:induction false} HandlersRecover(msgs: seq<Message>)
    requires AllPrintable(msgs)
    ensures HandlerCalls(Printed(msgs)) == msgs
    decreases |msgs|
  {
    if msgs != [] {
      assert Printed(msgs)[1..] == Printed(msgs[1..]);
      ClientRoundTrip(msgs[0]);
      HandlersRecover(msgs[1..]);
    }
  }

  /** Whatever the chunks a receiver's stream arrives in, its handler is called with exactly the messages. */
  lemma ReceiverHandles(msgs: seq<Message>, downstream: seq<string>)
    requires AllPrintable(msgs) && Flatten(downstream) == ClientStream(msgs)
    ensures HandlerCalls(HandledOver([], downstream)) == msgs && KeptAfter([], downstream) == []
  {
    ChunkInvariance([], downstream);
    assert [] + Flatten(downstream) == ClientStream(msgs);
    PrintableOnOneLine(msgs);
    PrintedOnOneLine(msgs);
    StreamLines(Printed(msgs));
    HandlersRecover(msgs);
  }

  // ---- Requests ----

  datatype Request = Post(m: Message) | Follow(topic: string) | Unfollow(topic: string)

  function RequestText(r: Request): string {
    match r case Post(m) => ClientText(m) case Follow(t) => Cut(PrintSub(t)) case Unfollow(t) => Cut(PrintUnsub(t))
  }

  function RequestTexts(rs: seq<Request>): (lines: seq<string>)
    ensures |lines| == |rs| && forall i :: 0 <= i < |rs| ==> lines[i] == RequestText(rs[i])
  {
    if rs == [] then [] else [RequestText(rs[0])] + RequestTexts(rs[1..])
  }

  predicate GoodRequest(r: Request) {
    match r case Post(m) => Printable(m) case Follow(t) => GoodTopic(t) case Unfollow(t) => GoodTopic(t)
  }

  predicate GoodRequests(rs: seq<Request>) { forall i :: 0 <= i < |rs| ==> GoodRequest(rs[i]) }

  /** The request a line of a client makes of the daemon. */
  function RequestOf(line: string): Option<Request> {
    match ParseCommand(line)
    case Pub(m) => Some(Post(m))
    case Sub(t) => Some(Follow(t))
    case Unsub(t) => Some(Unfollow(t))
    case Ping => None
    case Ignored => None
  }

  lemma RequestRoundTrip(r: Request)
    requires GoodRequest(r)
    ensures RequestOf(RequestText(r)) == Some(r) && NEWLINE !in RequestText(r) && |RequestText(r)| + 1 < BUF_SIZE
  {
    match r
    case Post(m) => DaemonRoundTrip(m);
    case Follow(t) => SubscriptionRoundTrip(t);
    case Unfollow(t) => SubscriptionRoundTrip(t);
  }

  /** The daemon's buffers take every stream of good requests without ever running out of room. */
  lemma DaemonAlwaysHasRoom(rs: seq<Request>)
    requires GoodRequests(rs)
    ensures OneLiners(RequestTexts(rs))
    ensures RoomThroughout(Stream(RequestTexts(rs)), BUF_SIZE) && GetsThrough(Stream(RequestTexts(rs)), BUF_SIZE)
  {
    forall i | 0 <= i < |rs|
      ensures NEWLINE !in RequestTexts(rs)[i] && |RequestTexts(rs)[i]| + 1 < BUF_SIZE
    {
      RequestRoundTrip(rs[i]);
    }
    StreamFitsExactly(RequestTexts(rs), BUF_SIZE);
  }

  // ---- What reaches the daemon ----

  /** One recv from a client, a new connection, or the end of one; and what the daemon makes of it. */
  datatype Arrival = Chunk(fd: int, chunk: string) | Joined(fd: int) | Left(fd: int)
  datatype Happening = Handles(fd: int, line: string) | Joins(fd: int) | Leaves(fd: int)

  function KeptOf(kept: map<int, string>, fd: int): string { if fd in kept then kept[fd] else [] }

  function Tag(fd: int, lines: seq<string>): seq<Happening> {
    if lines == [] then [] else [Handles(fd, lines[0])] + Tag(fd, lines[1..])
  }

  /** The lines handled over a run of arrivals, each client having its own buffer, empty when it connects. */
  function Handled(kept: map<int, string>, arrivals: seq<Arrival>): seq<Happening>
    decreases |arrivals|
  {
    if arrivals == [] then []
    else
      match arrivals[0]
      case Chunk(fd, chunk) =>
        var s := KeptOf(kept, fd) + chunk;
        Tag(fd, Lines(s)) + Handled(kept[fd := Tail(s)], arrivals[1..])
      case Joined(fd) => [Joins(fd)] + Handled(kept[fd := []], arrivals[1..])
      case Left(fd) => [Leaves(fd)] + Handled(kept, arrivals[1..])
  }

  function ChunksOf(arrivals: seq<Arrival>, fd: int): seq<string> {
    if arrivals == [] then []
    else (if arrivals[0].Chunk? && arrivals[0].fd == fd then [arrivals[0].chunk] else []) + ChunksOf(arrivals[1..], fd)
  }

  function LinesOf(log: seq<Happening>, fd: int): seq<string> {
    if log == [] then []
    else (if log[0].Handles? && log[0].fd == fd then [log[0].line] else []) + LinesOf(log[1..], fd)
  }

  /** A descriptor connects before it sends. */
  predicate JoinsFirst(arrivals: seq<Arrival>, fd: int) {
    forall i, j :: 0 <= i < j < |arrivals| && arrivals[i].Chunk? && arrivals[i].fd == fd ==> arrivals[j] != Joined(fd)
  }

  lemma {:induction false} LinesOfTagged(fd: int, lines: seq<string>, log: seq<Happening>, asked: int)
    ensures LinesOf(Tag(fd, lines) + log, asked) == (if asked == fd then lines else []) + LinesOf(log, asked)
    decreases |lines|
  {
    if lines == [] {
      assert Tag(fd, lines) + log == log;
      assert [] + LinesOf(log, asked) == LinesOf(log, asked);
    } else {
      assert (Tag(fd, lines) + log)[1..] == Tag(fd, lines[1..]) + log;
      LinesOfTagged(fd, lines[1..], log, asked);
      Associative([lines[0]], lines[1..], LinesOf(log, asked));
      assert [lines[0]] + lines[1..] == lines;
    }
  }

  lemma FirstChunkSeparate(kept: map<int, string>, a: Arrival, rest: seq<Arrival>, fd: int)
    requires a.Chunk?
    requires var kept' := kept[a.fd := Tail(KeptOf(kept, a.fd) + a.chunk)];
             LinesOf(Handled(kept', rest), fd) == HandledOver(KeptOf(kept', fd), ChunksOf(rest, fd))
    ensures LinesOf(Handled(kept, [a] + rest), fd) == HandledOver(KeptOf(kept, fd), ChunksOf([a] + rest, fd))
  {
    var s := KeptOf(kept, a.fd) + a.chunk;
    var later := Handled(kept[a.fd := Tail(s)], rest);
    assert ([a] + rest)[1..] == rest;
    LinesOfTagged(a.fd, Lines(s), later, fd);
    if a.fd == fd {
      assert ([a.chunk] + ChunksOf(rest, fd))[1..] == ChunksOf(rest, fd);
    } else {
      assert [] + ChunksOf(rest, fd) == ChunksOf(rest, fd);
      assert [] + LinesOf(later, fd) == LinesOf(later, fd);
    }
  }

  /** A connection or its end changes neither the chunks nor the lines of anyone. */
  lemma NoChunkSeparate(kept: map<int, string>, a: Arrival, rest: seq<Arrival>, fd: int)
    requires !a.Chunk?
    ensures ChunksOf([a] + rest, fd) == ChunksOf(rest, fd)
    ensures LinesOf(Handled(kept, [a] + rest), fd) ==
            LinesOf(Handled(if a.Joined? then kept[a.fd := []] else kept, rest), fd)
  {
    var later := Handled(if a.Joined? then kept[a.fd := []] else kept, rest);
    var h := if a.Joined? then Joins(a.fd) else Leaves(a.fd);
    assert ([a] + rest)[1..] == rest && ([h] + later)[1..] == later;
    assert [] + ChunksOf(rest, fd) == ChunksOf(rest, fd);
    assert [] + LinesOf(later, fd) == LinesOf(later, fd);
  }

  /** The buffers do not disturb each other: each client's lines are those of its own chunks. */
  lemma {:induction false} ClientsSeparate(kept: map<int, string>, arrivals: seq<Arrival>, fd: int)
    requires JoinsFirst(arrivals, fd) && (KeptOf(kept, fd) == [] || Joined(fd) !in arrivals)
    ensures LinesOf(Handled(kept, arrivals), fd) == HandledOver(KeptOf(kept, fd), ChunksOf(arrivals, fd))
    decreases |arrivals|
  {
    if arrivals != [] {
      var a, rest := arrivals[0], arrivals[1..];
      assert arrivals == [a] + rest;
      assert forall j :: 0 <= j < |rest| ==> rest[j] == arrivals[j + 1];
      if a.Chunk? {
        ClientsSeparate(kept[a.fd := Tail(KeptOf(kept, a.fd) + a.chunk)], rest, fd);
        FirstChunkSeparate(kept, a, rest, fd);
      } else {
        var kept' := if a.Joined? then kept[a.fd := []] else kept;
        ClientsSeparate(kept', rest, fd);
        NoChunkSeparate(kept, a, rest, fd);
        assert KeptOf(kept', fd) == KeptOf(kept, fd);
      }
    }
  }

  /** What one client asked for, in the order the daemon handles it. */
  function RequestsOf(log: seq<Happening>, fd: int): seq<Request>
    decreases |log|
  {
    if log == [] then []
    else
      (if log[0].Handles? && log[0].fd == fd
       then (match RequestOf(log[0].line) case Some(r) => [r] case None => [])
       else []) + RequestsOf(log[1..], fd)
  }

  lemma FirstRequest(line: string, others: seq<string>, rs: seq<Request>)
    requires GoodRequests(rs) && RequestTexts(rs) == [line] + others
    ensures rs != [] && RequestOf(line) == Some(rs[0]) && others == RequestTexts(rs[1..])
  {
    SameHead(line, others, RequestText(rs[0]), RequestTexts(rs[1..]));
    RequestRoundTrip(rs[0]);
  }

  lemma {:induction false} OrderKeptPerSender(log: seq<Happening>, fd: int, rs: seq<Request>)
    requires GoodRequests(rs) && LinesOf(log, fd) == RequestTexts(rs)
    ensures RequestsOf(log, fd) == rs
    decreases |log|
  {
    if log == [] {
      assert |RequestTexts(rs)| == 0;
    } else {
      var rest := log[1..];
      if log[0].Handles? && log[0].fd == fd {
        FirstRequest(log[0].line, LinesOf(rest, fd), rs);
        OrderKeptPerSender(rest, fd, rs[1..]);
      } else {
        assert [] + LinesOf(rest, fd) == LinesOf(rest, fd);
        OrderKeptPerSender(rest, fd, rs);
        assert [] + RequestsOf(rest, fd) == RequestsOf(rest, fd);
      }
    }
  }

  /** A line that makes a good request. */
  predicate GoodLine(line: string) {
    RequestOf(line).Some? && GoodRequest(RequestOf(line).value) && line == RequestText(RequestOf(line).value)
  }

  predicate AllGoodLines(log: seq<Happening>) {
    forall i :: 0 <= i < |log| && log[i].Handles? ==> GoodLine(log[i].line)
  }

  /** A line of the log stands among its client's lines. */
  lemma {:induction false} InOwnLines(log: seq<Happening>, i: nat)
    requires i < |log| && log[i].Handles?
    ensures log[i].line in LinesOf(log, log[i].fd)
    decreases |log|
  {
    if i > 0 { InOwnLines(log[1..], i - 1); }
  }

  // ---- What the daemon does over a run ----

  /** The event a happening is for the subscription table. */
  function EventOf(h: Happening): Option<Event> {
    match h
    case Joins(fd) => Some(Connect(fd))
    case Leaves(fd) => Some(Disconnect(fd))
    case Handles(fd, line) =>
      match ParseCommand(line)
      case Sub(topic) => Some(Subscribe(fd, topic))
      case Unsub(topic) => Some(Unsubscribe(fd, topic))
      case Pub(_) => None
      case Ping => None
      case Ignored => None
  }

  function TableAfter(t: Table, h: Happening): Table {
    match EventOf(h) case Some(e) => Step(t, e) case None => t
  }

  /** On lines this is what handle_line does to the rows. */
  lemma TableAfterLine(t: Table, fd: int, line: string)
    ensures TableAfter(t, Handles(fd, line)) == t.(rows := RowsAfter(t.rows, fd, line))
  {
  }

  function SendsOf(t: Table, h: Happening): seq<Send> { if h.Handles? then SendsFor(t.rows, h.fd, h.line) else [] }

  function DaemonRun(t: Table, log: seq<Happening>): seq<Send>
    decreases |log|
  {
    if log == [] then [] else SendsOf(t, log[0]) + DaemonRun(TableAfter(t, log[0]), log[1..])
  }

  /** Connections within capacity, commands from connected clients, stored topics, a row for each new one. */
  predicate WithinCapacity(t: Table, log: seq<Happening>)
    decreases |log|
  {
    log == [] ||
    ((EventOf(log[0]).Some? ==> Allowed(t, EventOf(log[0]).value)) && WithinCapacity(TableAfter(t, log[0]), log[1..]))
  }

  /** The bytes the daemon writes to one descriptor. */
  function StreamTo(sends: seq<Send>, fd: int): string { Flatten(Received(sends, fd)) }

  // ---- What a receiver should get ----

  function RelAfter(rel: set<(string, int)>, h: Happening): set<(string, int)> {
    match EventOf(h) case Some(e) => RelStep(rel, e) case None => rel
  }

  /** The client's subscriptions that select a topic. */
  function Selecting(rel: set<(string, int)>, fd: int, topic: string): set<string> {
    set p | p in rel && p.1 == fd && TopicMatch(p.0, topic) :: p.0
  }

  function Repeated(n: nat, m: Message): seq<Message> { seq(n, i => m) }

  /** A message of another client, once for each subscription the receiver then has that selects it. */
  function DueFrom(rel: set<(string, int)>, receiver: int, h: Happening): seq<Message> {
    if h.Handles? && ParseCommand(h.line).Pub? && h.fd != receiver then
      var m := ParseCommand(h.line).m;
      Repeated(|Selecting(rel, receiver, m.topic)|, m)
    else []
  }

  function Due(rel: set<(string, int)>, receiver: int, log: seq<Happening>): seq<Message>
    decreases |log|
  {
    if log == [] then [] else DueFrom(rel, receiver, log[0]) + Due(RelAfter(rel, log[0]), receiver, log[1..])
  }

  lemma {:induction false} CopiesStream(n: nat, m: Message)
    requires |PrintPub(m)| < MAX_LINE
    ensures Flatten(Copies(n, PrintPub(m) + [NEWLINE])) == ClientStream(Repeated(n, m))
  {
    if n > 0 {
      CopiesStream(n - 1, m);
      assert Copies(n, PrintPub(m) + [NEWLINE])[1..] == Copies(n - 1, PrintPub(m) + [NEWLINE]);
      assert Printed(Repeated(n, m))[1..] == Printed(Repeated(n - 1, m));
    }
  }

  lemma PatternsAreSelecting(t: Table, rel: set<(string, int)>, receiver: int, topic: string)
    requires Represents(t, rel)
    ensures MatchingPatterns(t.rows, topic, receiver) == Selecting(rel, receiver, topic)
  {
    var patterns, selecting := MatchingPatterns(t.rows, topic, receiver), Selecting(rel, receiver, topic);
    forall p ensures p in patterns <==> p in selecting {
      PatternsAreSubscriptions(t.rows, topic, receiver, p);
      assert p in selecting <==> (p, receiver) in rel && TopicMatch(p, topic);
    }
  }

  lemma OneHappening(t: Table, rel: set<(string, int)>, receiver: int, h: Happening)
    requires Represents(t, rel) && (h.Handles? ==> GoodLine(h.line))
    ensures StreamTo(SendsOf(t, h), receiver) == ClientStream(DueFrom(rel, receiver, h))
  {
    if h.Handles? && ParseCommand(h.line).Pub? {
      var m := ParseCommand(h.line).m;
      var text := PrintPub(m) + [NEWLINE];
      PublishPerSubscription(t.rows, t.connected, m.topic, h.fd, text, receiver);
      PatternsAreSelecting(t, rel, receiver, m.topic);
      var n := if h.fd == receiver then 0 else |Selecting(rel, receiver, m.topic)|;
      CopiesStream(n, m);
      assert Repeated(0, m) == [];
    }
  }

  lemma {:induction false} FlattenConcat(a: seq<string>, b: seq<string>)
    ensures Flatten(a + b) == Flatten(a) + Flatten(b)
    decreases |a|
  {
    if a == [] {
      assert a + b == b;
    } else {
      assert (a + b)[1..] == a[1..] + b;
      FlattenConcat(a[1..], b);
    }
  }

  lemma ClientStreamConcat(a: seq<Message>, b: seq<Message>)
    ensures ClientStream(a + b) == ClientStream(a) + ClientStream(b)
  {
    StreamConcat(Printed(a), Printed(b));
    assert Printed(a + b) == Printed(a) + Printed(b);
  }

  lemma HappeningRefines(t: Table, rel: set<(string, int)>, h: Happening)
    requires Represents(t, rel) && (EventOf(h).Some? ==> Allowed(t, EventOf(h).value))
    ensures Represents(TableAfter(t, h), RelAfter(rel, h))
  {
    if EventOf(h).Some? { StepRefinesRelation(t, rel, EventOf(h).value); }
  }

  /** The bytes for one receiver are those of the messages due to it, over every run within capacity. */
  lemma {:induction false} DaemonForwardsDue(t: Table, rel: set<(string, int)>, receiver: int, log: seq<Happening>)
    requires Represents(t, rel) && AllGoodLines(log) && WithinCapacity(t, log)
    ensures StreamTo(DaemonRun(t, log), receiver) == ClientStream(Due(rel, receiver, log))
    decreases |log|
  {
    if log != [] {
      var h, rest := log[0], log[1..];
      OneHappening(t, rel, receiver, h);
      HappeningRefines(t, rel, h);
      DaemonForwardsDue(TableAfter(t, h), RelAfter(rel, h), receiver, rest);
      var later := DaemonRun(TableAfter(t, h), rest);
      ReceivedConcat(SendsOf(t, h), later, receiver);
      FlattenConcat(Received(SendsOf(t, h), receiver), Received(later, receiver));
      ClientStreamConcat(DueFrom(rel, receiver, h), Due(RelAfter(rel, h), receiver, rest));
    }
  }

  lemma {:induction false} DuePrintable(rel: set<(string, int)>, receiver: int, log: seq<Happening>)
    requires AllGoodLines(log)
    ensures AllPrintable(Due(rel, receiver, log))
    decreases |log|
  {
    if log != [] { DuePrintable(RelAfter(rel, log[0]), receiver, log[1..]); }
  }

  // ---- End to end ----

  /** What each client asks for; clients that ask for nothing are not listed. */
  function AskedBy(requests: map<int, seq<Request>>, fd: int): seq<Request> {
    if fd in requests then requests[fd] else []
  }

  function RequestStream(rs: seq<Request>): string { Stream(RequestTexts(rs)) }

  lemma LogOfRun(requests: map<int, seq<Request>>, upstream: seq<Arrival>, fd: int)
    requires GoodRequests(AskedBy(requests, fd)) && JoinsFirst(upstream, fd)
    requires Flatten(ChunksOf(upstream, fd)) == RequestStream(AskedBy(requests, fd))
    ensures LinesOf(Handled(map[], upstream), fd) == RequestTexts(AskedBy(requests, fd))
  {
    ClientsSeparate(map[], upstream, fd);
    ChunkInvariance([], ChunksOf(upstream, fd));
    assert [] + Flatten(ChunksOf(upstream, fd)) == RequestStream(AskedBy(requests, fd));
    DaemonAlwaysHasRoom(AskedBy(requests, fd));
    StreamLines(RequestTexts(AskedBy(requests, fd)));
  }

  lemma LogIsGood(requests: map<int, seq<Request>>, log: seq<Happening>)
    requires forall fd :: GoodRequests(AskedBy(requests, fd)) && LinesOf(log, fd) == RequestTexts(AskedBy(requests, fd))
    ensures AllGoodLines(log)
  {
    forall i | 0 <= i < |log| && log[i].Handles? ensures GoodLine(log[i].line) {
      InOwnLines(log, i);
      var rs := AskedBy(requests, log[i].fd);
      var k :| 0 <= k < |RequestTexts(rs)| && RequestTexts(rs)[k] == log[i].line;
      RequestRoundTrip(rs[k]);
    }
  }

  lemma StreamOfRun(t: Table, rel: set<(string, int)>, receiver: int, log: seq<Happening>)
    requires Represents(t, rel) && AllGoodLines(log) && WithinCapacity(t, log)
    ensures var due, stream := Due(rel, receiver, log), StreamTo(DaemonRun(t, log), receiver);
            && (GetsThrough(stream, MAX_LINE) <==> AllReceivable(due))
            && (AllReceivable(due) ==> RoomThroughout(stream, MAX_LINE))
            && forall downstream :: Flatten(downstream) == stream ==>
                 HandlerCalls(HandledOver([], downstream)) == due && KeptAfter([], downstream) == []
  {
    var due, stream := Due(rel, receiver, log), StreamTo(DaemonRun(t, log), receiver);
    DaemonForwardsDue(t, rel, receiver, log);
    DuePrintable(rel, receiver, log);
    PrintableOnOneLine(due);
    ReceivedExactly(due);
    forall downstream | Flatten(downstream) == stream
      ensures HandlerCalls(HandledOver([], downstream)) == due && KeptAfter([], downstream) == []
    {
      ReceiverHandles(due, downstream);
    }
  }

  /**
    End to end. Any number of clients connect, leave, subscribe, unsubscribe and publish printable messages, and the
    sockets cut and interleave their bytes in any way; the daemon's buffers never run out of room for them. Then the
    daemon handles all requests in one order that keeps each client's own, and the bytes for a receiver are those of
    every message of another client, once for each subscription the receiver has at that moment that selects it, in
    that order. They get through its buffer exactly if each print leaves room for its newline, and then no recv is left
    without room and, whatever the chunks, its handler is called with exactly these messages, unchanged.
  */
  lemma Delivery(t: Table, rel: set<(string, int)>, receiver: int,
                 requests: map<int, seq<Request>>, upstream: seq<Arrival>)
    requires Represents(t, rel)
    requires forall fd :: GoodRequests(AskedBy(requests, fd)) && JoinsFirst(upstream, fd)
    requires forall fd :: Flatten(ChunksOf(upstream, fd)) == RequestStream(AskedBy(requests, fd))
    requires WithinCapacity(t, Handled(map[], upstream))
    ensures forall fd :: RoomThroughout(RequestStream(AskedBy(requests, fd)), BUF_SIZE)
    ensures var log := Handled(map[], upstream);
            var due, stream := Due(rel, receiver, log), StreamTo(DaemonRun(t, log), receiver);
            && (forall fd :: RequestsOf(log, fd) == AskedBy(requests, fd))
            && (GetsThrough(stream, MAX_LINE) <==> AllReceivable(due))
            && (AllReceivable(due) ==> RoomThroughout(stream, MAX_LINE))
            && forall downstream :: Flatten(downstream) == stream ==>
                 HandlerCalls(HandledOver([], downstream)) == due && KeptAfter([], downstream) == []
  {
    var log := Handled(map[], upstream);
    forall fd ensures LinesOf(log, fd) == RequestTexts(AskedBy(requests, fd)) { LogOfRun(requests, upstream, fd); }
    LogIsGood(requests, log);
    forall fd
      ensures RequestsOf(log, fd) == AskedBy(requests, fd)
      ensures RoomThroughout(RequestStream(AskedBy(requests, fd)), BUF_SIZE)
    {
      OrderKeptPerSender(log, fd, AskedBy(requests, fd));
      DaemonAlwaysHasRoom(AskedBy(requests, fd));
    }
    StreamOfRun(t, rel, receiver, log);
  }
}
