/**
  The subscription table of services/bb-busd.c: rows of client descriptors per topic, edited by
  appending, by swap-removal and by the removal scan of a disconnect. Pure functions say what each
  operation does to the rows; the lemmas say what that means for the relation the rows represent.
*/
module SubscriptionTable {
  import opened Common
  import opened LineFraming
  import opened BusMessages

  const MAX_CLIENTS: nat := 64
  const MAX_SUBS: nat := 256
  const TOPIC_STORE: nat := 127   // sizeof(topic) - 1

  datatype Row = Row(topic: string, fds: seq<int>)

  /** strncpy into the zero-initialised 128-byte field. */
  function Stored(topic: string): (t: string)
    ensures |t| <= TOPIC_STORE
  {
    if |topic| <= TOPIC_STORE then topic else topic[..TOPIC_STORE]
  }

  // ---- The operations on rows ----

  /** find_sub: the first row with that topic, or the number of rows. */
  function FindRow(rows: seq<Row>, topic: string): (i: nat)
    ensures i <= |rows| && forall k :: 0 <= k < i ==> rows[k].topic != topic
    ensures i < |rows| ==> rows[i].topic == topic
  {
    if rows == [] || rows[0].topic == topic then 0 else 1 + FindRow(rows[1..], topic)
  }

  function AddFd(fds: seq<int>, fd: int): seq<int> {
    if |fds| < MAX_CLIENTS && fd !in fds then fds + [fd] else fds
  }

  function SubRows(rows: seq<Row>, fd: int, topic: string): seq<Row> {
    var i := FindRow(rows, topic);
    if i < |rows| then rows[i := Row(rows[i].topic, AddFd(rows[i].fds, fd))]
    else if |rows| < MAX_SUBS then rows + [Row(Stored(topic), AddFd([], fd))]
    else rows
  }

  /** The last entry moves into place j. */
  function SwapRemove(fds: seq<int>, j: nat): (r: seq<int>)
    requires j < |fds|
    ensures |r| == |fds| - 1
  {
    fds[j := fds[|fds| - 1]][..|fds| - 1]
  }

  function FindFd(fds: seq<int>, fd: int): (j: nat)
    ensures j <= |fds| && forall k :: 0 <= k < j ==> fds[k] != fd
    ensures j < |fds| ==> fds[j] == fd
  {
    if fds == [] || fds[0] == fd then 0 else 1 + FindFd(fds[1..], fd)
  }

  /** UNSUB takes out the first occurrence only. */
  function DropFirst(fds: seq<int>, fd: int): seq<int> {
    var j := FindFd(fds, fd);
    if j < |fds| then SwapRemove(fds, j) else fds
  }

  function UnsubRows(rows: seq<Row>, fd: int, topic: string): seq<Row> {
    var i := FindRow(rows, topic);
    if i < |rows| then rows[i := Row(rows[i].topic, DropFirst(rows[i].fds, fd))] else rows
  }

  /** The disconnect scan, which stays in place after each swap-removal. */
  function DropAllFrom(fds: seq<int>, j: nat, fd: int): seq<int>
    requires j <= |fds|
    decreases |fds| - j, |fds|
  {
    if j == |fds| then fds
    else if fds[j] == fd then DropAllFrom(SwapRemove(fds, j), j, fd)
    else DropAllFrom(fds, j + 1, fd)
  }

  function RemoveRows(rows: seq<Row>, fd: int): seq<Row> {
    seq(|rows|, i requires 0 <= i < |rows| => Row(rows[i].topic, DropAllFrom(rows[i].fds, 0, fd)))
  }

  // ---- The relation the rows stand for ----

  ghost predicate Subscribed(rows: seq<Row>, topic: string, fd: int) {
    exists i :: 0 <= i < |rows| && rows[i].topic == topic && fd in rows[i].fds
  }

  predicate NoRepeats(fds: seq<int>) { forall i, j :: 0 <= i < j < |fds| ==> fds[i] != fds[j] }

  predicate DistinctTopics(rows: seq<Row>) {
    forall i, j :: 0 <= i < j < |rows| ==> rows[i].topic != rows[j].topic
  }

  /** Distinct topics, distinct descriptors in each row, all of them connected, within capacity. */
  predicate Consistent(rows: seq<Row>, connected: seq<int>) {
    && |rows| <= MAX_SUBS && |connected| <= MAX_CLIENTS && NoRepeats(connected) && DistinctTopics(rows)
    && forall i :: 0 <= i < |rows| ==>
         NoRepeats(rows[i].fds) && forall fd :: fd in rows[i].fds ==> fd in connected
  }

  // ---- A row never runs full for a connected client ----

  lemma {:induction false} SetOf(s: seq<int>)
    requires NoRepeats(s)
    ensures |set x | x in s| == |s|
    decreases |s|
  {
    if s != [] {
      var rest := s[1..];
      SetOf(rest);
      assert s[0] !in rest;
      assert (set x | x in s) == (set x | x in rest) + {s[0]};
    } else {
      assert (set x | x in s) == {};
    }
  }

  lemma SubsetSize(a: set<int>, b: set<int>)
    requires a <= b
    ensures |a| <= |b| && (|a| == |b| ==> a == b)
  {
    assert |b| == |a| + |b - a|;
  }

  /** Distinct members of a duplicate-free sequence are no more than it has. */
  lemma {:induction false} Pigeonhole(fds: seq<int>, connected: seq<int>)
    requires NoRepeats(fds) && NoRepeats(connected)
    requires forall fd :: fd in fds ==> fd in connected
    ensures |fds| <= |connected|
    ensures |fds| == |connected| ==> forall fd :: fd in connected ==> fd in fds
  {
    SetOf(fds);
    SetOf(connected);
    var a, b := set x | x in fds, set x | x in connected;
    assert a <= b;
    SubsetSize(a, b);
    forall fd | fd in connected && |fds| == |connected| ensures fd in fds { assert fd in b && fd in a; }
  }

  /** So the 64-entry limit of a row loses no subscription: a full row already has every client. */
  lemma AddFdAlwaysLands(fds: seq<int>, connected: seq<int>, fd: int)
    requires NoRepeats(fds) && NoRepeats(connected) && |connected| <= MAX_CLIENTS
    requires (forall x :: x in fds ==> x in connected) && fd in connected
    ensures NoRepeats(AddFd(fds, fd))
    ensures forall x :: x in AddFd(fds, fd) <==> x in fds || x == fd
  {
    Pigeonhole(fds, connected);
  }

  // ---- What each operation does to the relation ----

  /** A new topic arrives and there is no row left for it. */
  predicate Full(rows: seq<Row>, topic: string) { FindRow(rows, topic) == |rows| == MAX_SUBS }

  /** Replacing the descriptors of one row changes the relation for its topic only. */
  lemma ReplacedRow(rows: seq<Row>, i: nat, row: Row)
    requires i < |rows| && DistinctTopics(rows) && row.topic == rows[i].topic
    ensures DistinctTopics(rows[i := row])
    ensures forall t, f :: t != row.topic ==> (Subscribed(rows[i := row], t, f) <==> Subscribed(rows, t, f))
    ensures forall f :: Subscribed(rows[i := row], row.topic, f) <==> f in row.fds
    ensures forall f :: Subscribed(rows, row.topic, f) <==> f in rows[i].fds
  {
    var rows' := rows[i := row];
    forall t, f | t != row.topic ensures Subscribed(rows', t, f) <==> Subscribed(rows, t, f) {
      if Subscribed(rows, t, f) {
        var k :| 0 <= k < |rows| && rows[k].topic == t && f in rows[k].fds;
        assert rows'[k] == rows[k];
      }
      if Subscribed(rows', t, f) {
        var k :| 0 <= k < |rows'| && rows'[k].topic == t && f in rows'[k].fds;
        assert rows'[k] == rows[k];
      }
    }
    forall f ensures Subscribed(rows', row.topic, f) <==> f in row.fds { assert rows'[i] == row; }
  }

  lemma SubscribeAddsPair(rows: seq<Row>, connected: seq<int>, fd: int, topic: string)
    requires Consistent(rows, connected) && fd in connected && |topic| <= TOPIC_STORE
    ensures Consistent(SubRows(rows, fd, topic), connected)
    ensures Full(rows, topic) ==> SubRows(rows, fd, topic) == rows
    ensures !Full(rows, topic) ==> forall t, f ::
              Subscribed(SubRows(rows, fd, topic), t, f) <==> Subscribed(rows, t, f) || (t == topic && f == fd)
  {
    var i, rows' := FindRow(rows, topic), SubRows(rows, fd, topic);
    if i < |rows| {
      AddFdAlwaysLands(rows[i].fds, connected, fd);
      ReplacedRow(rows, i, rows'[i]);
    } else if |rows| < MAX_SUBS {
      AddFdAlwaysLands([], connected, fd);
      assert AddFd([], fd) == [fd];
      assert rows' == rows + [Row(topic, [fd])];
      forall t, f ensures Subscribed(rows', t, f) <==> Subscribed(rows, t, f) || (t == topic && f == fd) {
        if Subscribed(rows, t, f) {
          var k :| 0 <= k < |rows| && rows[k].topic == t && f in rows[k].fds;
          assert rows'[k] == rows[k];
        }
        assert rows'[|rows|].topic == topic && rows'[|rows|].fds == [fd];
      }
    }
  }

  lemma SwapRemoveMembers(fds: seq<int>, j: nat)
    requires j < |fds| && NoRepeats(fds)
    ensures NoRepeats(SwapRemove(fds, j))
    ensures forall x :: x in SwapRemove(fds, j) <==> x in fds && x != fds[j]
  {
    var r := SwapRemove(fds, j);
    forall x | x in fds && x != fds[j] ensures x in r {
      var k :| 0 <= k < |fds| && fds[k] == x;
      assert if k == |fds| - 1 then r[j] == x else r[k] == x;
    }
  }

  lemma DropFirstMembers(fds: seq<int>, fd: int)
    requires NoRepeats(fds)
    ensures NoRepeats(DropFirst(fds, fd))
    ensures forall x :: x in DropFirst(fds, fd) <==> x in fds && x != fd
  {
    if FindFd(fds, fd) < |fds| { SwapRemoveMembers(fds, FindFd(fds, fd)); }
  }

  lemma UnsubscribeRemovesPair(rows: seq<Row>, connected: seq<int>, fd: int, topic: string)
    requires Consistent(rows, connected)
    ensures Consistent(UnsubRows(rows, fd, topic), connected)
    ensures forall t, f ::
              Subscribed(UnsubRows(rows, fd, topic), t, f) <==> Subscribed(rows, t, f) && !(t == topic && f == fd)
  {
    var i := FindRow(rows, topic);
    if i < |rows| {
      DropFirstMembers(rows[i].fds, fd);
      ReplacedRow(rows, i, Row(topic, DropFirst(rows[i].fds, fd)));
    }
  }

  lemma {:induction false} DropAllMembers(fds: seq<int>, j: nat, fd: int)
    requires NoRepeats(fds) && j <= |fds| && fd !in fds[..j]
    ensures NoRepeats(DropAllFrom(fds, j, fd))
    ensures forall x :: x in DropAllFrom(fds, j, fd) <==> x in fds && x != fd
    decreases |fds| - j, |fds|
  {
    if j < |fds| {
      if fds[j] == fd {
        SwapRemoveMembers(fds, j);
        assert SwapRemove(fds, j)[..j] == fds[..j];
        DropAllMembers(SwapRemove(fds, j), j, fd);
      } else {
        assert fds[..j + 1] == fds[..j] + [fds[j]];
        DropAllMembers(fds, j + 1, fd);
      }
    }
  }

  /** A disconnect leaves nothing of the client behind, and everything of the others. */
  lemma DisconnectRemovesClient(rows: seq<Row>, connected: seq<int>, connected': seq<int>, fd: int)
    requires Consistent(rows, connected) && NoRepeats(connected') && |connected'| <= |connected|
    requires forall x :: x in connected' <==> x in connected && x != fd
    ensures Consistent(RemoveRows(rows, fd), connected')
    ensures forall t, f :: Subscribed(RemoveRows(rows, fd), t, f) <==> Subscribed(rows, t, f) && f != fd
  {
    var rows' := RemoveRows(rows, fd);
    forall i | 0 <= i < |rows|
      ensures NoRepeats(rows'[i].fds) && forall x :: x in rows'[i].fds <==> x in rows[i].fds && x != fd
    {
      DropAllMembers(rows[i].fds, 0, fd);
    }
    forall t, f ensures Subscribed(rows', t, f) <==> Subscribed(rows, t, f) && f != fd {
      if Subscribed(rows, t, f) && f != fd {
        var k :| 0 <= k < |rows| && rows[k].topic == t && f in rows[k].fds;
        assert rows'[k].topic == t && f in rows'[k].fds;
      }
      if Subscribed(rows', t, f) {
        var k :| 0 <= k < |rows'| && rows'[k].topic == t && f in rows'[k].fds;
        assert rows[k].topic == t && f in rows[k].fds;
      }
    }
  }

  /**
    Topics longer than the stored 127 characters break the table, and nothing else does: find_sub never
    finds them again, so a repeated SUB adds a second row for the same stored text.
  */
  lemma DistinctTopicsExactly(rows: seq<Row>, fd: int, topic: string)
    requires DistinctTopics(rows) && forall i :: 0 <= i < |rows| ==> |rows[i].topic| <= TOPIC_STORE
    ensures DistinctTopics(SubRows(rows, fd, topic)) <==>
            |topic| <= TOPIC_STORE || |rows| >= MAX_SUBS || FindRow(rows, Stored(topic)) == |rows|
  {
    var rows', i := SubRows(rows, fd, topic), FindRow(rows, topic);
    if i == |rows| && |rows| < MAX_SUBS {
      assert rows'[|rows|].topic == Stored(topic);
      var k := FindRow(rows, Stored(topic));
      if k < |rows| {
        assert rows'[k].topic == rows'[|rows|].topic;
      } else {
        forall a, b | 0 <= a < b < |rows'| ensures rows'[a].topic != rows'[b].topic { }
      }
    }
  }

  /** Subscribing twice to such a topic doubles every delivery, and UNSUB cannot undo either. */
  lemma LongTopicDuplicates(fd: int, topic: string)
    requires |topic| > TOPIC_STORE
    ensures var rows := SubRows(SubRows([], fd, topic), fd, topic);
            && rows == [Row(Stored(topic), [fd]), Row(Stored(topic), [fd])]
            && UnsubRows(rows, fd, topic) == rows
  {
    assert AddFd([], fd) == [fd];
    var once := SubRows([], fd, topic);
    assert once == [Row(Stored(topic), [fd])];
    assert FindRow(once, topic) == 1;
  }

  // ---- Publishing ----

  predicate TopicMatch(pattern: string, topic: string) {
    pattern == topic ||
    (|pattern| > 0 && pattern[|pattern| - 1] == '#' && StartsWith(topic, pattern[..|pattern| - 1]))
  }

  datatype Send = Send(fd: int, text: string)

  function ToRow(fds: seq<int>, sender: int, text: string): seq<Send> {
    if fds == [] then []
    else (if fds[0] != sender then [Send(fds[0], text)] else []) + ToRow(fds[1..], sender, text)
  }

  /** Every send of one publish, in the order of the two loops. */
  function Deliveries(rows: seq<Row>, topic: string, sender: int, text: string): seq<Send>
    decreases |rows|
  {
    if rows == [] then []
    else (if TopicMatch(rows[0].topic, topic) then ToRow(rows[0].fds, sender, text) else []) +
         Deliveries(rows[1..], topic, sender, text)
  }

  lemma {:induction false} ToRowAppend(fds: seq<int>, fd: int, sender: int, text: string)
    ensures ToRow(fds + [fd], sender, text) ==
            ToRow(fds, sender, text) + if fd != sender then [Send(fd, text)] else []
    decreases |fds|
  {
    if fds != [] {
      assert (fds + [fd])[1..] == fds[1..] + [fd];
      ToRowAppend(fds[1..], fd, sender, text);
    }
  }

  lemma {:induction false} DeliveriesAppend(rows: seq<Row>, row: Row, topic: string, sender: int, text: string)
    ensures Deliveries(rows + [row], topic, sender, text) ==
            Deliveries(rows, topic, sender, text)
            + if TopicMatch(row.topic, topic) then ToRow(row.fds, sender, text) else []
    decreases |rows|
  {
    if rows == [] {
      assert (rows + [row])[1..] == [];
    } else {
      assert (rows + [row])[1..] == rows[1..] + [row];
      DeliveriesAppend(rows[1..], row, topic, sender, text);
      Associative(if TopicMatch(rows[0].topic, topic) then ToRow(rows[0].fds, sender, text) else [],
                  Deliveries(rows[1..], topic, sender, text),
                  if TopicMatch(row.topic, topic) then ToRow(row.fds, sender, text) else []);
    }
  }

  /** What one descriptor receives, in order. */
  function Received(sends: seq<Send>, fd: int): seq<string> {
    if sends == [] then [] else (if sends[0].fd == fd then [sends[0].text] else []) + Received(sends[1..], fd)
  }

  function Copies(n: nat, text: string): seq<string> { seq(n, i => text) }

  /** How many rows hold a pattern of `fd` that matches. */
  function MatchingRows(rows: seq<Row>, topic: string, fd: int): nat
    decreases |rows|
  {
    if rows == [] then 0
    else (if TopicMatch(rows[0].topic, topic) && fd in rows[0].fds then 1 else 0) + MatchingRows(rows[1..], topic, fd)
  }

  lemma {:induction false} ReceivedConcat(a: seq<Send>, b: seq<Send>, fd: int)
    ensures Received(a + b, fd) == Received(a, fd) + Received(b, fd)
    decreases |a|
  {
    if a == [] {
      assert a + b == b;
    } else {
      assert (a + b)[1..] == a[1..] + b;
      ReceivedConcat(a[1..], b, fd);
    }
  }

  lemma {:induction false} RowReceived(fds: seq<int>, sender: int, text: string, fd: int)
    requires NoRepeats(fds)
    ensures Received(ToRow(fds, sender, text), fd) == Copies(if fd != sender && fd in fds then 1 else 0, text)
    decreases |fds|
  {
    if fds != [] {
      var first := if fds[0] != sender then [Send(fds[0], text)] else [];
      RowReceived(fds[1..], sender, text, fd);
      ReceivedConcat(first, ToRow(fds[1..], sender, text), fd);
      assert fds[0] !in fds[1..];
    }
  }

  /** A publish sends the sender nothing, and each other descriptor one copy per matching row it is in. */
  lemma {:induction false} PublishCopies(rows: seq<Row>, topic: string, sender: int, text: string, fd: int)
    requires forall i :: 0 <= i < |rows| ==> NoRepeats(rows[i].fds)
    ensures Received(Deliveries(rows, topic, sender, text), fd) ==
            Copies(if fd == sender then 0 else MatchingRows(rows, topic, fd), text)
    decreases |rows|
  {
    if rows != [] {
      var first := if TopicMatch(rows[0].topic, topic) then ToRow(rows[0].fds, sender, text) else [];
      RowReceived(rows[0].fds, sender, text, fd);
      PublishCopies(rows[1..], topic, sender, text, fd);
      ReceivedConcat(first, Deliveries(rows[1..], topic, sender, text), fd);
    }
  }

  /** Patterns the descriptor is subscribed to that match a topic. */
  function MatchingPatterns(rows: seq<Row>, topic: string, fd: int): set<string>
    decreases |rows|
  {
    if rows == [] then {}
    else (if TopicMatch(rows[0].topic, topic) && fd in rows[0].fds then {rows[0].topic} else {}) +
         MatchingPatterns(rows[1..], topic, fd)
  }

  lemma {:induction false} PatternsAreSubscriptions(rows: seq<Row>, topic: string, fd: int, p: string)
    ensures p in MatchingPatterns(rows, topic, fd) <==> Subscribed(rows, p, fd) && TopicMatch(p, topic)
    decreases |rows|
  {
    if rows != [] {
      var rest := rows[1..];
      PatternsAreSubscriptions(rest, topic, fd, p);
      if Subscribed(rest, p, fd) {
        var i :| 0 <= i < |rest| && rest[i].topic == p && fd in rest[i].fds;
        assert rows[i + 1] == rest[i];
      }
      if Subscribed(rows, p, fd) {
        var i :| 0 <= i < |rows| && rows[i].topic == p && fd in rows[i].fds;
        assert i > 0 ==> rest[i - 1] == rows[i];
      }
    }
  }

  /** With distinct topics, counting rows is counting the descriptor's own matching subscriptions. */
  lemma {:induction false} OneRowPerPattern(rows: seq<Row>, topic: string, fd: int)
    requires DistinctTopics(rows)
    ensures MatchingRows(rows, topic, fd) == |MatchingPatterns(rows, topic, fd)|
    decreases |rows|
  {
    if rows != [] {
      var first := rows[0].topic;
      OneRowPerPattern(rows[1..], topic, fd);
      PatternsAreSubscriptions(rows[1..], topic, fd, first);
      assert !Subscribed(rows[1..], first, fd);
    }
  }

  /**
    In a consistent table a publish gives each connected client other than the sender exactly one copy
    for each of its own subscriptions that matches, and the sender nothing.
  */
  lemma PublishPerSubscription(rows: seq<Row>, connected: seq<int>, topic: string, sender: int, text: string, fd: int)
    requires Consistent(rows, connected)
    ensures Received(Deliveries(rows, topic, sender, text), fd) ==
            Copies(if fd == sender then 0 else |MatchingPatterns(rows, topic, fd)|, text)
    ensures forall p :: p in MatchingPatterns(rows, topic, fd) <==> Subscribed(rows, p, fd) && TopicMatch(p, topic)
  {
    PublishCopies(rows, topic, sender, text, fd);
    OneRowPerPattern(rows, topic, fd);
    forall p ensures p in MatchingPatterns(rows, topic, fd) <==> Subscribed(rows, p, fd) && TopicMatch(p, topic) {
      PatternsAreSubscriptions(rows, topic, fd, p);
    }
  }

  // ---- Runs ----

  datatype Event =
    | Connect(fd: int)
    | Subscribe(fd: int, topic: string)
    | Unsubscribe(fd: int, topic: string)
    | Disconnect(fd: int)

  datatype Table = Table(rows: seq<Row>, connected: seq<int>)

  /** memmove over the departed entry: the order of the others is kept. */
  function Without(s: seq<int>, fd: int): (r: seq<int>)
    ensures forall x :: x in r <==> x in s && x != fd
    ensures |r| <= |s|
  {
    if s == [] then []
    else if s[0] == fd then Without(s[1..], fd)
    else [s[0]] + Without(s[1..], fd)
  }

  lemma {:induction false} WithoutNoRepeats(s: seq<int>, fd: int)
    requires NoRepeats(s)
    ensures NoRepeats(Without(s, fd))
    decreases |s|
  {
    if s != [] {
      WithoutNoRepeats(s[1..], fd);
      assert s[0] !in s[1..];
    }
  }

  lemma {:induction false} WithoutOther(s: seq<int>, fd: int)
    requires fd !in s
    ensures Without(s, fd) == s
    decreases |s|
  {
    if s != [] { WithoutOther(s[1..], fd); }
  }

  /** Taking out the one entry at its place. */
  lemma {:induction false} WithoutAt(s: seq<int>, place: nat)
    requires NoRepeats(s) && place < |s|
    ensures Without(s, s[place]) == s[..place] + s[place + 1..]
    decreases |s|
  {
    var rest := s[1..];
    if place == 0 {
      assert s[0] !in rest;
      WithoutOther(rest, s[0]);
    } else {
      WithoutAt(rest, place - 1);
      assert s[..place] == [s[0]] + rest[..place - 1] && rest[place..] == s[place + 1..];
    }
  }

  function Step(t: Table, e: Event): Table {
    match e
    case Connect(fd) => t.(connected := t.connected + [fd])
    case Subscribe(fd, topic) => t.(rows := SubRows(t.rows, fd, topic))
    case Unsubscribe(fd, topic) => t.(rows := UnsubRows(t.rows, fd, topic))
    case Disconnect(fd) => Table(RemoveRows(t.rows, fd), Without(t.connected, fd))
  }

  /** Accepted connections within capacity, commands from connected clients, room for each new topic. */
  predicate Allowed(t: Table, e: Event) {
    match e
    case Connect(fd) => fd !in t.connected && |t.connected| < MAX_CLIENTS
    case Subscribe(fd, topic) => fd in t.connected && |topic| <= TOPIC_STORE && !Full(t.rows, topic)
    case Unsubscribe(fd, topic) => fd in t.connected
    case Disconnect(fd) => fd in t.connected
  }

  /** The reference: a plain set of (topic, client) pairs. */
  function RelStep(rel: set<(string, int)>, e: Event): set<(string, int)> {
    match e
    case Connect(_) => rel
    case Subscribe(fd, topic) => rel + {(topic, fd)}
    case Unsubscribe(fd, topic) => rel - {(topic, fd)}
    case Disconnect(fd) => set p | p in rel && p.1 != fd
  }

  ghost predicate Represents(t: Table, rel: set<(string, int)>) {
    Consistent(t.rows, t.connected) && forall topic, fd :: Subscribed(t.rows, topic, fd) <==> (topic, fd) in rel
  }

  lemma StepRefinesRelation(t: Table, rel: set<(string, int)>, e: Event)
    requires Represents(t, rel) && Allowed(t, e)
    ensures Represents(Step(t, e), RelStep(rel, e))
  {
    match e
    case Connect(fd) =>
    case Subscribe(fd, topic) => SubscribeAddsPair(t.rows, t.connected, fd, topic);
    case Unsubscribe(fd, topic) => UnsubscribeRemovesPair(t.rows, t.connected, fd, topic);
    case Disconnect(fd) =>
      WithoutNoRepeats(t.connected, fd);
      DisconnectRemovesClient(t.rows, t.connected, Without(t.connected, fd), fd);
  }

  predicate RunAllowed(t: Table, events: seq<Event>)
    decreases |events|
  {
    events == [] || (Allowed(t, events[0]) && RunAllowed(Step(t, events[0]), events[1..]))
  }

  function Run(t: Table, events: seq<Event>): Table
    decreases |events|
  {
    if events == [] then t else Run(Step(t, events[0]), events[1..])
  }

  function RelRun(rel: set<(string, int)>, events: seq<Event>): set<(string, int)>
    decreases |events|
  {
    if events == [] then rel else RelRun(RelStep(rel, events[0]), events[1..])
  }

  /** Over every run the arrays stand for the plain relation. */
  lemma {:induction false} RunRefinesRelation(t: Table, rel: set<(string, int)>, events: seq<Event>)
    requires Represents(t, rel) && RunAllowed(t, events)
    ensures Represents(Run(t, events), RelRun(rel, events))
    decreases |events|
  {
    if events != [] {
      StepRefinesRelation(t, rel, events[0]);
      RunRefinesRelation(Step(t, events[0]), RelStep(rel, events[0]), events[1..]);
    }
  }
}
