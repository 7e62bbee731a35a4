/** The daemon's static arrays and the code that edits them in place (services/bb-busd.c). */
module BusDaemon {
  import opened Common
  import opened LineFraming
  import opened BusMessages
  import opened SubscriptionTable

  const BUF_SIZE: nat := 8192

  /** publish(): the message as reprinted, unless it would not fit the message buffer. */
  function PublishSends(rows: seq<Row>, m: Message, sender: int): seq<Send> {
    var text := PrintPub(m) + [NEWLINE];
    if |text| >= BUF_SIZE then [] else Deliveries(rows, m.topic, sender, text)
  }

  /** What handling a line sends, and makes of the table. */
  function SendsFor(rows: seq<Row>, fd: int, line: string): seq<Send> {
    match ParseCommand(line)
    case Pub(m) => PublishSends(rows, m, fd)
    case Ping => [Send(fd, "PONG\n")]
    case _ => []
  }

  function RowsAfter(rows: seq<Row>, fd: int, line: string): seq<Row> {
    match ParseCommand(line)
    case Sub(topic) => SubRows(rows, fd, topic)
    case Unsub(topic) => UnsubRows(rows, fd, topic)
    case _ => rows
  }

  class Daemon {
    const topics: array<string>    // subs[i].topic
    const ids: array2<int>         // subs[i].client_ids[j]
    const counts: array<nat>       // subs[i].count
    var numSubs: nat
    const clients: array<int>      // clients[i].fd
    var numClients: nat

    ghost predicate Valid()
      reads this, topics, ids, counts, clients
    {
      && topics.Length == ids.Length0 == counts.Length == MAX_SUBS && ids.Length1 == MAX_CLIENTS
      && numSubs <= MAX_SUBS && clients.Length == MAX_CLIENTS && numClients <= MAX_CLIENTS
      && (forall i :: 0 <= i < numSubs ==> counts[i] <= MAX_CLIENTS)
      && counts != (clients as object)
    }

    function Fds(i: nat): (fds: seq<int>)
      requires i < ids.Length0 && i < counts.Length && counts[i] <= ids.Length1
      reads ids, counts
    {
      seq(counts[i], j requires 0 <= j < counts[i] reads ids, counts
                       requires i < ids.Length0 && i < counts.Length && counts[i] <= ids.Length1 => ids[i, j])
    }

    ghost function Rows(): (rows: seq<Row>)
      requires Valid()
      reads this, topics, ids, counts, clients
      ensures |rows| == numSubs
      ensures forall i :: 0 <= i < numSubs ==> rows[i] == Row(topics[i], Fds(i))
    {
      seq(numSubs, i requires 0 <= i < numSubs && Valid() reads this, topics, ids, counts, clients =>
                     Row(topics[i], Fds(i)))
    }

    ghost function Connected(): seq<int>
      requires Valid()
      reads this, topics, ids, counts, clients
    {
      clients[..numClients]
    }

    constructor ()
      ensures Valid() && Rows() == [] && Connected() == []
      ensures fresh(topics) && fresh(ids) && fresh(counts) && fresh(clients)
    {
      topics := new string[MAX_SUBS](_ => []);
      ids := new int[MAX_SUBS, MAX_CLIENTS]((_, _) => 0);
      counts := new nat[MAX_SUBS](_ => 0);
      clients := new int[MAX_CLIENTS](_ => 0);
      numSubs, numClients := 0, 0;
    }

    method FindSub(topic: string) returns (idx: int)
      requires Valid()
      ensures idx == if FindRow(Rows(), topic) < |Rows()| then FindRow(Rows(), topic) else -1
    {
      ghost var rows := Rows();
      for i := 0 to numSubs
        invariant forall k :: 0 <= k < i ==> topics[k] != topic
        invariant FindRow(rows, topic) >= i
      {
        if topics[i] == topic { return i; }
      }
      return -1;
    }

    /** The scan for a descriptor in row i. */
    method FindClient(i: nat, fd: int) returns (j: nat)
      requires Valid() && i < numSubs
      ensures j == FindFd(Fds(i), fd)
    {
      ghost var fds := Fds(i);
      j := 0;
      while j < counts[i] && ids[i, j] != fd
        invariant j <= counts[i] && forall k :: 0 <= k < j ==> fds[k] != fd
      {
        j := j + 1;
      }
      assert j < counts[i] ==> fds[j] == fd;
    }

    /** A fresh row at the end, with no client yet. */
    method AddRow(topic: string)
      requires Valid() && numSubs < MAX_SUBS
      modifies this`numSubs, topics, counts
      ensures Valid() && Rows() == old(Rows()) + [Row(Stored(topic), [])]
      ensures numSubs == old(numSubs) + 1 && Connected() == old(Connected())
    {
      ghost var rows := Rows();
      topics[numSubs] := Stored(topic);
      counts[numSubs] := 0;
      numSubs := numSubs + 1;
      assert Fds(numSubs - 1) == [];
      forall k | 0 <= k < numSubs - 1 ensures Rows()[k] == rows[k] { assert Fds(k) == rows[k].fds; }
      assert Rows()[numSubs - 1] == Row(Stored(topic), []);
    }

    /** client_ids[count++] = fd. */
    method AddClient(i: nat, fd: int)
      requires Valid() && i < numSubs && counts[i] < MAX_CLIENTS
      modifies ids, counts
      ensures Valid() && Rows() == old(Rows())[i := Row(topics[i], old(Fds(i)) + [fd])]
      ensures Connected() == old(Connected())
    {
      ghost var rows := Rows();
      ids[i, counts[i]] := fd;
      counts[i] := counts[i] + 1;
      assert Fds(i) == rows[i].fds + [fd];
      forall k | 0 <= k < numSubs && k != i ensures Rows()[k] == rows[k] { assert Fds(k) == rows[k].fds; }
    }

    /** The second half of SUB: the row's capacity test, the duplicate scan, the append. */
    method AddUnlessPresent(i: nat, fd: int)
      requires Valid() && i < numSubs
      modifies ids, counts
      ensures Valid() && Rows() == old(Rows())[i := Row(topics[i], AddFd(old(Fds(i)), fd))]
      ensures Connected() == old(Connected())
    {
      if counts[i] < MAX_CLIENTS {
        var j := FindClient(i, fd);
        assert fd in Fds(i) <==> j < counts[i];
        if j == counts[i] { AddClient(i, fd); }
      }
    }

    method Subscribe(fd: int, topic: string)
      requires Valid()
      modifies this`numSubs, topics, ids, counts
      ensures Valid() && Rows() == SubRows(old(Rows()), fd, topic)
      ensures Connected() == old(Connected())
    {
      var idx := FindSub(topic);
      if idx < 0 && numSubs < MAX_SUBS {
        idx := numSubs;
        AddRow(topic);
      }
      if idx >= 0 { AddUnlessPresent(idx, fd); }
    }

    /** client_ids[j] = client_ids[--count]. */
    method SwapOut(i: nat, j: nat)
      requires Valid() && i < numSubs && j < counts[i]
      modifies ids, counts
      ensures Valid() && Rows() == old(Rows())[i := Row(topics[i], SwapRemove(old(Fds(i)), j))]
      ensures Connected() == old(Connected())
    {
      ghost var rows := Rows();
      counts[i] := counts[i] - 1;
      ids[i, j] := ids[i, counts[i]];
      assert Fds(i) == SwapRemove(rows[i].fds, j);
      forall k | 0 <= k < numSubs && k != i ensures Rows()[k] == rows[k] { assert Fds(k) == rows[k].fds; }
    }

    /** The second half of UNSUB: the scan and one swap-removal. */
    method DropClient(i: nat, fd: int)
      requires Valid() && i < numSubs
      modifies ids, counts
      ensures Valid() && Rows() == old(Rows())[i := Row(topics[i], DropFirst(old(Fds(i)), fd))]
      ensures Connected() == old(Connected())
    {
      var j := FindClient(i, fd);
      if j < counts[i] { SwapOut(i, j); }
    }

    method Unsubscribe(fd: int, topic: string)
      requires Valid()
      modifies ids, counts
      ensures Valid() && Rows() == UnsubRows(old(Rows()), fd, topic)
      ensures Connected() == old(Connected())
    {
      var idx := FindSub(topic);
      if idx >= 0 { DropClient(idx, fd); }
    }

    /** The inner loop of publish(), skipping the sender. */
    method PublishRow(i: nat, sender: int, text: string) returns (sends: seq<Send>)
      requires Valid() && i < numSubs
      ensures sends == ToRow(Fds(i), sender, text)
    {
      ghost var fds := Fds(i);
      sends := [];
      for j := 0 to counts[i]
        invariant sends == ToRow(fds[..j], sender, text)
      {
        assert fds[..j + 1] == fds[..j] + [ids[i, j]];
        ToRowAppend(fds[..j], ids[i, j], sender, text);
        if ids[i, j] != sender { sends := sends + [Send(ids[i, j], text)]; }
      }
      assert fds[..counts[i]] == fds;
    }

    /** publish(): the loop over the rows. */
    method Publish(m: Message, sender: int) returns (sends: seq<Send>)
      requires Valid()
      ensures sends == PublishSends(Rows(), m, sender)
    {
      var text := PrintPub(m) + [NEWLINE];
      sends := [];
      if |text| >= BUF_SIZE { return; }
      ghost var rows := Rows();
      for i := 0 to numSubs
        invariant sends == Deliveries(rows[..i], m.topic, sender, text)
      {
        assert rows[..i + 1] == rows[..i] + [rows[i]];
        DeliveriesAppend(rows[..i], rows[i], m.topic, sender, text);
        if TopicMatch(topics[i], m.topic) {
          var toRow := PublishRow(i, sender, text);
          sends := sends + toRow;
        }
      }
      assert rows[..numSubs] == rows;
    }

    /** handle_line: what it sends is returned in order. */
    method HandleLine(fd: int, line: string) returns (sends: seq<Send>)
      requires Valid()
      modifies this`numSubs, topics, ids, counts
      ensures Valid() && Connected() == old(Connected())
      ensures Rows() == RowsAfter(old(Rows()), fd, line)
      ensures sends == SendsFor(old(Rows()), fd, line)
    {
      sends := [];
      match ParseCommand(line) {
        case Pub(m) => sends := Publish(m, fd);
        case Sub(topic) => Subscribe(fd, topic);
        case Unsub(topic) => Unsubscribe(fd, topic);
        case Ping => sends := [Send(fd, "PONG\n")];
        case Ignored =>
      }
    }

    /** The removal scan of one row: after a swap-removal the same place is looked at again. */
    method DropEverywhere(i: nat, fd: int)
      requires Valid() && i < numSubs
      modifies ids, counts
      ensures Valid() && Rows() == old(Rows())[i := Row(topics[i], DropAllFrom(old(Fds(i)), 0, fd))]
      ensures Connected() == old(Connected())
    {
      ghost var rows := Rows();
      var j := 0;
      while j < counts[i]
        invariant Valid() && j <= counts[i]
        invariant Rows() == rows[i := Row(topics[i], Fds(i))]
        invariant DropAllFrom(Fds(i), j, fd) == DropAllFrom(rows[i].fds, 0, fd)
        invariant Connected() == old(Connected())
        decreases counts[i] - j, counts[i]
      {
        if ids[i, j] == fd {
          SwapOut(i, j);
          assert Rows()[i].fds == Fds(i);
        } else {
          j := j + 1;
        }
      }
    }

    /** The memmove over the departed client. */
    method ShiftDown(place: nat)
      requires Valid() && place < numClients
      modifies this`numClients, clients
      ensures Valid() && Rows() == old(Rows())
      ensures Connected() == old(Connected())[..place] + old(Connected())[place + 1..]
    {
      ghost var fds, rows := Connected(), Rows();
      for i := place to numClients - 1
        modifies clients
        invariant numClients == |fds|
        invariant forall k :: 0 <= k < place ==> clients[k] == fds[k]
        invariant forall k :: place <= k < i ==> clients[k] == fds[k + 1]
        invariant forall k :: i < k < numClients ==> clients[k] == fds[k]
      {
        clients[i] := clients[i + 1];
      }
      numClients := numClients - 1;
      forall k | 0 <= k < numSubs ensures Rows()[k] == rows[k] { assert Fds(k) == rows[k].fds; }
    }

    /** remove_client, keyed by the client's place in the array. */
    method RemoveClient(place: nat)
      requires Valid() && place < numClients
      modifies this`numClients, ids, counts, clients
      ensures Valid() && Rows() == RemoveRows(old(Rows()), old(clients[place]))
      ensures Connected() == old(Connected())[..place] + old(Connected())[place + 1..]
      ensures NoRepeats(old(Connected())) ==> Connected() == Without(old(Connected()), old(clients[place]))
    {
      var fd := clients[place];
      ghost var rows, fds := Rows(), Connected();
      for i := 0 to numSubs
        invariant Valid() && Connected() == fds && |Rows()| == |rows|
        invariant forall k :: 0 <= k < i ==> Rows()[k] == RemoveRows(rows, fd)[k]
        invariant forall k :: i <= k < numSubs ==> Rows()[k] == rows[k]
      {
        DropEverywhere(i, fd);
      }
      assert Rows() == RemoveRows(rows, fd);
      ShiftDown(place);
      if NoRepeats(fds) { WithoutAt(fds, place); }
    }

    /** The accept branch: a descriptor beyond capacity is not recorded. */
    method Accept(fd: int)
      requires Valid()
      modifies this`numClients, clients
      ensures Valid() && Rows() == old(Rows())
      ensures Connected() == old(Connected()) + if |old(Connected())| < MAX_CLIENTS then [fd] else []
    {
      ghost var rows := Rows();
      if numClients < MAX_CLIENTS {
        clients[numClients] := fd;
        numClients := numClients + 1;
      }
      forall k | 0 <= k < numSubs ensures Rows()[k] == rows[k] { assert Fds(k) == rows[k].fds; }
    }
  }
}
