/**
  Splitting a byte stream into lines in place, as the daemon does for each client
  (services/bb-busd.c) and the client library for its socket (libbb/bb_bus.c).
*/
module LineFraming {
  import opened Common

  const NEWLINE: char := '\n'

  // ---- Specification ----

  /** Length of the text before the first newline, or the whole length. */
  function LineLength(s: string): (n: nat)
    ensures n <= |s|
    ensures forall i :: 0 <= i < n ==> s[i] != NEWLINE
    ensures n < |s| ==> s[n] == NEWLINE
  {
    if s == [] || s[0] == NEWLINE then 0 else 1 + LineLength(s[1..])
  }

  /** The newline-terminated lines of a text, without their newlines. */
  function Lines(s: string): seq<string>
    decreases |s|
  {
    var n := LineLength(s);
    if n == |s| then [] else [s[..n]] + Lines(s[n + 1..])
  }

  /** What follows the last newline. */
  function Tail(s: string): (t: string)
    ensures |t| <= |s| && NEWLINE !in t
    ensures forall c :: c in t ==> c in s
    decreases |s|
  {
    var n := LineLength(s);
    if n == |s| then s else Tail(s[n + 1..])
  }

  function Flatten(chunks: seq<string>): string {
    if chunks == [] then [] else chunks[0] + Flatten(chunks[1..])
  }

  lemma LineLengthUnique(s: string, n: nat)
    requires n < |s| && s[n] == NEWLINE && forall i :: 0 <= i < n ==> s[i] != NEWLINE
    ensures LineLength(s) == n
  {
  }

  lemma NoNewline(s: string)
    requires NEWLINE !in s
    ensures Lines(s) == [] && Tail(s) == s
  {
    assert forall i :: 0 <= i < |s| ==> s[i] in s;
  }

  /** Moving the first line of the unread text to the lines already handled. */
  lemma TakeLine(handled: seq<string>, rest: string, line: string, rest': string)
    requires LineLength(rest) < |rest|
    requires line == rest[..LineLength(rest)] && rest' == rest[LineLength(rest) + 1..]
    ensures (handled + [line]) + Lines(rest') == handled + Lines(rest)
    ensures Tail(rest') == Tail(rest)
  {
    Associative(handled, [line], Lines(rest'));
  }

  /** One line, its newline, and the rest. */
  lemma LineThenRest(line: string, rest: string)
    requires NEWLINE !in line
    ensures Lines(line + [NEWLINE] + rest) == [line] + Lines(rest)
    ensures Tail(line + [NEWLINE] + rest) == Tail(rest)
  {
    var s := line + [NEWLINE] + rest;
    forall i | 0 <= i < |line| ensures s[i] != NEWLINE { assert s[i] == line[i]; }
    LineLengthUnique(s, |line|);
    assert s[..|line|] == line && s[|line| + 1..] == rest;
  }

  /** Cutting a stream anywhere: the second part continues the unfinished tail of the first. */
  lemma {:induction false} SplitStream(a: string, b: string)
    ensures Lines(a + b) == Lines(a) + Lines(Tail(a) + b)
    ensures Tail(a + b) == Tail(Tail(a) + b)
    decreases |a|
  {
    var n := LineLength(a);
    if n == |a| {
      assert [] + Lines(a + b) == Lines(a + b);
    } else {
      var line, rest := a[..n], a[n + 1..];
      assert a + b == line + [NEWLINE] + (rest + b);
      LineThenRest(line, rest + b);
      SplitStream(rest, b);
      Associative([line], Lines(rest), Lines(Tail(rest) + b));
    }
  }

  // ---- Any chunking of a stream ----

  /** Each chunk is nonempty and fits the room the buffer then has. */
  predicate Fits(kept: string, chunks: seq<string>, size: nat)
    decreases |chunks|
  {
    chunks == [] ||
    (1 <= |chunks[0]| && |kept| + |chunks[0]| < size && Fits(Tail(kept + chunks[0]), chunks[1..], size))
  }

  /** What successive calls of Receive hand over, and keep. */
  function HandledOver(kept: string, chunks: seq<string>): seq<string>
    decreases |chunks|
  {
    if chunks == [] then [] else Lines(kept + chunks[0]) + HandledOver(Tail(kept + chunks[0]), chunks[1..])
  }

  function KeptAfter(kept: string, chunks: seq<string>): string
    decreases |chunks|
  {
    if chunks == [] then kept else KeptAfter(Tail(kept + chunks[0]), chunks[1..])
  }

  /** How the stream is cut into chunks makes no difference to the lines handled or to what is kept. */
  lemma {:induction false} ChunkInvariance(kept: string, chunks: seq<string>)
    requires NEWLINE !in kept
    ensures HandledOver(kept, chunks) == Lines(kept + Flatten(chunks))
    ensures KeptAfter(kept, chunks) == Tail(kept + Flatten(chunks))
    decreases |chunks|
  {
    if chunks == [] {
      assert kept + [] == kept;
      NoNewline(kept);
    } else {
      var s, rest := kept + chunks[0], Flatten(chunks[1..]);
      ChunkInvariance(Tail(s), chunks[1..]);
      Associative(kept, chunks[0], rest);
      SplitStream(s, rest);
    }
  }

  // ---- Which streams get through a buffer ----

  /** Every line fits the buffer with its newline and the terminator, and so does the unfinished rest. */
  predicate LinesFit(s: string, size: nat) {
    (forall i :: 0 <= i < |Lines(s)| ==> |Lines(s)[i]| + 1 < size) && |Tail(s)| < size
  }

  /** Some way of cutting the stream into chunks keeps within the buffer from its start to its end. */
  ghost predicate GetsThrough(s: string, size: nat) {
    exists chunks :: Flatten(chunks) == s && Fits([], chunks, size)
  }

  /** Before its last byte the stream never leaves the next recv without room. */
  ghost predicate RoomThroughout(s: string, size: nat) {
    forall n: nat :: n < |s| ==> |Tail(s[..n])| + 1 < size
  }

  lemma TailBeforeNewline(t: string, b: string)
    requires NEWLINE !in t
    ensures LineLength(t + b) >= |t|
  {
    assert forall j :: 0 <= j < |t| ==> (t + b)[j] == t[j] && t[j] in t;
  }

  lemma FittingLinesLeaveRoom(a: string, b: string, size: nat)
    requires LinesFit(a + b, size) && b != []
    ensures |Tail(a)| + 1 < size
  {
    SplitStream(a, b);
    var rest := Tail(a) + b;
    var n := LineLength(rest);
    TailBeforeNewline(Tail(a), b);
    if n < |rest| {
      assert Lines(a + b)[|Lines(a)|] == Lines(rest)[0] == rest[..n];
    }
  }

  lemma PrefixBehindLine(line: string, rest: string, a: string)
    requires |a| < |rest| && rest[..|a|] == a
    ensures var s, longer := line + [NEWLINE] + rest, line + [NEWLINE] + a;
            |longer| < |s| && s[..|longer|] == longer
  {
    var head := line + [NEWLINE];
    assert (head + rest)[..|head| + |a|] == head + rest[..|a|];
  }

  lemma CutAt(s: string, n: nat)
    requires n < |s| && s[n] == NEWLINE && forall i :: 0 <= i < n ==> s[i] != NEWLINE
    ensures NEWLINE !in s[..n] && s == s[..n] + [NEWLINE] + s[n + 1..]
  {
  }

  /** A text with a complete line, taken apart. */
  lemma FirstLine(s: string) returns (line: string, rest: string)
    requires Lines(s) != []
    ensures NEWLINE !in line && s == line + [NEWLINE] + rest && Lines(s) == [line] + Lines(rest)
  {
    var n := LineLength(s);
    line, rest := s[..n], s[n + 1..];
    CutAt(s, n);
  }

  /** The text before the newline of line i, of which that line is the unfinished part. */
  lemma {:induction false} BeforeLineEnd(s: string, i: nat) returns (a: string)
    requires i < |Lines(s)|
    ensures |a| < |s| && s[..|a|] == a && Tail(a) == Lines(s)[i]
    decreases |s|
  {
    var line, rest := FirstLine(s);
    if i == 0 {
      a := line;
      NoNewline(line);
    } else {
      var a' := BeforeLineEnd(rest, i - 1);
      a := line + [NEWLINE] + a';
      PrefixBehindLine(line, rest, a');
      LineThenRest(line, a');
    }
  }

  lemma TailOfAppend(t: string, c: char)
    requires NEWLINE !in t
    ensures Tail(t + [c]) == if c == NEWLINE then [] else t + [c]
  {
    if c == NEWLINE {
      assert t + [NEWLINE] + [] == t + [c];
      LineThenRest(t, []);
    } else {
      NoNewline(t + [c]);
    }
  }

  lemma BeforeLastByte(a: string, c: char)
    ensures Tail(a + [c]) != [] ==> |Tail(a)| + 1 == |Tail(a + [c])|
  {
    SplitStream(a, [c]);
    TailOfAppend(Tail(a), c);
  }

  /** Room never runs out exactly if every line fits. */
  lemma RoomExactly(s: string, size: nat)
    requires size >= 1
    ensures RoomThroughout(s, size) <==> LinesFit(s, size)
  {
    if LinesFit(s, size) {
      forall n: nat | n < |s| ensures |Tail(s[..n])| + 1 < size {
        assert s == s[..n] + s[n..];
        FittingLinesLeaveRoom(s[..n], s[n..], size);
      }
    }
    if RoomThroughout(s, size) {
      forall i | 0 <= i < |Lines(s)| ensures |Lines(s)[i]| + 1 < size {
        var a := BeforeLineEnd(s, i);
        assert |Tail(s[..|a|])| + 1 < size;
      }
      if Tail(s) != [] {
        BeforeLastByte(s[..|s| - 1], s[|s| - 1]);
        assert s == s[..|s| - 1] + [s[|s| - 1]];
        assert |Tail(s[..|s| - 1])| + 1 < size;
      }
    }
  }

  function Bytewise(s: string): seq<string> { if s == [] then [] else [[s[0]]] + Bytewise(s[1..]) }

  lemma {:induction false} BytewiseFits(a: string, b: string, size: nat)
    requires LinesFit(a + b, size)
    ensures Flatten(Bytewise(b)) == b && Fits(Tail(a), Bytewise(b), size)
    decreases |b|
  {
    if b != [] {
      var c := [b[0]];
      FittingLinesLeaveRoom(a, b, size);
      assert b == c + b[1..];
      Associative(a, c, b[1..]);
      BytewiseFits(a + c, b[1..], size);
      SplitStream(a, c);
      assert Bytewise(b)[0] == c && Bytewise(b)[1..] == Bytewise(b[1..]);
    }
  }

  lemma PrefixPastChunk(a: string, c: string, rest: string, n: nat)
    requires |c| <= n <= |c + rest|
    ensures a + (c + rest)[..n] == (a + c) + rest[..n - |c|]
  {
  }

  /** Chunks that fit leave room before every byte of theirs. */
  lemma {:induction false} FittingChunksLeaveRoom(a: string, chunks: seq<string>, size: nat, n: nat)
    requires Fits(Tail(a), chunks, size) && n < |Flatten(chunks)|
    ensures |Tail(a + Flatten(chunks)[..n])| + 1 < size
    decreases |chunks|
  {
    var c, rest := chunks[0], Flatten(chunks[1..]);
    if n < |c| {
      assert (c + rest)[..n] == c[..n];
      SplitStream(a, c[..n]);
    } else {
      SplitStream(a, c);
      FittingChunksLeaveRoom(a + c, chunks[1..], size, n - |c|);
      PrefixPastChunk(a, c, rest, n);
    }
  }

  /** A stream gets through a buffer exactly if each of its lines, with the newline, fits beside the terminator. */
  lemma GetsThroughExactly(s: string, size: nat)
    requires size >= 1
    ensures GetsThrough(s, size) <==> LinesFit(s, size)
  {
    if LinesFit(s, size) {
      assert [] + s == s;
      BytewiseFits([], s, size);
    }
    if GetsThrough(s, size) {
      var chunks :| Flatten(chunks) == s && Fits([], chunks, size);
      forall n: nat | n < |s| ensures |Tail(s[..n])| + 1 < size {
        FittingChunksLeaveRoom([], chunks, size, n);
        assert [] + s[..n] == s[..n];
      }
      RoomExactly(s, size);
    }
  }

  // ---- The receive buffer ----

  class LineBuffer {
    const buf: array<char>
    var len: nat

    ghost predicate Valid()
      reads this, buf
    {
      && len < buf.Length && buf[len] == NUL
      && NUL !in buf[..len] && NEWLINE !in buf[..len]
    }

    /** The unfinished line kept between two calls. */
    ghost function Text(): string
      requires len <= buf.Length
      reads this, buf
    {
      buf[..len]
    }

    constructor (size: nat)
      requires size >= 1
      ensures Valid() && fresh(buf) && buf.Length == size && Text() == []
    {
      buf := new char[size](_ => NUL);
      len := 0;
    }

    /** Bytes the next recv may deliver: one is always kept for the terminator. */
    function Room(): nat
      requires len < buf.Length
      reads this
    {
      buf.Length - len - 1
    }

    static lemma NoNewlineLength(s: string)
      requires forall i :: 0 <= i < |s| ==> s[i] != NEWLINE
      ensures LineLength(s) == |s|
    {
    }

    /** strchr(start, newline), the terminator of the text being at `end`. */
    method FindNewline(start: nat, end: nat) returns (nl: nat)
      requires start <= end < buf.Length && buf[end] == NUL && NUL !in buf[start..end]
      ensures start <= nl <= end
      ensures nl == start + LineLength(buf[start..end])
    {
      nl := start;
      while buf[nl] != NEWLINE && buf[nl] != NUL
        invariant start <= nl <= end
        invariant forall i :: start <= i < nl ==> buf[i] != NEWLINE
        decreases end - nl
      {
        assert nl != end;
        nl := nl + 1;
      }
      var s := buf[start..end];
      if nl < end {
        assert s[nl - start] == buf[nl] && buf[nl] in buf[start..end];
        LineLengthUnique(s, nl - start);
      } else {
        NoNewlineLength(s);
      }
    }

    /** Cuts the next complete line off the unread text in place, if there is one. */
    method NextLine(start: nat) returns (found: bool, line: string, next: nat)
      requires start <= len < buf.Length && buf[len] == NUL && NUL !in buf[start..len]
      modifies buf
      ensures buf[len] == NUL && start <= next <= len
      ensures var rest := old(buf[start..len]); var n := LineLength(rest);
              && (found <==> n < |rest|)
              && (!found ==> next == start && buf[start..len] == rest)
              && (found ==> next == start + n + 1 && line == rest[..n] && buf[next..len] == rest[n + 1..])
    {
      var nl := FindNewline(start, len);
      if nl == len { return false, [], start; }
      ghost var rest := buf[start..len];
      buf[nl] := NUL;
      found, line, next := true, buf[start..nl], nl + 1;
      assert line == rest[..nl - start];
      assert buf[next..len] == rest[next - start..];
    }

    static lemma NoNewlineAll(s: string)
      requires LineLength(s) == |s|
      ensures NEWLINE !in s && Lines(s) == [] && Tail(s) == s
    {
    }

    /** Handles every complete line of the buffer; returns where the unfinished one starts. */
    method HandleLines() returns (handled: seq<string>, start: nat)
      requires len < buf.Length && buf[len] == NUL && NUL !in buf[..len]
      modifies buf
      ensures start <= len && buf[len] == NUL
      ensures handled == Lines(old(buf[..len])) && buf[start..len] == Tail(old(buf[..len]))
      ensures NUL !in buf[start..len]
    {
      ghost var all := buf[..len];
      start := 0;
      handled := [];
      ghost var rest := all;
      while true
        invariant start <= len && buf[len] == NUL
        invariant rest == buf[start..len] && NUL !in rest
        invariant handled + Lines(rest) == Lines(all) && Tail(rest) == Tail(all)
        decreases len - start
      {
        var found, line, next := NextLine(start);
        if !found { break; }
        ghost var rest' := rest[next - start..];
        TakeLine(handled, rest, line, rest');
        handled, start, rest := handled + [line], next, rest';
      }
      NoNewlineAll(rest);
    }

    /** recv into the free part of the buffer, and the terminator after it. */
    method Append(chunk: string)
      requires Valid() && |chunk| <= Room() && NUL !in chunk
      modifies this, buf
      ensures len == old(len) + |chunk| < buf.Length && buf[len] == NUL
      ensures buf[..len] == old(Text()) + chunk && NUL !in buf[..len]
    {
      ghost var before := buf[..len];
      for i := 0 to |chunk|
        invariant len == old(len)
        invariant buf[..len + i] == before + chunk[..i]
      {
        buf[len + i] := chunk[i];
      }
      len := len + |chunk|;
      buf[len] := NUL;
      assert buf[..len] == before + chunk;
    }

    /** memmove of the unfinished line to the front, and its terminator. */
    method Compact(start: nat)
      requires 0 < start <= len < buf.Length
      modifies this, buf
      ensures len == old(len) - start && buf[..len] == old(buf[start..len]) && buf[len] == NUL
    {
      ghost var kept := buf[start..len];
      len := len - start;
      for i := 0 to len
        invariant len == |kept|
        invariant forall k :: 0 <= k < i ==> buf[k] == kept[k]
        invariant forall k :: i <= k < len ==> buf[start + k] == kept[k]
      {
        buf[i] := buf[start + i];
      }
      buf[len] := NUL;
    }

    /** One recv of a nonempty chunk that fits: every line it completes is handled, the rest is kept. */
    method Receive(chunk: string) returns (handled: seq<string>)
      requires Valid() && 1 <= |chunk| <= Room() && NUL !in chunk
      modifies this, buf
      ensures Valid()
      ensures handled == Lines(old(Text()) + chunk)
      ensures Text() == Tail(old(Text()) + chunk)
    {
      Append(chunk);
      var start;
      handled, start := HandleLines();
      if start > 0 { Compact(start); }
    }

    /** Successive calls, whatever the chunks: in place they do what the whole stream asks for. */
    method ReceiveAll(chunks: seq<string>) returns (handled: seq<string>)
      requires Valid() && Fits(Text(), chunks, buf.Length)
      requires forall i :: 0 <= i < |chunks| ==> NUL !in chunks[i]
      modifies this, buf
      ensures Valid()
      ensures handled == Lines(old(Text()) + Flatten(chunks))
      ensures Text() == Tail(old(Text()) + Flatten(chunks))
    {
      ghost var kept := Text();
      handled := [];
      for i := 0 to |chunks|
        invariant Valid() && Fits(Text(), chunks[i..], buf.Length)
        invariant handled + HandledOver(Text(), chunks[i..]) == HandledOver(kept, chunks)
        invariant KeptAfter(Text(), chunks[i..]) == KeptAfter(kept, chunks)
      {
        ghost var before := handled;
        ghost var rest := chunks[i..];
        assert rest[0] == chunks[i] && rest[1..] == chunks[i + 1..];
        var lines := Receive(chunks[i]);
        handled := handled + lines;
        Associative(before, lines, HandledOver(Text(), chunks[i + 1..]));
      }
      assert handled + [] == handled;
      ChunkInvariance(kept, chunks);
    }
  }
}
