/**
  bb_persist_config_get and bb_persist_config_set of libbb/bb_persist.c: a text file of key=value lines, read
  in fgets pieces and rewritten piece by piece.
*/
module ConfigStore {
  import opened Common

  const PIECE: nat := 511               // fgets with a buffer of 512

  // ---- Pieces ----

  /** Length of what one fgets takes: through the first newline, but never more than `room` characters. */
  function PieceLength(t: string, room: nat): (n: nat)
    ensures n <= |t| && n <= room
    ensures forall i :: 0 <= i < n - 1 ==> t[i] != '\n'
    ensures n == |t| || n == room || (n > 0 && t[n - 1] == '\n')
  {
    if t == [] || room == 0 then 0
    else if t[0] == '\n' then 1
    else 1 + PieceLength(t[1..], room - 1)
  }

  function Piece(t: string): string { t[..PieceLength(t, PIECE)] }
  function Rest(t: string): string { t[PieceLength(t, PIECE)..] }

  /** A piece that stays the same piece whatever is written after it. */
  predicate ClosedPiece(p: string) {
    && 0 < |p| <= PIECE
    && (forall i :: 0 <= i < |p| - 1 ==> p[i] != '\n')
    && (|p| == PIECE || p[|p| - 1] == '\n')
  }

  /** The file ends at a piece boundary: a line can be appended without running into the last one. */
  predicate Closed(t: string)
    decreases |t|
  {
    t == [] || (ClosedPiece(Piece(t)) && Closed(Rest(t)))
  }

  lemma {:induction false} PieceIs(t: string, room: nat, n: nat)
    requires n <= |t| && n <= room
    requires forall i :: 0 <= i < n - 1 ==> t[i] != '\n'
    requires n == |t| || n == room || (n > 0 && t[n - 1] == '\n')
    ensures PieceLength(t, room) == n
  {
    if t != [] && room != 0 && t[0] != '\n' {
      PieceIs(t[1..], room - 1, n - 1);
    }
  }

  lemma PieceOfAppend(p: string, b: string)
    requires ClosedPiece(p)
    ensures p + b != [] && Piece(p + b) == p && Rest(p + b) == b
  {
    PieceIs(p + b, PIECE, |p|);
  }

  // ---- Reading and rewriting ----

  /** strncmp(line, key, klen) == 0 && line[klen] == '=' */
  predicate Matches(line: string, key: string) {
    |key| < |line| && line[..|key|] == key && line[|key|] == '='
  }

  function Strip(v: string): (s: string)
    ensures |s| <= |v| && s == v[..|s|]
    ensures s == [] || (s[|s| - 1] != '\n' && s[|s| - 1] != '\r')
    ensures forall i :: |s| <= i < |v| ==> v[i] == '\n' || v[i] == '\r'
  {
    if v != [] && (v[|v| - 1] == '\n' || v[|v| - 1] == '\r') then Strip(v[..|v| - 1]) else v
  }

  function ValueIn(line: string, key: string): string
    requires Matches(line, key)
  {
    Strip(line[|key| + 1..])
  }

  function Get(t: string, key: string): Option<string>
    decreases |t|
  {
    if t == [] then None
    else if Matches(Piece(t), key) then Some(ValueIn(Piece(t), key))
    else Get(Rest(t), key)
  }

  function Entry(key: string, value: string): string { key + "=" + value + "\n" }

  /** The new text for what is left of the old one; every matching line is replaced. */
  function Rewrite(t: string, key: string, value: string, replaced: bool): string
    decreases |t|
  {
    if t == [] then (if replaced then "" else Entry(key, value))
    else if Matches(Piece(t), key) then Entry(key, value) + Rewrite(Rest(t), key, value, true)
    else Piece(t) + Rewrite(Rest(t), key, value, replaced)
  }

  function Set(t: string, key: string, value: string): string { Rewrite(t, key, value, false) }

  // ---- The program ----

  /** One namespace's file below /persist/config. */
  class ConfigFile {
    var present: bool
    var text: string

    ghost predicate Valid()
      reads this
    {
      !present ==> text == ""
    }

    constructor ()
      ensures Valid() && !present
    {
      present, text := false, "";
    }

    static method StripEnd(v: string) returns (vlen: nat)
      ensures vlen <= |v| && v[..vlen] == Strip(v)
    {
      vlen := |v|;
      while vlen > 0 && (v[vlen - 1] == '\n' || v[vlen - 1] == '\r')
        invariant vlen <= |v| && Strip(v[..vlen]) == Strip(v)
      {
        assert v[..vlen][..vlen - 1] == v[..vlen - 1];
        vlen := vlen - 1;
      }
    }

    /** bb_persist_config_get; NULL is None. */
    method Read(key: string) returns (value: Option<string>)
      requires Valid()
      ensures value == Get(text, key)
    {
      if !present { return None; }
      var file := text;
      value := None;
      while file != []
        invariant value == None && Get(file, key) == Get(text, key)
        decreases |file|
      {
        var line := Piece(file);
        file := Rest(file);
        if Matches(line, key) {
          var vlen := StripEnd(line[|key| + 1..]);
          value := Some(line[|key| + 1..][..vlen]);
          break;
        }
      }
    }

    /** bb_persist_config_set; `writable` tells whether the temporary file could be opened. */
    method Write(key: string, value: string, writable: bool) returns (rc: int)
      requires Valid()
      modifies this
      ensures Valid()
      ensures writable ==> rc == 0 && present && text == Set(old(text), key, value)
      ensures !writable ==> rc == -1 && present == old(present) && text == old(text)
    {
      if !writable { return -1; }
      var out, replaced := "", false;
      if present {
        var file := text;
        while file != []
          invariant out + Rewrite(file, key, value, replaced) == Set(text, key, value)
          invariant present == old(present) && text == old(text)
          decreases |file|
        {
          var line := Piece(file);
          ghost var before := out;
          file := Rest(file);
          if Matches(line, key) {
            Associative(out, Entry(key, value), Rewrite(file, key, value, true));
            out := out + Entry(key, value);
            replaced := true;
          } else {
            Associative(out, line, Rewrite(file, key, value, replaced));
            out := out + line;
          }
        }
      }
      if !replaced {
        out := out + Entry(key, value);
      }
      present, text := true, out;
      rc := 0;
    }
  }

  // ---- What one set does to the same key ----

  /** Keys and values that survive the trip through a line. */
  predicate Fits(key: string, value: string) {
    && '\n' !in key && '\n' !in value
    && (value == [] || value[|value| - 1] != '\r')
    && |key| + 1 + |value| <= PIECE
  }

  lemma PieceValueFits(p: string, key: string)
    requires |p| <= PIECE && Matches(p, key)
    requires forall i :: 0 <= i < |p| - 1 ==> p[i] != '\n'
    ensures Fits(key, ValueIn(p, key)) && |key| + 1 + |ValueIn(p, key)| <= |p|
    ensures p[|p| - 1] == '\n' ==> |key| + 1 + |ValueIn(p, key)| < |p|
  {
    var v := p[|key| + 1..];
    var s := Strip(v);
    assert forall i :: 0 <= i < |key| ==> key[i] == p[i];
    assert forall i :: 0 <= i < |s| ==> s[i] == v[i] == p[|key| + 1 + i];
    assert forall i :: 0 <= i < |s| - 1 ==> s[i] != '\n';
  }

  /** Whatever the file holds, what comes out of it fits. */
  lemma {:induction false} GetFits(t: string, key: string)
    ensures Get(t, key).Some? ==> Fits(key, Get(t, key).value) && |key| + 1 + |Get(t, key).value| <= |t|
    decreases |t|
  {
    if t != [] {
      var p := Piece(t);
      if Matches(p, key) {
        PieceValueFits(p, key);
      } else {
        GetFits(Rest(t), key);
      }
    }
  }

  lemma EntryShape(key: string, value: string)
    ensures |Entry(key, value)| == |key| + |value| + 2
    ensures Entry(key, value)[..|key|] == key && Entry(key, value)[|key|] == '='
    ensures Entry(key, value)[|key| + 1..] == value + "\n"
    ensures Entry(key, value)[|key| + 1..|key| + 1 + |value|] == value
    ensures Entry(key, value)[|key| + 1 + |value|] == '\n'
  {
    assert Entry(key, value) == key + ("=" + value + "\n");
  }

  lemma EntryIsOneLine(key: string, value: string)
    requires '\n' !in key && '\n' !in value
    ensures forall i :: 0 <= i < |Entry(key, value)| - 1 ==> Entry(key, value)[i] != '\n'
  {
    var e := Entry(key, value);
    EntryShape(key, value);
    forall i | 0 <= i < |e| - 1 ensures e[i] != '\n' {
      if i < |key| {
        assert e[i] == e[..|key|][i];
      } else if i > |key| {
        assert e[i] == e[|key| + 1..|key| + 1 + |value|][i - |key| - 1];
      }
    }
  }

  lemma StripOf(v: string)
    requires v == [] || (v[|v| - 1] != '\n' && v[|v| - 1] != '\r')
    ensures Strip(v) == v && Strip(v + "\n") == v
  {
    assert (v + "\n")[..|v|] == v;
  }

  /** The piece read back is the line, or the line without its newline when the buffer ends there. */
  lemma EntryPiece(key: string, value: string, x: string)
    requires Fits(key, value)
    ensures var e := Entry(key, value);
            Piece(e + x) == e[..if |e| <= PIECE then |e| else PIECE]
  {
    var e := Entry(key, value);
    EntryShape(key, value);
    EntryIsOneLine(key, value);
    var n := if |e| <= PIECE then |e| else PIECE;
    assert forall i :: 0 <= i < |e| ==> (e + x)[i] == e[i];
    PieceIs(e + x, PIECE, n);
    assert (e + x)[..n] == e[..n];
  }

  lemma EntryValue(key: string, value: string, n: nat)
    requires Fits(key, value)
    requires |Entry(key, value)| - 1 <= n <= |Entry(key, value)|
    ensures Matches(Entry(key, value)[..n], key) && ValueIn(Entry(key, value)[..n], key) == value
  {
    var e := Entry(key, value);
    EntryShape(key, value);
    StripOf(value);
    var p := e[..n];
    assert p[..|key|] == e[..|key|];
    assert p[|key| + 1..] == if n == |e| then value + "\n" else value;
  }

  lemma FittingEntryIsRead(key: string, value: string, x: string)
    requires Fits(key, value)
    ensures Get(Entry(key, value) + x, key) == Some(value)
  {
    EntryShape(key, value);
    EntryPiece(key, value, x);
    EntryValue(key, value, |Piece(Entry(key, value) + x)|);
  }

  lemma GluedPieceIsLonger(p: string, e: string)
    requires |p| < PIECE && '\n' !in p && e != []
    ensures |Rest(p + e)| < |e|
    ensures Rest(p + e) != [] ==> Rest(p + e)[|Rest(p + e)| - 1] == e[|e| - 1]
  {
    assert forall i :: 0 <= i < |p| ==> (p + e)[i] == p[i];
    assert PieceLength(p + e, PIECE) > |p|;
  }

  lemma GluedPieceDiffers(p: string, key: string, value: string, q: string)
    requires p != [] && '=' !in key && !Matches(p, key)
    requires |q| <= |p + Entry(key, value)| && q == (p + Entry(key, value))[..|q|]
    ensures !Matches(q, key)
  {
    var e := Entry(key, value);
    EntryShape(key, value);
    var t := p + e;
    assert |key| < |q| ==> q[..|key|] == t[..|key|] && q[|key|] == t[|key|];
    if |key| < |p| {
      assert t[..|key|] == p[..|key|] && t[|key|] == p[|key|];
    } else {
      var j := |key| - |p|;
      assert t[|key|] == e[j] == e[..|key|][j] == key[j];
    }
  }

  /** A value that fills its text to the end leaves no room for a closing newline. */
  lemma {:induction false} LastCharacter(t: string, key: string)
    ensures Get(t, key).Some? && |key| + 1 + |Get(t, key).value| == |t| ==> t[|t| - 1] != '\n'
    decreases |t|
  {
    if t != [] {
      var p := Piece(t);
      if Matches(p, key) {
        PieceValueFits(p, key);
        assert |p| == |t| ==> p == t;
      } else {
        GetFits(Rest(t), key);
      }
    }
  }

  /** A line glued to an unfinished one is lost for its own key. */
  lemma GluedEntryIsLost(p: string, key: string, value: string)
    requires p != [] && |p| < PIECE && '\n' !in p && !Matches(p, key) && '=' !in key
    ensures Get(p + Entry(key, value), key) != Some(value)
  {
    var t := p + Entry(key, value);
    EntryShape(key, value);
    GluedPieceIsLonger(p, Entry(key, value));
    GluedPieceDiffers(p, key, value, Piece(t));
    GetFits(Rest(t), key);
    LastCharacter(Rest(t), key);
  }

  lemma SetOnMatch(t: string, key: string, value: string)
    requires t != [] && Matches(Piece(t), key)
    ensures Get(Set(t, key, value), key) == Some(value) <==> Fits(key, value)
    ensures Get(t, key).Some?
  {
    GetFits(Set(t, key, value), key);
    if Fits(key, value) { FittingEntryIsRead(key, value, Rewrite(Rest(t), key, value, true)); }
  }

  lemma SetPastPiece(t: string, key: string, value: string)
    requires t != [] && !Matches(Piece(t), key) && ClosedPiece(Piece(t))
    ensures Get(Set(t, key, value), key) == Get(Set(Rest(t), key, value), key)
    ensures Get(t, key) == Get(Rest(t), key) && Closed(t) == Closed(Rest(t))
  {
    PieceOfAppend(Piece(t), Set(Rest(t), key, value));
  }

  lemma SetOnOpenPiece(t: string, key: string, value: string)
    requires t != [] && !Matches(Piece(t), key) && !ClosedPiece(Piece(t))
    ensures '=' !in key ==> Get(Set(t, key, value), key) != Some(value)
    ensures Get(t, key).None? && !Closed(t)
  {
    assert Rest(t) == [];
    assert Piece(t) == t;
    assert Rewrite(Rest(t), key, value, false) == Entry(key, value);
    assert Set(t, key, value) == Piece(t) + Rewrite(Rest(t), key, value, false);
    assert forall i :: 0 <= i < |t| ==> t[i] != '\n';
    if '=' !in key { GluedEntryIsLost(t, key, value); }
  }

  /**
    For every file, key and value: the value comes back if it fits a line and the new line starts one, that is, the
    key was there already or the file ended at a piece boundary. A value that does not fit never comes back, and for
    a key without '=' neither does one whose line does not start one.
  */
  lemma {:induction false} SetThenGetExactly(t: string, key: string, value: string)
    ensures Fits(key, value) && (Get(t, key).Some? || Closed(t)) ==> Get(Set(t, key, value), key) == Some(value)
    ensures Get(Set(t, key, value), key) == Some(value) ==> Fits(key, value)
    ensures '=' !in key && Get(Set(t, key, value), key) == Some(value) ==> Get(t, key).Some? || Closed(t)
    decreases |t|
  {
    GetFits(Set(t, key, value), key);
    if t == [] {
      assert Set(t, key, value) == Entry(key, value) + "";
      GetFits(Entry(key, value) + "", key);
      if Fits(key, value) { FittingEntryIsRead(key, value, ""); }
    } else if Matches(Piece(t), key) {
      SetOnMatch(t, key, value);
    } else if ClosedPiece(Piece(t)) {
      SetPastPiece(t, key, value);
      SetThenGetExactly(Rest(t), key, value);
    } else {
      SetOnOpenPiece(t, key, value);
    }
  }

  lemma EqualsOnly(value: string)
    requires |value| == PIECE - 2 && forall i :: 0 <= i < |value| ==> value[i] == '='
    ensures var text := "=" + Entry("=", value); Piece(text) == "==" + value && Get(text, "=") == Some(value)
  {
    var text, line := "=" + Entry("=", value), "==" + value;
    assert text == line + "=\n";
    forall i | 0 <= i < PIECE ensures text[i] == line[i] && line[i] == '=' {
      if i >= 2 { assert line[i] == value[i - 2]; }
    }
    PieceIs(text, PIECE, PIECE);
    assert Piece(text) == line && line[..1] == "=" && line[2..] == value;
    StripOf(value);
  }

  /** A key that contains '=' can be read back from a line glued to an unfinished one. */
  lemma GluedKeyWithEquals(value: string)
    requires |value| == PIECE - 2 && forall i :: 0 <= i < |value| ==> value[i] == '='
    ensures !Closed("=") && Get("=", "=").None? && Get(Set("=", "=", value), "=") == Some(value)
  {
    var t := "=";
    PieceIs(t, PIECE, 1);
    assert Piece(t) == t && Rest(t) == [];
    assert Rewrite(Rest(t), t, value, false) == Entry(t, value);
    assert Set(t, t, value) == t + Entry(t, value);
    EqualsOnly(value);
  }

  // ---- What it does to the other keys ----

  /** What the callers keep to: keys without '=' or newline, values without newline or final CR, lines that fit. */
  predicate Proper(key: string, value: string) {
    '=' !in key && Fits(key, value) && |Entry(key, value)| <= PIECE
  }

  lemma ProperEntry(key: string, value: string)
    requires Proper(key, value)
    ensures ClosedPiece(Entry(key, value)) && Matches(Entry(key, value), key)
    ensures ValueIn(Entry(key, value), key) == value
  {
    var e := Entry(key, value);
    EntryShape(key, value);
    EntryIsOneLine(key, value);
    EntryValue(key, value, |e|);
    assert e[..|e|] == e;
  }

  lemma KeyEndsAtFirstEquals(line: string, key: string)
    ensures Matches(line, key) && '=' !in key ==> forall i :: 0 <= i < |key| ==> line[i] != '='
  {
    if Matches(line, key) {
      assert forall i :: 0 <= i < |key| ==> line[i] == line[..|key|][i] == key[i];
    }
  }

  lemma OneKeyPerLine(line: string, key: string, other: string)
    requires Matches(line, key) && '=' !in key && '=' !in other && key != other
    ensures !Matches(line, other)
  {
    KeyEndsAtFirstEquals(line, key);
    KeyEndsAtFirstEquals(line, other);
  }

  lemma GetPastPiece(p: string, b: string, key: string)
    requires ClosedPiece(p)
    ensures Get(p + b, key) == if Matches(p, key) then Some(ValueIn(p, key)) else Get(b, key)
  {
    PieceOfAppend(p, b);
  }

  lemma {:induction false} RewriteKeepsOthers(t: string, key: string, value: string, replaced: bool, other: string)
    requires Closed(t) && Proper(key, value) && '=' !in other && other != key
    ensures Get(Rewrite(t, key, value, replaced), other) == Get(t, other)
    decreases |t|
  {
    ProperEntry(key, value);
    OneKeyPerLine(Entry(key, value), key, other);
    if t == [] {
      GetPastPiece(Entry(key, value), "", other);
      assert Entry(key, value) + "" == Entry(key, value);
    } else {
      var p, now := Piece(t), replaced || Matches(Piece(t), key);
      RewriteKeepsOthers(Rest(t), key, value, now, other);
      if Matches(p, key) {
        OneKeyPerLine(p, key, other);
        GetPastPiece(Entry(key, value), Rewrite(Rest(t), key, value, now), other);
      } else {
        GetPastPiece(p, Rewrite(Rest(t), key, value, now), other);
      }
    }
  }

  lemma {:induction false} RewriteKeepsClosed(t: string, key: string, value: string, replaced: bool)
    requires Closed(t) && Proper(key, value)
    ensures Closed(Rewrite(t, key, value, replaced))
    decreases |t|
  {
    ProperEntry(key, value);
    if t == [] {
      PieceOfAppend(Entry(key, value), "");
      assert Entry(key, value) + "" == Entry(key, value);
    } else {
      var now := replaced || Matches(Piece(t), key);
      RewriteKeepsClosed(Rest(t), key, value, now);
      PieceOfAppend(if Matches(Piece(t), key) then Entry(key, value) else Piece(t), Rewrite(Rest(t), key, value, now));
    }
  }

  /** The file behaves as a map: one set changes the value of its own key and of no other, and leaves a closed file. */
  lemma SetIsMapUpdate(t: string, key: string, value: string, asked: string)
    requires Closed(t) && Proper(key, value) && '=' !in asked
    ensures Get(Set(t, key, value), asked) == if asked == key then Some(value) else Get(t, asked)
    ensures Closed(Set(t, key, value))
  {
    RewriteKeepsClosed(t, key, value, false);
    if asked == key {
      SetThenGetExactly(t, key, value);
    } else {
      RewriteKeepsOthers(t, key, value, false, asked);
    }
  }

  // ---- Whole runs ----

  datatype Assignment = Assignment(key: string, value: string)

  /** The file after a run of sets, starting from none. */
  function AfterSets(sets: seq<Assignment>): string {
    if sets == [] then ""
    else Set(AfterSets(sets[..|sets| - 1]), sets[|sets| - 1].key, sets[|sets| - 1].value)
  }

  /** The map the file stands for. */
  function Assigned(sets: seq<Assignment>): map<string, string> {
    if sets == [] then map[] else Assigned(sets[..|sets| - 1])[sets[|sets| - 1].key := sets[|sets| - 1].value]
  }

  /** Get returns the last value set, and nothing for a key never set. */
  lemma {:induction false} RunIsMap(sets: seq<Assignment>, asked: string)
    requires forall s :: s in sets ==> Proper(s.key, s.value)
    requires '=' !in asked
    ensures Closed(AfterSets(sets))
    ensures Get(AfterSets(sets), asked) == if asked in Assigned(sets) then Some(Assigned(sets)[asked]) else None
    decreases |sets|
  {
    if sets != [] {
      var before, last := sets[..|sets| - 1], sets[|sets| - 1];
      RunIsMap(before, asked);
      SetIsMapUpdate(AfterSets(before), last.key, last.value, asked);
    }
  }
}
