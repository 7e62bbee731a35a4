/** The writer's buffer and the reader's loops of libbb/bb_json.c, tied to the text of JsonText. */
module JsonBuffer {
  import opened Common
  import opened JsonText
  import opened JsonRoundTrip

  /** Where the last call of snprintf for these fields starts. */
  function LastCall(fields: seq<Field>): nat {
    if fields == [] then 0 else 1 + |Body(fields[..|fields| - 1])| + |KeyText(fields[|fields| - 1].key)|
  }

  lemma BodyOfNext(before: seq<Field>, f: Field)
    ensures Body(before + [f]) == Body(before) + FieldText(f)
    ensures LastCall(before + [f]) == 1 + |Body(before)| + |KeyText(f.key)| <= |Body(before + [f])|
  {
    BodySplit(before, [f]);
    assert Body([f]) == FieldText(f) + [];
    assert (before + [f])[..|before|] == before;
  }

  lemma ObjectLength(fields: seq<Field>)
    ensures Trimmed("{" + Body(fields)) + "}" == ObjectText(fields)
    ensures |ObjectText(fields)| == if fields == [] then 2 else |Body(fields)| + 1
  {
    if fields != [] { BodyEndsInComma(fields); }
  }

  /** The two texts a field is printed in. */
  lemma FieldInParts(before: string, f: Field)
    ensures |FieldText(f)| == |KeyText(f.key)| + |ValueText(f.value)| + 1
    ensures (before + KeyText(f.key)) + (ValueText(f.value) + ",") == before + FieldText(f)
    ensures f.value.Str? ==> "\"" + f.value.s + "\"," == ValueText(f.value) + ","
  {
    Associative(before, KeyText(f.key), ValueText(f.value) + ",");
    Associative(KeyText(f.key), ValueText(f.value), ",");
  }

  /**
    The writer. `printed` is all the text its calls were given; `pos` is its length, even past the end of the buffer.
    `strayed` and `overread` record a store and a load outside the buffer; what such a store leads to is not modelled.
  */
  class Writer {
    const buf: array<char>
    var pos: nat
    ghost var printed: string
    ghost var strayed: bool
    ghost var overread: bool

    /** What fits is stored; the last place of a full buffer never holds a comma. */
    ghost predicate Valid()
      reads this, buf
    {
      && buf.Length >= 1 && pos == |printed|
      && (pos < buf.Length ==> buf[..pos] == printed)
      && (pos >= buf.Length ==> buf[..buf.Length - 1] == printed[..buf.Length - 1] && buf[buf.Length - 1] != ',')
    }

    constructor (storage: array<char>)
      requires storage.Length >= 1
      modifies storage
      ensures Valid() && buf == storage && printed == [] && !strayed && !overread
    {
      buf := storage;
      pos, printed, strayed, overread := 0, [], false, false;
      new;
      buf[0] := NUL;
    }

    method StartObject()
      requires Valid()
      modifies this, buf
      ensures Valid() && printed == old(printed) + if old(pos) < buf.Length then "{" else []
      ensures strayed == old(strayed) && overread == old(overread)
    {
      if pos < buf.Length {
        ghost var before := printed;
        buf[pos] := '{';
        pos, printed := pos + 1, printed + "{";
        assert buf[..|before|] == before;
      }
    }

    /** The stores of snprintf: as much of the text as leaves a place for the terminator. */
    method Store(text: string)
      requires Valid() && pos < buf.Length
      modifies buf
      ensures var n := if pos + |text| < buf.Length then |text| else buf.Length - 1 - pos;
              buf[..pos + n] == printed + text[..n] && buf[pos + n] == NUL
    {
      var n := if pos + |text| < buf.Length then |text| else buf.Length - 1 - pos;
      ghost var before := printed;
      for i := 0 to n
        invariant buf[..pos + i] == before + text[..i]
      {
        buf[pos + i] := text[i];
      }
      buf[pos + n] := NUL;
      assert buf[..pos + n] == before + text[..n];
    }

    /**
      One call of snprintf at the write position, whatever the room. A text that does not fit is cut, and `pos` still
      moves by its whole length; a call that starts past the end of the buffer computes a wrapped size and strays.
    */
    method Format(text: string)
      requires Valid()
      modifies this, buf
      ensures Valid() && overread == old(overread)
      ensures old(pos) <= buf.Length ==> printed == old(printed) + text && strayed == old(strayed)
      ensures old(pos) > buf.Length ==> strayed && printed == old(printed) && buf[..] == old(buf[..])
      ensures old(pos) < buf.Length && pos < buf.Length ==> buf[pos] == NUL
    {
      if pos > buf.Length {
        strayed := true;
        return;
      }
      if pos < buf.Length {
        Store(text);
        assert pos + |text| >= buf.Length ==>
            (printed + text)[..buf.Length - 1] == printed + text[..buf.Length - 1 - pos];
        assert pos + |text| < buf.Length ==> text[..|text|] == text;
      }
      assert pos == buf.Length ==> (printed + text)[..buf.Length - 1] == printed[..buf.Length - 1];
      pos, printed := pos + |text|, printed + text;
    }

    /**
      bb_json_add_string, bb_json_add_int and bb_json_add_bool: two calls, the second of which strays exactly if the
      key already ran past the end.
    */
    method Add(f: Field)
      requires Valid()
      modifies this, buf
      ensures Valid() && overread == old(overread)
      ensures old(pos) + |KeyText(f.key)| <= buf.Length ==>
                printed == old(printed) + FieldText(f) && strayed == old(strayed)
      ensures old(pos) + |KeyText(f.key)| > buf.Length ==> strayed && pos > buf.Length
      ensures pos < buf.Length ==> buf[pos] == NUL
    {
      FieldInParts(printed, f);
      Format("\"" + f.key + "\":");
      match f.value {
        case Str(s) => Format("\"" + s + "\",");
        case Int(n) => Format(IntText(n) + ",");
        case Bool(b) => Format((if b then "true" else "false") + ",");
      }
    }

    /**
      The closing brace overwrites a trailing comma; brace and terminator are written as far as there is room. Past
      the end of the buffer the test for the comma looks outside it.
    */
    method EndObject()
      requires Valid()
      modifies this, buf
      ensures Valid() && strayed == old(strayed)
      ensures overread == (old(overread) || old(pos) > buf.Length)
      ensures old(pos) < buf.Length ==> printed == Trimmed(old(printed)) + "}" && (pos < buf.Length ==> buf[pos] == NUL)
      ensures old(pos) >= buf.Length ==> printed == old(printed) && buf[..] == old(buf[..])
    {
      if pos > buf.Length {
        overread := true;
        return;
      }
      if pos > 1 && buf[pos - 1] == ',' { pos := pos - 1; }
      if pos < buf.Length {
        ghost var text := Trimmed(printed);
        assert buf[..pos] == text;
        buf[pos] := '}';
        pos, printed := pos + 1, text + "}";
        assert buf[..pos] == printed;
      }
      if pos < buf.Length { buf[pos] := NUL; }
    }

    /**
      A whole object into a fresh buffer of any size. Some call strays exactly if the last one starts past the end,
      the closing looks outside exactly if the fields do not fit, and a buffer with room for the object and its
      terminator holds just that in the end.
    */
    method WriteObject(fields: seq<Field>)
      requires Valid() && printed == [] && !strayed && !overread
      modifies this, buf
      ensures strayed <==> LastCall(fields) > buf.Length
      ensures overread <==> 1 + |Body(fields)| > buf.Length
      ensures |ObjectText(fields)| < buf.Length ==>
                pos == |ObjectText(fields)| && buf[..pos] == ObjectText(fields) && buf[pos] == NUL
    {
      StartObject();
      for i := 0 to |fields|
        invariant Valid() && !overread && (strayed <==> LastCall(fields[..i]) > buf.Length)
        invariant if strayed then pos > buf.Length else printed == "{" + Body(fields[..i])
        invariant LastCall(fields[..i]) <= 1 + |Body(fields[..i])|
      {
        assert fields[..i + 1] == fields[..i] + [fields[i]];
        BodyOfNext(fields[..i], fields[i]);
        Add(fields[i]);
        Associative("{", Body(fields[..i]), FieldText(fields[i]));
      }
      assert fields[..|fields|] == fields;
      ObjectLength(fields);
      EndObject();
    }
  }

  // ---- The reader's loops ----

  /** find_key: the pointer walk past blanks and colons after the search. */
  method FindKeyAt(json: string, key: string) returns (p: int)
    ensures p < 0 <==> FindKey(json, key).None?
    ensures p >= 0 ==> p <= |json| && FindKey(json, key) == Some(json[p..])
  {
    var search := Search(key);
    var i := Find(json, search);
    if i == |json| { return -1; }
    p := i + |search|;
    while p < |json| && (json[p] == ' ' || json[p] == ':')
      invariant i + |search| <= p <= |json|
      invariant SkipColons(json[p..]) == SkipColons(json[i + |search|..])
    {
      assert json[p..][1..] == json[p + 1..];
      p := p + 1;
    }
  }

  /** The character one turn of the copy loop stores, and where the next turn starts. */
  function NextChar(json: string, p: nat): (r: (char, nat))
    requires p < |json|
    ensures p < r.1 <= |json|
  {
    if json[p] == '\\' && p + 1 < |json| then
      (if json[p + 1] == 'n' then '\n' else if json[p + 1] == 't' then '\t' else json[p + 1], p + 2)
    else (json[p], p + 1)
  }

  lemma UnescapeStep(json: string, p: nat, room: nat)
    requires p < |json| && json[p] != QUOTE && room > 0
    ensures var (c, next) := NextChar(json, p);
            Unescape(json[p..], room) == [c] + Unescape(json[next..], room - 1)
  {
    var s := json[p..];
    assert s[1..] == json[p + 1..] && (|s| > 1 ==> s[1] == json[p + 1] && s[2..] == json[p + 2..]);
  }

  /** One unescaped character moves from the text still to read to the text already copied. */
  lemma CopyStep(json: string, p: nat, room: nat, done: string, whole: string)
    requires p < |json| && json[p] != QUOTE && room > 0 && done + Unescape(json[p..], room) == whole
    ensures var (c, next) := NextChar(json, p); (done + [c]) + Unescape(json[next..], room - 1) == whole
  {
    var (c, next) := NextChar(json, p);
    UnescapeStep(json, p, room);
    Associative(done, [c], Unescape(json[next..], room - 1));
  }

  lemma UnescapeEnds(json: string, p: nat, room: nat)
    requires p <= |json| && (p == |json| || json[p] == QUOTE || room == 0)
    ensures Unescape(json[p..], room) == []
  {
  }

  /** One turn of the copy loop. */
  method CopyChar(json: string, p: nat, buf: array<char>, i: nat) returns (next: nat)
    requires p < |json| && i < buf.Length
    modifies buf
    ensures NextChar(json, p) == (buf[i], next)
    ensures buf[..i + 1] == old(buf[..i]) + [buf[i]]
  {
    if json[p] == '\\' && p + 1 < |json| {
      next := p + 1;
      if json[next] == 'n' {
        buf[i] := '\n';
      } else if json[next] == 't' {
        buf[i] := '\t';
      } else {
        buf[i] := json[next];
      }
    } else {
      next := p;
      buf[i] := json[p];
    }
    next := next + 1;
  }

  /** The copy loop of bb_json_get_string. */
  method CopyString(json: string, from: nat, buf: array<char>) returns (i: nat)
    requires from <= |json| && buf.Length == STRING_ROOM + 1
    modifies buf
    ensures i <= STRING_ROOM && buf[..i] == Unescape(json[from..], STRING_ROOM)
  {
    var p := from;
    ghost var whole := Unescape(json[from..], STRING_ROOM);
    i := 0;
    while p < |json| && json[p] != QUOTE && i < STRING_ROOM
      invariant p <= |json| && i <= STRING_ROOM
      invariant buf[..i] + Unescape(json[p..], STRING_ROOM - i) == whole
      decreases |json| - p
    {
      CopyStep(json, p, STRING_ROOM - i, buf[..i], whole);
      p := CopyChar(json, p, buf, i);
      i := i + 1;
    }
    UnescapeEnds(json, p, STRING_ROOM - i);
    assert buf[..i] + [] == buf[..i];
  }

  /** bb_json_get_string, with its static 256-byte result buffer. */
  method GetStringInto(json: string, key: string, buf: array<char>) returns (r: Option<string>)
    requires buf.Length == STRING_ROOM + 1
    modifies buf
    ensures r == GetString(json, key)
    ensures r.Some? ==> |r.value| <= STRING_ROOM && buf[..|r.value|] == r.value && buf[|r.value|] == NUL
  {
    var p := FindKeyAt(json, key);
    if p < 0 || p == |json| || json[p] != QUOTE { return None; }
    assert json[p..][1..] == json[p + 1..];
    var i := CopyString(json, p + 1, buf);
    buf[i] := NUL;
    r := Some(buf[..i]);
  }
}
