/** What the getters of libbb/bb_json.c return for an object its writer printed. */
module JsonRoundTrip {
  import opened Common
  import opened JsonText

  /** Text without a quote or a backslash: what the writer, which escapes nothing, can print faithfully. */
  predicate Plain(s: string) { QUOTE !in s && '\\' !in s }

  /** A field whose key and string value, printed as they are, leave the quotes to the writer. */
  predicate PlainField(f: Field) { QUOTE !in f.key && (f.value.Str? ==> QUOTE !in f.value.s) }

  predicate PlainFields(fields: seq<Field>) { forall i :: 0 <= i < |fields| ==> PlainField(fields[i]) }

  /** The texts standing between consecutive quotes of a printed field, up to the next field's quote. */
  function Between(f: Field): seq<string> {
    if f.value.Str? then [f.key, ":", f.value.s, ","] else [f.key, ":" + ValueText(f.value) + ","]
  }

  function BetweenAll(fields: seq<Field>): seq<string> {
    if fields == [] then [] else Between(fields[0]) + BetweenAll(fields[1..])
  }

  // ---- The search lands on the key token ----

  lemma {:induction false} DigitsNoQuote(n: nat)
    ensures QUOTE !in Digits(n)
  {
    assert forall c :: c in Digits(n) ==> '0' <= c <= '9';
  }

  lemma NumberNoQuote(v: Value)
    requires !v.Str?
    ensures QUOTE !in ValueText(v)
  {
    if v.Int? { DigitsNoQuote(if v.n < 0 then -v.n else v.n); }
  }

  /** One piece between quotes, and what follows from its closing quote on. */
  lemma StripPiece(t: string, b: string, k: string)
    requires QUOTE !in k && QUOTE !in t
    ensures Clean("\"" + t + ("\"" + b), k) <==> t != k && Clean("\"" + b, k)
  {
    assert "\"" + t + ("\"" + b) == ("\"" + t) + "\"" + b;
    assert ("\"" + t) + "\"" == Quoted(t);
    CutAtQuote("\"" + t, b, k);
    OnePiece(t, k);
  }

  lemma FieldPieces(f: Field, b: string, k: string)
    requires PlainField(f) && QUOTE !in k
    ensures Clean(FieldText(f) + ("\"" + b), k) <==> k !in Between(f) && Clean("\"" + b, k)
  {
    if f.value.Str? {
      var afterValue := "," + ("\"" + b);
      var afterColon := f.value.s + ("\"" + afterValue);
      var afterKey := ":" + ("\"" + afterColon);
      assert FieldText(f) + ("\"" + b) == "\"" + f.key + ("\"" + afterKey);
      assert "\"" + afterKey == "\"" + ":" + ("\"" + afterColon);
      assert "\"" + afterColon == "\"" + f.value.s + ("\"" + afterValue);
      assert "\"" + afterValue == "\"" + "," + ("\"" + b);
      StripPiece(f.key, afterKey, k);
      StripPiece(":", afterColon, k);
      StripPiece(f.value.s, afterValue, k);
      StripPiece(",", b, k);
    } else {
      NumberNoQuote(f.value);
      var t := ":" + ValueText(f.value) + ",";
      assert FieldText(f) + ("\"" + b) == "\"" + f.key + ("\"" + (t + ("\"" + b)));
      assert "\"" + (t + ("\"" + b)) == "\"" + t + ("\"" + b);
      StripPiece(f.key, t + ("\"" + b), k);
      StripPiece(t, b, k);
    }
  }

  /** The quoted key occurs among the printed fields exactly when it is one of the texts between quotes. */
  lemma {:induction false} BodyClean(fields: seq<Field>, k: string)
    requires PlainFields(fields) && QUOTE !in k
    ensures Clean(Body(fields) + "\"", k) <==> k !in BetweenAll(fields)
    decreases |fields|
  {
    if fields == [] {
      assert Body(fields) + "\"" == "\"";
    } else {
      var rest := Body(fields[1..]) + "\"";
      BodyClean(fields[1..], k);
      assert rest[0] == QUOTE by { if fields[1..] != [] { assert Body(fields[1..])[0] == QUOTE; } }
      assert rest == "\"" + rest[1..];
      FieldPieces(fields[0], rest[1..], k);
      assert Body(fields) + "\"" == FieldText(fields[0]) + ("\"" + rest[1..]);
    }
  }

  lemma FirstDiffers(s: string, pat: string, i: nat)
    requires i < |s| && pat != [] && s[i] != pat[0]
    ensures !OccursAt(s, pat, i)
  {
    if i + |pat| <= |s| { assert s[i..i + |pat|][0] == s[i]; }
  }

  lemma BraceClean(k: string)
    ensures Clean("{\"", k)
  {
    var s, q := "{\"", Quoted(k);
    assert |q| >= 2 && q[0] == QUOTE;
    FirstDiffers(s, q, 0);
  }

  lemma BraceAndQuote(b: string, t: string)
    requires t == b + "\"" && t[0] == QUOTE
    ensures "{" + b + "\"" == "{" + "\"" + t[1..] && t == "\"" + t[1..] && "{" + "\"" == "{\""
  {
  }

  lemma FieldsStartWithQuote(fields: seq<Field>)
    ensures (Body(fields) + "\"")[0] == QUOTE
  {
    if fields != [] { assert Body(fields)[0] == QUOTE; }
  }

  lemma HeadClean(fields: seq<Field>, k: string)
    requires PlainFields(fields) && QUOTE !in k
    ensures Clean("{" + Body(fields) + "\"", k) <==> k !in BetweenAll(fields)
  {
    var t := Body(fields) + "\"";
    BodyClean(fields, k);
    FieldsStartWithQuote(fields);
    BraceAndQuote(Body(fields), t);
    CutAtQuote("{", t[1..], k);
    BraceClean(k);
  }

  /** In a text whose part before a key token ends at that token's quote, strstr stops there or earlier. */
  lemma TokenOccurs(pre: string, k: string, b: string)
    ensures OccursAt(pre + (Quoted(k) + b), Quoted(k), |pre|)
    ensures pre + (Quoted(k) + b) == pre + "\"" + (k + "\"" + b)
  {
    var doc := pre + (Quoted(k) + b);
    assert doc[|pre|..|pre| + |Quoted(k)|] == Quoted(k);
  }

  /** Occurrences that start before a quote are the same with and without what follows that quote. */
  lemma BeforeQuote(pre: string, b: string, k: string, i: nat)
    requires QUOTE !in k && i < |pre|
    ensures OccursAt(pre + "\"" + b, Quoted(k), i) <==> OccursAt(pre + "\"", Quoted(k), i)
  {
    var doc, left, n := pre + "\"" + b, pre + "\"", |k| + 2;
    if OccursAt(doc, Quoted(k), i) { EndsAtNextQuote(doc, k, i, |pre|); }
    if i + n <= |left| { assert left[i..i + n] == doc[i..i + n]; }
  }

  lemma SearchStops(pre: string, k: string, b: string)
    requires QUOTE !in k
    ensures var doc := pre + (Quoted(k) + b);
            && Find(doc, Quoted(k)) <= |pre|
            && (Find(doc, Quoted(k)) == |pre| <==> Clean(pre + "\"", k))
  {
    var i := Find(pre + (Quoted(k) + b), Quoted(k));
    TokenOccurs(pre, k, b);
    forall j: nat | j < |pre|
      ensures OccursAt(pre + (Quoted(k) + b), Quoted(k), j) <==> OccursAt(pre + "\"", Quoted(k), j)
    {
      BeforeQuote(pre, k + "\"" + b, k, j);
    }
  }

  // ---- The shape of a printed object around one field ----

  lemma {:induction false} BodySplit(before: seq<Field>, after: seq<Field>)
    ensures Body(before + after) == Body(before) + Body(after)
    decreases |before|
  {
    if before == [] {
      assert before + after == after;
    } else {
      assert (before + after)[1..] == before[1..] + after;
      BodySplit(before[1..], after);
    }
  }

  lemma {:induction false} BodyEndsInComma(fields: seq<Field>)
    requires fields != []
    ensures Body(fields) != [] && Body(fields)[|Body(fields)| - 1] == ','
    decreases |fields|
  {
    if |fields| > 1 {
      BodyEndsInComma(fields[1..]);
    } else {
      assert Body(fields) == FieldText(fields[0]) + [];
    }
  }

  /** Everything after the field's value: the comma before the next field, or the closing brace. */
  function Remainder(after: seq<Field>): string {
    if after == [] then "}" else "," + Body(after)[..|Body(after)| - 1] + "}"
  }

  lemma TrimShape(p: string, kv: string, b: string)
    requires p != [] && (b != [] ==> b[|b| - 1] == ',')
    ensures Trimmed(p + (kv + "," + b)) + "}" == p + (kv + if b == [] then "}" else "," + b[..|b| - 1] + "}")
  {
    var s := p + (kv + "," + b);
    if b == [] {
      assert s == (p + kv) + ",";
      assert Trimmed(s) == p + kv;
    } else {
      assert s[|s| - 1] == b[|b| - 1];
      assert Trimmed(s) == p + (kv + "," + b[..|b| - 1]);
    }
  }

  lemma Regroup(key: string, v: string, r: string)
    ensures (KeyText(key) + v) + r == Quoted(key) + (":" + (v + r))
  {
  }

  lemma BodyAround(before: seq<Field>, f: Field, after: seq<Field>)
    ensures "{" + Body(before + [f] + after) ==
            ("{" + Body(before)) + ((KeyText(f.key) + ValueText(f.value)) + "," + Body(after))
  {
    assert before + [f] + after == before + ([f] + after) && ([f] + after)[1..] == after;
    BodySplit(before, [f] + after);
  }

  lemma AroundText(full: string, pre: string, key: string, v: string, b: string, r: string)
    requires pre != [] && (b != [] ==> b[|b| - 1] == ',')
    requires full == pre + ((KeyText(key) + v) + "," + b)
    requires r == if b == [] then "}" else "," + b[..|b| - 1] + "}"
    ensures Trimmed(full) + "}" == pre + (Quoted(key) + (":" + (v + r)))
  {
    TrimShape(pre, KeyText(key) + v, b);
    Regroup(key, v, r);
  }

  lemma RemainderText(after: seq<Field>)
    ensures after == [] <==> Body(after) == []
    ensures Body(after) != [] ==> Body(after)[|Body(after)| - 1] == ','
    ensures Remainder(after) == if Body(after) == [] then "}" else "," + Body(after)[..|Body(after)| - 1] + "}"
  {
    if after != [] { BodyEndsInComma(after); }
  }

  /** A printed object, cut before the quoted key of a field, before its value, and after it. */
  lemma ObjectAround(before: seq<Field>, f: Field, after: seq<Field>)
    ensures after != [] ==> Body(after) != []
    ensures ObjectText(before + [f] + after) ==
            ("{" + Body(before)) + (Quoted(f.key) + (":" + (ValueText(f.value) + Remainder(after))))
  {
    RemainderText(after);
    BodyAround(before, f, after);
    var whole, head := "{" + Body(before + [f] + after), "{" + Body(before);
    AroundText(whole, head, f.key, ValueText(f.value), Body(after), Remainder(after));
  }

  /**
    The substring search finds the key token itself exactly when no earlier text between quotes, be it a
    key, a string value, or the punctuation in between, equals the key; otherwise it stops before it.
  */
  lemma SearchLandsOnKey(before: seq<Field>, f: Field, after: seq<Field>)
    requires PlainFields(before) && QUOTE !in f.key
    ensures var i, token := Find(ObjectText(before + [f] + after), Quoted(f.key)), |"{" + Body(before)|;
            i <= token && (i == token <==> f.key !in BetweenAll(before))
  {
    ObjectAround(before, f, after);
    HeadClean(before, f.key);
    SearchStops("{" + Body(before), f.key, ":" + (ValueText(f.value) + Remainder(after)));
  }

  /** Keys that begin with neither a colon nor a comma can only be mistaken for a key or a string value. */
  lemma {:induction false} OrdinaryKey(fields: seq<Field>, k: string)
    requires k == [] || (k[0] != ':' && k[0] != ',')
    ensures k in BetweenAll(fields) <==>
            exists i :: 0 <= i < |fields| && (fields[i].key == k || fields[i].value == Str(k))
    decreases |fields|
  {
    if fields != [] {
      var rest := fields[1..];
      OrdinaryKey(rest, k);
      assert k in Between(fields[0]) <==> fields[0].key == k || fields[0].value == Str(k);
      if exists i :: 0 <= i < |rest| && (rest[i].key == k || rest[i].value == Str(k)) {
        var i :| 0 <= i < |rest| && (rest[i].key == k || rest[i].value == Str(k));
        assert fields[i + 1] == rest[i];
      }
      if exists i :: 0 < i < |fields| && (fields[i].key == k || fields[i].value == Str(k)) {
        var i :| 0 < i < |fields| && (fields[i].key == k || fields[i].value == Str(k));
        assert rest[i - 1] == fields[i];
      }
    }
  }

  // ---- Values read back ----

  lemma {:induction false} UnescapePlain(s: string, rest: string, room: nat)
    requires Plain(s) && |s| <= room
    ensures Unescape(s + "\"" + rest, room) == s
    decreases |s|
  {
    if s != [] {
      assert (s + "\"" + rest)[0] == s[0] && s[0] in s;
      assert (s + "\"" + rest)[1..] == s[1..] + "\"" + rest;
      UnescapePlain(s[1..], rest, room - 1);
    }
  }

  lemma {:induction false} DigitsValueAppend(a: string, b: string, acc: nat)
    requires forall c :: c in a ==> IsDigit(c)
    ensures DigitsValue(a + b, acc) == DigitsValue(b, DigitsValue(a, acc))
    decreases |a|
  {
    if a == [] {
      assert a + b == b;
    } else {
      assert (a + b)[1..] == a[1..] + b && a[0] in a;
      DigitsValueAppend(a[1..], b, 10 * acc + (a[0] - '0') as nat);
    }
  }

  lemma {:induction false} DigitsRoundTrip(n: nat)
    ensures DigitsValue(Digits(n), 0) == n
    decreases n
  {
    var last := ['0' + (n % 10) as char];
    assert DigitsValue(last, 0) == n % 10;
    if n >= 10 {
      DigitsRoundTrip(n / 10);
      DigitsValueAppend(Digits(n / 10), last, 0);
      assert last[1..] == [];
    }
  }

  lemma AtoiRoundTrip(n: int, rest: string)
    requires rest != [] && !IsDigit(rest[0])
    ensures Atoi(IntText(n) + rest) == n
  {
    var d := Digits(if n < 0 then -n else n);
    assert d[0] in d;
    DigitsRoundTrip(if n < 0 then -n else n);
    DigitsValueAppend(d, rest, 0);
    if n < 0 {
      assert (IntText(n) + rest)[1..] == d + rest;
    } else {
      assert IntText(n) + rest == d + rest && (d + rest)[0] == d[0];
    }
  }

  lemma ValueStart(v: Value)
    ensures ValueText(v) != [] && ValueText(v)[0] != ' ' && ValueText(v)[0] != ':'
  {
    if v.Int? { assert Digits(if v.n < 0 then -v.n else v.n)[0] in Digits(if v.n < 0 then -v.n else v.n); }
  }

  lemma DropTwo(a: string, b: string, c: string)
    ensures (a + (b + c))[|a| + |b|..] == c
  {
  }

  lemma ColonSkipped(v: Value, rest: string)
    ensures SkipColons(":" + (ValueText(v) + rest)) == ValueText(v) + rest
  {
    var value := ValueText(v) + rest;
    ValueStart(v);
    assert (":" + value)[1..] == value && value[0] == ValueText(v)[0];
  }

  lemma FoundAfter(pre: string, q: string, value: string, v: Value, rest: string)
    requires value == ValueText(v) + rest
    ensures After(pre + (q + (":" + value)), q, |pre|) == Some(value)
  {
    DropTwo(pre, q, ":" + value);
    ColonSkipped(v, rest);
  }

  lemma SearchIsQuoted(key: string)
    requires |key| <= 125
    ensures Search(key) == Quoted(key)
  {
  }

  /** What find_key hands to the getters. */
  lemma KeyFound(before: seq<Field>, f: Field, after: seq<Field>)
    requires PlainFields(before) && QUOTE !in f.key && |f.key| <= 125 && f.key !in BetweenAll(before)
    ensures FindKey(ObjectText(before + [f] + after), f.key) == Some(ValueText(f.value) + Remainder(after))
  {
    var pre, q := "{" + Body(before), Quoted(f.key);
    var value := ValueText(f.value) + Remainder(after);
    SearchIsQuoted(f.key);
    SearchLandsOnKey(before, f, after);
    ObjectAround(before, f, after);
    FoundAfter(pre, q, value, f.value, Remainder(after));
  }

  /** Within the ranges of the C types and of the reader's buffer. */
  predicate Readable(v: Value) {
    match v
    case Str(s) => Plain(s) && |s| <= STRING_ROOM
    case Int(n) => -0x8000_0000 <= n < 0x8000_0000
    case Bool(_) => true
  }

  lemma StringReadsBack(s: string, rest: string)
    requires Plain(s) && |s| <= STRING_ROOM
    ensures var value := ValueText(Str(s)) + rest;
            value != [] && value[0] == QUOTE && Unescape(value[1..], STRING_ROOM) == s
  {
    assert (ValueText(Str(s)) + rest)[1..] == s + "\"" + rest;
    UnescapePlain(s, rest, STRING_ROOM);
  }

  lemma BoolReadsBack(b: bool, rest: string)
    ensures var value := ValueText(Bool(b)) + rest;
            StartsWith(value, "true") == b && (!b ==> StartsWith(value, "false"))
  {
    var value := ValueText(Bool(b)) + rest;
    if b { assert value[..4] == "true"; } else { assert value[..5] == "false" && value[..4][0] == 'f'; }
  }

  /**
    The getters return what the writer added, for the first field with that key in any printed object,
    unless the key also equals one of the earlier texts between quotes.
  */
  lemma GettersReturnWhatWasAdded(before: seq<Field>, f: Field, after: seq<Field>, fallback: int)
    requires PlainFields(before) && QUOTE !in f.key && |f.key| <= 125 && f.key !in BetweenAll(before)
    requires Readable(f.value)
    ensures var doc := ObjectText(before + [f] + after);
            match f.value
            case Str(s) => GetString(doc, f.key) == Some(s)
            case Int(n) => GetInt(doc, f.key, fallback) == n
            case Bool(b) => GetBool(doc, f.key, fallback) == if b then 1 else 0
  {
    KeyFound(before, f, after);
    match f.value
    case Str(s) => StringReadsBack(s, Remainder(after));
    case Int(n) => AtoiRoundTrip(n, Remainder(after));
    case Bool(b) => BoolReadsBack(b, Remainder(after));
  }

  lemma {:induction false} InBetween(fields: seq<Field>, k: string)
    requires exists i :: 0 <= i < |fields| && fields[i].value == Str(k)
    ensures k in BetweenAll(fields)
    decreases |fields|
  {
    var i :| 0 <= i < |fields| && fields[i].value == Str(k);
    if i > 0 {
      assert fields[1..][i - 1].value == Str(k);
      InBetween(fields[1..], k);
    } else {
      assert Between(fields[0])[2] == k;
    }
  }

  /**
    A key that equals an earlier string value is not found: the search stops inside the earlier field, so
    what the getter reads is the text after that value.
  */
  lemma ValueMistakenForKey(before: seq<Field>, f: Field, after: seq<Field>)
    requires PlainFields(before) && QUOTE !in f.key
    requires exists i :: 0 <= i < |before| && before[i].value == Str(f.key)
    ensures Find(ObjectText(before + [f] + after), Quoted(f.key)) < |"{" + Body(before)|
  {
    InBetween(before, f.key);
    SearchLandsOnKey(before, f, after);
  }
}
