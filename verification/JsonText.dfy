/** The text of printed objects and the substring search that reads them back (libbb/bb_json.c). */
module JsonText {
  import opened Common

  const QUOTE: char := '"'

  datatype Value = Str(s: string) | Int(n: int) | Bool(b: bool)
  datatype Field = Field(key: string, value: Value)

  // ---- Writer ----

  function Digits(n: nat): (d: string)
    ensures |d| >= 1 && forall c :: c in d ==> '0' <= c <= '9'
    decreases n
  {
    var last := ['0' + (n % 10) as char];
    if n < 10 then last else Digits(n / 10) + last
  }

  /** The %d conversion. */
  function IntText(n: int): string { if n < 0 then "-" + Digits(-n) else Digits(n) }

  function ValueText(v: Value): string {
    match v
    case Str(s) => "\"" + s + "\""
    case Int(n) => IntText(n)
    case Bool(b) => if b then "true" else "false"
  }

  function KeyText(key: string): string { "\"" + key + "\":" }

  function FieldText(f: Field): string { KeyText(f.key) + ValueText(f.value) + "," }

  function Body(fields: seq<Field>): string {
    if fields == [] then [] else FieldText(fields[0]) + Body(fields[1..])
  }

  /** The comma left by the last field is trimmed. */
  function Trimmed(s: string): string { if |s| > 1 && s[|s| - 1] == ',' then s[..|s| - 1] else s }

  function ObjectText(fields: seq<Field>): string { Trimmed("{" + Body(fields)) + "}" }

  // ---- Reader ----

  predicate OccursAt(s: string, pat: string, i: nat) {
    i + |pat| <= |s| && s[i..i + |pat|] == pat
  }

  /** strstr: the first occurrence, or the length of s if there is none. */
  function Find(s: string, pat: string): (i: nat)
    ensures i <= |s|
    ensures forall k: nat :: k < i ==> !OccursAt(s, pat, k)
    ensures i < |s| ==> OccursAt(s, pat, i)
  {
    if |s| < |pat| || s == [] then |s|
    else if s[..|pat|] == pat then 0
    else
      var r := Find(s[1..], pat);
      assert forall k: nat :: 1 <= k <= r ==> OccursAt(s, pat, k) == OccursAt(s[1..], pat, k - 1);
      1 + r
  }

  const SEARCH_SIZE: nat := 128

  /** The search text, cut to its 128-byte buffer. */
  function Search(key: string): string {
    var s := "\"" + key + "\"";
    if |s| < SEARCH_SIZE then s else s[..SEARCH_SIZE - 1]
  }

  function SkipColons(s: string): string {
    if s != [] && (s[0] == ' ' || s[0] == ':') then SkipColons(s[1..]) else s
  }

  /** The text after an occurrence at i, if i is one. */
  function After(json: string, pat: string, i: nat): Option<string> {
    if i + |pat| > |json| || i == |json| then None else Some(SkipColons(json[i + |pat|..]))
  }

  function FindKey(json: string, key: string): Option<string> { After(json, Search(key), Find(json, Search(key))) }

  /** The copy loop of bb_json_get_string: up to `room` characters, unescaping as it goes. */
  function Unescape(s: string, room: nat): string
    decreases |s|
  {
    if s == [] || s[0] == QUOTE || room == 0 then []
    else if s[0] == '\\' && |s| > 1 then
      [if s[1] == 'n' then '\n' else if s[1] == 't' then '\t' else s[1]] + Unescape(s[2..], room - 1)
    else [s[0]] + Unescape(s[1..], room - 1)
  }

  const STRING_ROOM: nat := 255

  function GetString(json: string, key: string): Option<string> {
    match FindKey(json, key)
    case None => None
    case Some(rest) => if rest != [] && rest[0] == QUOTE then Some(Unescape(rest[1..], STRING_ROOM)) else None
  }

  predicate IsDigit(c: char) { '0' <= c <= '9' }

  function DigitsValue(s: string, acc: nat): nat
    decreases |s|
  {
    if s == [] || !IsDigit(s[0]) then acc else DigitsValue(s[1..], 10 * acc + (s[0] - '0') as nat)
  }

  /** atoi on texts whose value fits an int. */
  function Atoi(s: string): int
    decreases |s|
  {
    if s == [] then 0
    else if IsSpace(s[0]) then Atoi(s[1..])
    else if s[0] == '-' then -(DigitsValue(s[1..], 0) as int)
    else if s[0] == '+' then DigitsValue(s[1..], 0)
    else DigitsValue(s, 0)
  }

  function GetInt(json: string, key: string, fallback: int): int {
    match FindKey(json, key) case None => fallback case Some(rest) => Atoi(rest)
  }

  function GetBool(json: string, key: string, fallback: int): int {
    match FindKey(json, key)
    case None => fallback
    case Some(rest) => if StartsWith(rest, "true") then 1 else if StartsWith(rest, "false") then 0 else fallback
  }

  // ---- Where a quoted key can occur ----

  function Quoted(k: string): string { "\"" + k + "\"" }

  predicate Clean(s: string, k: string) { forall i: nat :: i < |s| ==> !OccursAt(s, Quoted(k), i) }

  /** An occurrence is two quotes and, strictly between them, the key. */
  lemma OccurrenceShape(s: string, k: string, i: nat)
    requires OccursAt(s, Quoted(k), i)
    ensures s[i] == QUOTE && s[i + |k| + 1] == QUOTE && s[i + 1..i + 1 + |k|] == k
    ensures forall j :: i < j <= i + |k| ==> s[j] == k[j - i - 1]
  {
    var q := Quoted(k);
    assert forall j :: 0 <= j < |q| ==> s[i + j] == s[i..i + |q|][j] == q[j];
    assert forall j :: 1 <= j <= |k| ==> q[j] == k[j - 1];
    assert s[i + |k| + 1] == q[|k| + 1];
    forall j | i < j <= i + |k| ensures s[j] == k[j - i - 1] { assert s[i + (j - i)] == q[j - i]; }
  }

  /** So it ends at the first quote after its start. */
  lemma EndsAtNextQuote(s: string, k: string, i: nat, q: nat)
    requires OccursAt(s, Quoted(k), i) && QUOTE !in k && i < q < |s| && s[q] == QUOTE
    ensures i + |k| + 1 <= q
  {
    OccurrenceShape(s, k, i);
    assert forall j :: i < j <= i + |k| ==> s[j] in k;
  }

  lemma OccursOnLeft(a: string, b: string, pat: string, i: nat)
    requires i + |pat| <= |a| + 1
    ensures OccursAt(a + "\"" + b, pat, i) <==> OccursAt(a + "\"", pat, i)
  {
    assert (a + "\"" + b)[i..i + |pat|] == (a + "\"")[i..i + |pat|];
  }

  lemma OccursOnRight(a: string, b: string, pat: string, i: nat)
    ensures OccursAt(a + "\"" + b, pat, |a| + i) <==> OccursAt("\"" + b, pat, i)
  {
    var s, right := a + "\"" + b, "\"" + b;
    assert s == a + right;
    assert i + |pat| <= |right| ==> s[|a| + i..|a| + i + |pat|] == right[i..i + |pat|];
  }

  /** A quoted key cannot straddle a quote: an occurrence is left of it or right of it. */
  lemma OccursOnOneSide(a: string, b: string, k: string, i: nat)
    requires QUOTE !in k && OccursAt(a + "\"" + b, Quoted(k), i)
    ensures if i < |a| then OccursAt(a + "\"", Quoted(k), i) else OccursAt("\"" + b, Quoted(k), i - |a|)
  {
    if i < |a| {
      EndsAtNextQuote(a + "\"" + b, k, i, |a|);
      OccursOnLeft(a, b, Quoted(k), i);
    } else {
      OccursOnRight(a, b, Quoted(k), i - |a|);
    }
  }

  lemma CutAtQuote(a: string, b: string, k: string)
    requires QUOTE !in k
    ensures Clean(a + "\"" + b, k) <==> Clean(a + "\"", k) && Clean("\"" + b, k)
  {
    var q := Quoted(k);
    forall i: nat | OccursAt(a + "\"" + b, q, i)
      ensures OccursAt(a + "\"", q, i) || (|a| <= i && OccursAt("\"" + b, q, i - |a|))
    {
      OccursOnOneSide(a, b, k, i);
    }
    forall i: nat | OccursAt(a + "\"", q, i) ensures OccursAt(a + "\"" + b, q, i) { OccursOnLeft(a, b, q, i); }
    forall i: nat | OccursAt("\"" + b, q, i) ensures OccursAt(a + "\"" + b, q, |a| + i) { OccursOnRight(a, b, q, i); }
  }

  /** Between two quotes with no third one the only occurrence is the whole. */
  lemma OnePiece(t: string, k: string)
    requires QUOTE !in k && QUOTE !in t
    ensures Clean(Quoted(t), k) <==> t != k
  {
    var s := Quoted(t);
    assert forall j :: 1 <= j <= |t| ==> s[j] == t[j - 1] && t[j - 1] in t;
    assert s[1..|t| + 1] == t;
    forall i: nat | OccursAt(s, Quoted(k), i) ensures t == k { OccurrenceShape(s, k, i); }
    if t == k { assert OccursAt(s, Quoted(k), 0); }
  }
}
