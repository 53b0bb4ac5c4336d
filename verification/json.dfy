/** JSON values as the Python code sees them after `json.loads`, and a model
    of `json.dumps` with its default settings (`ensure_ascii`, separators
    `", "` and `": "`). */
module JsonValues {
  import opened Text

  /** A decoded JSON document. Objects keep their members in insertion
      order, as Python dicts do; numbers are integers. */
  datatype Json =
    | JNull
    | JBool(b: bool)
    | JNum(n: int)
    | JStr(s: string)
    | JArr(items: seq<Json>)
    | JObj(members: seq<Member>)

  datatype Member = Member(key: string, value: Json)

  /** `obj.get(k)`: the value under key `k`, if any. */
  function Get(ms: seq<Member>, k: string): (r: Option<Json>)
    ensures r.Some? <==> exists i :: 0 <= i < |ms| && ms[i].key == k
  {
    if |ms| == 0 then None
    else if ms[0].key == k then Some(ms[0].value)
    else Get(ms[1..], k)
  }

  /** Looking up in a member list that starts with `m`. */
  lemma GetCons(m: Member, rest: seq<Member>)
    ensures forall k :: Get([m] + rest, k) == if m.key == k then Some(m.value) else Get(rest, k)
  {
    assert ([m] + rest)[1..] == rest;
  }

  /** `k in obj`. */
  predicate HasKey(ms: seq<Member>, k: string)
  {
    Get(ms, k).Some?
  }

  function Keys(ms: seq<Member>): (r: seq<string>)
    ensures |r| == |ms|
    ensures forall i :: 0 <= i < |ms| ==> r[i] == ms[i].key
  {
    if |ms| == 0 then [] else [ms[0].key] + Keys(ms[1..])
  }

  /** Every object in the document has distinct keys, as a Python dict does. */
  predicate WellFormed(j: Json)
  {
    match j
    case JArr(items) => WellFormedItems(items)
    case JObj(ms) => DistinctKeys(ms) && WellFormedMembers(ms)
    case _ => true
  }

  predicate WellFormedItems(xs: seq<Json>)
  {
    |xs| == 0 || (WellFormed(xs[0]) && WellFormedItems(xs[1..]))
  }

  predicate WellFormedMembers(ms: seq<Member>)
  {
    |ms| == 0 || (WellFormed(ms[0].value) && WellFormedMembers(ms[1..]))
  }

  predicate DistinctKeys(ms: seq<Member>)
  {
    forall i, j :: 0 <= i < j < |ms| ==> ms[i].key != ms[j].key
  }

  /** A key put in front of distinct keys it differs from keeps them distinct. */
  lemma DistinctCons(m: Member, rest: seq<Member>)
    requires DistinctKeys(rest)
    requires forall i :: 0 <= i < |rest| ==> rest[i].key != m.key
    ensures DistinctKeys([m] + rest)
  {
    var ms := [m] + rest;
    forall i, j | 0 <= i < j < |ms|
      ensures ms[i].key != ms[j].key
    {
      assert ms[j] == rest[j - 1];
      if i > 0 {
        assert ms[i] == rest[i - 1];
      }
    }
  }

  /** Python truthiness: `None`, `False`, `0`, `''`, `[]` and `{}` are false. */
  predicate Truthy(j: Json)
  {
    match j
    case JNull => false
    case JBool(b) => b
    case JNum(n) => n != 0
    case JStr(s) => s != ""
    case JArr(xs) => xs != []
    case JObj(ms) => ms != []
  }

  /** `for x in j`: a list yields its items, a string its characters, a
      dict its keys; `None` stands for the TypeError of anything else. */
  function Iterate(j: Json): (r: Option<seq<Json>>)
    ensures r.Some? <==> (j.JArr? || j.JStr? || j.JObj?)
    ensures j.JArr? ==> r == Some(j.items)
  {
    match j
    case JArr(xs) => Some(xs)
    case JStr(s) => Some(seq(|s|, i requires 0 <= i < |s| => JStr([s[i]])))
    case JObj(ms) => Some(seq(|ms|, i requires 0 <= i < |ms| => JStr(ms[i].key)))
    case _ => None
  }

  // ---------------------------------------------------------------------
  // json.dumps

  function Dumps(j: Json): string
  {
    match j
    case JNull => "null"
    case JBool(b) => if b then "true" else "false"
    case JNum(n) => IntToDecimal(n)
    case JStr(s) => QuoteString(s)
    case JArr(xs) => "[" + Join(", ", DumpsItems(xs)) + "]"
    case JObj(ms) => "{" + Join(", ", DumpsMembers(ms)) + "}"
  }

  function DumpsItems(xs: seq<Json>): (r: seq<string>)
    ensures |r| == |xs|
  {
    if |xs| == 0 then [] else [Dumps(xs[0])] + DumpsItems(xs[1..])
  }

  function DumpsMembers(ms: seq<Member>): (r: seq<string>)
    ensures |r| == |ms|
  {
    if |ms| == 0 then []
    else [QuoteString(ms[0].key) + ": " + Dumps(ms[0].value)] + DumpsMembers(ms[1..])
  }

  /** A one-member object serializes as `{"key": value}`. */
  lemma DumpsSingleMember(k: string, v: Json)
    ensures Dumps(JObj([Member(k, v)])) == "{" + QuoteString(k) + ": " + Dumps(v) + "}"
  {
    var ms := [Member(k, v)];
    assert ms[1..] == [];
    assert DumpsMembers(ms) == [QuoteString(k) + ": " + Dumps(v)];
  }

  /** A one-item list serializes as `[item]`. */
  lemma DumpsSingleItem(v: Json)
    ensures Dumps(JArr([v])) == "[" + Dumps(v) + "]"
  {
    var xs := [v];
    assert xs[1..] == [];
    assert DumpsItems(xs) == [Dumps(v)];
  }

  /** A JSON string literal: the text between double quotes, escaped. */
  function QuoteString(s: string): string
  {
    "\"" + EscapeJson(s) + "\""
  }

  function EscapeJson(s: string): string
  {
    if |s| == 0 then "" else EscapeJsonChar(s[0]) + EscapeJson(s[1..])
  }

  /** The escape `json.dumps` writes for one character: short escapes for
      quote, backslash and the usual controls, `\uXXXX` (a surrogate pair
      above the Basic Multilingual Plane) outside printable ASCII. */
  function EscapeJsonChar(c: char): string
  {
    var n := c as int;
    if c == '"' then "\\\""
    else if c == '\\' then "\\\\"
    else if c == '\n' then "\\n"
    else if c == '\r' then "\\r"
    else if c == '\t' then "\\t"
    else if n == 8 then "\\b"
    else if n == 12 then "\\f"
    else if 0x20 <= n <= 0x7E then [c]
    else if n < 0x1_0000 then "\\u" + Hex4(n)
    else
      var v := n - 0x1_0000;
      "\\u" + Hex4(0xD800 + v / 0x400) + "\\u" + Hex4(0xDC00 + v % 0x400)
  }

  function HexDigit(d: nat): char
    requires d < 16
  {
    "0123456789abcdef"[d]
  }

  function Hex4(n: nat): (r: string)
    requires n < 0x1_0000
    ensures |r| == 4
  {
    [HexDigit(n / 0x1000), HexDigit(n / 0x100 % 16), HexDigit(n / 16 % 16), HexDigit(n % 16)]
  }
}
