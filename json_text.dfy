/** The part of `JSON.stringify` the log records go through: string quoting
    (QuoteJSONString of ECMA-262) and the serialisation of a flat object whose
    properties are strings, booleans, integers or `undefined`. */
module JsonText {
  import opened Wrappers
  import Decimal

  /** A lowercase hexadecimal digit, as QuoteJSONString writes them. */
  function HexDigit(d: nat): (c: char)
    requires d < 16
    ensures '0' <= c <= '9' || 'a' <= c <= 'f'
  {
    if d < 10 then ('0' as int + d) as char else ('a' as int + d - 10) as char
  }

  /** How QuoteJSONString writes one character inside a string literal. */
  function EscapeChar(c: char): (e: string)
    ensures 1 <= |e| <= 6
  {
    var n := c as int;
    if c == '"' then "\\\""
    else if c == '\\' then "\\\\"
    else if n == 0x08 then "\\b"
    else if n == 0x09 then "\\t"
    else if n == 0x0A then "\\n"
    else if n == 0x0C then "\\f"
    else if n == 0x0D then "\\r"
    else if n < 0x20 then "\\u00" + [HexDigit(n / 16), HexDigit(n % 16)]
    else [c]
  }

  /** The text between the quotes of `JSON.stringify(s)`: every character
      becomes one to six characters. */
  function Escape(s: string): (e: string)
    ensures |s| <= |e| <= 6 * |s|
    decreases |s|
  {
    if s == [] then [] else EscapeChar(s[0]) + Escape(s[1..])
  }

  /** `JSON.stringify(s)` for a string `s`: a literal that JSON.parse reads
      back as `s`. */
  function Quote(s: string): (q: string)
    ensures 2 <= |q| && q[0] == '"' && q[|q| - 1] == '"'
    ensures Unescape(q[1..|q| - 1]) == Some(s)
  {
    var q := "\"" + Escape(s) + "\"";
    EscapeRoundTrip(s);
    assert q[1..|q| - 1] == Escape(s);
    q
  }

  /** A character that `Escape` leaves as it is. */
  predicate IsPlain(c: char) {
    c != '"' && c != '\\' && c as int >= 0x20
  }

  function HexValue(c: char): (r: Option<nat>)
    ensures r.Some? ==> r.value < 16
  {
    if '0' <= c <= '9' then Some(c as int - '0' as int)
    else if 'a' <= c <= 'f' then Some(c as int - 'a' as int + 10)
    else if 'A' <= c <= 'F' then Some(c as int - 'A' as int + 10)
    else None
  }

  /** Reads one character of a JSON string body as JSON.parse does, with the
      number of text characters it took; `None` on text JSON.parse rejects. */
  function UnescapeUnit(t: string): (r: Option<(char, nat)>)
    requires t != []
    ensures r.Some? ==> 1 <= r.value.1 <= |t|
  {
    if t[0] == '"' || (t[0] as int) < 0x20 then None
    else if t[0] != '\\' then Some((t[0], 1))
    else if |t| < 2 then None
    else if t[1] == '"' then Some(('"', 2))
    else if t[1] == '\\' then Some(('\\', 2))
    else if t[1] == '/' then Some(('/', 2))
    else if t[1] == 'b' then Some((0x08 as char, 2))
    else if t[1] == 't' then Some((0x09 as char, 2))
    else if t[1] == 'n' then Some((0x0A as char, 2))
    else if t[1] == 'f' then Some((0x0C as char, 2))
    else if t[1] == 'r' then Some((0x0D as char, 2))
    else if t[1] == 'u' && |t| >= 6 then
      match (HexValue(t[2]), HexValue(t[3]), HexValue(t[4]), HexValue(t[5]))
      case (Some(a), Some(b), Some(c), Some(d)) =>
        var v := 4096 * a + 256 * b + 16 * c + d;
        if 0xD800 <= v < 0xE000 then None else Some((v as char, 6))
      case _ => None
    else None
  }

  /** JSON.parse of a string body (the text between the quotes). */
  function Unescape(t: string): Option<string>
    decreases |t|
  {
    if t == [] then Some([])
    else match UnescapeUnit(t)
      case None => None
      case Some((c, n)) =>
        match Unescape(t[n..])
        case None => None
        case Some(rest) => Some([c] + rest)
  }

  lemma UnescapeEscapeChar(c: char, rest: string)
    ensures UnescapeUnit(EscapeChar(c) + rest) == Some((c, |EscapeChar(c)|))
  {
    var n := c as int;
    if n < 0x20 && n != 0x08 && n != 0x09 && n != 0x0A && n != 0x0C && n != 0x0D {
      var t := EscapeChar(c) + rest;
      assert t[2] == '0' && t[3] == '0';
      assert HexValue(t[4]) == Some(n / 16);
      assert HexValue(t[5]) == Some(n % 16);
    }
  }

  /** What JSON.stringify writes into a string literal JSON.parse reads back unchanged. */
  lemma {:induction false} EscapeRoundTrip(s: string)
    ensures Unescape(Escape(s)) == Some(s)
    decreases |s|
  {
    if s != [] {
      EscapeRoundTrip(s[1..]);
      UnescapeCons(s[0], Escape(s[1..]), s[1..]);
      assert [s[0]] + s[1..] == s;
    }
  }

  /** Reading an escaped character in front of a readable body. */
  lemma UnescapeCons(c: char, t: string, r: string)
    requires Unescape(t) == Some(r)
    ensures Unescape(EscapeChar(c) + t) == Some([c] + r)
  {
    var e := EscapeChar(c);
    UnescapeEscapeChar(c, t);
    assert (e + t)[|e|..] == t;
  }

  /** Escaping works character by character, so it distributes over concatenation. */
  lemma {:induction false} EscapeAppend(a: string, b: string)
    ensures Escape(a + b) == Escape(a) + Escape(b)
    decreases |a|
  {
    if a != [] {
      assert (a + b)[0] == a[0] && (a + b)[1..] == a[1..] + b;
      EscapeAppend(a[1..], b);
      Associate(EscapeChar(a[0]), Escape(a[1..]), Escape(b));
    } else {
      assert a + b == b;
    }
  }

  lemma Associate(x: string, y: string, z: string)
    ensures x + (y + z) == x + y + z
  {
  }

  /** Only a double quote is escaped into text holding a double quote. */
  lemma EscapeCharQuoteFree(c: char)
    requires c != '"'
    ensures '"' !in EscapeChar(c)
  {
    var n := c as int;
    if n < 0x20 && n != 0x08 && n != 0x09 && n != 0x0A && n != 0x0C && n != 0x0D {
      var h1, h2 := HexDigit(n / 16), HexDigit(n % 16);
      assert EscapeChar(c) == "\\u00" + [h1, h2];
      assert h1 != '"' && h2 != '"';
    }
  }

  /** A string without double quotes still has none after escaping. */
  lemma {:induction false} EscapeQuoteFree(s: string)
    requires '"' !in s
    ensures '"' !in Escape(s)
    decreases |s|
  {
    if s != [] {
      assert s[0] in s;
      assert forall c :: c in s[1..] ==> c in s;
      EscapeCharQuoteFree(s[0]);
      EscapeQuoteFree(s[1..]);
      assert Escape(s) == EscapeChar(s[0]) + Escape(s[1..]);
    }
  }

  /** A string of plain characters is its own escape. */
  lemma {:induction false} EscapePlain(s: string)
    requires forall i :: 0 <= i < |s| ==> IsPlain(s[i])
    ensures Escape(s) == s
    decreases |s|
  {
    if s != [] {
      EscapePlain(s[1..]);
      assert [s[0]] + s[1..] == s;
    }
  }

  /** A property value of a log record; `Omitted` is a property whose value is
      `undefined`, which JSON.stringify leaves out of the object. */
  datatype Field = Text(text: string) | Flag(flag: bool) | Integer(number: int) | Omitted

  /** An object literal: its properties in insertion order. */
  type Record = seq<(string, Field)>

  /** `undefined` (the JSON.stringify of an undefined value) becomes `Omitted`. */
  function OptionalText(s: Option<string>): Field {
    if s.Some? then Text(s.value) else Omitted
  }

  function FieldJson(f: Field): string
    requires !f.Omitted?
  {
    match f
    case Text(s) => Quote(s)
    case Flag(b) => if b then "true" else "false"
    case Integer(n) => Decimal.DecimalString(n)
  }

  /** The comma-separated `"key":value` list of the properties that are not
      `undefined`; it is empty exactly when every property is `undefined`. */
  function MemberList(rec: Record): (m: string)
    ensures m == "" <==> forall i :: 0 <= i < |rec| ==> rec[i].1.Omitted?
    decreases |rec|
  {
    if rec == [] then ""
    else if rec[0].1.Omitted? then MemberList(rec[1..])
    else
      var member := Quote(rec[0].0) + ":" + FieldJson(rec[0].1);
      var rest := MemberList(rec[1..]);
      if rest == "" then member else member + "," + rest
  }

  /** `JSON.stringify(rec)`: an object literal, `{}` exactly when every
      property is `undefined`. */
  function Serialize(rec: Record): (t: string)
    ensures 2 <= |t| && t[0] == '{' && t[|t| - 1] == '}'
    ensures t == "{}" <==> forall i :: 0 <= i < |rec| ==> rec[i].1.Omitted?
  {
    "{" + MemberList(rec) + "}"
  }
}
