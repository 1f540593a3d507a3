/**
 JSON values, their `JSON.stringify` text and its size in UTF-8 bytes.

 An object is a sequence of fields, in the insertion order a JavaScript object
 keeps.  A number is the token that `JSON.stringify` prints for it.  The text
 determines the value (`RenderUnique`): this is what the audit chain rests on.
 */
module Json {
  import opened Wrappers

  predicate NumberChar(c: char) {
    '0' <= c <= '9' || c == '-' || c == '+' || c == '.' || c == 'e'
  }

  predicate NumberText(t: string) {
    forall i :: 0 <= i < |t| ==> NumberChar(t[i])
  }

  type NumberToken = t: string | t != "" && NumberText(t) witness "0"

  datatype Json =
    | Null
    | Bool(b: bool)
    | Num(token: NumberToken)
    | Str(s: string)
    | Arr(items: seq<Json>)
    | Obj(fields: seq<Field>)

  datatype Field = Field(key: string, value: Json)

  // ---------------------------------------------------------------- text

  function HexDigit(n: nat): char
    requires n < 16
  {
    "0123456789abcdef"[n]
  }

  function EscapeChar(c: char): string {
    if c == '\"' then "\\\""
    else if c == '\\' then "\\\\"
    else if c == '\U{8}' then "\\b"
    else if c == '\U{C}' then "\\f"
    else if c == '\n' then "\\n"
    else if c == '\r' then "\\r"
    else if c == '\t' then "\\t"
    else if c as int < 0x20 then "\\u00" + [HexDigit(c as int / 16), HexDigit(c as int % 16)]
    else [c]
  }

  function EscapeText(s: string): string {
    if s == "" then "" else EscapeChar(s[0]) + EscapeText(s[1..])
  }

  function Quote(s: string): string {
    "\"" + EscapeText(s) + "\""
  }

  function Render(j: Json): string
    decreases j
  {
    match j
    case Null => "null"
    case Bool(b) => if b then "true" else "false"
    case Num(token) => token
    case Str(s) => Quote(s)
    case Arr(items) => "[" + RenderItems(items, true) + "]"
    case Obj(fields) => "{" + RenderFields(fields, true) + "}"
  }

  // Array elements; every element but a leading one is preceded by a comma.
  function RenderItems(items: seq<Json>, leading: bool): string
    decreases items
  {
    if items == [] then ""
    else (if leading then "" else ",") + (Render(items[0]) + RenderItems(items[1..], false))
  }

  function RenderFields(fields: seq<Field>, leading: bool): string
    decreases fields
  {
    if fields == [] then ""
    else (if leading then "" else ",")
         + (Quote(fields[0].key) + (":" + (Render(fields[0].value) + RenderFields(fields[1..], false))))
  }

  // ---------------------------------------------------------------- bytes

  function CharBytes(c: char): nat {
    if c as int < 0x80 then 1 else if c as int < 0x800 then 2 else if c as int < 0x10000 then 3 else 4
  }

  // Buffer.byteLength(text, "utf8")
  function ByteLength(s: string): nat {
    if s == "" then 0 else CharBytes(s[0]) + ByteLength(s[1..])
  }

  function EscapedBytes(s: string): nat {
    if s == "" then 0 else ByteLength(EscapeChar(s[0])) + EscapedBytes(s[1..])
  }

  function QuotedBytes(s: string): nat {
    2 + EscapedBytes(s)
  }

  // The serialised size, computed without building the text.
  function Size(j: Json): nat
    decreases j
  {
    match j
    case Null => 4
    case Bool(b) => if b then 4 else 5
    case Num(token) => |token|
    case Str(s) => QuotedBytes(s)
    case Arr(items) => 2 + ItemsSize(items, true)
    case Obj(fields) => 2 + FieldsSize(fields, true)
  }

  function ItemsSize(items: seq<Json>, leading: bool): nat
    decreases items
  {
    if items == [] then 0
    else (if leading then 0 else 1) + Size(items[0]) + ItemsSize(items[1..], false)
  }

  function FieldsSize(fields: seq<Field>, leading: bool): nat
    decreases fields
  {
    if fields == [] then 0
    else (if leading then 0 else 1) + QuotedBytes(fields[0].key) + 1 + Size(fields[0].value)
         + FieldsSize(fields[1..], false)
  }

  lemma {:induction false} ByteLengthConcat(s: string, t: string)
    ensures ByteLength(s + t) == ByteLength(s) + ByteLength(t)
  {
    if s == "" {
      assert s + t == t;
    } else {
      assert (s + t)[1..] == s[1..] + t;
      ByteLengthConcat(s[1..], t);
    }
  }

  lemma {:induction false} EscapedBytesIsByteLength(s: string)
    ensures EscapedBytes(s) == ByteLength(EscapeText(s))
  {
    if s != "" {
      EscapedBytesIsByteLength(s[1..]);
      ByteLengthConcat(EscapeChar(s[0]), EscapeText(s[1..]));
    }
  }

  lemma QuotedBytesIsByteLength(s: string)
    ensures QuotedBytes(s) == ByteLength(Quote(s))
  {
    EscapedBytesIsByteLength(s);
    ByteLengthConcat("\"" + EscapeText(s), "\"");
    ByteLengthConcat("\"", EscapeText(s));
  }

  lemma {:induction false} AsciiByteLength(s: string)
    requires forall i :: 0 <= i < |s| ==> s[i] as int < 0x80
    ensures ByteLength(s) == |s|
  {
    if s != "" {
      AsciiByteLength(s[1..]);
    }
  }

  // The size function is the byte length of the text.
  lemma {:induction false} SizeIsByteLength(j: Json)
    ensures Size(j) == ByteLength(Render(j))
    decreases j
  {
    match j
    case Null => AsciiByteLength("null");
    case Bool(b) => AsciiByteLength("true"); AsciiByteLength("false");
    case Num(token) => AsciiByteLength(token);
    case Str(s) => QuotedBytesIsByteLength(s);
    case Arr(items) =>
      ItemsSizeIsByteLength(items, true);
      ByteLengthConcat("[" + RenderItems(items, true), "]");
      ByteLengthConcat("[", RenderItems(items, true));
    case Obj(fields) =>
      FieldsSizeIsByteLength(fields, true);
      ByteLengthConcat("{" + RenderFields(fields, true), "}");
      ByteLengthConcat("{", RenderFields(fields, true));
  }

  lemma {:induction false} ItemsSizeIsByteLength(items: seq<Json>, leading: bool)
    ensures ItemsSize(items, leading) == ByteLength(RenderItems(items, leading))
    decreases items
  {
    if items != [] {
      SizeIsByteLength(items[0]);
      ItemsSizeIsByteLength(items[1..], false);
      var head, tail := Render(items[0]), RenderItems(items[1..], false);
      ByteLengthConcat(head, tail);
      ByteLengthConcat(if leading then "" else ",", head + tail);
    }
  }

  lemma {:induction false} FieldsSizeIsByteLength(fields: seq<Field>, leading: bool)
    ensures FieldsSize(fields, leading) == ByteLength(RenderFields(fields, leading))
    decreases fields
  {
    if fields != [] {
      SizeIsByteLength(fields[0].value);
      FieldsSizeIsByteLength(fields[1..], false);
      QuotedBytesIsByteLength(fields[0].key);
      var key, value, tail := Quote(fields[0].key), Render(fields[0].value), RenderFields(fields[1..], false);
      ByteLengthConcat(value, tail);
      ByteLengthConcat(":", value + tail);
      ByteLengthConcat(key, ":" + (value + tail));
      ByteLengthConcat(if leading then "" else ",", key + (":" + (value + tail)));
    }
  }

  // ---------------------------------------------------------------- reading

  // A text that may follow a complete value: nothing, or a separator.
  predicate Delimited(x: string) {
    x == "" || x[0] in ",]}"
  }

  // What an escaped character stands for (RFC 8259 section 7).
  function Meaning(e: char): Option<char> {
    match e
    case '\"' => Some('\"')
    case '\\' => Some('\\')
    case '/' => Some('/')
    case 'b' => Some('\U{8}')
    case 'f' => Some('\U{C}')
    case 'n' => Some('\n')
    case 'r' => Some('\r')
    case 't' => Some('\t')
    case _ => None
  }

  function HexValue(c: char): Option<nat> {
    if '0' <= c <= '9' then Some(c as int - '0' as int)
    else if 'a' <= c <= 'f' then Some(c as int - 'a' as int + 10)
    else if 'A' <= c <= 'F' then Some(c as int - 'A' as int + 10)
    else None
  }

  // Four hexadecimal digits; half of a surrogate pair is no character.
  function CodePoint(digits: string): Option<char>
    requires |digits| == 4
  {
    var a, b, c, d := HexValue(digits[0]), HexValue(digits[1]), HexValue(digits[2]), HexValue(digits[3]);
    if a.None? || b.None? || c.None? || d.None? then None else
    var n := a.value * 4096 + b.value * 256 + c.value * 16 + d.value;
    if n < 0xD800 || 0xE000 <= n < 0x10000 then Some(n as char) else None
  }

  function Prepend(c: char, r: Option<(string, string)>): Option<(string, string)> {
    if r.None? then None else Some(([c] + r.value.0, r.value.1))
  }

  // A string up to its closing quotation mark, and what follows.
  function ReadText(t: string): (r: Option<(string, string)>)
    ensures r.Some? ==> |r.value.1| < |t|
  {
    if t == "" then None
    else if t[0] == '\"' then Some(("", t[1..]))
    else if t[0] == '\\' then
      if |t| >= 6 && t[1] == 'u' then
        var c := CodePoint(t[2..6]);
        if c.None? then None else Prepend(c.value, ReadText(t[6..]))
      else if |t| >= 2 && Meaning(t[1]).Some? then Prepend(Meaning(t[1]).value, ReadText(t[2..]))
      else None
    else if t[0] < ' ' then None
    else Prepend(t[0], ReadText(t[1..]))
  }

  // The length of the number that a text begins with.
  function NumberLength(u: string): (n: nat)
    ensures n <= |u| && NumberText(u[..n])
  {
    if u != "" && NumberChar(u[0]) then 1 + NumberLength(u[1..]) else 0
  }

  /** A JSON text without white space (RFC 8259 sections 2 to 7): the value that the text begins
      with, and what follows. */
  function ReadValue(t: string): (r: Option<(Json, string)>)
    ensures r.Some? ==> |r.value.1| < |t|
    decreases |t|, 1
  {
    if t == "" then None else
    match t[0]
    case 'n' => if "null" <= t then Some((Null, t[4..])) else None
    case 't' => if "true" <= t then Some((Bool(true), t[4..])) else None
    case 'f' => if "false" <= t then Some((Bool(false), t[5..])) else None
    case '\"' =>
      var s := ReadText(t[1..]);
      if s.None? then None else Some((Str(s.value.0), s.value.1))
    case '[' =>
      if |t| >= 2 && t[1] == ']' then Some((Arr([]), t[2..])) else
      var items := ReadItems(t[1..]);
      if items.None? then None else Some((Arr(items.value.0), items.value.1))
    case '{' =>
      if |t| >= 2 && t[1] == '}' then Some((Obj([]), t[2..])) else
      var fields := ReadFields(t[1..]);
      if fields.None? then None else Some((Obj(fields.value.0), fields.value.1))
    case _ =>
      var n := NumberLength(t);
      if n == 0 then None else Some((Num(t[..n]), t[n..]))
  }

  // Items up to the closing bracket.
  function ReadItems(t: string): (r: Option<(seq<Json>, string)>)
    ensures r.Some? ==> |r.value.1| < |t|
    decreases |t|, 2
  {
    var head := ReadValue(t);
    if head.None? || head.value.1 == "" then None
    else if head.value.1[0] == ']' then Some(([head.value.0], head.value.1[1..]))
    else if head.value.1[0] != ',' then None
    else
      var tail := ReadItems(head.value.1[1..]);
      if tail.None? then None else Some(([head.value.0] + tail.value.0, tail.value.1))
  }

  // Fields up to the closing brace.
  function ReadFields(t: string): (r: Option<(seq<Field>, string)>)
    ensures r.Some? ==> |r.value.1| < |t|
    decreases |t|, 2
  {
    if t == "" || t[0] != '\"' then None else
    var key := ReadText(t[1..]);
    if key.None? || key.value.1 == "" || key.value.1[0] != ':' then None else
    var value := ReadValue(key.value.1[1..]);
    if value.None? || value.value.1 == "" then None
    else if value.value.1[0] == '}' then Some(([Field(key.value.0, value.value.0)], value.value.1[1..]))
    else if value.value.1[0] != ',' then None
    else
      var tail := ReadFields(value.value.1[1..]);
      if tail.None? then None else Some(([Field(key.value.0, value.value.0)] + tail.value.0, tail.value.1))
  }

  lemma HexDigitReads(n: nat)
    requires n < 16
    ensures HexValue(HexDigit(n)) == Some(n)
  {
  }

  lemma CharReads(c: char, x: string)
    ensures ReadText(EscapeChar(c) + x) == Prepend(c, ReadText(x))
  {
    hide HexDigit, Prepend, HexValue;
    var e, t := EscapeChar(c), EscapeChar(c) + x;
    assert t[|e|..] == x;
    if |e| == 6 {
      HexDigitReads(c as int / 16);
      HexDigitReads(c as int % 16);
      HexDigitReads(0);
      assert HexDigit(0) == '0' by { ZeroDigit(); }
      assert t[2..6] == ['0', '0', HexDigit(c as int / 16), HexDigit(c as int % 16)];
      assert t[0] == '\\' && t[1] == 'u';
    } else if |e| == 2 {
      assert t[0] == e[0] && t[1] == e[1];
    } else {
      assert t[0] == c;
    }
  }

  lemma ZeroDigit()
    ensures HexDigit(0) == '0'
  {
  }

  lemma {:induction false} TextReads(s: string, x: string)
    ensures ReadText(EscapeText(s) + ("\"" + x)) == Some((s, x))
  {
    hide EscapeChar, ReadText;
    if s == "" {
      ClosingReads(x);
      assert "" + ("\"" + x) == "\"" + x;
    } else {
      var rest := EscapeText(s[1..]) + ("\"" + x);
      assert EscapeText(s) + ("\"" + x) == EscapeChar(s[0]) + rest;
      CharReads(s[0], rest);
      TextReads(s[1..], x);
      assert s == [s[0]] + s[1..];
    }
  }

  lemma ClosingReads(x: string)
    ensures ReadText("\"" + x) == Some(("", x))
  {
    assert ("\"" + x)[1..] == x;
  }

  lemma QuoteReads(s: string, x: string)
    ensures Quote(s) + x == "\"" + (EscapeText(s) + ("\"" + x))
    ensures (Quote(s) + x)[0] == '\"' && ReadText((Quote(s) + x)[1..]) == Some((s, x))
  {
    hide ReadText;
    TextReads(s, x);
    assert Quote(s) + x == "\"" + (EscapeText(s) + ("\"" + x));
    assert (Quote(s) + x)[1..] == EscapeText(s) + ("\"" + x);
  }

  lemma {:induction false} NumberLengthIs(s: string, x: string)
    requires NumberText(s) && Delimited(x)
    ensures NumberLength(s + x) == |s|
  {
    if s == "" {
      assert s + x == x;
    } else {
      assert (s + x)[0] == s[0] && (s + x)[1..] == s[1..] + x;
      NumberLengthIs(s[1..], x);
    }
  }

  /** Reading what was written gives the value back, and leaves what follows. */
  lemma {:induction false} RenderReadsBack(j: Json, x: string)
    requires Delimited(x)
    ensures ReadValue(Render(j) + x) == Some((j, x))
    decreases j, 1
  {
    hide ReadText, ReadItems, ReadFields, EscapeText, RenderItems, RenderFields;
    var t := Render(j) + x;
    match j
    case Null | Bool(_) | Num(_) | Str(_) => ScalarReadsBack(j, x);
    case Arr(items) =>
      var body := RenderItems(items, true) + ("]" + x);
      assert t == "[" + body && t[1..] == body;
      if items == [] {
        NoItems(x);
        assert t[1] == ']' && t[2..] == x;
      } else {
        ItemsReadBack(items, x);
      }
    case Obj(fields) =>
      var body := RenderFields(fields, true) + ("}" + x);
      assert t == "{" + body && t[1..] == body;
      if fields == [] {
        NoFields(x);
        assert t[1] == '}' && t[2..] == x;
      } else {
        FieldsReadBack(fields, x);
      }
  }

  lemma ScalarReadsBack(j: Json, x: string)
    requires Delimited(x) && !j.Arr? && !j.Obj?
    ensures ReadValue(Render(j) + x) == Some((j, x))
  {
    hide ReadText, ReadItems, ReadFields, EscapeText;
    var t := Render(j) + x;
    match j
    case Null => assert "null" <= t && t[4..] == x;
    case Bool(b) => assert (if b then "true" else "false") <= t && t[if b then 4 else 5..] == x;
    case Num(token) =>
      NumberLengthIs(token, x);
      assert t[0] == token[0] && t[..|token|] == token && t[|token|..] == x;
    case Str(s) => QuoteReads(s, x);
  }

  lemma NoItems(x: string)
    ensures RenderItems([], true) + ("]" + x) == "]" + x
  {
  }

  lemma NoFields(x: string)
    ensures RenderFields([], true) + ("}" + x) == "}" + x
  {
  }

  // The first character of a value closes nothing.
  lemma LeadOpens(j: Json)
    ensures Render(j) != "" && Render(j)[0] != ']' && Render(j)[0] != '}'
  {
    hide RenderItems, RenderFields, EscapeText;
  }

  lemma {:induction false} ItemsReadBack(items: seq<Json>, x: string)
    requires items != []
    ensures var body := RenderItems(items, true) + ("]" + x);
            body[0] != ']' && ReadItems(body) == Some((items, x))
    decreases items, 0
  {
    hide ReadValue, Render;
    var body := RenderItems(items, true) + ("]" + x);
    var head, rest := Render(items[0]), items[1..];
    LeadOpens(items[0]);
    if rest == [] {
      assert RenderItems(rest, false) == "";
      assert RenderItems(items, true) == head;
      RenderReadsBack(items[0], "]" + x);
      assert ("]" + x)[1..] == x && items == [items[0]];
    } else {
      var tail := RenderItems(rest, true) + ("]" + x);
      assert RenderItems(rest, false) == "," + RenderItems(rest, true);
      assert body == head + ("," + tail);
      RenderReadsBack(items[0], "," + tail);
      ItemsReadBack(rest, x);
      assert ("," + tail)[1..] == tail && items == [items[0]] + rest;
    }
  }

  lemma {:induction false} FieldsReadBack(fields: seq<Field>, x: string)
    requires fields != []
    ensures var body := RenderFields(fields, true) + ("}" + x);
            body[0] != '}' && ReadFields(body) == Some((fields, x))
    decreases fields, 0
  {
    hide ReadValue, Render, ReadText, EscapeText, Quote;
    var body := RenderFields(fields, true) + ("}" + x);
    var key, value, rest := Quote(fields[0].key), Render(fields[0].value), fields[1..];
    if rest == [] {
      var after := ":" + (value + ("}" + x));
      assert RenderFields(rest, false) == "";
      assert RenderFields(fields, true) == key + (":" + value);
      assert body == key + after;
      QuoteReads(fields[0].key, after);
      RenderReadsBack(fields[0].value, "}" + x);
      assert after[1..] == value + ("}" + x) && ("}" + x)[1..] == x && fields == [fields[0]];
    } else {
      var tail := RenderFields(rest, true) + ("}" + x);
      var after := ":" + (value + ("," + tail));
      assert RenderFields(rest, false) == "," + RenderFields(rest, true);
      assert body == key + after;
      QuoteReads(fields[0].key, after);
      RenderReadsBack(fields[0].value, "," + tail);
      FieldsReadBack(rest, x);
      assert after[1..] == value + ("," + tail) && ("," + tail)[1..] == tail && fields == [fields[0]] + rest;
    }
  }

  // A value followed by a delimiter can be read back in one way only.
  lemma RenderUnique(a: Json, b: Json, x: string, y: string)
    requires Delimited(x) && Delimited(y)
    requires Render(a) + x == Render(b) + y
    ensures a == b && x == y
  {
    hide Render, ReadValue;
    RenderReadsBack(a, x);
    RenderReadsBack(b, y);
  }

  // JSON.stringify is injective.
  lemma RenderInjective(a: Json, b: Json)
    requires Render(a) == Render(b)
    ensures a == b
  {
    assert Render(a) + "" == Render(a) && Render(b) + "" == Render(b);
    RenderUnique(a, b, "", "");
  }
}
