/** cJSON values, their printed text, and how text is read back, as functions.

    Text is the content of a C string up to its terminator; a byte is a character below 256. */
module Json {
  import opened Wrappers
  import opened CText

  datatype Member = Member(name: string, value: Json)

  datatype Json =
    | Null
    | Bool(b: bool)
    | Number(n: int)
    | String(s: string)
    | Array(items: seq<Json>)
    | Object(members: seq<Member>)

  /** Values cJSON can hold: `valueint` is 32 bits wide and strings end at the first NUL. */
  predicate Storable(v: Json) {
    match v
    case Null => true
    case Bool(_) => true
    case Number(n) => -0x8000_0000 <= n < 0x8000_0000
    case String(s) => NulFree(s)
    case Array(items) => forall i :: 0 <= i < |items| ==> Storable(items[i])
    case Object(members) => forall i :: 0 <= i < |members| ==> NulFree(members[i].name) && Storable(members[i].value)
  }

  // ---------------------------------------------------------------- printing

  /** One character of `print_string_ptr`; `%04x` of a control character starts with two zeros. */
  function EscapeChar(c: char): (r: string) {
    if c > 31 as char && c != '\"' && c != '\\' then [c]
    else if c == '\\' then "\\\\"
    else if c == '\"' then "\\\""
    else if c == 8 as char then "\\b"
    else if c == 12 as char then "\\f"
    else if c == '\n' then "\\n"
    else if c == '\r' then "\\r"
    else if c == '\t' then "\\t"
    else "\\u00" + [HexDigit(c as nat / 16), HexDigit(c as nat % 16)]
  }

  function Escape(s: string): (r: string) {
    if s == [] then [] else EscapeChar(s[0]) + Escape(s[1..])
  }

  function Quote(s: string): (r: string) {
    "\"" + Escape(s) + "\""
  }

  function Digits(n: nat): (r: string) {
    if n < 10 then ['0' + n as char] else Digits(n / 10) + ['0' + (n % 10) as char]
  }

  /** `%d` */
  function PrintInt(n: int): (r: string) {
    if n < 0 then "-" + Digits(-n) else Digits(n)
  }

  function Tabs(n: int): (r: string) {
    if n <= 0 then [] else "\t" + Tabs(n - 1)
  }

  function When(fmt: bool, s: string): (r: string) {
    if fmt then s else []
  }

  /** `print_value` */
  function PrintValue(v: Json, depth: nat, fmt: bool): (r: string)
    decreases v, 1
  {
    match v
    case Null => "null"
    case Bool(b) => if b then "true" else "false"
    case Number(n) => PrintInt(n)
    case String(s) => Quote(s)
    case Array(items) => "[" + PrintItems(items, depth + 1, fmt) + "]"
    case Object(members) =>
      "{" + When(fmt, "\n") + PrintMembers(members, depth + 1, fmt) +
      When(fmt, Tabs(if members == [] then depth - 1 else depth)) + "}"
  }

  /** The loop of `print_array`, from the given item on. */
  function PrintItems(items: seq<Json>, depth: nat, fmt: bool): (r: string)
    decreases items, 0
  {
    if items == [] then []
    else
      PrintValue(items[0], depth, fmt) +
      (if |items| > 1 then "," + When(fmt, " ") else "") +
      PrintItems(items[1..], depth, fmt)
  }

  /** The loop of `print_object`, from the given member on. */
  function PrintMembers(members: seq<Member>, depth: nat, fmt: bool): (r: string)
    decreases members, 0
  {
    if members == [] then []
    else
      When(fmt, Tabs(depth)) + Quote(members[0].name) + ":" + When(fmt, "\t") +
      PrintValue(members[0].value, depth, fmt) +
      (if |members| > 1 then "," else "") + When(fmt, "\n") +
      PrintMembers(members[1..], depth, fmt)
  }

  // ---------------------------------------------------------------- reading

  predicate IsSpace(c: char) {
    c != '\0' && c <= ' '
  }

  function Skip(s: string): (r: string)
    ensures |r| <= |s|
  {
    if s != [] && IsSpace(s[0]) then Skip(s[1..]) else s
  }

  predicate IsDigit(c: char) {
    '0' <= c <= '9'
  }

  function HexValue(c: char): (r: Option<nat>) {
    if '0' <= c <= '9' then Some((c - '0') as nat)
    else if 'A' <= c <= 'F' then Some(10 + (c - 'A') as nat)
    else if 'a' <= c <= 'f' then Some(10 + (c - 'a') as nat)
    else None
  }

  /** `parse_hex4`: zero stands for malformed digits. */
  function ParseHex4(s: string): (h: nat)
    requires |s| >= 4
    ensures h < 0x1_0000
  {
    var a, b, c, d := HexValue(s[0]), HexValue(s[1]), HexValue(s[2]), HexValue(s[3]);
    if a.Some? && b.Some? && c.Some? && d.Some? && a.value < 16 && b.value < 16 && c.value < 16 && d.value < 16
    then a.value * 0x1000 + b.value * 0x100 + c.value * 0x10 + d.value
    else 0
  }

  function Byte(n: nat): (c: char) {
    (n % 256) as char
  }

  /** The UTF-8 bytes of a code point. */
  function Utf8(uc: nat): (r: string) {
    if uc < 0x80 then [Byte(uc)]
    else if uc < 0x800 then [Byte(0xC0 + uc / 0x40), Byte(0x80 + uc % 0x40)]
    else if uc < 0x1_0000 then [Byte(0xE0 + uc / 0x1000), Byte(0x80 + uc / 0x40 % 0x40), Byte(0x80 + uc % 0x40)]
    else [Byte(0xF0 + uc / 0x4_0000), Byte(0x80 + uc / 0x1000 % 0x40), Byte(0x80 + uc / 0x40 % 0x40), Byte(0x80 + uc % 0x40)]
  }

  /** The `\u` case of `parse_string`: the bytes produced and the length of the text consumed after
      the `u`; nothing when the text ends inside the escape. */
  function ParseUnicode(s: string): (r: Option<(string, nat)>)
    ensures r.Some? ==> r.value.1 <= |s|
  {
    if |s| < 4 then None
    else
      var uc := ParseHex4(s);
      if (0xDC00 <= uc <= 0xDFFF) || uc == 0 then Some(([], 4))
      else if 0xD800 <= uc <= 0xDBFF then
        if |s| < 6 || s[4] != '\\' || s[5] != 'u' then Some(([], 4))
        else if |s| < 10 then None
        else
          var uc2 := ParseHex4(s[6..]);
          if uc2 < 0xDC00 || uc2 > 0xDFFF then Some(([], 10))
          else Some((Utf8(0x1_0000 + (uc % 0x400) * 0x400 + uc2 % 0x400), 10))
      else Some((Utf8(uc), 4))
  }

  function UnescapeChar(c: char): (r: char) {
    if c == 'b' then 8 as char
    else if c == 'f' then 12 as char
    else if c == 'n' then '\n'
    else if c == 'r' then '\r'
    else if c == 't' then '\t'
    else c
  }

  /** The second loop of `parse_string`, which also accepts a string that is not closed; a lone
      backslash at the end of the text has no meaning. */
  function ParseChars(s: string): (r: Option<(string, string)>)
    ensures r.Some? ==> |r.value.1| <= |s|
  {
    if s == [] then Some(([], []))
    else if s[0] == '\"' then Some(([], s[1..]))
    else if s[0] != '\\' then
      var rest := ParseChars(s[1..]);
      if rest.None? then None else Some(([s[0]] + rest.value.0, rest.value.1))
    else if |s| == 1 then None
    else if s[1] == 'u' then
      var u := ParseUnicode(s[2..]);
      if u.None? then None
      else
        var rest := ParseChars(s[2 + u.value.1..]);
        if rest.None? then None else Some((u.value.0 + rest.value.0, rest.value.1))
    else
      var rest := ParseChars(s[2..]);
      if rest.None? then None else Some(([UnescapeChar(s[1])] + rest.value.0, rest.value.1))
  }

  /** `parse_string` */
  function ParseString(s: string): (r: Option<(string, string)>)
    ensures r.Some? ==> |r.value.1| < |s|
  {
    if s == [] || s[0] != '\"' then None else ParseChars(s[1..])
  }

  /** The digit loop of `parse_number`. */
  function ParseDigits(s: string, n: nat): (r: (nat, string))
    ensures |r.1| <= |s|
  {
    if s != [] && IsDigit(s[0]) then ParseDigits(s[1..], n * 10 + (s[0] - '0') as nat) else (n, s)
  }

  predicate StartsWith(s: string, p: string) {
    |p| <= |s| && s[..|p|] == p
  }

  /** A fraction or an exponent follows: the number is not an integer literal. */
  predicate FloatTail(s: string) {
    && s != []
    && (s[0] == 'e' || s[0] == 'E' || (s[0] == '.' && |s| > 1 && IsDigit(s[1])))
  }

  /** `parse_number` on integer literals. */
  function ParseNumber(s: string): (r: Option<(int, string)>)
    requires s != [] && (s[0] == '-' || IsDigit(s[0]))
    ensures r.Some? ==> |r.value.1| < |s|
  {
    var s1 := if s[0] == '-' then s[1..] else s;
    var s2 := if s1 != [] && s1[0] == '0' then s1[1..] else s1;
    var (n, rest) := if s2 != [] && '1' <= s2[0] <= '9' then ParseDigits(s2, 0) else (0, s2);
    assert s2 != [] && '1' <= s2[0] <= '9' ==> |rest| < |s2| by {
      if s2 != [] && '1' <= s2[0] <= '9' {
        assert ParseDigits(s2, 0) == ParseDigits(s2[1..], 0 * 10 + (s2[0] - '0') as nat);
      }
    }
    if FloatTail(rest) then None else Some((if s[0] == '-' then -(n as int) else n, rest))
  }

  /** `parse_value` */
  function ParseValue(s: string): (r: Option<(Json, string)>)
    ensures r.Some? ==> |r.value.1| < |s|
    decreases |s|, 1
  {
    if StartsWith(s, "null") then Some((Null, s[4..]))
    else if StartsWith(s, "false") then Some((Bool(false), s[5..]))
    else if StartsWith(s, "true") then Some((Bool(true), s[4..]))
    else if s == [] then None
    else if s[0] == '\"' then
      var r := ParseString(s);
      if r.None? then None else Some((String(r.value.0), r.value.1))
    else if s[0] == '-' || IsDigit(s[0]) then
      var r := ParseNumber(s);
      if r.None? then None else Some((Number(r.value.0), r.value.1))
    else if s[0] == '[' then
      var s1 := Skip(s[1..]);
      if s1 != [] && s1[0] == ']' then Some((Array([]), s1[1..]))
      else
        var r := ParseItems(s1);
        if r.None? then None else Some((Array(r.value.0), r.value.1))
    else if s[0] == '{' then
      var s1 := Skip(s[1..]);
      if s1 != [] && s1[0] == '}' then Some((Object([]), s1[1..]))
      else
        var r := ParseMembers(s1);
        if r.None? then None else Some((Object(r.value.0), r.value.1))
    else None
  }

  /** The items of an array, up to and including the closing bracket. */
  function ParseItems(s: string): (r: Option<(seq<Json>, string)>)
    ensures r.Some? ==> |r.value.1| < |s|
    decreases |s|, 2
  {
    var v := ParseValue(Skip(s));
    if v.None? then None
    else
      var s1 := Skip(v.value.1);
      if s1 != [] && s1[0] == ',' then
        var rest := ParseItems(s1[1..]);
        if rest.None? then None else Some(([v.value.0] + rest.value.0, rest.value.1))
      else if s1 != [] && s1[0] == ']' then Some(([v.value.0], s1[1..]))
      else None
  }

  /** The members of an object, up to and including the closing brace. */
  function ParseMembers(s: string): (r: Option<(seq<Member>, string)>)
    ensures r.Some? ==> |r.value.1| < |s|
    decreases |s|, 2
  {
    var name := ParseString(Skip(s));
    if name.None? then None
    else
      var s1 := Skip(name.value.1);
      if s1 == [] || s1[0] != ':' then None
      else
        var v := ParseValue(Skip(s1[1..]));
        if v.None? then None
        else
          var m := Member(name.value.0, v.value.0);
          var s2 := Skip(v.value.1);
          if s2 != [] && s2[0] == ',' then
            var rest := ParseMembers(s2[1..]);
            if rest.None? then None else Some(([m] + rest.value.0, rest.value.1))
          else if s2 != [] && s2[0] == '}' then Some(([m], s2[1..]))
          else None
  }

  /** `cJSON_Parse` ignores what follows the first value. */
  function ParseText(s: string): (r: Option<Json>) {
    var r := ParseValue(Skip(s));
    if r.None? then None else Some(r.value.0)
  }

  // ---------------------------------------------------------------- concatenation

  lemma Assoc(a: string, b: string, c: string)
    ensures a + b + c == a + (b + c)
  {
  }

  lemma Regroup(a: string, b: string, c: string, d: string, e: string)
    ensures a + b + c + d + e == a + (b + (c + (d + e)))
  {
  }
}
