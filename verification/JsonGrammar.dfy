/** JSON texts as section 2 to 7 of RFC 8259 define them, with their meaning: a text is a tree of tokens
    with spacing between them. Numbers are integers, and as `cJSON_Minify` allows it the spacing may hold
    comments. `Spell(t, rest)` is the text followed by `rest`. */
module JsonGrammar {
  import opened CText
  import opened Json

  // ---------------------------------------------------------------- spacing

  datatype Space = Blank(c: char) | LineComment(body: string) | BlockComment(body: string)

  type Gap = seq<Space>

  /** The closing star and slash comes where it should; a slash right after the opening would make one. */
  predicate ClosesAtEnd(body: string) {
    && (body == [] || body[0] != '/')
    && forall i :: 0 <= i < |body| - 1 ==> !(body[i] == '*' && body[i + 1] == '/')
  }

  predicate SpaceOk(sp: Space, comments: bool) {
    match sp
    case Blank(c) => c == ' ' || c == '\t' || c == '\n' || c == '\r'
    case LineComment(body) => comments && forall i :: 0 <= i < |body| ==> body[i] != '\n'
    case BlockComment(body) => comments && ClosesAtEnd(body)
  }

  predicate GapOk(g: Gap, comments: bool) {
    forall i :: 0 <= i < |g| ==> SpaceOk(g[i], comments)
  }

  function SpaceText(sp: Space): (r: string) {
    match sp
    case Blank(c) => [c]
    case LineComment(body) => "//" + body + "\n"
    case BlockComment(body) => "/*" + body + "*/"
  }

  function SpellGap(g: Gap, rest: string): (r: string) {
    if g == [] then rest else SpaceText(g[0]) + SpellGap(g[1..], rest)
  }

  // ---------------------------------------------------------------- strings

  /** One character of a string: as it is, by a letter, by its number, or by a pair of surrogates. */
  datatype Piece = Plain(c: char) | Short(letter: char) | Unit(h: string) | Pair(high: string, low: string)

  /** The two-character escapes. */
  const SHORT_ESCAPES: map<char, char> :=
    map['\"' := '\"', '\\' := '\\', '/' := '/', 'b' := 8 as char, 'f' := 12 as char, 'n' := '\n', 'r' := '\r', 't' := '\t']

  predicate FourHex(h: string) {
    |h| == 4 && forall i :: 0 <= i < 4 ==> IsHexDigit(h[i])
  }

  predicate PieceOk(p: Piece) {
    match p
    case Plain(c) => c >= ' ' && c != '\"' && c != '\\'
    case Short(letter) => letter in SHORT_ESCAPES
    case Unit(h) => FourHex(h) && !(0xD800 <= FromHex(h) <= 0xDFFF)
    case Pair(high, low) => FourHex(high) && FourHex(low) && 0xD800 <= FromHex(high) <= 0xDBFF && 0xDC00 <= FromHex(low) <= 0xDFFF
  }

  predicate PiecesOk(ps: seq<Piece>) {
    forall i :: 0 <= i < |ps| ==> PieceOk(ps[i])
  }

  function PieceText(p: Piece): (r: string) {
    match p
    case Plain(c) => [c]
    case Short(letter) => ['\\', letter]
    case Unit(h) => "\\u" + h
    case Pair(high, low) => "\\u" + high + "\\u" + low
  }

  /** The bytes that a piece stands for. */
  function PieceBytes(p: Piece): (r: string)
    requires PieceOk(p)
  {
    match p
    case Plain(c) => [c]
    case Short(letter) => [SHORT_ESCAPES[letter]]
    case Unit(h) => Utf8(FromHex(h))
    case Pair(high, low) => Utf8(0x1_0000 + (FromHex(high) - 0xD800) * 0x400 + (FromHex(low) - 0xDC00))
  }

  function SpellPieces(ps: seq<Piece>, rest: string): (r: string) {
    if ps == [] then rest else PieceText(ps[0]) + SpellPieces(ps[1..], rest)
  }

  function PiecesBytes(ps: seq<Piece>): (r: string)
    requires PiecesOk(ps)
  {
    if ps == [] then [] else PieceBytes(ps[0]) + PiecesBytes(ps[1..])
  }

  function SpellString(ps: seq<Piece>, rest: string): (r: string) {
    ['\"'] + SpellPieces(ps, ['\"'] + rest)
  }

  // ---------------------------------------------------------------- UTF-8

  predicate Continues(c: char) {
    0x80 <= c as int < 0xC0
  }

  /** The code point that bytes encode, by the table of section 3 of RFC 3629. */
  function FromUtf8(b: string): (r: int) {
    if |b| == 1 && b[0] as int < 0x80 then b[0] as int
    else if |b| == 2 && 0xC0 <= b[0] as int < 0xE0 && Continues(b[1]) then
      (b[0] as int - 0xC0) * 0x40 + (b[1] as int - 0x80)
    else if |b| == 3 && 0xE0 <= b[0] as int < 0xF0 && Continues(b[1]) && Continues(b[2]) then
      (b[0] as int - 0xE0) * 0x1000 + (b[1] as int - 0x80) * 0x40 + (b[2] as int - 0x80)
    else if |b| == 4 && 0xF0 <= b[0] as int < 0xF8 && Continues(b[1]) && Continues(b[2]) && Continues(b[3]) then
      (b[0] as int - 0xF0) * 0x4_0000 + (b[1] as int - 0x80) * 0x1000 + (b[2] as int - 0x80) * 0x40 + (b[3] as int - 0x80)
    else -1
  }

  lemma BySixBits(uc: nat)
    ensures uc == uc / 0x40 * 0x40 + uc % 0x40
    ensures uc / 0x40 == uc / 0x1000 * 0x40 + uc / 0x40 % 0x40
    ensures uc / 0x1000 == uc / 0x4_0000 * 0x40 + uc / 0x1000 % 0x40
  {
  }

  lemma TwoBytes(a: nat, b: nat)
    requires a < 0x20 && b < 0x40
    ensures FromUtf8([Byte(0xC0 + a), Byte(0x80 + b)]) == a * 0x40 + b
  {
  }

  lemma ThreeBytes(a: nat, b: nat, c: nat)
    requires a < 0x10 && b < 0x40 && c < 0x40
    ensures FromUtf8([Byte(0xE0 + a), Byte(0x80 + b), Byte(0x80 + c)]) == a * 0x1000 + b * 0x40 + c
  {
  }

  lemma FourBytes(a: nat, b: nat, c: nat, d: nat)
    requires a < 0x08 && b < 0x40 && c < 0x40 && d < 0x40
    ensures FromUtf8([Byte(0xF0 + a), Byte(0x80 + b), Byte(0x80 + c), Byte(0x80 + d)]) == a * 0x4_0000 + b * 0x1000 + c * 0x40 + d
  {
  }

  /** The bytes written for a `\u` escape decode to its code point, and there are no more than needed. */
  lemma Utf8Decodes(uc: nat)
    requires uc < 0x11_0000
    ensures FromUtf8(Utf8(uc)) == uc
    ensures |Utf8(uc)| == if uc < 0x80 then 1 else if uc < 0x800 then 2 else if uc < 0x1_0000 then 3 else 4
  {
    BySixBits(uc);
    if 0x80 <= uc < 0x800 {
      TwoBytes(uc / 0x40, uc % 0x40);
    } else if 0x800 <= uc < 0x1_0000 {
      ThreeBytes(uc / 0x1000, uc / 0x40 % 0x40, uc % 0x40);
    } else if 0x1_0000 <= uc {
      FourBytes(uc / 0x4_0000, uc / 0x1000 % 0x40, uc / 0x40 % 0x40, uc % 0x40);
    }
  }

  // ---------------------------------------------------------------- texts

  datatype Text =
    | NullText
    | BoolText(b: bool)
    | NumberText(negative: bool, digits: string)
    | StringText(pieces: seq<Piece>)
    | ArrayText(empty: Gap, items: seq<ItemText>)
    | ObjectText(empty: Gap, members: seq<MemberText>)

  datatype ItemText = ItemText(before: Gap, value: Text, after: Gap)

  datatype MemberText =
    MemberText(before: Gap, name: seq<Piece>, afterName: Gap, beforeValue: Gap, value: Text, after: Gap)

  /** No zeros in front. */
  predicate Numeral(d: string) {
    d == "0" || (d != [] && d[0] != '0' && forall i :: 0 <= i < |d| ==> IsDigit(d[i]))
  }

  function FromDecimal(d: string): (n: nat) {
    if d == [] then 0 else 10 * FromDecimal(d[..|d| - 1]) + DigitValue(d[|d| - 1])
  }

  predicate Legal(t: Text, comments: bool)
    decreases t, 1
  {
    match t
    case NullText => true
    case BoolText(_) => true
    case NumberText(_, d) => Numeral(d)
    case StringText(ps) => PiecesOk(ps)
    case ArrayText(g, items) => GapOk(g, comments) && forall i :: 0 <= i < |items| ==> ItemOk(items[i], comments)
    case ObjectText(g, ms) => GapOk(g, comments) && forall i :: 0 <= i < |ms| ==> MemberOk(ms[i], comments)
  }

  predicate ItemOk(item: ItemText, comments: bool)
    decreases item, 2
  {
    GapOk(item.before, comments) && Legal(item.value, comments) && GapOk(item.after, comments)
  }

  predicate MemberOk(m: MemberText, comments: bool)
    decreases m, 2
  {
    && GapOk(m.before, comments) && PiecesOk(m.name) && GapOk(m.afterName, comments)
    && GapOk(m.beforeValue, comments) && Legal(m.value, comments) && GapOk(m.after, comments)
  }

  function Spell(t: Text, rest: string): (r: string)
    decreases t, 1
  {
    match t
    case NullText => "null" + rest
    case BoolText(b) => (if b then "true" else "false") + rest
    case NumberText(negative, d) => (if negative then "-" else "") + (d + rest)
    case StringText(ps) => SpellString(ps, rest)
    case ArrayText(g, items) => ['['] + (if items == [] then SpellGap(g, [']'] + rest) else SpellItems(items, [']'] + rest))
    case ObjectText(g, ms) => ['{'] + (if ms == [] then SpellGap(g, ['}'] + rest) else SpellMembers(ms, ['}'] + rest))
  }

  function SpellItems(items: seq<ItemText>, rest: string): (r: string)
    requires items != []
    decreases items, 0
  {
    var more := if |items| == 1 then rest else [','] + SpellItems(items[1..], rest);
    SpellGap(items[0].before, Spell(items[0].value, SpellGap(items[0].after, more)))
  }

  function SpellMembers(ms: seq<MemberText>, rest: string): (r: string)
    requires ms != []
    decreases ms, 0
  {
    var more := if |ms| == 1 then rest else [','] + SpellMembers(ms[1..], rest);
    SpellGap(ms[0].before, SpellString(ms[0].name, SpellGap(ms[0].afterName, [':'] + SpellEntry(ms[0], more))))
  }

  /** The value of a member and what follows it. */
  function SpellEntry(m: MemberText, more: string): (r: string)
    decreases m, 2
  {
    SpellGap(m.beforeValue, Spell(m.value, SpellGap(m.after, more)))
  }

  /** The value that a text stands for. */
  function Denoted(t: Text, comments: bool): (v: Json)
    requires Legal(t, comments)
    decreases t, 1
  {
    match t
    case NullText => Null
    case BoolText(b) => Bool(b)
    case NumberText(negative, d) => Number(if negative then 0 - FromDecimal(d) else FromDecimal(d))
    case StringText(ps) => String(PiecesBytes(ps))
    case ArrayText(_, items) => Array(DenotedItems(items, comments))
    case ObjectText(_, ms) => Object(DenotedMembers(ms, comments))
  }

  function DenotedItems(items: seq<ItemText>, comments: bool): (r: seq<Json>)
    requires forall i :: 0 <= i < |items| ==> ItemOk(items[i], comments)
    decreases items, 0
  {
    if items == [] then []
    else
      assert ItemOk(items[0], comments);
      [Denoted(items[0].value, comments)] + DenotedItems(items[1..], comments)
  }

  function DenotedMembers(ms: seq<MemberText>, comments: bool): (r: seq<Member>)
    requires forall i :: 0 <= i < |ms| ==> MemberOk(ms[i], comments)
    decreases ms, 0
  {
    if ms == [] then []
    else
      assert MemberOk(ms[0], comments);
      [Member(PiecesBytes(ms[0].name), Denoted(ms[0].value, comments))] + DenotedMembers(ms[1..], comments)
  }

  // ---------------------------------------------------------------- a text and what follows it

  lemma {:induction false} GapThen(g: Gap, rest: string)
    ensures SpellGap(g, rest) == SpellGap(g, []) + rest
  {
    if g != [] {
      GapThen(g[1..], rest);
      Assoc(SpaceText(g[0]), SpellGap(g[1..], []), rest);
    }
  }

  lemma {:induction false} PiecesThen(ps: seq<Piece>, rest: string)
    ensures SpellPieces(ps, rest) == SpellPieces(ps, []) + rest
  {
    if ps != [] {
      PiecesThen(ps[1..], rest);
      Assoc(PieceText(ps[0]), SpellPieces(ps[1..], []), rest);
    }
  }

  lemma StringThen(ps: seq<Piece>, rest: string)
    ensures SpellString(ps, rest) == SpellString(ps, []) + rest
  {
    PiecesThen(ps, ['\"'] + rest);
    PiecesThen(ps, ['\"']);
    Assoc(SpellPieces(ps, []), ['\"'], rest);
    Assoc(['\"'], SpellPieces(ps, ['\"']), rest);
    assert ['\"'] + [] == ['\"'];
  }

  lemma {:induction false} TextThen(t: Text, rest: string)
    ensures Spell(t, rest) == Spell(t, []) + rest
    decreases t, 1
  {
    match t
    case NullText =>
    case BoolText(_) =>
    case NumberText(negative, d) => assert (if negative then "-" else "") + (d + []) + rest == (if negative then "-" else "") + (d + rest);
    case StringText(ps) => StringThen(ps, rest);
    case ArrayText(g, items) =>
      if items == [] {
        GapThen(g, [']'] + rest);
        GapThen(g, [']']);
      } else {
        ItemsThen(items, [']'] + rest);
        ItemsThen(items, [']']);
      }
      BracketThen('[', if items == [] then SpellGap(g, []) else SpellItems(items, []), ']', rest);
    case ObjectText(g, ms) =>
      if ms == [] {
        GapThen(g, ['}'] + rest);
        GapThen(g, ['}']);
      } else {
        MembersThen(ms, ['}'] + rest);
        MembersThen(ms, ['}']);
      }
      BracketThen('{', if ms == [] then SpellGap(g, []) else SpellMembers(ms, []), '}', rest);
  }

  lemma BracketThen(open: char, body: string, close: char, rest: string)
    ensures [open] + (body + ([close] + rest)) == [open] + (body + ([close] + [])) + rest
    ensures [close] + [] == [close]
  {
  }

  lemma {:induction false} EntryThen(b: Gap, v: Text, a: Gap, more: string, rest: string)
    ensures SpellGap(b, Spell(v, SpellGap(a, more + rest))) == SpellGap(b, Spell(v, SpellGap(a, more))) + rest
    decreases v, 2
  {
    GapThen(a, more + rest);
    GapThen(a, more);
    TextThen(v, SpellGap(a, more + rest));
    TextThen(v, SpellGap(a, more));
    GapThen(b, Spell(v, SpellGap(a, more + rest)));
    GapThen(b, Spell(v, SpellGap(a, more)));
    FourThen(SpellGap(b, []), Spell(v, []), SpellGap(a, []), more, rest);
  }

  lemma FourThen(b: string, v: string, a: string, more: string, rest: string)
    ensures b + (v + (a + (more + rest))) == b + (v + (a + more)) + rest
  {
  }

  lemma {:induction false} ItemsThen(items: seq<ItemText>, rest: string)
    requires items != []
    ensures SpellItems(items, rest) == SpellItems(items, []) + rest
    decreases items, 0
  {
    var more := if |items| == 1 then [] else [','] + SpellItems(items[1..], []);
    if |items| > 1 {
      ItemsThen(items[1..], rest);
      Assoc([','], SpellItems(items[1..], []), rest);
    } else {
      assert [] + rest == rest;
    }
    EntryThen(items[0].before, items[0].value, items[0].after, more, rest);
  }

  lemma {:induction false} MembersThen(ms: seq<MemberText>, rest: string)
    requires ms != []
    ensures SpellMembers(ms, rest) == SpellMembers(ms, []) + rest
    decreases ms, 0
  {
    var m := ms[0];
    var more := if |ms| == 1 then [] else [','] + SpellMembers(ms[1..], []);
    if |ms| > 1 {
      MembersThen(ms[1..], rest);
      Assoc([','], SpellMembers(ms[1..], []), rest);
    } else {
      assert [] + rest == rest;
    }
    EntryThen(m.beforeValue, m.value, m.after, more, rest);
    Assoc([':'], SpellEntry(m, more), rest);
    NameThen(m, [':'] + SpellEntry(m, more), rest);
  }

  lemma NameThen(m: MemberText, entry: string, rest: string)
    ensures SpellGap(m.before, SpellString(m.name, SpellGap(m.afterName, entry + rest))) ==
      SpellGap(m.before, SpellString(m.name, SpellGap(m.afterName, entry))) + rest
  {
    GapThen(m.afterName, entry + rest);
    GapThen(m.afterName, entry);
    StringThen(m.name, SpellGap(m.afterName, entry + rest));
    StringThen(m.name, SpellGap(m.afterName, entry));
    GapThen(m.before, SpellString(m.name, SpellGap(m.afterName, entry + rest)));
    GapThen(m.before, SpellString(m.name, SpellGap(m.afterName, entry)));
    FourThen(SpellGap(m.before, []), SpellString(m.name, []), SpellGap(m.afterName, []), entry, rest);
  }
}
