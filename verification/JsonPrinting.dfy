/** What cJSON prints is JSON for the value printed, laid out in its own way; so it is read back. */
module JsonPrinting {
  import opened Wrappers
  import opened CText
  import opened Json
  import opened JsonGrammar
  import opened JsonReading

  // ---------------------------------------------------------------- strings

  /** The characters that are printed as a backslash and a letter. */
  const LETTERS: map<char, char> :=
    map['\"' := '\"', '\\' := '\\', 8 as char := 'b', 12 as char := 'f', '\n' := 'n', '\r' := 'r', '\t' := 't']

  /** How a character is printed: by its letter, by its number if it is another control character, or as
      it is. */
  function PieceFor(c: char): (p: Piece) {
    if c in LETTERS then Short(LETTERS[c])
    else if c >= ' ' then Plain(c)
    else Unit(['0', '0', HexDigit(c as nat / 16), HexDigit(c as nat % 16)])
  }

  function PiecesFor(s: string): (ps: seq<Piece>) {
    if s == [] then [] else [PieceFor(s[0])] + PiecesFor(s[1..])
  }

  lemma ControlHex(c: char)
    requires c < ' '
    ensures var h := ['0', '0', HexDigit(c as nat / 16), HexDigit(c as nat % 16)]; FourHex(h) && FromHex(h) == c as nat
  {
    var h := ['0', '0', HexDigit(c as nat / 16), HexDigit(c as nat % 16)];
    FromFourHex(h);
  }

  /** A printed character is a legal piece of a string and stands for the character. */
  lemma EscapedIsPiece(c: char)
    ensures PieceOk(PieceFor(c)) && PieceBytes(PieceFor(c)) == [c] && PieceText(PieceFor(c)) == EscapeChar(c)
  {
    if c !in LETTERS && c < ' ' {
      ControlHex(c);
    }
  }

  /** A printed string is made of legal pieces that stand for the string. */
  lemma {:induction false} EscapedIsPieces(s: string, rest: string)
    ensures PiecesOk(PiecesFor(s)) && PiecesBytes(PiecesFor(s)) == s && SpellPieces(PiecesFor(s), rest) == Escape(s) + rest
  {
    if s != [] {
      EscapedIsPieces(s[1..], rest);
      EscapedIsPiece(s[0]);
      var ps := PiecesFor(s);
      assert ps[1..] == PiecesFor(s[1..]) && ps[0] == PieceFor(s[0]);
      Assoc(EscapeChar(s[0]), Escape(s[1..]), rest);
      assert [s[0]] + s[1..] == s;
    }
  }

  lemma QuotedIsString(s: string, rest: string)
    ensures PiecesOk(PiecesFor(s)) && PiecesBytes(PiecesFor(s)) == s && SpellString(PiecesFor(s), rest) == Quote(s) + rest
  {
    EscapedIsPieces(s, ['\"'] + rest);
    Assoc(['\"'] + Escape(s), ['\"'], rest);
    Assoc(['\"'], Escape(s), ['\"'] + rest);
  }

  /** No control character is left in what is printed of a string. */
  lemma {:induction false} EscapedIsPrintable(s: string)
    ensures forall i :: 0 <= i < |Escape(s)| ==> Escape(s)[i] >= ' '
  {
    if s != [] {
      EscapedIsPrintable(s[1..]);
    }
  }

  lemma QuotedIsPrintable(s: string, out: string)
    requires out == Quote(s) + ['\0']
    ensures forall i :: 0 <= i < |out| - 1 ==> out[i] >= ' '
  {
    EscapedIsPrintable(s);
    assert forall i :: 0 < i < |out| - 2 ==> out[i] == Escape(s)[i - 1];
  }

  lemma QuotedReadsBack(s: string, rest: string)
    ensures ParseString(Quote(s) + rest) == Some((WithoutNul(s), rest))
  {
    QuotedIsString(s, rest);
    StringReads(PiecesFor(s), rest);
  }

  // ---------------------------------------------------------------- numbers

  lemma {:induction false} DigitsAreNumeral(n: nat)
    ensures Numeral(Digits(n)) && FromDecimal(Digits(n)) == n && (n > 0 ==> Digits(n)[0] != '0')
  {
    var d := Digits(n);
    if n >= 10 {
      DigitsAreNumeral(n / 10);
      assert d[..|d| - 1] == Digits(n / 10) && DigitValue(d[|d| - 1]) == n % 10;
    } else {
      assert d[..0] == [] && DigitValue(d[0]) == n;
    }
  }

  lemma IntReadsBack(n: int, rest: string)
    requires Ends(rest)
    ensures ParseValue(PrintInt(n) + rest) == Some((Number(n), rest))
  {
    var d := Digits(if n < 0 then -n else n);
    DigitsAreNumeral(if n < 0 then -n else n);
    NumberReads(n < 0, d, rest);
    NumberSpelled(n, rest);
  }

  lemma NumberSpelled(n: int, rest: string)
    ensures Spell(NumberText(n < 0, Digits(if n < 0 then -n else n)), rest) == PrintInt(n) + rest
  {
    if n < 0 {
      Assoc("-", Digits(-n), rest);
    } else {
      assert "" + (Digits(n) + rest) == Digits(n) + rest;
    }
  }

  // ---------------------------------------------------------------- the layout

  /** A new line with its tabs. */
  function NewLine(n: int, fmt: bool): (g: Gap) {
    if fmt then [Blank('\n')] + Indent(n) else []
  }

  function Indent(n: int): (g: Gap) {
    if n <= 0 then [] else [Blank('\t')] + Indent(n - 1)
  }

  function OneBlank(c: char, fmt: bool): (g: Gap) {
    if fmt then [Blank(c)] else []
  }

  /** The tokens of a value with the spacing that cJSON gives them: none, or, when formatted, a blank after
      each comma of an array; every member of an object on a line of its own, one tab for each array and
      object it is in, and a tab before its value; the closing brace on a line with a tab less, or two
      less if the object is empty. */
  function LaidOut(v: Json, depth: nat, fmt: bool): (t: Text)
    decreases v, 1
  {
    match v
    case Null => NullText
    case Bool(b) => BoolText(b)
    case Number(n) => NumberText(n < 0, Digits(if n < 0 then -n else n))
    case String(s) => StringText(PiecesFor(s))
    case Array(items) => ArrayText([], ItemsLaidOut(items, depth + 1, fmt, true))
    case Object(members) => ObjectText(NewLine(depth - 1, fmt), MembersLaidOut(members, depth + 1, fmt))
  }

  function ItemsLaidOut(items: seq<Json>, depth: nat, fmt: bool, first: bool): (r: seq<ItemText>)
    ensures |r| == |items|
    decreases items, 0
  {
    if items == [] then []
    else
      [ItemText(if first then [] else OneBlank(' ', fmt), LaidOut(items[0], depth, fmt), [])] +
      ItemsLaidOut(items[1..], depth, fmt, false)
  }

  function MembersLaidOut(ms: seq<Member>, depth: nat, fmt: bool): (r: seq<MemberText>)
    ensures |r| == |ms|
    decreases ms, 0
  {
    if ms == [] then []
    else
      [MemberText(NewLine(depth, fmt), PiecesFor(ms[0].name), [], OneBlank('\t', fmt), LaidOut(ms[0].value, depth, fmt),
                  if |ms| == 1 then NewLine(depth - 1, fmt) else [])] +
      MembersLaidOut(ms[1..], depth, fmt)
  }

  lemma {:induction false} IndentIsTabs(n: int, s: string)
    ensures GapOk(Indent(n), false) && SpellGap(Indent(n), s) == Tabs(n) + s
  {
    if n > 0 {
      IndentIsTabs(n - 1, s);
      assert Indent(n)[1..] == Indent(n - 1);
      Assoc("\t", Tabs(n - 1), s);
    }
  }

  lemma NewLineSpelled(n: int, fmt: bool, s: string)
    ensures GapOk(NewLine(n, fmt), false) && SpellGap(NewLine(n, fmt), s) == When(fmt, "\n") + (When(fmt, Tabs(n)) + s)
  {
    IndentIsTabs(n, s);
    if fmt {
      assert NewLine(n, fmt)[1..] == Indent(n);
    }
  }

  lemma OneBlankSpelled(c: char, fmt: bool, s: string)
    requires c == ' ' || c == '\t'
    ensures GapOk(OneBlank(c, fmt), false) && SpellGap(OneBlank(c, fmt), s) == When(fmt, [c]) + s
  {
    if fmt {
      assert OneBlank(c, fmt)[1..] == [];
    }
  }

  // ---------------------------------------------------------------- the text of lists, member by member

  lemma ItemsPrinted(items: seq<Json>, depth: nat, fmt: bool, tail: string)
    requires items != []
    ensures PrintItems(items, depth, fmt) + tail == PrintValue(items[0], depth, fmt) +
      (if |items| == 1 then tail else "," + (When(fmt, " ") + (PrintItems(items[1..], depth, fmt) + tail)))
  {
    var first, more := PrintValue(items[0], depth, fmt), PrintItems(items[1..], depth, fmt);
    if |items| == 1 {
      assert more == [] && first + "" + more == first;
    } else {
      var sep := When(fmt, " ");
      Regroup(first, ",", sep, more, tail);
      assert first + ("," + sep) == first + "," + sep;
    }
  }

  function MemberHead(m: Member, depth: nat, fmt: bool): (r: string) {
    When(fmt, Tabs(depth)) + Quote(m.name) + ":" + When(fmt, "\t") + PrintValue(m.value, depth, fmt)
  }

  lemma MembersPrinted(members: seq<Member>, depth: nat, fmt: bool, tail: string)
    requires members != []
    ensures PrintMembers(members, depth, fmt) + tail == MemberHead(members[0], depth, fmt) +
      (if |members| == 1 then When(fmt, "\n") + tail
       else "," + (When(fmt, "\n") + (PrintMembers(members[1..], depth, fmt) + tail)))
  {
    var head, more, nl := MemberHead(members[0], depth, fmt), PrintMembers(members[1..], depth, fmt), When(fmt, "\n");
    if |members| == 1 {
      assert more == [] && PrintMembers(members, depth, fmt) == head + "" + nl + more;
      Regroup(head, "", nl, more, tail);
      assert [] + tail == tail && "" + (nl + tail) == nl + tail;
    } else {
      assert PrintMembers(members, depth, fmt) == head + "," + nl + more;
      Regroup(head, ",", nl, more, tail);
    }
  }

  function ClosingTabs(members: seq<Member>, depth: nat, fmt: bool): (r: string) {
    When(fmt, Tabs(if members == [] then depth - 1 else depth))
  }

  lemma ObjectPrinted(members: seq<Member>, depth: nat, fmt: bool, rest: string)
    ensures PrintValue(Object(members), depth, fmt) + rest ==
      ['{'] + (When(fmt, "\n") + (PrintMembers(members, depth + 1, fmt) + (ClosingTabs(members, depth, fmt) + (['}'] + rest))))
  {
    var body, nl, tabs := PrintMembers(members, depth + 1, fmt), When(fmt, "\n"), ClosingTabs(members, depth, fmt);
    assert PrintValue(Object(members), depth, fmt) == "{" + nl + body + (tabs + "}");
    Regroup("{", nl, body, tabs + "}", rest);
    Assoc(tabs, "}", rest);
  }

  // ---------------------------------------------------------------- the layout stands for the value

  lemma {:induction false} LaidOutIsLegal(v: Json, depth: nat, fmt: bool)
    ensures Legal(LaidOut(v, depth, fmt), false) && Denoted(LaidOut(v, depth, fmt), false) == v
    decreases v, 1
  {
    match v
    case Null =>
    case Bool(_) =>
    case Number(n) => DigitsAreNumeral(if n < 0 then -n else n);
    case String(s) => EscapedIsPieces(s, []);
    case Array(items) => ItemsAreLegal(items, depth + 1, fmt, true);
    case Object(members) =>
      MembersAreLegal(members, depth + 1, fmt);
      NewLineSpelled(depth - 1, fmt, []);
  }

  lemma {:induction false} ItemsAreLegal(items: seq<Json>, depth: nat, fmt: bool, first: bool)
    ensures var r := ItemsLaidOut(items, depth, fmt, first); ItemsOk(r) && DenotedItems(r, false) == items
    decreases items, 0
  {
    if items != [] {
      var r := ItemsLaidOut(items, depth, fmt, first);
      LaidOutIsLegal(items[0], depth, fmt);
      OneBlankSpelled(' ', fmt, []);
      ItemsAreLegal(items[1..], depth, fmt, false);
      assert ItemOk(r[0], false) && r[1..] == ItemsLaidOut(items[1..], depth, fmt, false);
      assert items == [items[0]] + items[1..];
    }
  }

  lemma {:induction false} MembersAreLegal(members: seq<Member>, depth: nat, fmt: bool)
    ensures var r := MembersLaidOut(members, depth, fmt); MembersOk(r) && DenotedMembers(r, false) == members
    decreases members, 0
  {
    if members != [] {
      var r := MembersLaidOut(members, depth, fmt);
      LaidOutIsLegal(members[0].value, depth, fmt);
      EscapedIsPieces(members[0].name, []);
      OneBlankSpelled('\t', fmt, []);
      NewLineSpelled(depth, fmt, []);
      NewLineSpelled(depth - 1, fmt, []);
      MembersAreLegal(members[1..], depth, fmt);
      assert MemberOk(r[0], false) && r[1..] == MembersLaidOut(members[1..], depth, fmt);
      assert members == [members[0]] + members[1..];
    }
  }

  // ---------------------------------------------------------------- the layout is printed

  lemma {:induction false} LaidOutIsPrinted(v: Json, depth: nat, fmt: bool, rest: string)
    ensures Spell(LaidOut(v, depth, fmt), rest) == PrintValue(v, depth, fmt) + rest
    decreases v, 1
  {
    match v
    case Null =>
    case Bool(_) =>
    case Number(n) => NumberSpelled(n, rest);
    case String(s) => QuotedIsString(s, rest);
    case Array(items) => ArrayIsPrinted(items, depth, fmt, rest);
    case Object(members) => ObjectIsPrinted(members, depth, fmt, rest);
  }

  lemma {:induction false} ArrayIsPrinted(items: seq<Json>, depth: nat, fmt: bool, rest: string)
    ensures Spell(LaidOut(Array(items), depth, fmt), rest) == PrintValue(Array(items), depth, fmt) + rest
    decreases items, 2
  {
    var close, body := [']'] + rest, PrintItems(items, depth + 1, fmt);
    assert "[" + body + "]" + rest == ['['] + (body + close);
    if items == [] {
      assert body + close == close;
    } else {
      ItemsArePrinted(items, depth + 1, fmt, true, close);
      assert [] + (body + close) == body + close;
    }
  }

  lemma {:induction false} ItemsArePrinted(items: seq<Json>, depth: nat, fmt: bool, first: bool, tail: string)
    requires items != []
    ensures SpellItems(ItemsLaidOut(items, depth, fmt, first), tail) == When(!first && fmt, " ") + (PrintItems(items, depth, fmt) + tail)
    decreases items, 1
  {
    var r := ItemsLaidOut(items, depth, fmt, first);
    assert r[1..] == ItemsLaidOut(items[1..], depth, fmt, false);
    ItemsPrinted(items, depth, fmt, tail);
    var more := if |items| == 1 then tail else [','] + SpellItems(r[1..], tail);
    if |items| > 1 {
      ItemsArePrinted(items[1..], depth, fmt, false, tail);
    }
    LaidOutIsPrinted(items[0], depth, fmt, more);
    assert PrintValue(items[0], depth, fmt) + more == PrintItems(items, depth, fmt) + tail;
    ItemIsPrinted(first, fmt, PrintItems(items, depth, fmt) + tail);
  }

  lemma ItemIsPrinted(first: bool, fmt: bool, s: string)
    ensures SpellGap(if first then [] else OneBlank(' ', fmt), s) == When(!first && fmt, " ") + s
  {
    OneBlankSpelled(' ', fmt, s);
  }

  lemma {:induction false} ObjectIsPrinted(members: seq<Member>, depth: nat, fmt: bool, rest: string)
    ensures Spell(LaidOut(Object(members), depth, fmt), rest) == PrintValue(Object(members), depth, fmt) + rest
    decreases members, 5
  {
    var r := MembersLaidOut(members, depth + 1, fmt);
    BodyIsPrinted(members, r, depth, fmt, ['}'] + rest);
    ObjectPrinted(members, depth, fmt, rest);
  }

  lemma {:induction false} BodyIsPrinted(members: seq<Member>, r: seq<MemberText>, depth: nat, fmt: bool, close: string)
    requires r == MembersLaidOut(members, depth + 1, fmt)
    ensures (if r == [] then SpellGap(NewLine(depth - 1, fmt), close) else SpellMembers(r, close)) ==
      When(fmt, "\n") + (PrintMembers(members, depth + 1, fmt) + (ClosingTabs(members, depth, fmt) + close))
    decreases members, 4
  {
    if members == [] {
      NewLineSpelled(depth - 1, fmt, close);
      assert [] + (When(fmt, Tabs(depth - 1)) + close) == When(fmt, Tabs(depth - 1)) + close;
    } else {
      MembersArePrinted(members, depth + 1, fmt, close);
    }
  }

  lemma {:induction false} MembersArePrinted(members: seq<Member>, depth: nat, fmt: bool, tail: string)
    requires members != []
    ensures SpellMembers(MembersLaidOut(members, depth, fmt), tail) ==
      When(fmt, "\n") + (PrintMembers(members, depth, fmt) + (When(fmt, Tabs(depth - 1)) + tail))
    decreases members, 3
  {
    var r := MembersLaidOut(members, depth, fmt);
    assert r[1..] == MembersLaidOut(members[1..], depth, fmt);
    var close := When(fmt, Tabs(depth - 1)) + tail;
    MembersPrinted(members, depth, fmt, close);
    if |members| == 1 {
      MemberIsPrinted(members[0], r[0], depth, fmt, tail);
      NewLineSpelled(depth - 1, fmt, tail);
    } else {
      var more := [','] + SpellMembers(r[1..], tail);
      MembersArePrinted(members[1..], depth, fmt, tail);
      MemberIsPrinted(members[0], r[0], depth, fmt, more);
    }
  }

  lemma {:induction false} MemberIsPrinted(m: Member, r: MemberText, depth: nat, fmt: bool, more: string)
    requires r == MemberText(NewLine(depth, fmt), PiecesFor(m.name), [], OneBlank('\t', fmt), LaidOut(m.value, depth, fmt), r.after)
    ensures SpellGap(r.before, SpellString(r.name, SpellGap(r.afterName, [':'] + SpellEntry(r, more)))) ==
      When(fmt, "\n") + (MemberHead(m, depth, fmt) + SpellGap(r.after, more))
    decreases m, 2
  {
    var tail := SpellGap(r.after, more);
    LaidOutIsPrinted(m.value, depth, fmt, tail);
    var value := PrintValue(m.value, depth, fmt) + tail;
    OneBlankSpelled('\t', fmt, value);
    var entry := [':'] + (When(fmt, "\t") + value);
    QuotedIsString(m.name, entry);
    NewLineSpelled(depth, fmt, Quote(m.name) + entry);
    HeadSpelled(m, depth, fmt, tail);
  }

  lemma HeadSpelled(m: Member, depth: nat, fmt: bool, tail: string)
    ensures MemberHead(m, depth, fmt) + tail ==
      When(fmt, Tabs(depth)) + (Quote(m.name) + ([':'] + (When(fmt, "\t") + (PrintValue(m.value, depth, fmt) + tail))))
  {
    var value := PrintValue(m.value, depth, fmt);
    Assoc(When(fmt, Tabs(depth)) + Quote(m.name) + ":" + When(fmt, "\t"), value, tail);
    Regroup(When(fmt, Tabs(depth)), Quote(m.name), ":", When(fmt, "\t"), value + tail);
  }

  /** What is printed for a value is a JSON text in that layout, and stands for the value. */
  lemma PrintedIsText(v: Json, depth: nat, fmt: bool, rest: string)
    ensures Spell(LaidOut(v, depth, fmt), rest) == PrintValue(v, depth, fmt) + rest
    ensures Legal(LaidOut(v, depth, fmt), false) && Denoted(LaidOut(v, depth, fmt), false) == v
  {
    LaidOutIsPrinted(v, depth, fmt, rest);
    LaidOutIsLegal(v, depth, fmt);
  }

  // ---------------------------------------------------------------- values survive

  /** The first character of a printed value is neither a space nor a closing bracket. */
  lemma PrintedStarts(v: Json, depth: nat, fmt: bool)
    ensures var r := PrintValue(v, depth, fmt); r != [] && r[0] > ' ' && r[0] != ']' && r[0] != '}'
  {
    if v.Number? {
      DigitsAreNumeral(if v.n < 0 then -v.n else v.n);
    }
  }

  /** Every value is read back from its text, formatted or not and at any depth, but for the zero bytes in
      it, and the text is consumed to its last character. */
  lemma PrintedReadsBack(v: Json, depth: nat, fmt: bool, rest: string)
    requires Ends(rest)
    ensures ParseValue(PrintValue(v, depth, fmt) + rest) == Some((Cut(v), rest))
  {
    PrintedIsText(v, depth, fmt, rest);
    TextReads(LaidOut(v, depth, fmt), rest);
  }

  lemma {:induction false} StorableIsNulFree(v: Json)
    requires Storable(v)
    ensures NulFreeValue(v)
  {
    match v
    case Array(items) =>
      forall i | 0 <= i < |items| ensures NulFreeValue(items[i]) {
        StorableIsNulFree(items[i]);
      }
    case Object(members) =>
      forall i | 0 <= i < |members| ensures NulFreeValue(members[i].value) {
        StorableIsNulFree(members[i].value);
      }
    case _ =>
  }

  /** `cJSON_Print` and `cJSON_PrintUnformatted` are undone by `cJSON_Parse`. */
  lemma PrintParse(v: Json, fmt: bool)
    requires Storable(v)
    ensures ParseText(PrintValue(v, 0, fmt)) == Some(v)
    ensures ParseValue(PrintValue(v, 0, fmt)) == Some((v, []))
  {
    StorableIsNulFree(v);
    CutIsWhole(v);
    PrintedReadsBack(v, 0, fmt, []);
    PrintedStarts(v, 0, fmt);
    assert PrintValue(v, 0, fmt) + [] == PrintValue(v, 0, fmt);
    SkipNothing(PrintValue(v, 0, fmt));
  }

  /** Equal text means equal values: printing loses nothing. */
  lemma PrintIsInjective(v: Json, w: Json, fmt: bool, fmt': bool)
    requires Storable(v) && Storable(w) && PrintValue(v, 0, fmt) == PrintValue(w, 0, fmt')
    ensures v == w
  {
    PrintParse(v, fmt);
    PrintParse(w, fmt');
  }
}
