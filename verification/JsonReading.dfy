/** `cJSON_Parse` reads every JSON text whose numbers are integers as the value it stands for. */
module JsonReading {
  import opened Wrappers
  import opened CText
  import opened Json
  import opened JsonGrammar

  // ---------------------------------------------------------------- spacing

  lemma SkipNothing(s: string)
    requires s != [] && s[0] > ' '
    ensures Skip(s) == s
  {
  }

  lemma {:induction false} SkipTwice(s: string)
    ensures Skip(Skip(s)) == Skip(s)
  {
    if s != [] && IsSpace(s[0]) {
      SkipTwice(s[1..]);
    }
  }

  /** Everything up to the first character above 32, or to the end of the string, is skipped. */
  lemma {:induction false} SkipExactly(s: string)
    ensures var k := |s| - |Skip(s)|;
      && Skip(s) == s[k..] && (forall i :: 0 <= i < k ==> 0 < s[i] as int <= 32)
      && (k < |s| ==> s[k] as int == 0 || s[k] as int > 32)
  {
    if s != [] && IsSpace(s[0]) {
      SkipExactly(s[1..]);
    }
  }

  lemma {:induction false} SkipGap(g: Gap, s: string)
    requires GapOk(g, false)
    ensures Skip(SpellGap(g, s)) == Skip(s)
  {
    if g != [] {
      var more := SpellGap(g[1..], s);
      assert SpaceOk(g[0], false);
      assert SpellGap(g, s)[1..] == more;
      SkipGap(g[1..], s);
    }
  }

  /** What may follow a number without becoming part of it. */
  predicate Ends(rest: string) {
    rest != [] ==> !IsDigit(rest[0]) && rest[0] != '.' && rest[0] != 'e' && rest[0] != 'E'
  }

  lemma EndsInGap(g: Gap, s: string)
    requires GapOk(g, false) && Ends(s)
    ensures Ends(SpellGap(g, s))
  {
    assert g != [] ==> SpaceOk(g[0], false);
  }

  // ---------------------------------------------------------------- zero bytes

  /** C strings end at the first zero byte, so reading leaves zero bytes out. */
  function WithoutNul(s: string): (r: string) {
    if s == [] then [] else (if s[0] == '\0' then [] else [s[0]]) + WithoutNul(s[1..])
  }

  function Cut(v: Json): (r: Json)
    decreases v, 1
  {
    match v
    case String(s) => String(WithoutNul(s))
    case Array(items) => Array(CutItems(items))
    case Object(members) => Object(CutMembers(members))
    case _ => v
  }

  function CutItems(items: seq<Json>): (r: seq<Json>)
    decreases items, 0
  {
    if items == [] then [] else [Cut(items[0])] + CutItems(items[1..])
  }

  function CutMembers(ms: seq<Member>): (r: seq<Member>)
    decreases ms, 0
  {
    if ms == [] then [] else [Member(WithoutNul(ms[0].name), Cut(ms[0].value))] + CutMembers(ms[1..])
  }

  lemma {:induction false} NothingToCut(s: string)
    ensures |WithoutNul(s)| <= |s| && (WithoutNul(s) == s <==> NulFree(s))
  {
    if s != [] {
      NothingToCut(s[1..]);
      assert s == [s[0]] + s[1..];
    }
  }

  lemma {:induction false} CutConcat(a: string, b: string)
    ensures WithoutNul(a + b) == WithoutNul(a) + WithoutNul(b)
  {
    if a == [] {
      assert a + b == b;
    } else {
      CutConcat(a[1..], b);
      var first := if a[0] == '\0' then [] else [a[0]];
      assert (a + b)[0] == a[0] && (a + b)[1..] == a[1..] + b;
      Assoc(first, WithoutNul(a[1..]), WithoutNul(b));
    }
  }

  lemma CutItemsFirst(v: Json, rest: seq<Json>)
    ensures CutItems([v] + rest) == [Cut(v)] + CutItems(rest)
  {
    assert ([v] + rest)[1..] == rest;
  }

  lemma CutMembersFirst(m: Member, rest: seq<Member>)
    ensures CutMembers([m] + rest) == [Member(WithoutNul(m.name), Cut(m.value))] + CutMembers(rest)
  {
    assert ([m] + rest)[1..] == rest;
  }

  predicate NulFreeValue(v: Json) {
    match v
    case String(s) => NulFree(s)
    case Array(items) => forall i :: 0 <= i < |items| ==> NulFreeValue(items[i])
    case Object(members) => forall i :: 0 <= i < |members| ==> NulFree(members[i].name) && NulFreeValue(members[i].value)
    case _ => true
  }

  /** Nothing is left out of a value exactly if there is no zero byte in it. */
  lemma {:induction false} CutIsWhole(v: Json)
    ensures Cut(v) == v <==> NulFreeValue(v)
    decreases v, 1
  {
    match v
    case String(s) => NothingToCut(s);
    case Array(items) => CutItemsWhole(items);
    case Object(members) => CutMembersWhole(members);
    case _ =>
  }

  lemma {:induction false} CutItemsWhole(items: seq<Json>)
    ensures CutItems(items) == items <==> forall i :: 0 <= i < |items| ==> NulFreeValue(items[i])
    decreases items, 0
  {
    if items != [] {
      CutIsWhole(items[0]);
      CutItemsWhole(items[1..]);
      assert items == [items[0]] + items[1..];
      assert forall i :: 0 < i < |items| ==> items[i] == items[1..][i - 1];
    }
  }

  lemma {:induction false} CutMembersWhole(ms: seq<Member>)
    ensures CutMembers(ms) == ms <==> forall i :: 0 <= i < |ms| ==> NulFree(ms[i].name) && NulFreeValue(ms[i].value)
    decreases ms, 0
  {
    if ms != [] {
      NothingToCut(ms[0].name);
      CutIsWhole(ms[0].value);
      CutMembersWhole(ms[1..]);
      assert ms == [ms[0]] + ms[1..];
      assert forall i :: 0 < i < |ms| ==> ms[i] == ms[1..][i - 1];
    }
  }

  // ---------------------------------------------------------------- strings

  function Prepend(b: string, r: Option<(string, string)>): (r': Option<(string, string)>) {
    if r.None? then None else Some((b + r.value.0, r.value.1))
  }

  lemma HexSnoc(h: string, k: nat)
    requires k < |h|
    ensures FromHex(h[..k + 1]) == 16 * FromHex(h[..k]) + DigitValue(h[k])
  {
    assert h[..k + 1][..k] == h[..k];
  }

  lemma FromFourHex(h: string)
    requires |h| == 4
    ensures FromHex(h) == 16 * (16 * (16 * DigitValue(h[0]) + DigitValue(h[1])) + DigitValue(h[2])) + DigitValue(h[3])
  {
    HexSnoc(h, 0);
    HexSnoc(h, 1);
    HexSnoc(h, 2);
    HexSnoc(h, 3);
    assert h[..4] == h && h[..0] == [];
  }

  lemma HexDigitReads(c: char)
    requires IsHexDigit(c)
    ensures HexValue(c) == Some(DigitValue(c)) && DigitValue(c) < 16
  {
  }

  lemma HexDigits(h: string)
    requires FourHex(h)
    ensures ParseHex4(h) == FromHex(h) < 0x1_0000
  {
    FromFourHex(h);
    HexDigitReads(h[0]);
    HexDigitReads(h[1]);
    HexDigitReads(h[2]);
    HexDigitReads(h[3]);
  }

  lemma HexPrefix(h: string, rest: string)
    requires FourHex(h)
    ensures |h + rest| >= 4 && ParseHex4(h + rest) == FromHex(h) < 0x1_0000
  {
    HexDigits(h);
    assert forall i :: 0 <= i < 4 ==> (h + rest)[i] == h[i];
  }

  lemma HighByte(b: nat)
    requires 0 < b < 0x100
    ensures Byte(b) != '\0'
  {
  }

  lemma Utf8NoNul(uc: nat)
    requires 0 < uc < 0x11_0000
    ensures NulFree(Utf8(uc))
  {
    assert uc / 0x40 % 0x40 < 0x40 && uc / 0x1000 % 0x40 < 0x40 && uc % 0x40 < 0x40;
    if 0x80 <= uc < 0x800 {
      HighByte(0xC0 + uc / 0x40);
    } else if 0x800 <= uc < 0x1_0000 {
      HighByte(0xE0 + uc / 0x1000);
    } else if 0x1_0000 <= uc {
      HighByte(0xF0 + uc / 0x4_0000);
    }
    HighByte(0x80 + uc / 0x1000 % 0x40);
    HighByte(0x80 + uc / 0x40 % 0x40);
    HighByte(0x80 + uc % 0x40);
  }

  lemma ZeroIsCut()
    ensures WithoutNul(Utf8(0)) == []
  {
    assert Utf8(0) == ['\0'] && ['\0'][1..] == [];
  }

  lemma UnitReads(h: string, rest: string)
    requires PieceOk(Unit(h))
    ensures ParseChars("\\u" + h + rest) == Prepend(WithoutNul(PieceBytes(Unit(h))), ParseChars(rest))
  {
    var s := "\\u" + h + rest;
    HexPrefix(h, rest);
    assert s[0] == '\\' && s[1] == 'u' && s[2..] == h + rest && s[6..] == rest;
    if FromHex(h) == 0 {
      ZeroIsCut();
    } else {
      Utf8NoNul(FromHex(h));
      NothingToCut(PieceBytes(Unit(h)));
    }
  }

  lemma PairCode(h: nat, l: nat)
    requires 0xD800 <= h <= 0xDBFF && 0xDC00 <= l <= 0xDFFF
    ensures 0x1_0000 + (h % 0x400) * 0x400 + l % 0x400 == 0x1_0000 + (h - 0xD800) * 0x400 + (l - 0xDC00)
  {
    assert h % 0x400 == h - 0xD800 && l % 0x400 == l - 0xDC00;
  }

  lemma PairDecodes(high: string, low: string, rest: string)
    requires PieceOk(Pair(high, low))
    ensures ParseUnicode(high + ("\\u" + (low + rest))) == Some((PieceBytes(Pair(high, low)), 10))
  {
    var u := high + ("\\u" + (low + rest));
    HexPrefix(high, "\\u" + (low + rest));
    HexPrefix(low, rest);
    PairCode(FromHex(high), FromHex(low));
    assert u[4] == '\\' && u[5] == 'u' && u[6..] == low + rest;
  }

  lemma PairIsWhole(high: string, low: string)
    requires PieceOk(Pair(high, low))
    ensures WithoutNul(PieceBytes(Pair(high, low))) == PieceBytes(Pair(high, low))
  {
    Utf8NoNul(0x1_0000 + (FromHex(high) - 0xD800) * 0x400 + (FromHex(low) - 0xDC00));
    NothingToCut(PieceBytes(Pair(high, low)));
  }

  lemma PairReads(high: string, low: string, rest: string)
    requires PieceOk(Pair(high, low))
    ensures ParseChars("\\u" + high + "\\u" + low + rest) == Prepend(WithoutNul(PieceBytes(Pair(high, low))), ParseChars(rest))
  {
    PairIsWhole(high, low);
    var s, u := "\\u" + high + "\\u" + low + rest, high + ("\\u" + (low + rest));
    PairDecodes(high, low, rest);
    assert s[0] == '\\' && s[1] == 'u' && s[2..] == u && s[12..] == rest;
  }

  lemma PieceReads(p: Piece, rest: string)
    requires PieceOk(p)
    ensures ParseChars(PieceText(p) + rest) == Prepend(WithoutNul(PieceBytes(p)), ParseChars(rest))
  {
    var s := PieceText(p) + rest;
    match p
    case Plain(c) =>
      assert s[0] == c && s[1..] == rest;
      NothingToCut([c]);
    case Short(letter) =>
      assert s[0] == '\\' && s[1] == letter && s[2..] == rest;
      assert letter != 'u' && UnescapeChar(letter) == SHORT_ESCAPES[letter];
      NothingToCut([SHORT_ESCAPES[letter]]);
    case Unit(h) => UnitReads(h, rest);
    case Pair(high, low) => PairReads(high, low, rest);
  }

  lemma {:induction false} PiecesRead(ps: seq<Piece>, rest: string)
    requires PiecesOk(ps)
    ensures ParseChars(SpellPieces(ps, ['\"'] + rest)) == Some((WithoutNul(PiecesBytes(ps)), rest))
  {
    if ps == [] {
      assert (['\"'] + rest)[1..] == rest;
    } else {
      PiecesRead(ps[1..], rest);
      PieceReads(ps[0], SpellPieces(ps[1..], ['\"'] + rest));
      CutConcat(PieceBytes(ps[0]), PiecesBytes(ps[1..]));
    }
  }

  /** A string is read as the bytes it stands for, without the bytes that a C string cannot hold. */
  lemma StringReads(ps: seq<Piece>, rest: string)
    requires PiecesOk(ps)
    ensures ParseString(SpellString(ps, rest)) == Some((WithoutNul(PiecesBytes(ps)), rest))
  {
    PiecesRead(ps, rest);
    assert SpellString(ps, rest)[1..] == SpellPieces(ps, ['\"'] + rest);
  }

  // ---------------------------------------------------------------- what is no escape

  /** A backslash before any other character is dropped. */
  lemma OddEscapeReads(c: char, rest: string)
    requires c != 'u' && c !in SHORT_ESCAPES
    ensures ParseChars(['\\', c] + rest) == Prepend([c], ParseChars(rest))
  {
    var s := ['\\', c] + rest;
    assert s[0] == '\\' && s[1] == c && s[2..] == rest;
  }

  /** Four characters that are no number, and a second surrogate without a first, are dropped. */
  lemma BadUnitIsDropped(h: string, rest: string)
    requires |h| == 4 && (FourHex(h) ==> 0xDC00 <= FromHex(h) <= 0xDFFF)
    ensures ParseChars("\\u" + h + rest) == Prepend([], ParseChars(rest))
  {
    var s := "\\u" + h + rest;
    assert s[0] == '\\' && s[1] == 'u' && s[2..] == h + rest && s[6..] == rest;
    assert forall i :: 0 <= i < 4 ==> (h + rest)[i] == h[i];
    if FourHex(h) {
      HexPrefix(h, rest);
    } else {
      NotFourHex(h + rest);
    }
  }

  lemma NotFourHex(s: string)
    requires |s| >= 4 && exists i :: 0 <= i < 4 && !IsHexDigit(s[i])
    ensures ParseHex4(s) == 0
  {
    var i :| 0 <= i < 4 && !IsHexDigit(s[i]);
    assert HexValue(s[i]).None?;
  }

  /** So is a first surrogate that no escape follows. */
  lemma LoneSurrogateIsDropped(h: string, rest: string)
    requires FourHex(h) && 0xD800 <= FromHex(h) <= 0xDBFF && !StartsWith(rest, "\\u")
    ensures ParseChars("\\u" + h + rest) == Prepend([], ParseChars(rest))
  {
    var s := "\\u" + h + rest;
    HexPrefix(h, rest);
    assert s[0] == '\\' && s[1] == 'u' && s[2..] == h + rest && s[6..] == rest;
    assert |rest| >= 2 ==> rest[..2] == [rest[0], rest[1]];
    assert |rest| >= 1 ==> (h + rest)[4] == rest[0];
    assert |rest| >= 2 ==> (h + rest)[5] == rest[1];
  }

  /** So are both halves of a pair whose second half is none. */
  lemma BadPairIsDropped(high: string, low: string, rest: string)
    requires FourHex(high) && 0xD800 <= FromHex(high) <= 0xDBFF && |low| == 4
    requires FourHex(low) ==> !(0xDC00 <= FromHex(low) <= 0xDFFF)
    ensures ParseChars("\\u" + high + "\\u" + low + rest) == Prepend([], ParseChars(rest))
  {
    var s, u := "\\u" + high + "\\u" + low + rest, high + ("\\u" + (low + rest));
    HexPrefix(high, "\\u" + (low + rest));
    assert u[4] == '\\' && u[5] == 'u' && u[6..] == low + rest;
    assert s[0] == '\\' && s[1] == 'u' && s[2..] == u && s[12..] == rest;
    assert forall i :: 0 <= i < 4 ==> (low + rest)[i] == low[i];
    if FourHex(low) {
      HexPrefix(low, rest);
    } else {
      NotFourHex(low + rest);
    }
  }

  // ---------------------------------------------------------------- numbers

  /** The number that is read after `m` when digits follow. */
  function Continued(m: nat, d: string): (n: nat) {
    if d == [] then m else 10 * Continued(m, d[..|d| - 1]) + DigitValue(d[|d| - 1])
  }

  lemma {:induction false} ContinuedFirst(m: nat, d: string)
    requires d != []
    ensures Continued(m, d) == Continued(10 * m + DigitValue(d[0]), d[1..])
  {
    if |d| > 1 {
      ContinuedFirst(m, d[..|d| - 1]);
      assert d[..|d| - 1][1..] == d[1..][..|d| - 2];
    }
  }

  lemma {:induction false} ContinuedFromZero(d: string)
    ensures Continued(0, d) == FromDecimal(d)
  {
    if d != [] {
      ContinuedFromZero(d[..|d| - 1]);
    }
  }

  lemma {:induction false} DigitsRead(d: string, m: nat, rest: string)
    requires (forall i :: 0 <= i < |d| ==> IsDigit(d[i])) && (rest != [] ==> !IsDigit(rest[0]))
    ensures ParseDigits(d + rest, m) == (Continued(m, d), rest)
  {
    if d == [] {
      assert d + rest == rest;
    } else {
      DigitsRead(d[1..], m * 10 + DigitValue(d[0]), rest);
      ContinuedFirst(m, d);
      assert (d + rest)[0] == d[0] && (d + rest)[1..] == d[1..] + rest;
    }
  }

  lemma NumeralStarts(d: string, rest: string)
    requires Numeral(d)
    ensures d != [] && IsDigit(d[0]) && (d + rest)[0] == d[0] && (d[0] == '0' ==> (d + rest)[1..] == rest)
  {
  }

  lemma NumeralReads(d: string, rest: string)
    requires Numeral(d) && Ends(rest) && d[0] != '0'
    ensures ParseDigits(d + rest, 0) == (FromDecimal(d), rest)
  {
    DigitsRead(d, 0, rest);
    ContinuedFromZero(d);
  }

  lemma ZeroIsZero()
    ensures FromDecimal("0") == 0
  {
    assert "0"[..0] == [];
  }

  lemma PositiveReads(d: string, rest: string)
    requires Numeral(d) && Ends(rest)
    ensures d + rest != [] && IsDigit((d + rest)[0]) && ParseNumber(d + rest) == Some((FromDecimal(d), rest))
  {
    NumeralStarts(d, rest);
    if d[0] == '0' {
      ZeroIsZero();
    } else {
      NumeralReads(d, rest);
    }
  }

  lemma NegativeReads(d: string, rest: string)
    requires Numeral(d) && Ends(rest)
    ensures ParseNumber("-" + (d + rest)) == Some((0 - FromDecimal(d), rest))
  {
    NumeralStarts(d, rest);
    assert ("-" + (d + rest))[1..] == d + rest;
    if d[0] == '0' {
      ZeroIsZero();
    } else {
      NumeralReads(d, rest);
    }
  }

  lemma ReadNumber(s: string)
    requires s != [] && (s[0] == '-' || IsDigit(s[0]))
    ensures ParseValue(s) == var r := ParseNumber(s); if r.None? then None else Some((Number(r.value.0), r.value.1))
  {
    NotAWord(s);
  }

  lemma NumberReads(negative: bool, d: string, rest: string)
    requires Numeral(d) && Ends(rest)
    ensures ParseValue(Spell(NumberText(negative, d), rest)) ==
      Some((Number(if negative then 0 - FromDecimal(d) else FromDecimal(d)), rest))
  {
    if negative {
      NegativeReads(d, rest);
      ReadNumber("-" + (d + rest));
    } else {
      PositiveReads(d, rest);
      ReadNumber(d + rest);
      assert "" + (d + rest) == d + rest;
    }
  }

  /** One zero in front of a number is skipped. */
  lemma LeadingZeroReads(d: string, rest: string)
    requires Numeral(d) && d[0] != '0' && Ends(rest)
    ensures ParseValue("0" + (d + rest)) == Some((Number(FromDecimal(d)), rest))
  {
    var s := "0" + (d + rest);
    assert s[1..] == d + rest;
    NumeralStarts(d, rest);
    NumeralReads(d, rest);
    ReadNumber(s);
  }

  // ---------------------------------------------------------------- values

  /** A text starts with the first character of a token. */
  lemma SpellStarts(t: Text, comments: bool, rest: string)
    requires Legal(t, comments)
    ensures var s := Spell(t, rest); s != [] && s[0] > ' ' && s[0] != ']' && s[0] != '}' && s[0] != ','
  {
    if t.NumberText? {
      assert t.digits != [] && IsDigit(t.digits[0]);
    }
  }

  lemma LiteralsRead(rest: string)
    ensures ParseValue("null" + rest) == Some((Null, rest))
    ensures ParseValue("true" + rest) == Some((Bool(true), rest))
    ensures ParseValue("false" + rest) == Some((Bool(false), rest))
  {
    assert ("null" + rest)[..4] == "null" && ("null" + rest)[4..] == rest;
    assert ("true" + rest)[..4] == "true" && ("true" + rest)[4..] == rest;
    assert ("false" + rest)[0] == 'f' && ("false" + rest)[..5] == "false" && ("false" + rest)[5..] == rest;
  }

  lemma NotAWord(s: string)
    requires s != [] && s[0] != 'n' && s[0] != 'f' && s[0] != 't'
    ensures !StartsWith(s, "null") && !StartsWith(s, "false") && !StartsWith(s, "true")
  {
  }

  lemma ReadArray(s: string)
    ensures ParseValue(['['] + s) ==
      var s1 := Skip(s);
      if s1 != [] && s1[0] == ']' then Some((Array([]), s1[1..]))
      else var r := ParseItems(s1); if r.None? then None else Some((Array(r.value.0), r.value.1))
  {
    NotAWord(['['] + s);
    assert (['['] + s)[1..] == s;
  }

  lemma ReadObject(s: string)
    ensures ParseValue(['{'] + s) ==
      var s1 := Skip(s);
      if s1 != [] && s1[0] == '}' then Some((Object([]), s1[1..]))
      else var r := ParseMembers(s1); if r.None? then None else Some((Object(r.value.0), r.value.1))
  {
    NotAWord(['{'] + s);
    assert (['{'] + s)[1..] == s;
  }

  predicate ItemsOk(items: seq<ItemText>) {
    forall i :: 0 <= i < |items| ==> ItemOk(items[i], false)
  }

  predicate MembersOk(ms: seq<MemberText>) {
    forall i :: 0 <= i < |ms| ==> MemberOk(ms[i], false)
  }

  /** Every JSON text with integer numbers is read as the value it stands for, whatever its spacing and
      however its strings are escaped, but for the zero bytes in it, and is consumed to its last
      character. */
  lemma {:induction false} TextReads(t: Text, rest: string)
    requires Legal(t, false) && Ends(rest)
    ensures ParseValue(Spell(t, rest)) == Some((Cut(Denoted(t, false)), rest))
    decreases t, 1
  {
    match t
    case NullText => LiteralsRead(rest);
    case BoolText(_) => LiteralsRead(rest);
    case NumberText(negative, d) =>
      NumberReads(negative, d, rest);
    case StringText(ps) =>
      StringReads(ps, rest);
      NotAWord(SpellString(ps, rest));
    case ArrayText(g, items) => ArrayReads(g, items, rest);
    case ObjectText(g, ms) => ObjectReads(g, ms, rest);
  }

  /** `cJSON_Parse` takes spacing before the text, and whatever comes after it. */
  lemma DocumentReads(g: Gap, t: Text, rest: string)
    requires GapOk(g, false) && Legal(t, false) && Ends(rest)
    ensures ParseText(SpellGap(g, Spell(t, rest))) == Some(Cut(Denoted(t, false)))
  {
    SkipGap(g, Spell(t, rest));
    SpellStarts(t, false, rest);
    SkipNothing(Spell(t, rest));
    TextReads(t, rest);
  }

  lemma {:induction false} ArrayReads(g: Gap, items: seq<ItemText>, rest: string)
    requires Legal(ArrayText(g, items), false)
    ensures ParseValue(Spell(ArrayText(g, items), rest)) == Some((Cut(Denoted(ArrayText(g, items), false)), rest))
    decreases items, 2
  {
    var close := [']'] + rest;
    assert close[1..] == rest;
    SkipNothing(close);
    if items == [] {
      SkipGap(g, close);
      ReadArray(SpellGap(g, close));
    } else {
      ItemsRead(items, rest);
      ItemsStart(items, close);
      var body := SpellItems(items, close);
      SkipTwice(body);
      ReadArray(body);
    }
  }

  lemma ItemsStart(items: seq<ItemText>, rest: string)
    requires items != [] && ItemsOk(items)
    ensures var s := Skip(SpellItems(items, rest)); s != [] && s[0] != ']'
  {
    var more := if |items| == 1 then rest else [','] + SpellItems(items[1..], rest);
    var value := Spell(items[0].value, SpellGap(items[0].after, more));
    SpellStarts(items[0].value, false, SpellGap(items[0].after, more));
    SkipNothing(value);
    SkipGap(items[0].before, value);
  }

  lemma {:induction false} ItemReads(item: ItemText, more: string)
    requires ItemOk(item, false) && more != [] && more[0] > ' ' && Ends(more)
    ensures ParseItems(SpellGap(item.before, Spell(item.value, SpellGap(item.after, more)))) ==
      if more[0] == ',' then
        var r := ParseItems(more[1..]); if r.None? then None else Some(([Cut(Denoted(item.value, false))] + r.value.0, r.value.1))
      else if more[0] == ']' then Some(([Cut(Denoted(item.value, false))], more[1..]))
      else None
    decreases item, 2
  {
    var tail := SpellGap(item.after, more);
    EndsInGap(item.after, more);
    TextReads(item.value, tail);
    SpellStarts(item.value, false, tail);
    SkipNothing(Spell(item.value, tail));
    SkipGap(item.before, Spell(item.value, tail));
    SkipNothing(more);
    SkipGap(item.after, more);
  }

  lemma OneItem(items: seq<ItemText>)
    requires |items| == 1 && ItemsOk(items)
    ensures Legal(items[0].value, false) && CutItems(DenotedItems(items, false)) == [Cut(Denoted(items[0].value, false))]
  {
    assert ItemOk(items[0], false) && items[1..] == [];
    CutItemsFirst(Denoted(items[0].value, false), []);
  }

  lemma OneMember(ms: seq<MemberText>)
    requires |ms| == 1 && MembersOk(ms)
    ensures MemberOk(ms[0], false) && Legal(ms[0].value, false)
    ensures CutMembers(DenotedMembers(ms, false)) == [Member(WithoutNul(PiecesBytes(ms[0].name)), Cut(Denoted(ms[0].value, false)))]
  {
    assert MemberOk(ms[0], false) && ms[1..] == [];
    CutMembersFirst(Member(PiecesBytes(ms[0].name), Denoted(ms[0].value, false)), []);
  }

  lemma {:induction false} ItemsRead(items: seq<ItemText>, rest: string)
    requires items != [] && ItemsOk(items)
    ensures ParseItems(SpellItems(items, [']'] + rest)) == Some((CutItems(DenotedItems(items, false)), rest))
    decreases items, 1
  {
    var close := [']'] + rest;
    if |items| == 1 {
      ItemReads(items[0], close);
      OneItem(items);
      assert close[1..] == rest;
    } else {
      var more := [','] + SpellItems(items[1..], close);
      ItemReads(items[0], more);
      ItemsRead(items[1..], rest);
      CutItemsFirst(Denoted(items[0].value, false), DenotedItems(items[1..], false));
      assert more[1..] == SpellItems(items[1..], close);
    }
  }

  lemma {:induction false} ObjectReads(g: Gap, ms: seq<MemberText>, rest: string)
    requires Legal(ObjectText(g, ms), false)
    ensures ParseValue(Spell(ObjectText(g, ms), rest)) == Some((Cut(Denoted(ObjectText(g, ms), false)), rest))
    decreases ms, 2
  {
    var close := ['}'] + rest;
    assert close[1..] == rest;
    SkipNothing(close);
    if ms == [] {
      SkipGap(g, close);
      ReadObject(SpellGap(g, close));
    } else {
      MembersRead(ms, rest);
      MembersStart(ms, close);
      var body := SpellMembers(ms, close);
      SkipTwice(body);
      ReadObject(body);
    }
  }

  lemma MembersStart(ms: seq<MemberText>, rest: string)
    requires ms != [] && MembersOk(ms)
    ensures var s := Skip(SpellMembers(ms, rest)); s != [] && s[0] == '\"'
  {
    var more := if |ms| == 1 then rest else [','] + SpellMembers(ms[1..], rest);
    var quoted := SpellString(ms[0].name, SpellGap(ms[0].afterName, [':'] + SpellEntry(ms[0], more)));
    SkipNothing(quoted);
    SkipGap(ms[0].before, quoted);
  }

  /** The colon and the value. */
  lemma {:induction false} EntryReads(m: MemberText, more: string)
    requires MemberOk(m, false) && more != [] && more[0] > ' ' && Ends(more)
    ensures
      var after := [':'] + SpellEntry(m, more);
      && Skip(SpellGap(m.afterName, after)) == after
      && ParseValue(Skip(after[1..])) == Some((Cut(Denoted(m.value, false)), SpellGap(m.after, more)))
      && Skip(SpellGap(m.after, more)) == more
    decreases m, 3
  {
    var after, tail := [':'] + SpellEntry(m, more), SpellGap(m.after, more);
    SkipGap(m.afterName, after);
    SkipNothing(after);
    assert after[1..] == SpellEntry(m, more);
    EndsInGap(m.after, more);
    TextReads(m.value, tail);
    SpellStarts(m.value, false, tail);
    SkipNothing(Spell(m.value, tail));
    SkipGap(m.beforeValue, Spell(m.value, tail));
    SkipNothing(more);
    SkipGap(m.after, more);
  }

  lemma {:induction false} MemberReads(m: MemberText, more: string)
    requires MemberOk(m, false) && more != [] && more[0] > ' ' && Ends(more)
    ensures
      var member := Member(WithoutNul(PiecesBytes(m.name)), Cut(Denoted(m.value, false)));
      ParseMembers(SpellGap(m.before, SpellString(m.name, SpellGap(m.afterName, [':'] + SpellEntry(m, more))))) ==
      if more[0] == ',' then
        var r := ParseMembers(more[1..]); if r.None? then None else Some(([member] + r.value.0, r.value.1))
      else if more[0] == '}' then Some(([member], more[1..]))
      else None
    decreases m, 4
  {
    var named := SpellGap(m.afterName, [':'] + SpellEntry(m, more));
    StringReads(m.name, named);
    SkipNothing(SpellString(m.name, named));
    SkipGap(m.before, SpellString(m.name, named));
    EntryReads(m, more);
  }

  lemma {:induction false} MembersRead(ms: seq<MemberText>, rest: string)
    requires ms != [] && MembersOk(ms)
    ensures ParseMembers(SpellMembers(ms, ['}'] + rest)) == Some((CutMembers(DenotedMembers(ms, false)), rest))
    decreases ms, 1
  {
    var close := ['}'] + rest;
    if |ms| == 1 {
      MemberReads(ms[0], close);
      OneMember(ms);
      assert close[1..] == rest;
    } else {
      var more := [','] + SpellMembers(ms[1..], close);
      MemberReads(ms[0], more);
      MembersRead(ms[1..], rest);
      CutMembersFirst(Member(PiecesBytes(ms[0].name), Denoted(ms[0].value, false)), DenotedMembers(ms[1..], false));
      assert more[1..] == SpellMembers(ms[1..], close);
    }
  }
}
