/** Reading JSON that is cut short: an array or an object is refused, wherever the text ends. */
module JsonTruncated {
  import opened Wrappers
  import opened Json
  import opened JsonGrammar
  import opened JsonReading

  /** Nothing was read, or all of the text. */
  ghost predicate Spent<T>(r: Option<(T, string)>) {
    r.None? || r.value.1 == []
  }

  lemma PrefixSplit(q: string, a: string, b: string)
    requires q <= a + b
    ensures if |q| <= |a| then q <= a else a <= q && q[|a|..] <= b && q == a + q[|a|..] && q[|a|..] != []
  {
  }

  // ---------------------------------------------------------------- spacing that is cut short

  lemma {:induction false} GapIsBlank(g: Gap)
    requires GapOk(g, false)
    ensures forall i :: 0 <= i < |SpellGap(g, [])| ==> IsSpace(SpellGap(g, [])[i])
  {
    if g != [] {
      assert SpaceOk(g[0], false);
      GapIsBlank(g[1..]);
    }
  }

  lemma {:induction false} SkipAll(s: string)
    requires forall i :: 0 <= i < |s| ==> IsSpace(s[i])
    ensures Skip(s) == []
  {
    if s != [] {
      SkipAll(s[1..]);
    }
  }

  lemma GapCut(g: Gap, q: string)
    requires GapOk(g, false) && q <= SpellGap(g, [])
    ensures Skip(q) == [] && Ends(q)
  {
    GapIsBlank(g);
    SkipAll(q);
  }

  // ---------------------------------------------------------------- tokens that are cut short

  lemma PieceCut(p: Piece, q: string)
    requires PieceOk(p) && q < PieceText(p)
    ensures Spent(ParseChars(q))
  {
    match p
    case Plain(_) =>
    case Short(_) =>
    case Unit(h) => EscapeCut(h, q);
    case Pair(high, low) => PairCut(high, low, q);
  }

  lemma EscapeCut(h: string, q: string)
    requires FourHex(h) && q < "\\u" + h
    ensures Spent(ParseChars(q))
  {
    if |q| > 1 {
      assert q[0] == '\\' && q[1] == 'u' && |q[2..]| < 4;
    }
  }

  lemma PairCut(high: string, low: string, q: string)
    requires PieceOk(Pair(high, low)) && q < "\\u" + high + "\\u" + low
    ensures Spent(ParseChars(q))
  {
    var first := "\\u" + high;
    assert first + "\\u" + low == first + ("\\u" + low);
    PrefixSplit(q, first, "\\u" + low);
    if |q| < 6 {
      EscapeCut(high, q);
    } else {
      var u := q[2..];
      HexPrefix(high, q[6..]);
      assert q == first + q[6..] && u == high + q[6..];
      assert q[0] == '\\' && q[1] == 'u';
      if |q| >= 8 {
        assert u[4] == '\\' && u[5] == 'u' && |u| < 10;
      } else {
        assert ParseUnicode(u) == Some(([], 4)) && q[2 + 4..] == q[6..];
        assert q[6..] == [] || q[6..] == "\\";
      }
    }
  }

  lemma {:induction false} PiecesCut(ps: seq<Piece>, q: string)
    requires PiecesOk(ps) && q <= SpellPieces(ps, [])
    ensures Spent(ParseChars(q))
  {
    if ps != [] {
      var first := PieceText(ps[0]);
      PrefixSplit(q, first, SpellPieces(ps[1..], []));
      if |q| < |first| {
        PieceCut(ps[0], q);
      } else {
        var rest := q[|first|..];
        assert q == first + rest;
        PiecesCut(ps[1..], rest);
        PieceReads(ps[0], rest);
      }
    }
  }

  lemma StringCut(ps: seq<Piece>, q: string)
    requires PiecesOk(ps) && q < SpellString(ps, [])
    ensures Spent(ParseString(q))
  {
    if q != [] {
      assert ['\"'] + [] == ['\"'];
      PiecesThen(ps, ['\"']);
      PrefixSplit(q[1..], SpellPieces(ps, []), ['\"']);
      PiecesCut(ps, q[1..]);
    }
  }

  lemma NumberCut(negative: bool, d: string, q: string)
    requires Numeral(d) && q < (if negative then "-" else "") + d
    ensures Spent(ParseValue(q))
  {
    if q == [] {
      NoValue(q);
    } else if negative && |q| == 1 {
      ReadNumber(q);
      assert q == "-" && q[1..] == [];
    } else {
      var digits := if negative then q[1..] else q;
      assert digits <= d && digits != [] && digits[0] == d[0];
      assert Numeral(digits);
      NumberReads(negative, digits, []);
      assert q == (if negative then "-" else "") + (digits + []);
    }
  }

  predicate StartsValue(c: char) {
    c in {'n', 't', 'f', '\"', '-', '[', '{'} || IsDigit(c)
  }

  /** What does not begin like a value is refused. */
  lemma NoValue(s: string)
    requires s == [] || !StartsValue(s[0])
    ensures ParseValue(s).None?
  {
    if s != [] {
      NotAWord(s);
    }
  }

  lemma WordCut(w: string, q: string)
    requires w in {"null", "true", "false"} && q < w
    ensures ParseValue(q).None?
  {
    if q == [] {
      NoValue(q);
    } else {
      assert q[0] == w[0] && |q| < |w|;
      assert !StartsWith(q, "null") && !StartsWith(q, "true") && !StartsWith(q, "false");
    }
  }

  // ---------------------------------------------------------------- values that are cut short

  /** Every proper beginning of an array or object is refused; of another value nothing is left over. */
  lemma {:induction false} TextCut(t: Text, q: string)
    requires Legal(t, false) && q < Spell(t, [])
    ensures Spent(ParseValue(q)) && (t.ArrayText? || t.ObjectText? ==> ParseValue(q).None?)
    decreases t, 1
  {
    match t
    case NullText => WordCut("null", q);
    case BoolText(b) => WordCut(if b then "true" else "false", q);
    case NumberText(negative, d) =>
      assert d + [] == d;
      NumberCut(negative, d, q);
    case StringText(ps) => StringValueCut(ps, q);
    case ArrayText(g, items) => ArrayCut(g, items, q);
    case ObjectText(g, ms) => ObjectCut(g, ms, q);
  }

  lemma StringValueCut(ps: seq<Piece>, q: string)
    requires PiecesOk(ps) && q < SpellString(ps, [])
    ensures Spent(ParseValue(q))
  {
    StringCut(ps, q);
    if q == [] {
      NoValue(q);
    } else {
      NotAWord(q);
    }
  }

  /** A value between two gaps: it is not read to its end, or nothing but spacing is left, or more follows. */
  lemma {:induction false} ValueCut(b: Gap, v: Text, a: Gap, more: string, q: string) returns (whole: bool, left: string)
    requires GapOk(b, false) && Legal(v, false) && GapOk(a, false) && q <= SpellGap(b, Spell(v, SpellGap(a, more)))
    ensures Skip(q) != [] ==> Skip(q)[0] !in {']', '}', ','}
    ensures whole ==> left != [] && left <= more && q == SpellGap(b, Spell(v, SpellGap(a, left)))
    ensures !whole ==> var r := ParseValue(Skip(q)); r.None? || Skip(r.value.1) == []
    decreases v, 3
  {
    whole, left := false, [];
    var rest := Spell(v, SpellGap(a, more));
    GapThen(b, rest);
    PrefixSplit(q, SpellGap(b, []), rest);
    if |q| <= |SpellGap(b, [])| {
      GapCut(b, q);
      NoValue([]);
    } else {
      var q1 := q[|SpellGap(b, [])|..];
      GapThen(b, q1);
      SkipGap(b, q1);
      SpellStarts(v, false, SpellGap(a, more));
      SkipNothing(q1);
      whole, left := AfterCut(v, a, more, q1);
    }
  }

  lemma {:induction false} AfterCut(v: Text, a: Gap, more: string, q: string) returns (whole: bool, left: string)
    requires Legal(v, false) && GapOk(a, false) && q <= Spell(v, SpellGap(a, more))
    ensures whole ==> left != [] && left <= more && q == Spell(v, SpellGap(a, left))
    ensures !whole ==> var r := ParseValue(q); r.None? || Skip(r.value.1) == []
    decreases v, 2
  {
    whole, left := false, [];
    var text, gap := Spell(v, []), SpellGap(a, []);
    TextThen(v, SpellGap(a, more));
    PrefixSplit(q, text, SpellGap(a, more));
    if |q| < |text| {
      TextCut(v, q);
    } else {
      var q1 := q[|text|..];
      TextThen(v, q1);
      assert q == Spell(v, q1);
      GapThen(a, more);
      PrefixSplit(q1, gap, more);
      if |q1| <= |gap| {
        GapCut(a, q1);
        TextReads(v, q1);
      } else {
        whole, left := true, q1[|gap|..];
        GapThen(a, left);
      }
    }
  }

  lemma BodyCut(open: char, body: string, close: char, q: string)
    requires q != [] && q < [open] + (body + [close])
    ensures q == [open] + q[1..] && q[1..] <= body
  {
    PrefixSplit(q[1..], body, [close]);
  }

  lemma {:induction false} ArrayCut(g: Gap, items: seq<ItemText>, q: string)
    requires Legal(ArrayText(g, items), false) && q < Spell(ArrayText(g, items), [])
    ensures ParseValue(q).None?
    decreases items, 4
  {
    if q == [] {
      NoValue(q);
    } else {
      var body := q[1..];
      assert [']'] + [] == [']'];
      if items == [] {
        GapThen(g, [']']);
        BodyCut('[', SpellGap(g, []), ']', q);
        GapCut(g, body);
        NoValue([]);
      } else {
        ItemsThen(items, [']']);
        BodyCut('[', SpellItems(items, []), ']', q);
        ItemsCut(items, body);
      }
      SkipTwice(body);
      ReadArray(body);
    }
  }

  lemma {:induction false} ItemsCut(items: seq<ItemText>, q: string)
    requires items != [] && ItemsOk(items) && q <= SpellItems(items, [])
    ensures ParseItems(q).None? && (Skip(q) != [] ==> Skip(q)[0] != ']')
    decreases items, 3
  {
    var item := items[0];
    var more := if |items| == 1 then [] else [','] + SpellItems(items[1..], []);
    assert ItemOk(item, false);
    var whole, left := ValueCut(item.before, item.value, item.after, more, q);
    if whole {
      ItemReads(item, left);
      ItemsCut(items[1..], left[1..]);
    }
  }

  lemma {:induction false} ObjectCut(g: Gap, ms: seq<MemberText>, q: string)
    requires Legal(ObjectText(g, ms), false) && q < Spell(ObjectText(g, ms), [])
    ensures ParseValue(q).None?
    decreases ms, 6
  {
    if q == [] {
      NoValue(q);
    } else {
      var body := q[1..];
      assert ['}'] + [] == ['}'];
      if ms == [] {
        GapThen(g, ['}']);
        BodyCut('{', SpellGap(g, []), '}', q);
        GapCut(g, body);
      } else {
        MembersThen(ms, ['}']);
        BodyCut('{', SpellMembers(ms, []), '}', q);
        MembersCut(ms, body);
      }
      SkipTwice(body);
      ReadObject(body);
    }
  }

  lemma {:induction false} MembersCut(ms: seq<MemberText>, q: string)
    requires ms != [] && MembersOk(ms) && q <= SpellMembers(ms, [])
    ensures ParseMembers(q).None? && (Skip(q) != [] ==> Skip(q)[0] != '}')
    decreases ms, 5
  {
    var m := ms[0];
    var more := if |ms| == 1 then [] else [','] + SpellMembers(ms[1..], []);
    assert MemberOk(m, false);
    var named, q1 := NameCut(m, [':'] + SpellEntry(m, more), q);
    if named {
      assert q1 == [':'] + q1[1..];
      var whole, left := ValueCut(m.beforeValue, m.value, m.after, more, q1[1..]);
      if whole {
        MemberReads(m, left);
        MembersCut(ms[1..], left[1..]);
      } else {
        ColonRead(m, q1);
      }
    }
  }

  /** A name between two gaps. */
  lemma NameCut(m: MemberText, entry: string, q: string) returns (named: bool, left: string)
    requires MemberOk(m, false) && q <= SpellGap(m.before, SpellString(m.name, SpellGap(m.afterName, entry)))
    ensures Skip(q) != [] ==> Skip(q)[0] == '\"'
    ensures named ==> left != [] && left <= entry && q == SpellGap(m.before, SpellString(m.name, SpellGap(m.afterName, left)))
    ensures !named ==> ParseMembers(q).None?
  {
    named, left := false, [];
    var rest := SpellString(m.name, SpellGap(m.afterName, entry));
    GapThen(m.before, rest);
    PrefixSplit(q, SpellGap(m.before, []), rest);
    if |q| <= |SpellGap(m.before, [])| {
      GapCut(m.before, q);
    } else {
      var q1 := q[|SpellGap(m.before, [])|..];
      GapThen(m.before, q1);
      SkipGap(m.before, q1);
      SkipNothing(q1);
      named, left := AfterName(m, entry, q, q1);
    }
  }

  lemma AfterName(m: MemberText, entry: string, q: string, q1: string) returns (named: bool, left: string)
    requires MemberOk(m, false) && q1 <= SpellString(m.name, SpellGap(m.afterName, entry)) && Skip(q) == q1
    ensures named ==> left != [] && left <= entry && q1 == SpellString(m.name, SpellGap(m.afterName, left))
    ensures !named ==> ParseMembers(q).None?
  {
    named, left := false, [];
    var name, gap := SpellString(m.name, []), SpellGap(m.afterName, []);
    StringThen(m.name, SpellGap(m.afterName, entry));
    PrefixSplit(q1, name, SpellGap(m.afterName, entry));
    if |q1| < |name| {
      StringCut(m.name, q1);
    } else {
      var q2 := q1[|name|..];
      StringThen(m.name, q2);
      assert q1 == SpellString(m.name, q2);
      GapThen(m.afterName, entry);
      PrefixSplit(q2, gap, entry);
      StringReads(m.name, q2);
      if |q2| <= |gap| {
        GapCut(m.afterName, q2);
      } else {
        named, left := true, q2[|gap|..];
        GapThen(m.afterName, left);
      }
    }
  }

  /** A member whose value is refused, or after whose value the text ends. */
  lemma ColonRead(m: MemberText, q: string)
    requires MemberOk(m, false) && q != [] && q[0] == ':'
    requires var r := ParseValue(Skip(q[1..])); r.None? || Skip(r.value.1) == []
    ensures ParseMembers(SpellGap(m.before, SpellString(m.name, SpellGap(m.afterName, q)))).None?
  {
    var named := SpellGap(m.afterName, q);
    StringReads(m.name, named);
    SkipNothing(SpellString(m.name, named));
    SkipGap(m.before, SpellString(m.name, named));
    SkipNothing(q);
    SkipGap(m.afterName, q);
  }

  // ---------------------------------------------------------------- what is refused

  /** `cJSON_Parse` refuses an array or object that is cut short, whatever spacing comes before. */
  lemma TruncatedIsRefused(g: Gap, t: Text, q: string)
    requires GapOk(g, false) && Legal(t, false) && (t.ArrayText? || t.ObjectText?) && q < Spell(t, [])
    ensures ParseText(SpellGap(g, q)).None?
  {
    SkipGap(g, q);
    TextCut(t, q);
    if q != [] {
      SpellStarts(t, false, []);
      SkipNothing(q);
    }
  }

  /** Not so for a string: it may end with the text. */
  lemma UnclosedIsRead(ps: seq<Piece>)
    requires PiecesOk(ps)
    ensures ParseText(['\"'] + SpellPieces(ps, [])) == Some(String(WithoutNul(PiecesBytes(ps))))
  {
    var s := ['\"'] + SpellPieces(ps, []);
    SkipNothing(s);
    NotAWord(s);
    assert s[1..] == SpellPieces(ps, []);
    UnclosedPieces(ps);
  }

  lemma {:induction false} UnclosedPieces(ps: seq<Piece>)
    requires PiecesOk(ps)
    ensures ParseChars(SpellPieces(ps, [])) == Some((WithoutNul(PiecesBytes(ps)), []))
  {
    if ps != [] {
      UnclosedPieces(ps[1..]);
      PieceReads(ps[0], SpellPieces(ps[1..], []));
      CutConcat(PieceBytes(ps[0]), PiecesBytes(ps[1..]));
    }
  }

  /** After the name of a member there must be a colon. */
  lemma ColonMissing(m: MemberText, q: string)
    requires MemberOk(m, false) && (q != [] ==> q[0] > ' ' && q[0] != ':')
    ensures ParseMembers(SpellGap(m.before, SpellString(m.name, SpellGap(m.afterName, q)))).None?
  {
    var named := SpellGap(m.afterName, q);
    StringReads(m.name, named);
    SkipNothing(SpellString(m.name, named));
    SkipGap(m.before, SpellString(m.name, named));
    SkipGap(m.afterName, q);
    if q != [] {
      SkipNothing(q);
    }
  }

  /** A member begins with a string. */
  lemma NameMissing(s: string)
    requires Skip(s) == [] || Skip(s)[0] != '\"'
    ensures ParseMembers(s).None?
  {
  }
}
