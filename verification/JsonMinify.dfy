/** `cJSON_Minify`: drop spacing and comments outside string literals. */
module JsonMinify {
  import opened Wrappers
  import opened CText
  import opened Json
  import opened JsonGrammar
  import opened JsonReading
  import opened JsonPrinting

  predicate IsBlank(c: char) {
    c == ' ' || c == '\t' || c == '\r' || c == '\n'
  }

  /** From the `//` to the end of the line, which itself stays. */
  function DropLine(s: string): (r: string)
    ensures |r| <= |s|
  {
    if s != [] && s[0] != '\n' then DropLine(s[1..]) else s
  }

  /** Through the first star and slash. */
  function DropComment(s: string): (r: string)
    ensures |r| <= |s|
  {
    if s == [] then []
    else if |s| > 1 && s[0] == '*' && s[1] == '/' then s[2..]
    else DropComment(s[1..])
  }

  /** What is copied of a string literal after its opening quote, and what follows the literal. */
  function Literal(s: string): (r: (string, string))
    ensures |r.1| <= |s|
  {
    if s == [] then ([], [])
    else if s[0] == '\"' then ([s[0]], s[1..])
    else if s[0] == '\\' && |s| > 1 then
      var r := Literal(s[2..]);
      ([s[0], s[1]] + r.0, r.1)
    else
      var r := Literal(s[1..]);
      ([s[0]] + r.0, r.1)
  }

  function Minify(s: string): (r: string)
    decreases |s|
  {
    if s == [] then []
    else if IsBlank(s[0]) then Minify(s[1..])
    else if s[0] == '/' && |s| > 1 && s[1] == '/' then Minify(DropLine(s[1..]))
    else if s[0] == '/' && |s| > 1 && s[1] == '*' then Minify(DropComment(s[1..]))
    else if s[0] == '\"' then
      [s[0]] + Literal(s[1..]).0 + Minify(Literal(s[1..]).1)
    else [s[0]] + Minify(s[1..])
  }

  // ---------------------------------------------------------------- comments

  lemma {:induction false} LineDropped(body: string, rest: string)
    requires forall i :: 0 <= i < |body| ==> body[i] != '\n'
    ensures DropLine(body + (['\n'] + rest)) == ['\n'] + rest
  {
    var s := body + (['\n'] + rest);
    if body == [] {
      assert s == ['\n'] + rest;
    } else {
      LineDropped(body[1..], rest);
      assert s[0] == body[0] && s[1..] == body[1..] + (['\n'] + rest);
    }
  }

  predicate Closes(b: string) {
    exists i :: 0 <= i < |b| - 1 && b[i] == '*' && b[i + 1] == '/'
  }

  /** A comment ends at the star and slash that close it exactly if there are none before them. */
  lemma {:induction false} CommentDropped(body: string, rest: string)
    ensures DropComment(body + (['*', '/'] + rest)) == rest <==> !Closes(body)
    ensures Closes(body) ==> |DropComment(body + (['*', '/'] + rest))| > |rest|
  {
    var s := body + (['*', '/'] + rest);
    if body == [] {
      assert s == ['*', '/'] + rest && s[2..] == rest;
    } else {
      CommentDropped(body[1..], rest);
      assert s[0] == body[0] && s[1..] == body[1..] + (['*', '/'] + rest);
      ClosesLater(body);
    }
  }

  lemma ClosesLater(b: string)
    requires b != []
    ensures Closes(b) <==> (|b| > 1 && b[0] == '*' && b[1] == '/') || Closes(b[1..])
  {
    if Closes(b[1..]) {
      var i :| 0 <= i < |b| - 2 && b[1..][i] == '*' && b[1..][i + 1] == '/';
      assert b[i + 1] == '*' && b[i + 2] == '/';
    }
    if Closes(b) && !(b[0] == '*' && b[1] == '/') {
      var i :| 0 <= i < |b| - 1 && b[i] == '*' && b[i + 1] == '/';
      assert b[1..][i - 1] == '*' && b[1..][i] == '/';
    }
  }

  /** The search for the end starts at the star that opens the comment, so a slash right after it counts
      as the end. */
  lemma CommentEnds(body: string, rest: string)
    ensures DropComment(['*'] + body + (['*', '/'] + rest)) == rest <==> ClosesAtEnd(body)
  {
    var b := ['*'] + body;
    CommentDropped(b, rest);
    ClosesLater(b);
    assert b[1..] == body;
  }

  lemma MinifyLineComment(body: string, rest: string)
    requires forall i :: 0 <= i < |body| ==> body[i] != '\n'
    ensures Minify("//" + body + "\n" + rest) == Minify(rest)
  {
    var s := "//" + body + "\n" + rest;
    assert s[1..] == ("/" + body) + (['\n'] + rest);
    LineDropped("/" + body, rest);
    assert (['\n'] + rest)[1..] == rest;
  }

  lemma MinifyBlockComment(body: string, rest: string)
    requires ClosesAtEnd(body)
    ensures Minify("/*" + body + "*/" + rest) == Minify(rest)
  {
    var s := "/*" + body + "*/" + rest;
    assert s[1..] == ['*'] + body + (['*', '/'] + rest);
    CommentEnds(body, rest);
  }

  /** Spacing and comments are dropped. */
  lemma {:induction false} MinifyGap(g: Gap, rest: string)
    requires GapOk(g, true)
    ensures Minify(SpellGap(g, rest)) == Minify(rest)
  {
    if g != [] {
      MinifyGap(g[1..], rest);
      var more := SpellGap(g[1..], rest);
      assert SpaceOk(g[0], true);
      match g[0]
      case Blank(c) => assert ([c] + more)[1..] == more;
      case LineComment(body) => MinifyLineComment(body, more);
      case BlockComment(body) => MinifyBlockComment(body, more);
    }
  }

  // ---------------------------------------------------------------- tokens

  predicate IsPlain(c: char) {
    !IsBlank(c) && c != '/' && c != '\"'
  }

  lemma MinifyToken(c: char, rest: string)
    requires IsPlain(c)
    ensures Minify([c] + rest) == [c] + Minify(rest)
  {
    assert ([c] + rest)[1..] == rest;
  }

  lemma {:induction false} MinifyPlain(t: string, rest: string)
    requires forall i :: 0 <= i < |t| ==> IsPlain(t[i])
    ensures Minify(t + rest) == t + Minify(rest)
  {
    if t == [] {
      assert t + rest == rest;
    } else {
      MinifyPlain(t[1..], rest);
      assert (t + rest)[1..] == t[1..] + rest && t == [t[0]] + t[1..];
    }
  }

  lemma LiteralPair(c: char, rest: string)
    ensures Literal(['\\', c] + rest) == (['\\', c] + Literal(rest).0, Literal(rest).1)
  {
    var s := ['\\', c] + rest;
    assert s[0] == '\\' && s[1] == c && s[2..] == rest;
  }

  lemma {:induction false} LiteralPlain(h: string, rest: string)
    requires forall i :: 0 <= i < |h| ==> h[i] != '\"' && h[i] != '\\'
    ensures Literal(h + rest) == (h + Literal(rest).0, Literal(rest).1)
  {
    if h == [] {
      assert h + rest == rest && h + Literal(rest).0 == Literal(rest).0;
    } else {
      LiteralPlain(h[1..], rest);
      assert (h + rest)[0] == h[0] && (h + rest)[1..] == h[1..] + rest;
      assert h + Literal(rest).0 == [h[0]] + (h[1..] + Literal(rest).0);
    }
  }

  lemma LiteralHex(h: string, rest: string)
    requires FourHex(h)
    ensures Literal("\\u" + h + rest) == ("\\u" + h + Literal(rest).0, Literal(rest).1)
  {
    Assoc("\\u", h, rest);
    LiteralPair('u', h + rest);
    LiteralPlain(h, rest);
    Assoc("\\u", h, Literal(rest).0);
  }

  lemma LiteralPiece(p: Piece, rest: string)
    requires PieceOk(p)
    ensures Literal(PieceText(p) + rest) == (PieceText(p) + Literal(rest).0, Literal(rest).1)
  {
    match p
    case Plain(c) => LiteralPlain([c], rest);
    case Short(letter) => LiteralPair(letter, rest);
    case Unit(h) => LiteralHex(h, rest);
    case Pair(high, low) =>
      var second := "\\u" + low;
      LiteralHex(low, rest);
      LiteralHex(high, second + rest);
      PairText(high, low, rest);
      PairText(high, low, Literal(rest).0);
  }

  lemma PairText(high: string, low: string, rest: string)
    ensures PieceText(Pair(high, low)) + rest == "\\u" + high + ("\\u" + low + rest)
  {
  }

  lemma {:induction false} LiteralPieces(ps: seq<Piece>, rest: string)
    requires PiecesOk(ps)
    ensures Literal(SpellPieces(ps, ['\"'] + rest)) == (SpellPieces(ps, ['\"']), rest)
  {
    if ps == [] {
      assert (['\"'] + rest)[1..] == rest;
    } else {
      LiteralPieces(ps[1..], rest);
      LiteralPiece(ps[0], SpellPieces(ps[1..], ['\"'] + rest));
    }
  }

  /** String literals are copied as they stand, whatever they contain. */
  lemma MinifyString(ps: seq<Piece>, rest: string)
    requires PiecesOk(ps)
    ensures Minify(SpellString(ps, rest)) == SpellString(ps, Minify(rest))
  {
    var s := SpellString(ps, rest);
    assert s[1..] == SpellPieces(ps, ['\"'] + rest);
    LiteralPieces(ps, rest);
    Assoc(['\"'], SpellPieces(ps, ['\"']), Minify(rest));
    PiecesThen(ps, ['\"']);
    PiecesThen(ps, ['\"'] + Minify(rest));
    Assoc(SpellPieces(ps, []), ['\"'], Minify(rest));
  }

  // ---------------------------------------------------------------- whole texts

  /** The same tokens with nothing between them. */
  function Compacted(t: Text): (r: Text)
    decreases t, 1
  {
    match t
    case ArrayText(_, items) => ArrayText([], CompactedItems(items))
    case ObjectText(_, ms) => ObjectText([], CompactedMembers(ms))
    case _ => t
  }

  function CompactedItems(items: seq<ItemText>): (r: seq<ItemText>)
    ensures |r| == |items|
    decreases items, 0
  {
    if items == [] then [] else [ItemText([], Compacted(items[0].value), [])] + CompactedItems(items[1..])
  }

  function CompactedMembers(ms: seq<MemberText>): (r: seq<MemberText>)
    ensures |r| == |ms|
    decreases ms, 0
  {
    if ms == [] then [] else [MemberText([], ms[0].name, [], [], Compacted(ms[0].value), [])] + CompactedMembers(ms[1..])
  }

  /** Minifying a text leaves its tokens, and goes on with what follows. */
  lemma {:induction false} MinifyText(t: Text, rest: string)
    requires Legal(t, true)
    ensures Minify(Spell(t, rest)) == Spell(Compacted(t), Minify(rest))
    decreases t, 1
  {
    match t
    case NullText => MinifyPlain("null", rest);
    case BoolText(b) => MinifyPlain(if b then "true" else "false", rest);
    case NumberText(negative, d) =>
      MinifyPlain(d, rest);
      MinifyPlain(if negative then "-" else "", d + rest);
    case StringText(ps) => MinifyString(ps, rest);
    case ArrayText(g, items) =>
      MinifyToken(']', rest);
      if items == [] {
        MinifyGap(g, [']'] + rest);
        MinifyToken('[', SpellGap(g, [']'] + rest));
      } else {
        MinifyItems(items, [']'] + rest);
        MinifyToken('[', SpellItems(items, [']'] + rest));
      }
    case ObjectText(g, ms) =>
      MinifyToken('}', rest);
      if ms == [] {
        MinifyGap(g, ['}'] + rest);
        MinifyToken('{', SpellGap(g, ['}'] + rest));
      } else {
        MinifyMembers(ms, ['}'] + rest);
        MinifyToken('{', SpellMembers(ms, ['}'] + rest));
      }
  }

  lemma {:induction false} MinifyItems(items: seq<ItemText>, rest: string)
    requires items != [] && forall i :: 0 <= i < |items| ==> ItemOk(items[i], true)
    ensures Minify(SpellItems(items, rest)) == SpellItems(CompactedItems(items), Minify(rest))
    decreases items, 0
  {
    var more := if |items| == 1 then rest else [','] + SpellItems(items[1..], rest);
    if |items| > 1 {
      MinifyItems(items[1..], rest);
      MinifyToken(',', SpellItems(items[1..], rest));
    }
    assert ItemOk(items[0], true);
    MinifyGap(items[0].after, more);
    MinifyText(items[0].value, SpellGap(items[0].after, more));
    MinifyGap(items[0].before, Spell(items[0].value, SpellGap(items[0].after, more)));
    var plain := CompactedItems(items);
    assert plain[1..] == CompactedItems(items[1..]);
  }

  lemma {:induction false} MinifyMembers(ms: seq<MemberText>, rest: string)
    requires ms != [] && forall i :: 0 <= i < |ms| ==> MemberOk(ms[i], true)
    ensures Minify(SpellMembers(ms, rest)) == SpellMembers(CompactedMembers(ms), Minify(rest))
    decreases ms, 0
  {
    var more := if |ms| == 1 then rest else [','] + SpellMembers(ms[1..], rest);
    if |ms| > 1 {
      MinifyMembers(ms[1..], rest);
      MinifyToken(',', SpellMembers(ms[1..], rest));
    }
    assert MemberOk(ms[0], true);
    MinifyMember(ms[0], more);
    var plain := CompactedMembers(ms);
    assert plain[1..] == CompactedMembers(ms[1..]);
  }

  lemma {:induction false} MinifyMember(m: MemberText, more: string)
    requires MemberOk(m, true)
    ensures Minify(SpellGap(m.before, SpellString(m.name, SpellGap(m.afterName, [':'] + SpellEntry(m, more))))) ==
      SpellString(m.name, [':'] + Spell(Compacted(m.value), Minify(more)))
    decreases m, 2
  {
    var tail := SpellGap(m.after, more);
    MinifyGap(m.after, more);
    MinifyText(m.value, tail);
    MinifyGap(m.beforeValue, Spell(m.value, tail));
    var entry := [':'] + SpellEntry(m, more);
    MinifyToken(':', SpellEntry(m, more));
    MinifyGap(m.afterName, entry);
    MinifyString(m.name, SpellGap(m.afterName, entry));
    MinifyGap(m.before, SpellString(m.name, SpellGap(m.afterName, entry)));
  }

  // ---------------------------------------------------------------- the meaning stays

  lemma {:induction false} CompactedMeansTheSame(t: Text)
    requires Legal(t, true)
    ensures Legal(Compacted(t), false) && Denoted(Compacted(t), false) == Denoted(t, true)
    decreases t, 1
  {
    match t
    case ArrayText(_, items) => CompactedItemsMeanTheSame(items);
    case ObjectText(_, ms) => CompactedMembersMeanTheSame(ms);
    case _ =>
  }

  lemma {:induction false} CompactedItemsMeanTheSame(items: seq<ItemText>)
    requires forall i :: 0 <= i < |items| ==> ItemOk(items[i], true)
    ensures var r := CompactedItems(items); ItemsOk(r) && DenotedItems(r, false) == DenotedItems(items, true)
    decreases items, 0
  {
    if items != [] {
      assert ItemOk(items[0], true);
      CompactedMeansTheSame(items[0].value);
      CompactedItemsMeanTheSame(items[1..]);
      var r := CompactedItems(items);
      assert ItemOk(r[0], false) && r[1..] == CompactedItems(items[1..]);
    }
  }

  lemma {:induction false} CompactedMembersMeanTheSame(ms: seq<MemberText>)
    requires forall i :: 0 <= i < |ms| ==> MemberOk(ms[i], true)
    ensures var r := CompactedMembers(ms); MembersOk(r) && DenotedMembers(r, false) == DenotedMembers(ms, true)
    decreases ms, 0
  {
    if ms != [] {
      assert MemberOk(ms[0], true);
      CompactedMeansTheSame(ms[0].value);
      CompactedMembersMeanTheSame(ms[1..]);
      var r := CompactedMembers(ms);
      assert MemberOk(r[0], false) && r[1..] == CompactedMembers(ms[1..]);
    }
  }

  /** A JSON text with comments between its tokens, before it and after it is read, once minified, as the
      value that it stands for. */
  lemma MinifyThenParse(before: Gap, t: Text, after: Gap)
    requires Legal(t, true) && GapOk(before, true) && GapOk(after, true)
    ensures ParseText(Minify(SpellGap(before, Spell(t, SpellGap(after, []))))) == Some(Cut(Denoted(t, true)))
  {
    MinifyGap(before, Spell(t, SpellGap(after, [])));
    MinifyText(t, SpellGap(after, []));
    MinifyGap(after, []);
    CompactedMeansTheSame(t);
    TextReads(Compacted(t), []);
    SpellStarts(Compacted(t), false, []);
    SkipNothing(Spell(Compacted(t), []));
  }

  // ---------------------------------------------------------------- printed values

  lemma {:induction false} LaidOutCompacted(v: Json, depth: nat, fmt: bool)
    ensures Compacted(LaidOut(v, depth, fmt)) == LaidOut(v, depth, false)
    decreases v, 1
  {
    match v
    case Array(items) => ItemsCompacted(items, depth + 1, fmt, true);
    case Object(members) => MembersCompacted(members, depth + 1, fmt);
    case _ =>
  }

  lemma {:induction false} ItemsCompacted(items: seq<Json>, depth: nat, fmt: bool, first: bool)
    ensures CompactedItems(ItemsLaidOut(items, depth, fmt, first)) == ItemsLaidOut(items, depth, false, first)
    decreases items, 0
  {
    if items != [] {
      LaidOutCompacted(items[0], depth, fmt);
      ItemsCompacted(items[1..], depth, fmt, false);
      assert ItemsLaidOut(items, depth, fmt, first)[1..] == ItemsLaidOut(items[1..], depth, fmt, false);
    }
  }

  lemma {:induction false} MembersCompacted(members: seq<Member>, depth: nat, fmt: bool)
    ensures CompactedMembers(MembersLaidOut(members, depth, fmt)) == MembersLaidOut(members, depth, false)
    decreases members, 0
  {
    if members != [] {
      LaidOutCompacted(members[0].value, depth, fmt);
      MembersCompacted(members[1..], depth, fmt);
      assert MembersLaidOut(members, depth, fmt)[1..] == MembersLaidOut(members[1..], depth, fmt);
    }
  }

  /** Without comments a text that is legal stays legal when they are allowed. */
  lemma {:induction false} LegalWithComments(t: Text)
    requires Legal(t, false)
    ensures Legal(t, true)
    decreases t
  {
    match t
    case ArrayText(_, items) =>
      forall i | 0 <= i < |items| ensures ItemOk(items[i], true) {
        assert ItemOk(items[i], false);
        LegalWithComments(items[i].value);
      }
    case ObjectText(_, ms) =>
      forall i | 0 <= i < |ms| ensures MemberOk(ms[i], true) {
        assert MemberOk(ms[i], false);
        LegalWithComments(ms[i].value);
      }
    case _ =>
  }

  /** Minifying a printed value gives its unformatted print, and goes on with what follows. */
  lemma MinifyPrinted(v: Json, depth: nat, fmt: bool, rest: string)
    ensures Minify(PrintValue(v, depth, fmt) + rest) == PrintValue(v, depth, false) + Minify(rest)
  {
    PrintedIsText(v, depth, fmt, rest);
    LegalWithComments(LaidOut(v, depth, fmt));
    MinifyText(LaidOut(v, depth, fmt), rest);
    LaidOutCompacted(v, depth, fmt);
    PrintedIsText(v, depth, false, Minify(rest));
  }

  /** Minifying `cJSON_Print` gives `cJSON_PrintUnformatted`; minifying that changes nothing. */
  lemma MinifyPrint(v: Json, fmt: bool)
    ensures Minify(PrintValue(v, 0, fmt)) == PrintValue(v, 0, false)
  {
    MinifyPrinted(v, 0, fmt, []);
    assert PrintValue(v, 0, fmt) + [] == PrintValue(v, 0, fmt);
    assert PrintValue(v, 0, false) + [] == PrintValue(v, 0, false);
  }

  // ---------------------------------------------------------------- in place

  /** The unread part of the buffer is the unread part of the text. */
  ghost predicate Unread(json: array<char>, text: string, pos: nat)
    reads json
  {
    && NulFree(text) && pos <= |text| < json.Length && json[|text|] == '\0'
    && forall i :: pos <= i < |text| ==> json[i] == text[i]
  }

  method SkipLine(json: array<char>, start: nat, ghost text: string) returns (pos: nat)
    requires Unread(json, text, start)
    ensures start <= pos <= |text| && text[pos..] == DropLine(text[start..])
  {
    pos := start;
    while json[pos] != '\0' && json[pos] != '\n'
      invariant start <= pos <= |text| && DropLine(text[pos..]) == DropLine(text[start..])
      decreases |text| - pos
    {
      assert text[pos..][1..] == text[pos + 1..];
      pos := pos + 1;
    }
  }

  method SkipComment(json: array<char>, start: nat, ghost text: string) returns (pos: nat)
    requires Unread(json, text, start)
    ensures start <= pos <= |text| && text[pos..] == DropComment(text[start..])
  {
    pos := start;
    while json[pos] != '\0' && !(json[pos] == '*' && json[pos + 1] == '/')
      invariant start <= pos <= |text| && DropComment(text[pos..]) == DropComment(text[start..])
      decreases |text| - pos
    {
      assert text[pos..][1..] == text[pos + 1..];
      pos := pos + 1;
    }
    if json[pos] != '\0' {
      assert text[pos..][2..] == text[pos + 2..];
      pos := pos + 2;
    }
  }

  lemma LiteralAt(text: string, pos: nat)
    requires pos < |text|
    ensures Literal(text[pos..]) ==
      if text[pos] == '\"' then ([text[pos]], text[pos + 1..])
      else if text[pos] == '\\' && pos + 1 < |text| then
        ([text[pos], text[pos + 1]] + Literal(text[pos + 2..]).0, Literal(text[pos + 2..]).1)
      else ([text[pos]] + Literal(text[pos + 1..]).0, Literal(text[pos + 1..]).1)
  {
    var s := text[pos..];
    assert s[1..] == text[pos + 1..] && (|s| > 1 ==> s[2..] == text[pos + 2..]);
  }

  lemma MinifyAt(text: string, pos: nat)
    requires pos < |text|
    ensures var c, next := text[pos], if pos + 1 < |text| then text[pos + 1] else '\0';
      Minify(text[pos..]) ==
        if IsBlank(c) then Minify(text[pos + 1..])
        else if c == '/' && next == '/' then Minify(DropLine(text[pos + 1..]))
        else if c == '/' && next == '*' then Minify(DropComment(text[pos + 1..]))
        else if c == '\"' then [c] + Literal(text[pos + 1..]).0 + Minify(Literal(text[pos + 1..]).1)
        else [c] + Minify(text[pos + 1..])
  {
    assert text[pos..][1..] == text[pos + 1..];
  }

  /** `*into++ = *json++` */
  method CopyChar(json: array<char>, into: nat, pos: nat, ghost text: string)
    requires Unread(json, text, pos) && pos < |text| && into <= pos
    modifies json
    ensures Unread(json, text, pos + 1) && json[..into + 1] == old(json[..into]) + [text[pos]]
    ensures forall i :: |text| < i < json.Length ==> json[i] == old(json[i])
  {
    json[into] := json[pos];
  }

  /** Copy one character of a literal, or a backslash and what it escapes. */
  method CopyUnit(json: array<char>, into0: nat, start: nat, ghost text: string) returns (into: nat, pos: nat)
    requires Unread(json, text, start) && into0 <= start < |text| && text[start] != '\"'
    modifies json
    ensures into <= pos && start < pos && Unread(json, text, pos)
    ensures json[..into] + Literal(text[pos..]).0 == old(json[..into0]) + Literal(text[start..]).0
    ensures Literal(text[pos..]).1 == Literal(text[start..]).1
    ensures forall i :: |text| < i < json.Length ==> json[i] == old(json[i])
  {
    LiteralAt(text, start);
    ghost var done := json[..into0];
    var pair := json[start] == '\\' && json[start + 1] != '\0';
    CopyChar(json, into0, start, text);
    into, pos := into0 + 1, start + 1;
    if pair {
      CopyChar(json, into, pos, text);
      into, pos := into + 1, pos + 1;
      assert json[..into] == done + [text[start], text[start + 1]];
      Assoc(done, [text[start], text[start + 1]], Literal(text[pos..]).0);
    } else {
      Assoc(done, [text[start]], Literal(text[pos..]).0);
    }
  }

  /** Copy the rest of a string literal, backslash pairs as a unit, and its closing quote. */
  method CopyLiteral(json: array<char>, into0: nat, start: nat, ghost text: string) returns (into: nat, pos: nat)
    requires Unread(json, text, start) && into0 <= start
    modifies json
    ensures into <= pos && start <= pos && Unread(json, text, pos) && text[pos..] == Literal(text[start..]).1
    ensures json[..into] == old(json[..into0]) + Literal(text[start..]).0
    ensures forall i :: |text| < i < json.Length ==> json[i] == old(json[i])
  {
    into, pos := into0, start;
    ghost var whole := json[..into0] + Literal(text[start..]).0;
    while json[pos] != '\0' && json[pos] != '\"'
      invariant into <= pos && start <= pos && Unread(json, text, pos)
      invariant json[..into] + Literal(text[pos..]).0 == whole && Literal(text[pos..]).1 == Literal(text[start..]).1
      invariant forall i :: |text| < i < json.Length ==> json[i] == old(json[i])
      decreases |text| - pos
    {
      into, pos := CopyUnit(json, into, pos, text);
    }
    if json[pos] != '\0' {
      LiteralAt(text, pos);
      CopyChar(json, into, pos, text);
      into, pos := into + 1, pos + 1;
    } else {
      assert text[pos..] == [] && json[..into] + [] == json[..into];
    }
  }

  method CopyToken(json: array<char>, into0: nat, start: nat, ghost text: string) returns (into: nat, pos: nat)
    requires Unread(json, text, start) && into0 <= start < |text|
    requires var c := text[start];
      Minify(text[start..]) == if c == '\"' then [c] + Literal(text[start + 1..]).0 + Minify(Literal(text[start + 1..]).1)
                               else [c] + Minify(text[start + 1..])
    modifies json
    ensures into <= pos && start < pos && Unread(json, text, pos)
    ensures json[..into] + Minify(text[pos..]) == old(json[..into0]) + Minify(text[start..])
    ensures forall i :: |text| < i < json.Length ==> json[i] == old(json[i])
  {
    ghost var done := json[..into0];
    var quote := json[start] == '\"';
    CopyChar(json, into0, start, text);
    into, pos := into0 + 1, start + 1;
    if quote {
      into, pos := CopyLiteral(json, into, pos, text);
      ghost var lit := Literal(text[start + 1..]);
      TokenCopied(done, text[start], lit.0, Minify(lit.1));
    } else {
      Assoc(done, [text[start]], Minify(text[pos..]));
    }
  }

  lemma TokenCopied(done: string, c: char, lit: string, rest: string)
    ensures (done + [c]) + lit + rest == done + ([c] + lit + rest)
  {
    Assoc(done, [c], lit);
    Assoc(done, [c] + lit, rest);
  }

  /** One round of the loop: a blank, a comment or a token. */
  method MinifyNext(json: array<char>, into0: nat, start: nat, ghost text: string) returns (into: nat, pos: nat)
    requires Unread(json, text, start) && into0 <= start < |text|
    modifies json
    ensures into <= pos && start < pos && Unread(json, text, pos)
    ensures json[..into] + Minify(text[pos..]) == old(json[..into0]) + Minify(text[start..])
    ensures forall i :: |text| < i < json.Length ==> json[i] == old(json[i])
  {
    into, pos := into0, start;
    MinifyAt(text, pos);
    if IsBlank(json[pos]) {
      pos := pos + 1;
    } else if json[pos] == '/' && json[pos + 1] == '/' {
      pos := SkipLine(json, pos + 1, text);
    } else if json[pos] == '/' && json[pos + 1] == '*' {
      pos := SkipComment(json, pos + 1, text);
    } else {
      into, pos := CopyToken(json, into, pos, text);
    }
  }

  /** `cJSON_Minify` on a terminated buffer: the write cursor stays behind the read cursor, and the
      buffer ends up holding what `Minify` makes of the text.  A literal or comment that is not
      closed ends with the text. */
  method MinifyInPlace(json: array<char>, ghost text: string) returns (into: nat)
    requires Unread(json, text, 0)
    modifies json
    ensures into <= |text| && json[into] == '\0' && json[..into] == Minify(text)
    ensures forall i :: |text| < i < json.Length ==> json[i] == old(json[i])
  {
    into := 0;
    var pos := 0;
    assert text[0..] == text && [] + Minify(text) == Minify(text);
    while json[pos] != '\0'
      invariant into <= pos && Unread(json, text, pos)
      invariant json[..into] + Minify(text[pos..]) == Minify(text)
      invariant forall i :: |text| < i < json.Length ==> json[i] == old(json[i])
      decreases |text| - pos
    {
      into, pos := MinifyNext(json, into, pos, text);
    }
    assert text[pos..] == [] && json[..into] + [] == json[..into];
    ghost var done := json[..into];
    json[into] := '\0';
    assert json[..into] == done;
  }
}
