/** The loops and buffers of cJSON.c, proved against the functions of `Json`. */
module JsonText {
  import opened Wrappers
  import opened Json
  import opened JsonGrammar
  import opened JsonPrinting

  // ---------------------------------------------------------------- print_string_ptr

  predicate HasShortEscape(c: char) {
    c == '\"' || c == '\\' || c == 8 as char || c == 12 as char || c == '\n' || c == '\r' || c == '\t'
  }

  lemma EscapedLength(c: char)
    ensures |EscapeChar(c)| == if HasShortEscape(c) then 2 else if c < 32 as char then 6 else 1
  {
  }

  lemma {:induction false} EscapeConcat(a: string, b: string)
    ensures Escape(a + b) == Escape(a) + Escape(b)
  {
    if a == [] {
      assert a + b == b && [] + Escape(b) == Escape(b);
    } else {
      EscapeConcat(a[1..], b);
      assert (a + b)[0] == a[0] && (a + b)[1..] == a[1..] + b;
      Assoc(EscapeChar(a[0]), Escape(a[1..]), Escape(b));
    }
  }

  lemma EscapeSnoc(s: string, i: nat)
    requires i < |s|
    ensures Escape(s[..i + 1]) == Escape(s[..i]) + EscapeChar(s[i])
  {
    EscapeConcat(s[..i], [s[i]]);
    assert s[..i + 1] == s[..i] + [s[i]];
    assert [s[i]][1..] == [] && EscapeChar(s[i]) + [] == EscapeChar(s[i]);
  }

  /** The first pass: how long the escaped text is. */
  method MeasureEscaped(str: string) returns (len: nat)
    ensures len == |Escape(str)|
  {
    len := 0;
    var i := 0;
    while i < |str|
      invariant 0 <= i <= |str| && len == |Escape(str[..i])|
    {
      EscapeSnoc(str, i);
      EscapedLength(str[i]);
      len := len + 1;
      if HasShortEscape(str[i]) {
        len := len + 1;
      } else if str[i] < 32 as char {
        len := len + 5;
      }
      i := i + 1;
    }
    assert str[..i] == str;
  }

  /** The second pass fills the measured buffer exactly, terminator included. It leaves a JSON string that
      stands for `str`, with no control character in it. */
  method PrintStringPtr(str: string) returns (out: array<char>)
    ensures fresh(out) && out[..] == Quote(str) + ['\0']
    ensures PiecesOk(PiecesFor(str)) && PiecesBytes(PiecesFor(str)) == str && out[..] == SpellString(PiecesFor(str), ['\0'])
    ensures forall i :: 0 <= i < out.Length - 1 ==> out[i] >= ' '
  {
    var len := MeasureEscaped(str);
    out := new char[len + 3](_ => '\0');
    out[0] := '\"';
    var p, i := 1, 0;
    assert out[..1] == "\"" + Escape(str[..0]);
    while i < |str|
      invariant 0 <= i <= |str| && p == 1 + |Escape(str[..i])| && p <= out.Length - 2
      invariant out[..p] == "\"" + Escape(str[..i])
    {
      EscapeSnoc(str, i);
      EscapeGrows(str, i + 1);
      ghost var before := out[..p];
      p := Store(out, p, EscapeChar(str[i]));
      Assoc("\"", Escape(str[..i]), EscapeChar(str[i]));
      i := i + 1;
    }
    assert str[..i] == str;
    ghost var before := out[..p];
    out[p] := '\"';
    out[p + 1] := '\0';
    assert out[..p] == before && out[..] == out[..p] + ['\"', '\0'];
    QuotedIsString(str, ['\0']);
    QuotedIsPrintable(str, out[..]);
  }

  lemma {:induction false} EscapeGrows(s: string, i: nat)
    requires i <= |s|
    ensures |Escape(s[..i])| <= |Escape(s)|
    decreases |s| - i
  {
    if i == |s| {
      assert s[..i] == s;
    } else {
      EscapeSnoc(s, i);
      EscapeGrows(s, i + 1);
    }
  }

  /** Write a piece of text at index `p`. */
  method Store(out: array<char>, p: nat, s: string) returns (q: nat)
    requires p + |s| <= out.Length
    modifies out
    ensures q == p + |s| && out[..q] == old(out[..p]) + s
  {
    for i := 0 to |s|
      invariant out[..p + i] == old(out[..p]) + s[..i]
    {
      out[p + i] := s[i];
      assert s[..i + 1] == s[..i] + [s[i]];
    }
    assert s[..|s|] == s;
    q := p + |s|;
  }

  // ---------------------------------------------------------------- print_array, print_object

  function ItemsLength(items: seq<Json>, depth: nat, fmt: bool): (n: nat) {
    if items == [] then 0
    else |PrintValue(items[0], depth, fmt)| + 2 + (if fmt then 1 else 0) + ItemsLength(items[1..], depth, fmt)
  }

  /** The length `print_array` allocates is enough for the text and its terminator. */
  lemma {:induction false} ArrayFits(items: seq<Json>, depth: nat, fmt: bool)
    ensures |PrintItems(items, depth, fmt)| <= ItemsLength(items, depth, fmt)
  {
    if items != [] {
      ArrayFits(items[1..], depth, fmt);
    }
  }

  function MembersLength(members: seq<Member>, depth: nat, fmt: bool): (n: nat) {
    if members == [] then 0
    else |PrintValue(members[0].value, depth, fmt)| + |Quote(members[0].name)| + 2 + (if fmt then 2 + depth else 0) +
         MembersLength(members[1..], depth, fmt)
  }

  lemma {:induction false} TabsLength(n: int)
    ensures |Tabs(n)| == if n <= 0 then 0 else n
  {
    if n > 0 {
      TabsLength(n - 1);
    }
  }

  lemma {:induction false} ObjectFits(members: seq<Member>, depth: nat, fmt: bool)
    ensures |PrintMembers(members, depth, fmt)| <= MembersLength(members, depth, fmt)
  {
    if members != [] {
      TabsLength(depth);
      ObjectFits(members[1..], depth, fmt);
    }
  }

  /** The lengths that `print_array` and `print_object` allocate hold their text and a terminator. */
  lemma PrintFits(v: Json, depth: nat, fmt: bool)
    ensures v.Array? && v.items != [] ==> |PrintValue(v, depth, fmt)| + 1 <= 5 + ItemsLength(v.items, depth + 1, fmt)
    ensures v.Object? && v.members != [] ==>
      |PrintValue(v, depth, fmt)| + 1 <= 7 + (if fmt then depth + 1 else 0) + MembersLength(v.members, depth + 1, fmt)
    ensures v.Object? && v.members == [] ==> |PrintValue(v, depth, fmt)| + 1 <= if fmt then depth + 4 else 3
  {
    if v.Array? {
      ArrayFits(v.items, depth + 1, fmt);
    } else if v.Object? {
      ObjectFits(v.members, depth + 1, fmt);
      TabsLength(depth);
      TabsLength(depth - 1);
    }
  }

  method PrintText(v: Json, depth: nat, fmt: bool) returns (r: string)
    ensures r == PrintValue(v, depth, fmt)
    decreases v, 1
  {
    match v
    case Null => r := "null";
    case Bool(b) => r := if b then "true" else "false";
    case Number(n) => r := PrintInt(n);
    case String(s) =>
      var out := PrintStringPtr(s);
      r := out[..out.Length - 1];
      assert r == Quote(s);
    case Array(items) => r := PrintArray(items, depth, fmt);
    case Object(members) => r := PrintObject(members, depth, fmt);
  }

  method PrintArray(items: seq<Json>, depth: nat, fmt: bool) returns (r: string)
    ensures r == PrintValue(Array(items), depth, fmt)
    decreases items, 0
  {
    if items == [] {
      return "[]";
    }
    r := "[";
    var i := 0;
    assert items[0..] == items;
    while i < |items|
      invariant 0 <= i <= |items|
      invariant r + PrintItems(items[i..], depth + 1, fmt) == "[" + PrintItems(items, depth + 1, fmt)
    {
      var entry := PrintText(items[i], depth + 1, fmt);
      ghost var before, more := r, PrintItems(items[i + 1..], depth + 1, fmt);
      ghost var sep := if i != |items| - 1 then "," + When(fmt, " ") else "";
      assert items[i..][1..] == items[i + 1..];
      r := r + entry;
      if i != |items| - 1 {
        r := r + ",";
        if fmt {
          r := r + " ";
        }
      }
      assert r == before + entry + sep;
      Assoc3(before, entry, sep, more);
      i := i + 1;
    }
    assert items[i..] == [] && r + [] == r;
    r := r + "]";
  }

  lemma Assoc3(a: string, b: string, c: string, d: string)
    ensures a + b + c + d == a + (b + c + d)
  {
  }

  method PrintObject(members: seq<Member>, depth: nat, fmt: bool) returns (r: string)
    ensures r == PrintValue(Object(members), depth, fmt)
    decreases members, 0
  {
    r := "{";
    if fmt {
      r := r + "\n";
    }
    if members == [] {
      if fmt {
        var tabs := PrintTabs(depth - 1);
        r := r + tabs;
      }
      assert PrintMembers(members, depth + 1, fmt) == [] && "{" + When(fmt, "\n") + [] == "{" + When(fmt, "\n");
      r := r + "}";
      return;
    }
    ghost var open := r;
    assert open == "{" + When(fmt, "\n");
    var i := 0;
    assert members[0..] == members;
    while i < |members|
      invariant 0 <= i <= |members|
      invariant r + PrintMembers(members[i..], depth + 1, fmt) == open + PrintMembers(members, depth + 1, fmt)
    {
      ghost var before, more := r, PrintMembers(members[i + 1..], depth + 1, fmt);
      assert members[i..][1..] == members[i + 1..];
      var entry := PrintMember(members[i], depth + 1, fmt, i == |members| - 1);
      r := r + entry;
      MemberEntry(members[i..], depth + 1, fmt);
      Assoc(before, entry, more);
      i := i + 1;
    }
    assert members[i..] == [] && r + [] == r;
    if fmt {
      var tabs := PrintTabs(depth);
      r := r + tabs;
    }
    r := r + "}";
  }

  function Entry(m: Member, depth: nat, fmt: bool, last: bool): (r: string) {
    MemberHead(m, depth, fmt) + (if last then "" else ",") + When(fmt, "\n")
  }

  lemma MemberEntry(members: seq<Member>, depth: nat, fmt: bool)
    requires members != []
    ensures PrintMembers(members, depth, fmt) == Entry(members[0], depth, fmt, |members| == 1) + PrintMembers(members[1..], depth, fmt)
  {
  }

  method PrintMember(m: Member, depth: nat, fmt: bool, last: bool) returns (r: string)
    ensures r == Entry(m, depth, fmt, last)
    decreases m, 2
  {
    var tabs := PrintTabs(depth);
    var name := PrintStringPtr(m.name);
    var value := PrintText(m.value, depth, fmt);
    assert name[..name.Length - 1] == Quote(m.name);
    r := When(fmt, tabs) + name[..name.Length - 1] + ":" + When(fmt, "\t") + value;
    r := r + (if last then "" else ",") + When(fmt, "\n");
  }

  method PrintTabs(n: int) returns (r: string)
    ensures r == Tabs(n)
  {
    r := [];
    var i := 0;
    while i < n
      invariant (0 <= i <= n || n < 0 == i) && r == Tabs(i)
    {
      TabsSnoc(i + 1);
      r := r + "\t";
      i := i + 1;
    }
  }

  lemma {:induction false} TabsSnoc(n: int)
    requires n > 0
    ensures Tabs(n) == Tabs(n - 1) + "\t"
  {
    if n > 1 {
      TabsSnoc(n - 1);
      assert "\t" + (Tabs(n - 2) + "\t") == "\t" + Tabs(n - 2) + "\t";
    }
  }

  // ---------------------------------------------------------------- parsing

  /** `skip` */
  method SkipText(s: string) returns (r: string)
    ensures r == Skip(s)
  {
    var i := 0;
    assert s[0..] == s;
    while i < |s| && IsSpace(s[i])
      invariant 0 <= i <= |s| && Skip(s[i..]) == Skip(s)
    {
      assert s[i..][1..] == s[i + 1..];
      i := i + 1;
    }
    r := s[i..];
  }

  function Joined(out: string, r: Option<(string, string)>): (r': Option<(string, string)>) {
    if r.None? then None else Some((out + r.value.0, r.value.1))
  }

  /** One round of the unescaping loop. */
  lemma CharsStep(s: string, out: string)
    requires s != [] && s[0] != '\"'
    ensures s[0] != '\\' ==> Joined(out, ParseChars(s)) == Joined(out + [s[0]], ParseChars(s[1..]))
    ensures s[0] == '\\' && |s| == 1 ==> Joined(out, ParseChars(s)) == None
    ensures s[0] == '\\' && |s| > 1 && s[1] != 'u' ==>
      Joined(out, ParseChars(s)) == Joined(out + [UnescapeChar(s[1])], ParseChars(s[2..]))
    ensures s[0] == '\\' && |s| > 1 && s[1] == 'u' ==>
      var u := ParseUnicode(s[2..]);
      Joined(out, ParseChars(s)) == if u.None? then None else Joined(out + u.value.0, ParseChars(s[2 + u.value.1..]))
  {
    if s[0] != '\\' {
      JoinedAssoc(out, [s[0]], ParseChars(s[1..]));
    } else if |s| > 1 && s[1] != 'u' {
      JoinedAssoc(out, [UnescapeChar(s[1])], ParseChars(s[2..]));
    } else if |s| > 1 && ParseUnicode(s[2..]).Some? {
      var u := ParseUnicode(s[2..]).value;
      JoinedAssoc(out, u.0, ParseChars(s[2 + u.1..]));
    }
  }

  lemma JoinedAssoc(a: string, b: string, r: Option<(string, string)>)
    ensures Joined(a, Joined(b, r)) == Joined(a + b, r)
  {
    if r.Some? {
      assert a + (b + r.value.0) == a + b + r.value.0;
    }
  }

  /** `parse_string`: unescape up to the closing quote. */
  method ParseStringText(s: string) returns (r: Option<(string, string)>)
    ensures r == ParseString(s)
  {
    if s == [] || s[0] != '\"' {
      return None;
    }
    var out, rest := "", s[1..];
    ghost var whole := ParseChars(s[1..]);
    assert whole.Some? ==> [] + whole.value.0 == whole.value.0;
    while rest != [] && rest[0] != '\"'
      invariant |rest| < |s| && whole == Joined(out, ParseChars(rest))
      decreases |rest|
    {
      CharsStep(rest, out);
      if rest[0] != '\\' {
        out, rest := out + [rest[0]], rest[1..];
      } else if |rest| == 1 {
        return None;
      } else if rest[1] == 'u' {
        var u := ParseUnicode(rest[2..]);
        if u.None? {
          return None;
        }
        out, rest := out + u.value.0, rest[2 + u.value.1..];
      } else {
        out, rest := out + [UnescapeChar(rest[1])], rest[2..];
      }
    }
    assert out + [] == out;
    r := Some((out, if rest == [] then rest else rest[1..]));
  }

  /** `parse_number` on integer literals. */
  method ParseNumberText(s: string) returns (r: Option<(int, string)>)
    requires s != [] && (s[0] == '-' || IsDigit(s[0]))
    ensures r == ParseNumber(s)
  {
    var rest, sign, n := s, 1, 0;
    if rest[0] == '-' {
      sign, rest := -1, rest[1..];
    }
    if rest != [] && rest[0] == '0' {
      rest := rest[1..];
    }
    if rest != [] && '1' <= rest[0] <= '9' {
      ghost var whole := ParseDigits(rest, 0);
      while rest != [] && IsDigit(rest[0])
        invariant n >= 0 && ParseDigits(rest, n) == whole
        decreases |rest|
      {
        n, rest := n * 10 + (rest[0] - '0') as int, rest[1..];
      }
    }
    r := if FloatTail(rest) then None else Some((sign * n, rest));
  }

  /** `parse_value` */
  method ParseValueText(s: string) returns (r: Option<(Json, string)>)
    ensures r == ParseValue(s)
    decreases |s|, 1
  {
    if StartsWith(s, "null") {
      r := Some((Null, s[4..]));
    } else if StartsWith(s, "false") {
      r := Some((Bool(false), s[5..]));
    } else if StartsWith(s, "true") {
      r := Some((Bool(true), s[4..]));
    } else if s == [] {
      r := None;
    } else if s[0] == '\"' {
      var t := ParseStringText(s);
      r := if t.None? then None else Some((String(t.value.0), t.value.1));
    } else if s[0] == '-' || IsDigit(s[0]) {
      var n := ParseNumberText(s);
      r := if n.None? then None else Some((Number(n.value.0), n.value.1));
    } else if s[0] == '[' {
      r := ParseArrayText(s);
    } else if s[0] == '{' {
      r := ParseObjectText(s);
    } else {
      r := None;
    }
  }

  /** What the text after an item makes of the items so far. */
  function ItemsThen(acc: seq<Json>, s: string): (r: Option<(seq<Json>, string)>) {
    if s != [] && s[0] == ',' then
      var rest := ParseItems(s[1..]);
      if rest.None? then None else Some((acc + rest.value.0, rest.value.1))
    else if s != [] && s[0] == ']' then Some((acc, s[1..]))
    else None
  }

  lemma ItemsStep(acc: seq<Json>, s: string)
    requires s != [] && s[0] == ','
    ensures var v := ParseValue(Skip(s[1..]));
      ItemsThen(acc, s) == if v.None? then None else ItemsThen(acc + [v.value.0], Skip(v.value.1))
  {
    var v := ParseValue(Skip(s[1..]));
    if v.Some? {
      var s1 := Skip(v.value.1);
      if s1 != [] && s1[0] == ',' && ParseItems(s1[1..]).Some? {
        var more := ParseItems(s1[1..]).value.0;
        assert acc + ([v.value.0] + more) == acc + [v.value.0] + more;
      }
    }
  }

  lemma ItemsBegin(s: string)
    ensures var v := ParseValue(Skip(s));
      ParseItems(s) == if v.None? then None else ItemsThen([v.value.0], Skip(v.value.1))
  {
  }

  /** `parse_array` */
  method ParseArrayText(s: string) returns (r: Option<(Json, string)>)
    requires s != [] && s[0] == '[' && !StartsWith(s, "null") && !StartsWith(s, "false") && !StartsWith(s, "true")
    ensures r == ParseValue(s)
    decreases |s|, 0
  {
    var s1 := SkipText(s[1..]);
    if s1 != [] && s1[0] == ']' {
      return Some((Array([]), s1[1..]));
    }
    ItemsBegin(s1);
    var s2 := SkipText(s1);
    var v := ParseValueText(s2);
    if v.None? {
      return None;
    }
    var items, rest := [v.value.0], v.value.1;
    rest := SkipText(rest);
    ghost var whole := ParseItems(s1);
    while rest != [] && rest[0] == ','
      invariant |rest| < |s| && whole == ItemsThen(items, rest)
      decreases |rest|
    {
      ItemsStep(items, rest);
      var next := SkipText(rest[1..]);
      v := ParseValueText(next);
      if v.None? {
        return None;
      }
      items := items + [v.value.0];
      rest := SkipText(v.value.1);
    }
    r := if rest != [] && rest[0] == ']' then Some((Array(items), rest[1..])) else None;
  }

  function MembersThen(acc: seq<Member>, s: string): (r: Option<(seq<Member>, string)>) {
    if s != [] && s[0] == ',' then
      var rest := ParseMembers(s[1..]);
      if rest.None? then None else Some((acc + rest.value.0, rest.value.1))
    else if s != [] && s[0] == '}' then Some((acc, s[1..]))
    else None
  }

  /** One name, colon and value. */
  function ParseMember(s: string): (r: Option<(Member, string)>)
    ensures r.Some? ==> |r.value.1| < |s|
  {
    var name := ParseString(Skip(s));
    if name.None? then None
    else
      var s1 := Skip(name.value.1);
      if s1 == [] || s1[0] != ':' then None
      else
        var v := ParseValue(Skip(s1[1..]));
        if v.None? then None else Some((Member(name.value.0, v.value.0), v.value.1))
  }

  lemma MembersBegin(s: string)
    ensures var m := ParseMember(s);
      ParseMembers(s) == if m.None? then None else MembersThen([m.value.0], Skip(m.value.1))
  {
  }

  lemma MembersStep(acc: seq<Member>, s: string)
    requires s != [] && s[0] == ','
    ensures var m := ParseMember(s[1..]);
      MembersThen(acc, s) == if m.None? then None else MembersThen(acc + [m.value.0], Skip(m.value.1))
  {
    var m := ParseMember(s[1..]);
    MembersBegin(s[1..]);
    if m.Some? {
      var s1 := Skip(m.value.1);
      if s1 != [] && s1[0] == ',' && ParseMembers(s1[1..]).Some? {
        var more := ParseMembers(s1[1..]).value.0;
        assert acc + ([m.value.0] + more) == acc + [m.value.0] + more;
      }
    }
  }

  method ParseMemberText(s: string) returns (r: Option<(Member, string)>)
    ensures r == ParseMember(s)
    decreases |s|, 2
  {
    var s0 := SkipText(s);
    var name := ParseStringText(s0);
    if name.None? {
      return None;
    }
    var s1 := SkipText(name.value.1);
    if s1 == [] || s1[0] != ':' {
      return None;
    }
    var s2 := SkipText(s1[1..]);
    var v := ParseValueText(s2);
    r := if v.None? then None else Some((Member(name.value.0, v.value.0), v.value.1));
  }

  /** `parse_object` */
  method ParseObjectText(s: string) returns (r: Option<(Json, string)>)
    requires s != [] && s[0] == '{' && !StartsWith(s, "null") && !StartsWith(s, "false") && !StartsWith(s, "true")
    ensures r == ParseValue(s)
    decreases |s|, 0
  {
    var s1 := SkipText(s[1..]);
    if s1 != [] && s1[0] == '}' {
      return Some((Object([]), s1[1..]));
    }
    MembersBegin(s1);
    var m := ParseMemberText(s1);
    if m.None? {
      return None;
    }
    var members := [m.value.0];
    var rest := SkipText(m.value.1);
    ghost var whole := ParseMembers(s1);
    while rest != [] && rest[0] == ','
      invariant |rest| < |s| && whole == MembersThen(members, rest)
      decreases |rest|
    {
      MembersStep(members, rest);
      m := ParseMemberText(rest[1..]);
      if m.None? {
        return None;
      }
      members := members + [m.value.0];
      rest := SkipText(m.value.1);
    }
    r := if rest != [] && rest[0] == '}' then Some((Object(members), rest[1..])) else None;
  }

  /** The program prints a value and reads the text back: nothing is lost. */
  method PrintAndParse(v: Json, fmt: bool) returns (text: string, r: Option<(Json, string)>)
    requires Storable(v)
    ensures text == PrintValue(v, 0, fmt) && r == Some((v, []))
  {
    text := PrintText(v, 0, fmt);
    r := ParseValueText(text);
    PrintParse(v, fmt);
  }
}
