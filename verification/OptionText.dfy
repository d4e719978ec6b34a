/** Option groups of fuse_opt.c: how their options are written, decoded and escaped again. */
module OptionText {
  import opened Wrappers
  import opened CText

  /** What a C string function sees of a buffer. */
  function CStr(s: string): (r: string)
    ensures NulFree(r) && r <= s && (|r| < |s| ==> s[|r|] == '\0') && (NulFree(s) ==> r == s)
  {
    if s == [] || s[0] == '\0' then []
    else
      assert s == [s[0]] + s[1..];
      [s[0]] + CStr(s[1..])
  }

  // ---------------------------------------------------------------- escaping and decoding

  function EscapeChar(c: char): (r: string)
    ensures |r| <= 2
  {
    if c == ',' || c == '\\' then ['\\', c] else [c]
  }

  function EscapeOpt(s: string): (r: string) {
    if s == [] then [] else EscapeChar(s[0]) + EscapeOpt(s[1..])
  }

  /** `add_opt_common`: a comma only after something. */
  function AddOpt(opts: Option<string>, opt: string): (r: Option<string>) {
    if opts.None? || opts.value == [] then Some(EscapeOpt(opt)) else Some(opts.value + "," + EscapeOpt(opt))
  }

  function AddAll(opts: Option<string>, l: seq<string>): (r: Option<string>)
    decreases l
  {
    if l == [] then opts else AddAll(AddOpt(opts, l[0]), l[1..])
  }

  predicate IsOctal(s: string) {
    |s| >= 3 && '0' <= s[0] <= '3' && '0' <= s[1] <= '7' && '0' <= s[2] <= '7'
  }

  function OctalValue(s: string): (c: char)
    requires IsOctal(s)
  {
    ((s[0] - '0') as int * 64 + (s[1] - '0') as int * 8 + (s[2] - '0') as int) as char
  }

  /** The next decoded character and the length of its text. */
  function DecodeChar(s: string): (r: (char, nat))
    requires s != []
    ensures 0 < r.1 <= |s|
  {
    if s[0] == '\\' && |s| > 1 then
      if IsOctal(s[1..]) then (OctalValue(s[1..]), 4) else (s[1], 2)
    else (s[0], 1)
  }

  /** `process_real_option_group`: the options of a group, `cur` being the one under way. */
  function DecodeGroup(s: string, cur: string): (r: seq<string>)
    ensures r != [] && forall i :: 0 <= i < |r| ==> NulFree(r[i])
    decreases |s|
  {
    if s == [] then [CStr(cur)]
    else if s[0] == ',' then [CStr(cur)] + DecodeGroup(s[1..], [])
    else
      var (c, n) := DecodeChar(s);
      DecodeGroup(s[n..], cur + [c])
  }

  predicate AllNulFree(l: seq<string>) {
    forall i :: 0 <= i < |l| ==> NulFree(l[i])
  }

  lemma Assoc<T>(a: seq<T>, b: seq<T>, c: seq<T>)
    ensures a + b + c == a + (b + c)
  {
  }

  lemma FirstMoved<T>(a: seq<T>, b: seq<T>)
    requires b != []
    ensures a + [b[0]] + b[1..] == a + b
  {
  }

  lemma FirstTaken<T>(a: seq<T>, b: seq<T>)
    requires a != []
    ensures a + b != [] && (a + b)[0] == a[0] && (a + b)[1..] == a[1..] + b
  {
  }

  // ---------------------------------------------------------------- how a group may be written

  /** A character of an option: as it is, behind a backslash, or by its number in octal. */
  datatype Glyph = Bare(c: char) | Hidden(c: char) | Octal(c: char)

  /** The last digits of a number in base eight. */
  function OctalText(n: nat, digits: nat): (r: string) {
    if digits == 0 then [] else OctalText(n / 8, digits - 1) + ['0' + (n % 8) as char]
  }

  function GlyphText(g: Glyph): (r: string) {
    match g
    case Bare(c) => [c]
    case Hidden(c) => ['\\', c]
    case Octal(c) => ['\\'] + OctalText(c as nat, 3)
  }

  predicate TwoOctal(s: string) {
    |s| > 1 && '0' <= s[0] <= '7' && '0' <= s[1] <= '7'
  }

  /** What a character must not be, given the text behind it: a comma ends the option unless it is hidden, a
      backslash hides unless it is the last character, and a hidden digit must not look like a number. */
  predicate GlyphOk(g: Glyph, rest: string) {
    match g
    case Bare(c) => c != ',' && (c == '\\' ==> rest == [])
    case Hidden(c) => !('0' <= c <= '3' && TwoOctal(rest))
    case Octal(c) => c as nat < 0x100
  }

  function SpellOption(o: seq<Glyph>, rest: string): (r: string) {
    if o == [] then rest else GlyphText(o[0]) + SpellOption(o[1..], rest)
  }

  predicate OptionOk(o: seq<Glyph>, rest: string) {
    o == [] || (GlyphOk(o[0], SpellOption(o[1..], rest)) && OptionOk(o[1..], rest))
  }

  /** The text that an option stands for. */
  function Meaning(o: seq<Glyph>): (r: string) {
    if o == [] then [] else [o[0].c] + Meaning(o[1..])
  }

  function AfterComma(l: seq<seq<Glyph>>): (r: string)
    requires l != []
    decreases l, 0
  {
    if |l| == 1 then [] else [','] + SpellGroup(l[1..])
  }

  function SpellGroup(l: seq<seq<Glyph>>): (r: string)
    requires l != []
    decreases l, 1
  {
    SpellOption(l[0], AfterComma(l))
  }

  predicate GroupOk(l: seq<seq<Glyph>>)
    requires l != []
  {
    OptionOk(l[0], AfterComma(l)) && (|l| > 1 ==> GroupOk(l[1..]))
  }

  function Meanings(l: seq<seq<Glyph>>): (r: seq<string>) {
    if l == [] then [] else [CStr(Meaning(l[0]))] + Meanings(l[1..])
  }

  predicate Spells(l: seq<seq<Glyph>>, s: string) {
    l != [] && GroupOk(l) && SpellGroup(l) == s
  }

  // ---------------------------------------------------------------- decoding reads what is written

  lemma OctalDigits(n: nat)
    requires n < 0x100
    ensures OctalText(n, 3) == ['0' + (n / 64) as char, '0' + (n / 8 % 8) as char, '0' + (n % 8) as char]
    ensures n == n / 64 * 64 + n / 8 % 8 * 8 + n % 8 && n / 64 < 4
  {
    assert n / 8 / 8 == n / 64 && n / 64 % 8 == n / 64;
    assert OctalText(n / 64, 1) == [] + ['0' + (n / 64) as char];
    assert OctalText(n / 8, 2) == OctalText(n / 64, 1) + ['0' + (n / 8 % 8) as char];
  }

  lemma OctalRead(a: nat, b: nat, c: nat, rest: string)
    requires a < 4 && b < 8 && c < 8
    ensures var s := ['\\', '0' + a as char, '0' + b as char, '0' + c as char] + rest;
      DecodeChar(s) == ((a * 64 + b * 8 + c) as char, 4) && s[4..] == rest
  {
    var s := ['\\', '0' + a as char, '0' + b as char, '0' + c as char] + rest;
    assert s[1] == '0' + a as char && s[2] == '0' + b as char && s[3] == '0' + c as char;
    assert s[1..][0] == s[1] && s[1..][1] == s[2] && s[1..][2] == s[3];
  }

  /** Three octal digits behind a backslash are the character with that number. */
  lemma OctalDecodes(c: char, rest: string, cur: string)
    requires c as nat < 0x100
    ensures DecodeGroup(['\\'] + OctalText(c as nat, 3) + rest, cur) == DecodeGroup(rest, cur + [c])
  {
    var n := c as nat;
    OctalDigits(n);
    OctalRead(n / 64, n / 8 % 8, n % 8, rest);
    assert ['\\'] + OctalText(n, 3) == ['\\', '0' + (n / 64) as char, '0' + (n / 8 % 8) as char, '0' + (n % 8) as char];
  }

  lemma GlyphDecodes(g: Glyph, rest: string, cur: string)
    requires GlyphOk(g, rest)
    ensures DecodeGroup(GlyphText(g) + rest, cur) == DecodeGroup(rest, cur + [g.c])
  {
    var s := GlyphText(g) + rest;
    match g
    case Bare(c) => assert s[0] == c && s[1..] == rest && DecodeChar(s) == (c, 1);
    case Hidden(c) =>
      assert s[0] == '\\' && s[1..] == [c] + rest && s[2..] == rest;
      assert DecodeChar(s) == (c, 2);
    case Octal(c) => OctalDecodes(c, rest, cur);
  }

  lemma {:induction false} OptionDecodes(o: seq<Glyph>, rest: string, cur: string)
    requires OptionOk(o, rest)
    ensures DecodeGroup(SpellOption(o, rest), cur) == DecodeGroup(rest, cur + Meaning(o))
  {
    if o == [] {
      assert cur + [] == cur;
    } else {
      GlyphDecodes(o[0], SpellOption(o[1..], rest), cur);
      OptionDecodes(o[1..], rest, cur + [o[0].c]);
      Assoc(cur, [o[0].c], Meaning(o[1..]));
    }
  }

  /** A group is decoded to the options that it spells, however their characters are written. */
  lemma {:induction false} GroupDecodes(l: seq<seq<Glyph>>)
    requires l != [] && GroupOk(l)
    ensures DecodeGroup(SpellGroup(l), []) == Meanings(l)
  {
    OptionDecodes(l[0], AfterComma(l), []);
    assert [] + Meaning(l[0]) == Meaning(l[0]);
    if |l| > 1 {
      GroupDecodes(l[1..]);
      assert AfterComma(l)[1..] == SpellGroup(l[1..]);
    } else {
      assert l[1..] == [];
    }
  }

  // ---------------------------------------------------------------- every text is written so

  lemma OctalWritten(s: string)
    requires IsOctal(s)
    ensures OctalText(OctalValue(s) as nat, 3) == s[..3] && OctalValue(s) as nat < 0x100
  {
    var a, b, c := (s[0] - '0') as nat, (s[1] - '0') as nat, (s[2] - '0') as nat;
    var n := a * 64 + b * 8 + c;
    OctalDigits(n);
    assert n / 64 == a && n / 8 % 8 == b && n % 8 == c;
  }

  /** The first character of a text that does not start with a comma. */
  lemma FirstGlyph(s: string) returns (g: Glyph, rest: string)
    requires s != [] && s[0] != ','
    ensures GlyphOk(g, rest) && GlyphText(g) + rest == s && |rest| < |s|
  {
    if s[0] == '\\' && |s| > 1 {
      if IsOctal(s[1..]) {
        OctalWritten(s[1..]);
        g, rest := Octal(OctalValue(s[1..])), s[4..];
        assert s == ['\\'] + s[1..][..3] + s[4..];
      } else {
        g, rest := Hidden(s[1]), s[2..];
      }
    } else {
      g, rest := Bare(s[0]), s[1..];
    }
  }

  /** Every text is the spelling of some group, so that nothing is left open about what it decodes to. */
  lemma {:induction false} EveryTextIsSpelled(s: string) returns (l: seq<seq<Glyph>>)
    ensures Spells(l, s)
    decreases |s|
  {
    if s == [] {
      l := [[]];
    } else if s[0] == ',' {
      var more := EveryTextIsSpelled(s[1..]);
      l := [[]] + more;
      assert l[1..] == more;
    } else {
      var g, rest := FirstGlyph(s);
      var more := EveryTextIsSpelled(rest);
      l := [[g] + more[0]] + more[1..];
      assert l[1..] == more[1..] && l[0][1..] == more[0];
    }
  }

  // ---------------------------------------------------------------- what is emitted

  /** A backslash goes before commas and backslashes, and nowhere else. */
  function Written(o: string): (r: seq<Glyph>) {
    if o == [] then [] else [if o[0] in {',', '\\'} then Hidden(o[0]) else Bare(o[0])] + Written(o[1..])
  }

  lemma {:induction false} EscapedIsWritten(o: string, rest: string)
    ensures EscapeOpt(o) + rest == SpellOption(Written(o), rest)
    ensures OptionOk(Written(o), rest) && Meaning(Written(o)) == o
  {
    if o != [] {
      EscapedIsWritten(o[1..], rest);
      var w := Written(o);
      assert w[1..] == Written(o[1..]) && o == [o[0]] + o[1..];
      Assoc(EscapeChar(o[0]), EscapeOpt(o[1..]), rest);
    }
  }

  lemma DecodeEscaped(o: string, rest: string, cur: string)
    ensures DecodeGroup(EscapeOpt(o) + rest, cur) == DecodeGroup(rest, cur + o)
  {
    EscapedIsWritten(o, rest);
    OptionDecodes(Written(o), rest, cur);
  }

  /** A list of options, each escaped, with commas between. */
  function Join(l: seq<string>): (r: string)
    requires l != []
  {
    if |l| == 1 then EscapeOpt(l[0]) else EscapeOpt(l[0]) + ("," + Join(l[1..]))
  }

  /** Decoding gives back the options, whatever commas and backslashes they contain. */
  lemma {:induction false} DecodeJoin(l: seq<string>)
    requires l != [] && AllNulFree(l)
    ensures DecodeGroup(Join(l), []) == l
  {
    if |l| == 1 {
      DecodeEscaped(l[0], [], []);
      assert EscapeOpt(l[0]) + [] == EscapeOpt(l[0]) && [] + l[0] == l[0] && l == [l[0]];
    } else {
      DecodeJoin(l[1..]);
      var rest := "," + Join(l[1..]);
      DecodeEscaped(l[0], rest, []);
      assert rest[1..] == Join(l[1..]) && [] + l[0] == l[0] && l == [l[0]] + l[1..];
    }
  }

  /** Leading empty options leave no trace, unless nothing else is there. */
  function Normal(l: seq<string>): (r: seq<string>)
    ensures l != [] ==> r != []
  {
    if |l| > 1 && l[0] == [] then Normal(l[1..]) else l
  }

  function NonEmpty(l: seq<string>): (r: seq<string>) {
    if l == [] then [] else (if l[0] == [] then [] else [l[0]]) + NonEmpty(l[1..])
  }

  lemma {:induction false} NormalKeepsOptions(l: seq<string>)
    ensures NonEmpty(Normal(l)) == NonEmpty(l) && (AllNulFree(l) ==> AllNulFree(Normal(l))) && Normal(Normal(l)) == Normal(l)
  {
    if |l| > 1 && l[0] == [] {
      NormalKeepsOptions(l[1..]);
      assert [] + NonEmpty(l[1..]) == NonEmpty(l[1..]);
    }
  }

  lemma {:induction false} JoinSnoc(l: seq<string>, x: string)
    requires l != []
    ensures Join(l + [x]) == Join(l) + "," + EscapeOpt(x)
  {
    if |l| == 1 {
      assert (l + [x])[1..] == [x];
      assert EscapeOpt(l[0]) + ("," + EscapeOpt(x)) == EscapeOpt(l[0]) + "," + EscapeOpt(x);
    } else {
      JoinSnoc(l[1..], x);
      assert (l + [x])[0] == l[0] && (l + [x])[1..] == l[1..] + [x];
      JoinAssoc(EscapeOpt(l[0]), Join(l[1..]), EscapeOpt(x));
    }
  }

  lemma JoinAssoc(a: string, b: string, c: string)
    ensures a + ("," + (b + "," + c)) == a + ("," + b) + "," + c
  {
  }

  lemma {:induction false} JoinEmpty(l: seq<string>)
    requires l != []
    ensures Join(l) == [] <==> l == [[]]
  {
    assert l != [[]] && |l| == 1 ==> l[0] != [];
  }

  lemma {:induction false} NormalSnoc(l: seq<string>, x: string)
    requires l != []
    ensures Normal(l + [x]) == if Normal(l) == [[]] then Normal([x]) else Normal(l) + [x]
  {
    if l[0] == [] {
      assert (l + [x])[1..] == l[1..] + [x];
      if |l| == 1 {
        assert l == [[]] && (l + [x])[1..] == [x];
      } else {
        NormalSnoc(l[1..], x);
      }
    }
  }

  /** Gathering options one by one gives the joined list without leading empty ones. */
  lemma {:induction false} Gathered(done: seq<string>, l: seq<string>)
    requires done != []
    ensures AddAll(Some(Join(Normal(done))), l) == Some(Join(Normal(done + l)))
    decreases l
  {
    if l == [] {
      assert done + l == done;
    } else {
      NormalSnoc(done, l[0]);
      JoinEmpty(Normal(done));
      if Normal(done) != [[]] {
        JoinSnoc(Normal(done), l[0]);
      }
      Gathered(done + [l[0]], l[1..]);
      FirstMoved(done, l);
    }
  }

  lemma GatheredFromNone(l: seq<string>)
    requires l != []
    ensures AddAll(None, l) == Some(Join(Normal(l)))
  {
    Gathered([l[0]], l[1..]);
    assert [l[0]] + l[1..] == l && AddOpt(None, l[0]) == Some(Join(Normal([l[0]])));
  }

  /** The emitted list decodes to the gathered options, and gathers to itself. */
  lemma EmittedDecodes(l: seq<string>)
    requires l != [] && AllNulFree(l)
    ensures var t := AddAll(None, l);
      && t.Some? && DecodeGroup(t.value, []) == Normal(l) && NonEmpty(DecodeGroup(t.value, [])) == NonEmpty(l)
      && AddAll(None, DecodeGroup(t.value, [])) == t
  {
    GatheredFromNone(l);
    NormalKeepsOptions(l);
    DecodeJoin(Normal(l));
    GatheredFromNone(Normal(l));
  }
}
