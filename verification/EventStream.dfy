/** How the debugger cuts a stream of printed events into chunks (debugger.c, the loop of
    `doStartDebugger`). */
module EventStream {
  import opened Wrappers
  import opened Json
  import opened JsonPrinting

  /** The variables of the scanner within one chunk. */
  datatype Scan = Scan(braces: int, quotes: bool, escaping: bool)

  const START := Scan(0, false, false)

  /** One character. A second backslash keeps `escaping` set, like a first one. */
  function Feed(st: Scan, c: char): (st': Scan) {
    Scan(if !st.quotes && c == '{' then st.braces + 1 else if !st.quotes && c == '}' then st.braces - 1 else st.braces,
         if !st.escaping && c == '\"' then !st.quotes else st.quotes,
         c == '\\')
  }

  /** The length of the chunk at the front of the stream; none if the stream ends inside it, where
      the reader would wait for more. */
  function Cut(st: Scan, s: string): (n: Option<nat>)
    ensures n.Some? ==> 0 < n.value <= |s|
    decreases s
  {
    if s == [] then None
    else
      var st' := Feed(st, s[0]);
      if st'.braces <= 0 then Some(1)
      else
        var n := Cut(st', s[1..]);
        if n.None? then None else Some(n.value + 1)
  }

  /** All chunks of a stream that ends. */
  function Chunks(s: string): (r: Option<seq<string>>)
    decreases |s|
  {
    if s == [] then Some([])
    else
      var n := Cut(START, s);
      if n.None? then None
      else
        var rest := Chunks(s[n.value..]);
        if rest.None? then None else Some([s[..n.value]] + rest.value)
  }

  // ---------------------------------------------------------------- running over a text

  function FeedAll(st: Scan, s: string): (st': Scan)
    decreases s
  {
    if s == [] then st else FeedAll(Feed(st, s[0]), s[1..])
  }

  /** The chunk does not end within `s`. */
  predicate Inside(st: Scan, s: string)
    decreases s
  {
    s == [] || (Feed(st, s[0]).braces > 0 && Inside(Feed(st, s[0]), s[1..]))
  }

  lemma {:induction false} FeedConcat(st: Scan, a: string, b: string)
    ensures FeedAll(st, a + b) == FeedAll(FeedAll(st, a), b)
    ensures Inside(st, a + b) <==> Inside(st, a) && Inside(FeedAll(st, a), b)
    decreases a
  {
    if a == [] {
      assert a + b == b;
    } else {
      FeedConcat(Feed(st, a[0]), a[1..], b);
      assert (a + b)[1..] == a[1..] + b;
    }
  }

  lemma {:induction false} CutAfter(st: Scan, s: string, rest: string)
    requires Inside(st, s)
    ensures Cut(st, s + rest) == var n := Cut(FeedAll(st, s), rest); if n.None? then None else Some(|s| + n.value)
    decreases s
  {
    if s == [] {
      assert s + rest == rest;
    } else {
      CutAfter(Feed(st, s[0]), s[1..], rest);
      assert (s + rest)[1..] == s[1..] + rest;
    }
  }

  /** A cut at the end of `s + [c]` means the chunk was open before `c` and closed by it. */
  lemma {:induction false} CutAtEnd(st: Scan, s: string, c: char, rest: string)
    requires Cut(st, s + ([c] + rest)) == Some(|s| + 1)
    ensures Inside(st, s) && Feed(FeedAll(st, s), c).braces <= 0
    decreases s
  {
    var text := s + ([c] + rest);
    if s == [] {
      assert text == [c] + rest;
    } else {
      assert text[0] == s[0] && text[1..] == s[1..] + ([c] + rest);
      CutAtEnd(Feed(st, s[0]), s[1..], c, rest);
    }
  }

  lemma {:induction false} InsideIsOpen(st: Scan, s: string)
    requires Inside(st, s) && s != []
    ensures FeedAll(st, s).braces > 0
    decreases s
  {
    if |s| > 1 {
      InsideIsOpen(Feed(st, s[0]), s[1..]);
    }
  }

  lemma FeedOne(st: Scan, c: char)
    ensures FeedAll(st, [c]) == Feed(st, c)
    ensures Inside(st, [c]) <==> Feed(st, c).braces > 0
  {
    assert [c][1..] == [];
  }

  lemma FeedTwo(st: Scan, c: char, d: char)
    ensures FeedAll(st, [c, d]) == Feed(Feed(st, c), d)
    ensures Inside(st, [c, d]) <==> Feed(st, c).braces > 0 && Feed(Feed(st, c), d).braces > 0
  {
    FeedConcat(st, [c], [d]);
    assert [c, d] == [c] + [d];
    FeedOne(st, c);
    FeedOne(Feed(st, c), d);
  }

  // ---------------------------------------------------------------- what the scanner sees of a value

  predicate EndsInBackslash(s: string) {
    s != [] && s[|s| - 1] == '\\'
  }

  /** An odd number of strings and names end in a backslash. */
  predicate Skewed(v: Json)
    decreases v, 1
  {
    match v
    case Null => false
    case Bool(_) => false
    case Number(_) => false
    case String(s) => EndsInBackslash(s)
    case Array(items) => SkewedItems(items)
    case Object(members) => SkewedMembers(members)
  }

  predicate SkewedItems(items: seq<Json>)
    decreases items, 0
  {
    items != [] && Skewed(items[0]) != SkewedItems(items[1..])
  }

  predicate SkewedMembers(members: seq<Member>)
    decreases members, 0
  {
    members != [] && (EndsInBackslash(members[0].name) != Skewed(members[0].value)) != SkewedMembers(members[1..])
  }

  function BraceOf(c: char): (r: string) {
    if c == '{' || c == '}' then [c] else []
  }

  function Braces(s: string): (r: string) {
    if s == [] then [] else BraceOf(s[0]) + Braces(s[1..])
  }

  /** The braces that are counted of a value, when the scanner is outside quotes (`q` false) or
      takes itself to be inside (`q` true): those of the structure or those of the strings.  A
      literal that ends in a backslash turns one into the other. */
  function Seen(v: Json, q: bool): (r: string)
    decreases v, 1
  {
    match v
    case Null => []
    case Bool(_) => []
    case Number(_) => []
    case String(s) => When(q, Braces(s))
    case Array(items) => SeenItems(items, q)
    case Object(members) => When(!q, "{") + SeenMembers(members, q) + When(q == SkewedMembers(members), "}")
  }

  function SeenItems(items: seq<Json>, q: bool): (r: string)
    decreases items, 0
  {
    if items == [] then [] else Seen(items[0], q) + SeenItems(items[1..], q != Skewed(items[0]))
  }

  function SeenMembers(members: seq<Member>, q: bool): (r: string)
    decreases members, 0
  {
    if members == [] then []
    else
      var m := members[0];
      var q' := q != EndsInBackslash(m.name);
      When(q, Braces(m.name)) + Seen(m.value, q') + SeenMembers(members[1..], q' != Skewed(m.value))
  }

  /** How much deeper a run of braces leads. */
  function Net(w: string): (n: int) {
    FeedAll(START, w).braces
  }

  predicate OnlyBraces(w: string) {
    forall i :: 0 <= i < |w| ==> w[i] == '{' || w[i] == '}'
  }

  lemma {:induction false} FeedBraces(b: int, w: string)
    requires OnlyBraces(w)
    ensures FeedAll(Scan(b, false, false), w) == Scan(b + Net(w), false, false)
    decreases w
  {
    if w != [] {
      var d := if w[0] == '{' then 1 else -1;
      FeedBraces(b + d, w[1..]);
      FeedBraces(d, w[1..]);
    }
  }

  lemma NetConcat(b: int, w: string, w': string)
    requires OnlyBraces(w) && OnlyBraces(w')
    ensures OnlyBraces(w + w') && Net(w + w') == Net(w) + Net(w')
    ensures Inside(Scan(b, false, false), w + w') <==>
      Inside(Scan(b, false, false), w) && Inside(Scan(b + Net(w), false, false), w')
  {
    FeedConcat(Scan(b, false, false), w, w');
    FeedConcat(START, w, w');
    FeedBraces(0, w);
    FeedBraces(b, w);
    FeedBraces(Net(w), w');
  }

  /** The text `t` affects the scanner, `b` braces deep, as the bare braces `w` would, and leads
      from quotes `q` to quotes `q'`. */
  predicate Sees(b: int, t: string, q: bool, w: string, q': bool) {
    && OnlyBraces(w)
    && FeedAll(Scan(b, q, false), t) == Scan(b + Net(w), q', false)
    && (b > 0 ==> (Inside(Scan(b, q, false), t) <==> Inside(Scan(b, false, false), w)))
  }

  lemma SeesConcat(b: int, t: string, q: bool, w: string, q': bool, t': string, w': string, q'': bool)
    requires Sees(b, t, q, w, q') && Sees(b + Net(w), t', q', w', q'')
    ensures Sees(b, t + t', q, w + w', q'')
  {
    FeedConcat(Scan(b, q, false), t, t');
    NetConcat(b, w, w');
    FeedBraces(b, w);
    if b > 0 && Inside(Scan(b, false, false), w) && w != [] {
      InsideIsOpen(Scan(b, false, false), w);
    }
  }

  lemma {:induction false} PlainIsUnseen(b: int, s: string, q: bool)
    requires forall i :: 0 <= i < |s| ==> s[i] !in {'{', '}', '\"', '\\'}
    ensures Sees(b, s, q, [], q)
    decreases s
  {
    if s != [] {
      PlainIsUnseen(b, s[1..], q);
      assert Feed(Scan(b, q, false), s[0]) == Scan(b, q, false);
    }
  }

  /** Append a text of which nothing is seen. */
  lemma SeesPlain(b: int, t: string, q: bool, w: string, q': bool, s: string)
    requires Sees(b, t, q, w, q') && forall i :: 0 <= i < |s| ==> s[i] !in {'{', '}', '\"', '\\'}
    ensures Sees(b, t + s, q, w, q')
  {
    PlainIsUnseen(b + Net(w), s, q');
    SeesConcat(b, t, q, w, q', s, [], q');
    assert w + [] == w;
  }

  lemma BraceIsSeen(b: int, q: bool, c: char)
    requires c == '{' || c == '}'
    ensures Sees(b, [c], q, When(!q, [c]), q)
  {
    FeedOne(Scan(b, q, false), c);
    FeedOne(Scan(b, false, false), c);
    FeedOne(START, c);
  }

  // ---------------------------------------------------------------- string literals

  /** The text of one character neither opens nor closes quotes; afterwards the scanner takes the
      next character for escaped exactly when this one was a backslash. */
  lemma EscapedChar(st: Scan, c: char)
    ensures var st', d := FeedAll(st, EscapeChar(c)), if st.quotes then [] else BraceOf(c);
      && st'.quotes == st.quotes && st'.escaping == (c == '\\') && st'.braces == st.braces + Net(d)
      && (st.braces > 0 ==> (Inside(st, EscapeChar(c)) <==> Inside(Scan(st.braces, false, false), d)))
  {
    var e := EscapeChar(c);
    FeedOne(START, c);
    FeedOne(Scan(st.braces, false, false), c);
    if |e| == 1 {
      FeedOne(st, c);
    } else if |e| == 2 {
      FeedTwo(st, e[0], e[1]);
      assert e == [e[0], e[1]];
    } else {
      assert e == "\\u00" + [e[4], e[5]];
      FeedHex(st, e[4], e[5]);
    }
  }

  lemma FeedHex(st: Scan, c: char, d: char)
    requires c !in {'{', '}', '\"', '\\'} && d !in {'{', '}', '\"', '\\'}
    ensures FeedAll(st, "\\u00" + [c, d]) == Scan(st.braces, st.quotes, false)
    ensures st.braces > 0 ==> Inside(st, "\\u00" + [c, d])
  {
    var st2 := Feed(Feed(st, '\\'), 'u');
    FeedTwo(st, '\\', 'u');
    FeedTwo(st2, '0', '0');
    FeedConcat(st, "\\u", "00");
    assert "\\u" + "00" == "\\u00";
    FeedTwo(Feed(Feed(st2, '0'), '0'), c, d);
    FeedConcat(st, "\\u00", [c, d]);
  }

  lemma {:induction false} BracesOnly(s: string)
    ensures OnlyBraces(Braces(s))
  {
    if s != [] {
      BracesOnly(s[1..]);
    }
  }

  lemma {:induction false} EscapedText(st: Scan, s: string)
    ensures var st', d := FeedAll(st, Escape(s)), if st.quotes then [] else Braces(s);
      && st'.quotes == st.quotes && st'.braces == st.braces + Net(d)
      && st'.escaping == (if s == [] then st.escaping else EndsInBackslash(s))
      && (st.braces > 0 ==> (Inside(st, Escape(s)) <==> Inside(Scan(st.braces, false, false), d)))
    decreases s
  {
    if s != [] {
      var st1 := FeedAll(st, EscapeChar(s[0]));
      EscapedChar(st, s[0]);
      EscapedText(st1, s[1..]);
      FeedConcat(st, EscapeChar(s[0]), Escape(s[1..]));
      BracesOnly(s[1..]);
      NetConcat(st.braces, BraceOf(s[0]), Braces(s[1..]));
      if st.braces > 0 && Inside(st, EscapeChar(s[0])) {
        InsideIsOpen(st, EscapeChar(s[0]));
      }
    }
  }

  /** A literal that ends in a backslash leaves the scanner inside its quotes. */
  lemma QuotedIsSeen(b: int, s: string, q: bool)
    ensures Sees(b, Quote(s), q, When(q, Braces(s)), q != EndsInBackslash(s))
  {
    var st := Scan(b, q, false);
    var st1 := Feed(st, '\"');
    FeedOne(st, '\"');
    EscapedText(st1, s);
    FeedConcat(st, "\"", Escape(s));
    FeedConcat(st, "\"" + Escape(s), "\"");
    FeedOne(FeedAll(st1, Escape(s)), '\"');
    BracesOnly(s);
    if b > 0 && Inside(st1, Escape(s)) && Escape(s) != [] {
      InsideIsOpen(st1, Escape(s));
    }
  }

  /** The text of an object between its braces. */
  function ObjectInside(members: seq<Member>, depth: nat, fmt: bool): (r: string) {
    When(fmt, "\n") + PrintMembers(members, depth + 1, fmt) + When(fmt, Tabs(if members == [] then depth - 1 else depth))
  }

  lemma ObjectBraces(members: seq<Member>, depth: nat, fmt: bool)
    ensures PrintValue(Object(members), depth, fmt) == "{" + (ObjectInside(members, depth, fmt) + "}")
  {
    var nl, body, tabs := When(fmt, "\n"), PrintMembers(members, depth + 1, fmt), When(fmt, Tabs(if members == [] then depth - 1 else depth));
    Regroup("{", nl, body, tabs, "}");
    Assoc(nl + body, tabs, "}");
    Assoc(nl, body, tabs + "}");
  }

  // ---------------------------------------------------------------- whole values

  lemma {:induction false} DigitsUnseen(b: int, n: nat, q: bool)
    ensures Sees(b, Digits(n), q, [], q)
  {
    var c := ['0' + (n % 10) as char];
    if n >= 10 {
      DigitsUnseen(b, n / 10, q);
      SeesPlain(b, Digits(n / 10), q, [], q, c);
    } else {
      PlainIsUnseen(b, c, q);
    }
  }

  lemma {:induction false} TabsUnseen(n: int)
    ensures forall i :: 0 <= i < |Tabs(n)| ==> Tabs(n)[i] !in {'{', '}', '\"', '\\'}
  {
    if n > 0 {
      TabsUnseen(n - 1);
    }
  }

  lemma IntUnseen(b: int, n: int, q: bool)
    ensures Sees(b, PrintInt(n), q, [], q)
  {
    DigitsUnseen(b, if n < 0 then -n else n, q);
    if n < 0 {
      PlainIsUnseen(b, "-", q);
      SeesConcat(b, "-", q, [], q, Digits(-n), [], q);
    }
  }

  /** The scanner's view of the text of a value. */
  lemma {:induction false} ValueIsSeen(v: Json, depth: nat, fmt: bool, b: int, q: bool)
    ensures Sees(b, PrintValue(v, depth, fmt), q, Seen(v, q), q != Skewed(v))
    decreases v, 5
  {
    match v
    case Null => PlainIsUnseen(b, "null", q);
    case Bool(x) => PlainIsUnseen(b, if x then "true" else "false", q);
    case Number(n) => IntUnseen(b, n, q);
    case String(s) => QuotedIsSeen(b, s, q);
    case Array(items) =>
      PlainIsUnseen(b, "[", q);
      ItemsAreSeen(items, depth + 1, fmt, b, q);
      SeesConcat(b, "[", q, [], q, PrintItems(items, depth + 1, fmt), SeenItems(items, q), q != SkewedItems(items));
      assert [] + SeenItems(items, q) == SeenItems(items, q);
      SeesPlain(b, "[" + PrintItems(items, depth + 1, fmt), q, SeenItems(items, q), q != SkewedItems(items), "]");
    case Object(members) => ObjectIsSeen(members, depth, fmt, b, q);
  }

  lemma {:induction false} ItemsAreSeen(items: seq<Json>, depth: nat, fmt: bool, b: int, q: bool)
    ensures Sees(b, PrintItems(items, depth, fmt), q, SeenItems(items, q), q != SkewedItems(items))
    decreases items, 0
  {
    if items == [] {
      PlainIsUnseen(b, [], q);
    } else {
      var first, sep := PrintValue(items[0], depth, fmt), if |items| > 1 then "," + When(fmt, " ") else "";
      var w, q' := Seen(items[0], q), q != Skewed(items[0]);
      ValueIsSeen(items[0], depth, fmt, b, q);
      SeesPlain(b, first, q, w, q', sep);
      ItemsAreSeen(items[1..], depth, fmt, b + Net(w), q');
      SeesConcat(b, first + sep, q, w, q', PrintItems(items[1..], depth, fmt), SeenItems(items[1..], q'), q != SkewedItems(items));
    }
  }

  lemma {:induction false} MemberIsSeen(m: Member, depth: nat, fmt: bool, b: int, q: bool)
    ensures var q' := q != EndsInBackslash(m.name);
      Sees(b, MemberHead(m, depth, fmt), q, When(q, Braces(m.name)) + Seen(m.value, q'), q' != Skewed(m.value))
    decreases m, 2
  {
    var tabs, tab, w, q' := When(fmt, Tabs(depth)), When(fmt, "\t"), When(q, Braces(m.name)), q != EndsInBackslash(m.name);
    TabsUnseen(depth);
    PlainIsUnseen(b, tabs, q);
    QuotedIsSeen(b, m.name, q);
    SeesConcat(b, tabs, q, [], q, Quote(m.name), w, q');
    assert [] + w == w;
    SeesPlain(b, tabs + Quote(m.name), q, w, q', ":");
    SeesPlain(b, tabs + Quote(m.name) + ":", q, w, q', tab);
    ValueIsSeen(m.value, depth, fmt, b + Net(w), q');
    SeesConcat(b, tabs + Quote(m.name) + ":" + tab, q, w, q',
               PrintValue(m.value, depth, fmt), Seen(m.value, q'), q' != Skewed(m.value));
  }

  lemma {:induction false} MembersAreSeen(members: seq<Member>, depth: nat, fmt: bool, b: int, q: bool)
    ensures Sees(b, PrintMembers(members, depth, fmt), q, SeenMembers(members, q), q != SkewedMembers(members))
    decreases members, 0
  {
    if members == [] {
      PlainIsUnseen(b, [], q);
    } else {
      var m, head, sep, nl := members[0], MemberHead(members[0], depth, fmt), if |members| > 1 then "," else "", When(fmt, "\n");
      var q' := q != EndsInBackslash(m.name);
      var w, q'' := When(q, Braces(m.name)) + Seen(m.value, q'), q' != Skewed(m.value);
      MemberIsSeen(m, depth, fmt, b, q);
      SeesPlain(b, head, q, w, q'', sep);
      SeesPlain(b, head + sep, q, w, q'', nl);
      MembersAreSeen(members[1..], depth, fmt, b + Net(w), q'');
      SeesConcat(b, head + sep + nl, q, w, q'', PrintMembers(members[1..], depth, fmt), SeenMembers(members[1..], q''),
                 q'' != SkewedMembers(members[1..]));
      assert PrintMembers(members, depth, fmt) == head + sep + nl + PrintMembers(members[1..], depth, fmt);
    }
  }

  lemma {:induction false} InsideIsSeen(members: seq<Member>, depth: nat, fmt: bool, b: int, q: bool)
    ensures Sees(b, ObjectInside(members, depth, fmt), q, SeenMembers(members, q), q != SkewedMembers(members))
    decreases members, 1
  {
    var nl, body, tabs := When(fmt, "\n"), PrintMembers(members, depth + 1, fmt), if members == [] then depth - 1 else depth;
    var w, q' := SeenMembers(members, q), q != SkewedMembers(members);
    PlainIsUnseen(b, nl, q);
    MembersAreSeen(members, depth + 1, fmt, b, q);
    SeesConcat(b, nl, q, [], q, body, w, q');
    assert [] + w == w;
    TabsUnseen(tabs);
    SeesPlain(b, nl + body, q, w, q', When(fmt, Tabs(tabs)));
    assert ObjectInside(members, depth, fmt) == nl + body + When(fmt, Tabs(tabs));
  }

  lemma {:induction false} ObjectIsSeen(members: seq<Member>, depth: nat, fmt: bool, b: int, q: bool)
    ensures Sees(b, PrintValue(Object(members), depth, fmt), q, Seen(Object(members), q), q != SkewedMembers(members))
    decreases members, 2
  {
    var body, w, q' := ObjectInside(members, depth, fmt), SeenMembers(members, q), q != SkewedMembers(members);
    var open, close := When(!q, "{"), When(!q', "}");
    ObjectBraces(members, depth, fmt);
    BraceIsSeen(b, q, '{');
    InsideIsSeen(members, depth, fmt, b + Net(open), q);
    BraceIsSeen(b + Net(open) + Net(w), q', '}');
    SeesConcat(b + Net(open), body, q, w, q', "}", close, q');
    FeedConcat(START, w, close);
    SeesConcat(b, "{", q, open, q, body + "}", w + close, q');
    assert open + (w + close) == open + w + close;
  }

  // ---------------------------------------------------------------- cutting the stream

  /** The literals that end in a backslash are even in number, and the braces the scanner counts
      between the outer two come back to where they began without ever closing the event. */
  predicate Legible(members: seq<Member>) {
    var w := SeenMembers(members, false);
    !SkewedMembers(members) && Inside(Scan(1, false, false), w) && Net(w) == 0
  }

  /** The state before the closing brace of an event. */
  lemma BeforeClose(members: seq<Member>, fmt: bool)
    ensures var t, w := "{" + ObjectInside(members, 0, fmt), SeenMembers(members, false);
      && FeedAll(START, t) == Scan(1 + Net(w), SkewedMembers(members), false)
      && (Inside(START, t) <==> Inside(Scan(1, false, false), w))
  {
    var body := ObjectInside(members, 0, fmt);
    InsideIsSeen(members, 0, fmt, 1, false);
    FeedConcat(START, "{", body);
    FeedOne(START, '{');
  }

  /** The scanner is through with an event exactly when it is inside all the way to the closing brace and
      the brace closes it. */
  lemma CutAtClose(t: string, rest: string)
    ensures Cut(START, t + (['}'] + rest)) == Some(|t| + 1) <==>
      Inside(START, t) && Feed(FeedAll(START, t), '}').braces <= 0
  {
    if Cut(START, t + (['}'] + rest)) == Some(|t| + 1) {
      CutAtEnd(START, t, '}', rest);
    }
    if Inside(START, t) {
      CutAfter(START, t, ['}'] + rest);
    }
  }

  lemma ClosedExactly(members: seq<Member>, fmt: bool)
    ensures var t := "{" + ObjectInside(members, 0, fmt);
      Inside(START, t) && Feed(FeedAll(START, t), '}').braces <= 0 <==> Legible(members)
  {
    var t := "{" + ObjectInside(members, 0, fmt);
    BeforeClose(members, fmt);
    if Inside(START, t) {
      InsideIsOpen(START, t);
    }
  }

  /** Exactly the legible events are cut off at their end, formatted or not, whatever follows. */
  lemma CutExactly(members: seq<Member>, fmt: bool, rest: string)
    ensures var text := PrintValue(Object(members), 0, fmt);
      Cut(START, text + rest) == Some(|text|) <==> Legible(members)
  {
    var t := "{" + ObjectInside(members, 0, fmt);
    ObjectBraces(members, 0, fmt);
    assert PrintValue(Object(members), 0, fmt) + rest == t + (['}'] + rest);
    CutAtClose(t, rest);
    ClosedExactly(members, fmt);
  }

  /** No string and no name of the value ends in a backslash. */
  predicate Framed(v: Json) {
    match v
    case Null => true
    case Bool(_) => true
    case Number(_) => true
    case String(s) => !EndsInBackslash(s)
    case Array(items) => forall i :: 0 <= i < |items| ==> Framed(items[i])
    case Object(members) =>
      forall i :: 0 <= i < |members| ==> !EndsInBackslash(members[i].name) && Framed(members[i].value)
  }

  lemma {:induction false} FramedIsNotSkewed(v: Json)
    requires Framed(v)
    ensures !Skewed(v)
    decreases v, 1
  {
    match v
    case Null =>
    case Bool(_) =>
    case Number(_) =>
    case String(_) =>
    case Array(items) => FramedItems(items);
    case Object(members) => FramedMembers(members);
  }

  lemma {:induction false} FramedItems(items: seq<Json>)
    requires forall i :: 0 <= i < |items| ==> Framed(items[i])
    ensures !SkewedItems(items)
    decreases items, 0
  {
    if items != [] {
      FramedIsNotSkewed(items[0]);
      FramedItems(items[1..]);
    }
  }

  lemma {:induction false} FramedMembers(members: seq<Member>)
    requires forall i :: 0 <= i < |members| ==> !EndsInBackslash(members[i].name) && Framed(members[i].value)
    ensures !SkewedMembers(members)
    decreases members, 0
  {
    if members != [] {
      FramedIsNotSkewed(members[0].value);
      FramedMembers(members[1..]);
    }
  }

  /** Braces that come back to where they began without closing the event. */
  predicate Balanced(b: int, w: string) {
    Inside(Scan(b, false, false), w) && FeedAll(Scan(b, false, false), w) == Scan(b, false, false)
  }

  lemma BalancedConcat(b: int, w: string, w': string)
    requires Balanced(b, w) && Balanced(b, w')
    ensures Balanced(b, w + w')
  {
    FeedConcat(Scan(b, false, false), w, w');
  }

  lemma {:induction false} FramedIsBalanced(v: Json, b: int)
    requires Framed(v) && b > 0
    ensures Balanced(b, Seen(v, false))
    decreases v, 1
  {
    match v
    case Null =>
    case Bool(_) =>
    case Number(_) =>
    case String(_) =>
    case Array(items) => ItemsAreBalanced(items, b);
    case Object(members) =>
      MembersAreBalanced(members, b + 1);
      FramedMembers(members);
      var w := SeenMembers(members, false);
      FeedConcat(Scan(b, false, false), "{", w);
      FeedConcat(Scan(b, false, false), "{" + w, "}");
      FeedOne(Scan(b, false, false), '{');
      FeedOne(Scan(b + 1, false, false), '}');
  }

  lemma {:induction false} ItemsAreBalanced(items: seq<Json>, b: int)
    requires b > 0 && forall i :: 0 <= i < |items| ==> Framed(items[i])
    ensures Balanced(b, SeenItems(items, false))
    decreases items, 0
  {
    if items != [] {
      FramedIsBalanced(items[0], b);
      FramedIsNotSkewed(items[0]);
      ItemsAreBalanced(items[1..], b);
      BalancedConcat(b, Seen(items[0], false), SeenItems(items[1..], false));
    }
  }

  lemma {:induction false} MembersAreBalanced(members: seq<Member>, b: int)
    requires b > 0 && forall i :: 0 <= i < |members| ==> !EndsInBackslash(members[i].name) && Framed(members[i].value)
    ensures Balanced(b, SeenMembers(members, false))
    decreases members, 0
  {
    if members != [] {
      FramedIsBalanced(members[0].value, b);
      FramedIsNotSkewed(members[0].value);
      MembersAreBalanced(members[1..], b);
      BalancedConcat(b, Seen(members[0].value, false), SeenMembers(members[1..], false));
      assert [] + Seen(members[0].value, false) == Seen(members[0].value, false);
    }
  }

  lemma EventIsLegible(members: seq<Member>)
    requires Framed(Object(members))
    ensures Legible(members)
  {
    FramedMembers(members);
    MembersAreBalanced(members, 1);
    InsideIsSeen(members, 0, false, 1, false);
    FeedBraces(1, SeenMembers(members, false));
  }

  /** An event whose strings do not end in a backslash is cut off exactly at its end. */
  lemma EventIsCut(members: seq<Member>, fmt: bool, rest: string)
    requires Framed(Object(members))
    ensures Cut(START, PrintValue(Object(members), 0, fmt) + rest) == Some(|PrintValue(Object(members), 0, fmt)|)
  {
    EventIsLegible(members);
    CutExactly(members, fmt, rest);
  }

  /** One name that ends in a backslash loses the event: its closing brace is taken for text. */
  lemma BackslashLosesEvent(name: string, n: int, fmt: bool, rest: string)
    requires EndsInBackslash(name)
    ensures var text := PrintValue(Object([Member(name, Number(n))]), 0, fmt);
      Cut(START, text + rest) != Some(|text|)
  {
    var members := [Member(name, Number(n))];
    assert members[1..] == [] && members[0].name == name && !Skewed(members[0].value);
    assert SkewedMembers(members);
    CutExactly(members, fmt, rest);
  }

  function Stream(events: seq<Json>, fmt: bool): (r: string) {
    if events == [] then [] else PrintValue(events[0], 0, fmt) + Stream(events[1..], fmt)
  }

  function Texts(events: seq<Json>, fmt: bool): (r: seq<string>) {
    if events == [] then [] else [PrintValue(events[0], 0, fmt)] + Texts(events[1..], fmt)
  }

  ghost predicate AllLegible(events: seq<Json>) {
    forall i :: 0 <= i < |events| ==> events[i].Object? && Legible(events[i].members)
  }

  /** If the first event is cut at its end, the rest decides. */
  lemma CutsFirst(text: string, rest: string, texts: seq<string>)
    requires text != [] && Cut(START, text + rest) == Some(|text|)
    ensures Chunks(text + rest) == Some([text] + texts) <==> Chunks(rest) == Some(texts)
  {
    assert (text + rest)[..|text|] == text && (text + rest)[|text|..] == rest;
    assert ([text] + texts)[1..] == texts;
    if Chunks(rest).Some? {
      assert ([text] + Chunks(rest).value)[1..] == Chunks(rest).value;
    }
  }

  lemma FirstChunk(s: string, text: string, texts: seq<string>)
    requires s != [] && Chunks(s) == Some([text] + texts)
    ensures Cut(START, s) == Some(|text|)
  {
    assert ([text] + texts)[0] == text;
  }

  /** Cutting the concatenated texts of events gives back the texts, in order, if and only if every single
      event is cut at its end. */
  lemma {:induction false} StreamIsCut(events: seq<Json>, fmt: bool)
    requires forall i :: 0 <= i < |events| ==> events[i].Object?
    ensures Chunks(Stream(events, fmt)) == Some(Texts(events, fmt)) <==> AllLegible(events)
  {
    if events != [] {
      var text, rest := PrintValue(events[0], 0, fmt), Stream(events[1..], fmt);
      PrintedStarts(events[0], 0, fmt);
      CutExactly(events[0].members, fmt, rest);
      StreamIsCut(events[1..], fmt);
      if Legible(events[0].members) {
        CutsFirst(text, rest, Texts(events[1..], fmt));
        LegibleRest(events);
      } else if Chunks(text + rest) == Some(Texts(events, fmt)) {
        FirstChunk(text + rest, text, Texts(events[1..], fmt));
      }
    }
  }

  lemma LegibleRest(events: seq<Json>)
    requires events != [] && events[0].Object? && Legible(events[0].members)
    ensures AllLegible(events) <==> AllLegible(events[1..])
  {
    assert forall i :: 1 <= i < |events| ==> events[1..][i - 1] == events[i];
  }

  /** So it does where no string ends in a backslash. */
  lemma FramedIsLegible(events: seq<Json>)
    requires forall i :: 0 <= i < |events| ==> events[i].Object? && Framed(events[i])
    ensures AllLegible(events)
  {
    forall i | 0 <= i < |events|
      ensures Legible(events[i].members)
    {
      EventIsLegible(events[i].members);
    }
  }

  function ParseAll(chunks: seq<string>): (r: seq<Option<Json>>) {
    if chunks == [] then [] else [ParseText(chunks[0])] + ParseAll(chunks[1..])
  }

  /** From the reporting file system to the debugger: the events read are the events written. */
  lemma {:induction false} EventsArrive(events: seq<Json>, fmt: bool)
    requires AllLegible(events) && forall i :: 0 <= i < |events| ==> Storable(events[i])
    ensures Chunks(Stream(events, fmt)).Some?
    ensures var seen := ParseAll(Chunks(Stream(events, fmt)).value);
      |seen| == |events| && forall i :: 0 <= i < |events| ==> seen[i] == Some(events[i])
  {
    StreamIsCut(events, fmt);
    TextsParse(events, fmt);
  }

  lemma {:induction false} TextsParse(events: seq<Json>, fmt: bool)
    requires forall i :: 0 <= i < |events| ==> Storable(events[i])
    ensures var seen := ParseAll(Texts(events, fmt));
      |seen| == |events| && forall i :: 0 <= i < |events| ==> seen[i] == Some(events[i])
  {
    if events != [] {
      PrintParse(events[0], fmt);
      TextsParse(events[1..], fmt);
    }
  }

  // ---------------------------------------------------------------- the reader

  function Later(n: Option<nat>, k: nat): (r: Option<nat>) {
    if n.None? then None else Some(n.value + k)
  }

  lemma CutHere(whole: Option<nat>, s: string, pos: nat, st: Scan)
    requires pos < |s| && whole == Later(Cut(st, s[pos..]), pos)
    ensures var st' := Feed(st, s[pos]);
      whole == if st'.braces > 0 then Later(Cut(st', s[pos + 1..]), pos + 1) else Some(pos + 1)
  {
    assert s[pos..][1..] == s[pos + 1..];
  }

  /** What the scanner keeps about one character. */
  method FeedChar(braces: int, quotes: bool, escaping: bool, c: char) returns (braces': int, quotes': bool, escaping': bool)
    ensures Scan(braces', quotes', escaping') == Feed(Scan(braces, quotes, escaping), c)
  {
    braces', quotes' := braces, quotes;
    if !quotes && c == '{' {
      braces' := braces + 1;
    } else if !quotes && c == '}' {
      braces' := braces - 1;
    } else if !escaping && c == '\"' {
      quotes' := !quotes;
    }
    escaping' := c == '\\';
  }

  /** The inner loop: collect characters until the braces close, in a buffer that doubles before it
      would overflow, and terminate the chunk.  `stuck` means the stream ended inside the chunk,
      where the source reads the end of the stream over and over. */
  method ReadChunk(fifo: string, start: nat, buf0: array<char>)
    returns (buf: array<char>, len: nat, eof: bool, stuck: bool)
    requires start <= |fifo| && buf0.Length >= 2
    modifies buf0
    ensures buf == buf0 || fresh(buf)
    ensures buf.Length >= 2 && len < buf.Length && start + len <= |fifo|
    ensures eof <==> start == |fifo|
    ensures stuck <==> start < |fifo| && Cut(START, fifo[start..]).None?
    ensures !eof && !stuck ==> Cut(START, fifo[start..]) == Some(len)
    ensures !stuck ==> buf[..len] == fifo[start..start + len] && buf[len] == '\0'
  {
    buf := buf0;
    var braces, quotes, escaping, pos := 0, false, false, 0;
    eof, stuck := false, false;
    if start == |fifo| {
      eof := true;
    } else {
      ghost var s := fifo[start..];
      var again := true;
      assert s[0..] == s;
      while again
        invariant (buf == buf0 || fresh(buf)) && buf.Length >= 2
        invariant 0 <= pos <= |s| && pos < buf.Length && buf[..pos] == s[..pos]
        invariant again ==> Cut(START, s) == Later(Cut(Scan(braces, quotes, escaping), s[pos..]), pos)
        invariant !again ==> Cut(START, s) == Some(pos)
        decreases again, |s| - pos
      {
        if start + pos == |fifo| {
          assert s[pos..] == [];
          stuck := true;
          return buf, pos, eof, stuck;
        }
        var c := fifo[start + pos];
        CutHere(Cut(START, s), s, pos, Scan(braces, quotes, escaping));
        buf := Append(buf, pos, c);
        assert s[..pos + 1] == s[..pos] + [c];
        pos := pos + 1;
        braces, quotes, escaping := FeedChar(braces, quotes, escaping, c);
        again := braces > 0;
      }
      assert fifo[start..start + pos] == s[..pos];
    }
    ghost var done := buf[..pos];
    buf[pos] := '\0';
    assert buf[..pos] == done;
    len := pos;
  }

  /** Store one character, in twice the space if the chunk would otherwise fill the buffer. */
  method Append(buf: array<char>, pos: nat, c: char) returns (r: array<char>)
    requires pos < buf.Length && buf.Length >= 2
    modifies buf
    ensures (r == buf || fresh(r)) && r.Length >= 2 && pos + 1 < r.Length && r[..pos + 1] == old(buf[..pos]) + [c]
  {
    r := buf;
    if pos + 1 >= buf.Length {
      r := Grow(buf, pos);
    }
    r[pos] := c;
  }

  /** `realloc` to twice the capacity. */
  method Grow(buf: array<char>, used: nat) returns (r: array<char>)
    requires used <= buf.Length && buf.Length > 0
    ensures fresh(r) && r.Length == 2 * buf.Length && r[..used] == buf[..used]
  {
    r := new char[2 * buf.Length](_ => '\0');
    for i := 0 to used
      invariant r[..i] == buf[..i]
    {
      r[i] := buf[i];
    }
  }

  function Prepended(seen: seq<string>, r: Option<seq<string>>): (r': Option<seq<string>>) {
    if r.None? then None else Some(seen + r.value)
  }

  lemma NothingYet(fifo: string)
    ensures Chunks(fifo) == Prepended([], Chunks(fifo[0..]))
  {
    assert fifo[0..] == fifo && (Chunks(fifo).Some? ==> [] + Chunks(fifo).value == Chunks(fifo).value);
  }

  lemma NothingMore(fifo: string, seen: seq<string>)
    ensures Prepended(seen, Chunks(fifo[|fifo|..])) == Some(seen)
  {
    assert fifo[|fifo|..] == [] && seen + [] == seen;
  }

  lemma ChunkStep(fifo: string, pos: nat, len: nat, seen: seq<string>)
    requires pos < |fifo| && Cut(START, fifo[pos..]) == Some(len) && pos + len <= |fifo|
    ensures Prepended(seen, Chunks(fifo[pos..])) == Prepended(seen + [fifo[pos..pos + len]], Chunks(fifo[pos + len..]))
  {
    var s := fifo[pos..];
    assert s[..len] == fifo[pos..pos + len] && s[len..] == fifo[pos + len..];
    var r := Chunks(s[len..]);
    if r.Some? {
      assert seen + ([s[..len]] + r.value) == seen + [s[..len]] + r.value;
    }
  }

  /** The outer loop: hand out the chunks of the stream until it ends. */
  method ReadChunks(fifo: string) returns (chunks: Option<seq<string>>)
    ensures chunks == Chunks(fifo)
  {
    var buf := new char[1024](_ => '\0');
    var seen: seq<string>, pos := [], 0;
    NothingYet(fifo);
    while true
      invariant fresh(buf) && buf.Length >= 2 && 0 <= pos <= |fifo|
      invariant Chunks(fifo) == Prepended(seen, Chunks(fifo[pos..]))
      decreases |fifo| - pos
    {
      var len, eof, stuck;
      buf, len, eof, stuck := ReadChunk(fifo, pos, buf);
      if stuck {
        return None;
      }
      if eof {
        NothingMore(fifo, seen);
        return Some(seen);
      }
      ChunkStep(fifo, pos, len, seen);
      var chunk := buf[..len];
      assert chunk == fifo[pos..pos + len];
      seen := seen + [chunk];
      pos := pos + len;
    }
  }
}
