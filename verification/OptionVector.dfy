/** The option normaliser of fuse_opt.c without templates and callback: every option group is
    decoded and gathered, escaped again, into one "-o" argument. */
module OptionVector {
  import opened Wrappers
  import opened CText
  import opened OptionText

  // ---------------------------------------------------------------- the argument vector

  datatype Ctx = Ctx(out: seq<string>, opts: Option<string>, nonopt: nat)

  predicate IsGroup(arg: string) {
    |arg| > 1 && arg[0] == '-' && arg[1] == 'o'
  }

  /** `process_one`: the new context and the number of arguments used. */
  function Processed(ctx: Ctx, argv: seq<string>, i: nat): (r: Option<(Ctx, nat)>)
    requires i < |argv|
    ensures r.Some? ==> 0 < r.value.1 <= |argv| - i
  {
    var arg := argv[i];
    if ctx.nonopt != 0 || !IsGroup(arg) then
      var nonopt := if ctx.nonopt == 0 && arg == "--" then |ctx.out| + 1 else ctx.nonopt;
      Some((ctx.(out := ctx.out + [arg], nonopt := nonopt), 1))
    else if |arg| > 2 then Some((ctx.(opts := AddAll(ctx.opts, DecodeGroup(arg[2..], []))), 1))
    else if i + 1 >= |argv| then None
    else Some((ctx.(opts := AddAll(ctx.opts, DecodeGroup(argv[i + 1], []))), 2))
  }

  function ProcessFrom(ctx: Ctx, argv: seq<string>, i: nat): (r: Option<Ctx>)
    requires i <= |argv|
    decreases |argv| - i
  {
    if i == |argv| then Some(ctx)
    else
      var r := Processed(ctx, argv, i);
      if r.None? then None else ProcessFrom(r.value.0, argv, i + r.value.1)
  }

  /** The end of `opt_parse`: put the options in front, drop a separator with nothing after it. */
  function Finish(ctx: Ctx): (r: seq<string>)
    requires |ctx.out| > 0
  {
    var out := if ctx.opts.Some? then ctx.out[..1] + ["-o", ctx.opts.value] + ctx.out[1..] else ctx.out;
    if ctx.nonopt != 0 && ctx.nonopt == |out| && out[|out| - 1] == "--" then out[..|out| - 1] else out
  }

  lemma {:induction false} OutKeepsFirst(ctx: Ctx, argv: seq<string>, i: nat)
    requires i <= |argv| && |ctx.out| > 0
    ensures ProcessFrom(ctx, argv, i).Some? ==> |ProcessFrom(ctx, argv, i).value.out| > 0
    decreases |argv| - i
  {
    if i < |argv| && Processed(ctx, argv, i).Some? {
      var r := Processed(ctx, argv, i).value;
      OutKeepsFirst(r.0, argv, i + r.1);
    }
  }

  /** `fuse_opt_parse` */
  function Parse(argv: seq<string>): (r: Option<seq<string>>) {
    if argv == [] then Some([])
    else
      var ctx := Ctx([argv[0]], None, 0);
      var r := ProcessFrom(ctx, argv, 1);
      OutKeepsFirst(ctx, argv, 1);
      if r.None? then None else Some(Finish(r.value))
  }

  // ---------------------------------------------------------------- what the result is

  /** Every option of every group before the separator, decoded, in order. */
  function OptionsOf(argv: seq<string>, i: nat): (l: seq<string>)
    ensures AllNulFree(l)
    decreases |argv| - i
  {
    if i >= |argv| || argv[i] == "--" then []
    else if !IsGroup(argv[i]) then OptionsOf(argv, i + 1)
    else if |argv[i]| > 2 then DecodeGroup(argv[i][2..], []) + OptionsOf(argv, i + 1)
    else if i + 1 < |argv| then DecodeGroup(argv[i + 1], []) + OptionsOf(argv, i + 2)
    else []
  }

  /** Every other argument, in order. */
  function OthersOf(argv: seq<string>, i: nat): (l: seq<string>)
    decreases |argv| - i
  {
    if i >= |argv| then []
    else if argv[i] == "--" then argv[i..]
    else if !IsGroup(argv[i]) then [argv[i]] + OthersOf(argv, i + 1)
    else OthersOf(argv, i + if |argv[i]| > 2 then 1 else 2)
  }

  function Separator(l: seq<string>): (k: nat)
    ensures k <= |l|
  {
    if l == [] || l[0] == "--" then 0 else 1 + Separator(l[1..])
  }

  lemma AddAllConcat(opts: Option<string>, l: seq<string>, l': seq<string>)
    ensures AddAll(AddAll(opts, l), l') == AddAll(opts, l + l')
    decreases l
  {
    if l == [] {
      assert l + l' == l';
    } else {
      AddAllConcat(AddOpt(opts, l[0]), l[1..], l');
      FirstTaken(l, l');
    }
  }

  lemma {:induction false} AfterSeparator(ctx: Ctx, argv: seq<string>, i: nat)
    requires i <= |argv| && ctx.nonopt != 0
    ensures ProcessFrom(ctx, argv, i) == Some(ctx.(out := ctx.out + argv[i..]))
    decreases |argv| - i
  {
    if i == |argv| {
      assert ctx.out + argv[i..] == ctx.out;
    } else {
      var ctx' := ctx.(out := ctx.out + [argv[i]]);
      AfterSeparator(ctx', argv, i + 1);
      assert ctx'.out + argv[i + 1..] == ctx.out + argv[i..];
    }
  }

  ghost predicate Splits(ctx: Ctx, argv: seq<string>, i: nat, end: Ctx) {
    var others := OthersOf(argv, i);
    && end.opts == AddAll(ctx.opts, OptionsOf(argv, i))
    && end.out == ctx.out + others
    && end.nonopt == if Separator(others) == |others| then 0 else |ctx.out| + Separator(others) + 1
  }

  lemma SplitsPlain(ctx: Ctx, argv: seq<string>, i: nat, end: Ctx)
    requires i < |argv| && ctx.nonopt == 0 && argv[i] != "--" && !IsGroup(argv[i])
    requires Splits(ctx.(out := ctx.out + [argv[i]]), argv, i + 1, end)
    ensures Splits(ctx, argv, i, end)
  {
    var others := OthersOf(argv, i + 1);
    assert ([argv[i]] + others)[1..] == others;
    assert ctx.out + [argv[i]] + others == ctx.out + ([argv[i]] + others);
  }

  lemma {:induction false} ProcessSplits(ctx: Ctx, argv: seq<string>, i: nat)
    requires i <= |argv| && ctx.nonopt == 0 && ProcessFrom(ctx, argv, i).Some?
    ensures Splits(ctx, argv, i, ProcessFrom(ctx, argv, i).value)
    decreases |argv| - i
  {
    if i == |argv| {
      assert ctx.out + [] == ctx.out;
    } else if argv[i] == "--" {
      var next := ctx.(out := ctx.out + [argv[i]], nonopt := |ctx.out| + 1);
      AfterSeparator(next, argv, i + 1);
      assert argv[i..] == ["--"] + argv[i + 1..];
      assert next.out + argv[i + 1..] == ctx.out + argv[i..];
    } else {
      var (next, n) := Processed(ctx, argv, i).value;
      ProcessSplits(next, argv, i + n);
      if IsGroup(argv[i]) {
        AddAllConcat(ctx.opts, DecodeGroup(if n == 1 then argv[i][2..] else argv[i + 1], []), OptionsOf(argv, i + n));
      } else {
        SplitsPlain(ctx, argv, i, ProcessFrom(next, argv, i + 1).value);
      }
    }
  }

  /** The normalised vector: the program name, one option group that decodes to the options given
      (leading empty ones apart), and all other arguments in their order. Without options a
      separator with nothing after it goes. */
  lemma ParseGathers(argv: seq<string>)
    requires argv != [] && Parse(argv).Some?
    ensures var r, l, others := Parse(argv).value, OptionsOf(argv, 1), OthersOf(argv, 1);
      if l == [] then
        r == [argv[0]] + if others != [] && Separator(others) == |others| - 1 then others[..|others| - 1] else others
      else
        && AddAll(None, l).Some? && r == [argv[0], "-o", AddAll(None, l).value] + others
        && DecodeGroup(r[2], []) == Normal(l) && NonEmpty(DecodeGroup(r[2], [])) == NonEmpty(l)
  {
    var ctx := Ctx([argv[0]], None, 0);
    ProcessSplits(ctx, argv, 1);
    FinishSplit(ProcessFrom(ctx, argv, 1).value, argv[0], OthersOf(argv, 1));
    if OptionsOf(argv, 1) != [] {
      EmittedDecodes(OptionsOf(argv, 1));
    }
  }

  lemma FinishSplit(end: Ctx, first: string, others: seq<string>)
    requires end.out == [first] + others
    requires end.nonopt == if Separator(others) == |others| then 0 else 1 + Separator(others) + 1
    ensures Finish(end) ==
            if end.opts.Some? then [first, "-o", end.opts.value] + others
            else [first] + if others != [] && Separator(others) == |others| - 1 then others[..|others| - 1] else others
  {
    assert end.out[..1] == [first] && end.out[1..] == others;
    SeparatorAt(others);
    if end.opts.Some? {
      assert [first] + ["-o", end.opts.value] + others == [first, "-o", end.opts.value] + others;
    } else if others != [] {
      assert end.out[..|end.out| - 1] == [first] + others[..|others| - 1];
    }
  }

  lemma {:induction false} SeparatorAt(l: seq<string>)
    ensures Separator(l) < |l| ==> l[Separator(l)] == "--"
  {
    if l != [] && l[0] != "--" {
      SeparatorAt(l[1..]);
    }
  }

  // ---------------------------------------------------------------- parsing twice

  /** Neither a group nor anything that is not behind the separator. */
  predicate Tidy(l: seq<string>) {
    l == [] || l[0] == "--" || (!IsGroup(l[0]) && Tidy(l[1..]))
  }

  lemma {:induction false} OthersAreTidy(argv: seq<string>, i: nat)
    ensures Tidy(OthersOf(argv, i))
    decreases |argv| - i
  {
    if i < |argv| && argv[i] != "--" {
      OthersAreTidy(argv, i + 1);
      if IsGroup(argv[i]) && |argv[i]| == 2 {
        OthersAreTidy(argv, i + 2);
      } else if !IsGroup(argv[i]) {
        assert ([argv[i]] + OthersOf(argv, i + 1))[1..] == OthersOf(argv, i + 1);
      }
    }
  }

  /** Tidy arguments are what is left of themselves. */
  lemma {:induction false} TidyStays(argv: seq<string>, i: nat)
    requires i <= |argv| && Tidy(argv[i..])
    ensures OptionsOf(argv, i) == [] && OthersOf(argv, i) == argv[i..]
    decreases |argv| - i
  {
    if i < |argv| && argv[i] != "--" {
      assert argv[i..][1..] == argv[i + 1..];
      TidyStays(argv, i + 1);
      assert [argv[i]] + argv[i + 1..] == argv[i..];
    }
  }

  lemma {:induction false} TidyRuns(ctx: Ctx, argv: seq<string>, i: nat)
    requires i <= |argv| && Tidy(argv[i..]) && ctx.nonopt == 0
    ensures ProcessFrom(ctx, argv, i).Some?
    decreases |argv| - i
  {
    if i < |argv| {
      if argv[i] == "--" {
        AfterSeparator(ctx.(out := ctx.out + [argv[i]], nonopt := |ctx.out| + 1), argv, i + 1);
      } else {
        assert argv[i..][1..] == argv[i + 1..];
        TidyRuns(ctx.(out := ctx.out + [argv[i]]), argv, i + 1);
      }
    }
  }

  lemma {:induction false} TidyWithoutLast(l: seq<string>)
    requires l != [] && Tidy(l) && Separator(l) == |l| - 1
    ensures Tidy(l[..|l| - 1]) && Separator(l[..|l| - 1]) == |l| - 1
  {
    if l[0] != "--" {
      TidyWithoutLast(l[1..]);
      assert l[..|l| - 1][1..] == l[1..][..|l| - 2];
    }
  }

  /** A vector with its options in front is in normal form. */
  lemma OptionsFirst(first: string, l: seq<string>, t: string, others: seq<string>)
    requires l != [] && AllNulFree(l) && AddAll(None, l) == Some(t) && Tidy(others)
    ensures var argv := [first, "-o", t] + others; Parse(argv) == Some(argv)
  {
    EmittedDecodes(l);
    var argv := [first, "-o", t] + others;
    var ctx := Ctx([first], Some(t), 0);
    assert argv[3..] == others && argv[2] == t;
    assert Processed(Ctx([first], None, 0), argv, 1) == Some((ctx, 2));
    TidyRuns(ctx, argv, 3);
    TidyStays(argv, 3);
    ProcessSplits(ctx, argv, 3);
    FinishSplit(ProcessFrom(ctx, argv, 3).value, first, others);
  }

  lemma NoOptions(first: string, others: seq<string>)
    requires Tidy(others) && !(others != [] && Separator(others) == |others| - 1)
    ensures Parse([first] + others) == Some([first] + others)
  {
    var argv, ctx := [first] + others, Ctx([first], None, 0);
    assert argv[1..] == others;
    TidyRuns(ctx, argv, 1);
    TidyStays(argv, 1);
    ProcessSplits(ctx, argv, 1);
    FinishSplit(ProcessFrom(ctx, argv, 1).value, first, others);
  }

  /** `fuse_opt_parse` is idempotent on every vector it accepts. */
  lemma ParseIsIdempotent(argv: seq<string>)
    requires Parse(argv).Some?
    ensures Parse(Parse(argv).value) == Parse(argv)
  {
    if argv != [] {
      ParseGathers(argv);
      var l, others := OptionsOf(argv, 1), OthersOf(argv, 1);
      OthersAreTidy(argv, 1);
      if l != [] {
        OptionsFirst(argv[0], l, AddAll(None, l).value, others);
      } else if others != [] && Separator(others) == |others| - 1 {
        TidyWithoutLast(others);
        NoOptions(argv[0], others[..|others| - 1]);
      } else {
        NoOptions(argv[0], others);
      }
    }
  }

  // ---------------------------------------------------------------- what is rejected

  /** Argument `i` is looked at for itself, not as the argument of a "-o". */
  predicate Standalone(argv: seq<string>, i: nat)
    requires i <= |argv|
  {
    i <= 1 || !(argv[i - 1] == "-o" && Standalone(argv, i - 1))
  }

  /** The last argument is a "-o" that wants another, and no separator came first. */
  ghost predicate Dangling(argv: seq<string>, i: nat) {
    && i < |argv| && argv[|argv| - 1] == "-o" && Standalone(argv, |argv| - 1)
    && forall j :: i <= j < |argv| && argv[j] == "--" ==> !Standalone(argv, j)
  }

  /** What is not a "-o" on its own leaves the question to the arguments after it. */
  lemma DanglingAfterOne(argv: seq<string>, i: nat)
    requires 1 <= i < |argv| && Standalone(argv, i) && argv[i] != "--" && argv[i] != "-o"
    ensures Standalone(argv, i + 1) && (Dangling(argv, i) <==> Dangling(argv, i + 1))
  {
  }

  lemma DanglingAfterTwo(argv: seq<string>, i: nat)
    requires 1 <= i && i + 1 < |argv| && Standalone(argv, i) && argv[i] == "-o"
    ensures Standalone(argv, i + 2) && (Dangling(argv, i) <==> Dangling(argv, i + 2))
  {
    assert !Standalone(argv, i + 1);
  }

  lemma {:induction false} FailsFrom(ctx: Ctx, argv: seq<string>, i: nat)
    requires 1 <= i <= |argv| && ctx.nonopt == 0 && Standalone(argv, i)
    ensures ProcessFrom(ctx, argv, i).None? <==> Dangling(argv, i)
    decreases |argv| - i
  {
    if i < |argv| {
      if argv[i] == "--" {
        AfterSeparator(ctx.(out := ctx.out + [argv[i]], nonopt := |ctx.out| + 1), argv, i + 1);
      } else if argv[i] != "-o" {
        DanglingAfterOne(argv, i);
        FailsFrom(Processed(ctx, argv, i).value.0, argv, i + 1);
      } else if i + 1 < |argv| {
        DanglingAfterTwo(argv, i);
        FailsFrom(Processed(ctx, argv, i).value.0, argv, i + 2);
      }
    }
  }

  /** Parsing fails exactly on a dangling "-o". */
  lemma ParseFails(argv: seq<string>)
    ensures Parse(argv).None? <==> argv != [] && Dangling(argv, 1)
  {
    if argv != [] {
      FailsFrom(Ctx([argv[0]], None, 0), argv, 1);
    }
  }

  // ---------------------------------------------------------------- the code in place

  method PutEscaped(buf: array<char>, d: nat, c: char) returns (next: nat)
    requires d + 1 < buf.Length
    modifies buf
    ensures d < next <= d + 2 && buf[..next] == old(buf[..d]) + EscapeChar(c)
  {
    next := d;
    if c == ',' || c == '\\' {
      buf[next] := '\\';
      next := next + 1;
    }
    buf[next] := c;
    next := next + 1;
  }

  lemma UnescapedStep(whole: string, before: string, rest: string)
    requires rest != [] && whole == before + EscapeOpt(rest)
    ensures whole == (before + EscapeChar(rest[0])) + EscapeOpt(rest[1..])
  {
  }

  /** `add_opt_common`: the buffer it asks for always holds the escaped text and its terminator. */
  method AppendOption(opts: Option<string>, opt: string) returns (buf: array<char>, len: nat)
    ensures fresh(buf) && len < buf.Length && buf[len] == '\0'
    ensures AddOpt(opts, opt) == Some(buf[..len])
    ensures var start := if opts.Some? && opts.value != [] then opts.value + "," else [];
      buf[..len] == start + SpellOption(Written(opt), [])
  {
    var prefix := if opts.Some? then opts.value else [];
    var oldlen := |prefix|;
    buf := new char[oldlen + 1 + |opt| * 2 + 1];
    forall k | 0 <= k < oldlen {
      buf[k] := prefix[k];
    }
    var d := 0;
    if oldlen != 0 {
      buf[oldlen] := ',';
      d := oldlen + 1;
    }
    ghost var start := if oldlen != 0 then prefix + "," else [];
    assert buf[..d] == start;
    AddOptStarts(opts, opt, start);
    len := PutOption(buf, d, opt, start);
    EscapedIsWritten(opt, []);
    assert EscapeOpt(opt) + [] == EscapeOpt(opt);
  }

  lemma AddOptStarts(opts: Option<string>, opt: string, start: string)
    requires start == if opts.Some? && opts.value != [] then opts.value + "," else []
    ensures AddOpt(opts, opt) == Some(start + EscapeOpt(opt))
  {
    assert [] + EscapeOpt(opt) == EscapeOpt(opt);
  }

  /** The loop of `add_opt_common`, behind what is there already. */
  method PutOption(buf: array<char>, at: nat, opt: string, ghost start: string) returns (len: nat)
    requires at + 2 * |opt| < buf.Length && buf[..at] == start
    modifies buf
    ensures len < buf.Length && buf[len] == '\0' && buf[..len] == start + EscapeOpt(opt)
  {
    var d, i := at, 0;
    while i < |opt|
      invariant i <= |opt| && at <= d <= at + 2 * i
      invariant start + EscapeOpt(opt) == buf[..d] + EscapeOpt(opt[i..])
    {
      UnescapedStep(start + EscapeOpt(opt), buf[..d], opt[i..]);
      d := PutEscaped(buf, d, opt[i]);
      i := i + 1;
    }
    assert opt[i..] == [] && buf[..d] + [] == buf[..d];
    buf[d] := '\0';
    len := d;
    assert buf[..d] == start + EscapeOpt(opt);
  }

  /** What has not been read is as it was. */
  ghost predicate Unread(buf: array<char>, text: string, s: nat)
    reads buf
  {
    buf.Length == |text| + 1 && forall k :: s <= k < buf.Length ==> buf[k] == (text + ['\0'])[k]
  }

  /** The character at the read cursor, and where its text ends. */
  method ReadChar(buf: array<char>, s: nat, ghost text: string) returns (c: char, last: nat)
    requires NulFree(text) && s < |text| && Unread(buf, text, s)
    ensures s <= last < |text| && (c, last + 1 - s) == DecodeChar(text[s..])
  {
    c, last := buf[s], s;
    if buf[s] == '\\' && buf[s + 1] != '\0' {
      last := s + 1;
      c := buf[last];
      assert forall k :: s <= k < |text| ==> text[s..][k - s] == text[k] == buf[k];
      assert forall k :: last <= k < |text| ==> text[s..][1..][k - last] == text[k];
      if '0' <= buf[last] <= '3' && '0' <= buf[last + 1] <= '7' && '0' <= buf[last + 2] <= '7' {
        c := OctalValue([buf[last], buf[last + 1], buf[last + 2]]);
        last := last + 2;
      }
    }
  }

  /** Decode one character from the read cursor to the write cursor. */
  method CopyChar(buf: array<char>, s: nat, d: nat, ghost text: string) returns (last: nat)
    requires NulFree(text) && d <= s < |text| && text[s] != ',' && Unread(buf, text, s)
    modifies buf
    ensures s <= last < |text|
    ensures Unread(buf, text, last + 1)
    ensures forall opts :: Promised(opts, text[s..], old(buf[..d])) == Promised(opts, text[last + 1..], buf[..d + 1])
  {
    ghost var cur := buf[..d];
    var c;
    c, last := ReadChar(buf, s, text);
    CharDecoded(text, s, c, last + 1 - s, cur);
    buf[d] := c;
    assert buf[..d + 1] == cur + [c];
  }

  lemma CharDecoded(text: string, s: nat, c: char, n: nat, cur: string)
    requires s < |text| && text[s] != ',' && (c, n) == DecodeChar(text[s..])
    ensures s + n <= |text| && DecodeGroup(text[s..], cur) == DecodeGroup(text[s + n..], cur + [c])
  {
    assert text[s..][0] == text[s] && text[s..][n..] == text[s + n..];
  }

  /** What the options will be, once the rest of the group has been read. */
  ghost function Promised(opts: Option<string>, unread: string, cur: string): Option<string> {
    AddAll(opts, DecodeGroup(unread, cur))
  }

  lemma LastOptionEnds(opts: Option<string>, cur: string)
    ensures Promised(opts, [], cur) == AddOpt(opts, CStr(cur))
  {
    assert DecodeGroup([], cur) == [CStr(cur)] && [CStr(cur)][1..] == [];
    assert AddAll(opts, [CStr(cur)]) == AddAll(AddOpt(opts, CStr(cur)), []);
  }

  lemma OptionEnds(opts: Option<string>, unread: string, cur: string)
    requires unread != [] && unread[0] == ','
    ensures Promised(opts, unread, cur) == Promised(AddOpt(opts, CStr(cur)), unread[1..], [])
  {
    var rest := DecodeGroup(unread[1..], []);
    assert ([CStr(cur)] + rest)[1..] == rest;
  }

  lemma SpelledDecode(s: string)
    ensures forall l :: Spells(l, s) ==> DecodeGroup(s, []) == Meanings(l)
  {
    forall l | Spells(l, s) ensures DecodeGroup(s, []) == Meanings(l) {
      GroupDecodes(l);
    }
  }

  class Context {
    const argv: seq<string>
    var argctr: nat
    var outargs: seq<string>
    var opts: Option<string>
    var nonopt: nat

    constructor (argv: seq<string>)
      ensures this.argv == argv && Value() == Ctx([], None, 0)
    {
      this.argv := argv;
      argctr, outargs, opts, nonopt := 0, [], None, 0;
    }

    ghost function Value(): (c: Ctx)
      reads this
    {
      Ctx(outargs, opts, nonopt)
    }

    /** Terminate the decoded option and hand it to `add_opt`, which sees a C string. */
    method EndOption(buf: array<char>, d: nat)
      requires d < buf.Length
      modifies buf, this`opts
      ensures opts == AddOpt(old(opts), CStr(old(buf[..d])))
      ensures forall k :: 0 <= k < buf.Length && k != d ==> buf[k] == old(buf[k])
    {
      buf[d] := '\0';
      assert buf[..d] == old(buf[..d]);
      var next, len := AppendOption(opts, CStr(buf[..d]));
      opts := Some(next[..len]);
    }

    /** An option ends at a comma or at the end of the group. */
    method FinishOption(buf: array<char>, s: nat, d: nat, ghost text: string)
      requires d <= s <= |text| && Unread(buf, text, s) && (s < |text| ==> text[s] == ',')
      modifies buf, this`opts
      ensures Unread(buf, text, s + 1)
      ensures Promised(old(opts), text[s..], old(buf[..d])) == if s == |text| then opts else Promised(opts, text[s + 1..], [])
    {
      if s == |text| {
        LastOptionEnds(opts, buf[..d]);
      } else {
        assert text[s..][0] == text[s] && text[s..][1..] == text[s + 1..];
        OptionEnds(opts, text[s..], buf[..d]);
      }
      EndOption(buf, d);
    }

    /** One round of the decoder, from the read cursor `s` to the write cursor `d`. */
    method DecodeRound(buf: array<char>, s: nat, d: nat, ghost text: string) returns (next: nat, at: nat, end: bool)
      requires NulFree(text) && d <= s <= |text| && Unread(buf, text, s)
      modifies buf, this`opts
      ensures end <==> s == |text|
      ensures !end ==> s < next <= |text| && at <= next && Unread(buf, text, next)
      ensures Promised(old(opts), text[s..], old(buf[..d])) == if end then opts else Promised(opts, text[next..], buf[..at])
    {
      end := buf[s] == '\0';
      if buf[s] == ',' || end {
        FinishOption(buf, s, d, text);
        next, at := s + 1, 0;
        assert buf[..0] == [];
      } else {
        next := CopyChar(buf, s, d, text);
        next, at := next + 1, d + 1;
      }
    }

    /** `process_real_option_group`: the group is decoded inside its own copy, the write cursor
        never overtaking the read cursor. */
    method ProcessRealOptionGroup(buf: array<char>)
      requires buf.Length > 0 && buf[buf.Length - 1] == '\0' && NulFree(buf[..buf.Length - 1])
      modifies buf, this`opts
      ensures opts == AddAll(old(opts), DecodeGroup(old(buf[..buf.Length - 1]), []))
      ensures forall l :: Spells(l, old(buf[..buf.Length - 1])) ==> opts == AddAll(old(opts), Meanings(l))
    {
      SpelledDecode(buf[..buf.Length - 1]);
      ghost var text, target := buf[..buf.Length - 1], Promised(opts, buf[..buf.Length - 1], []);
      var s, d, end := 0, 0, false;
      assert text[0..] == text && buf[..0] == [];
      while !end
        invariant !end ==> 0 <= d <= s <= |text| && Unread(buf, text, s)
        invariant target == if end then opts else Promised(opts, text[s..], buf[..d])
        decreases !end, |text| - s
      {
        s, d, end := DecodeRound(buf, s, d, text);
      }
    }

    /** `process_option_group`: a copy of the group, with its terminator. */
    method ProcessOptionGroup(group: string)
      requires NulFree(group)
      modifies this`opts
      ensures opts == AddAll(old(opts), DecodeGroup(group, []))
      ensures forall l :: Spells(l, group) ==> opts == AddAll(old(opts), Meanings(l))
    {
      var copy := new char[|group| + 1](i requires 0 <= i <= |group| => if i < |group| then group[i] else '\0');
      assert copy[..copy.Length - 1] == group;
      ProcessRealOptionGroup(copy);
    }

    method ProcessOne() returns (ok: bool)
      requires argctr < |argv| && AllNulFree(argv)
      modifies this
      ensures var r := Processed(old(Value()), argv, old(argctr));
        && (ok <==> r.Some?)
        && (ok ==> Value() == r.value.0 && argctr + 1 == old(argctr) + r.value.1)
    {
      var arg := argv[argctr];
      ok := true;
      if nonopt != 0 || arg == [] || arg[0] != '-' {
        outargs := outargs + [arg];
      } else if |arg| > 1 && arg[1] == 'o' {
        if |arg| > 2 {
          ProcessOptionGroup(arg[2..]);
        } else if argctr + 1 >= |argv| {
          ok := false;
        } else {
          argctr := argctr + 1;
          ProcessOptionGroup(argv[argctr]);
        }
      } else if |arg| == 2 && arg[1] == '-' {
        outargs := outargs + [arg];
        nonopt := |outargs|;
      } else {
        outargs := outargs + [arg];
      }
    }

    /** `fuse_opt_insert_arg` */
    method InsertArg(pos: nat, arg: string)
      requires pos <= |outargs|
      modifies this`outargs
      ensures outargs == old(outargs)[..pos] + [arg] + old(outargs)[pos..]
    {
      outargs := outargs + [arg];
      if pos != |outargs| - 1 {
        outargs := outargs[..pos] + [arg] + outargs[pos..|outargs| - 1];
      }
    }

    /** `opt_parse` */
    method OptParse() returns (ok: bool)
      requires Value() == Ctx([], None, 0) && argv != [] && AllNulFree(argv)
      modifies this
      ensures Parse(argv) == if ok then Some(outargs) else None
    {
      outargs := [argv[0]];
      ghost var start := Value();
      argctr, ok := 1, true;
      while argctr < |argv|
        invariant 1 <= argctr <= |argv| && |outargs| > 0
        invariant ProcessFrom(start, argv, 1) == ProcessFrom(Value(), argv, argctr)
      {
        ok := ProcessOne();
        if !ok {
          return;
        }
        argctr := argctr + 1;
      }
      PutOptionsFirst();
    }

    /** The end of `opt_parse`. */
    method PutOptionsFirst()
      requires |outargs| > 0
      modifies this`outargs
      ensures outargs == Finish(old(Value()))
    {
      ghost var out := outargs;
      if opts.Some? {
        InsertArg(1, "-o");
        InsertArg(2, opts.value);
        assert outargs == out[..1] + ["-o", opts.value] + out[1..];
      }
      if nonopt != 0 && nonopt == |outargs| && outargs[|outargs| - 1] == "--" {
        outargs := outargs[..|outargs| - 1];
      }
    }
  }

  /** `fuse_opt_parse`: normalise the vector, or leave it alone on error. */
  method FuseOptParse(args: seq<string>) returns (ok: bool, r: seq<string>)
    requires AllNulFree(args)
    ensures ok <==> Parse(args).Some?
    ensures r == if ok then Parse(args).value else args
  {
    if args == [] {
      return true, args;
    }
    var ctx := new Context(args);
    ok := ctx.OptParse();
    r := if ok then ctx.outargs else args;
  }
}
