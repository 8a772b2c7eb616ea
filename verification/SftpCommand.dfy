/** The SFTP batch commands of the uploader: a plan is a list of strings, printed
    with quoted arguments and parsed again when it is run
    (src/backup/sftp_uploader.cpp). */
module SftpCommand {
  import opened Options
  import opened Sequences

  datatype Command = Command(ignoreErrors: bool, op: string, args: seq<string>)

  datatype Error = EmptyCommand | UnterminatedArgument

  datatype Result<T> = Ok(value: T) | Err(error: Error)

  // ---- Printing ----

  function Escape(c: char): string {
    if c == '\"' || c == '\\' then ['\\', c] else [c]
  }

  function Escaped(value: string): string {
    if value == [] then [] else Escape(value[0]) + Escaped(value[1..])
  }

  function Quoted(value: string): string {
    ['\"'] + Escaped(value) + ['\"']
  }

  method Quote(value: string) returns (out: string)
    ensures out == Quoted(value)
  {
    out := ['\"'];
    for i := 0 to |value|
      invariant out + Escaped(value[i..]) == ['\"'] + Escaped(value)
    {
      ghost var before := out;
      if value[i] == '\"' || value[i] == '\\' {
        out := out + ['\\'];
      }
      out := out + [value[i]];
      assert value[i..][1..] == value[i + 1..];
      Reassociate(before, Escape(value[i]), Escaped(value[i + 1..]));
      assert out == before + Escape(value[i]);
    }
    assert out + Escaped(value[|value|..]) == out;
    out := out + ['\"'];
  }

  function PrintArgs(args: seq<string>): string {
    if args == [] then [] else [' '] + Quoted(args[0]) + PrintArgs(args[1..])
  }

  /** A command as the plans write it: an optional dash, the operation, and one
      quoted argument after each space. */
  function Print(c: Command): string {
    (if c.ignoreErrors then ['-'] else []) + (c.op + PrintArgs(c.args))
  }

  // ---- What a command string means ----

  /** Number of leading spaces. */
  function Spaces(s: string): (n: nat)
    ensures n <= |s| && (n < |s| ==> s[n] != ' ')
  {
    if s != [] && s[0] == ' ' then 1 + Spaces(s[1..]) else 0
  }

  function SkipSpaces(s: string): string {
    s[Spaces(s)..]
  }

  /** Number of leading characters that are not spaces. */
  function WordLength(s: string): (n: nat)
    ensures n <= |s| && ' ' !in s[..n] && (s != [] && s[0] != ' ' ==> n > 0)
  {
    if s != [] && s[0] != ' ' then
      var n := WordLength(s[1..]);
      assert s[..n + 1] == [s[0]] + s[1..][..n];
      n + 1
    else 0
  }

  datatype Argument = Argument(text: string, rest: string)

  function Prepend(text: string, a: Option<Argument>): Option<Argument> {
    match a
    case None => None
    case Some(v) => Some(Argument(text + v.text, v.rest))
  }

  /** The text up to the closing quote, with escapes undone, and what follows it. */
  function ReadQuoted(s: string, escaped: bool): (r: Option<Argument>)
    ensures r.Some? ==> |r.value.rest| < |s|
  {
    if s == [] then None
    else if escaped then Prepend([s[0]], ReadQuoted(s[1..], false))
    else if s[0] == '\\' then ReadQuoted(s[1..], true)
    else if s[0] == '\"' then Some(Argument([], s[1..]))
    else Prepend([s[0]], ReadQuoted(s[1..], false))
  }

  /** One argument: quoted, or a bare word. */
  function ReadArgument(s: string): (r: Option<Argument>)
    requires s != [] && s[0] != ' '
    ensures r.Some? ==> |r.value.rest| < |s|
  {
    if s[0] == '\"' then ReadQuoted(s[1..], false)
    else Some(Argument(s[..WordLength(s)], s[WordLength(s)..]))
  }

  function PrependArg(arg: string, r: Result<seq<string>>): Result<seq<string>> {
    match r
    case Ok(args) => Ok([arg] + args)
    case Err(e) => Err(e)
  }

  function ReadArgs(s: string): Result<seq<string>>
    decreases |s|
  {
    var t := SkipSpaces(s);
    if t == [] then Ok([])
    else
      match ReadArgument(t)
      case None => Err(UnterminatedArgument)
      case Some(a) => PrependArg(a.text, ReadArgs(a.rest))
  }

  function ParseOp(ignore: bool, s: string): Result<Command> {
    var n := WordLength(s);
    if n == 0 then Err(EmptyCommand)
    else
      match ReadArgs(s[n..])
      case Ok(args) => Ok(Command(ignore, s[..n], args))
      case Err(e) => Err(e)
  }

  function Parsed(s: string): Result<Command> {
    var t := SkipSpaces(s);
    if t != [] && t[0] == '-' then ParseOp(true, SkipSpaces(t[1..]))
    else ParseOp(false, SkipSpaces(t))
  }

  // ---- The cursor-based parser ----

  method SkipFrom(command: string, from: nat) returns (pos: nat)
    requires from <= |command|
    ensures from <= pos <= |command| && command[pos..] == SkipSpaces(command[from..])
  {
    pos := from;
    while pos < |command| && command[pos] == ' '
      invariant from <= pos <= |command|
      invariant SkipSpaces(command[pos..]) == SkipSpaces(command[from..])
    {
      assert command[pos..][1..] == command[pos + 1..];
      SpacesStep(command[pos..]);
      pos := pos + 1;
    }
    assert Spaces(command[pos..]) == 0;
  }

  lemma {:induction false} SpacesStep(s: string)
    requires s != [] && s[0] == ' '
    ensures SkipSpaces(s) == SkipSpaces(s[1..])
  {
    assert s[Spaces(s)..] == s[1..][Spaces(s[1..])..];
  }

  method WordEnd(command: string, from: nat) returns (pos: nat)
    requires from <= |command|
    ensures pos == from + WordLength(command[from..]) && pos <= |command|
  {
    pos := from;
    while pos < |command| && command[pos] != ' '
      invariant from <= pos <= |command|
      invariant WordLength(command[from..]) == pos - from + WordLength(command[pos..])
    {
      assert command[pos..][1..] == command[pos + 1..];
      pos := pos + 1;
    }
  }

  method ReadQuotedFrom(command: string, from: nat) returns (arg: string, pos: nat, closed: bool)
    requires from <= |command|
    ensures from <= pos <= |command|
    ensures ReadQuoted(command[from..], false) == if closed then Some(Argument(arg, command[pos..])) else None
  {
    arg, pos, closed := [], from, false;
    var escaped := false;
    ghost var whole := ReadQuoted(command[from..], false);
    PrependNothing(whole);
    while pos < |command|
      invariant from <= pos <= |command|
      invariant whole == Prepend(arg, ReadQuoted(command[pos..], escaped))
    {
      ghost var rest := command[pos..];
      var ch := command[pos];
      assert rest[1..] == command[pos + 1..] && rest[0] == ch;
      pos := pos + 1;
      PrependTwice(arg, [ch], ReadQuoted(command[pos..], false));
      if escaped {
        arg := arg + [ch];
        escaped := false;
      } else if ch == '\\' {
        escaped := true;
      } else if ch == '\"' {
        closed := true;
        assert arg + [] == arg;
        return;
      } else {
        arg := arg + [ch];
      }
    }
  }

  lemma {:induction false} PrependNothing(r: Option<Argument>)
    ensures r == Prepend([], r)
  {
    if r.Some? { assert [] + r.value.text == r.value.text; }
  }

  lemma {:induction false} PrependTwice(a: string, b: string, r: Option<Argument>)
    ensures Prepend(a, Prepend(b, r)) == Prepend(a + b, r)
  {
    if r.Some? { Reassociate(a, b, r.value.text); }
  }

  method ReadArgumentFrom(command: string, from: nat) returns (arg: string, pos: nat, closed: bool)
    requires from < |command| && command[from] != ' '
    ensures from < pos <= |command|
    ensures ReadArgument(command[from..]) == if closed then Some(Argument(arg, command[pos..])) else None
  {
    ghost var s := command[from..];
    if command[from] == '\"' {
      assert s[1..] == command[from + 1..];
      arg, pos, closed := ReadQuotedFrom(command, from + 1);
    } else {
      pos := WordEnd(command, from);
      arg, closed := command[from..pos], true;
      assert s[..pos - from] == arg && s[pos - from..] == command[pos..];
    }
  }

  function AppendAll(args: seq<string>, r: Result<seq<string>>): Result<seq<string>> {
    match r
    case Ok(more) => Ok(args + more)
    case Err(e) => Err(e)
  }

  method ReadArgsFrom(command: string, from: nat) returns (r: Result<seq<string>>)
    requires from <= |command|
    ensures r == ReadArgs(command[from..])
  {
    var pos, args := from, [];
    ghost var whole := ReadArgs(command[from..]);
    AppendToNothing(whole);
    while pos < |command|
      invariant from <= pos <= |command|
      invariant whole == AppendAll(args, ReadArgs(command[pos..]))
      decreases |command| - pos
    {
      var start := SkipFrom(command, pos);
      if start >= |command| {
        assert args + [] == args;
        return Ok(args);
      }
      ghost var t := command[start..];
      assert t[0] == command[start] && t == SkipSpaces(command[pos..]) && t[0] != ' ';
      var arg, end, closed := ReadArgumentFrom(command, start);
      if !closed {
        return Err(UnterminatedArgument);
      }
      AppendMore(args, arg, ReadArgs(command[end..]));
      args, pos := args + [arg], end;
    }
    assert command[pos..] == [] && args + [] == args;
    return Ok(args);
  }

  lemma {:induction false} AppendToNothing(r: Result<seq<string>>)
    ensures r == AppendAll([], r)
  {
    if r.Ok? { assert [] + r.value == r.value; }
  }

  lemma {:induction false} AppendMore(args: seq<string>, arg: string, r: Result<seq<string>>)
    ensures AppendAll(args, PrependArg(arg, r)) == AppendAll(args + [arg], r)
  {
    if r.Ok? { assert args + ([arg] + r.value) == args + [arg] + r.value; }
  }

  method ParseOpFrom(ignore: bool, command: string, begin: nat) returns (r: Result<Command>)
    requires begin <= |command|
    ensures r == ParseOp(ignore, command[begin..])
  {
    var end := WordEnd(command, begin);
    ghost var s := command[begin..];
    assert s[..end - begin] == command[begin..end] && s[end - begin..] == command[end..];
    if begin == end {
      return Err(EmptyCommand);
    }
    var args := ReadArgsFrom(command, end);
    if args.Err? {
      return Err(args.error);
    }
    return Ok(Command(ignore, command[begin..end], args.value));
  }

  method Parse(command: string) returns (r: Result<Command>)
    ensures r == Parsed(command)
  {
    var pos := SkipFrom(command, 0);
    assert command[0..] == command;
    var ignore := false;
    if pos < |command| && command[pos] == '-' {
      ignore := true;
      assert command[pos..][1..] == command[pos + 1..];
      pos := pos + 1;
    }
    var begin := SkipFrom(command, pos);
    r := ParseOpFrom(ignore, command, begin);
  }

  // ---- Printing and parsing undo each other ----

  lemma {:induction false} EscapeReads(c: char, more: string)
    ensures ReadQuoted(Escape(c) + more, false) == Prepend([c], ReadQuoted(more, false))
  {
    var s := Escape(c) + more;
    if c == '\"' || c == '\\' {
      assert s[1..] == [c] + more;
      assert ([c] + more)[1..] == more;
    } else {
      assert s[1..] == more;
    }
  }

  lemma {:induction false} QuotedReads(value: string, rest: string)
    ensures ReadQuoted(Escaped(value) + (['\"'] + rest), false) == Some(Argument(value, rest))
  {
    var closing := ['\"'] + rest;
    if value == [] {
      assert Escaped(value) + closing == closing;
      assert closing[1..] == rest;
    } else {
      QuotedReads(value[1..], rest);
      Reassociate(Escape(value[0]), Escaped(value[1..]), closing);
      EscapeReads(value[0], Escaped(value[1..]) + closing);
      assert [value[0]] + value[1..] == value;
    }
  }

  lemma {:induction false} ArgumentReads(value: string, rest: string)
    ensures ReadArgument(Quoted(value) + rest) == Some(Argument(value, rest))
  {
    var t := Quoted(value) + rest;
    QuotedReads(value, rest);
    assert t[1..] == Escaped(value) + (['\"'] + rest);
  }

  lemma {:induction false} SpaceThenQuote(t: string)
    requires t != [] && t[0] == '\"'
    ensures SkipSpaces([' '] + t) == t
  {
    SpacesStep([' '] + t);
    assert ([' '] + t)[1..] == t;
    assert Spaces(t) == 0;
  }

  lemma {:induction false} ArgsRead(args: seq<string>)
    ensures ReadArgs(PrintArgs(args)) == Ok(args)
  {
    if args == [] {
    } else {
      var t := Quoted(args[0]) + PrintArgs(args[1..]);
      Reassociate([' '], Quoted(args[0]), PrintArgs(args[1..]));
      SpaceThenQuote(t);
      ArgumentReads(args[0], PrintArgs(args[1..]));
      ArgsRead(args[1..]);
      assert [args[0]] + args[1..] == args;
    }
  }

  lemma {:induction false} WordOf(op: string, rest: string)
    requires ' ' !in op && (rest == [] || rest[0] == ' ')
    ensures WordLength(op + rest) == |op|
  {
    if op == [] {
      assert op + rest == rest;
    } else {
      assert (op + rest)[1..] == op[1..] + rest;
      WordOf(op[1..], rest);
    }
  }

  /** The operation names a command string can carry. */
  predicate Printable(c: Command) {
    c.op != [] && ' ' !in c.op && (c.ignoreErrors || c.op[0] != '-')
  }

  lemma {:induction false} PrintedOp(c: Command)
    requires Printable(c)
    ensures ParseOp(c.ignoreErrors, c.op + PrintArgs(c.args)) == Ok(c)
  {
    var rest := PrintArgs(c.args);
    var s := c.op + rest;
    WordOf(c.op, rest);
    assert s[..|c.op|] == c.op && s[|c.op|..] == rest;
    ArgsRead(c.args);
  }

  lemma {:induction false} ParseOfPrint(c: Command)
    requires Printable(c)
    ensures Parsed(Print(c)) == Ok(c)
  {
    var s, p := c.op + PrintArgs(c.args), Print(c);
    PrintedOp(c);
    assert s[0] == c.op[0] && c.op[0] != ' ' by { assert c.op[0] in c.op; }
    assert Spaces(s) == 0;
    if c.ignoreErrors {
      assert p[0] == '-' && p[1..] == s;
      assert Spaces(p) == 0;
    } else {
      assert p == s;
    }
  }

  lemma {:induction false} ParsedIsPrintable(s: string)
    requires Parsed(s).Ok?
    ensures Printable(Parsed(s).value)
  {
    var t := SkipSpaces(s);
    var u := SkipSpaces(if t != [] && t[0] == '-' then t[1..] else t);
    assert Spaces(t) == 0;
    assert u[..WordLength(u)][0] == u[0];
  }

  /** Parsing a printed command gives back the command exactly when its operation
      is a non-empty word that the parser would not take for the dash. Arguments
      are unrestricted. */
  lemma {:induction false} RoundTrip(c: Command)
    ensures Parsed(Print(c)) == Ok(c) <==> Printable(c)
  {
    if Printable(c) {
      ParseOfPrint(c);
    } else if Parsed(Print(c)).Ok? {
      ParsedIsPrintable(Print(c));
    }
  }

  /** Printing is a normal form: whatever a string parses to, its printed form
      parses to the same command. */
  lemma {:induction false} PrintNormalizes(s: string)
    requires Parsed(s).Ok?
    ensures Parsed(Print(Parsed(s).value)) == Parsed(s)
  {
    ParsedIsPrintable(s);
    ParseOfPrint(Parsed(s).value);
  }

  lemma {:induction false} PrintInjective(a: Command, b: Command)
    requires Printable(a) && Printable(b) && Print(a) == Print(b)
    ensures a == b
  {
    ParseOfPrint(a);
    ParseOfPrint(b);
  }

  /** A dash in front of a name is read as the flag, so such a name never comes back:
      the rest of it does, when it is a word. */
  lemma {:induction false} DashedOperation(name: string, args: seq<string>)
    ensures Parsed(Print(Command(false, ['-'] + name, args))) != Ok(Command(false, ['-'] + name, args))
    ensures name != [] && ' ' !in name ==>
      Parsed(Print(Command(false, ['-'] + name, args))) == Ok(Command(true, name, args))
  {
    var dashed, c := Command(false, ['-'] + name, args), Command(true, name, args);
    RoundTrip(dashed);
    if name != [] && ' ' !in name {
      Reassociate(['-'], name, PrintArgs(args));
      assert [] + (dashed.op + PrintArgs(args)) == dashed.op + PrintArgs(args);
      assert Print(dashed) == Print(c);
      ParseOfPrint(c);
    }
  }

  // ---- Every way to write a command ----

  function Blanks(n: nat): string {
    if n == 0 then [] else [' '] + Blanks(n - 1)
  }

  /** One more blank than `gap`, and then a quoted argument or a bare word. */
  datatype Written = Written(gap: nat, bare: bool, value: string)

  predicate Fits(w: Written) {
    w.bare ==> w.value != [] && w.value[0] != '\"' && ' ' !in w.value
  }

  function Text(w: Written): string {
    if w.bare then w.value else Quoted(w.value)
  }

  function WrittenArgs(ws: seq<Written>, tail: string): string {
    if ws == [] then tail else Blanks(ws[0].gap + 1) + (Text(ws[0]) + WrittenArgs(ws[1..], tail))
  }

  function Values(ws: seq<Written>): seq<string> {
    if ws == [] then [] else [ws[0].value] + Values(ws[1..])
  }

  lemma {:induction false} BlanksSkipped(n: nat, t: string)
    requires t == [] || t[0] != ' '
    ensures SkipSpaces(Blanks(n) + t) == t
    decreases n
  {
    if n == 0 {
      assert Blanks(0) + t == t && Spaces(t) == 0;
    } else {
      BlanksSkipped(n - 1, t);
      assert (Blanks(n) + t)[1..] == Blanks(n - 1) + t;
      SpacesStep(Blanks(n) + t);
    }
  }

  lemma {:induction false} WrittenReads(w: Written, rest: string)
    requires Fits(w) && (rest == [] || rest[0] == ' ')
    ensures var t := Text(w) + rest; t != [] && t[0] != ' ' && ReadArgument(t) == Some(Argument(w.value, rest))
  {
    if w.bare {
      assert w.value[0] in w.value;
      WordOf(w.value, rest);
      var t := w.value + rest;
      assert t[..|w.value|] == w.value && t[|w.value|..] == rest;
    } else {
      ArgumentReads(w.value, rest);
    }
  }

  /** Arguments written in any mix come out by value, followed by what the tail holds. */
  lemma {:induction false} WrittenArgsRead(ws: seq<Written>, tail: string)
    requires (forall i :: 0 <= i < |ws| ==> Fits(ws[i])) && (tail == [] || tail[0] == ' ')
    ensures ReadArgs(WrittenArgs(ws, tail)) == AppendAll(Values(ws), ReadArgs(tail))
    ensures var s := WrittenArgs(ws, tail); s == [] || s[0] == ' '
    decreases |ws|
  {
    if ws == [] {
      AppendToNothing(ReadArgs(tail));
    } else {
      var rest := WrittenArgs(ws[1..], tail);
      WrittenArgsRead(ws[1..], tail);
      WrittenReads(ws[0], rest);
      BlanksSkipped(ws[0].gap + 1, Text(ws[0]) + rest);
      PrependAll(ws[0].value, Values(ws[1..]), ReadArgs(tail));
    }
  }

  lemma {:induction false} PrependAll(arg: string, args: seq<string>, r: Result<seq<string>>)
    ensures PrependArg(arg, AppendAll(args, r)) == AppendAll([arg] + args, r)
  {
    if r.Ok? { Reassociate([arg], args, r.value); }
  }

  lemma {:induction false} OpenQuoteReads(text: string)
    ensures ReadQuoted(Escaped(text), false) == None
    decreases |text|
  {
    if text != [] {
      OpenQuoteReads(text[1..]);
      EscapeReads(text[0], Escaped(text[1..]));
    }
  }

  lemma {:induction false} BlankTail(n: nat)
    ensures ReadArgs(Blanks(n)) == Ok([]) && (n > 0 ==> Blanks(n)[0] == ' ')
  {
    assert Blanks(n) + [] == Blanks(n);
    BlanksSkipped(n, []);
  }

  function Open(text: string): string {
    ['\"'] + Escaped(text)
  }

  lemma {:induction false} OpenTail(n: nat, text: string)
    ensures ReadArgs(Blanks(n + 1) + Open(text)) == Err(UnterminatedArgument) && (Blanks(n + 1) + Open(text))[0] == ' '
  {
    BlanksSkipped(n + 1, Open(text));
    OpenQuoteReads(text);
    assert Open(text)[1..] == Escaped(text);
  }

  function WithOp(ignore: bool, op: string, r: Result<seq<string>>): Result<Command> {
    match r
    case Ok(args) => Ok(Command(ignore, op, args))
    case Err(e) => Err(e)
  }

  lemma {:induction false} OpReads(ignore: bool, op: string, args: string)
    requires op != [] && ' ' !in op && (args == [] || args[0] == ' ')
    ensures ParseOp(ignore, op + args) == WithOp(ignore, op, ReadArgs(args))
  {
    WordOf(op, args);
    assert (op + args)[..|op|] == op && (op + args)[|op|..] == args;
  }

  lemma {:induction false} DashReads(n: nat, s: string)
    ensures Parsed(Blanks(n) + (['-'] + s)) == ParseOp(true, SkipSpaces(s))
  {
    BlanksSkipped(n, ['-'] + s);
    assert (['-'] + s)[1..] == s;
  }

  lemma {:induction false} PlainReads(n: nat, s: string)
    requires s != [] && s[0] != ' ' && s[0] != '-'
    ensures Parsed(Blanks(n) + s) == ParseOp(false, s)
  {
    BlanksSkipped(n, s);
    assert Spaces(s) == 0;
  }

  function WrittenOp(c: Command, after: nat, args: string): string {
    if c.ignoreErrors then ['-'] + (Blanks(after) + (c.op + args)) else c.op + args
  }

  lemma {:induction false} WrittenOpReads(before: nat, c: Command, after: nat, args: string)
    requires Printable(c) && (args == [] || args[0] == ' ')
    ensures Parsed(Blanks(before) + WrittenOp(c, after, args)) == WithOp(c.ignoreErrors, c.op, ReadArgs(args))
  {
    var word := c.op + args;
    assert c.op[0] in c.op;
    OpReads(c.ignoreErrors, c.op, args);
    if c.ignoreErrors {
      DashReads(before, Blanks(after) + word);
      BlanksSkipped(after, word);
    } else {
      PlainReads(before, word);
    }
  }

  /** A command with blanks wherever they may stand and each argument quoted or bare is read
      as its operation and the arguments' values. */
  lemma {:induction false} EveryWriting(before: nat, c: Command, after: nat, ws: seq<Written>, end: nat)
    requires Printable(c) && c.args == Values(ws) && forall i :: 0 <= i < |ws| ==> Fits(ws[i])
    ensures Parsed(Blanks(before) + WrittenOp(c, after, WrittenArgs(ws, Blanks(end)))) == Ok(c)
  {
    BlankTail(end);
    WrittenArgsRead(ws, Blanks(end));
    WrittenOpReads(before, c, after, WrittenArgs(ws, Blanks(end)));
    assert Values(ws) + [] == Values(ws);
  }

  /** One whose last quote stays open is refused, whatever comes before. */
  lemma {:induction false} OpenQuoteRefused(before: nat, c: Command, after: nat, ws: seq<Written>, gap: nat, text: string)
    requires Printable(c) && forall i :: 0 <= i < |ws| ==> Fits(ws[i])
    ensures Parsed(Blanks(before) + WrittenOp(c, after, WrittenArgs(ws, Blanks(gap + 1) + Open(text)))) == Err(UnterminatedArgument)
  {
    var tail := Blanks(gap + 1) + Open(text);
    OpenTail(gap, text);
    WrittenArgsRead(ws, tail);
    WrittenOpReads(before, c, after, WrittenArgs(ws, tail));
  }
}
