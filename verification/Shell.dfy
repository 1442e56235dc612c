/** The shell's parser (sh.c): tokens, the grammar, and the in-place termination of words. */
module Shell {
  const MAXARGS := 10

  /** The parsed commands, with words of type W. A redirection reads (O_RDONLY on
      descriptor 0) or writes (O_WRONLY|O_CREATE on descriptor 1). */
  datatype Cmd<W> =
    | Exec(argv: seq<W>)
    | Redir(cmd: Cmd<W>, file: W, write: bool)
    | Pipe(left: Cmd<W>, right: Cmd<W>)
    | List(left: Cmd<W>, right: Cmd<W>)
    | Back(cmd: Cmd<W>)

  /** A word, or a symbol; the symbol of ">>" is '+'. */
  datatype Tok = Word(w: string) | Sym(c: char)

  /** The panics of the parser. */
  datatype Error = Syntax | MissingFile | MissingParen | TooManyArgs | Leftovers

  datatype Parsed = Ok(cmd: Cmd<string>, rest: seq<Tok>) | Err(error: Error)

  // ---------------------------------------------------------------- the grammar

  predicate Starts(ts: seq<Tok>, c: char) {
    ts != [] && ts[0] == Sym(c)
  }

  /** The next token is one of the redirection symbols. */
  predicate AtRedir(ts: seq<Tok>) {
    Starts(ts, '<') || Starts(ts, '>') || Starts(ts, '+')
  }

  /** Tokens at which the words of a command stop. */
  predicate AtStop(ts: seq<Tok>) {
    ts == [] || Starts(ts, '|') || Starts(ts, ')') || Starts(ts, '&') || Starts(ts, ';')
  }

  /** The words go to the command under the redirections. */
  function AddWord<W>(c: Cmd<W>, w: W): Cmd<W> {
    match c
    case Exec(argv) => Exec(argv + [w])
    case Redir(d, f, o) => Redir(AddWord(d, w), f, o)
    case _ => c
  }

  function Argc<W>(c: Cmd<W>): nat {
    match c
    case Exec(argv) => |argv|
    case Redir(d, _, _) => Argc(d)
    case _ => 0
  }

  function ParseRedirs(c: Cmd<string>, ts: seq<Tok>): (r: Parsed)
    ensures r.Ok? ==> |r.rest| <= |ts| && !AtRedir(r.rest)
    decreases |ts|
  {
    if AtRedir(ts) then
      if |ts| > 1 && ts[1].Word? then ParseRedirs(Redir(c, ts[1].w, ts[0] != Sym('<')), ts[2..]) else Err(MissingFile)
    else Ok(c, ts)
  }

  function ParseArgs(c: Cmd<string>, ts: seq<Tok>): (r: Parsed)
    ensures r.Ok? ==> |r.rest| <= |ts| && AtStop(r.rest)
    decreases |ts|
  {
    if AtStop(ts) then Ok(c, ts)
    else if !ts[0].Word? then Err(Syntax)
    else
      var d := AddWord(c, ts[0].w);
      if Argc(d) >= MAXARGS then Err(TooManyArgs)
      else match ParseRedirs(d, ts[1..])
        case Err(e) => Err(e)
        case Ok(e, rest) => ParseArgs(e, rest)
  }

  function ParseExec(ts: seq<Tok>): (r: Parsed)
    ensures r.Ok? ==> |r.rest| <= |ts|
    decreases |ts|, 1
  {
    if Starts(ts, '(') then ParseBlock(ts)
    else match ParseRedirs(Exec([]), ts)
      case Err(e) => Err(e)
      case Ok(c, rest) => ParseArgs(c, rest)
  }

  function ParseBlock(ts: seq<Tok>): (r: Parsed)
    requires Starts(ts, '(')
    ensures r.Ok? ==> |r.rest| < |ts|
    decreases |ts|, 0
  {
    match ParseLine(ts[1..])
    case Err(e) => Err(e)
    case Ok(c, rest) => if Starts(rest, ')') then ParseRedirs(c, rest[1..]) else Err(MissingParen)
  }

  function ParsePipe(ts: seq<Tok>): (r: Parsed)
    ensures r.Ok? ==> |r.rest| <= |ts|
    decreases |ts|, 2
  {
    match ParseExec(ts)
    case Err(e) => Err(e)
    case Ok(c, rest) =>
      if Starts(rest, '|') then
        match ParsePipe(rest[1..])
        case Err(e) => Err(e)
        case Ok(d, tail) => Ok(Pipe(c, d), tail)
      else Ok(c, rest)
  }

  /** The rest of a line after its first pipeline. */
  function ParseEnds(c: Cmd<string>, ts: seq<Tok>): (r: Parsed)
    ensures r.Ok? ==> |r.rest| <= |ts|
    decreases |ts|, 3
  {
    if Starts(ts, '&') then ParseEnds(Back(c), ts[1..])
    else if Starts(ts, ';') then
      match ParseLine(ts[1..])
      case Err(e) => Err(e)
      case Ok(d, rest) => Ok(List(c, d), rest)
    else Ok(c, ts)
  }

  function ParseLine(ts: seq<Tok>): (r: Parsed)
    ensures r.Ok? ==> |r.rest| <= |ts|
    decreases |ts|, 4
  {
    match ParsePipe(ts)
    case Err(e) => Err(e)
    case Ok(c, rest) => ParseEnds(c, rest)
  }

  function ParseCmd(ts: seq<Tok>): Parsed {
    match ParseLine(ts)
    case Err(e) => Err(e)
    case Ok(c, rest) => if rest == [] then Ok(c, []) else Err(Leftovers)
  }

  // ---------------------------------------------------------------- canonical tokens

  /** Orders the printing functions on one command. */
  function Rank(level: int, c: Cmd<string>): int
    requires 0 <= level < 4
  {
    match c
    case Exec(_) => level
    case Redir(_, _, _) => level
    case Pipe(_, _) => [3, 0, 1, 2][level]
    case Back(_) => [2, 3, 0, 1][level]
    case List(_, _) => [1, 2, 3, 0][level]
  }

  function Words(ws: seq<string>): (r: seq<Tok>)
    ensures |r| == |ws|
  {
    if ws == [] then [] else [Word(ws[0])] + Words(ws[1..])
  }

  function RedirSym(write: bool): Tok {
    Sym(if write then '>' else '<')
  }

  /** A command where the grammar has a simple command or a block. */
  function ExecToks(c: Cmd<string>): seq<Tok>
    decreases c, Rank(0, c)
  {
    match c
    case Exec(argv) => Words(argv)
    case Redir(d, f, o) => ExecToks(d) + [RedirSym(o), Word(f)]
    case _ => [Sym('(')] + LineToks(c) + [Sym(')')]
  }

  /** ... a pipeline. */
  function PipeToks(c: Cmd<string>): seq<Tok>
    decreases c, Rank(1, c)
  {
    if c.Pipe? then ExecToks(c.left) + [Sym('|')] + PipeToks(c.right) else ExecToks(c)
  }

  /** ... a pipeline with ampersands after it. */
  function BackToks(c: Cmd<string>): seq<Tok>
    decreases c, Rank(2, c)
  {
    if c.Back? then BackToks(c.cmd) + [Sym('&')] else PipeToks(c)
  }

  /** ... a line. */
  function LineToks(c: Cmd<string>): seq<Tok>
    decreases c, Rank(3, c)
  {
    if c.List? then BackToks(c.left) + [Sym(';')] + LineToks(c.right) else BackToks(c)
  }

  /** At most 9 words in each simple command. */
  predicate FewArgs(c: Cmd<string>) {
    match c
    case Exec(argv) => |argv| < MAXARGS
    case Redir(d, _, _) => FewArgs(d)
    case Pipe(l, r) => FewArgs(l) && FewArgs(r)
    case List(l, r) => FewArgs(l) && FewArgs(r)
    case Back(d) => FewArgs(d)
  }

  /** Redirections, then words. */
  function RedirsArgs(c: Cmd<string>, ts: seq<Tok>): Parsed {
    match ParseRedirs(c, ts)
    case Err(e) => Err(e)
    case Ok(d, rest) => ParseArgs(d, rest)
  }

  lemma OneArg(argv: seq<string>, w: string, ts: seq<Tok>)
    requires |argv| + 1 < MAXARGS
    ensures ParseArgs(Exec(argv), [Word(w)] + ts) == RedirsArgs(Exec(argv + [w]), ts)
  {
    var all := [Word(w)] + ts;
    assert all[0] == Word(w) && all[1..] == ts;
  }

  lemma NoRedirs(c: Cmd<string>, ts: seq<Tok>)
    requires ts != [] && ts[0].Word?
    ensures RedirsArgs(c, ts) == ParseArgs(c, ts)
  {
  }

  lemma {:induction false} ArgsRoundTrip(argv: seq<string>, ws: seq<string>, ts: seq<Tok>)
    requires |argv| + |ws| < MAXARGS && ws != []
    ensures ParseArgs(Exec(argv), Words(ws) + ts) == RedirsArgs(Exec(argv + ws), ts)
    decreases ws
  {
    hide ParseArgs, ParseRedirs, RedirsArgs;
    var rest := ws[1..];
    assert Words(ws) + ts == [Word(ws[0])] + (Words(rest) + ts);
    OneArg(argv, ws[0], Words(rest) + ts);
    if rest == [] {
      assert Words(rest) + ts == ts;
      assert argv + ws == argv + [ws[0]];
    } else {
      assert (Words(rest) + ts)[0] == Word(rest[0]);
      NoRedirs(Exec(argv + [ws[0]]), Words(rest) + ts);
      ArgsRoundTrip(argv + [ws[0]], rest, ts);
      assert argv + [ws[0]] + rest == argv + ws;
    }
  }

  lemma ExecIs(ts: seq<Tok>)
    requires !Starts(ts, '(')
    ensures ParseExec(ts) == RedirsArgs(Exec([]), ts)
  {
  }

  lemma StopsThere(c: Cmd<string>, ts: seq<Tok>)
    requires ParseRedirs(c, ts).Ok? && AtStop(ParseRedirs(c, ts).rest)
    ensures RedirsArgs(c, ts) == ParseRedirs(c, ts) && !Starts(ts, '(')
  {
  }

  lemma SimpleRoundTrip(argv: seq<string>, ts: seq<Tok>)
    requires |argv| < MAXARGS
    requires ParseRedirs(Exec(argv), ts).Ok? && AtStop(ParseRedirs(Exec(argv), ts).rest)
    ensures ParseExec(Words(argv) + ts) == ParseRedirs(Exec(argv), ts)
  {
    hide ParseArgs, ParseRedirs, RedirsArgs, ParseExec;
    var all := Words(argv) + ts;
    StopsThere(Exec(argv), ts);
    if argv == [] {
      assert all == ts;
    } else {
      assert all[0] == Word(argv[0]);
      NoRedirs(Exec([]), all);
      ArgsRoundTrip([], argv, ts);
      assert [] + argv == argv;
    }
    ExecIs(all);
  }

  lemma OneRedir(c: Cmd<string>, f: string, o: bool, ts: seq<Tok>)
    ensures ParseRedirs(c, [RedirSym(o), Word(f)] + ts) == ParseRedirs(Redir(c, f, o), ts)
  {
    var more := [RedirSym(o), Word(f)] + ts;
    assert more[0] == RedirSym(o) && more[1] == Word(f) && more[2..] == ts;
  }

  lemma BlockIs(c: Cmd<string>, toks: seq<Tok>, ts: seq<Tok>)
    requires ParseLine(toks + ([Sym(')')] + ts)) == Ok(c, [Sym(')')] + ts)
    ensures ParseExec([Sym('(')] + toks + [Sym(')')] + ts) == ParseRedirs(c, ts)
  {
    var all, tail := [Sym('(')] + toks + [Sym(')')] + ts, [Sym(')')] + ts;
    assert all[0] == Sym('(') && all[1..] == toks + tail && tail[1..] == ts;
  }

  /** A simple command or block, with any redirections that follow it. */
  lemma {:induction false} ExecRoundTrip(c: Cmd<string>, ts: seq<Tok>)
    requires FewArgs(c) && ParseRedirs(c, ts).Ok? && AtStop(ParseRedirs(c, ts).rest)
    ensures ParseExec(ExecToks(c) + ts) == ParseRedirs(c, ts)
    decreases c, Rank(0, c)
  {
    hide ParseArgs, ParseRedirs, ParseExec, ParseLine;
    match c
    case Exec(argv) =>
      SimpleRoundTrip(argv, ts);
    case Redir(d, f, o) =>
      var more := [RedirSym(o), Word(f)] + ts;
      OneRedir(d, f, o, ts);
      ExecRoundTrip(d, more);
      assert ExecToks(c) + ts == ExecToks(d) + more;
    case _ =>
      LineRoundTrip(c, [Sym(')')] + ts);
      BlockIs(c, LineToks(c), ts);
  }

  lemma {:induction false} PipeRoundTrip(c: Cmd<string>, ts: seq<Tok>)
    requires FewArgs(c) && AtStop(ts) && !Starts(ts, '|')
    ensures ParsePipe(PipeToks(c) + ts) == Ok(c, ts)
    decreases c, Rank(1, c)
  {
    if c.Pipe? {
      var tail := [Sym('|')] + (PipeToks(c.right) + ts);
      assert PipeToks(c) + ts == ExecToks(c.left) + tail;
      ExecRoundTrip(c.left, tail);
      assert tail[1..] == PipeToks(c.right) + ts;
      PipeRoundTrip(c.right, ts);
    } else {
      ExecRoundTrip(c, ts);
    }
  }

  lemma {:induction false} BackRoundTrip(c: Cmd<string>, ts: seq<Tok>)
    requires FewArgs(c) && AtStop(ts) && !Starts(ts, '|')
    ensures ParseLine(BackToks(c) + ts) == ParseEnds(c, ts)
    decreases c, Rank(2, c)
  {
    if c.Back? {
      var tail := [Sym('&')] + ts;
      assert BackToks(c) + ts == BackToks(c.cmd) + tail;
      BackRoundTrip(c.cmd, tail);
      assert tail[1..] == ts;
    } else {
      PipeRoundTrip(c, ts);
    }
  }

  /** Parsing the canonical tokens of a command gives it back, at the end or before ')'. */
  lemma {:induction false} LineRoundTrip(c: Cmd<string>, ts: seq<Tok>)
    requires FewArgs(c) && (ts == [] || Starts(ts, ')'))
    ensures ParseLine(LineToks(c) + ts) == Ok(c, ts)
    decreases c, Rank(3, c)
  {
    if c.List? {
      var tail := [Sym(';')] + (LineToks(c.right) + ts);
      assert LineToks(c) + ts == BackToks(c.left) + tail;
      BackRoundTrip(c.left, tail);
      assert tail[1..] == LineToks(c.right) + ts;
      LineRoundTrip(c.right, ts);
    } else {
      BackRoundTrip(c, ts);
    }
  }

  // ---------------------------------------------------------------- the language of the parser

  /** A redirection: the file, and whether it writes. */
  datatype Redirection = To(file: string, write: bool)

  /** Words and redirections, in any order. */
  predicate Items(ts: seq<Tok>) {
    ts == [] || if ts[0].Word? then Items(ts[1..]) else AtRedir(ts) && |ts| > 1 && ts[1].Word? && Items(ts[2..])
  }

  /** The words that are not the file of a redirection, in order. */
  function WordsOf(ts: seq<Tok>): seq<string> {
    if ts == [] then []
    else if ts[0].Word? then [ts[0].w] + WordsOf(ts[1..])
    else if |ts| > 1 then WordsOf(ts[2..]) else []
  }

  /** The redirections, in order; only '<' reads. */
  function RedirsOf(ts: seq<Tok>): seq<Redirection> {
    if ts == [] then []
    else if ts[0].Word? then RedirsOf(ts[1..])
    else if |ts| > 1 && ts[1].Word? then [To(ts[1].w, ts[0] != Sym('<'))] + RedirsOf(ts[2..]) else []
  }

  /** The command under redirections, the first innermost. */
  function Wrap(c: Cmd<string>, rs: seq<Redirection>): Cmd<string> {
    if rs == [] then c else var last := rs[|rs| - 1]; Redir(Wrap(c, rs[..|rs| - 1]), last.file, last.write)
  }

  /** The tokens of a simple command: all its words, under all its redirections. */
  predicate IsSimple(ts: seq<Tok>, c: Cmd<string>) {
    Items(ts) && |WordsOf(ts)| < MAXARGS && c == Wrap(Exec(WordsOf(ts)), RedirsOf(ts))
  }

  /** A line d in parentheses that close at position n, and redirections. */
  ghost predicate IsBlock(ts: seq<Tok>, c: Cmd<string>, n: int, d: Cmd<string>)
    decreases |ts|, 0
  {
    && 0 < n < |ts| && ts[0] == Sym('(') && ts[n] == Sym(')') && IsLine(ts[1..n], d)
    && OnlyRedirs(ts[n + 1..]) && c == Wrap(d, RedirsOf(ts[n + 1..]))
  }

  ghost predicate IsExec(ts: seq<Tok>, c: Cmd<string>)
    decreases |ts|, 1
  {
    IsSimple(ts, c) || exists n, d :: IsBlock(ts, c, n, d)
  }

  /** A pipeline: a simple command or block, or one, a bar at position n, and a pipeline. */
  ghost predicate IsPipe(ts: seq<Tok>, c: Cmd<string>)
    decreases |ts|, 2
  {
    IsExec(ts, c) || (c.Pipe? && exists n :: 0 <= n < |ts| && ts[n] == Sym('|') && PipeAt(ts, c, n))
  }

  ghost predicate PipeAt(ts: seq<Tok>, c: Cmd<string>, n: nat)
    requires c.Pipe? && n < |ts|
    decreases |ts|, 1
  {
    IsExec(ts[..n], c.left) && IsPipe(ts[n + 1..], c.right)
  }

  /** A pipeline with ampersands after it. */
  ghost predicate IsBack(ts: seq<Tok>, c: Cmd<string>)
    decreases |ts|, 3
  {
    || IsPipe(ts, c)
    || (c.Back? && ts != [] && ts[|ts| - 1] == Sym('&') && IsBack(ts[..|ts| - 1], c.cmd))
  }

  ghost predicate IsLine(ts: seq<Tok>, c: Cmd<string>)
    decreases |ts|, 4
  {
    IsBack(ts, c) || (c.List? && exists n :: 0 <= n < |ts| && ts[n] == Sym(';') && ListAt(ts, c, n))
  }

  ghost predicate ListAt(ts: seq<Tok>, c: Cmd<string>, n: nat)
    requires c.List? && n < |ts|
    decreases |ts|, 3
  {
    IsBack(ts[..n], c.left) && IsLine(ts[n + 1..], c.right)
  }

  lemma {:induction false} WrapAdd(ws: seq<string>, rs: seq<Redirection>, w: string)
    ensures AddWord(Wrap(Exec(ws), rs), w) == Wrap(Exec(ws + [w]), rs)
    ensures Argc(Wrap(Exec(ws), rs)) == |ws|
  {
    if rs == [] {
    } else {
      WrapAdd(ws, rs[..|rs| - 1], w);
    }
  }

  lemma WrapMore(c: Cmd<string>, rs: seq<Redirection>, f: string, o: bool)
    ensures Redir(Wrap(c, rs), f, o) == Wrap(c, rs + [To(f, o)])
  {
    assert (rs + [To(f, o)])[..|rs|] == rs;
  }

  /** What the redirections and words at the start of ts parse to, on top of what was
      there. */
  lemma {:induction false} ItemsParse(ws: seq<string>, rs: seq<Redirection>, ts: seq<Tok>, rest: seq<Tok>)
    requires Items(ts) && AtStop(rest) && |ws| + |WordsOf(ts)| < MAXARGS
    ensures RedirsArgs(Wrap(Exec(ws), rs), ts + rest)
         == Ok(Wrap(Exec(ws + WordsOf(ts)), rs + RedirsOf(ts)), rest)
    decreases |ts|
  {
    hide ParseArgs, ParseRedirs, RedirsArgs, Wrap, AddWord, Argc;
    var c := Wrap(Exec(ws), rs);
    if ts == [] {
      assert ts + rest == rest && ws + [] == ws && rs + [] == rs;
      NothingMore(c, rest);
    } else if ts[0].Word? {
      var w, tail := ts[0].w, ts[1..] + rest;
      assert ts + rest == [Word(w)] + tail && ws + [w] + WordsOf(ts[1..]) == ws + WordsOf(ts);
      WrapAdd(ws, rs, w);
      WrapAdd(ws + [w], rs, w);
      MoreArg(c, w, tail);
      ItemsParse(ws + [w], rs, ts[1..], rest);
    } else {
      var f, o, tail := ts[1].w, ts[0] != Sym('<'), ts[2..] + rest;
      assert ts + rest == [ts[0], Word(f)] + tail && rs + [To(f, o)] + RedirsOf(ts[2..]) == rs + RedirsOf(ts);
      WrapMore(Exec(ws), rs, f, o);
      MoreRedir(c, ts[0], f, tail);
      ItemsParse(ws, rs + [To(f, o)], ts[2..], rest);
    }
  }

  lemma NothingMore(c: Cmd<string>, ts: seq<Tok>)
    requires AtStop(ts)
    ensures RedirsArgs(c, ts) == Ok(c, ts)
  {
  }

  lemma MoreArg(c: Cmd<string>, w: string, ts: seq<Tok>)
    ensures RedirsArgs(c, [Word(w)] + ts) ==
      if Argc(AddWord(c, w)) >= MAXARGS then Err(TooManyArgs) else RedirsArgs(AddWord(c, w), ts)
  {
    var all := [Word(w)] + ts;
    assert all[0] == Word(w) && all[1..] == ts;
  }

  lemma MoreRedir(c: Cmd<string>, t: Tok, f: string, ts: seq<Tok>)
    requires t == Sym('<') || t == Sym('>') || t == Sym('+')
    ensures RedirsArgs(c, [t, Word(f)] + ts) == RedirsArgs(Redir(c, f, t != Sym('<')), ts)
  {
    var all := [t, Word(f)] + ts;
    assert all[0] == t && all[1] == Word(f) && all[2..] == ts;
  }

  /** The tokens of ts that are not in rest. */
  function Used(ts: seq<Tok>, rest: seq<Tok>): seq<Tok> {
    if |rest| <= |ts| then ts[..|ts| - |rest|] else []
  }

  /** A parse took the tokens in front of its rest. */
  predicate Split(ts: seq<Tok>, r: Parsed) {
    r.Ok? ==> |r.rest| <= |ts| && ts == Used(ts, r.rest) + r.rest
  }

  /** The tokens that a parse on top of ws and rs took are words and redirections, and it
      added exactly those. */
  predicate Added(ws: seq<string>, rs: seq<Redirection>, ts: seq<Tok>, r: Parsed) {
    && Split(ts, r)
    && (r.Ok? ==>
          var u := Used(ts, r.rest);
          && Items(u) && |ws| + |WordsOf(u)| < MAXARGS && r.cmd == Wrap(Exec(ws + WordsOf(u)), rs + RedirsOf(u)))
  }

  lemma AddedNothing(ws: seq<string>, rs: seq<Redirection>, ts: seq<Tok>)
    requires |ws| < MAXARGS
    ensures Added(ws, rs, ts, Ok(Wrap(Exec(ws), rs), ts))
  {
    assert Used(ts, ts) == [] && ws + [] == ws && rs + [] == rs;
  }

  lemma FirstWord(ts: seq<Tok>)
    requires ts != [] && ts[0].Word?
    ensures Items(ts) == Items(ts[1..]) && WordsOf(ts) == [ts[0].w] + WordsOf(ts[1..])
    ensures RedirsOf(ts) == RedirsOf(ts[1..])
  {
  }

  lemma FirstPair(ts: seq<Tok>)
    requires AtRedir(ts) && |ts| > 1 && ts[1].Word?
    ensures Items(ts) == Items(ts[2..]) && WordsOf(ts) == WordsOf(ts[2..])
    ensures RedirsOf(ts) == [To(ts[1].w, ts[0] != Sym('<'))] + RedirsOf(ts[2..])
  {
  }

  lemma AddedWord(ws: seq<string>, rs: seq<Redirection>, ts: seq<Tok>, r: Parsed)
    requires ts != [] && ts[0].Word? && Added(ws + [ts[0].w], rs, ts[1..], r)
    ensures Added(ws, rs, ts, r)
  {
    hide Wrap, Items, WordsOf, RedirsOf;
    if r.Ok? {
      var u := Used(ts, r.rest);
      assert u[0] == ts[0];
      FirstWord(u);
      assert u[1..] == Used(ts[1..], r.rest) && ws + [ts[0].w] + WordsOf(u[1..]) == ws + WordsOf(u);
    }
  }

  lemma AddedRedir(ws: seq<string>, rs: seq<Redirection>, ts: seq<Tok>, r: Parsed)
    requires AtRedir(ts) && |ts| > 1 && ts[1].Word? && Added(ws, rs + [To(ts[1].w, ts[0] != Sym('<'))], ts[2..], r)
    ensures Added(ws, rs, ts, r)
  {
    hide Wrap, Items, WordsOf, RedirsOf;
    if r.Ok? {
      var u := Used(ts, r.rest);
      assert u[0] == ts[0] && u[1] == ts[1];
      FirstPair(u);
      assert u[2..] == Used(ts[2..], r.rest);
      assert rs + [To(ts[1].w, ts[0] != Sym('<'))] + RedirsOf(u[2..]) == rs + RedirsOf(u);
    }
  }

  lemma {:induction false} ItemsParsed(ws: seq<string>, rs: seq<Redirection>, ts: seq<Tok>)
    requires |ws| < MAXARGS
    ensures Added(ws, rs, ts, RedirsArgs(Wrap(Exec(ws), rs), ts))
    decreases |ts|
  {
    hide ParseArgs, ParseRedirs, RedirsArgs, Wrap, AddWord, Argc, Added;
    var c := Wrap(Exec(ws), rs);
    if AtStop(ts) {
      NothingMore(c, ts);
      AddedNothing(ws, rs, ts);
    } else if ts[0].Word? {
      var w, tail := ts[0].w, ts[1..];
      assert ts == [Word(w)] + tail;
      WrapAdd(ws, rs, w);
      WrapAdd(ws + [w], rs, w);
      MoreArg(c, w, tail);
      if |ws| + 1 < MAXARGS {
        ItemsParsed(ws + [w], rs, tail);
        AddedWord(ws, rs, ts, RedirsArgs(c, ts));
      } else {
        AddedError(ws, rs, ts, TooManyArgs);
      }
    } else if AtRedir(ts) && |ts| > 1 && ts[1].Word? {
      var f, o, tail := ts[1].w, ts[0] != Sym('<'), ts[2..];
      assert ts == [ts[0], Word(f)] + tail;
      WrapMore(Exec(ws), rs, f, o);
      MoreRedir(c, ts[0], f, tail);
      ItemsParsed(ws, rs + [To(f, o)], tail);
      AddedRedir(ws, rs, ts, RedirsArgs(c, ts));
    } else {
      NoItems(c, ts);
      AddedError(ws, rs, ts, RedirsArgs(c, ts).error);
    }
  }

  lemma AddedError(ws: seq<string>, rs: seq<Redirection>, ts: seq<Tok>, e: Error)
    ensures Added(ws, rs, ts, Err(e))
  {
  }

  lemma NoItems(c: Cmd<string>, ts: seq<Tok>)
    requires !AtStop(ts) && !ts[0].Word? && !(AtRedir(ts) && |ts| > 1 && ts[1].Word?)
    ensures RedirsArgs(c, ts).Err?
  {
  }

  predicate OnlyRedirs(ts: seq<Tok>) {
    Items(ts) && WordsOf(ts) == []
  }

  lemma FirstRedir(ts: seq<Tok>)
    requires OnlyRedirs(ts) && ts != []
    ensures AtRedir(ts) && |ts| > 1 && ts[1].Word? && OnlyRedirs(ts[2..])
    ensures RedirsOf(ts) == [To(ts[1].w, ts[0] != Sym('<'))] + RedirsOf(ts[2..])
  {
  }

  /** Redirections alone, on any command. */
  lemma {:induction false} RedirsParse(c: Cmd<string>, rs: seq<Redirection>, ts: seq<Tok>, rest: seq<Tok>)
    requires OnlyRedirs(ts) && !AtRedir(rest)
    ensures ParseRedirs(Wrap(c, rs), ts + rest) == Ok(Wrap(c, rs + RedirsOf(ts)), rest)
    decreases |ts|
  {
    hide ParseRedirs, Wrap, OnlyRedirs;
    RedirsStep(Wrap(c, rs), ts + rest);
    if ts == [] {
      assert ts + rest == rest && rs + [] == rs;
    } else {
      FirstRedir(ts);
      var f, o := ts[1].w, ts[0] != Sym('<');
      assert (ts + rest)[2..] == ts[2..] + rest && (ts + rest)[0] == ts[0];
      assert rs + [To(f, o)] + RedirsOf(ts[2..]) == rs + RedirsOf(ts);
      WrapMore(c, rs, f, o);
      RedirsParse(c, rs + [To(f, o)], ts[2..], rest);
    }
  }

  predicate Redirected(c: Cmd<string>, rs: seq<Redirection>, ts: seq<Tok>, r: Parsed) {
    && Split(ts, r)
    && (r.Ok? ==> var u := Used(ts, r.rest); OnlyRedirs(u) && r.cmd == Wrap(c, rs + RedirsOf(u)))
  }

  lemma RedirectedMore(c: Cmd<string>, rs: seq<Redirection>, ts: seq<Tok>, r: Parsed)
    requires AtRedir(ts) && |ts| > 1 && ts[1].Word? && Redirected(c, rs + [To(ts[1].w, ts[0] != Sym('<'))], ts[2..], r)
    ensures Redirected(c, rs, ts, r)
  {
    hide Wrap, Items, WordsOf, RedirsOf;
    if r.Ok? {
      var u := Used(ts, r.rest);
      assert u[2..] == Used(ts[2..], r.rest) && u[..2] == ts[..2];
      assert u[0] == ts[0] && u[1] == ts[1];
      FirstPair(u);
      assert rs + [To(ts[1].w, ts[0] != Sym('<'))] + RedirsOf(u[2..]) == rs + RedirsOf(u);
    }
  }

  lemma RedirectedNot(c: Cmd<string>, rs: seq<Redirection>, ts: seq<Tok>, e: Error)
    ensures Redirected(c, rs, ts, Ok(Wrap(c, rs), ts)) && Redirected(c, rs, ts, Err(e))
  {
    assert Used(ts, ts) == [] && rs + [] == rs;
  }

  lemma {:induction false} RedirsParsed(c: Cmd<string>, rs: seq<Redirection>, ts: seq<Tok>)
    ensures Redirected(c, rs, ts, ParseRedirs(Wrap(c, rs), ts))
    decreases |ts|
  {
    hide ParseRedirs, Wrap, Redirected;
    RedirsStep(Wrap(c, rs), ts);
    if AtRedir(ts) && |ts| > 1 && ts[1].Word? {
      var f, o, tail := ts[1].w, ts[0] != Sym('<'), ts[2..];
      WrapMore(c, rs, f, o);
      RedirsParsed(c, rs + [To(f, o)], tail);
      RedirectedMore(c, rs, ts, ParseRedirs(Wrap(c, rs), ts));
    } else {
      RedirectedNot(c, rs, ts, MissingFile);
    }
  }

  // What the parser accepts is in the language.

  lemma {:induction false} ExecSound(ts: seq<Tok>)
    ensures var r := ParseExec(ts); Split(ts, r) && (r.Ok? ==> IsExec(Used(ts, r.rest), r.cmd))
    decreases |ts|, 1
  {
    hide RedirsArgs, ParseLine, ParseRedirs, IsLine, Wrap, Items;
    if Starts(ts, '(') {
      BlockSound(ts);
    } else {
      ExecIs(ts);
      NoWrap(Exec([]));
      ItemsParsed([], [], ts);
      var r := ParseExec(ts);
      if r.Ok? {
        var u := Used(ts, r.rest);
        assert [] + WordsOf(u) == WordsOf(u) && [] + RedirsOf(u) == RedirsOf(u);
      }
    }
  }

  lemma NoWrap(c: Cmd<string>)
    ensures Wrap(c, []) == c
  {
  }

  lemma {:induction false} BlockSound(ts: seq<Tok>)
    requires Starts(ts, '(')
    ensures var r := ParseExec(ts); Split(ts, r) && (r.Ok? ==> IsExec(Used(ts, r.rest), r.cmd))
    decreases |ts|, 0
  {
    hide ParseLine, ParseRedirs, IsLine, Wrap, IsSimple, OnlyRedirs, RedirsOf;
    LineSound(ts[1..]);
    var l := ParseLine(ts[1..]);
    if l.Ok? && Starts(l.rest, ')') {
      var n := |ts| - |l.rest|;
      assert ts[1..] == Used(ts[1..], l.rest) + l.rest;
      NoWrap(l.cmd);
      RedirsParsed(l.cmd, [], l.rest[1..]);
      var r := ParseRedirs(l.cmd, l.rest[1..]);
      if r.Ok? {
        var u := Used(ts, r.rest);
        var v := Used(l.rest[1..], r.rest);
        assert [] + RedirsOf(v) == RedirsOf(v);
        assert u[1..n] == Used(ts[1..], l.rest);
        assert u[n + 1..] == v;
        assert IsBlock(u, r.cmd, n, l.cmd);
      }
    }
  }

  lemma {:induction false} PipeSound(ts: seq<Tok>)
    ensures var r := ParsePipe(ts); Split(ts, r) && (r.Ok? ==> IsPipe(Used(ts, r.rest), r.cmd))
    decreases |ts|, 2
  {
    hide ParseExec, IsExec;
    ExecSound(ts);
    var e := ParseExec(ts);
    if e.Ok? && Starts(e.rest, '|') {
      PipeSound(e.rest[1..]);
      var r := ParsePipe(ts);
      if r.Ok? {
        var n, u := |ts| - |e.rest|, Used(ts, r.rest);
        assert u[..n] == Used(ts, e.rest) && u[n + 1..] == Used(e.rest[1..], r.rest) && u[n] == Sym('|');
        assert PipeAt(u, r.cmd, n);
      }
    }
  }

  /** Of a line whose first tokens are a pipeline c with ampersands. */
  lemma {:induction false} EndsSound(c: Cmd<string>, us: seq<Tok>, ts: seq<Tok>)
    requires IsBack(us, c)
    ensures var r := ParseEnds(c, ts); Split(ts, r) && (r.Ok? ==> IsLine(us + Used(ts, r.rest), r.cmd))
    decreases |ts|, 3
  {
    hide IsBack, IsLine, ParseLine, ParseEnds;
    EndsStep(c, ts);
    var r := ParseEnds(c, ts);
    if Starts(ts, '&') {
      LineIs(us, c, [], c);
      EndsSound(Back(c), us + [Sym('&')], ts[1..]);
      if r.Ok? {
        assert us + [Sym('&')] + Used(ts[1..], r.rest) == us + Used(ts, r.rest);
      }
    } else if Starts(ts, ';') {
      LineSound(ts[1..]);
      if r.Ok? {
        var vs := Used(ts[1..], r.rest);
        LineIs(us, c, vs, r.cmd.right);
        assert us + [Sym(';')] + vs == us + Used(ts, r.rest);
      }
    } else {
      LineIs(us, c, [], c);
      assert us + Used(ts, ts) == us;
    }
  }

  lemma LineIs(us: seq<Tok>, c: Cmd<string>, vs: seq<Tok>, d: Cmd<string>)
    requires IsBack(us, c)
    ensures IsLine(us, c) && IsBack(us + [Sym('&')], Back(c))
    ensures IsLine(vs, d) ==> IsLine(us + [Sym(';')] + vs, List(c, d))
  {
    hide IsPipe;
    assert (us + [Sym('&')])[..|us|] == us;
    if IsLine(vs, d) {
      var w, n := us + [Sym(';')] + vs, |us|;
      assert w[..n] == us && w[n] == Sym(';') && w[n + 1..] == vs;
      assert ListAt(w, List(c, d), n);
    }
  }

  lemma EndsStep(c: Cmd<string>, ts: seq<Tok>)
    ensures Starts(ts, '&') ==> ParseEnds(c, ts) == ParseEnds(Back(c), ts[1..])
    ensures Starts(ts, ';') ==>
      var r := ParseLine(ts[1..]); ParseEnds(c, ts) == if r.Ok? then Ok(List(c, r.cmd), r.rest) else r
    ensures !Starts(ts, '&') && !Starts(ts, ';') ==> ParseEnds(c, ts) == Ok(c, ts)
  {
  }

  lemma {:induction false} LineSound(ts: seq<Tok>)
    ensures var r := ParseLine(ts); Split(ts, r) && (r.Ok? ==> IsLine(Used(ts, r.rest), r.cmd))
    decreases |ts|, 4
  {
    hide ParsePipe, IsPipe, ParseEnds, IsLine;
    PipeSound(ts);
    var p := ParsePipe(ts);
    if p.Ok? {
      EndsSound(p.cmd, Used(ts, p.rest), p.rest);
      var r := ParseLine(ts);
      if r.Ok? {
        assert Used(ts, p.rest) + Used(p.rest, r.rest) == Used(ts, r.rest);
      }
    }
  }

  // What is in the language, the parser accepts.

  lemma {:induction false} ExecComplete(ts: seq<Tok>, c: Cmd<string>, rest: seq<Tok>)
    requires IsExec(ts, c) && AtStop(rest)
    ensures ParseExec(ts + rest) == Ok(c, rest)
    decreases |ts|, 0
  {
    hide ParseExec, RedirsArgs, Wrap, IsLine, ParseLine, ParseRedirs;
    if IsSimple(ts, c) {
      NoWrap(Exec([]));
      ItemsParse([], [], ts, rest);
      assert [] + WordsOf(ts) == WordsOf(ts) && [] + RedirsOf(ts) == RedirsOf(ts);
      ExecIs(ts + rest);
    } else {
      var n, d :| IsBlock(ts, c, n, d);
      var more := ts[n + 1..] + rest;
      LineComplete(ts[1..n], d, [Sym(')')] + more);
      assert ts + rest == [Sym('(')] + ts[1..n] + [Sym(')')] + more;
      BlockIs(d, ts[1..n], more);
      NoWrap(d);
      RedirsParse(d, [], ts[n + 1..], rest);
      assert [] + RedirsOf(ts[n + 1..]) == RedirsOf(ts[n + 1..]);
    }
  }

  lemma {:induction false} PipeComplete(ts: seq<Tok>, c: Cmd<string>, rest: seq<Tok>)
    requires IsPipe(ts, c) && AtStop(rest) && !Starts(rest, '|')
    ensures ParsePipe(ts + rest) == Ok(c, rest)
    decreases |ts|, 1
  {
    hide ParseExec, IsExec;
    if IsExec(ts, c) {
      ExecComplete(ts, c, rest);
    } else {
      var n :| 0 <= n < |ts| && ts[n] == Sym('|') && PipeAt(ts, c, n);
      var tail := [Sym('|')] + (ts[n + 1..] + rest);
      assert ts + rest == ts[..n] + tail && tail[1..] == ts[n + 1..] + rest;
      ExecComplete(ts[..n], c.left, tail);
      PipeComplete(ts[n + 1..], c.right, rest);
    }
  }

  lemma {:induction false} BackComplete(ts: seq<Tok>, c: Cmd<string>, rest: seq<Tok>)
    requires IsBack(ts, c) && AtStop(rest) && !Starts(rest, '|')
    ensures ParseLine(ts + rest) == ParseEnds(c, rest)
    decreases |ts|, 2
  {
    hide ParsePipe, IsPipe;
    if IsPipe(ts, c) {
      PipeComplete(ts, c, rest);
    } else {
      var tail := [Sym('&')] + rest;
      assert ts + rest == ts[..|ts| - 1] + tail && tail[1..] == rest;
      BackComplete(ts[..|ts| - 1], c.cmd, tail);
    }
  }

  lemma Semicolon(ts: seq<Tok>, c: Cmd<string>) returns (n: nat)
    requires IsLine(ts, c) && !IsBack(ts, c)
    ensures n < |ts| && ts[n] == Sym(';') && c.List? && IsBack(ts[..n], c.left) && IsLine(ts[n + 1..], c.right)
  {
    hide IsBack;
    n :| 0 <= n < |ts| && ts[n] == Sym(';') && ListAt(ts, c, n);
  }

  lemma {:induction false} LineComplete(ts: seq<Tok>, c: Cmd<string>, rest: seq<Tok>)
    requires IsLine(ts, c) && (rest == [] || Starts(rest, ')'))
    ensures ParseLine(ts + rest) == Ok(c, rest)
    decreases |ts|, 3
  {
    hide IsBack, IsLine, ParseLine, ParseEnds;
    if IsBack(ts, c) {
      EndsStep(c, rest);
      BackComplete(ts, c, rest);
    } else {
      var n := Semicolon(ts, c);
      var tail := [Sym(';')] + (ts[n + 1..] + rest);
      assert ts + rest == ts[..n] + tail && tail[1..] == ts[n + 1..] + rest;
      EndsStep(c.left, tail);
      BackComplete(ts[..n], c.left, tail);
      LineComplete(ts[n + 1..], c.right, rest);
    }
  }

  /** The parser accepts exactly the language: tokens parse as command c if and only if they
      are a line that means c, and they fail to parse if and only if they are no line. In
      particular a simple command has all its words and all its redirections, in order,
      however they are mixed. */
  lemma LanguageIff(ts: seq<Tok>, c: Cmd<string>)
    ensures ParseCmd(ts) == Ok(c, []) <==> IsLine(ts, c)
    ensures ParseCmd(ts).Err? <==> forall d :: !IsLine(ts, d)
  {
    hide ParseLine, IsLine;
    LineSound(ts);
    forall d | IsLine(ts, d) ensures ParseLine(ts) == Ok(d, []) {
      LineComplete(ts, d, []);
      assert ts + [] == ts;
    }
    var r := ParseLine(ts);
    if r.Ok? && r.rest == [] {
      assert Used(ts, r.rest) == ts;
    }
  }

  // ---------------------------------------------------------------- tokens of a text

  predicate White(c: char) {
    c == ' ' || c == '\t' || c == '\r' || c == '\n' || c == 11 as char
  }

  predicate Symbol(c: char) {
    c == '<' || c == '|' || c == '>' || c == '&' || c == ';' || c == '(' || c == ')'
  }

  predicate WordChar(c: char) {
    !White(c) && !Symbol(c)
  }

  /** The length of the word at the start of s. */
  function WordLen(s: string): (n: nat)
    ensures n <= |s| && (forall i :: 0 <= i < n ==> WordChar(s[i])) && (n < |s| ==> !WordChar(s[n]))
  {
    if s == "" || !WordChar(s[0]) then 0 else 1 + WordLen(s[1..])
  }

  function Lex(s: string): seq<Tok>
    decreases |s|
  {
    if s == "" then []
    else if White(s[0]) then Lex(s[1..])
    else if s[0] == '>' && |s| > 1 && s[1] == '>' then [Sym('+')] + Lex(s[2..])
    else if Symbol(s[0]) then [Sym(s[0])] + Lex(s[1..])
    else [Word(s[..WordLen(s)])] + Lex(s[WordLen(s)..])
  }

  predicate AllWhite(s: string) {
    forall i :: 0 <= i < |s| ==> White(s[i])
  }

  /** How a token is written. */
  predicate Written(t: Tok, s: string) {
    match t
    case Word(w) => s == w && GoodWord(w)
    case Sym(c) => s == if c == '+' then ">>" else [c]
  }

  /** A token that text s follows ends there: a word before no word character, '>' before
      no other one. */
  predicate EndsBefore(t: Tok, s: string) {
    s != "" ==> (t.Word? ==> !WordChar(s[0])) && (t == Sym('>') ==> s[0] != '>')
  }

  /** Text s spells the tokens, with any whitespace around them and none where none is
      needed. */
  ghost predicate Spells(s: string, ts: seq<Tok>)
    decreases |ts|
  {
    if ts == [] then AllWhite(s) else exists k, m :: SpellsAt(s, ts, k, m)
  }

  /** The first token is written from k to m. */
  ghost predicate SpellsAt(s: string, ts: seq<Tok>, k: int, m: int)
    requires ts != []
    decreases |ts|, 0
  {
    && 0 <= k < m <= |s| && AllWhite(s[..k]) && Written(ts[0], s[k..m]) && EndsBefore(ts[0], s[m..])
    && (ts[0].Sym? ==> Symbol(ts[0].c) || ts[0].c == '+') && Spells(s[m..], ts[1..])
  }

  /** The tokens of a text are exactly those it spells. */
  lemma LexIff(s: string, ts: seq<Tok>)
    ensures Lex(s) == ts <==> Spells(s, ts)
  {
    LexSpells(s);
    if Spells(s, ts) {
      SpellsLex(s, ts);
    }
  }

  lemma SpellsLater(s: string, ts: seq<Tok>)
    requires s != "" && White(s[0]) && Spells(s[1..], ts)
    ensures Spells(s, ts)
  {
    hide White, Written, EndsBefore;
    if ts != [] {
      var k, m :| SpellsAt(s[1..], ts, k, m);
      assert s[..k + 1] == [s[0]] + s[1..][..k] && s[1..][k..m] == s[k + 1..m + 1] && s[1..][m..] == s[m + 1..];
      assert SpellsAt(s, ts, k + 1, m + 1);
    }
  }

  lemma SpellsNow(s: string, t: Tok, m: nat, ts: seq<Tok>)
    requires 0 < m <= |s| && Written(t, s[..m]) && EndsBefore(t, s[m..]) && (t.Sym? ==> Symbol(t.c) || t.c == '+')
    requires Spells(s[m..], ts)
    ensures Spells(s, [t] + ts)
  {
    hide Written, EndsBefore, Symbol;
    assert ([t] + ts)[1..] == ts && s[0..m] == s[..m];
    assert SpellsAt(s, [t] + ts, 0, m);
  }

  lemma {:induction false} LexSpells(s: string)
    ensures Spells(s, Lex(s))
    decreases |s|
  {
    hide Spells, WordLen;
    if s == "" {
      SpellsNothing();
    } else if White(s[0]) {
      LexSpells(s[1..]);
      SpellsLater(s, Lex(s));
    } else {
      var m := if s[0] == '>' && |s| > 1 && s[1] == '>' then 2 else if Symbol(s[0]) then 1 else WordLen(s);
      if !Symbol(s[0]) {
        SomeWord(s);
      }
      LexSpells(s[m..]);
      var t := if Symbol(s[0]) then Sym(if m == 2 then '+' else s[0]) else Word(s[..m]);
      SpellsNow(s, t, m, Lex(s[m..]));
    }
  }

  lemma SpellsNothing()
    ensures Spells("", [])
  {
  }

  lemma SomeWord(s: string)
    requires s != "" && WordChar(s[0])
    ensures WordLen(s) > 0 && GoodWord(s[..WordLen(s)])
  {
  }

  lemma {:induction false} SkipSpace(s: string, k: nat)
    requires k <= |s| && AllWhite(s[..k])
    ensures Lex(s) == Lex(s[k..])
    decreases k
  {
    if k == 0 {
      assert s[0..] == s;
    } else {
      assert White(s[..k][0]);
      assert s[1..][..k - 1] == s[..k][1..] && s[1..][k - 1..] == s[k..];
      SkipSpace(s[1..], k - 1);
    }
  }

  lemma LexOne(t: Tok, s: string, m: nat)
    requires 0 < m <= |s| && Written(t, s[..m]) && EndsBefore(t, s[m..]) && (t.Sym? ==> Symbol(t.c) || t.c == '+')
    ensures Lex(s) == [t] + Lex(s[m..])
  {
    assert s[..m][0] == s[0];
    match t
    case Word(w) =>
      assert forall i :: 0 <= i < m ==> s[i] == s[..m][i];
      FullWord(s, m);
    case Sym(c) =>
      if c == '+' {
        assert s[..m][1] == s[1];
      } else if |s| > 1 {
        assert s[m..][0] == s[1];
      }
  }

  lemma {:induction false} SpellsLex(s: string, ts: seq<Tok>)
    requires Spells(s, ts)
    ensures Lex(s) == ts
    decreases |ts|
  {
    hide Lex, Written, EndsBefore, AllWhite;
    if ts == [] {
      assert s[..|s|] == s && s[|s|..] == "";
      SkipSpace(s, |s|);
      LexNothing();
    } else {
      var k, m :| SpellsAt(s, ts, k, m);
      SkipSpace(s, k);
      assert s[k..][..m - k] == s[k..m] && s[k..][m - k..] == s[m..];
      LexOne(ts[0], s[k..], m - k);
      SpellsLex(s[m..], ts[1..]);
    }
  }

  lemma LexNothing()
    ensures Lex("") == []
  {
  }

  predicate GoodWord(w: string) {
    w != "" && forall i :: 0 <= i < |w| ==> WordChar(w[i])
  }

  predicate GoodTok(t: Tok) {
    match t
    case Word(w) => GoodWord(w)
    case Sym(c) => Symbol(c)
  }

  /** Every token followed by a space. */
  function Text(ts: seq<Tok>): string {
    if ts == [] then ""
    else (match ts[0] case Word(w) => w case Sym(c) => [c]) + " " + Text(ts[1..])
  }

  lemma LexWord(w: string, s: string)
    requires GoodWord(w)
    ensures Lex(w + " " + s) == [Word(w)] + Lex(s)
  {
    var t := w + " " + s;
    assert t[0] == w[0] && WordChar(w[0]);
    assert t[|w|] == ' ';
    WordLenIs(t, |w|);
    assert t[..|w|] == w && t[|w|..] == " " + s && (" " + s)[1..] == s;
  }

  lemma LexSymbol(c: char, s: string)
    requires Symbol(c)
    ensures Lex([c] + " " + s) == [Sym(c)] + Lex(s)
  {
    var t := [c] + " " + s;
    assert t[0] == c && t[1] == ' ' && t[1..] == " " + s && (" " + s)[1..] == s;
  }

  lemma {:induction false} LexText(ts: seq<Tok>)
    requires GoodToks(ts)
    ensures Lex(Text(ts)) == ts
  {
    if ts == [] {
    } else {
      assert GoodTok(ts[0]);
      LexText(ts[1..]);
      match ts[0]
      case Word(w) => LexWord(w, Text(ts[1..]));
      case Sym(c) => LexSymbol(c, Text(ts[1..]));
    }
  }

  lemma WordLenIs(s: string, n: nat)
    requires n <= |s| && (forall i :: 0 <= i < n ==> WordChar(s[i])) && (n < |s| ==> !WordChar(s[n]))
    ensures WordLen(s) == n
  {
  }

  /** The words are words. */
  predicate GoodWords(c: Cmd<string>) {
    match c
    case Exec(argv) => forall i :: 0 <= i < |argv| ==> GoodWord(argv[i])
    case Redir(d, f, _) => GoodWords(d) && GoodWord(f)
    case Pipe(l, r) => GoodWords(l) && GoodWords(r)
    case List(l, r) => GoodWords(l) && GoodWords(r)
    case Back(d) => GoodWords(d)
  }

  predicate GoodToks(ts: seq<Tok>) {
    forall i :: 0 <= i < |ts| ==> GoodTok(ts[i])
  }

  lemma {:induction false} WordsGood(ws: seq<string>)
    requires forall i :: 0 <= i < |ws| ==> GoodWord(ws[i])
    ensures GoodToks(Words(ws))
  {
    if ws == [] {
    } else {
      WordsGood(ws[1..]);
    }
  }

  lemma {:induction false} ExecGood(c: Cmd<string>)
    requires GoodWords(c)
    ensures GoodToks(ExecToks(c))
    decreases c, Rank(0, c)
  {
    match c
    case Exec(argv) => WordsGood(argv);
    case Redir(d, _, _) => ExecGood(d);
    case _ => LineGood(c);
  }

  lemma {:induction false} PipeGood(c: Cmd<string>)
    requires GoodWords(c)
    ensures GoodToks(PipeToks(c))
    decreases c, Rank(1, c)
  {
    if c.Pipe? {
      ExecGood(c.left);
      PipeGood(c.right);
    } else {
      ExecGood(c);
    }
  }

  lemma {:induction false} BackGood(c: Cmd<string>)
    requires GoodWords(c)
    ensures GoodToks(BackToks(c))
    decreases c, Rank(2, c)
  {
    if c.Back? {
      BackGood(c.cmd);
    } else {
      PipeGood(c);
    }
  }

  lemma {:induction false} LineGood(c: Cmd<string>)
    requires GoodWords(c)
    ensures GoodToks(LineToks(c))
    decreases c, Rank(3, c)
  {
    if c.List? {
      BackGood(c.left);
      LineGood(c.right);
    } else {
      BackGood(c);
    }
  }

  // A command the parser returns has at most 9 words in each simple command.

  lemma {:induction false} RedirsFew(c: Cmd<string>, ts: seq<Tok>)
    requires FewArgs(c)
    ensures ParseRedirs(c, ts).Ok? ==> FewArgs(ParseRedirs(c, ts).cmd)
    decreases |ts|
  {
    if AtRedir(ts) && |ts| > 1 && ts[1].Word? {
      RedirsFew(Redir(c, ts[1].w, ts[0] != Sym('<')), ts[2..]);
    }
  }

  lemma {:induction false} AddFew(c: Cmd<string>, w: string)
    requires FewArgs(c) && Argc(AddWord(c, w)) < MAXARGS
    ensures FewArgs(AddWord(c, w))
  {
    if c.Redir? {
      AddFew(c.cmd, w);
    }
  }

  lemma {:induction false} ArgsFew(c: Cmd<string>, ts: seq<Tok>)
    requires FewArgs(c)
    ensures ParseArgs(c, ts).Ok? ==> FewArgs(ParseArgs(c, ts).cmd)
    decreases |ts|
  {
    if !AtStop(ts) && ts[0].Word? && Argc(AddWord(c, ts[0].w)) < MAXARGS {
      var d := AddWord(c, ts[0].w);
      AddFew(c, ts[0].w);
      RedirsFew(d, ts[1..]);
      var r := ParseRedirs(d, ts[1..]);
      if r.Ok? {
        ArgsFew(r.cmd, r.rest);
      }
    }
  }

  lemma {:induction false} ExecFew(ts: seq<Tok>)
    ensures ParseExec(ts).Ok? ==> FewArgs(ParseExec(ts).cmd)
    decreases |ts|, 0
  {
    if Starts(ts, '(') {
      LineFew(ts[1..]);
      var r := ParseLine(ts[1..]);
      if r.Ok? && Starts(r.rest, ')') {
        RedirsFew(r.cmd, r.rest[1..]);
      }
    } else {
      RedirsFew(Exec([]), ts);
      var r := ParseRedirs(Exec([]), ts);
      if r.Ok? {
        ArgsFew(r.cmd, r.rest);
      }
    }
  }

  lemma {:induction false} PipeFew(ts: seq<Tok>)
    ensures ParsePipe(ts).Ok? ==> FewArgs(ParsePipe(ts).cmd)
    decreases |ts|, 1
  {
    ExecFew(ts);
    var r := ParseExec(ts);
    if r.Ok? && Starts(r.rest, '|') {
      PipeFew(r.rest[1..]);
    }
  }

  lemma {:induction false} EndsFew(c: Cmd<string>, ts: seq<Tok>)
    requires FewArgs(c)
    ensures ParseEnds(c, ts).Ok? ==> FewArgs(ParseEnds(c, ts).cmd)
    decreases |ts|, 2
  {
    if Starts(ts, '&') {
      EndsFew(Back(c), ts[1..]);
    } else if Starts(ts, ';') {
      LineFew(ts[1..]);
    }
  }

  lemma {:induction false} LineFew(ts: seq<Tok>)
    ensures ParseLine(ts).Ok? ==> FewArgs(ParseLine(ts).cmd)
    decreases |ts|, 3
  {
    PipeFew(ts);
    var r := ParsePipe(ts);
    if r.Ok? {
      EndsFew(r.cmd, r.rest);
    }
  }

  /** Parsing the canonical text of a command gives that command exactly when no simple
      command has more than 9 words. */
  lemma RoundTrip(c: Cmd<string>)
    requires GoodWords(c)
    ensures ParseCmd(Lex(Text(LineToks(c)))) == Ok(c, []) <==> FewArgs(c)
  {
    LineGood(c);
    LexText(LineToks(c));
    LineFew(LineToks(c));
    if FewArgs(c) {
      LineRoundTrip(c, []);
      assert LineToks(c) + [] == LineToks(c);
    }
  }

  /** A text parses as command c exactly when it spells a line that means c. */
  lemma TextIff(s: string, c: Cmd<string>)
    ensures ParseCmd(Lex(s)) == Ok(c, []) <==> exists ts :: Spells(s, ts) && IsLine(ts, c)
  {
    hide ParseCmd, Lex, Spells, IsLine;
    LexIff(s, Lex(s));
    LanguageIff(Lex(s), c);
    if ts :| Spells(s, ts) && IsLine(ts, c) {
      LexIff(s, ts);
    }
  }

  // ---------------------------------------------------------------- words in the line

  /** A word by its place in the line: q to eq, the pointers of gettoken. */
  datatype Span = Span(q: nat, eq: nat)

  datatype Outcome = Good(cmd: Cmd<Span>) | Bad(error: Error)

  /** A whole word of the line. */
  predicate SpanOk(line: string, sp: Span) {
    && sp.q < sp.eq <= |line|
    && (forall i :: sp.q <= i < sp.eq ==> WordChar(line[i]))
    && (sp.eq < |line| ==> !WordChar(line[sp.eq]))
  }

  function SpanText(line: string, sp: Span): string {
    if sp.q <= sp.eq <= |line| then line[sp.q..sp.eq] else ""
  }

  function Texts(line: string, sps: seq<Span>): (r: seq<string>)
    ensures |r| == |sps|
  {
    if sps == [] then [] else Texts(line, sps[..|sps| - 1]) + [SpanText(line, sps[|sps| - 1])]
  }

  function TextOf(line: string, c: Cmd<Span>): Cmd<string> {
    match c
    case Exec(argv) => Exec(Texts(line, argv))
    case Redir(d, f, o) => Redir(TextOf(line, d), SpanText(line, f), o)
    case Pipe(l, r) => Pipe(TextOf(line, l), TextOf(line, r))
    case List(l, r) => List(TextOf(line, l), TextOf(line, r))
    case Back(d) => Back(TextOf(line, d))
  }

  function Spans(c: Cmd<Span>): set<Span> {
    match c
    case Exec(argv) => set i | 0 <= i < |argv| :: argv[i]
    case Redir(d, f, _) => Spans(d) + {f}
    case Pipe(l, r) => Spans(l) + Spans(r)
    case List(l, r) => Spans(l) + Spans(r)
    case Back(d) => Spans(d)
  }

  predicate SpansOk(line: string, c: Cmd<Span>) {
    forall sp :: sp in Spans(c) ==> SpanOk(line, sp)
  }

  // One level of each parsing function, for proofs in which it is hidden.

  lemma RedirsStep(c: Cmd<string>, ts: seq<Tok>)
    ensures ParseRedirs(c, ts) ==
      if AtRedir(ts) then
        if |ts| > 1 && ts[1].Word? then ParseRedirs(Redir(c, ts[1].w, ts[0] != Sym('<')), ts[2..]) else Err(MissingFile)
      else Ok(c, ts)
  {
  }

  lemma ArgsStep(c: Cmd<string>, ts: seq<Tok>)
    ensures ParseArgs(c, ts) ==
      if AtStop(ts) then Ok(c, ts)
      else if !ts[0].Word? then Err(Syntax)
      else
        var d := AddWord(c, ts[0].w);
        if Argc(d) >= MAXARGS then Err(TooManyArgs)
        else match ParseRedirs(d, ts[1..])
          case Err(e) => Err(e)
          case Ok(e, rest) => ParseArgs(e, rest)
  {
  }

  lemma PipeStep(ts: seq<Tok>)
    ensures ParsePipe(ts) ==
      match ParseExec(ts)
      case Err(e) => Err(e)
      case Ok(c, rest) =>
        if Starts(rest, '|') then
          match ParsePipe(rest[1..])
          case Err(e) => Err(e)
          case Ok(d, tail) => Ok(Pipe(c, d), tail)
        else Ok(c, rest)
  {
  }

  lemma RedirText(line: string, c: Cmd<Span>, sp: Span, output: bool)
    ensures TextOf(line, Redir(c, sp, output)) == Redir(TextOf(line, c), SpanText(line, sp), output)
    ensures SpansOk(line, c) && SpanOk(line, sp) ==> SpansOk(line, Redir(c, sp, output))
  {
  }

  lemma PipeText(line: string, c: Cmd<Span>, d: Cmd<Span>)
    ensures TextOf(line, Pipe(c, d)) == Pipe(TextOf(line, c), TextOf(line, d))
    ensures SpansOk(line, c) && SpansOk(line, d) ==> SpansOk(line, Pipe(c, d))
  {
  }

  lemma {:induction false} AddWordText(line: string, c: Cmd<Span>, sp: Span)
    ensures TextOf(line, AddWord(c, sp)) == AddWord(TextOf(line, c), SpanText(line, sp))
    ensures Argc(TextOf(line, c)) == Argc(c)
    ensures SpansOk(line, c) && SpanOk(line, sp) ==> SpansOk(line, AddWord(c, sp))
  {
    match c
    case Exec(argv) =>
      assert (argv + [sp])[..|argv|] == argv;
    case Redir(d, _, _) =>
      AddWordText(line, d, sp);
      AddSpans(d, sp);
    case _ =>
  }

  lemma {:induction false} AddSpans(c: Cmd<Span>, sp: Span)
    ensures Spans(AddWord(c, sp)) <= Spans(c) + {sp}
  {
    match c
    case Exec(argv) =>
    case Redir(d, _, _) => AddSpans(d, sp);
    case _ =>
  }

  lemma LexWhite(s: string)
    requires s != "" && White(s[0])
    ensures Lex(s) == Lex(s[1..])
  {
  }

  // ---------------------------------------------------------------- sh.c

  const NUL := 0 as char

  class Parser {
    const buf: array<char>
    /** es: the end of the line, where its NUL is. */
    const es: nat
    /** *ps: the cursor. */
    var s: nat

    ghost predicate Valid()
      reads this, buf
    {
      s <= es < buf.Length && buf[es] == NUL && forall i :: 0 <= i < es ==> buf[i] != NUL
    }

    ghost function Line(): string
      reads this, buf
    {
      if es <= buf.Length then buf[..es] else ""
    }

    /** The tokens from position i on. */
    ghost function From(i: nat): seq<Tok>
      reads this, buf
    {
      if i <= |Line()| then Lex(Line()[i..]) else []
    }

    /** parsecmd up to the call of parseline: es is the string's length. */
    constructor (buf: array<char>, es: nat)
      requires es < buf.Length && buf[es] == NUL && forall i :: 0 <= i < es ==> buf[i] != NUL
      ensures Valid() && this.buf == buf && this.es == es && s == 0
    {
      this.buf, this.es, this.s := buf, es, 0;
    }

    /** The whitespace loops of gettoken and peek. */
    method SkipWhite(from: nat) returns (i: nat)
      requires Valid() && from <= es
      ensures from <= i <= es && From(i) == From(from) && (i < es ==> !White(buf[i]))
    {
      i := from;
      while i < es && White(buf[i])
        invariant from <= i <= es && From(i) == From(from)
      {
        LexWhite(Line()[i..]);
        assert Line()[i..][1..] == Line()[i + 1..];
        i := i + 1;
      }
    }

    /** The word loop of gettoken. */
    method ScanWord(q: nat) returns (i: nat)
      requires Valid() && q < es && WordChar(buf[q])
      ensures q < i <= es && SpanOk(Line(), Span(q, i)) && From(q) == [Word(SpanText(Line(), Span(q, i)))] + From(i)
    {
      hide White, Symbol;
      i := q;
      while i < es && !White(buf[i]) && !Symbol(buf[i])
        invariant q <= i <= es
        invariant forall k :: q <= k < i ==> WordChar(buf[k])
      {
        i := i + 1;
      }
      WordAt(Line(), q, i);
    }

    /** The symbol cases of gettoken. */
    method ScanSymbol(q: nat) returns (t: char, i: nat)
      requires Valid() && q < es && Symbol(buf[q])
      ensures q < i <= es && From(q) == [Sym(t)] + From(i) && t != 'a' && t != NUL
    {
      t, i := buf[q], q + 1;
      ghost var rest := Line()[q..];
      assert rest[0] == t && (|rest| > 1 ==> rest[1] == buf[i]);
      FirstSymbol(rest);
      if t == '>' && buf[i] == '>' {
        assert rest[2..] == Line()[i + 1..];
        t, i := '+', i + 1;
      } else {
        assert rest[1..] == Line()[i..];
      }
    }

    /** gettoken: it returns the first token left and moves past it. */
    method GetToken() returns (t: char, sp: Span)
      requires Valid()
      modifies this`s
      ensures Valid() && old(s) <= s
      ensures var ts := old(From(s));
        if ts == [] then t == NUL && From(s) == []
        else From(s) == ts[1..] && s > old(s) && TokenIs(ts[0], t, sp)
    {
      hide Symbol, White, SpanOk, SpanText;
      var q := SkipWhite(s);
      var i := q;
      if i == es {
        t := NUL;
      } else if Symbol(buf[i]) {
        t, i := ScanSymbol(q);
      } else {
        t := 'a';
        i := ScanWord(q);
      }
      sp := Span(q, i);
      s := SkipWhite(i);
    }

    ghost predicate TokenIs(tok: Tok, t: char, sp: Span)
      reads this, buf
    {
      match tok
      case Word(w) => t == 'a' && SpanOk(Line(), sp) && SpanText(Line(), sp) == w
      case Sym(c) => t == c && t != 'a' && t != NUL
    }

    /** peek: is the next token one of these symbols? */
    method Peek(toks: string) returns (r: bool)
      requires Valid() && forall i :: 0 <= i < |toks| ==> Symbol(toks[i])
      modifies this`s
      ensures Valid() && old(s) <= s && From(s) == old(From(s))
      ensures From(s) == [] ==> !r
      ensures From(s) != [] ==> r == match From(s)[0]
        case Word(_) => false
        case Sym(c) => (if c == '+' then '>' else c) in toks
    {
      s := SkipWhite(s);
      if s == es {
        return false;
      }
      assert Line()[s..][0] == buf[s];
      return buf[s] in toks;
    }
  
    /** The method parsed as the grammar says, and the cursor is at the rest. */
    ghost predicate Agrees(r: Outcome, p: Parsed)
      reads this, buf
    {
      match p
      case Err(e) => r == Bad(e)
      case Ok(c, rest) => r.Good? && TextOf(Line(), r.cmd) == c && SpansOk(Line(), r.cmd) && From(s) == rest
    }

    method ParseRedirections(cmd: Cmd<Span>) returns (r: Outcome)
      requires Valid() && SpansOk(Line(), cmd)
      modifies this`s
      ensures Valid() && old(s) <= s && Agrees(r, ParseRedirs(TextOf(Line(), cmd), old(From(s))))
    {
      hide SpanOk, SpanText, Lex, ParseRedirs, TextOf, SpansOk, White;
      ghost var line, want := Line(), ParseRedirs(TextOf(Line(), cmd), From(s));
      var c := cmd;
      var more := Peek("<>");
      while more
        invariant Valid() && old(s) <= s && SpansOk(line, c)
        invariant more == AtRedir(From(s))
        invariant ParseRedirs(TextOf(line, c), From(s)) == want
        decreases es - s
      {
        ghost var ts := From(s);
        RedirsStep(TextOf(line, c), ts);
        var tok, _ := GetToken();
        var w, sp := GetToken();
        if w != 'a' {
          return Bad(MissingFile);
        }
        assert From(s) == ts[2..];
        RedirText(line, c, sp, tok != '<');
        c := Redir(c, sp, tok != '<');
        more := Peek("<>");
      }
      RedirsStep(TextOf(line, c), From(s));
      return Good(c);
    }

    method ParseArguments(cmd: Cmd<Span>) returns (r: Outcome)
      requires Valid() && SpansOk(Line(), cmd)
      modifies this`s
      ensures Valid() && old(s) <= s && Agrees(r, ParseArgs(TextOf(Line(), cmd), old(From(s))))
    {
      hide SpanOk, SpanText, Lex, ParseRedirs, ParseArgs, AddWord, Argc, TextOf, SpansOk;
      ghost var line, want := Line(), ParseArgs(TextOf(Line(), cmd), From(s));
      var c := cmd;
      var stop := Peek("|)&;");
      while !stop
        invariant Valid() && old(s) <= s && SpansOk(line, c)
        invariant stop == (From(s) != [] && AtStop(From(s)))
        invariant ParseArgs(TextOf(line, c), From(s)) == want
        decreases es - s
      {
        ArgsStep(TextOf(line, c), From(s));
        var tok, sp := GetToken();
        if tok == NUL {
          return Good(c);
        }
        if tok != 'a' {
          return Bad(Syntax);
        }
        AddWordText(line, c, sp);
        c := AddWord(c, sp);
        AddWordText(line, c, sp);
        if Argc(c) >= MAXARGS {
          return Bad(TooManyArgs);
        }
        var d := ParseRedirections(c);
        if d.Bad? {
          return d;
        }
        c := d.cmd;
        stop := Peek("|)&;");
      }
      ArgsStep(TextOf(line, c), From(s));
      return Good(c);
    }
  
    /** parseexec. */
    method ParseSimple() returns (r: Outcome)
      requires Valid()
      modifies this`s
      ensures Valid() && old(s) <= s && Agrees(r, ParseExec(old(From(s))))
      decreases es - s, 1
    {
      hide SpanOk, SpanText, Lex;
      var block := Peek("(");
      if block {
        r := ParseParens();
        return;
      }
      r := ParseRedirections(Exec([]));
      if r.Good? {
        r := ParseArguments(r.cmd);
      }
    }

    /** parseblock. */
    method ParseParens() returns (r: Outcome)
      requires Valid() && Starts(From(s), '(')
      modifies this`s
      ensures Valid() && old(s) <= s && Agrees(r, ParseBlock(old(From(s))))
      decreases es - s, 0
    {
      hide SpanOk, SpanText, Lex;
      var _, _ := GetToken();
      r := ParseWholeLine();
      if r.Bad? {
        return;
      }
      var closed := Peek(")");
      if !closed {
        return Bad(MissingParen);
      }
      var _, _ := GetToken();
      r := ParseRedirections(r.cmd);
    }

    /** parsepipe. */
    method ParsePipeline() returns (r: Outcome)
      requires Valid()
      modifies this`s
      ensures Valid() && old(s) <= s && Agrees(r, ParsePipe(old(From(s))))
      decreases es - s, 2
    {
      hide SpanOk, SpanText, Lex, ParsePipe, ParseExec, TextOf, SpansOk;
      PipeStep(From(s));
      r := ParseSimple();
      if r.Bad? {
        return;
      }
      var more := Peek("|");
      if more {
        var _, _ := GetToken();
        var d := ParsePipeline();
        if d.Bad? {
          return d;
        }
        PipeText(Line(), r.cmd, d.cmd);
        r := Good(Pipe(r.cmd, d.cmd));
      }
    }

    /** The loop of parseline over ampersands. */
    method ParseBacks(cmd: Cmd<Span>) returns (c: Cmd<Span>)
      requires Valid() && SpansOk(Line(), cmd)
      modifies this`s
      ensures Valid() && old(s) <= s && SpansOk(Line(), c) && !Starts(From(s), '&')
      ensures ParseEnds(TextOf(Line(), c), From(s)) == ParseEnds(TextOf(Line(), cmd), old(From(s)))
    {
      hide SpanOk, SpanText, Lex, ParseLine;
      ghost var line, want := Line(), ParseEnds(TextOf(Line(), cmd), From(s));
      c := cmd;
      var back := Peek("&");
      while back
        invariant Valid() && old(s) <= s && SpansOk(line, c)
        invariant back == Starts(From(s), '&')
        invariant ParseEnds(TextOf(line, c), From(s)) == want
        decreases es - s
      {
        var _, _ := GetToken();
        c := Back(c);
        back := Peek("&");
      }
    }

    /** parseline. */
    method ParseWholeLine() returns (r: Outcome)
      requires Valid()
      modifies this`s
      ensures Valid() && old(s) <= s && Agrees(r, ParseLine(old(From(s))))
      decreases es - s, 4
    {
      hide SpanOk, SpanText, Lex, ParsePipe, ParseExec, ParseBlock, ParseArgs, ParseRedirs;
      r := ParsePipeline();
      if r.Bad? {
        return;
      }
      var c := ParseBacks(r.cmd);
      r := Good(c);
      var more := Peek(";");
      if more {
        var _, _ := GetToken();
        var d := ParseWholeLine();
        if d.Bad? {
          return d;
        }
        r := Good(List(c, d.cmd));
      }
    }

    /** nulterminate: a NUL goes right after every word of the command, and nowhere else. */
    method Nulterminate(cmd: Cmd<Span>)
      requires forall sp :: sp in Spans(cmd) ==> sp.eq < buf.Length
      modifies buf
      ensures forall x :: 0 <= x < buf.Length ==> buf[x] == if Ends(cmd, x) then NUL else old(buf[x])
      decreases cmd
    {
      match cmd
      case Exec(argv) =>
        var i := 0;
        while i < |argv|
          invariant 0 <= i <= |argv|
          invariant forall x :: 0 <= x < buf.Length ==>
            buf[x] == if exists k :: 0 <= k < i && argv[k].eq == x then NUL else old(buf[x])
        {
          assert argv[i] in Spans(cmd);
          buf[argv[i].eq] := NUL;
          i := i + 1;
        }
      case Redir(d, file, _) =>
        Nulterminate(d);
        buf[file.eq] := NUL;
      case Pipe(l, r) =>
        Nulterminate(l);
        Nulterminate(r);
      case List(l, r) =>
        Nulterminate(l);
        Nulterminate(r);
      case Back(d) =>
        Nulterminate(d);
    }

    /** parsecmd: the line parses as the grammar says or panics, and afterwards every word
        and file name of the command is a C string in the buffer equal to its token. */
    method ParseCommand() returns (r: Outcome)
      requires Valid() && s == 0
      modifies this`s, buf
      ensures match ParseCmd(Lex(old(buf[..es])))
        case Err(e) => r == Bad(e)
        case Ok(c, _) => r.Good? && TextOf(old(buf[..es]), r.cmd) == c
      ensures r.Good? ==> forall sp :: sp in Spans(r.cmd) ==> CString(buf[..], sp.q, SpanText(old(buf[..es]), sp))
    {
      ghost var line, ts := Line(), From(s);
      assert line[0..] == line;
      r := ParseWholeLine();
      if r.Bad? {
        return;
      }
      s := SkipWhite(s);
      if s != es {
        LexNonempty(Line()[s..]);
        return Bad(Leftovers);
      }
      assert Line()[es..] == "";
      Nulterminate(r.cmd);
      forall sp | sp in Spans(r.cmd) ensures CString(buf[..], sp.q, SpanText(line, sp)) {
        WordKept(line, r.cmd, sp, buf[..]);
      }
    }
  }

  /** Position x is right after a word of the command. */
  ghost predicate Ends(c: Cmd<Span>, x: int) {
    exists sp :: sp in Spans(c) && sp.eq == x
  }

  /** The C string at q is w. */
  predicate CString(b: string, q: nat, w: string) {
    q + |w| < |b| && b[q..q + |w|] == w && b[q + |w|] == NUL && NUL !in w
  }

  /** No word loses a character to another word's NUL. */
  lemma WordKept(line: string, c: Cmd<Span>, sp: Span, b: string)
    requires SpansOk(line, c) && sp in Spans(c) && |b| > |line| && NUL !in line
    requires forall x :: 0 <= x <= |line| ==> b[x] == if Ends(c, x) || x == |line| then NUL else line[x]
    ensures CString(b, sp.q, SpanText(line, sp))
  {
    forall x | sp.q <= x < sp.eq ensures b[x] == line[x] {
      assert WordChar(line[x]);
    }
    assert Ends(c, sp.eq);
    assert b[sp.q..sp.eq] == SpanText(line, sp);
  }

  lemma LexNonempty(s: string)
    requires s != "" && !White(s[0])
    ensures Lex(s) != []
  {
  }

  lemma FullWord(s: string, n: nat)
    requires 0 < n <= |s| && (forall i :: 0 <= i < n ==> WordChar(s[i])) && (n < |s| ==> !WordChar(s[n]))
    ensures Lex(s) == [Word(s[..n])] + Lex(s[n..])
  {
    WordLenIs(s, n);
    assert WordChar(s[0]);
  }

  lemma WordAt(line: string, q: nat, i: nat)
    requires q < i <= |line| && (forall k :: q <= k < i ==> WordChar(line[k])) && (i < |line| ==> !WordChar(line[i]))
    ensures SpanOk(line, Span(q, i)) && Lex(line[q..]) == [Word(SpanText(line, Span(q, i)))] + Lex(line[i..])
  {
    FullWord(line[q..], i - q);
    assert line[q..][..i - q] == line[q..i] && line[q..][i - q..] == line[i..];
  }

  lemma FirstSymbol(s: string)
    requires s != "" && Symbol(s[0])
    ensures Lex(s) ==
      if s[0] == '>' && |s| > 1 && s[1] == '>' then [Sym('+')] + Lex(s[2..]) else [Sym(s[0])] + Lex(s[1..])
  {
  }
}
