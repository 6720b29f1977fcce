/** The shell's parser (sh.c) over a line buffer: the cursor loops, the recursive
    descent, and the terminators written into the buffer afterwards. */
module Shell {
  import opened ShellSpec
  import opened ShellPrint
  import G = ShellGrammar

  class Parser {
    const buf: array<char>
    const es: nat                // the end of the line, where the NUL is
    var pos: nat                 // *ps

    ghost predicate Ok()
      reads this, buf
    {
      es < buf.Length && buf[es] == NUL && Line(S()) && pos <= es
    }

    ghost function S(): (s: string)
      requires es < buf.Length
      reads buf
      ensures |s| == es && forall k :: 0 <= k < es ==> s[k] == buf[k]
    {
      buf[..es]
    }

    method SkipSpaces()
      requires Ok()
      modifies this`pos
      ensures Ok() && pos == Skip(S(), old(pos))
    {
      while pos < es && IsSpace(buf[pos])
        invariant Ok() && Skip(S(), pos) == Skip(S(), old(pos))
        decreases es - pos
      {
        pos := pos + 1;
      }
    }

    method SkipWord()
      requires Ok()
      modifies this`pos
      ensures Ok() && pos == WordEnd(S(), old(pos))
    {
      while pos < es && !IsSpace(buf[pos]) && !IsSymbol(buf[pos])
        invariant Ok() && WordEnd(S(), pos) == WordEnd(S(), old(pos))
        decreases es - pos
      {
        pos := pos + 1;
      }
    }

    method NextToken() returns (t: Token)
      requires Ok()
      modifies this`pos
      ensures Ok() && t == GetToken(S(), old(pos)) && pos == t.next
    {
      hide Skip, WordEnd;
      SkipSpaces();
      var q, kind := pos, buf[pos];
      if kind == NUL {
      } else if kind == '>' {
        pos := pos + 1;
        if buf[pos] == '>' {
          kind := '+';
          pos := pos + 1;
        }
      } else if IsSymbol(kind) {
        pos := pos + 1;
      } else {
        kind := 'a';
        SkipWord();
      }
      var eq := pos;
      SkipSpaces();
      t := Token(kind, q, eq, pos);
    }

    method Sees(toks: set<char>) returns (yes: bool)
      requires Ok() && NUL !in toks
      modifies this`pos
      ensures Ok() && yes == Peek(S(), old(pos), toks) && pos == Skip(S(), old(pos))
    {
      SkipSpaces();
      yes := buf[pos] != NUL && buf[pos] in toks;
    }

    method Redirections(start: seq<File>) returns (r: Redirs)
      requires Ok()
      modifies this`pos
      ensures Ok() && r == ParseRedirs(S(), old(pos), start) && (r.Files? ==> pos == r.pos)
    {
      hide GetToken, Skip, WordEnd;
      var files := start;
      var more := Sees({'<', '>'});
      ghost var i := old(pos);
      while more
        invariant Ok() && i <= es && pos == Skip(S(), i) && more == Peek(S(), i, {'<', '>'})
        invariant ParseRedirs(S(), i, files) == ParseRedirs(S(), old(pos), start)
        decreases es - i
      {
        SkipTwice(S(), i);
        TokenMoves(S(), i);
        var tok := NextToken();
        var name := NextToken();
        if name.kind != 'a' {
          return NoFile;
        }
        files := files + [File(Span(name.q, name.eq), tok.kind != '<')];
        i := pos;
        more := Sees({'<', '>'});
      }
      return Files(files, pos);
    }

    method Arguments(start: seq<File>) returns (r: Result)
      requires Ok()
      modifies this`pos
      ensures Ok() && r == ParseArgs(S(), old(pos), [], start) && (r.Ok? ==> pos == r.pos)
    {
      hide GetToken, Skip, WordEnd, ParseRedirs;
      var args, files := [], start;
      ghost var i := old(pos);
      var stop := Sees({'|', ')', '&', ';'});
      while !stop
        invariant Ok() && i <= es && pos == Skip(S(), i) && stop == Peek(S(), i, {'|', ')', '&', ';'})
        invariant ParseArgs(S(), i, args, files) == ParseArgs(S(), old(pos), [], start)
        decreases es - i
      {
        SkipTwice(S(), i);
        TokenMoves(S(), i);
        var tok := NextToken();
        if tok.kind == NUL {
          break;
        }
        if tok.kind != 'a' {
          return Panic;
        }
        if |args| + 1 >= MAXARGS {
          return Panic;
        }
        var redirs := Redirections(files);
        if redirs.NoFile? {
          return Panic;
        }
        args, files := args + [Span(tok.q, tok.eq)], redirs.files;
        i := pos;
        stop := Sees({'|', ')', '&', ';'});
      }
      return Result.Ok(Wrap(Exec(args), files), pos);
    }

    method Command() returns (r: Result)
      requires Ok()
      modifies this`pos
      ensures Ok() && r == ParseExec(S(), old(pos)) && (r.Ok? ==> pos == r.pos)
      decreases es - pos, 1
    {
      hide GetToken, Skip, WordEnd, ParseRedirs, ParseArgs, Peek;
      ghost var i := pos;
      var block := Sees({'('});
      if block {
        r := Block();
        return;
      }
      RedirsSkip(S(), i, []);
      var redirs := Redirections([]);
      if redirs.NoFile? {
        return Panic;
      }
      r := Arguments(redirs.files);
    }

    method Block() returns (r: Result)
      requires Ok()
      modifies this`pos
      ensures Ok() && r == ParseBlock(S(), old(pos)) && (r.Ok? ==> pos == r.pos)
      decreases es - pos, 0
    {
      hide GetToken, Skip, WordEnd, ParseRedirs, ParseLine, Peek;
      ghost var i := pos;
      var open := Sees({'('});
      if !open {
        return Panic;
      }
      SkipTwice(S(), i);
      PeekMoves(S(), i, {'('});
      var tok := NextToken();
      var line := CommandLine();
      if line.Panic? {
        return Panic;
      }
      i := pos;
      var close := Sees({')'});
      if !close {
        return Panic;
      }
      SkipTwice(S(), i);
      tok := NextToken();
      var redirs := Redirections([]);
      if redirs.NoFile? {
        return Panic;
      }
      return Result.Ok(Wrap(line.cmd, redirs.files), pos);
    }

    method Pipeline() returns (r: Result)
      requires Ok()
      modifies this`pos
      ensures Ok() && r == ParsePipe(S(), old(pos)) && (r.Ok? ==> pos == r.pos)
      ensures r.Ok? ==> G.PipeFrom(S(), old(pos), pos, Means(S(), r.cmd))
      decreases es - pos, 2
    {
      hide GetToken, Skip, WordEnd, ParseExec, Peek, G.PipeFrom, Means;
      G.PipeFound(S(), pos);
      r := Command();
      if r.Panic? {
        return;
      }
      ghost var i := pos;
      var more := Sees({'|'});
      if more {
        SkipTwice(S(), i);
        PeekMoves(S(), i, {'|'});
        var tok := NextToken();
        var right := Pipeline();
        if right.Panic? {
          return Panic;
        }
        return Result.Ok(Pipe(r.cmd, right.cmd), pos);
      }
      return Result.Ok(r.cmd, pos);
    }

    method CommandLine() returns (r: Result)
      requires Ok()
      modifies this`pos
      ensures Ok() && r == ParseLine(S(), old(pos)) && (r.Ok? ==> pos == r.pos)
      decreases es - pos, 3
    {
      hide GetToken, Skip, WordEnd, ParsePipe, Peek;
      var first := Pipeline();
      if first.Panic? {
        return Panic;
      }
      var c := Background(first.cmd);
      ghost var i := pos;
      var more := Sees({';'});
      if more {
        SkipTwice(S(), i);
        PeekMoves(S(), i, {';'});
        var tok := NextToken();
        var rest := CommandLine();
        if rest.Panic? {
          return Panic;
        }
        return Result.Ok(List(c, rest.cmd), pos);
      }
      return Result.Ok(c, pos);
    }

    method Background(c: Cmd) returns (r: Cmd)
      requires Ok()
      modifies this`pos
      ensures Ok() && (r, pos) == Backs(S(), old(pos), c)
    {
      hide GetToken, Skip, WordEnd, Peek;
      r := c;
      ghost var i := pos;
      var more := Sees({'&'});
      while more
        invariant Ok() && i <= es && pos == Skip(S(), i) && more == Peek(S(), i, {'&'})
        invariant Backs(S(), i, r) == Backs(S(), old(pos), c)
        decreases es - i
      {
        SkipTwice(S(), i);
        PeekMoves(S(), i, {'&'});
        var tok := NextToken();
        r := Back(r);
        i := pos;
        more := Sees({'&'});
      }
    }

    /** parsecmd: the whole line is parsed to the one tree that the grammar derives from it, or
        the shell gives up because there is none; then every word and file name of the
        command is terminated in place, and reads as it was written. */
    method ParseCommand() returns (r: Result)
      requires Ok() && pos == 0
      modifies this`pos, buf
      ensures es < buf.Length && r == ParseCmd(old(S()))
      ensures forall t :: G.Derives(old(S()), t) <==> r.Ok? && t == Means(old(S()), r.cmd)
      ensures r.Panic? ==> buf[..] == old(buf[..])
      ensures r.Ok? ==> forall w :: w in Spans(r.cmd) ==>
        w.q <= w.eq <= es && ReadsAs(buf[..], w.q, old(S())[w.q..w.eq])
    {
      hide ParseLine, G.Derives, Means;
      ghost var s := S();
      forall t ensures G.Derives(s, t) <==> ParseCmd(s).Ok? && t == Means(s, ParseCmd(s).cmd) {
        G.ParserIsGrammar(s, t);
      }
      r := CommandLine();
      if r.Panic? {
        return;
      }
      var c := r.cmd;
      SkipSpaces();
      if pos != es {
        return Panic;
      }
      LineWords(s, 0);
      SpansFit(s, c);
      ghost var before := buf[..];
      NulTerminate(buf, c);
      forall w | w in Spans(c) ensures w.q <= w.eq <= es && ReadsAs(buf[..], w.q, s[w.q..w.eq]) {
        Terminated(s, c, before, buf[..], w);
      }
      return Result.Ok(c, es);
    }
  }

  /** Looking ahead first makes no difference to the next token. */
  lemma SkipTwice(s: string, i: nat)
    requires i <= |s|
    ensures GetToken(s, Skip(s, i)) == GetToken(s, i)
  {
    assert Skip(s, Skip(s, i)) == Skip(s, i);
  }

  lemma PeekMoves(s: string, i: nat, toks: set<char>)
    requires Line(s) && i <= |s| && Peek(s, i, toks)
    ensures i < GetToken(s, i).next
  {
    TokenMoves(s, i);
  }

  lemma RedirsSkip(s: string, i: nat, files: seq<File>)
    requires Line(s) && i <= |s|
    ensures ParseRedirs(s, Skip(s, i), files) == ParseRedirs(s, i, files)
  {
    assert Skip(s, Skip(s, i)) == Skip(s, i);
  }

  // ---- the words of a command ----

  ghost function Spans(c: Cmd): set<Span> {
    match c
    case Exec(args) => set w | w in args
    case Redir(c1, f) => Spans(c1) + {f.name}
    case Pipe(l, r) => Spans(l) + Spans(r)
    case List(l, r) => Spans(l) + Spans(r)
    case Back(c1) => Spans(c1)
  }

  /** A whole word of the line: it could not be longer on the right. */
  ghost predicate WordSpan(s: string, w: Span) {
    w.q < w.eq <= |s| && (forall k :: w.q <= k < w.eq ==> IsWord(s[k])) && (w.eq < |s| ==> !IsWord(s[w.eq]))
  }

  ghost predicate AllWords(s: string, c: Cmd) {
    Few(c) && forall w :: w in Spans(c) ==> WordSpan(s, w)
  }

  /** No simple command has MAXARGS words. */
  ghost predicate Few(c: Cmd) {
    match c
    case Exec(args) => |args| < MAXARGS
    case Redir(c1, _) => Few(c1)
    case Pipe(l, r) => Few(l) && Few(r)
    case List(l, r) => Few(l) && Few(r)
    case Back(c1) => Few(c1)
  }

  ghost predicate FileSpans(s: string, files: seq<File>) {
    forall k :: 0 <= k < |files| ==> WordSpan(s, files[k].name)
  }

  ghost predicate ArgSpans(s: string, args: seq<Span>) {
    forall k :: 0 <= k < |args| ==> WordSpan(s, args[k])
  }

  lemma TokenWord(s: string, i: nat)
    requires Line(s) && i <= |s| && GetToken(s, i).kind == 'a'
    ensures WordSpan(s, Span(GetToken(s, i).q, GetToken(s, i).eq))
  {
  }

  lemma {:induction false} WrapWords(s: string, c: Cmd, files: seq<File>)
    requires AllWords(s, c) && FileSpans(s, files)
    ensures AllWords(s, Wrap(c, files))
    decreases |files|
  {
    if files != [] {
      WrapWords(s, c, files[..|files| - 1]);
    }
  }

  lemma {:induction false} RedirWords(s: string, i: nat, files: seq<File>)
    requires Line(s) && i <= |s| && FileSpans(s, files) && ParseRedirs(s, i, files).Files?
    ensures FileSpans(s, ParseRedirs(s, i, files).files)
    decreases |s| - i
  {
    hide GetToken, Skip, WordEnd, WordSpan;
    if Peek(s, i, {'<', '>'}) {
      var tok := GetToken(s, i);
      var file := GetToken(s, tok.next);
      TokenMoves(s, i);
      PeekMoves(s, i, {'<', '>'});
      TokenWord(s, tok.next);
      RedirWords(s, file.next, files + [File(Span(file.q, file.eq), tok.kind != '<')]);
    }
  }

  lemma {:induction false} ArgWords(s: string, i: nat, args: seq<Span>, files: seq<File>)
    requires Line(s) && i <= |s| && ArgSpans(s, args) && |args| < MAXARGS && FileSpans(s, files)
    requires ParseArgs(s, i, args, files).Ok?
    ensures AllWords(s, ParseArgs(s, i, args, files).cmd)
    decreases |s| - i
  {
    hide GetToken, Skip, WordEnd, WordSpan, ParseRedirs;
    WrapWords(s, Exec(args), files);
    if !Peek(s, i, {'|', ')', '&', ';'}) && GetToken(s, i).kind != NUL {
      var tok := GetToken(s, i);
      TokenMoves(s, i);
      TokenWord(s, i);
      RedirWords(s, tok.next, files);
      var r := ParseRedirs(s, tok.next, files);
      ArgWords(s, r.pos, args + [Span(tok.q, tok.eq)], r.files);
    }
  }

  lemma {:induction false} ExecWords(s: string, i: nat)
    requires Line(s) && i <= |s| && ParseExec(s, i).Ok?
    ensures AllWords(s, ParseExec(s, i).cmd)
    decreases |s| - i, 1
  {
    hide GetToken, Skip, WordEnd, WordSpan, ParseRedirs, ParseArgs, AllWords, ParseBlock;
    if Peek(s, i, {'('}) {
      BlockWords(s, Skip(s, i));
    } else {
      RedirWords(s, i, []);
      ArgWords(s, ParseRedirs(s, i, []).pos, [], ParseRedirs(s, i, []).files);
    }
  }

  lemma {:induction false} BlockWords(s: string, i: nat)
    requires Line(s) && i <= |s| && ParseBlock(s, i).Ok?
    ensures AllWords(s, ParseBlock(s, i).cmd)
    decreases |s| - i, 0
  {
    hide GetToken, Skip, WordEnd, WordSpan, ParseRedirs, ParseLine, AllWords;
    PeekMoves(s, i, {'('});
    var line := ParseLine(s, GetToken(s, i).next);
    LineWords(s, GetToken(s, i).next);
    RedirWords(s, GetToken(s, line.pos).next, []);
    WrapWords(s, line.cmd, ParseRedirs(s, GetToken(s, line.pos).next, []).files);
  }

  lemma {:induction false} PipeWords(s: string, i: nat)
    requires Line(s) && i <= |s| && ParsePipe(s, i).Ok?
    ensures AllWords(s, ParsePipe(s, i).cmd)
    decreases |s| - i, 2
  {
    hide GetToken, Skip, WordEnd, WordSpan, ParseExec;
    ExecWords(s, i);
    var left := ParseExec(s, i);
    if Peek(s, left.pos, {'|'}) {
      PeekMoves(s, left.pos, {'|'});
      PipeWords(s, GetToken(s, left.pos).next);
    }
  }

  lemma {:induction false} BackWords(s: string, i: nat, c: Cmd)
    requires Line(s) && i <= |s| && AllWords(s, c)
    ensures AllWords(s, Backs(s, i, c).0)
    decreases |s| - i
  {
    hide GetToken, Skip, WordEnd, WordSpan;
    if Peek(s, i, {'&'}) {
      PeekMoves(s, i, {'&'});
      BackWords(s, GetToken(s, i).next, Back(c));
    }
  }

  /** Every word in a parsed command is a whole word of the line. */
  lemma {:induction false} LineWords(s: string, i: nat)
    requires Line(s) && i <= |s| && ParseLine(s, i).Ok?
    ensures AllWords(s, ParseLine(s, i).cmd)
    decreases |s| - i, 3
  {
    hide GetToken, Skip, WordEnd, WordSpan, ParsePipe, Backs;
    PipeWords(s, i);
    var first := ParsePipe(s, i);
    BackWords(s, first.pos, first.cmd);
    var (c, j) := Backs(s, first.pos, first.cmd);
    if Peek(s, j, {';'}) {
      PeekMoves(s, j, {';'});
      LineWords(s, GetToken(s, j).next);
    }
  }

  // ---- what the parser can produce ----

  lemma WordText(s: string, w: Span)
    requires WordSpan(s, w)
    ensures Word(Text(s, w))
  {
    assert forall k :: 0 <= k < w.eq - w.q ==> s[w.q..w.eq][k] == s[w.q + k];
  }

  lemma {:induction false} WordsLegal(s: string, c: Cmd)
    requires AllWords(s, c)
    ensures Legal(Means(s, c))
    decreases c
  {
    hide WordSpan, Word, Text;
    match c
    case Exec(args) =>
      forall k | 0 <= k < |args|
        ensures Word(Texts(s, args)[k])
      {
        assert args[k] in Spans(c);
        WordText(s, args[k]);
      }
    case Redir(c1, f) =>
      assert f.name in Spans(c);
      WordText(s, f.name);
      WordsLegal(s, c1);
    case Pipe(l, r) =>
      WordsLegal(s, l);
      WordsLegal(s, r);
    case List(l, r) =>
      WordsLegal(s, l);
      WordsLegal(s, r);
    case Back(c1) =>
      WordsLegal(s, c1);
  }

  /** The tree of every line that parses is legal. */
  lemma ParsedLegal(s: string)
    requires Line(s) && ParseCmd(s).Ok?
    ensures Legal(Means(s, ParseCmd(s).cmd))
  {
    LineWords(s, 0);
    WordsLegal(s, ParseCmd(s).cmd);
  }

  /** What the parser can produce is exactly the legal trees. */
  lemma ParserImage(t: Tree)
    ensures Legal(t) <==> exists s :: Line(s) && ParseCmd(s).Ok? && Means(s, ParseCmd(s).cmd) == t
  {
    hide Legal, ParseCmd, Means, Line;
    if Legal(t) {
      var c := RoundTrip(t);
      assert ParseCmd(Print(t)).cmd == c;
    }
    if s :| Line(s) && ParseCmd(s).Ok? && Means(s, ParseCmd(s).cmd) == t {
      ParsedLegal(s);
    }
  }

  // ---- terminators ----

  ghost predicate EndOf(c: Cmd, k: nat) {
    exists w :: w in Spans(c) && w.eq == k
  }

  ghost predicate SpansIn(c: Cmd, n: nat) {
    forall w :: w in Spans(c) ==> w.eq < n
  }

  /** nulterminate: a NUL after every word of the command, and nowhere else. */
  method NulTerminate(buf: array<char>, c: Cmd)
    requires SpansIn(c, buf.Length)
    modifies buf
    ensures forall k :: 0 <= k < buf.Length ==> buf[k] == if EndOf(c, k) then NUL else old(buf[k])
    decreases c
  {
    match c {
      case Exec(args) =>
        var i := 0;
        while i < |args|
          invariant i <= |args|
          invariant forall k :: 0 <= k < buf.Length ==> buf[k] == if ArgEnd(args[..i], k) then NUL else old(buf[k])
        {
          assert args[i] in Spans(c);
          ArgEndStep(args, i, buf.Length);
          buf[args[i].eq] := NUL;
          i := i + 1;
        }
        assert args[..i] == args;
        ExecEnds(args, buf.Length);
      case Redir(c1, f) =>
        assert f.name in Spans(c);
        NulTerminate(buf, c1);
        buf[f.name.eq] := NUL;
        RedirEnds(c1, f, buf.Length);
      case Pipe(l, r) =>
        NulTerminate(buf, l);
        NulTerminate(buf, r);
        PairEnds(l, r, buf.Length);
      case List(l, r) =>
        NulTerminate(buf, l);
        NulTerminate(buf, r);
        PairEnds(l, r, buf.Length);
      case Back(c1) =>
        NulTerminate(buf, c1);
        assert forall k: nat :: EndOf(c, k) <==> EndOf(c1, k);
    }
  }

  ghost predicate ArgEnd(args: seq<Span>, k: nat) {
    exists i :: 0 <= i < |args| && args[i].eq == k
  }

  lemma ArgEndStep(args: seq<Span>, i: nat, n: nat)
    requires i < |args|
    ensures forall k: nat :: k < n ==> (ArgEnd(args[..i + 1], k) <==> ArgEnd(args[..i], k) || args[i].eq == k)
  {
    forall k: nat | k < n ensures ArgEnd(args[..i + 1], k) <==> ArgEnd(args[..i], k) || args[i].eq == k {
      if ArgEnd(args[..i], k) {
        var j :| 0 <= j < i && args[..i][j].eq == k;
        assert args[..i + 1][j].eq == k;
      }
      if args[i].eq == k {
        assert args[..i + 1][i].eq == k;
      }
    }
  }

  lemma ExecEnds(args: seq<Span>, n: nat)
    ensures forall k: nat :: k < n ==> (ArgEnd(args, k) <==> EndOf(Exec(args), k))
  {
    forall k: nat | k < n ensures ArgEnd(args, k) <==> EndOf(Exec(args), k) {
      if ArgEnd(args, k) {
        var i :| 0 <= i < |args| && args[i].eq == k;
        assert args[i] in Spans(Exec(args));
      }
    }
  }

  lemma RedirEnds(c: Cmd, f: File, n: nat)
    ensures forall k: nat :: k < n ==> (EndOf(Redir(c, f), k) <==> EndOf(c, k) || f.name.eq == k)
  {
    forall k: nat | k < n ensures EndOf(Redir(c, f), k) <==> EndOf(c, k) || f.name.eq == k {
      assert f.name in Spans(Redir(c, f));
    }
  }

  lemma PairEnds(l: Cmd, r: Cmd, n: nat)
    ensures forall k: nat :: k < n ==> (EndOf(Pipe(l, r), k) <==> EndOf(l, k) || EndOf(r, k))
    ensures forall k: nat :: k < n ==> (EndOf(List(l, r), k) <==> EndOf(l, k) || EndOf(r, k))
  {
  }

  lemma SpansFit(s: string, c: Cmd)
    requires AllWords(s, c)
    ensures SpansIn(c, |s| + 1)
  {
  }

  /** The C string at q is exactly this text. */
  ghost predicate ReadsAs(b: seq<char>, q: nat, text: string) {
    q + |text| < |b| && b[q..q + |text|] == text && b[q + |text|] == NUL && NUL !in text
  }

  lemma NotEnd(s: string, c: Cmd, k: nat)
    requires AllWords(s, c) && k < |s| && IsWord(s[k])
    ensures !EndOf(c, k)
  {
    assert forall x :: x in Spans(c) && x.eq < |s| ==> !IsWord(s[x.eq]);
  }

  /** No terminator lands inside another word. */
  lemma Terminated(s: string, c: Cmd, before: seq<char>, after: seq<char>, w: Span)
    requires Line(s) && AllWords(s, c) && |s| < |before| == |after| && before[..|s|] == s && w in Spans(c)
    requires forall k :: 0 <= k < |after| ==> after[k] == if EndOf(c, k) then NUL else before[k]
    ensures w.q <= w.eq <= |s| && ReadsAs(after, w.q, s[w.q..w.eq])
  {
    assert WordSpan(s, w);
    forall k | w.q <= k < w.eq ensures after[k] == s[k] {
      NotEnd(s, c, k);
      assert before[..|s|][k] == before[k];
    }
    assert EndOf(c, w.eq);
  }
}
