/** The shell's tokens and grammar (sh.c) as functions of the input line.  A line is a
    C string: it has no NUL, and position |s| holds the terminator. */
module ShellSpec {
  const NUL := '\0'
  const MAXARGS := 10

  predicate IsSpace(c: char) {
    c == ' ' || c == '\t' || c == '\r' || c == '\n' || c == '\U{000B}'
  }

  predicate IsSymbol(c: char) {
    c == '<' || c == '|' || c == '>' || c == '&' || c == ';' || c == '(' || c == ')'
  }

  predicate IsWord(c: char) {
    !IsSpace(c) && !IsSymbol(c) && c != NUL
  }

  predicate Line(s: string) {
    forall k :: 0 <= k < |s| ==> s[k] != NUL
  }

  // ---- tokens ----

  function Skip(s: string, i: nat): (j: nat)
    requires i <= |s|
    ensures i <= j <= |s|
    ensures j < |s| ==> !IsSpace(s[j])
    ensures forall k :: i <= k < j ==> IsSpace(s[k])
    decreases |s| - i
  {
    if i < |s| && IsSpace(s[i]) then Skip(s, i + 1) else i
  }

  function WordEnd(s: string, i: nat): (j: nat)
    requires i <= |s|
    ensures i <= j <= |s|
    ensures j < |s| ==> IsSpace(s[j]) || IsSymbol(s[j])
    ensures forall k :: i <= k < j ==> !IsSpace(s[k]) && !IsSymbol(s[k])
    decreases |s| - i
  {
    if i < |s| && !IsSpace(s[i]) && !IsSymbol(s[i]) then WordEnd(s, i + 1) else i
  }

  /** A token: its kind ('a' for a word, '+' for >>, NUL at the end), its extent, and
      where the next one begins. */
  datatype Token = Token(kind: char, q: nat, eq: nat, next: nat)

  function TokenKind(s: string, q: nat): (r: (char, nat))
    requires q <= |s| && (q < |s| ==> !IsSpace(s[q]))
    ensures q <= r.1 <= |s|
    ensures r.0 != NUL ==> q < r.1
  {
    if q == |s| then (NUL, q)
    else if s[q] == '>' then if q + 1 < |s| && s[q + 1] == '>' then ('+', q + 2) else ('>', q + 1)
    else if IsSymbol(s[q]) then (s[q], q + 1)
    else if s[q] == NUL then (NUL, q)
    else ('a', WordEnd(s, q))
  }

  function GetToken(s: string, i: nat): (t: Token)
    requires i <= |s|
    ensures i <= t.q <= t.eq <= t.next <= |s|
  {
    var q := Skip(s, i);
    var (kind, eq) := TokenKind(s, q);
    Token(kind, q, eq, Skip(s, eq))
  }

  predicate Peek(s: string, i: nat, toks: set<char>)
    requires i <= |s|
  {
    var j := Skip(s, i);
    j < |s| && s[j] in toks
  }

  /** Every token but the end of the line moves forward. */
  lemma TokenMoves(s: string, i: nat)
    requires Line(s) && i <= |s|
    ensures GetToken(s, i).kind != NUL ==> i < GetToken(s, i).next && GetToken(s, i).q < GetToken(s, i).eq
    ensures GetToken(s, i).kind == NUL <==> Skip(s, i) == |s|
    ensures Skip(s, i) < |s| ==> GetToken(s, i).kind != NUL
  {
  }

  // ---- commands ----

  datatype Span = Span(q: nat, eq: nat)

  datatype File = File(name: Span, out: bool)

  datatype Cmd =
    | Exec(args: seq<Span>)
    | Redir(cmd: Cmd, file: File)
    | Pipe(left: Cmd, right: Cmd)
    | List(left: Cmd, right: Cmd)
    | Back(cmd: Cmd)

  datatype Result = Ok(cmd: Cmd, pos: nat) | Panic

  datatype Redirs = Files(files: seq<File>, pos: nat) | NoFile

  /** Each redirection wraps what is there already. */
  function Wrap(c: Cmd, files: seq<File>): Cmd {
    if files == [] then c else Redir(Wrap(c, files[..|files| - 1]), files[|files| - 1])
  }

  function ParseRedirs(s: string, i: nat, files: seq<File>): (r: Redirs)
    requires Line(s) && i <= |s|
    ensures r.Files? ==> i <= r.pos <= |s|
    decreases |s| - i
  {
    if Peek(s, i, {'<', '>'}) then
      var tok := GetToken(s, i);
      var file := GetToken(s, tok.next);
      if file.kind != 'a' then NoFile
      else
        TokenMoves(s, i);
        ParseRedirs(s, file.next, files + [File(Span(file.q, file.eq), tok.kind != '<')])
    else Files(files, Skip(s, i))
  }

  function ParseArgs(s: string, i: nat, args: seq<Span>, files: seq<File>): (r: Result)
    requires Line(s) && i <= |s|
    ensures r.Ok? ==> i <= r.pos <= |s|
    decreases |s| - i
  {
    if Peek(s, i, {'|', ')', '&', ';'}) then Ok(Wrap(Exec(args), files), Skip(s, i))
    else
      var tok := GetToken(s, i);
      if tok.kind == NUL then Ok(Wrap(Exec(args), files), tok.next)
      else if tok.kind != 'a' then Panic
      else if |args| + 1 >= MAXARGS then Panic
      else
        TokenMoves(s, i);
        var r := ParseRedirs(s, tok.next, files);
        if r.NoFile? then Panic else ParseArgs(s, r.pos, args + [Span(tok.q, tok.eq)], r.files)
  }

  function ParseExec(s: string, i: nat): (r: Result)
    requires Line(s) && i <= |s|
    ensures r.Ok? ==> i <= r.pos <= |s|
    decreases |s| - i, 1
  {
    if Peek(s, i, {'('}) then ParseBlock(s, Skip(s, i))
    else
      var r := ParseRedirs(s, i, []);
      if r.NoFile? then Panic else ParseArgs(s, r.pos, [], r.files)
  }

  function ParseBlock(s: string, i: nat): (r: Result)
    requires Line(s) && i <= |s|
    ensures r.Ok? ==> i <= r.pos <= |s|
    decreases |s| - i, 0
  {
    if !Peek(s, i, {'('}) then Panic
    else
      TokenMoves(s, i);
      var line := ParseLine(s, GetToken(s, i).next);
      if line.Panic? || !Peek(s, line.pos, {')'}) then Panic
      else
        var r := ParseRedirs(s, GetToken(s, line.pos).next, []);
        if r.NoFile? then Panic else Ok(Wrap(line.cmd, r.files), r.pos)
  }

  function ParsePipe(s: string, i: nat): (r: Result)
    requires Line(s) && i <= |s|
    ensures r.Ok? ==> i <= r.pos <= |s|
    decreases |s| - i, 2
  {
    var left := ParseExec(s, i);
    if left.Panic? then Panic
    else if Peek(s, left.pos, {'|'}) then
      TokenMoves(s, left.pos);
      var right := ParsePipe(s, GetToken(s, left.pos).next);
      if right.Panic? then Panic else Ok(Pipe(left.cmd, right.cmd), right.pos)
    else Ok(left.cmd, Skip(s, left.pos))
  }

  function Backs(s: string, i: nat, c: Cmd): (r: (Cmd, nat))
    requires Line(s) && i <= |s|
    ensures i <= r.1 <= |s|
    decreases |s| - i
  {
    if Peek(s, i, {'&'}) then
      TokenMoves(s, i);
      Backs(s, GetToken(s, i).next, Back(c))
    else (c, Skip(s, i))
  }

  function ParseLine(s: string, i: nat): (r: Result)
    requires Line(s) && i <= |s|
    ensures r.Ok? ==> i <= r.pos <= |s|
    decreases |s| - i, 3
  {
    var first := ParsePipe(s, i);
    if first.Panic? then Panic
    else
      var (c, j) := Backs(s, first.pos, first.cmd);
      if Peek(s, j, {';'}) then
        TokenMoves(s, j);
        var rest := ParseLine(s, GetToken(s, j).next);
        if rest.Panic? then Panic else Ok(List(c, rest.cmd), rest.pos)
      else Ok(c, Skip(s, j))
  }

  /** parsecmd without its last step: the whole line must be used up. */
  function ParseCmd(s: string): (r: Result)
    requires Line(s)
    ensures r.Ok? ==> r.pos == |s|
  {
    var r := ParseLine(s, 0);
    if r.Panic? || Skip(s, r.pos) != |s| then Panic else Ok(r.cmd, |s|)
  }
}
