/** The shell's language as a grammar on lexemes, and the proof that the parser of sh.c
    accepts exactly that language and builds exactly the trees the grammar gives. */
module ShellGrammar {
  import opened ShellSpec
  import opened ShellPrint

  // ---- lexemes ----

  /** A word, or one of < > | & ; ( ) and + for >>. */
  datatype Lexeme = Name(text: string) | Symbol(c: char)

  function Spelling(l: Lexeme): string {
    match l
    case Name(text) => text
    case Symbol(c) => if c == '+' then ">>" else [c]
  }

  /** Positions a..b of the line hold lexeme l, with nothing but white space between i and a.
      Words and >> are as long as can be. */
  ghost predicate Lexes(s: string, i: nat, a: nat, b: nat, l: Lexeme) {
    && i <= a <= b <= |s| && (forall k :: i <= k < a ==> IsSpace(s[k])) && s[a..b] == Spelling(l)
    && match l
       case Name(text) => Word(text) && (b < |s| ==> !IsWord(s[b]))
       case Symbol(c) => (IsSymbol(c) || c == '+') && (c == '>' && b < |s| ==> s[b] != '>')
  }

  /** From position i on the line spells the lexemes. */
  ghost predicate Spells(s: string, i: nat, ls: seq<Lexeme>)
    decreases |ls|
  {
    if ls == [] then i <= |s| && forall k :: i <= k < |s| ==> IsSpace(s[k])
    else exists a: nat, b: nat :: Lexes(s, i, a, b, ls[0]) && Spells(s, b, ls[1..])
  }

  // ---- the grammar ----

  predicate IsSign(l: Lexeme) {
    l == Symbol('<') || l == Symbol('>') || l == Symbol('+')
  }

  /** Words and redirections in any order. */
  ghost predicate Simple(ls: seq<Lexeme>, words: seq<string>, files: seq<OutFile>)
    decreases |ls|
  {
    if ls == [] then words == [] && files == []
    else if ls[0].Name? then words != [] && words[0] == ls[0].text && Simple(ls[1..], words[1..], files)
    else
      && |ls| >= 2 && IsSign(ls[0]) && ls[1].Name?
      && files != [] && files[0] == OutFile(ls[1].text, ls[0] != Symbol('<')) && Simple(ls[2..], words, files[1..])
  }

  /** A command: its words are the arguments, and each redirection wraps those before it. */
  ghost predicate IsExec(ls: seq<Lexeme>, t: Tree) {
    Core(t).TExec? && |Core(t).args| < MAXARGS && Simple(ls, Core(t).args, Tails(t))
  }

  /** A line in parentheses, with redirections behind it. */
  ghost predicate IsBlock(ls: seq<Lexeme>, t: Tree)
    decreases |ls|, 1
  {
    exists k: nat, inner: Tree, files: seq<OutFile> :: BlockOf(ls, t, k, inner, files)
  }

  ghost predicate BlockOf(ls: seq<Lexeme>, t: Tree, k: nat, inner: Tree, files: seq<OutFile>)
    decreases |ls|, 0
  {
    && 0 < k < |ls| && ls[0] == Symbol('(') && ls[k] == Symbol(')') && t == Rewrap(inner, files)
    && IsLine(ls[1..k], inner) && Simple(ls[k + 1..], [], files)
  }

  ghost predicate IsUnit(ls: seq<Lexeme>, t: Tree)
    decreases |ls|, 2
  {
    IsExec(ls, t) || IsBlock(ls, t)
  }

  /** Pipelines associate to the right. */
  ghost predicate IsPipe(ls: seq<Lexeme>, t: Tree)
    decreases |ls|, 4
  {
    IsUnit(ls, t) || exists k: nat :: PipeAt(ls, t, k)
  }

  ghost predicate PipeAt(ls: seq<Lexeme>, t: Tree, k: nat)
    decreases |ls|, 3
  {
    k < |ls| && ls[k] == Symbol('|') && t.TPipe? && IsUnit(ls[..k], t.left) && IsPipe(ls[k + 1..], t.right)
  }

  /** A pipeline with any number of & behind it. */
  ghost predicate IsJob(ls: seq<Lexeme>, t: Tree)
    decreases |ls|, 5
  {
    || IsPipe(ls, t)
    || (ls != [] && ls[|ls| - 1] == Symbol('&') && t.TBack? && IsJob(ls[..|ls| - 1], t.tree))
  }

  /** Lists associate to the right too. */
  ghost predicate IsLine(ls: seq<Lexeme>, t: Tree)
    decreases |ls|, 7
  {
    IsJob(ls, t) || exists k: nat :: ListAt(ls, t, k)
  }

  ghost predicate ListAt(ls: seq<Lexeme>, t: Tree, k: nat)
    decreases |ls|, 6
  {
    k < |ls| && ls[k] == Symbol(';') && t.TList? && IsJob(ls[..k], t.left) && IsLine(ls[k + 1..], t.right)
  }

  /** The grammar derives the tree from the lexemes that the line spells. */
  ghost predicate Derives(s: string, t: Tree) {
    exists ls :: Spells(s, 0, ls) && IsLine(ls, t)
  }

  // ---- the lexemes gettoken finds ----

  function LexemeOf(s: string, tok: Token): Lexeme
    requires tok.q <= tok.eq <= |s|
  {
    if tok.kind == 'a' then Name(s[tok.q..tok.eq]) else Symbol(tok.kind)
  }

  function Lexemes(s: string, i: nat): seq<Lexeme>
    requires Line(s) && i <= |s|
    decreases |s| - i
  {
    var tok := GetToken(s, i);
    if tok.kind == NUL then []
    else
      TokenMoves(s, i);
      [LexemeOf(s, tok)] + Lexemes(s, tok.next)
  }

  lemma NextLexeme(s: string, i: nat)
    requires Line(s) && i <= |s|
    ensures var tok := GetToken(s, i);
      && (tok.kind == NUL <==> Lexemes(s, i) == [])
      && (tok.kind != NUL ==>
            i < tok.next && Lexemes(s, i) == [LexemeOf(s, tok)] + Lexemes(s, tok.next))
  {
    TokenMoves(s, i);
  }

  lemma SkipLexemes(s: string, i: nat)
    requires Line(s) && i <= |s|
    ensures Skip(s, i) <= |s| && Lexemes(s, Skip(s, i)) == Lexemes(s, i)
  {
    assert Skip(s, Skip(s, i)) == Skip(s, i);
  }

  /** The lexemes begin with a symbol whose first character is one of cs. */
  predicate Starts(ls: seq<Lexeme>, cs: set<char>) {
    ls != [] && ls[0].Symbol? && (if ls[0].c == '+' then '>' else ls[0].c) in cs
  }

  lemma PeekStarts(s: string, i: nat, cs: set<char>)
    requires Line(s) && i <= |s| && forall c :: c in cs ==> IsSymbol(c)
    ensures Peek(s, i, cs) <==> Starts(Lexemes(s, i), cs)
  {
    TokenMoves(s, i);
    assert !IsSymbol('+');
  }

  /** The line spells what gettoken finds, and nothing else. */
  lemma {:induction false} SpellsLexemes(s: string, i: nat)
    requires Line(s) && i <= |s|
    ensures Spells(s, i, Lexemes(s, i))
    decreases |s| - i
  {
    hide GetToken, Lexemes, Lexes;
    NextLexeme(s, i);
    var tok := GetToken(s, i);
    if tok.kind == NUL {
      TokenMoves(s, i);
    } else {
      SpellsLexemes(s, tok.next);
      TokenLexes(s, i);
      SpellsBack(s, tok.eq, tok.next, Lexemes(s, tok.next));
      assert Lexemes(s, i)[1..] == Lexemes(s, tok.next);
      assert Lexes(s, i, tok.q, tok.eq, Lexemes(s, i)[0]) && Spells(s, tok.eq, Lexemes(s, i)[1..]);
    }
  }

  lemma TokenLexes(s: string, i: nat)
    requires Line(s) && i <= |s| && GetToken(s, i).kind != NUL
    ensures var tok := GetToken(s, i);
      Lexes(s, i, tok.q, tok.eq, LexemeOf(s, tok)) && tok.next == Skip(s, tok.eq)
  {
    var q := Skip(s, i);
    hide Skip;
    if s[q] == '>' || IsSymbol(s[q]) {
      SymbolLexes(s, q);
    } else {
      var e := WordEnd(s, q);
      hide WordEnd;
      assert Word(s[q..e]);
    }
  }

  lemma SymbolLexes(s: string, q: nat)
    requires q < |s| && !IsSpace(s[q]) && IsSymbol(s[q])
    ensures var (kind, e) := TokenKind(s, q);
      kind != 'a' && kind != NUL && q < e <= |s| && Lexes(s, q, q, e, Symbol(kind))
  {
    if s[q] == '>' && q + 1 < |s| && s[q + 1] == '>' {
      assert s[q..q + 2] == ">>";
    } else {
      assert s[q..q + 1] == [s[q]];
    }
  }

  lemma SpellsBack(s: string, i: nat, j: nat, ls: seq<Lexeme>)
    requires i <= j <= |s| && Spells(s, j, ls) && forall k :: i <= k < j ==> IsSpace(s[k])
    ensures Spells(s, i, ls)
  {
    if ls != [] {
      var a: nat, b: nat :| Lexes(s, j, a, b, ls[0]) && Spells(s, b, ls[1..]);
      assert Lexes(s, i, a, b, ls[0]);
    }
  }

  lemma {:induction false} SkipTo(s: string, i: nat, a: nat)
    requires i <= a <= |s| && (forall k :: i <= k < a ==> IsSpace(s[k])) && (a < |s| ==> !IsSpace(s[a]))
    ensures Skip(s, i) == a
    decreases a - i
  {
    if i < a {
      SkipTo(s, i + 1, a);
    }
  }

  lemma LexesToken(s: string, i: nat, a: nat, b: nat, l: Lexeme)
    requires Line(s) && Lexes(s, i, a, b, l)
    ensures var tok := GetToken(s, i);
      tok.kind != NUL && tok.q == a && tok.eq == b && LexemeOf(s, tok) == l && tok.next == Skip(s, b)
  {
    assert |Spelling(l)| == b - a && s[a] == Spelling(l)[0];
    SkipTo(s, i, a);
    hide Skip;
    if l.Name? {
      forall k | a <= k < b ensures IsWord(s[k]) {
        assert s[k] == l.text[k - a];
      }
      WordEndIs(s, a, b);
    } else if l.c == '+' {
      assert s[a + 1] == ">>"[1];
    }
  }

  lemma {:induction false} SpellsOnly(s: string, i: nat, ls: seq<Lexeme>)
    requires Line(s) && i <= |s| && Spells(s, i, ls)
    ensures ls == Lexemes(s, i)
    decreases |ls|
  {
    hide GetToken, Lexemes, Lexes;
    NextLexeme(s, i);
    if ls == [] {
      SkipTo(s, i, |s|);
      TokenMoves(s, i);
    } else {
      var a: nat, b: nat :| Lexes(s, i, a, b, ls[0]) && Spells(s, b, ls[1..]);
      LexesToken(s, i, a, b, ls[0]);
      SpellsOnly(s, b, ls[1..]);
      SkipLexemes(s, b);
      assert ls == [ls[0]] + ls[1..];
    }
  }

  // ---- what the parser accepts is in the language ----

  ghost function FileTexts(s: string, files: seq<File>): seq<OutFile> {
    seq(|files|, i requires 0 <= i < |files| => FileText(s, files[i]))
  }

  lemma SimpleWord(w: string, ls: seq<Lexeme>, words: seq<string>, files: seq<OutFile>)
    requires Simple(ls, words, files)
    ensures Simple([Name(w)] + ls, [w] + words, files)
  {
    assert ([Name(w)] + ls)[1..] == ls && ([w] + words)[1..] == words;
  }

  lemma SimpleFile(sign: Lexeme, w: string, ls: seq<Lexeme>, words: seq<string>, files: seq<OutFile>)
    requires Simple(ls, words, files) && IsSign(sign)
    ensures Simple([sign, Name(w)] + ls, words, [OutFile(w, sign != Symbol('<'))] + files)
  {
    var f := OutFile(w, sign != Symbol('<'));
    assert ([sign, Name(w)] + ls)[2..] == ls && ([f] + files)[1..] == files;
  }

  lemma {:induction false} SimpleJoin(a: seq<Lexeme>, fa: seq<OutFile>, b: seq<Lexeme>, words: seq<string>,
                                      fb: seq<OutFile>)
    requires Simple(a, [], fa) && Simple(b, words, fb)
    ensures Simple(a + b, words, fa + fb)
    decreases |a|
  {
    if a == [] {
      assert a + b == b && fa + fb == fb;
    } else {
      SimpleJoin(a[2..], fa[1..], b, words, fb);
      assert (a + b)[2..] == a[2..] + b && (fa + fb)[1..] == fa[1..] + fb;
    }
  }

  /** A sign and the word behind it. */
  lemma RedirLexemes(s: string, i: nat)
    requires Line(s) && i <= |s| && Peek(s, i, {'<', '>'}) && GetToken(s, GetToken(s, i).next).kind == 'a'
    ensures var tok, file := GetToken(s, i), GetToken(s, GetToken(s, i).next);
      var sign, name := LexemeOf(s, tok), Name(Text(s, Span(file.q, file.eq)));
      && i < file.next && Lexemes(s, i) == [sign, name] + Lexemes(s, file.next) && IsSign(sign)
      && (tok.kind != '<' <==> sign != Symbol('<'))
  {
    PeekStarts(s, i, {'<', '>'});
    NextLexeme(s, i);
    NextLexeme(s, GetToken(s, i).next);
    SignKind(s, i);
    hide GetToken, Lexemes;
  }

  lemma SignKind(s: string, i: nat)
    requires Line(s) && i <= |s| && Peek(s, i, {'<', '>'})
    ensures GetToken(s, i).kind in {'<', '>', '+'}
  {
  }

  lemma NoTexts(s: string)
    ensures Texts(s, []) == [] && FileTexts(s, []) == [] && Simple([], [], [])
  {
  }

  lemma FilesMore(s: string, f: File, files: seq<File>)
    ensures FileTexts(s, [f] + files) == [FileText(s, f)] + FileTexts(s, files)
  {
  }

  lemma {:induction false} RedirsSound(s: string, i: nat, files: seq<File>) returns (ls: seq<Lexeme>, fs: seq<File>)
    requires Line(s) && i <= |s| && ParseRedirs(s, i, files).Files?
    ensures var r := ParseRedirs(s, i, files);
      && r.files == files + fs && Lexemes(s, i) == ls + Lexemes(s, r.pos) && Simple(ls, [], FileTexts(s, fs))
      && !Starts(Lexemes(s, r.pos), {'<', '>'})
    decreases |s| - i
  {
    hide GetToken, Lexemes, Peek, Starts, Skip, FileTexts, Text;
    NoTexts(s);
    if Peek(s, i, {'<', '>'}) {
      RedirLexemes(s, i);
      var tok, file := GetToken(s, i), GetToken(s, GetToken(s, i).next);
      var f := File(Span(file.q, file.eq), tok.kind != '<');
      ls, fs := RedirsSound(s, file.next, files + [f]);
      SimpleFile(LexemeOf(s, tok), Text(s, f.name), ls, [], FileTexts(s, fs));
      FilesMore(s, f, fs);
      ls, fs := [LexemeOf(s, tok), Name(Text(s, f.name))] + ls, [f] + fs;
    } else {
      ls, fs := [], [];
      SkipLexemes(s, i);
      PeekStarts(s, i, {'<', '>'});
    }
  }

  lemma WordLexeme(s: string, i: nat)
    requires Line(s) && i <= |s| && GetToken(s, i).kind == 'a'
    ensures var tok := GetToken(s, i);
      && i < tok.next && Lexemes(s, i) == [Name(Text(s, Span(tok.q, tok.eq)))] + Lexemes(s, tok.next)
  {
    NextLexeme(s, i);
  }

  lemma WordsMore(s: string, w: Span, words: seq<Span>)
    ensures Texts(s, [w] + words) == [Text(s, w)] + Texts(s, words)
  {
  }

  /** Nothing follows, or one of the symbols cs. */
  predicate Follows(ls: seq<Lexeme>, cs: set<char>) {
    ls == [] || Starts(ls, cs)
  }

  lemma EndLexemes(s: string, i: nat)
    requires Line(s) && i <= |s| && GetToken(s, i).kind == NUL
    ensures Lexemes(s, i) == Lexemes(s, GetToken(s, i).next) == []
  {
    TokenMoves(s, i);
    SkipLexemes(s, i);
  }

  lemma ArgsDone(s: string, i: nat, args: seq<Span>, files: seq<File>, rest: seq<Lexeme>) returns (pos: nat)
    requires Line(s) && i <= |s| && Lexemes(s, i) == rest && Follows(rest, {'|', ')', '&', ';'})
    ensures ParseArgs(s, i, args, files) == Ok(Wrap(Exec(args), files), pos)
    ensures i <= pos <= |s| && Lexemes(s, pos) == rest
  {
    hide GetToken, Lexemes, Peek, Skip;
    PeekStarts(s, i, {'|', ')', '&', ';'});
    if rest == [] {
      NextLexeme(s, i);
      EndLexemes(s, i);
      pos := GetToken(s, i).next;
    } else {
      SkipLexemes(s, i);
      pos := Skip(s, i);
    }
  }

  lemma {:induction false} ArgsSound(s: string, i: nat, args: seq<Span>, files: seq<File>)
      returns (ls: seq<Lexeme>, more: seq<Span>, fs: seq<File>)
    requires Line(s) && i <= |s| && ParseArgs(s, i, args, files).Ok? && |args| < MAXARGS
    ensures var r := ParseArgs(s, i, args, files);
      && r.cmd == Wrap(Exec(args + more), files + fs) && Lexemes(s, i) == ls + Lexemes(s, r.pos)
      && Simple(ls, Texts(s, more), FileTexts(s, fs)) && |args + more| < MAXARGS
    decreases |s| - i
  {
    hide GetToken, Lexemes, Peek, Skip, ParseRedirs, ParseArgs, Simple, Texts, FileTexts, Wrap, Text, Starts;
    PeekStarts(s, i, {'|', ')', '&', ';'});
    NextLexeme(s, i);
    if Follows(Lexemes(s, i), {'|', ')', '&', ';'}) {
      ls, more, fs := [], [], [];
      assert args + more == args && files + fs == files && ls + Lexemes(s, i) == Lexemes(s, i);
      NoTexts(s);
      var pos := ArgsDone(s, i, args, files, Lexemes(s, i));
    } else {
      ArgsGoOn(s, i, args, files);
      ArgsStep(s, i, args, files);
      WordLexeme(s, i);
      var tok := GetToken(s, i);
      var r := ParseRedirs(s, tok.next, files);
      var w := Span(tok.q, tok.eq);
      var a, fa := RedirsSound(s, tok.next, files);
      var b, words, fb := ArgsSound(s, r.pos, args + [w], r.files);
      SimpleJoin(a, FileTexts(s, fa), b, Texts(s, words), FileTexts(s, fb));
      SimpleWord(Text(s, w), a + b, Texts(s, words), FileTexts(s, fa) + FileTexts(s, fb));
      WordsMore(s, w, words);
      FilesJoin(s, fa, fb);
      ls, more, fs := [Name(Text(s, w))] + (a + b), [w] + words, fa + fb;
      assert args + [w] + words == args + more && files + fa + fb == files + fs;
      assert Lexemes(s, i) == ls + Lexemes(s, ParseArgs(s, i, args, files).pos);
    }
  }

  lemma ArgsGoOn(s: string, i: nat, args: seq<Span>, files: seq<File>)
    requires Line(s) && i <= |s| && ParseArgs(s, i, args, files).Ok?
    requires !Peek(s, i, {'|', ')', '&', ';'}) && GetToken(s, i).kind != NUL
    ensures GetToken(s, i).kind == 'a' && |args| + 1 < MAXARGS && ParseRedirs(s, GetToken(s, i).next, files).Files?
  {
    hide GetToken, Peek;
  }

  lemma FilesJoin(s: string, a: seq<File>, b: seq<File>)
    ensures FileTexts(s, a + b) == FileTexts(s, a) + FileTexts(s, b)
  {
  }

  lemma {:induction false} CoreRewrap(words: seq<string>, files: seq<OutFile>)
    ensures Core(Rewrap(TExec(words), files)) == TExec(words) && Tails(Rewrap(TExec(words), files)) == files
    decreases |files|
  {
    if files != [] {
      CoreRewrap(words, files[..|files| - 1]);
    }
  }

  lemma WrapTexts(s: string, c: Cmd, files: seq<File>)
    ensures Means(s, Wrap(c, files)) == Rewrap(Means(s, c), FileTexts(s, files))
  {
    WrapMeans(s, c, files, FileTexts(s, files));
  }

  lemma SimpleExec(s: string, ls: seq<Lexeme>, args: seq<Span>, files: seq<File>)
    requires Simple(ls, Texts(s, args), FileTexts(s, files)) && |args| < MAXARGS
    ensures IsUnit(ls, Means(s, Wrap(Exec(args), files)))
  {
    WrapTexts(s, Exec(args), files);
    CoreRewrap(Texts(s, args), FileTexts(s, files));
  }

  /** The lexeme at a place where the parser looked for one symbol. */
  lemma SymbolAhead(s: string, i: nat, c: char)
    requires Line(s) && i <= |s| && IsSymbol(c) && c != '>' && Peek(s, i, {c})
    ensures i < GetToken(s, i).next && Lexemes(s, i) == [Symbol(c)] + Lexemes(s, GetToken(s, i).next)
  {
    NextLexeme(s, i);
  }

  lemma {:induction false} ExecSound(s: string, i: nat) returns (ls: seq<Lexeme>)
    requires Line(s) && i <= |s| && ParseExec(s, i).Ok?
    ensures Lexemes(s, i) == ls + Lexemes(s, ParseExec(s, i).pos) && IsUnit(ls, Means(s, ParseExec(s, i).cmd))
    decreases |s| - i, 1
  {
    hide Lexemes, Peek, Skip, ParseRedirs, ParseArgs, ParseBlock, IsUnit, Simple, Means;
    if Peek(s, i, {'('}) {
      SkipLexemes(s, i);
      ls := BlockSound(s, Skip(s, i));
    } else {
      var r := ParseRedirs(s, i, []);
      var a, fa := RedirsSound(s, i, []);
      var b, words, fb := ArgsSound(s, r.pos, [], r.files);
      SimpleJoin(a, FileTexts(s, fa), b, Texts(s, words), FileTexts(s, fb));
      FilesJoin(s, fa, fb);
      ls := a + b;
      assert [] + words == words && [] + fa + fb == fa + fb;
      SimpleExec(s, ls, words, fa + fb);
      assert a + (b + Lexemes(s, ParseExec(s, i).pos)) == ls + Lexemes(s, ParseExec(s, i).pos);
    }
  }

  lemma {:induction false} BlockSound(s: string, i: nat) returns (ls: seq<Lexeme>)
    requires Line(s) && i <= |s| && ParseBlock(s, i).Ok?
    ensures Lexemes(s, i) == ls + Lexemes(s, ParseBlock(s, i).pos) && IsUnit(ls, Means(s, ParseBlock(s, i).cmd))
    decreases |s| - i, 0
  {
    hide Lexemes, Peek, Skip, GetToken, ParseRedirs, ParseLine, IsLine, IsUnit, Simple, Means, Wrap, Rewrap, FileTexts;
    SymbolAhead(s, i, '(');
    var line := ParseLine(s, GetToken(s, i).next);
    var a := LineSound(s, GetToken(s, i).next);
    SymbolAhead(s, line.pos, ')');
    var j := GetToken(s, line.pos).next;
    var b, files := RedirsSound(s, j, []);
    assert [] + files == files;
    WrapTexts(s, line.cmd, files);
    ls := [Symbol('(')] + a + [Symbol(')')] + b;
    Regroup([Symbol('(')], a, [Symbol(')')], b, Lexemes(s, ParseBlock(s, i).pos));
    BlockParts(a, b, Means(s, line.cmd), FileTexts(s, files));
  }

  lemma Regroup<T>(a: seq<T>, b: seq<T>, c: seq<T>, d: seq<T>, rest: seq<T>)
    ensures a + (b + (c + (d + rest))) == a + b + c + d + rest
  {
  }

  lemma BlockParts(a: seq<Lexeme>, b: seq<Lexeme>, inner: Tree, files: seq<OutFile>)
    requires IsLine(a, inner) && Simple(b, [], files)
    ensures IsUnit([Symbol('(')] + a + [Symbol(')')] + b, Rewrap(inner, files))
  {
    hide IsLine, Simple, Rewrap;
    var ls := [Symbol('(')] + a + [Symbol(')')] + b;
    assert ls[1..|a| + 1] == a && ls[|a| + 1 + 1..] == b;
    assert BlockOf(ls, Rewrap(inner, files), |a| + 1, inner, files);
  }

  lemma {:induction false} PipeSound(s: string, i: nat) returns (ls: seq<Lexeme>)
    requires Line(s) && i <= |s| && ParsePipe(s, i).Ok?
    ensures Lexemes(s, i) == ls + Lexemes(s, ParsePipe(s, i).pos) && IsPipe(ls, Means(s, ParsePipe(s, i).cmd))
    decreases |s| - i, 2
  {
    hide Lexemes, Peek, Skip, GetToken, ParseExec, IsUnit;
    var left := ParseExec(s, i);
    ls := ExecSound(s, i);
    if Peek(s, left.pos, {'|'}) {
      SymbolAhead(s, left.pos, '|');
      var b := PipeSound(s, GetToken(s, left.pos).next);
      Regroup([], ls, [Symbol('|')], b, Lexemes(s, ParsePipe(s, i).pos));
      PipeParts(ls, b, Means(s, left.cmd), Means(s, ParsePipe(s, i).cmd.right));
      ls := ls + [Symbol('|')] + b;
    } else {
      SkipLexemes(s, left.pos);
    }
  }

  /** Between positions i and j the line holds a pipeline with tree t. */
  ghost predicate PipeFrom(s: string, i: nat, j: nat, t: Tree)
    requires Line(s) && i <= |s| && j <= |s|
  {
    exists ls :: Lexemes(s, i) == ls + Lexemes(s, j) && IsPipe(ls, t)
  }

  lemma PipeFound(s: string, i: nat)
    requires Line(s) && i <= |s|
    ensures ParsePipe(s, i).Ok? ==> PipeFrom(s, i, ParsePipe(s, i).pos, Means(s, ParsePipe(s, i).cmd))
  {
    hide Lexemes, IsPipe, ParsePipe, Means;
    if ParsePipe(s, i).Ok? {
      var ls := PipeSound(s, i);
    }
  }

  lemma PipeParts(a: seq<Lexeme>, b: seq<Lexeme>, left: Tree, right: Tree)
    requires IsUnit(a, left) && IsPipe(b, right)
    ensures IsPipe(a + [Symbol('|')] + b, TPipe(left, right))
  {
    hide IsUnit;
    var ls := a + [Symbol('|')] + b;
    assert ls[..|a|] == a && ls[|a| + 1..] == b;
    assert PipeAt(ls, TPipe(left, right), |a|);
  }

  function Amps(n: nat): seq<Lexeme> {
    if n == 0 then [] else Amps(n - 1) + [Symbol('&')]
  }

  function Backed(t: Tree, n: nat): Tree {
    if n == 0 then t else TBack(Backed(t, n - 1))
  }

  lemma {:induction false} AmpFirst(n: nat, t: Tree)
    ensures Amps(n + 1) == [Symbol('&')] + Amps(n) && Backed(TBack(t), n) == Backed(t, n + 1)
  {
    if n > 0 {
      AmpFirst(n - 1, t);
    }
  }

  lemma {:induction false} BacksSound(s: string, i: nat, c: Cmd) returns (n: nat)
    requires Line(s) && i <= |s|
    ensures var (c', j) := Backs(s, i, c);
      && Lexemes(s, i) == Amps(n) + Lexemes(s, j) && Means(s, c') == Backed(Means(s, c), n)
      && !Starts(Lexemes(s, j), {'&'})
    decreases |s| - i
  {
    hide Lexemes, Peek, Skip, GetToken, Starts;
    PeekStarts(s, i, {'&'});
    if Peek(s, i, {'&'}) {
      SymbolAhead(s, i, '&');
      n := BacksSound(s, GetToken(s, i).next, Back(c));
      AmpFirst(n, Means(s, c));
      n := n + 1;
    } else {
      n := 0;
      SkipLexemes(s, i);
    }
  }

  lemma {:induction false} JobParts(a: seq<Lexeme>, t: Tree, n: nat)
    requires IsPipe(a, t)
    ensures IsJob(a + Amps(n), Backed(t, n))
    decreases n
  {
    hide IsPipe;
    if n == 0 {
      assert a + Amps(0) == a;
    } else {
      JobParts(a, t, n - 1);
      var ls := a + Amps(n);
      assert ls[..|ls| - 1] == a + Amps(n - 1);
    }
  }

  lemma {:induction false} LineSound(s: string, i: nat) returns (ls: seq<Lexeme>)
    requires Line(s) && i <= |s| && ParseLine(s, i).Ok?
    ensures Lexemes(s, i) == ls + Lexemes(s, ParseLine(s, i).pos) && IsLine(ls, Means(s, ParseLine(s, i).cmd))
    decreases |s| - i, 3
  {
    hide Lexemes, Peek, Skip, GetToken, ParsePipe, Backs, IsPipe, IsJob;
    var first := ParsePipe(s, i);
    var a := PipeSound(s, i);
    var (c, j) := Backs(s, first.pos, first.cmd);
    var n := BacksSound(s, first.pos, first.cmd);
    JobParts(a, Means(s, first.cmd), n);
    ls := a + Amps(n);
    if Peek(s, j, {';'}) {
      SymbolAhead(s, j, ';');
      var b := LineSound(s, GetToken(s, j).next);
      Regroup(a, Amps(n), [Symbol(';')], b, Lexemes(s, ParseLine(s, i).pos));
      ListParts(ls, b, Means(s, c), Means(s, ParseLine(s, i).cmd.right));
      ls := ls + [Symbol(';')] + b;
    } else {
      SkipLexemes(s, j);
      assert a + (Amps(n) + Lexemes(s, j)) == ls + Lexemes(s, j);
    }
  }

  lemma ListParts(a: seq<Lexeme>, b: seq<Lexeme>, left: Tree, right: Tree)
    requires IsJob(a, left) && IsLine(b, right)
    ensures IsLine(a + [Symbol(';')] + b, TList(left, right))
  {
    hide IsJob;
    var ls := a + [Symbol(';')] + b;
    assert ls[..|a|] == a && ls[|a| + 1..] == b;
    assert ListAt(ls, TList(left, right), |a|);
  }

  // ---- what is in the language the parser accepts, with the same tree ----

  lemma Ahead(s: string, i: nat, l: Lexeme, rest: seq<Lexeme>)
    requires Line(s) && i <= |s| && Lexemes(s, i) == [l] + rest
    ensures var tok := GetToken(s, i);
      tok.kind != NUL && i < tok.next && LexemeOf(s, tok) == l && Lexemes(s, tok.next) == rest
  {
    NextLexeme(s, i);
    var tok := GetToken(s, i);
    hide GetToken, Lexemes;
    assert Lexemes(s, i)[0] == l && Lexemes(s, i)[1..] == rest;
    assert ([LexemeOf(s, tok)] + Lexemes(s, tok.next))[1..] == Lexemes(s, tok.next);
  }

  lemma KindIs(s: string, i: nat)
    requires Line(s) && i <= |s| && GetToken(s, i).kind != NUL
    ensures LexemeOf(s, GetToken(s, i)).Name? <==> GetToken(s, i).kind == 'a'
  {
  }

  lemma {:induction false} RedirsComplete(s: string, i: nat, files: seq<File>, ls: seq<Lexeme>, fs: seq<OutFile>,
                                          rest: seq<Lexeme>)
      returns (found: seq<File>, pos: nat)
    requires Line(s) && i <= |s| && Lexemes(s, i) == ls + rest && Simple(ls, [], fs) && !Starts(rest, {'<', '>'})
    ensures ParseRedirs(s, i, files) == Files(files + found, pos) && FileTexts(s, found) == fs
    ensures i <= pos <= |s| && Lexemes(s, pos) == rest
    decreases |ls|
  {
    hide GetToken, Lexemes, Peek, Skip;
    PeekStarts(s, i, {'<', '>'});
    if ls == [] {
      found, pos := [], Skip(s, i);
      assert ls + rest == rest && files + found == files;
      SkipLexemes(s, i);
    } else {
      var tok := GetToken(s, i);
      assert ls + rest == [ls[0]] + ([ls[1]] + (ls[2..] + rest));
      Ahead(s, i, ls[0], [ls[1]] + (ls[2..] + rest));
      KindIs(s, i);
      var file := GetToken(s, tok.next);
      Ahead(s, tok.next, ls[1], ls[2..] + rest);
      KindIs(s, tok.next);
      var f := File(Span(file.q, file.eq), tok.kind != '<');
      found, pos := RedirsComplete(s, file.next, files + [f], ls[2..], fs[1..], rest);
      FilesMore(s, f, found);
      assert files + [f] + found == files + ([f] + found) && [fs[0]] + fs[1..] == fs;
      found := [f] + found;
    }
  }

  /** Redirections up to the first word. */
  lemma {:induction false} SplitRedirs(ls: seq<Lexeme>, words: seq<string>, fs: seq<OutFile>)
      returns (a: seq<Lexeme>, fa: seq<OutFile>, b: seq<Lexeme>, fb: seq<OutFile>)
    requires Simple(ls, words, fs)
    ensures ls == a + b && fs == fa + fb && Simple(a, [], fa) && Simple(b, words, fb) && (b != [] ==> b[0].Name?)
    decreases |ls|
  {
    if ls == [] || ls[0].Name? {
      a, fa, b, fb := [], [], ls, fs;
    } else {
      a, fa, b, fb := SplitRedirs(ls[2..], words, fs[1..]);
      SimpleFile(ls[0], ls[1].text, a, [], fa);
      a, fa := [ls[0], ls[1]] + a, [fs[0]] + fa;
    }
  }

  lemma {:induction false} ArgsComplete(s: string, i: nat, args: seq<Span>, files: seq<File>, ls: seq<Lexeme>,
                                        words: seq<string>, fs: seq<OutFile>, rest: seq<Lexeme>)
      returns (more: seq<Span>, found: seq<File>, pos: nat)
    requires Line(s) && i <= |s| && Lexemes(s, i) == ls + rest && Simple(ls, words, fs) && (ls != [] ==> ls[0].Name?)
    requires Follows(rest, {'|', ')', '&', ';'}) && |args| + |words| < MAXARGS
    ensures ParseArgs(s, i, args, files) == Ok(Wrap(Exec(args + more), files + found), pos)
    ensures Texts(s, more) == words && FileTexts(s, found) == fs && i <= pos <= |s| && Lexemes(s, pos) == rest
    decreases |ls|
  {
    hide GetToken, Lexemes, Peek, Skip, ParseRedirs, ParseArgs, Texts, FileTexts, Wrap;
    PeekStarts(s, i, {'|', ')', '&', ';'});
    if ls == [] {
      NoTexts(s);
      more, found := [], [];
      assert ls + rest == rest && args + more == args && files + found == files;
      pos := ArgsDone(s, i, args, files, rest);
    } else {
      assert ls + rest == [ls[0]] + (ls[1..] + rest);
      Ahead(s, i, ls[0], ls[1..] + rest);
      KindIs(s, i);
      var tok := GetToken(s, i);
      var w := Span(tok.q, tok.eq);
      var a, fa, b, fb := SplitRedirs(ls[1..], words[1..], fs);
      assert ls[1..] + rest == a + (b + rest);
      var f1, p := RedirsComplete(s, tok.next, files, a, fa, b + rest);
      var more1, f2, q := ArgsComplete(s, p, args + [w], files + f1, b, words[1..], fb, rest);
      WordsMore(s, w, more1);
      FilesJoin(s, f1, f2);
      more, found, pos := [w] + more1, f1 + f2, q;
      ArgsStep(s, i, args, files);
      assert args + [w] + more1 == args + more && files + f1 + f2 == files + found && [words[0]] + words[1..] == words;
    }
  }

  lemma NotBlock(s: string, i: nat, ls: seq<Lexeme>, words: seq<string>, fs: seq<OutFile>, rest: seq<Lexeme>)
    requires Line(s) && i <= |s| && Lexemes(s, i) == ls + rest && Simple(ls, words, fs)
    requires Follows(rest, {'|', ')', '&', ';'})
    ensures !Peek(s, i, {'('})
  {
    hide Lexemes, Peek;
    PeekStarts(s, i, {'('});
    assert ls != [] ==> (ls + rest)[0] == ls[0];
  }

  /** Redirections, then words and redirections. */
  lemma SimpleComplete(s: string, i: nat, ls: seq<Lexeme>, words: seq<string>, fs: seq<OutFile>, rest: seq<Lexeme>)
      returns (args: seq<Span>, files: seq<File>, pos: nat)
    requires Line(s) && i <= |s| && Lexemes(s, i) == ls + rest && Simple(ls, words, fs) && |words| < MAXARGS
    requires Follows(rest, {'|', ')', '&', ';'})
    ensures ParseExec(s, i) == Ok(Wrap(Exec(args), files), pos) && i <= pos <= |s| && Lexemes(s, pos) == rest
    ensures Texts(s, args) == words && FileTexts(s, files) == fs
  {
    hide GetToken, Lexemes, Peek, Skip, ParseRedirs, ParseArgs, ParseBlock, Simple, Texts, FileTexts, Wrap;
    NotBlock(s, i, ls, words, fs, rest);
    var a, fa, b, fb := SplitRedirs(ls, words, fs);
    assert ls + rest == a + (b + rest);
    NameFirst(b, rest);
    hide Starts;
    var f1, p := RedirsComplete(s, i, [], a, fa, b + rest);
    assert [] + f1 == f1;
    var more, f2, q := ArgsComplete(s, p, [], f1, b, words, fb, rest);
    assert [] + more == more;
    FilesJoin(s, f1, f2);
    args, files, pos := more, f1 + f2, q;
  }

  lemma NameFirst(b: seq<Lexeme>, rest: seq<Lexeme>)
    requires Follows(rest, {'|', ')', '&', ';'}) && (b != [] ==> b[0].Name?)
    ensures !Starts(b + rest, {'<', '>'})
  {
    assert b != [] ==> (b + rest)[0] == b[0];
    assert b == [] ==> b + rest == rest;
  }

  lemma ExecComplete(s: string, i: nat, ls: seq<Lexeme>, t: Tree, rest: seq<Lexeme>) returns (c: Cmd, pos: nat)
    requires Line(s) && i <= |s| && Lexemes(s, i) == ls + rest && IsExec(ls, t)
    requires Follows(rest, {'|', ')', '&', ';'})
    ensures ParseExec(s, i) == Ok(c, pos) && Means(s, c) == t && i <= pos <= |s| && Lexemes(s, pos) == rest
  {
    hide Lexemes, ParseExec, Means, Simple, Texts, FileTexts, Wrap, Rewrap, Follows;
    var args, files, q := SimpleComplete(s, i, ls, Core(t).args, Tails(t), rest);
    c, pos := Wrap(Exec(args), files), q;
    WrapTexts(s, Exec(args), files);
    ExecMeaning(s, args);
    Rewrapped(t);
  }

  lemma ExecMeaning(s: string, args: seq<Span>)
    ensures Means(s, Exec(args)) == TExec(Texts(s, args))
  {
  }

  lemma {:induction false} UnitComplete(s: string, i: nat, ls: seq<Lexeme>, t: Tree, rest: seq<Lexeme>)
      returns (c: Cmd, pos: nat)
    requires Line(s) && i <= |s| && Lexemes(s, i) == ls + rest && IsUnit(ls, t)
    requires Follows(rest, {'|', ')', '&', ';'})
    ensures ParseExec(s, i) == Ok(c, pos) && Means(s, c) == t && i <= pos <= |s| && Lexemes(s, pos) == rest
    decreases |ls|, 0
  {
    hide GetToken, Lexemes, Peek, Skip, IsExec, Means, ParseArgs, ParseRedirs, ParseLine, Simple, IsLine, Rewrap, Wrap;
    if IsExec(ls, t) {
      c, pos := ExecComplete(s, i, ls, t, rest);
    } else {
      assert IsBlock(ls, t);
      var k: nat, inner: Tree, files: seq<OutFile> :| BlockOf(ls, t, k, inner, files);
      var tail := ls[k + 1..];
      assert ls + rest == [ls[0]] + (ls[1..k] + ([ls[k]] + (tail + rest)));
      PeekStarts(s, i, {'('});
      SkipLexemes(s, i);
      var j := Skip(s, i);
      PeekStarts(s, j, {'('});
      Ahead(s, j, ls[0], ls[1..k] + ([ls[k]] + (tail + rest)));
      var c1, p := LineComplete(s, GetToken(s, j).next, ls[1..k], inner, [ls[k]] + (tail + rest));
      PeekStarts(s, p, {')'});
      Ahead(s, p, ls[k], tail + rest);
      var found, q := RedirsComplete(s, GetToken(s, p).next, [], tail, files, rest);
      assert [] + found == found;
      c, pos := Wrap(c1, found), q;
      WrapTexts(s, c1, found);
    }
  }

  lemma {:induction false} PipeComplete(s: string, i: nat, ls: seq<Lexeme>, t: Tree, rest: seq<Lexeme>)
      returns (c: Cmd, pos: nat)
    requires Line(s) && i <= |s| && Lexemes(s, i) == ls + rest && IsPipe(ls, t)
    requires Follows(rest, {')', '&', ';'})
    ensures ParsePipe(s, i) == Ok(c, pos) && Means(s, c) == t && i <= pos <= |s| && Lexemes(s, pos) == rest
    decreases |ls|, 1
  {
    hide GetToken, Lexemes, Peek, Skip, IsUnit, ParseExec;
    if IsUnit(ls, t) {
      var p;
      c, p := UnitComplete(s, i, ls, t, rest);
      PeekStarts(s, p, {'|'});
      SkipLexemes(s, p);
      pos := Skip(s, p);
    } else {
      var k: nat :| PipeAt(ls, t, k);
      var tail := ls[k + 1..];
      assert ls + rest == ls[..k] + ([ls[k]] + (tail + rest));
      var c1, p := UnitComplete(s, i, ls[..k], t.left, [ls[k]] + (tail + rest));
      PeekStarts(s, p, {'|'});
      Ahead(s, p, ls[k], tail + rest);
      var c2, q := PipeComplete(s, GetToken(s, p).next, tail, t.right, rest);
      c, pos := Pipe(c1, c2), q;
    }
  }

  lemma {:induction false} JobSplit(ls: seq<Lexeme>, t: Tree) returns (a: seq<Lexeme>, u: Tree, n: nat)
    requires IsJob(ls, t)
    ensures ls == a + Amps(n) && t == Backed(u, n) && IsPipe(a, u)
    decreases |ls|
  {
    hide IsPipe;
    if IsPipe(ls, t) {
      a, u, n := ls, t, 0;
    } else {
      a, u, n := JobSplit(ls[..|ls| - 1], t.tree);
      n := n + 1;
    }
  }

  lemma {:induction false} BacksComplete(s: string, i: nat, c: Cmd, n: nat, rest: seq<Lexeme>)
      returns (c': Cmd, pos: nat)
    requires Line(s) && i <= |s| && Lexemes(s, i) == Amps(n) + rest && !Starts(rest, {'&'})
    ensures Backs(s, i, c) == (c', pos) && Means(s, c') == Backed(Means(s, c), n) && Lexemes(s, pos) == rest
    ensures i <= pos <= |s|
    decreases n
  {
    hide GetToken, Lexemes, Peek, Skip;
    PeekStarts(s, i, {'&'});
    if n == 0 {
      assert Amps(0) + rest == rest;
      SkipLexemes(s, i);
      c', pos := c, Skip(s, i);
    } else {
      AmpFirst(n - 1, Means(s, c));
      assert Amps(n) + rest == [Symbol('&')] + (Amps(n - 1) + rest);
      Ahead(s, i, Symbol('&'), Amps(n - 1) + rest);
      c', pos := BacksComplete(s, GetToken(s, i).next, Back(c), n - 1, rest);
    }
  }

  lemma {:induction false} JobComplete(s: string, i: nat, ls: seq<Lexeme>, t: Tree, rest: seq<Lexeme>)
      returns (first: Cmd, p: nat, c: Cmd, pos: nat)
    requires Line(s) && i <= |s| && Lexemes(s, i) == ls + rest && IsJob(ls, t) && Follows(rest, {')', ';'})
    ensures ParsePipe(s, i) == Ok(first, p) && i <= p <= |s| && Backs(s, p, first) == (c, pos) && Means(s, c) == t
    ensures p <= pos <= |s| && Lexemes(s, pos) == rest
    decreases |ls|, 2
  {
    hide GetToken, Lexemes, Peek, Skip, IsPipe, ParsePipe, Backs;
    var a, u, n := JobSplit(ls, t);
    assert ls + rest == a + (Amps(n) + rest);
    if n > 0 {
      AmpFirst(n - 1, u);
    } else {
      assert Amps(n) + rest == rest;
    }
    first, p := PipeComplete(s, i, a, u, Amps(n) + rest);
    c, pos := BacksComplete(s, p, first, n, rest);
  }

  lemma {:induction false} LineComplete(s: string, i: nat, ls: seq<Lexeme>, t: Tree, rest: seq<Lexeme>)
      returns (c: Cmd, pos: nat)
    requires Line(s) && i <= |s| && Lexemes(s, i) == ls + rest && IsLine(ls, t) && Follows(rest, {')'})
    ensures ParseLine(s, i) == Ok(c, pos) && Means(s, c) == t && i <= pos <= |s| && Lexemes(s, pos) == rest
    decreases |ls|, 3
  {
    hide GetToken, Lexemes, Peek, Skip, IsJob, ParsePipe, Backs;
    if IsJob(ls, t) {
      var first, p, c1, q := JobComplete(s, i, ls, t, rest);
      PeekStarts(s, q, {';'});
      SkipLexemes(s, q);
      c, pos := c1, Skip(s, q);
    } else {
      var k: nat :| ListAt(ls, t, k);
      var tail := ls[k + 1..];
      assert ls + rest == ls[..k] + ([ls[k]] + (tail + rest));
      var first, p, c1, q := JobComplete(s, i, ls[..k], t.left, [ls[k]] + (tail + rest));
      PeekStarts(s, q, {';'});
      Ahead(s, q, ls[k], tail + rest);
      var c2, q2 := LineComplete(s, GetToken(s, q).next, tail, t.right, rest);
      c, pos := List(c1, c2), q2;
    }
  }

  // ---- the parser is the grammar ----

  /** A line parses to a tree exactly if it spells lexemes from which the grammar derives
      that tree. */
  lemma ParserIsGrammar(s: string, t: Tree)
    requires Line(s)
    ensures ParseCmd(s).Ok? && Means(s, ParseCmd(s).cmd) == t <==> Derives(s, t)
  {
    hide Lexemes, GetToken, ParseLine, IsLine, Spells, Means, Skip;
    if ParseCmd(s).Ok? && Means(s, ParseCmd(s).cmd) == t {
      var ls := LineSound(s, 0);
      var r := ParseLine(s, 0);
      SpellsLexemes(s, 0);
      AllRead(s, r.pos);
      assert ls + [] == ls;
      assert Spells(s, 0, ls) && IsLine(ls, t);
    }
    if Derives(s, t) {
      var ls :| Spells(s, 0, ls) && IsLine(ls, t);
      SpellsOnly(s, 0, ls);
      assert ls + [] == ls;
      var c, pos := LineComplete(s, 0, ls, t, []);
      AllRead(s, pos);
    }
  }

  lemma AllRead(s: string, i: nat)
    requires Line(s) && i <= |s|
    ensures Skip(s, i) == |s| <==> Lexemes(s, i) == []
  {
    TokenMoves(s, i);
    NextLexeme(s, i);
  }

  /** The grammar is unambiguous on what a line can spell. */
  lemma OneTree(s: string, ls: seq<Lexeme>, t: Tree, u: Tree)
    requires Line(s) && Spells(s, 0, ls) && IsLine(ls, t) && IsLine(ls, u)
    ensures t == u
  {
    hide ParseCmd, IsLine, Spells, Means;
    ParserIsGrammar(s, t);
    ParserIsGrammar(s, u);
  }
}
