/** Printing a command tree with parenthesised subcommands, and the proof that the
    parser reads it back. */
module ShellPrint {
  import opened ShellSpec

  datatype OutFile = OutFile(name: string, out: bool)

  /** A command tree with its words spelled out. */
  datatype Tree =
    | TExec(args: seq<string>)
    | TRedir(tree: Tree, file: OutFile)
    | TPipe(left: Tree, right: Tree)
    | TList(left: Tree, right: Tree)
    | TBack(tree: Tree)

  // ---- what a parsed command says ----

  ghost predicate Inside(s: string, w: Span) {
    w.q <= w.eq <= |s|
  }

  ghost function Text(s: string, w: Span): string {
    if Inside(s, w) then s[w.q..w.eq] else []
  }

  ghost function Texts(s: string, ws: seq<Span>): seq<string> {
    seq(|ws|, i requires 0 <= i < |ws| => Text(s, ws[i]))
  }

  ghost function FileText(s: string, f: File): OutFile {
    OutFile(Text(s, f.name), f.out)
  }

  ghost function Means(s: string, c: Cmd): Tree {
    match c
    case Exec(args) => TExec(Texts(s, args))
    case Redir(c1, f) => TRedir(Means(s, c1), FileText(s, f))
    case Pipe(l, r) => TPipe(Means(s, l), Means(s, r))
    case List(l, r) => TList(Means(s, l), Means(s, r))
    case Back(c1) => TBack(Means(s, c1))
  }

  // ---- printing ----

  ghost predicate Word(w: string) {
    w != [] && forall k :: 0 <= k < |w| ==> IsWord(w[k])
  }

  ghost predicate Legal(t: Tree) {
    match t
    case TExec(args) => |args| < MAXARGS && forall i :: 0 <= i < |args| ==> Word(args[i])
    case TRedir(t1, f) => Legal(t1) && Word(f.name)
    case TPipe(l, r) => Legal(l) && Legal(r)
    case TList(l, r) => Legal(l) && Legal(r)
    case TBack(t1) => Legal(t1)
  }

  function ArgsText(args: seq<string>): string {
    if args == [] then [] else if |args| == 1 then args[0] else args[0] + " " + ArgsText(args[1..])
  }

  function RedirText(f: OutFile): string {
    (if f.out then ">" else "<") + f.name
  }

  function Paren(t: string): string {
    "(" + t + ")"
  }

  function Print(t: Tree): string {
    match t
    case TExec(args) => ArgsText(args)
    case TRedir(t1, f) => (if t1.TExec? || t1.TRedir? then Print(t1) else Paren(Print(t1))) + RedirText(f)
    case TPipe(l, r) => Paren(Print(l)) + "|" + Paren(Print(r))
    case TList(l, r) => Paren(Print(l)) + ";" + Paren(Print(r))
    case TBack(t1) => Paren(Print(t1)) + "&"
  }

  // ---- redirections peeled off ----

  function Core(t: Tree): Tree {
    if t.TRedir? then Core(t.tree) else t
  }

  function Tails(t: Tree): seq<OutFile> {
    if t.TRedir? then Tails(t.tree) + [t.file] else []
  }

  function TailText(fs: seq<OutFile>): string {
    if fs == [] then [] else RedirText(fs[0]) + TailText(fs[1..])
  }

  lemma {:induction false} TailTextLast(fs: seq<OutFile>, f: OutFile)
    ensures TailText(fs + [f]) == TailText(fs) + RedirText(f)
  {
    if fs == [] {
      assert fs + [f] == [f] && [f][1..] == [];
    } else {
      TailTextLast(fs[1..], f);
      assert (fs + [f])[1..] == fs[1..] + [f];
    }
  }

  /** The text of a tree is its core followed by its redirections. */
  lemma {:induction false} PrintPeeled(t: Tree)
    requires t.TRedir?
    ensures !Core(t).TRedir?
    ensures Print(t) == (if Core(t).TExec? then Print(Core(t)) else Paren(Print(Core(t)))) + TailText(Tails(t))
    decreases t
  {
    var t1 := t.tree;
    var inner := if Core(t1).TExec? then Print(Core(t1)) else Paren(Print(Core(t1)));
    TailTextLast(Tails(t1), t.file);
    if t1.TRedir? {
      PrintPeeled(t1);
      assert Print(t1) == inner + TailText(Tails(t1));
    } else {
      assert Tails(t1) == [] && TailText([]) == [];
      Assoc(inner, [], RedirText(t.file));
    }
    assert Core(t) == Core(t1) && Tails(t) == Tails(t1) + [t.file];
    hide TailText, RedirText, Paren, Core, Tails;
    Assoc(inner, TailText(Tails(t1)), RedirText(t.file));
  }

  lemma Assoc(a: string, b: string, c: string)
    ensures (a + b) + c == a + (b + c)
    ensures b == [] ==> a + b == a
  {
  }

  lemma {:induction false} LegalPeeled(t: Tree)
    requires Legal(t)
    ensures Legal(Core(t)) && forall i :: 0 <= i < |Tails(t)| ==> Word(Tails(t)[i].name)
    decreases t
  {
    if t.TRedir? {
      LegalPeeled(t.tree);
    }
  }

  /** A command with its redirections, from the core outwards. */
  function Rewrap(t: Tree, fs: seq<OutFile>): Tree {
    if fs == [] then t else TRedir(Rewrap(t, fs[..|fs| - 1]), fs[|fs| - 1])
  }

  lemma {:induction false} Rewrapped(t: Tree)
    ensures Rewrap(Core(t), Tails(t)) == t
    decreases t
  {
    if t.TRedir? {
      Rewrapped(t.tree);
      assert Tails(t)[..|Tails(t)| - 1] == Tails(t.tree);
    }
  }

  lemma {:induction false} WrapMeans(s: string, c: Cmd, files: seq<File>, fs: seq<OutFile>)
    requires |files| == |fs| && forall i :: 0 <= i < |fs| ==> FileText(s, files[i]) == fs[i]
    ensures Means(s, Wrap(c, files)) == Rewrap(Means(s, c), fs)
    decreases |fs|
  {
    if fs != [] {
      WrapMeans(s, c, files[..|files| - 1], fs[..|fs| - 1]);
    }
  }

  // ---- tokens at known places ----

  ghost predicate At(s: string, i: nat, text: string) {
    i + |text| <= |s| && s[i..i + |text|] == text
  }

  /** A simple command may end here. */
  ghost predicate Stop(s: string, e: nat) {
    e <= |s| && (e < |s| ==> s[e] in {'|', ')', '&', ';'})
  }

  ghost predicate Close(s: string, e: nat) {
    e <= |s| && (e < |s| ==> s[e] == ')')
  }

  lemma AtParts(s: string, i: nat, a: string, b: string)
    requires At(s, i, a + b)
    ensures At(s, i, a) && At(s, i + |a|, b) && i + |a| + |b| <= |s|
  {
    var n := |a + b|;
    assert s[i..i + n][..|a|] == a && s[i..i + n][|a|..] == b;
    assert s[i..i + n][..|a|] == s[i..i + |a|] && s[i..i + n][|a|..] == s[i + |a|..i + n];
  }

  lemma AtChar(s: string, i: nat, text: string, k: nat)
    requires At(s, i, text) && k < |text|
    ensures i + k < |s| && s[i + k] == text[k]
  {
    assert s[i..i + |text|][k] == s[i + k];
  }

  lemma {:induction false} WordEndIs(s: string, i: nat, e: nat)
    requires i <= e <= |s| && (forall k :: i <= k < e ==> IsWord(s[k])) && (e < |s| ==> !IsWord(s[e]) && s[e] != NUL)
    ensures WordEnd(s, i) == e
    decreases e - i
  {
    if i < e {
      WordEndIs(s, i + 1, e);
    }
  }

  lemma WordToken(s: string, i: nat, w: string)
    requires Line(s) && At(s, i, w) && Word(w) && (i + |w| < |s| ==> !IsWord(s[i + |w|]))
    ensures GetToken(s, i) == Token('a', i, i + |w|, Skip(s, i + |w|)) && Text(s, Span(i, i + |w|)) == w
  {
    forall k | i <= k < i + |w| ensures IsWord(s[k]) {
      AtChar(s, i, w, k - i);
    }
    WordEndIs(s, i, i + |w|);
    assert Skip(s, i) == i;
  }

  // ---- redirections ----

  lemma TailHead(f: OutFile, fs: seq<OutFile>)
    ensures TailText([f] + fs) == RedirText(f) + TailText(fs)
    ensures TailText([f] + fs)[0] == if f.out then '>' else '<'
  {
    assert ([f] + fs)[1..] == fs;
  }

  /** What follows one redirection starts no word. */
  lemma TailNext(s: string, i: nat, fs: seq<OutFile>)
    requires At(s, i, TailText(fs)) && Stop(s, i + |TailText(fs)|)
    ensures i < |s| ==> !IsWord(s[i]) && !IsSpace(s[i]) && s[i] != '('
    ensures Skip(s, i) == i && (Peek(s, i, {'<', '>'}) <==> fs != [])
  {
    if fs != [] {
      assert [fs[0]] + fs[1..] == fs;
      TailHead(fs[0], fs[1..]);
      AtChar(s, i, TailText(fs), 0);
    }
  }

  lemma SignToken(s: string, i: nat)
    requires Line(s) && i + 1 < |s| && (s[i] == '<' || s[i] == '>') && IsWord(s[i + 1])
    ensures GetToken(s, i).kind == s[i] && GetToken(s, i).next == i + 1
  {
    assert Skip(s, i) == i && Skip(s, i + 1) == i + 1;
  }

  lemma RedirToken(s: string, i: nat, f: OutFile, rest: seq<OutFile>)
    requires Line(s) && At(s, i, RedirText(f) + TailText(rest)) && Word(f.name)
    requires Stop(s, i + |RedirText(f) + TailText(rest)|)
    ensures var j := i + |RedirText(f)|;
      && GetToken(s, i).kind == (if f.out then '>' else '<') && GetToken(s, i).next == i + 1
      && GetToken(s, i + 1) == Token('a', i + 1, j, j) && At(s, j, TailText(rest))
      && FileText(s, File(Span(i + 1, j), f.out)) == f
  {
    hide At, TailText, GetToken, Skip, WordEnd, Stop;
    AtParts(s, i, RedirText(f), TailText(rest));
    var sign := if f.out then ">" else "<";
    AtParts(s, i, sign, f.name);
    AtChar(s, i, sign, 0);
    AtChar(s, i + 1, f.name, 0);
    TailNext(s, i + |RedirText(f)|, rest);
    WordToken(s, i + 1, f.name);
    SignToken(s, i);
  }

  lemma {:induction false} RedirsParse(s: string, i: nat, fs: seq<OutFile>, files: seq<File>) returns (found: seq<File>)
    requires Line(s) && At(s, i, TailText(fs)) && Stop(s, i + |TailText(fs)|) && FileWords(fs)
    ensures ParseRedirs(s, i, files) == Files(files + found, i + |TailText(fs)|)
    ensures ReadsFiles(s, found, fs)
    decreases |fs|
  {
    hide At, Stop, Skip, GetToken, ParseRedirs, RedirText, Text, Peek, TailText, Word, FileWords, ReadsFiles, FileText;
    TailNext(s, i, fs);
    if fs == [] {
      found := [];
      assert files + found == files;
      RedirsNone(s, i, fs, files);
    } else {
      var f, rest := fs[0], fs[1..];
      TailFacts(fs);
      RedirToken(s, i, f, rest);
      var j := i + |RedirText(f)|;
      var file := File(Span(i + 1, j), f.out);
      var more := RedirsParse(s, j, rest, files + [file]);
      found := [file] + more;
      RedirsStep(s, i, files, file);
      assert files + found == (files + [file]) + more;
      FilesCons(s, file, more, fs);
    }
  }

  lemma TailFacts(fs: seq<OutFile>)
    requires fs != [] && FileWords(fs)
    ensures TailText(fs) == RedirText(fs[0]) + TailText(fs[1..]) && Word(fs[0].name) && FileWords(fs[1..])
  {
  }

  lemma RedirsNone(s: string, i: nat, fs: seq<OutFile>, files: seq<File>)
    requires Line(s) && i <= |s| && Skip(s, i) == i && !Peek(s, i, {'<', '>'}) && fs == []
    ensures ParseRedirs(s, i, files) == Files(files, i) && TailText(fs) == [] && ReadsFiles(s, [], fs)
  {
  }

  lemma FilesCons(s: string, file: File, more: seq<File>, fs: seq<OutFile>)
    requires fs != [] && FileText(s, file) == fs[0] && ReadsFiles(s, more, fs[1..])
    ensures ReadsFiles(s, [file] + more, fs)
  {
  }

  lemma RedirsStep(s: string, i: nat, files: seq<File>, file: File)
    requires Line(s) && i <= |s| && Peek(s, i, {'<', '>'}) && GetToken(s, GetToken(s, i).next).kind == 'a'
    requires file.out == (GetToken(s, i).kind != '<')
    requires file.name == Span(GetToken(s, GetToken(s, i).next).q, GetToken(s, GetToken(s, i).next).eq)
    ensures ParseRedirs(s, i, files) == ParseRedirs(s, GetToken(s, GetToken(s, i).next).next, files + [file])
  {
  }

  // ---- simple commands ----

  lemma ArgsHead(words: seq<string>, tail: string)
    requires |words| > 1
    ensures ArgsText(words) + tail == words[0] + (" " + (ArgsText(words[1..]) + tail))
    ensures |ArgsText(words) + tail| == |words[0]| + 1 + |ArgsText(words[1..]) + tail|
  {
    Assoc(words[0] + " ", ArgsText(words[1..]), tail);
    Assoc(words[0], " ", ArgsText(words[1..]) + tail);
  }

  lemma ArgsFirst(args: seq<string>)
    requires args != [] && Word(args[0])
    ensures ArgsText(args) != [] && ArgsText(args)[0] == args[0][0]
  {
  }

  lemma ArgsStop(s: string, e: nat, args: seq<Span>, files: seq<File>)
    requires Line(s) && Stop(s, e)
    ensures ParseArgs(s, e, args, files) == Ok(Wrap(Exec(args), files), e)
  {
    assert Skip(s, e) == e;
  }

  /** The last word and the redirections after it. */
  lemma LastArg(s: string, i: nat, w: string, fs: seq<OutFile>, args: seq<Span>) returns (files: seq<File>)
    requires Line(s) && At(s, i, w + TailText(fs)) && Stop(s, i + |w + TailText(fs)|) && Word(w) && |args| + 1 < MAXARGS
    requires FileWords(fs)
    ensures ParseArgs(s, i, args, []) == Ok(Wrap(Exec(args + [Span(i, i + |w|)]), files), i + |w + TailText(fs)|)
    ensures Text(s, Span(i, i + |w|)) == w && ReadsFiles(s, files, fs)
  {
    hide At, TailText, GetToken, ParseRedirs, Text, Stop, ParseArgs;
    AtParts(s, i, w, TailText(fs));
    var j := i + |w|;
    TailNext(s, j, fs);
    WordToken(s, i, w);
    AtChar(s, i, w, 0);
    files := RedirsParse(s, j, fs, []);
    assert [] + files == files;
    ArgsStop(s, j + |TailText(fs)|, args + [Span(i, j)], files);
    NotStop(s, i);
    ArgsStep(s, i, args, []);
  }

  lemma NotStop(s: string, i: nat)
    requires i < |s| && IsWord(s[i])
    ensures Skip(s, i) == i && !Peek(s, i, {'|', ')', '&', ';'}) && !Peek(s, i, {'<', '>'}) && !Peek(s, i, {'('})
  {
  }

  lemma ArgsStep(s: string, i: nat, args: seq<Span>, files: seq<File>)
    requires Line(s) && i <= |s|
    requires !Peek(s, i, {'|', ')', '&', ';'}) && GetToken(s, i).kind == 'a' && |args| + 1 < MAXARGS
    requires ParseRedirs(s, GetToken(s, i).next, files).Files?
    ensures var tok, r := GetToken(s, i), ParseRedirs(s, GetToken(s, i).next, files);
      ParseArgs(s, i, args, files) == ParseArgs(s, r.pos, args + [Span(tok.q, tok.eq)], r.files)
  {
  }

  ghost predicate Words(words: seq<string>) {
    forall k :: 0 <= k < |words| ==> Word(words[k])
  }

  ghost predicate FileWords(fs: seq<OutFile>) {
    forall k :: 0 <= k < |fs| ==> Word(fs[k].name)
  }

  ghost predicate Reads(s: string, spans: seq<Span>, words: seq<string>) {
    |spans| == |words| && forall k :: 0 <= k < |words| ==> Text(s, spans[k]) == words[k]
  }

  ghost predicate ReadsFiles(s: string, files: seq<File>, fs: seq<OutFile>) {
    |files| == |fs| && forall k :: 0 <= k < |fs| ==> FileText(s, files[k]) == fs[k]
  }

  lemma ReadsCons(s: string, span: Span, more: seq<Span>, words: seq<string>)
    requires words != [] && Text(s, span) == words[0] && Reads(s, more, words[1..])
    ensures Reads(s, [span] + more, words)
  {
  }

  lemma {:induction false} ArgsParse(s: string, i: nat, words: seq<string>, fs: seq<OutFile>, args: seq<Span>)
      returns (spans: seq<Span>, files: seq<File>)
    requires Line(s) && words != [] && At(s, i, ArgsText(words) + TailText(fs))
    requires Stop(s, i + |ArgsText(words) + TailText(fs)|)
    requires |args| + |words| < MAXARGS && Words(words) && FileWords(fs)
    ensures ParseArgs(s, i, args, []) == Ok(Wrap(Exec(args + spans), files), i + |ArgsText(words) + TailText(fs)|)
    ensures Reads(s, spans, words) && ReadsFiles(s, files, fs)
    decreases |words|
  {
    hide At, ArgsText, TailText, ParseArgs, Text, Stop, Wrap, Word, Words, FileWords, Reads, ReadsFiles;
    var w, span := words[0], Span(i, i + |words[0]|);
    WordsFacts(words);
    if |words| == 1 {
      files := LastArg(s, i, w, fs, args);
      spans := [span];
      ReadsOne(s, span, words);
    } else {
      ArgsHead(words, TailText(fs));
      MiddleArg(s, i, w, words[1..], fs, args);
      var more;
      more, files := ArgsParse(s, i + |w| + 1, words[1..], fs, args + [span]);
      spans := [span] + more;
      assert args + spans == (args + [span]) + more;
      ReadsCons(s, span, more, words);
    }
  }

  lemma WordsFacts(words: seq<string>)
    requires words != [] && Words(words)
    ensures Word(words[0]) && Words(words[1..]) && (|words| > 1 ==> Word(words[1..][0]))
    ensures |words| == 1 ==> ArgsText(words) == words[0]
  {
  }

  lemma ReadsOne(s: string, span: Span, words: seq<string>)
    requires |words| == 1 && Text(s, span) == words[0]
    ensures Reads(s, [span], words)
  {
  }

  /** A word that another one follows. */
  lemma MiddleArg(s: string, i: nat, w: string, ws: seq<string>, fs: seq<OutFile>, args: seq<Span>)
    requires Line(s) && Word(w) && ws != [] && Word(ws[0]) && |args| + 1 < MAXARGS
    requires At(s, i, w + (" " + (ArgsText(ws) + TailText(fs))))
    ensures var j := i + |w| + 1;
      && At(s, j, ArgsText(ws) + TailText(fs)) && Text(s, Span(i, i + |w|)) == w
      && ParseArgs(s, i, args, []) == ParseArgs(s, j, args + [Span(i, i + |w|)], [])
  {
    hide At, ArgsText, TailText, GetToken, ParseArgs, Text, WordEnd;
    var rest := ArgsText(ws) + TailText(fs);
    var j := i + |w| + 1;
    AtParts(s, i, w, " " + rest);
    AtParts(s, i + |w|, " ", rest);
    AtChar(s, i + |w|, " ", 0);
    ArgsFirst(ws);
    AtChar(s, j, rest, 0);
    AtChar(s, i, w, 0);
    WordToken(s, i, w);
    NotStop(s, i);
    NotStop(s, j);
    assert Skip(s, j - 1) == j;
    NoRedirs(s, j);
    ArgsStep(s, i, args, []);
  }

  lemma NoRedirs(s: string, j: nat)
    requires Line(s) && j < |s| && IsWord(s[j])
    ensures ParseRedirs(s, j, []) == Files([], j)
  {
    NotStop(s, j);
  }

  lemma ExecMeans(s: string, spans: seq<Span>, words: seq<string>, files: seq<File>, fs: seq<OutFile>)
    requires Reads(s, spans, words) && ReadsFiles(s, files, fs)
    ensures Means(s, Wrap(Exec(spans), files)) == Rewrap(TExec(words), fs)
  {
    assert Texts(s, spans) == words;
    WrapMeans(s, Exec(spans), files, fs);
  }

  /** A simple command: words, then redirections. */
  lemma ExecParses(s: string, i: nat, words: seq<string>, fs: seq<OutFile>) returns (c: Cmd)
    requires Line(s) && At(s, i, ArgsText(words) + TailText(fs)) && Stop(s, i + |ArgsText(words) + TailText(fs)|)
    requires |words| < MAXARGS && Words(words) && FileWords(fs)
    ensures ParseExec(s, i) == Ok(c, i + |ArgsText(words) + TailText(fs)|)
    ensures Means(s, c) == Rewrap(TExec(words), fs)
  {
    hide At, ArgsText, TailText, ParseArgs, ParseRedirs, Text, Stop, Wrap, Word, Words, FileWords, Reads, ReadsFiles,
      Skip, Peek, Rewrap, Means;
    if words == [] {
      NoArgs(words, fs);
      TailNext(s, i, fs);
      NotParen(s, i);
      var files := RedirsParse(s, i, fs, []);
      assert [] + files == files;
      ArgsStop(s, i + |TailText(fs)|, [], files);
      NoReads(s, words);
      ExecMeans(s, [], words, files, fs);
      c := Wrap(Exec([]), files);
      ExecIs(s, i);
    } else {
      FirstChar(s, i, words, fs);
      NotStop(s, i);
      NoRedirs(s, i);
      var spans, files := ArgsParse(s, i, words, fs, []);
      assert [] + spans == spans;
      ExecMeans(s, spans, words, files, fs);
      c := Wrap(Exec(spans), files);
      ExecIs(s, i);
    }
  }

  lemma NoArgs(words: seq<string>, fs: seq<OutFile>)
    requires words == []
    ensures ArgsText(words) + TailText(fs) == TailText(fs)
  {
  }

  lemma NoReads(s: string, words: seq<string>)
    requires words == []
    ensures Reads(s, [], words)
  {
  }

  lemma NotParen(s: string, i: nat)
    requires i <= |s| && Skip(s, i) == i && (i < |s| ==> s[i] != '(')
    ensures !Peek(s, i, {'('})
  {
  }

  lemma FirstChar(s: string, i: nat, words: seq<string>, fs: seq<OutFile>)
    requires words != [] && Words(words) && At(s, i, ArgsText(words) + TailText(fs))
    ensures i < |s| && IsWord(s[i])
  {
    ArgsFirst(words);
    AtChar(s, i, ArgsText(words) + TailText(fs), 0);
  }

  lemma ExecIs(s: string, i: nat)
    requires Line(s) && i <= |s| && !Peek(s, i, {'('}) && ParseRedirs(s, i, []).Files?
    ensures ParseExec(s, i) == ParseArgs(s, ParseRedirs(s, i, []).pos, [], ParseRedirs(s, i, []).files)
  {
  }

  // ---- parenthesised commands and whole lines ----

  ghost function Size(t: Tree): nat {
    match t
    case TExec(_) => 1
    case TRedir(t1, _) => Size(t1) + 1
    case TPipe(l, r) => Size(l) + Size(r) + 1
    case TList(l, r) => Size(l) + Size(r) + 1
    case TBack(t1) => Size(t1) + 1
  }

  lemma {:induction false} CoreSize(t: Tree)
    ensures Size(Core(t)) <= Size(t) && (t.TRedir? ==> Size(Core(t)) < Size(t)) && !Core(t).TRedir?
    decreases t
  {
    if t.TRedir? {
      CoreSize(t.tree);
    }
  }

  /** A parenthesised command and redirections after it. */
  lemma BlockParses(s: string, i: nat, t: Tree, fs: seq<OutFile>) returns (c: Cmd)
    requires Line(s) && Legal(t) && At(s, i, Paren(Print(t)) + TailText(fs))
    requires Stop(s, i + |Paren(Print(t)) + TailText(fs)|) && FileWords(fs)
    ensures ParseExec(s, i) == Ok(c, i + |Paren(Print(t)) + TailText(fs)|) && Means(s, c) == Rewrap(t, fs)
    decreases Size(t), 2
  {
    hide At, TailText, Text, Stop, Wrap, FileWords, ReadsFiles, Print, Legal, Rewrap, Means, ParseLine, ParseRedirs,
      Skip;
    BlockText(s, i, Print(t), fs);
    var j := i + 1 + |Print(t)|;
    PrintStart(t);
    NoSpace(s, i + 1, Print(t));
    var inner := LineParses(s, i + 1, t);
    TailNext(s, j + 1, fs);
    var files := RedirsParse(s, j + 1, fs, []);
    assert [] + files == files;
    BlockIs(s, i, inner, j, files);
    WrapReads(s, inner, files, fs);
    c := Wrap(inner, files);
  }

  lemma WrapReads(s: string, c: Cmd, files: seq<File>, fs: seq<OutFile>)
    requires ReadsFiles(s, files, fs)
    ensures Means(s, Wrap(c, files)) == Rewrap(Means(s, c), fs)
  {
    WrapMeans(s, c, files, fs);
  }

  lemma BlockText(s: string, i: nat, text: string, fs: seq<OutFile>)
    requires At(s, i, Paren(text) + TailText(fs))
    ensures var j := i + 1 + |text|;
      && j < |s| && s[i] == '(' && s[j] == ')' && At(s, i + 1, text) && At(s, j + 1, TailText(fs))
      && i + |Paren(text) + TailText(fs)| == j + 1 + |TailText(fs)|
  {
    hide At, TailText;
    AtParts(s, i, Paren(text), TailText(fs));
    Assoc("(", text, ")");
    AtParts(s, i, "(", text + ")");
    AtParts(s, i + 1, text, ")");
    AtChar(s, i, "(", 0);
    AtChar(s, i + 1 + |text|, ")", 0);
  }

  lemma BlockIs(s: string, i: nat, inner: Cmd, j: nat, files: seq<File>)
    requires Line(s) && i < j < |s| && s[i] == '(' && s[j] == ')' && Skip(s, i + 1) == i + 1 && Skip(s, j + 1) == j + 1
    requires ParseLine(s, i + 1) == Ok(inner, j) && ParseRedirs(s, j + 1, []).Files?
    requires ParseRedirs(s, j + 1, []).files == files
    ensures ParseExec(s, i) == Ok(Wrap(inner, files), ParseRedirs(s, j + 1, []).pos)
  {
    hide ParseLine, ParseRedirs, GetToken, Skip, Peek, Wrap;
    ParenToken(s, i);
    ParenToken(s, j);
    assert ParseBlock(s, i) == Ok(Wrap(inner, files), ParseRedirs(s, j + 1, []).pos);
  }

  lemma ParenToken(s: string, j: nat)
    requires Line(s) && j < |s| && (s[j] == '(' || s[j] == ')') && Skip(s, j + 1) == j + 1
    ensures Skip(s, j) == j && GetToken(s, j).next == j + 1 && Peek(s, j, {s[j]})
  {
    assert Skip(s, j) == j;
  }

  /** A printed command does not start with a space. */
  lemma {:induction false} PrintStart(t: Tree)
    requires Legal(t)
    ensures Print(t) != [] ==> !IsSpace(Print(t)[0])
    decreases t
  {
    match t
    case TExec(args) =>
      if args != [] {
        ArgsFirst(args);
      }
    case TRedir(t1, f) =>
      PrintStart(t1);
    case TPipe(l, r) =>
    case TList(l, r) =>
    case TBack(t1) =>
  }

  lemma NoSpace(s: string, i: nat, text: string)
    requires At(s, i, text) && i + |text| < |s| && s[i + |text|] == ')' && (text != [] ==> !IsSpace(text[0]))
    ensures Skip(s, i) == i
  {
    if text != [] {
      AtChar(s, i, text, 0);
    }
  }

  /** A command with nothing after it is a line. */
  lemma LineIs(s: string, i: nat, c: Cmd, e: nat)
    requires Line(s) && i <= |s| && ParsePipe(s, i) == Ok(c, e) && Close(s, e)
    ensures ParseLine(s, i) == Ok(c, e)
  {
    assert Skip(s, e) == e;
    assert Backs(s, e, c) == (c, e);
    hide ParsePipe;
  }

  lemma PipeIs(s: string, i: nat, c: Cmd, e: nat)
    requires Line(s) && i <= |s| && ParseExec(s, i) == Ok(c, e) && Stop(s, e) && (e < |s| ==> s[e] != '|')
    ensures ParsePipe(s, i) == Ok(c, e)
  {
    assert Skip(s, e) == e;
    hide ParseExec;
  }

  /** A one-character symbol with an open parenthesis after it. */
  lemma SymbolToken(s: string, j: nat)
    requires Line(s) && j + 1 < |s| && (s[j] == '|' || s[j] == ';') && s[j + 1] == '('
    ensures Skip(s, j) == j && GetToken(s, j).next == j + 1 && Peek(s, j, {s[j]})
  {
    assert Skip(s, j) == j && Skip(s, j + 1) == j + 1;
  }

  lemma PipeCase(s: string, i: nat, c1: Cmd, j: nat, c2: Cmd, e: nat)
    requires Line(s) && i <= j <= |s| && ParseExec(s, i) == Ok(c1, j) && j + 1 < |s| && s[j] == '|' && s[j + 1] == '('
    requires ParseExec(s, j + 1) == Ok(c2, e) && Close(s, e)
    ensures ParseLine(s, i) == Ok(Pipe(c1, c2), e)
  {
    hide ParseExec, GetToken, ParseLine;
    PipeIs(s, j + 1, c2, e);
    SymbolToken(s, j);
    assert ParsePipe(s, i) == Ok(Pipe(c1, c2), e);
    hide ParsePipe;
    LineIs(s, i, Pipe(c1, c2), e);
  }

  lemma ListCase(s: string, i: nat, c1: Cmd, j: nat, c2: Cmd, e: nat)
    requires Line(s) && i <= j <= |s| && ParseExec(s, i) == Ok(c1, j) && j + 1 < |s| && s[j] == ';' && s[j + 1] == '('
    requires ParseExec(s, j + 1) == Ok(c2, e) && Close(s, e)
    ensures ParseLine(s, i) == Ok(List(c1, c2), e)
  {
    hide ParseExec, GetToken, ParsePipe;
    PipeIs(s, i, c1, j);
    PipeIs(s, j + 1, c2, e);
    LineIs(s, j + 1, c2, e);
    SymbolToken(s, j);
    assert Backs(s, j, c1) == (c1, j);
  }

  lemma BackCase(s: string, i: nat, c1: Cmd, j: nat)
    requires Line(s) && i <= j <= |s| && ParseExec(s, i) == Ok(c1, j) && j < |s| && s[j] == '&' && Close(s, j + 1)
    ensures ParseLine(s, i) == Ok(Back(c1), j + 1)
  {
    hide ParseExec, ParsePipe;
    PipeIs(s, i, c1, j);
    assert Skip(s, j) == j && Skip(s, j + 1) == j + 1;
    assert GetToken(s, j).next == j + 1;
    assert Backs(s, j + 1, Back(c1)) == (Back(c1), j + 1);
    assert Backs(s, j, c1) == (Back(c1), j + 1);
  }

  lemma PairText(s: string, i: nat, a: string, sep: string, b: string)
    requires |sep| == 1 && At(s, i, Paren(a) + sep + Paren(b))
    ensures var j := i + |Paren(a)|;
      && At(s, i, Paren(a)) && j + 1 < |s| && s[j] == sep[0] && At(s, j + 1, Paren(b)) && s[j + 1] == '('
      && i + |Paren(a) + sep + Paren(b)| == j + 1 + |Paren(b)|
  {
    hide At;
    AtParts(s, i, Paren(a) + sep, Paren(b));
    AtParts(s, i, Paren(a), sep);
    AtChar(s, i + |Paren(a)|, sep, 0);
    AtChar(s, i + |Paren(a)| + 1, Paren(b), 0);
  }

  /** A parenthesised command alone. */
  lemma JustBlock(s: string, i: nat, t: Tree) returns (c: Cmd)
    requires Line(s) && Legal(t) && At(s, i, Paren(Print(t))) && Stop(s, i + |Paren(Print(t))|)
    ensures ParseExec(s, i) == Ok(c, i + |Paren(Print(t))|) && Means(s, c) == t
    decreases Size(t), 3
  {
    assert Paren(Print(t)) + TailText([]) == Paren(Print(t)) && Rewrap(t, []) == t && FileWords([]);
    c := BlockParses(s, i, t, []);
  }

  /** A command that is words and redirections, or redirections of a parenthesised one. */
  lemma UnitParses(s: string, i: nat, t: Tree) returns (c: Cmd)
    requires Line(s) && Legal(t) && (t.TExec? || t.TRedir?) && At(s, i, Print(t)) && Close(s, i + |Print(t)|)
    ensures ParseExec(s, i) == Ok(c, i + |Print(t)|) && Means(s, c) == t
    decreases Size(t), 0
  {
    if t.TExec? {
      assert ArgsText(t.args) + TailText([]) == Print(t) && Rewrap(t, []) == t && Words(t.args) && FileWords([]);
      c := ExecParses(s, i, t.args, []);
    } else {
      PrintPeeled(t);
      LegalPeeled(t);
      Rewrapped(t);
      CoreSize(t);
      assert FileWords(Tails(t));
      var core := Core(t);
      if core.TExec? {
        assert Words(core.args);
        c := ExecParses(s, i, core.args, Tails(t));
      } else {
        c := BlockParses(s, i, core, Tails(t));
      }
    }
  }

  lemma {:induction false} LineParses(s: string, i: nat, t: Tree) returns (c: Cmd)
    requires Line(s) && Legal(t) && At(s, i, Print(t)) && Close(s, i + |Print(t)|)
    ensures ParseLine(s, i) == Ok(c, i + |Print(t)|) && Means(s, c) == t
    decreases Size(t), 1
  {
    hide At, ParseLine, ParseExec, ParsePipe, Skip, Paren;
    var e := i + |Print(t)|;
    match t {
      case TPipe(l, r) =>
        PairText(s, i, Print(l), "|", Print(r));
        var j := i + |Paren(Print(l))|;
        var c1 := JustBlock(s, i, l);
        var c2 := JustBlock(s, j + 1, r);
        PipeCase(s, i, c1, j, c2, e);
        c := Pipe(c1, c2);
      case TList(l, r) =>
        PairText(s, i, Print(l), ";", Print(r));
        var j := i + |Paren(Print(l))|;
        var c1 := JustBlock(s, i, l);
        var c2 := JustBlock(s, j + 1, r);
        ListCase(s, i, c1, j, c2, e);
        c := List(c1, c2);
      case TBack(t1) =>
        AtParts(s, i, Paren(Print(t1)), "&");
        AtChar(s, i + |Paren(Print(t1))|, "&", 0);
        var c1 := JustBlock(s, i, t1);
        BackCase(s, i, c1, e - 1);
        c := Back(c1);
      case _ =>
        c := UnitParses(s, i, t);
        PipeIs(s, i, c, e);
        LineIs(s, i, c, e);
    }
  }

  lemma {:induction false} PrintLine(t: Tree)
    requires Legal(t)
    ensures Line(Print(t))
    decreases t
  {
    match t
    case TExec(args) => ArgsLine(args);
    case TRedir(t1, f) => PrintLine(t1);
    case TPipe(l, r) => PrintLine(l); PrintLine(r);
    case TList(l, r) => PrintLine(l); PrintLine(r);
    case TBack(t1) => PrintLine(t1);
  }

  lemma {:induction false} ArgsLine(args: seq<string>)
    requires Words(args)
    ensures Line(ArgsText(args))
    decreases |args|
  {
    if |args| > 1 {
      WordsFacts(args);
      ArgsLine(args[1..]);
    }
  }

  /** Whatever tree of legal words is printed, parsing the text gives that tree. */
  lemma RoundTrip(t: Tree) returns (c: Cmd)
    requires Legal(t)
    ensures Line(Print(t)) && ParseCmd(Print(t)) == Ok(c, |Print(t)|) && Means(Print(t), c) == t
  {
    PrintLine(t);
    var s := Print(t);
    assert At(s, 0, s);
    c := LineParses(s, 0, t);
  }
}
