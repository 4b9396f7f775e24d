/** Splitting a command into arguments (process.cpp). */
module CommandLine {
  import opened Strings
  import opened Sequences

  datatype Tokens = Tokens(args: seq<string>, current: string, inQuotes: bool, escapeNext: bool)

  const START := Tokens([], "", false, false)

  function TokenStep(t: Tokens, c: char): Tokens {
    if t.escapeNext then t.(current := t.current + [c], escapeNext := false)
    else if c == '\\' then t.(escapeNext := true)
    else if c == '"' then t.(inQuotes := !t.inQuotes)
    else if c == ' ' && !t.inQuotes then
      if t.current != "" then t.(args := t.args + [t.current], current := "") else t
    else t.(current := t.current + [c])
  }

  function Tokenize(t: Tokens, s: string): Tokens
    decreases |s|
  {
    if s == "" then t else Tokenize(TokenStep(t, s[0]), s[1..])
  }

  function Finish(t: Tokens): seq<string> {
    if t.current != "" then t.args + [t.current] else t.args
  }

  function Arguments(command: string): seq<string> {
    Finish(Tokenize(START, command))
  }

  method ParseCommand(command: string) returns (args: seq<string>)
    ensures args == Arguments(command)
    ensures "" !in args
  {
    args := [];
    var current := "";
    var inQuotes := false;
    var escapeNext := false;
    for i := 0 to |command|
      invariant Tokenize(Tokens(args, current, inQuotes, escapeNext), command[i..]) == Tokenize(START, command)
    {
      var c := command[i];
      assert command[i..][0] == c && command[i..][1..] == command[i + 1..];
      if escapeNext {
        current := current + [c];
        escapeNext := false;
      } else if c == '\\' {
        escapeNext := true;
      } else if c == '"' {
        inQuotes := !inQuotes;
      } else if c == ' ' && !inQuotes {
        if current != "" {
          args := args + [current];
          current := "";
        }
      } else {
        current := current + [c];
      }
    }
    if current != "" {
      args := args + [current];
    }
    NoEmptyArgument(START, command);
  }

  lemma {:induction false} NoEmptyArgument(t: Tokens, s: string)
    requires "" !in t.args
    ensures "" !in Finish(Tokenize(t, s))
    decreases |s|
  {
    if s != "" {
      NoEmptyArgument(TokenStep(t, s[0]), s[1..]);
    }
  }

  lemma {:induction false} TokenizeAppend(t: Tokens, a: string, b: string)
    ensures Tokenize(t, a + b) == Tokenize(Tokenize(t, a), b)
    decreases |a|
  {
    if a == "" {
      assert a + b == b;
    } else {
      assert (a + b)[0] == a[0] && (a + b)[1..] == a[1..] + b;
      TokenizeAppend(TokenStep(t, a[0]), a[1..], b);
    }
  }

  // ---- A quoting printer ----

  const QUOTE_NEEDLES: Needles := map['\\' := "\\\\", '"' := "\\\""]

  function Quote(arg: string): string {
    "\"" + Escape(arg, QUOTE_NEEDLES) + "\""
  }

  function Print(args: seq<string>): string {
    if args == [] then "" else if |args| == 1 then Quote(args[0]) else Quote(args[0]) + " " + Print(args[1..])
  }

  lemma TokenizeOne(t: Tokens, c: char)
    requires t.inQuotes && !t.escapeNext
    ensures Tokenize(t, EscapeChar(c, QUOTE_NEEDLES)) == t.(current := t.current + [c])
  {
    var e := EscapeChar(c, QUOTE_NEEDLES);
    assert |e| == 2 ==> e[1..] == [c] && e[0] == '\\' && [c][1..] == "";
    assert |e| == 1 ==> e == [c] && e[1..] == "";
    assert Tokenize(t, e) == Tokenize(TokenStep(t, e[0]), e[1..]);
    assert |e| == 2 ==> Tokenize(TokenStep(t, e[0]), [c]) == TokenStep(TokenStep(t, e[0]), c);
  }

  lemma {:induction false} TokenizeEscaped(t: Tokens, arg: string)
    requires t.inQuotes && !t.escapeNext
    ensures Tokenize(t, Escape(arg, QUOTE_NEEDLES)) == t.(current := t.current + arg)
    decreases |arg|
  {
    if arg == "" {
      assert t.current + arg == t.current;
    } else {
      var t' := t.(current := t.current + [arg[0]]);
      TokenizeOne(t, arg[0]);
      TokenizeAppend(t, EscapeChar(arg[0], QUOTE_NEEDLES), Escape(arg[1..], QUOTE_NEEDLES));
      TokenizeEscaped(t', arg[1..]);
      assert t.current + [arg[0]] + arg[1..] == t.current + arg;
    }
  }

  lemma TokenizeQuoted(t: Tokens, arg: string)
    requires !t.inQuotes && !t.escapeNext
    ensures Tokenize(t, Quote(arg)) == t.(current := t.current + arg)
  {
    var e := Escape(arg, QUOTE_NEEDLES);
    TokenizeAppend(t, "\"" + e, "\"");
    TokenizeAppend(t, "\"", e);
    assert "\""[1..] == "";
    assert Tokenize(t, "\"") == t.(inQuotes := true);
    TokenizeEscaped(t.(inQuotes := true), arg);
    assert Tokenize(t.(inQuotes := true, current := t.current + arg), "\"") == t.(current := t.current + arg);
  }

  lemma {:induction false} TokenizePrinted(done: seq<string>, args: seq<string>)
    requires "" !in args
    ensures Finish(Tokenize(Tokens(done, "", false, false), Print(args))) == done + args
    decreases |args|
  {
    var t := Tokens(done, "", false, false);
    if args != [] {
      TokenizeQuoted(t, args[0]);
      assert "" + args[0] == args[0];
      assert args[0] != "";
      if |args| == 1 {
        assert args == [args[0]];
      } else {
        TokenizeAppend(t, Quote(args[0]) + " ", Print(args[1..]));
        TokenizeAppend(t, Quote(args[0]), " ");
        assert " "[1..] == "";
        var t' := Tokens(done + [args[0]], "", false, false);
        assert Tokenize(Tokens(done, args[0], false, false), " ") == t';
        TokenizePrinted(done + [args[0]], args[1..]);
        assert done + [args[0]] + args[1..] == done + args;
      }
    }
  }

  /** Splitting undoes quoting, for exactly the lists without an empty argument. */
  lemma SplittingUndoesQuoting(args: seq<string>)
    ensures Arguments(Print(args)) == args <==> "" !in args
  {
    NoEmptyArgument(START, Print(args));
    if "" !in args {
      TokenizePrinted([], args);
    }
  }

  // ---- Every other way of writing a command ----

  predicate Special(c: char) {
    c == '"' || c == '\\'
  }

  /** A piece of an argument: characters as they are, one behind a backslash, or some in quotes. */
  datatype Piece = Bare(text: string) | Backslashed(c: char) | InQuotes(text: string)

  predicate Writable(p: Piece) {
    p.Bare? ==> ' ' !in p.text && forall i :: 0 <= i < |p.text| ==> !Special(p.text[i])
  }

  function PrintPiece(p: Piece): string {
    match p
    case Bare(text) => text
    case Backslashed(c) => ['\\', c]
    case InQuotes(text) => Quote(text)
  }

  function Meant(p: Piece): string {
    match p
    case Bare(text) => text
    case Backslashed(c) => [c]
    case InQuotes(text) => text
  }

  function PrintPieces(ps: seq<Piece>): string {
    if ps == [] then "" else PrintPiece(ps[0]) + PrintPieces(ps[1..])
  }

  function MeantBy(ps: seq<Piece>): string {
    if ps == [] then "" else Meant(ps[0]) + MeantBy(ps[1..])
  }

  /** An argument in pieces, with the spaces before it. */
  datatype Word = Word(gap: nat, pieces: seq<Piece>)

  function Spaces(n: nat): string {
    if n == 0 then "" else " " + Spaces(n - 1)
  }

  function PrintWords(ws: seq<Word>, trailing: nat): string {
    if ws == [] then Spaces(trailing) else Spaces(ws[0].gap) + PrintPieces(ws[0].pieces) + PrintWords(ws[1..], trailing)
  }

  /** Arguments that mean the empty string are no arguments. */
  function MeantWords(ws: seq<Word>): seq<string> {
    if ws == [] then [] else OneIfAny(MeantBy(ws[0].pieces)) + MeantWords(ws[1..])
  }

  function OneIfAny(arg: string): seq<string> {
    if arg == "" then [] else [arg]
  }

  predicate WritableWords(ws: seq<Word>) {
    && (forall i :: 1 <= i < |ws| ==> ws[i].gap > 0)
    && (forall i :: 0 <= i < |ws| ==> forall j :: 0 <= j < |ws[i].pieces| ==> Writable(ws[i].pieces[j]))
  }

  predicate BetweenPieces(t: Tokens) {
    !t.inQuotes && !t.escapeNext
  }

  lemma TokenizePiece(t: Tokens, p: Piece)
    requires BetweenPieces(t) && Writable(p)
    ensures Tokenize(t, PrintPiece(p)) == t.(current := t.current + Meant(p))
  {
    match p
    case Bare(text) => PlainWord(t, text);
    case Backslashed(c) =>
      assert ['\\', c][1..] == [c] && [c][1..] == "";
      assert Tokenize(TokenStep(t, '\\'), [c]) == TokenStep(TokenStep(t, '\\'), c);
    case InQuotes(text) => TokenizeQuoted(t, text);
  }

  lemma {:induction false} TokenizePieces(t: Tokens, ps: seq<Piece>)
    requires BetweenPieces(t) && forall j :: 0 <= j < |ps| ==> Writable(ps[j])
    ensures Tokenize(t, PrintPieces(ps)) == t.(current := t.current + MeantBy(ps))
    decreases |ps|
  {
    if ps == [] {
      assert t.current + "" == t.current;
    } else {
      var t' := t.(current := t.current + Meant(ps[0]));
      TokenizePiece(t, ps[0]);
      TokenizeAppend(t, PrintPiece(ps[0]), PrintPieces(ps[1..]));
      TokenizePieces(t', ps[1..]);
      Associative(t.current, Meant(ps[0]), MeantBy(ps[1..]));
    }
  }

  lemma {:induction false} TokenizeSpaces(t: Tokens, n: nat)
    requires BetweenPieces(t)
    ensures Tokenize(t, Spaces(n)) == if n == 0 then t else Tokens(t.args + OneIfAny(t.current), "", false, false)
    decreases n
  {
    if n > 0 {
      var t' := TokenStep(t, ' ');
      TokenizeSpaces(t', n - 1);
      assert Spaces(n)[0] == ' ' && Spaces(n)[1..] == Spaces(n - 1);
      assert t'.args + [] == t'.args && t.args + [] == t.args;
    }
  }

  lemma TokenizeWord(t: Tokens, w: Word)
    requires BetweenPieces(t) && (w.gap > 0 || t.current == "")
    requires forall j :: 0 <= j < |w.pieces| ==> Writable(w.pieces[j])
    ensures Tokenize(t, Spaces(w.gap) + PrintPieces(w.pieces)) ==
      Tokens(t.args + OneIfAny(t.current), MeantBy(w.pieces), false, false)
  {
    TokenizeSpaces(t, w.gap);
    assert t.args + [] == t.args;
    var t' := Tokens(t.args + OneIfAny(t.current), "", false, false);
    TokenizeAppend(t, Spaces(w.gap), PrintPieces(w.pieces));
    TokenizePieces(t', w.pieces);
    assert "" + MeantBy(w.pieces) == MeantBy(w.pieces);
  }

  lemma {:induction false} TokenizeWords(t: Tokens, ws: seq<Word>, trailing: nat)
    requires BetweenPieces(t) && WritableWords(ws) && (ws != [] ==> ws[0].gap > 0 || t.current == "")
    ensures Finish(Tokenize(t, PrintWords(ws, trailing))) == t.args + OneIfAny(t.current) + MeantWords(ws)
    decreases |ws|
  {
    if ws == [] {
      TokenizeSpaces(t, trailing);
      assert t.args + [] == t.args;
    } else {
      var w, rest := ws[0], ws[1..];
      TokenizeWord(t, w);
      TokenizeAppend(t, Spaces(w.gap) + PrintPieces(w.pieces), PrintWords(rest, trailing));
      var t' := Tokens(t.args + OneIfAny(t.current), MeantBy(w.pieces), false, false);
      assert rest != [] ==> rest[0] == ws[1];
      TokenizeWords(t', rest, trailing);
      Associative(t'.args, OneIfAny(MeantBy(w.pieces)), MeantWords(rest));
    }
  }

  /** However arguments are written, in any mixture of bare characters, backslashes and quotes, with any
      number of spaces between, before and behind them, splitting gives what they mean. */
  lemma SplittingGivesMeaning(ws: seq<Word>, trailing: nat)
    requires WritableWords(ws)
    ensures Arguments(PrintWords(ws, trailing)) == MeantWords(ws)
  {
    TokenizeWords(START, ws, trailing);
    assert [] + [] + MeantWords(ws) == MeantWords(ws);
  }

  // ---- The validated path ----

  /** substr(0, find(' ')): the path that is validated. */
  function FirstWord(command: string): (w: string)
    ensures |w| <= |command| && w == command[..|w|] && ' ' !in w
    ensures |w| < |command| ==> command[|w|] == ' '
  {
    if command == "" || command[0] == ' ' then "" else [command[0]] + FirstWord(command[1..])
  }

  lemma {:induction false} ArgsGrow(t: Tokens, s: string)
    ensures t.args <= Tokenize(t, s).args
    decreases |s|
  {
    if s != "" {
      ArgsGrow(TokenStep(t, s[0]), s[1..]);
    }
  }

  /** An argument that has been begun is the first one, and keeps what it has. */
  lemma {:induction false} FirstArgumentExtends(t: Tokens, s: string)
    requires t.args == [] && t.current != ""
    ensures var args := Finish(Tokenize(t, s)); args != [] && t.current <= args[0]
    decreases |s|
  {
    if s != "" {
      var t' := TokenStep(t, s[0]);
      if t'.args == [] {
        FirstArgumentExtends(t', s[1..]);
      } else {
        ArgsGrow(t', s[1..]);
      }
    }
  }

  lemma {:induction false} WordLength(t: Tokens, w: string)
    requires ' ' !in w
    ensures var r := Tokenize(t, w);
      && r.args == t.args && t.current <= r.current && |r.current| <= |t.current| + |w|
      && (!t.escapeNext && (exists i :: 0 <= i < |w| && Special(w[i])) ==> |r.current| < |t.current| + |w|)
    decreases |w|
  {
    if w != "" {
      WordLength(TokenStep(t, w[0]), w[1..]);
      if !t.escapeNext && (exists i :: 0 <= i < |w| && Special(w[i])) && !Special(w[0]) {
        var i :| 0 <= i < |w| && Special(w[i]);
        assert Special(w[1..][i - 1]);
      }
    }
  }

  lemma {:induction false} PlainWord(t: Tokens, w: string)
    requires ' ' !in w && !t.escapeNext && !t.inQuotes && forall i :: 0 <= i < |w| ==> !Special(w[i])
    ensures Tokenize(t, w) == t.(current := t.current + w)
    decreases |w|
  {
    if w == "" {
      assert t.current + w == t.current;
    } else {
      PlainWord(TokenStep(t, w[0]), w[1..]);
      assert t.current + [w[0]] + w[1..] == t.current + w;
    }
  }

  /** For an absolute command the program that is run is the path that was validated exactly when no
      quote and no backslash comes before the first space. */
  lemma FirstArgumentIsValidatedPath(command: string)
    requires command != "" && command[0] == '/'
    ensures var w := FirstWord(command);
      && Arguments(command) != []
      && (Arguments(command)[0] == w <==> forall i :: 0 <= i < |w| ==> !Special(w[i]))
  {
    var w, rest := FirstWord(command), command[|FirstWord(command)|..];
    assert command == w + rest;
    TokenizeAppend(START, w, rest);
    var t := Tokenize(START, w);
    WordLength(START, w);
    BeginsWithSlash(w);
    FirstArgumentExtends(t, rest);
    if forall i :: 0 <= i < |w| ==> !Special(w[i]) {
      PlainWord(START, w);
      assert "" + w == w;
      if rest != "" {
        assert TokenStep(t, rest[0]).args == [w];
        ArgsGrow(TokenStep(t, rest[0]), rest[1..]);
      }
    } else if rest != "" {
      assert rest[0] == ' ';
      var t' := TokenStep(t, ' ');
      if t'.args == [] {
        FirstArgumentExtends(t', rest[1..]);
        assert ' ' in t'.current;
      } else {
        ArgsGrow(t', rest[1..]);
      }
    }
  }

  lemma BeginsWithSlash(w: string)
    requires w != "" && w[0] == '/' && ' ' !in w
    ensures Tokenize(START, w).current != ""
  {
    WordLength(TokenStep(START, w[0]), w[1..]);
  }
}
