/** Escaping by a table of needles, XML escaping, and globs as regular expressions (string.cpp). */
module Strings {
  import opened Sequences
  import opened Wrappers

  type Needles = map<char, string>

  /** Each character by itself. */
  function EscapeChar(c: char, needles: Needles): string {
    if c in needles then needles[c] else [c]
  }

  function Escape(s: string, needles: Needles): string {
    if s == "" then "" else EscapeChar(s[0], needles) + Escape(s[1..], needles)
  }

  lemma {:induction false} EscapeAppend(s: string, t: string, needles: Needles)
    ensures Escape(s + t, needles) == Escape(s, needles) + Escape(t, needles)
  {
    if s == "" {
      assert s + t == t;
    } else {
      var st := s + t;
      assert st[0] == s[0] && st[1..] == s[1..] + t;
      calc {
        Escape(st, needles);
        EscapeChar(s[0], needles) + Escape(s[1..] + t, needles);
        { EscapeAppend(s[1..], t, needles); }
        EscapeChar(s[0], needles) + (Escape(s[1..], needles) + Escape(t, needles));
        { Associative(EscapeChar(s[0], needles), Escape(s[1..], needles), Escape(t, needles)); }
        Escape(s, needles) + Escape(t, needles);
      }
    }
  }

  lemma {:induction false} EscapePlain(s: string, needles: Needles)
    requires forall i :: 0 <= i < |s| ==> s[i] !in needles
    ensures Escape(s, needles) == s
  {
    if s != "" {
      EscapePlain(s[1..], needles);
      assert s == [s[0]] + s[1..];
    }
  }

  /** Copies slices between the needles, and yet escapes character by character. */
  method EscapeStr(s: string, needles: Needles) returns (out: string)
    ensures out == Escape(s, needles)
  {
    out := "";
    var last := 0;
    for i := 0 to |s|
      invariant 0 <= last <= i
      invariant out == Escape(s[..last], needles)
      invariant forall j :: last <= j < i ==> s[j] !in needles
    {
      if s[i] in needles {
        CopySlice(s, last, i, needles);
        out := out + s[last..i];
        out := out + needles[s[i]];
        last := i + 1;
      }
    }
    assert s == s[..last] + s[last..];
    EscapeAppend(s[..last], s[last..], needles);
    EscapePlain(s[last..], needles);
    out := out + s[last..];
  }

  lemma CopySlice(s: string, last: nat, i: nat, needles: Needles)
    requires last <= i < |s| && s[i] in needles
    requires forall j :: last <= j < i ==> s[j] !in needles
    ensures Escape(s[..i+1], needles) == Escape(s[..last], needles) + s[last..i] + needles[s[i]]
  {
    assert s[..i+1] == s[..i] + [s[i]];
    assert s[..i] == s[..last] + s[last..i];
    EscapeAppend(s[..i], [s[i]], needles);
    EscapeAppend(s[..last], s[last..i], needles);
    EscapePlain(s[last..i], needles);
    assert Escape([s[i]], needles) == needles[s[i]];
  }

  // ---- XML ----

  const XML_NEEDLES: Needles := map[
    '"' := "&quot;", '\'' := "&apos;", '<' := "&lt;", '>' := "&gt;", '&' := "&amp;"]

  method EscapeXml(s: string) returns (out: string)
    ensures out == Escape(s, XML_NEEDLES)
    ensures DecodeXml(out) == s
    ensures '<' !in out && '>' !in out && '"' !in out && '\'' !in out
  {
    out := EscapeStr(s, XML_NEEDLES);
    DecodeUndoesEscape(s);
    NoMarkupLeft(s);
  }

  predicate StartsWith(s: string, p: string) {
    |p| <= |s| && s[..|p|] == p
  }

  /** Decodes the five predefined entities of section 4.6 of XML 1.0, and leaves all else alone. */
  function DecodeXml(s: string): string {
    if s == "" then ""
    else if StartsWith(s, "&quot;") then "\"" + DecodeXml(s[6..])
    else if StartsWith(s, "&apos;") then "'" + DecodeXml(s[6..])
    else if StartsWith(s, "&lt;") then "<" + DecodeXml(s[4..])
    else if StartsWith(s, "&gt;") then ">" + DecodeXml(s[4..])
    else if StartsWith(s, "&amp;") then "&" + DecodeXml(s[5..])
    else [s[0]] + DecodeXml(s[1..])
  }

  const XML_ENTITIES: seq<string> := ["&quot;", "&apos;", "&lt;", "&gt;", "&amp;"]

  /** No entity starts another one. */
  lemma DecodeEntity(e: string, t: string)
    requires e in XML_ENTITIES
    ensures DecodeXml(e + t) == DecodeXml(e) + DecodeXml(t) && |DecodeXml(e)| == 1
  {
    assert (e + t)[|e|..] == t && StartsWith(e + t, e) && StartsWith(e, e);
    assert (e + t)[1] == e[1] && (e + t)[2] == e[2];
    assert e[|e|..] == "";
  }

  lemma DecodePlain(c: char, t: string)
    requires c != '&'
    ensures DecodeXml([c] + t) == [c] + DecodeXml(t)
  {
    var s := [c] + t;
    assert s[0] == c && s[1..] == t;
    forall p | p in XML_ENTITIES
      ensures !StartsWith(s, p)
    {
      assert p[0] == '&';
    }
  }

  lemma DecodeOne(c: char, t: string)
    ensures DecodeXml(EscapeChar(c, XML_NEEDLES) + t) == [c] + DecodeXml(t)
  {
    var e := EscapeChar(c, XML_NEEDLES);
    if c in XML_NEEDLES {
      DecodeEntity(e, t);
      assert DecodeXml(e) == [c] by {
        assert StartsWith(e, e) && e[|e|..] == "" && DecodeXml("") == "";
      }
    } else {
      DecodePlain(c, t);
    }
  }

  /** Nothing is lost and nothing is decoded twice, also when the text itself looks like an entity. */
  lemma {:induction false} DecodeUndoesEscape(s: string)
    ensures DecodeXml(Escape(s, XML_NEEDLES)) == s
  {
    if s != "" {
      DecodeUndoesEscape(s[1..]);
      DecodeOne(s[0], Escape(s[1..], XML_NEEDLES));
      assert s == [s[0]] + s[1..];
    }
  }

  lemma {:induction false} NoMarkupLeft(s: string)
    ensures var out := Escape(s, XML_NEEDLES); '<' !in out && '>' !in out && '"' !in out && '\'' !in out
  {
    if s != "" {
      NoMarkupLeft(s[1..]);
    }
  }

  // ---- Globs ----

  const GLOB_NEEDLES: Needles := map[
    '.' := "\\.", '^' := "\\^", '$' := "\\$", '+' := "\\+", '(' := "\\(", ')' := "\\)",
    '[' := "\\[", ']' := "\\]", '{' := "\\{", '}' := "\\}", '\\' := "\\\\", '|' := "\\|",
    '*' := ".*", '?' := "."]

  /** `*` is any run of characters, `?` any one character, anything else itself. */
  predicate GlobMatches(p: string, s: string)
    decreases |p| + |s|
  {
    if p == "" then s == ""
    else if p[0] == '*' then GlobMatches(p[1..], s) || (s != "" && GlobMatches(p, s[1..]))
    else s != "" && (p[0] == '?' || p[0] == s[0]) && GlobMatches(p[1..], s[1..])
  }

  /** A disjunction-free, group-free ECMAScript pattern: a sequence of terms, each an atom with a
      quantifier (section 15.10.1 of ECMA-262, 3rd edition). */
  datatype Atom = Literal(c: char) | AnyChar
  datatype Quantifier = Once | Star | Plus | Optional
  datatype Term = Term(atom: Atom, quantifier: Quantifier, lazy: bool)

  /** SyntaxCharacter: the characters that do not stand for themselves. */
  predicate IsSyntax(c: char) {
    c in ['^', '$', '\\', '.', '*', '+', '?', '(', ')', '[', ']', '{', '}', '|']
  }

  function QuantifierOf(c: char): Quantifier {
    if c == '*' then Star else if c == '+' then Plus else if c == '?' then Optional else Once
  }

  datatype Parsed = Parsed(atom: Atom, length: nat)

  /** Reads one atom. Assertions, groups, classes, alternatives and escapes that are not identity
      escapes lie outside this grammar and give None. */
  function ParseAtom(re: string): (r: Option<Parsed>)
    ensures r.Some? ==> 1 <= r.value.length <= |re|
  {
    if re == "" then None
    else if re[0] == '\\' then
      if |re| >= 2 && IsSyntax(re[1]) then Some(Parsed(Literal(re[1]), 2)) else None
    else if re[0] == '.' then Some(Parsed(AnyChar, 1))
    else if IsSyntax(re[0]) then None
    else Some(Parsed(Literal(re[0]), 1))
  }

  /** Parses a pattern as a regular expression engine would: atom, quantifier, `?` for lazy. */
  function ParseRegex(re: string): Option<seq<Term>>
    decreases |re|
  {
    if re == "" then Some([]) else
    match ParseAtom(re)
    case None => None
    case Some(a) =>
      var rest := re[a.length..];
      var q := if rest == "" then Once else QuantifierOf(rest[0]);
      var afterQ := if q == Once then rest else rest[1..];
      var lazy := q != Once && afterQ != "" && afterQ[0] == '?';
      match ParseRegex(if lazy then afterQ[1..] else afterQ)
      case None => None
      case Some(terms) => Some([Term(a.atom, q, lazy)] + terms)
  }

  /** `.` does not match a line terminator. Characters are bytes here, as in the program's strings, so
      that these two of the four line terminators of section 7.3 are the ones that can occur. */
  predicate IsLineTerminator(c: char) {
    c == '\n' || c == '\r'
  }

  predicate AtomMatches(a: Atom, c: char) {
    match a
    case Literal(d) => c == d
    case AnyChar => !IsLineTerminator(c)
  }

  /** Whether some choice of repetitions makes the terms match the whole of `s`; being lazy changes
      the order in which choices are tried and not whether there is one. */
  predicate RegexMatches(terms: seq<Term>, s: string)
    decreases |terms|, |s|
  {
    if terms == [] then s == "" else
    var t, rest := terms[0], terms[1..];
    match t.quantifier
    case Once => s != "" && AtomMatches(t.atom, s[0]) && RegexMatches(rest, s[1..])
    case Optional => RegexMatches(rest, s) || (s != "" && AtomMatches(t.atom, s[0]) && RegexMatches(rest, s[1..]))
    case Star => RegexMatches(rest, s) || (s != "" && AtomMatches(t.atom, s[0]) && RegexMatches(terms, s[1..]))
    case Plus => s != "" && AtomMatches(t.atom, s[0]) && (RegexMatches(rest, s[1..]) || RegexMatches(terms, s[1..]))
  }

  function TermFor(c: char): Term {
    if c == '*' then Term(AnyChar, Star, false)
    else if c == '?' then Term(AnyChar, Once, false)
    else Term(Literal(c), Once, false)
  }

  function TermsFor(p: string): seq<Term> {
    if p == "" then [] else [TermFor(p[0])] + TermsFor(p[1..])
  }

  function GlobRegex(p: string): string {
    Escape(p, GLOB_NEEDLES)
  }

  method GlobToRegex(p: string) returns (re: string)
    ensures ParseRegex(re) == Some(TermsFor(p))
    ensures forall s :: Plain(s) ==> (RegexMatches(TermsFor(p), s) <==> GlobMatches(p, s))
  {
    re := EscapeStr(p, GLOB_NEEDLES);
    RegexOfGlobParses(p);
    forall s | Plain(s)
      ensures RegexMatches(TermsFor(p), s) <==> GlobMatches(p, s)
    {
      GlobMeaningPreserved(p, s);
    }
  }

  predicate Plain(s: string) {
    forall i :: 0 <= i < |s| ==> !IsLineTerminator(s[i])
  }

  /** What follows an emitted piece never begins with a quantifier. */
  lemma NextIsNoQuantifier(p: string)
    ensures p != "" ==> GlobRegex(p) != "" && QuantifierOf(GlobRegex(p)[0]) == Once
  {
  }

  predicate NoQuantifier(tail: string) {
    tail == "" || QuantifierOf(tail[0]) == Once
  }

  lemma ParseOnce(re: string, atom: Atom, n: nat, terms: seq<Term>)
    requires ParseAtom(re) == Some(Parsed(atom, n)) && NoQuantifier(re[n..]) && ParseRegex(re[n..]) == Some(terms)
    ensures ParseRegex(re) == Some([Term(atom, Once, false)] + terms)
  {
  }

  lemma ParseStar(tail: string, terms: seq<Term>)
    requires NoQuantifier(tail) && ParseRegex(tail) == Some(terms)
    ensures ParseRegex(".*" + tail) == Some([Term(AnyChar, Star, false)] + terms)
  {
    var re := ".*" + tail;
    assert re[1..] == "*" + tail && re[1..][1..] == tail;
  }

  lemma PieceIsAtom(c: char, tail: string)
    requires c != '*'
    ensures var piece := EscapeChar(c, GLOB_NEEDLES);
      ParseAtom(piece + tail) == Some(Parsed(TermFor(c).atom, |piece|))
  {
    var piece := EscapeChar(c, GLOB_NEEDLES);
    var re := piece + tail;
    assert re[0] == piece[0] && (|piece| > 1 ==> re[1] == piece[1]);
  }

  /** The emitted string is always one literal, any or any-star term for each character of the glob:
      no lazy, counted or misplaced quantifier can arise, whatever the pattern. */
  lemma {:induction false} RegexOfGlobParses(p: string)
    ensures ParseRegex(GlobRegex(p)) == Some(TermsFor(p))
  {
    if p != "" {
      var c, piece, tail := p[0], EscapeChar(p[0], GLOB_NEEDLES), GlobRegex(p[1..]);
      RegexOfGlobParses(p[1..]);
      NextIsNoQuantifier(p[1..]);
      if c == '*' {
        ParseStar(tail, TermsFor(p[1..]));
      } else {
        PieceIsAtom(c, tail);
        assert (piece + tail)[|piece|..] == tail;
        ParseOnce(piece + tail, TermFor(c).atom, |piece|, TermsFor(p[1..]));
      }
    }
  }

  /** For every pattern and every file name without line terminators the regular expression matches
      the whole name exactly when the glob does. */
  lemma {:induction false} GlobMeaningPreserved(p: string, s: string)
    requires Plain(s)
    ensures RegexMatches(TermsFor(p), s) <==> GlobMatches(p, s)
    decreases |p| + |s|
  {
    if p != "" {
      assert TermsFor(p)[1..] == TermsFor(p[1..]);
      assert TermsFor(p)[0] == TermFor(p[0]);
      if s != "" {
        GlobMeaningPreserved(p[1..], s[1..]);
        GlobMeaningPreserved(p, s[1..]);
      }
      GlobMeaningPreserved(p[1..], s);
    }
  }

  /** The condition on the name is exact: a name with a line terminator is missed by `*`. */
  lemma MeaningPreservedForIff(s: string)
    ensures Plain(s) <==> forall p :: RegexMatches(TermsFor(p), s) <==> GlobMatches(p, s)
  {
    if Plain(s) {
      forall p
        ensures RegexMatches(TermsFor(p), s) <==> GlobMatches(p, s)
      {
        GlobMeaningPreserved(p, s);
      }
    } else {
      StarMatchesAll(s);
      StarTermMissesTerminators(s);
      assert RegexMatches(TermsFor("*"), s) != GlobMatches("*", s);
    }
  }

  lemma {:induction false} StarMatchesAll(s: string)
    ensures GlobMatches("*", s)
  {
    assert "*"[1..] == "";
    if s != "" {
      StarMatchesAll(s[1..]);
    }
  }

  lemma {:induction false} StarTermMissesTerminators(s: string)
    requires !Plain(s)
    ensures !RegexMatches(TermsFor("*"), s)
  {
    var terms := TermsFor("*");
    assert "*"[1..] == "" && terms == [TermFor('*')] && terms[1..] == [];
    if !IsLineTerminator(s[0]) {
      StarTermMissesTerminators(s[1..]);
    }
  }
}
