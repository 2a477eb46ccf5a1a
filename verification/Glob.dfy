/** The glob compiler of scripts/check-cloud-anti-drift.js: four string rewrites that turn a
    path pattern into a regular expression, and the matching of that expression. */
module Glob {
  import opened Basics

  // ---------------------------------------------------------------- the four passes

  const HOLDER := "::double-star::"

  /** The characters the first pass escapes. */
  predicate Escapable(c: char) {
    c in ".+^${}()|[]\\"
  }

  function EscapeChar(c: char): string {
    if Escapable(c) then ['\\', c] else [c]
  }

  function Escape(p: string): string {
    if p == [] then [] else EscapeChar(p[0]) + Escape(p[1..])
  }

  /** Replaces the occurrences of the needle, leftmost first and without overlap. */
  function ReplaceAll(s: string, needle: string, replacement: string): string
    requires needle != []
    decreases |s|
  {
    if |s| == 0 then []
    else if needle <= s then replacement + ReplaceAll(s[|needle|..], needle, replacement)
    else [s[0]] + ReplaceAll(s[1..], needle, replacement)
  }

  function Compile(pattern: string): string {
    ReplaceAll(ReplaceAll(ReplaceAll(Escape(pattern), "**", HOLDER), "*", "[^/]*"), HOLDER, ".*")
  }

  // ---------------------------------------------------------------- regular expressions

  datatype Atom = Char(c: char) | NotSlash | Dot

  datatype Quantifier = Once | Optional | Many

  datatype Item = Item(atom: Atom, quantifier: Quantifier)

  predicate SyntaxCharacter(c: char) {
    c in "^$\\.*+?()[]{}|"
  }

  /** The atom at the head of a pattern and its length, for the atoms the compiler emits.  A
      quantifier with nothing to repeat is a syntax error, so no atom. */
  function ParseAtom(s: string): (r: Option<(Atom, nat)>)
    ensures r.Some? ==> 0 < r.value.1 <= |s|
  {
    if s == [] then None
    else if s[0] == '\\' then (if |s| > 1 && SyntaxCharacter(s[1]) then Some((Char(s[1]), 2)) else None)
    else if s[0] == '.' then Some((Dot, 1))
    else if "[^/]" <= s then Some((NotSlash, 4))
    else if SyntaxCharacter(s[0]) then None
    else Some((Char(s[0]), 1))
  }

  /** A quantifier and its length; a second question mark makes it lazy, which changes the
      order of the search but not the language. */
  function ParseQuantifier(s: string): (r: (Quantifier, nat))
    ensures r.1 <= |s|
  {
    if s == [] || s[0] !in "*?" then (Once, 0)
    else (if s[0] == '*' then Many else Optional, if |s| > 1 && s[1] == '?' then 2 else 1)
  }

  /** The items of an anchored pattern, or nothing when the constructor throws. */
  function Parse(s: string): Option<seq<Item>>
    decreases |s|
  {
    if s == [] then Some([])
    else
      var atom := ParseAtom(s);
      if atom.None? then None
      else
        var after := s[atom.value.1..];
        var quantifier := ParseQuantifier(after);
        var rest := Parse(after[quantifier.1..]);
        if rest.None? then None else Some([Item(atom.value.0, quantifier.0)] + rest.value)
  }

  predicate LineTerminator(c: char) {
    c == '\n' || c == '\r' || c == '\U{2028}' || c == '\U{2029}'
  }

  predicate Fits(atom: Atom, c: char) {
    match atom
    case Char(d) => c == d
    case NotSlash => c != '/'
    case Dot => !LineTerminator(c)
  }

  /** The language of an anchored sequence of items. */
  predicate Accepts(items: seq<Item>, path: string)
    decreases |items|, |path|
  {
    if items == [] then path == []
    else
      var x := items[0];
      || (x.quantifier != Once && Accepts(items[1..], path))
      || (&& path != [] && Fits(x.atom, path[0])
          && Accepts(if x.quantifier == Many then items else items[1..], path[1..]))
  }

  /** What matchesPattern answers, or nothing when the pattern does not compile. */
  function MatchesPattern(path: string, pattern: string): Option<bool> {
    var items := Parse(Compile(pattern));
    if items.None? then None else Some(Accepts(items.value, path))
  }

  // ---------------------------------------------------------------- the meaning of a glob

  predicate DoubleStarAt(p: string) {
    |p| >= 2 && p[0] == '*' && p[1] == '*'
  }

  /** A double star stands for any run of characters within a line, a single star for any run
      without a slash, and every other character for itself. */
  predicate GlobMatch(p: string, path: string)
    decreases |p|, |path|
  {
    if p == [] then path == []
    else if DoubleStarAt(p) then
      GlobMatch(p[2..], path) || (path != [] && !LineTerminator(path[0]) && GlobMatch(p, path[1..]))
    else if p[0] == '*' then
      GlobMatch(p[1..], path) || (path != [] && path[0] != '/' && GlobMatch(p, path[1..]))
    else
      path != [] && path[0] == p[0] && GlobMatch(p[1..], path[1..])
  }

  predicate Occurs(needle: string, s: string) {
    exists i | 0 <= i <= |s| :: needle <= s[i..]
  }

  /** The patterns that compile to what they mean: no question mark, and no text that the last
      pass would take for a placeholder, on its own or together with a following double star. */
  predicate Clean(p: string) {
    && '?' !in p
    && !Occurs("::double-star::", p)
    && !Occurs("::double-star:**", p)
    && !Occurs("::double-star**", p)
  }

  // ---------------------------------------------------------------- one tokenising pass

  datatype Token = Lit(c: char) | Star | DoubleStar

  function Tokens(p: string): seq<Token> {
    if p == [] then []
    else if DoubleStarAt(p) then [DoubleStar] + Tokens(p[2..])
    else [if p[0] == '*' then Star else Lit(p[0])] + Tokens(p[1..])
  }

  function Emit(t: Token): string {
    match t
    case Lit(c) => EscapeChar(c)
    case Star => "[^/]*"
    case DoubleStar => ".*"
  }

  function EmitAll(ts: seq<Token>): string {
    if ts == [] then [] else Emit(ts[0]) + EmitAll(ts[1..])
  }

  function ItemOf(t: Token): Item {
    match t
    case Lit(c) => Item(Char(c), Once)
    case Star => Item(NotSlash, Many)
    case DoubleStar => Item(Dot, Many)
  }

  function ItemsOf(ts: seq<Token>): seq<Item> {
    if ts == [] then [] else [ItemOf(ts[0])] + ItemsOf(ts[1..])
  }

  /** The pattern after two and after three passes, for a placeholder h. */
  function Twice(p: string, h: string): string {
    if p == [] then []
    else if DoubleStarAt(p) then h + Twice(p[2..], h)
    else EscapeChar(p[0]) + Twice(p[1..], h)
  }

  function Thrice(p: string, h: string): string {
    if p == [] then []
    else if DoubleStarAt(p) then h + Thrice(p[2..], h)
    else (if p[0] == '*' then "[^/]*" else EscapeChar(p[0])) + Thrice(p[1..], h)
  }

  lemma {:induction false} EscapeStart(p: string)
    ensures Escape(p) != [] && Escape(p)[0] == '*' ==> p != [] && p[0] == '*'
  {
  }

  lemma EscapeDoubleStar(p: string)
    requires DoubleStarAt(p)
    ensures "**" <= Escape(p) && Escape(p)[2..] == Escape(p[2..])
  {
  }

  lemma {:induction false} SecondPass(p: string, h: string)
    ensures ReplaceAll(Escape(p), "**", h) == Twice(p, h)
    decreases |p|
  {
    if p == [] {
    } else if DoubleStarAt(p) {
      SecondPass(p[2..], h);
      EscapeDoubleStar(p);
    } else {
      SecondPass(p[1..], h);
      EscapeStart(p[1..]);
      var rest := Escape(p[1..]);
      var u := [p[0]] + rest;
      assert |u| >= 2 ==> u[1] == rest[0];
      SkipEscaped(p[0], rest, "**", h);
    }
  }

  lemma SkipChar(x: char, s: string, needle: string, replacement: string)
    requires needle != [] && !(needle <= [x] + s)
    ensures ReplaceAll([x] + s, needle, replacement) == [x] + ReplaceAll(s, needle, replacement)
  {
  }

  /** A replacement passes over an escaped character that does not start the needle. */
  lemma SkipEscaped(c: char, s: string, needle: string, replacement: string)
    requires |needle| >= 2 && needle[0] != '\\' && !(needle <= [c] + s)
    ensures ReplaceAll(EscapeChar(c) + s, needle, replacement) == EscapeChar(c) + ReplaceAll(s, needle, replacement)
  {
  }

  lemma {:induction false} ReplaceStars(a: string, b: string)
    ensures ReplaceAll(a + b, "*", "[^/]*") == ReplaceAll(a, "*", "[^/]*") + ReplaceAll(b, "*", "[^/]*")
    decreases |a|
  {
    if a == [] {
      assert a + b == b;
    } else {
      assert (a + b)[1..] == a[1..] + b;
      ReplaceStars(a[1..], b);
    }
  }

  lemma {:induction false} NoStars(a: string)
    requires '*' !in a
    ensures ReplaceAll(a, "*", "[^/]*") == a
    decreases |a|
  {
    if a != [] {
      NoStars(a[1..]);
    }
  }

  lemma {:induction false} ThirdPass(p: string, h: string)
    requires '*' !in h
    ensures ReplaceAll(Twice(p, h), "*", "[^/]*") == Thrice(p, h)
    decreases |p|
  {
    if p == [] {
    } else if DoubleStarAt(p) {
      ThirdPass(p[2..], h);
      NoStars(h);
      ReplaceStars(h, Twice(p[2..], h));
    } else {
      ThirdPass(p[1..], h);
      ReplaceStars(EscapeChar(p[0]), Twice(p[1..], h));
      if p[0] == '*' {
        assert "*"[1..] == "" && ReplaceAll("*", "*", "[^/]*") == "[^/]*";
      } else {
        NoStars(EscapeChar(p[0]));
      }
    }
  }
}
