/** The four passes compile a glob to its meaning exactly when the pattern is clean. */
module GlobTheorem {
  import opened Basics
  import opened Glob
  import opened GlobProof

  function Lits(ts: seq<Token>): string {
    if ts == [] then [] else (if ts[0].Lit? then [ts[0].c] else []) + Lits(ts[1..])
  }

  ghost predicate NoStarLits(ts: seq<Token>) {
    forall k | 0 <= k < |ts| :: ts[k] != Lit('*')
  }

  ghost predicate CleanFor(p: string, w: string) {
    && !Occurs(Holder(w), p)
    && !Occurs([':', ':'] + w + [':', '*', '*'], p)
    && !Occurs([':', ':'] + w + ['*', '*'], p)
  }

  lemma OccursStep(needle: string, p: string)
    requires p != [] && needle != []
    ensures Occurs(needle, p) <==> needle <= p || Occurs(needle, p[1..])
  {
    assert p[0..] == p;
    if Occurs(needle, p) && !(needle <= p) {
      var i :| 0 <= i <= |p| && needle <= p[i..];
      assert p[i..] == p[1..][i - 1..];
    }
    if Occurs(needle, p[1..]) {
      var i :| 0 <= i <= |p[1..]| && needle <= p[1..][i..];
      assert p[1..][i..] == p[i + 1..];
    }
  }

  lemma CleanStep(p: string, w: string)
    requires p != []
    ensures CleanFor(p, w) <==> !StartsBad(p, w) && CleanFor(p[1..], w)
  {
    OccursStep(Holder(w), p);
    OccursStep([':', ':'] + w + [':', '*', '*'], p);
    OccursStep([':', ':'] + w + ['*', '*'], p);
  }

  lemma StarStartsNothing(p: string, w: string)
    requires p != [] && p[0] != ':'
    ensures !StartsBad(p, w)
  {
  }

  // ---------------------------------------------------------------- the last pass, token by token

  function LastPass(s: string, w: string): string {
    ReplaceAll(s, Holder(w), ".*")
  }

  lemma {:induction false} PassOver(a: string, s: string, w: string)
    requires forall k | 0 <= k < |a| :: a[k] != ':'
    ensures LastPass(a + s, w) == a + LastPass(s, w)
    decreases |a|
  {
    if a == [] {
      assert a + s == s;
    } else {
      assert (a + s)[1..] == a[1..] + s;
      assert Holder(w)[0] == ':' && (a + s)[0] == a[0];
      PassOver(a[1..], s, w);
      assert a == [a[0]] + a[1..];
    }
  }

  lemma {:induction false} PlainThrice(a: string, s: string, h: string)
    requires forall k | 0 <= k < |a| :: a[k] == ':' || Plain(a[k])
    ensures Thrice(a + s, h) == a + Thrice(s, h)
    decreases |a|
  {
    if a == [] {
      assert a + s == s;
    } else {
      ThriceStep(a[0], a[1..] + s, h);
      PlainThrice(a[1..], s, h);
      Regroup(a, s);
      Regroup(a, Thrice(s, h));
    }
  }

  lemma ThriceStep(x: char, s: string, h: string)
    requires x == ':' || Plain(x)
    ensures Thrice([x] + s, h) == [x] + Thrice(s, h)
  {
  }

  lemma SpelledOut(p: string, w: string, rest: string, mid: string)
    requires PlainWord(w) && p == ([':', ':'] + w) + rest
    requires mid <= Thrice(rest, Holder(w)) && mid == [':', ':']
    ensures Holder(w) <= Thrice(p, Holder(w))
  {
    PlainThrice([':', ':'] + w, rest, Holder(w));
    assert Holder(w) == ([':', ':'] + w) + mid;
  }

  lemma ColonsBegin(rest: string, h: string)
    requires h != [] && |h| >= 2 && h[..2] == [':', ':']
    requires [':', ':'] <= rest || [':', '*', '*'] <= rest || ['*', '*'] <= rest
    ensures [':', ':'] <= Thrice(rest, h)
  {
    if [':', ':'] <= rest {
      assert rest == [':', ':'] + rest[2..];
      PlainThrice([':', ':'], rest[2..], h);
    } else if [':', '*', '*'] <= rest {
      assert rest == [':'] + rest[1..] && rest[1] == [':', '*', '*'][1] && rest[2] == [':', '*', '*'][2];
      assert DoubleStarAt(rest[1..]);
      PlainThrice([':'], rest[1..], h);
    } else {
      assert rest[0] == ['*', '*'][0] && rest[1] == ['*', '*'][1];
    }
  }

  lemma BadRest(p: string, w: string) returns (rest: string)
    requires StartsBad(p, w)
    ensures p == ([':', ':'] + w) + rest
    ensures [':', ':'] <= rest || [':', '*', '*'] <= rest || ['*', '*'] <= rest
  {
    var head := [':', ':'] + w;
    rest := p[|head|..];
    if Holder(w) <= p {
      assert Holder(w) == head + [':', ':'];
      assert rest[..2] == Holder(w)[|head|..] == [':', ':'];
    } else if head + [':', '*', '*'] <= p {
      assert rest[..3] == (head + [':', '*', '*'])[|head|..] == [':', '*', '*'];
    } else {
      assert rest[..2] == (head + ['*', '*'])[|head|..] == ['*', '*'];
    }
  }

  /** Text that spells a placeholder, up to a double star, does compile to one. */
  lemma BadCompiles(p: string, w: string)
    requires PlainWord(w) && StartsBad(p, w)
    ensures Holder(w) <= Thrice(p, Holder(w)) && !DoubleStarAt(p)
  {
    var rest := BadRest(p, w);
    assert p[0] == ':';
    assert Holder(w)[..2] == [':', ':'];
    ColonsBegin(rest, Holder(w));
    SpelledOut(p, w, rest, [':', ':']);
  }

  /** The rest of a placeholder from position j on, before the remaining pattern. */
  function Ahead(p: string, w: string, j: nat): string
    requires j <= |w| + 4
  {
    Holder(w)[j..] + Thrice(p, Holder(w))
  }

  lemma PrefixAfter(a: string, b: string, s: string)
    ensures a + b <= a + s <==> b <= s
  {
    assert (a + s)[|a|..] == s;
    if a + b <= a + s {
      assert (a + b)[|a|..] == b && (a + s)[..|a + b|][|a|..] == s[..|b|];
    }
  }

  lemma FoundAhead(p: string, w: string, n: nat)
    requires n <= 2
    ensures Holder(w) <= Ahead(p, w, |w| + 2 + n) <==> Holder(w)[2 - n..] <= Thrice(p, Holder(w))
  {
    var colons := Holder(w)[|w| + 2 + n..];
    assert Holder(w) == colons + Holder(w)[2 - n..];
    PrefixAfter(colons, Holder(w)[2 - n..], Thrice(p, Holder(w)));
  }

  lemma NotFoundAhead(p: string, w: string, j: nat)
    requires PlainWord(w) && 1 <= j < |w| + 2
    ensures !(Holder(w) <= Ahead(p, w, j))
  {
    var h, s := Holder(w), Ahead(p, w, j);
    assert h[0] == h[1] == ':' && h[2] == w[0];
    if j == 1 {
      assert s[1] == h[2];
    } else {
      assert s[0] == h[j] == w[j - 2];
    }
  }

  /** The last pass has made these tokens of the text. */
  ghost predicate ReadsAs(ts: seq<Token>, p: string, w: string, j: nat)
    requires j <= |w| + 4
  {
    LastPass(Ahead(p, w, j), w) == EmitAll(ts) && NoStarLits(ts)
  }

  /** How many literal characters they have, and which ones come first. */
  predicate ReadsLits(ts: seq<Token>, p: string, w: string, j: nat)
    requires 1 <= j <= |w| + 4 && w != []
  {
    && |Lits(ts)| <= |w| + 4 - j + |Literals(p)|
    && ('?' in p ==> '?' in Lits(ts))
    && (j == 1 ==> [':', w[0]] <= Lits(ts))
    && (j == 2 ==> [w[0]] <= Lits(ts))
  }

  /** Whether they are the pattern's own. */
  ghost predicate ReadsOwn(ts: seq<Token>, p: string, w: string) {
    if CleanFor(p, w) then ts == Tokens(p) else Lits(ts) != Literals(p)
  }

  ghost predicate Reads(ts: seq<Token>, p: string, w: string, j: nat)
    requires 1 <= j <= |w| + 4 && w != []
  {
    ReadsAs(ts, p, w, j) && ReadsLits(ts, p, w, j) && (j == |w| + 4 ==> ReadsOwn(ts, p, w))
  }

  lemma AheadStep(h: string, j: nat, s: string)
    requires j < |h|
    ensures h[j..] + s == [h[j]] + (h[j + 1..] + s)
  {
  }

  lemma LitsCons(t: Token, ts: seq<Token>)
    ensures Lits([t] + ts) == (if t.Lit? then [t.c] else []) + Lits(ts)
    ensures EmitAll([t] + ts) == Emit(t) + EmitAll(ts)
    ensures NoStarLits(ts) && t != Lit('*') ==> NoStarLits([t] + ts)
  {
    assert ([t] + ts)[1..] == ts;
  }

  lemma PendingAs(p: string, w: string, j: nat, ts: seq<Token>)
    requires PlainWord(w) && 1 <= j < |w| + 4 && ReadsAs(ts, p, w, j + 1)
    requires !(Holder(w) <= Ahead(p, w, j))
    ensures ReadsAs([Lit(Holder(w)[j])] + ts, p, w, j)
  {
    var x := Holder(w)[j];
    assert x == ':' || Plain(x);
    AheadStep(Holder(w), j, Thrice(p, Holder(w)));
    SkipChar(x, Ahead(p, w, j + 1), Holder(w), ".*");
    LitsCons(Lit(x), ts);
    assert Emit(Lit(x)) == [x];
  }

  lemma PendingLits(p: string, w: string, j: nat, ts: seq<Token>)
    requires PlainWord(w) && 1 <= j < |w| + 4 && ReadsLits(ts, p, w, j + 1)
    ensures ReadsLits([Lit(Holder(w)[j])] + ts, p, w, j)
  {
    var x := Holder(w)[j];
    LitsCons(Lit(x), ts);
    assert j == 1 ==> x == ':';
    assert j == 2 ==> x == w[0];
  }

  lemma ReadsPending(p: string, w: string, j: nat, ts: seq<Token>)
    requires PlainWord(w) && 1 <= j < |w| + 4 && Reads(ts, p, w, j + 1)
    requires !(Holder(w) <= Ahead(p, w, j))
    ensures Reads([Lit(Holder(w)[j])] + ts, p, w, j)
  {
    PendingAs(p, w, j, ts);
    PendingLits(p, w, j, ts);
  }

  lemma ReadsFound(p: string, w: string, n: nat, j: nat, rest: string, ts: seq<Token>)
    requires PlainWord(w) && n <= 2 && 1 <= j <= |w| + 4 && Reads(ts, rest, w, j)
    requires Holder(w) <= Ahead(p, w, |w| + 2 + n) && Consumed(p, w, n, j, rest)
    ensures Reads([DoubleStar] + ts, p, w, |w| + 2 + n)
  {
    var s, h := Ahead(p, w, |w| + 2 + n), Holder(w);
    assert s[|h|..] == Ahead(rest, w, j);
    var us := [DoubleStar] + ts;
    assert us[1..] == ts;
    assert Lits(us) == Lits(ts);
    if n == 2 {
      CleanStep(p, w);
      FirstDiffers(w, j, Lits(ts), Literals(p));
    }
  }

  lemma FirstDiffers(w: string, j: nat, a: string, b: string)
    requires PlainWord(w) && [':', ':'] <= b
    requires |a| < |b| || (j == 1 && [':', w[0]] <= a) || (j == 2 && [w[0]] <= a)
    ensures a != b
  {
    if j == 1 && [':', w[0]] <= a {
      assert a[1] == [':', w[0]][1] && b[1] == [':', ':'][1];
      assert Plain(w[0]);
    } else if j == 2 && [w[0]] <= a {
      assert a[0] == [w[0]][0] && b[0] == [':', ':'][0];
      assert Plain(w[0]);
    }
  }

  lemma DoubleStarAs(p: string, w: string, ts: seq<Token>)
    requires PlainWord(w) && DoubleStarAt(p) && ReadsAs(ts, p[2..], w, |w| + 4)
    ensures ReadsAs([DoubleStar] + ts, p, w, |w| + 4)
  {
    var h, s := Holder(w), Thrice(p, Holder(w));
    assert Ahead(p, w, |w| + 4) == s && Ahead(p[2..], w, |w| + 4) == Thrice(p[2..], h);
    assert s == h + Thrice(p[2..], h) && s[|h|..] == Thrice(p[2..], h);
    LitsCons(DoubleStar, ts);
  }

  lemma DoubleStarOwn(p: string, w: string, ts: seq<Token>)
    requires PlainWord(w) && DoubleStarAt(p) && ReadsOwn(ts, p[2..], w)
    ensures ReadsOwn([DoubleStar] + ts, p, w)
  {
    LitsCons(DoubleStar, ts);
    assert p[1..][1..] == p[2..];
    CleanStep(p, w);
    CleanStep(p[1..], w);
    StarStartsNothing(p, w);
    StarStartsNothing(p[1..], w);
  }

  lemma ReadsDoubleStar(p: string, w: string, ts: seq<Token>)
    requires PlainWord(w) && DoubleStarAt(p) && Reads(ts, p[2..], w, |w| + 4)
    ensures Reads([DoubleStar] + ts, p, w, |w| + 4)
  {
    DoubleStarAs(p, w, ts);
    DoubleStarOwn(p, w, ts);
    LitsCons(DoubleStar, ts);
  }

  lemma StarAhead(p: string, w: string)
    requires p != [] && p[0] == '*' && !DoubleStarAt(p)
    ensures Ahead(p, w, |w| + 4) == Emit(Star) + Ahead(p[1..], w, |w| + 4)
  {
  }

  lemma StarText()
    ensures forall k | 0 <= k < |Emit(Star)| :: Emit(Star)[k] != ':'
  {
  }

  lemma ReadsStar(p: string, w: string, ts: seq<Token>)
    requires PlainWord(w) && p != [] && p[0] == '*' && !DoubleStarAt(p) && Reads(ts, p[1..], w, |w| + 4)
    ensures Reads([Star] + ts, p, w, |w| + 4)
  {
    var rest := Ahead(p[1..], w, |w| + 4);
    StarAhead(p, w);
    StarText();
    PassOver(Emit(Star), rest, w);
    var us := [Star] + ts;
    assert us[1..] == ts;
    assert Lits(us) == Lits(ts) && Literals(p) == Literals(p[1..]);
    CleanStep(p, w);
    StarStartsNothing(p, w);
  }

  lemma LiteralAs(p: string, w: string, ts: seq<Token>)
    requires PlainWord(w) && p != [] && p[0] != '*' && ReadsAs(ts, p[1..], w, |w| + 4)
    requires !(Holder(w) <= Ahead(p, w, |w| + 4))
    ensures ReadsAs([Lit(p[0])] + ts, p, w, |w| + 4)
  {
    var x, s := p[0], Thrice(p[1..], Holder(w));
    assert Ahead(p, w, |w| + 4) == EscapeChar(x) + s && Ahead(p[1..], w, |w| + 4) == s;
    if Escapable(x) {
      PassOver(EscapeChar(x), s, w);
    } else {
      SkipChar(x, s, Holder(w), ".*");
    }
    LitsCons(Lit(x), ts);
  }

  lemma LiteralOwn(p: string, w: string, ts: seq<Token>)
    requires PlainWord(w) && p != [] && p[0] != '*' && ReadsOwn(ts, p[1..], w)
    requires !(Holder(w) <= Thrice(p, Holder(w)))
    ensures ReadsOwn([Lit(p[0])] + ts, p, w)
  {
    LitsCons(Lit(p[0]), ts);
    CleanStep(p, w);
    if StartsBad(p, w) {
      BadCompiles(p, w);
    }
    var us := [Lit(p[0])] + ts;
    assert Lits(us)[1..] == Lits(ts) && Literals(p)[1..] == Literals(p[1..]);
  }

  lemma ReadsLiteral(p: string, w: string, ts: seq<Token>)
    requires PlainWord(w) && p != [] && p[0] != '*' && Reads(ts, p[1..], w, |w| + 4)
    requires !(Holder(w) <= Ahead(p, w, |w| + 4))
    ensures Reads([Lit(p[0])] + ts, p, w, |w| + 4)
  {
    LiteralAs(p, w, ts);
    assert Ahead(p, w, |w| + 4) == Thrice(p, Holder(w));
    LiteralOwn(p, w, ts);
    LitsCons(Lit(p[0]), ts);
  }

  lemma {:induction false} LastPassReads(p: string, w: string, j: nat) returns (ts: seq<Token>)
    requires PlainWord(w) && 1 <= j <= |w| + 4
    ensures Reads(ts, p, w, j)
    decreases |p|, |w| + 5 - j
  {
    if j >= |w| + 2 && Holder(w) <= Ahead(p, w, j) && !(j == |w| + 4 && DoubleStarAt(p)) {
      var n := j - |w| - 2;
      FoundAhead(p, w, n);
      var k, rest := Consume(p, w, n);
      ts := LastPassReads(rest, w, k);
      ReadsFound(p, w, n, k, rest, ts);
      ts := [DoubleStar] + ts;
    } else if j < |w| + 4 {
      if j < |w| + 2 {
        NotFoundAhead(p, w, j);
      }
      ts := LastPassReads(p, w, j + 1);
      ReadsPending(p, w, j, ts);
      ts := [Lit(Holder(w)[j])] + ts;
    } else {
      ts := LastPassReadsOne(p, w);
    }
  }

  /** Where no placeholder is pending and none is found, it reads one token of the pattern. */
  lemma {:induction false} LastPassReadsOne(p: string, w: string) returns (ts: seq<Token>)
    requires PlainWord(w) && (Holder(w) <= Ahead(p, w, |w| + 4) ==> DoubleStarAt(p))
    ensures Reads(ts, p, w, |w| + 4)
    decreases |p|, 0
  {
    if p == [] {
      ts := [];
      ReadsNothing(w);
    } else if DoubleStarAt(p) {
      ts := LastPassReads(p[2..], w, |w| + 4);
      ReadsDoubleStar(p, w, ts);
      ts := [DoubleStar] + ts;
    } else if p[0] == '*' {
      ts := LastPassReads(p[1..], w, |w| + 4);
      ReadsStar(p, w, ts);
      ts := [Star] + ts;
    } else {
      ts := LastPassReads(p[1..], w, |w| + 4);
      ReadsLiteral(p, w, ts);
      ts := [Lit(p[0])] + ts;
    }
  }

  lemma ReadsNothing(w: string)
    requires PlainWord(w)
    ensures Reads([], [], w, |w| + 4)
  {
  }

  // ---------------------------------------------------------------- parsing the compiled text

  /** The shortest path the items accept, when every item to match once is a character. */
  function Shortest(items: seq<Item>): string {
    if items == [] then []
    else (if items[0].quantifier == Once && items[0].atom.Char? then [items[0].atom.c] else [])
         + Shortest(items[1..])
  }

  ghost predicate CharsOnce(items: seq<Item>) {
    forall k | 0 <= k < |items| :: items[k].quantifier == Once ==> items[k].atom.Char?
  }

  lemma {:induction false} ShortestAccepted(items: seq<Item>)
    requires CharsOnce(items)
    ensures Accepts(items, Shortest(items))
    decreases |items|
  {
    if items != [] {
      ShortestAccepted(items[1..]);
      if items[0].quantifier == Once {
        assert Shortest(items) == [items[0].atom.c] + Shortest(items[1..]);
        assert Shortest(items)[1..] == Shortest(items[1..]);
      } else {
        assert Shortest(items) == Shortest(items[1..]);
      }
    }
  }

  predicate Mark(t: Token) {
    t == Lit('?')
  }

  /** A token other than a question mark parses to its item's atom, and leaves the rest. */
  lemma ParseHead(t: Token, s: string)
    requires !Mark(t) && t != Lit('*')
    ensures ParseAtom(Emit(t) + s).Some?
    ensures var a := ParseAtom(Emit(t) + s).value;
            && a.0 == ItemOf(t).atom
            && (Emit(t) + s)[a.1..] == (if t.Lit? then [] else ['*']) + s
  {
  }

  lemma EmitStart(ts: seq<Token>)
    requires NoStarLits(ts)
    ensures EmitAll(ts) != [] ==> EmitAll(ts)[0] != '*'
    ensures ts != [] ==> EmitAll(ts) != [] && (EmitAll(ts)[0] == '?' <==> Mark(ts[0]))
  {
    if ts != [] {
      EmitFirst(ts[0]);
      assert EmitAll(ts) == Emit(ts[0]) + EmitAll(ts[1..]);
    }
  }

  lemma EmitFirst(t: Token)
    requires t != Lit('*')
    ensures Emit(t) != [] && Emit(t)[0] != '*' && (Emit(t)[0] == '?' <==> Mark(t))
  {
  }

  predicate MarkAt(ts: seq<Token>, k: nat) {
    k < |ts| && Mark(ts[k])
  }

  /** How many tokens one round of the parser takes: a token and the question marks, at most
      two after a character and one after a star, that quantify it. */
  function Taken(ts: seq<Token>): (n: nat)
    requires ts != []
    ensures n <= |ts|
  {
    if !MarkAt(ts, 1) then 1 else if ts[0].Lit? && MarkAt(ts, 2) then 3 else 2
  }

  function QuantifiedItem(ts: seq<Token>): Item
    requires ts != []
  {
    ItemOf(ts[0]).(quantifier := if !ts[0].Lit? then Many else if MarkAt(ts, 1) then Optional else Once)
  }

  /** What follows an emitted character: up to two question marks. */
  lemma ParseAfterLiteral(ts: seq<Token>)
    requires NoStarLits(ts)
    ensures var k: nat := if MarkAt(ts, 0) then (if MarkAt(ts, 1) then 2 else 1) else 0;
            && ParseQuantifier(EmitAll(ts)) == (if k == 0 then Once else Optional, k)
            && EmitAll(ts)[k..] == EmitAll(ts[k..])
  {
  }

  lemma ParseAfterStar(ts: seq<Token>)
    requires NoStarLits(ts)
    ensures var s, k: nat := ['*'] + EmitAll(ts), if MarkAt(ts, 0) then 1 else 0;
            ParseQuantifier(s) == (Many, k + 1) && s[k + 1..] == EmitAll(ts[k..])
  {
  }

  lemma ParseUnfold(s: string, a: Atom, n: nat, q: Quantifier, m: nat)
    requires s != [] && ParseAtom(s) == Some((a, n)) && ParseQuantifier(s[n..]) == (q, m)
    ensures var rest := Parse(s[n..][m..]);
            Parse(s) == if rest.None? then None else Some([Item(a, q)] + rest.value)
  {
  }

  /** One round of the parser takes one token and the question marks that quantify it. */
  lemma ParseRound(ts: seq<Token>)
    requires ts != [] && !Mark(ts[0]) && NoStarLits(ts)
    ensures
      var rest := Parse(EmitAll(ts[Taken(ts)..]));
      Parse(EmitAll(ts)) == if rest.None? then None else Some([QuantifiedItem(ts)] + rest.value)
  {
    var us := ts[1..];
    assert NoStarLits(us);
    assert us[Taken(ts) - 1..] == ts[Taken(ts)..];
    assert MarkAt(us, 0) == MarkAt(ts, 1) && MarkAt(us, 1) == MarkAt(ts, 2);
    if ts[0].Lit? {
      ParseLiteral(ts[0], us, Taken(ts) - 1);
    } else {
      ParseStar(ts[0], us, Taken(ts) - 1);
    }
  }

  lemma ParseLiteral(t: Token, us: seq<Token>, k: nat)
    requires t.Lit? && !Mark(t) && t != Lit('*') && NoStarLits(us)
    requires k == if MarkAt(us, 0) then (if MarkAt(us, 1) then 2 else 1) else 0
    ensures
      var rest := Parse(EmitAll(us[k..]));
      Parse(Emit(t) + EmitAll(us)) ==
        if rest.None? then None else Some([Item(Char(t.c), if k == 0 then Once else Optional)] + rest.value)
  {
    var s := Emit(t) + EmitAll(us);
    ParseHead(t, EmitAll(us));
    assert [] + EmitAll(us) == EmitAll(us);
    ParseAfterLiteral(us);
    var a := ParseAtom(s).value;
    ParseUnfold(s, a.0, a.1, if k == 0 then Once else Optional, k);
  }

  lemma ParseStar(t: Token, us: seq<Token>, k: nat)
    requires !t.Lit? && NoStarLits(us) && k == if MarkAt(us, 0) then 1 else 0
    ensures
      var rest := Parse(EmitAll(us[k..]));
      Parse(Emit(t) + EmitAll(us)) ==
        if rest.None? then None else Some([Item(ItemOf(t).atom, Many)] + rest.value)
  {
    var s := Emit(t) + EmitAll(us);
    ParseHead(t, EmitAll(us));
    ParseAfterStar(us);
    var a := ParseAtom(s).value;
    ParseUnfold(s, a.0, a.1, Many, k + 1);
  }

  /** Without question marks the compiled text parses to the tokens' items. */
  lemma {:induction false} ParseTokens(ts: seq<Token>)
    requires NoStarLits(ts) && forall k | 0 <= k < |ts| :: !Mark(ts[k])
    ensures Parse(EmitAll(ts)) == Some(ItemsOf(ts))
    decreases |ts|
  {
    if ts != [] {
      ParseRound(ts);
      ParseTokens(ts[1..]);
    }
  }

  lemma {:induction false} LitsSplit(a: seq<Token>, b: seq<Token>)
    ensures Lits(a + b) == Lits(a) + Lits(b)
    decreases |a|
  {
    if a == [] {
      assert a + b == b;
    } else {
      assert (a + b)[1..] == a[1..] + b && (a + b)[0] == a[0];
      LitsSplit(a[1..], b);
      var x := if a[0].Lit? then [a[0].c] else [];
      assert x + (Lits(a[1..]) + Lits(b)) == (x + Lits(a[1..])) + Lits(b);
    }
  }

  /** The items accept a path that is shorter than the literal characters, or as long. */
  ghost predicate Short(items: Option<seq<Item>>, ts: seq<Token>) {
    items.Some? ==>
      && CharsOnce(items.value) && |Shortest(items.value)| <= |Lits(ts)|
      && ('?' in Lits(ts) ==> |Shortest(items.value)| < |Lits(ts)|)
  }

  lemma MarkFirst(ts: seq<Token>)
    requires ts != [] && Mark(ts[0]) && NoStarLits(ts)
    ensures Parse(EmitAll(ts)).None?
  {
    EmitStart(ts);
    assert EmitAll(ts) == ['?'] + EmitAll(ts[1..]);
  }

  lemma ShortCons(item: Item, items: seq<Item>)
    ensures Shortest([item] + items)
            == (if item.quantifier == Once && item.atom.Char? then [item.atom.c] else []) + Shortest(items)
    ensures CharsOnce(items) && (item.quantifier == Once ==> item.atom.Char?) ==> CharsOnce([item] + items)
  {
    assert ([item] + items)[1..] == items;
  }

  lemma ShortRound(ts: seq<Token>, items: seq<Item>)
    requires ts != [] && !Mark(ts[0]) && Taken(ts) <= |ts| && Short(Some(items), ts[Taken(ts)..])
    ensures Short(Some([QuantifiedItem(ts)] + items), ts)
  {
    var k := Taken(ts);
    assert ts == ts[..k] + ts[k..];
    LitsSplit(ts[..k], ts[k..]);
    MarksTaken(ts);
    ShortCons(QuantifiedItem(ts), items);
  }

  /** With question marks the text either does not parse or accepts a path that is too short. */
  lemma {:induction false} ParseMarks(ts: seq<Token>)
    requires NoStarLits(ts)
    ensures Short(Parse(EmitAll(ts)), ts)
    decreases |ts|
  {
    if ts == [] {
    } else if Mark(ts[0]) {
      MarkFirst(ts);
    } else {
      var rest := ts[Taken(ts)..];
      ParseRound(ts);
      ParseMarks(rest);
      if Parse(EmitAll(rest)).Some? {
        ShortRound(ts, Parse(EmitAll(rest)).value);
      }
    }
  }

  lemma MarksTaken(ts: seq<Token>)
    requires ts != [] && !Mark(ts[0]) && Taken(ts) <= |ts|
    ensures var a := Lits(ts[..Taken(ts)]);
            && |a| == Taken(ts) - (if ts[0].Lit? then 0 else 1)
            && ('?' in a <==> Taken(ts) > 1)
  {
    var a := ts[..Taken(ts)];
    var marks := a[1..];
    assert Lits(a) == (if ts[0].Lit? then [ts[0].c] else []) + Lits(marks);
    if Taken(ts) == 1 {
      assert marks == [];
    } else if Taken(ts) == 2 {
      assert marks == [Lit('?')];
      LitsMarks();
    } else {
      assert marks == [Lit('?'), Lit('?')];
      LitsMarks();
    }
  }

  lemma LitsMarks()
    ensures Lits([Lit('?')]) == ['?'] && Lits([Lit('?'), Lit('?')]) == ['?', '?']
  {
  }

  // ---------------------------------------------------------------- main results

  lemma {:induction false} TokensMean(p: string, path: string)
    ensures Accepts(ItemsOf(Tokens(p)), path) == GlobMatch(p, path)
    decreases |p|, |path|
  {
    if p != [] {
      var rest := if DoubleStarAt(p) then p[2..] else p[1..];
      assert Tokens(p)[1..] == Tokens(rest);
      assert ItemsOf(Tokens(p))[1..] == ItemsOf(Tokens(rest));
      TokensMean(rest, path);
      if path != [] {
        TokensMean(rest, path[1..]);
        TokensMean(p, path[1..]);
      }
    }
  }

  /** A glob accepts its literal characters in order, and nothing else that short. */
  lemma {:induction false} MatchLength(p: string, path: string)
    requires GlobMatch(p, path)
    ensures |path| > |Literals(p)| || path == Literals(p)
    decreases |p|, |path|
  {
    if p == [] {
    } else if p[0] == '*' {
      var rest := if DoubleStarAt(p) then p[2..] else p[1..];
      assert Literals(p) == Literals(rest);
      if GlobMatch(rest, path) {
        MatchLength(rest, path);
      } else {
        MatchLength(p, path[1..]);
      }
    } else {
      MatchLength(p[1..], path[1..]);
      assert path == [path[0]] + path[1..];
    }
  }

  const WORD := "double-star"

  lemma WordIsPlain()
    ensures PlainWord(WORD) && |WORD| == 11 && '*' !in Holder(WORD) && Holder(WORD) == HOLDER
  {
  }

  lemma CleanIsCleanFor(p: string)
    ensures Clean(p) <==> '?' !in p && CleanFor(p, WORD)
  {
    assert "::double-star::" == Holder(WORD);
    assert "::double-star:**" == [':', ':'] + WORD + [':', '*', '*'];
    assert "::double-star**" == [':', ':'] + WORD + ['*', '*'];
  }

  lemma CompileIsThrice(p: string)
    ensures Compile(p) == LastPass(Thrice(p, Holder(WORD)), WORD)
  {
    WordIsPlain();
    SecondPass(p, Holder(WORD));
    ThirdPass(p, Holder(WORD));
  }

  /** What the four passes make of any pattern. */
  lemma CompileReads(p: string) returns (ts: seq<Token>)
    ensures Compile(p) == EmitAll(ts) && NoStarLits(ts) && |Lits(ts)| <= |Literals(p)|
    ensures '?' in p ==> '?' in Lits(ts)
    ensures if CleanFor(p, WORD) then ts == Tokens(p) else Lits(ts) != Literals(p)
  {
    WordIsPlain();
    CompileIsThrice(p);
    ts := LastPassReads(p, WORD, 15);
    assert Ahead(p, WORD, 15) == Thrice(p, Holder(WORD));
  }

  lemma {:induction false} MarkIsLit(ts: seq<Token>, k: nat)
    requires k < |ts| && Mark(ts[k])
    ensures '?' in Lits(ts)
    decreases |ts|
  {
    assert ts == [ts[0]] + ts[1..];
    LitsCons(ts[0], ts[1..]);
    if k > 0 {
      MarkIsLit(ts[1..], k - 1);
    }
  }

  lemma NoMarks(ts: seq<Token>)
    requires '?' !in Lits(ts)
    ensures forall k | 0 <= k < |ts| :: !Mark(ts[k])
  {
    if k :| 0 <= k < |ts| && Mark(ts[k]) {
      MarkIsLit(ts, k);
    }
  }

  lemma {:induction false} LitsOfTokens(p: string)
    ensures Lits(Tokens(p)) == Literals(p)
    ensures '?' in Literals(p) ==> '?' in p
    decreases |p|
  {
    if p != [] {
      var rest := if DoubleStarAt(p) then p[2..] else p[1..];
      LitsOfTokens(rest);
      assert Tokens(p)[1..] == Tokens(rest);
    }
  }

  lemma CharsItems(ts: seq<Token>)
    ensures CharsOnce(ItemsOf(ts)) && Shortest(ItemsOf(ts)) == Lits(ts)
  {
  }

  /** A clean pattern compiles to its meaning: the four passes are one tokenising pass, and the
      expression accepts exactly the paths of the glob. */
  lemma CleanCompiles(pattern: string, path: string)
    requires Clean(pattern)
    ensures Compile(pattern) == EmitAll(Tokens(pattern))
    ensures MatchesPattern(path, pattern) == Some(GlobMatch(pattern, path))
  {
    CleanIsCleanFor(pattern);
    var ts := CompileReads(pattern);
    LitsOfTokens(pattern);
    NoMarks(ts);
    ParseTokens(ts);
    TokensMean(pattern, path);
  }

  // ---------------------------------------------------------------- the meaning, piece by piece

  function Joined(pieces: seq<string>): string {
    if pieces == [] then [] else pieces[0] + Joined(pieces[1..])
  }

  /** What a token may stand for. */
  predicate StandsFor(t: Token, piece: string) {
    match t
    case Lit(c) => piece == [c]
    case Star => '/' !in piece
    case DoubleStar => forall k | 0 <= k < |piece| :: piece[k] !in ['\n', '\r', '\U{2028}', '\U{2029}']
  }

  /** The path in as many pieces as tokens, each token standing for its piece. */
  ghost predicate Fills(ts: seq<Token>, pieces: seq<string>, path: string) {
    |pieces| == |ts| && Joined(pieces) == path && forall k | 0 <= k < |ts| :: StandsFor(ts[k], pieces[k])
  }

  lemma FillsMore(t: Token, ts: seq<Token>, piece: string, pieces: seq<string>, path: string)
    requires Fills(ts, pieces, path) && StandsFor(t, piece)
    ensures Fills([t] + ts, [piece] + pieces, piece + path)
  {
    assert ([piece] + pieces)[1..] == pieces;
  }

  /** A star can also stand for one character more. */
  lemma FillsLonger(t: Token, ts: seq<Token>, c: char, pieces: seq<string>, path: string)
    requires Fills([t] + ts, pieces, path) && !t.Lit?
    requires if t.Star? then c != '/' else !LineTerminator(c)
    ensures Fills([t] + ts, [[c] + pieces[0]] + pieces[1..], [c] + path)
  {
    var more := [[c] + pieces[0]] + pieces[1..];
    assert more[1..] == pieces[1..];
    assert ([t] + ts)[0] == t;
    assert Joined(more) == ([c] + pieces[0]) + Joined(pieces[1..]) == [c] + (pieces[0] + Joined(pieces[1..]));
  }

  lemma TokensFirst(p: string)
    requires p != []
    ensures Tokens(p) == if DoubleStarAt(p) then [DoubleStar] + Tokens(p[2..])
                         else [if p[0] == '*' then Star else Lit(p[0])] + Tokens(p[1..])
  {
  }

  lemma {:induction false} MatchFills(p: string, path: string) returns (pieces: seq<string>)
    requires GlobMatch(p, path)
    ensures Fills(Tokens(p), pieces, path)
    decreases |p|, |path|
  {
    if p == [] {
      pieces := [];
    } else if p[0] == '*' {
      var t, rest := if DoubleStarAt(p) then DoubleStar else Star, if DoubleStarAt(p) then p[2..] else p[1..];
      if GlobMatch(rest, path) {
        pieces := MatchFills(rest, path);
        FillsMore(t, Tokens(rest), [], pieces, path);
        pieces := [[]] + pieces;
        assert [] + path == path;
      } else {
        pieces := MatchFills(p, path[1..]);
        FillsLonger(t, Tokens(rest), path[0], pieces, path[1..]);
        pieces := [[path[0]] + pieces[0]] + pieces[1..];
        assert [path[0]] + path[1..] == path;
      }
    } else {
      pieces := MatchFills(p[1..], path[1..]);
      FillsMore(Lit(p[0]), Tokens(p[1..]), [p[0]], pieces, path[1..]);
      pieces := [[p[0]]] + pieces;
      assert [path[0]] + path[1..] == path;
    }
  }

  lemma FillsFirst(t: Token, ts: seq<Token>, pieces: seq<string>, path: string)
    requires Fills([t] + ts, pieces, path)
    ensures StandsFor(t, pieces[0]) && path == pieces[0] + Joined(pieces[1..])
    ensures Fills(ts, pieces[1..], path[|pieces[0]|..])
  {
    assert ([t] + ts)[0] == t;
    assert (pieces[0] + Joined(pieces[1..]))[|pieces[0]|..] == Joined(pieces[1..]);
    forall k | 0 <= k < |ts|
      ensures StandsFor(ts[k], pieces[1..][k])
    {
      assert ([t] + ts)[k + 1] == ts[k];
    }
  }

  lemma FillsShorter(t: Token, ts: seq<Token>, pieces: seq<string>, path: string)
    requires Fills([t] + ts, pieces, path) && !t.Lit? && pieces[0] != []
    ensures path != [] && path[0] == pieces[0][0]
    ensures Fills([t] + ts, [pieces[0][1..]] + pieces[1..], path[1..])
  {
    FillsFirst(t, ts, pieces, path);
    FillsMore(t, ts, pieces[0][1..], pieces[1..], path[|pieces[0]|..]);
    assert pieces[0][1..] + path[|pieces[0]|..] == path[1..];
  }

  lemma {:induction false} FillsMatch(p: string, pieces: seq<string>, path: string)
    requires Fills(Tokens(p), pieces, path)
    ensures GlobMatch(p, path)
    decreases |p|, |path|
  {
    if p != [] {
      var t, rest := Tokens(p)[0], if DoubleStarAt(p) then p[2..] else p[1..];
      TokensFirst(p);
      FillsFirst(t, Tokens(rest), pieces, path);
      if t.Lit? {
        FillsMatch(rest, pieces[1..], path[1..]);
      } else if pieces[0] == [] {
        assert path[0..] == path;
        FillsMatch(rest, pieces[1..], path);
      } else {
        FillsShorter(t, Tokens(rest), pieces, path);
        FillsMatch(p, [pieces[0][1..]] + pieces[1..], path[1..]);
      }
    }
  }

  ghost predicate Filled(p: string, pieces: seq<string>, path: string) {
    Fills(Tokens(p), pieces, path)
  }

  /** A glob matches the paths that its tokens fill: each character stands for itself, a star for a
      run without a slash, and a double star for a run without a line break. */
  lemma MatchIff(p: string, path: string)
    ensures GlobMatch(p, path) <==> exists pieces :: Filled(p, pieces, path)
  {
    if GlobMatch(p, path) {
      var pieces := MatchFills(p, path);
      assert Filled(p, pieces, path);
    }
    if pieces :| Filled(p, pieces, path) {
      FillsMatch(p, pieces, path);
    }
  }

  /** The textbook meaning, in which a double star also crosses line breaks. */
  ghost predicate GlobAnywhere(p: string, path: string)
    decreases |p|, |path|
  {
    if p == [] then path == []
    else if DoubleStarAt(p) then
      GlobAnywhere(p[2..], path) || (path != [] && GlobAnywhere(p, path[1..]))
    else if p[0] == '*' then
      GlobAnywhere(p[1..], path) || (path != [] && path[0] != '/' && GlobAnywhere(p, path[1..]))
    else
      path != [] && path[0] == p[0] && GlobAnywhere(p[1..], path[1..])
  }

  /** On paths without line breaks the two meanings agree. */
  lemma {:induction false} WithoutLineBreaks(p: string, path: string)
    requires forall k | 0 <= k < |path| :: !LineTerminator(path[k])
    ensures GlobMatch(p, path) == GlobAnywhere(p, path)
    decreases |p|, |path|
  {
    if p != [] {
      var rest := if DoubleStarAt(p) then p[2..] else p[1..];
      WithoutLineBreaks(rest, path);
      if path != [] {
        WithoutLineBreaks(rest, path[1..]);
        WithoutLineBreaks(p, path[1..]);
      }
    }
  }

  /** Any other pattern does not: some path is answered wrongly, or the pattern throws. */
  lemma UncleanMiscompiles(pattern: string) returns (path: string)
    requires !Clean(pattern)
    ensures MatchesPattern(path, pattern) != Some(GlobMatch(pattern, path))
  {
    CleanIsCleanFor(pattern);
    var ts := CompileReads(pattern);
    var items := Parse(Compile(pattern));
    path := [];
    if items.Some? {
      ParseMarks(ts);
      path := Shortest(items.value);
      ShortestAccepted(items.value);
      if '?' !in Lits(ts) {
        NoMarks(ts);
        ParseTokens(ts);
        CharsItems(ts);
      }
      if GlobMatch(pattern, path) {
        MatchLength(pattern, path);
      }
    }
  }

  /** The compiler is right about a pattern, for all paths, exactly when the pattern is clean. */
  lemma CompilesToMeaning(pattern: string)
    ensures (forall path :: MatchesPattern(path, pattern) == Some(GlobMatch(pattern, path))) <==> Clean(pattern)
  {
    if Clean(pattern) {
      forall path
        ensures MatchesPattern(path, pattern) == Some(GlobMatch(pattern, path))
      {
        CleanCompiles(pattern, path);
      }
    } else {
      var path := UncleanMiscompiles(pattern);
    }
  }

  lemma ThriceCollision(w: string)
    requires PlainWord(w)
    ensures Thrice([':', ':'] + w + ['*', '*'], Holder(w)) == Thrice(['*', '*'] + (w + [':', ':']), Holder(w))
  {
    var h := Holder(w);
    StarsAround([':', ':'] + w, w + [':', ':'], h);
    assert ([':', ':'] + w) + h == h + (w + [':', ':']);
  }

  lemma StarsAround(a: string, b: string, h: string)
    requires forall k | 0 <= k < |a| :: a[k] == ':' || Plain(a[k])
    requires forall k | 0 <= k < |b| :: b[k] == ':' || Plain(b[k])
    ensures Thrice(a + ['*', '*'], h) == a + h && Thrice(['*', '*'] + b, h) == h + b
  {
    PlainThrice(a, ['*', '*'], h);
    PlainThrice(b, [], h);
    assert b + [] == b && (['*', '*'] + b)[2..] == b;
    assert ['*', '*'][2..] == [] && h + [] == h;
  }

  /** Two different globs, neither of which contains the placeholder, compile to the same
      expression. */
  lemma PlaceholderCollision(path: string)
    ensures MatchesPattern(path, [':', ':'] + WORD + ['*', '*'])
            == MatchesPattern(path, ['*', '*'] + (WORD + [':', ':']))
    ensures GlobMatch([':', ':'] + WORD + ['*', '*'], [':', ':'] + WORD)
    ensures !GlobMatch(['*', '*'] + (WORD + [':', ':']), [':', ':'] + WORD)
  {
    WordIsPlain();
    ThriceCollision(WORD);
    CompileIsThrice([':', ':'] + WORD + ['*', '*']);
    CompileIsThrice(['*', '*'] + (WORD + [':', ':']));
    CollisionMeanings(WORD);
  }

  lemma CollisionMeanings(w: string)
    requires PlainWord(w)
    ensures GlobMatch([':', ':'] + w + ['*', '*'], [':', ':'] + w)
    ensures !GlobMatch(['*', '*'] + (w + [':', ':']), [':', ':'] + w)
  {
    var a, b := [':', ':'] + w, w + [':', ':'];
    assert a[0] == ':' && b[0] == w[0] && Plain(w[0]);
    SelfMatch(a);
    var q := ['*', '*'] + b;
    assert q[2..] == b;
    SelfLiterals(b);
    if GlobMatch(q, a) {
      MatchLength(q, a);
    }
  }

  lemma {:induction false} SelfMatch(a: string)
    requires '*' !in a
    ensures GlobMatch(a + ['*', '*'], a)
    decreases |a|
  {
    if a == [] {
      assert ['*', '*'][2..] == [] && a + ['*', '*'] == ['*', '*'];
    } else {
      assert (a + ['*', '*'])[1..] == a[1..] + ['*', '*'];
      SelfMatch(a[1..]);
    }
  }

  lemma {:induction false} SelfLiterals(b: string)
    requires '*' !in b
    ensures Literals(b) == b
    decreases |b|
  {
    if b != [] {
      SelfLiterals(b[1..]);
      assert b == [b[0]] + b[1..];
    }
  }
}
