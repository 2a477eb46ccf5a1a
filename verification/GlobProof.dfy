/** What the last pass of the glob compiler finds, for any placeholder of the form `::word::`. */
module GlobProof {
  import opened Glob

  /** The characters that stand for themselves, of a pattern and of its compiled tokens. */
  function Literals(p: string): string {
    if p == [] then []
    else if DoubleStarAt(p) then Literals(p[2..])
    else (if p[0] == '*' then [] else [p[0]]) + Literals(p[1..])
  }

  predicate Plain(x: char) {
    x != ':' && x != '[' && x != '*' && x != '?' && !Escapable(x)
  }

  /** The word inside the placeholder. */
  predicate PlainWord(w: string) {
    w != [] && forall k | 0 <= k < |w| :: Plain(w[k])
  }

  function Holder(w: string): string {
    [':', ':'] + w + [':', ':']
  }

  // ---------------------------------------------------------------- reading the third pass

  lemma ReadPlain(p: string, h: string, x: char, q: string)
    requires h != [] && h[0] == ':'
    requires Plain(x) && [x] + q <= Thrice(p, h)
    ensures p != [] && p[0] == x && Thrice(p, h) == [x] + Thrice(p[1..], h) && q <= Thrice(p[1..], h)
    ensures Literals(p) == [x] + Literals(p[1..])
  {
    var s := Thrice(p, h);
    assert s[0] == ([x] + q)[0];
    assert s[1..] == Thrice(p[1..], h);
    assert q == ([x] + q)[1..] && q <= s[1..];
  }

  lemma ReadColon(p: string, h: string, q: string)
    requires [':'] + q <= Thrice(p, h)
    ensures p != []
    ensures !DoubleStarAt(p) ==>
      && p[0] == ':' && Thrice(p, h) == [':'] + Thrice(p[1..], h) && q <= Thrice(p[1..], h)
      && Literals(p) == [':'] + Literals(p[1..])
  {
    var s := Thrice(p, h);
    assert s[0] == ([':'] + q)[0];
    if !DoubleStarAt(p) {
      assert s[1..] == Thrice(p[1..], h);
      assert q == ([':'] + q)[1..] && q <= s[1..];
    }
  }

  lemma Regroup(w: string, s: string)
    requires w != []
    ensures [w[0]] + (w[1..] + s) == w + s
  {
  }

  lemma {:induction false} ReadWord(p: string, h: string, w: string, q: string)
    requires h != [] && h[0] == ':'
    requires forall k | 0 <= k < |w| :: Plain(w[k])
    requires w + q <= Thrice(p, h)
    ensures w <= p && Thrice(p, h) == w + Thrice(p[|w|..], h) && q <= Thrice(p[|w|..], h)
    ensures Literals(p) == w + Literals(p[|w|..])
    decreases |w|
  {
    if w == [] {
      assert w + q == q;
    } else {
      var rest := w[1..];
      assert w + q == [w[0]] + (rest + q);
      ReadPlain(p, h, w[0], rest + q);
      ReadWord(p[1..], h, rest, q);
      var tail := p[1..][|rest|..];
      assert tail == p[|w|..];
      assert w == [w[0]] + rest && p == [p[0]] + p[1..];
      Regroup(w, Thrice(tail, h));
      Regroup(w, Literals(tail));
    }
  }

  lemma NotTheHolder(p: string, w: string, q: string)
    requires [':'] + q <= Thrice(p, Holder(w)) && q != [] && q[0] != ':'
    ensures !DoubleStarAt(p)
  {
    assert ([':'] + q)[1] == Thrice(p, Holder(w))[1];
    assert Holder(w)[1] == ':';
  }

  // ---------------------------------------------------------------- text the last pass takes for a placeholder

  lemma DropTwo(h: string, s: string)
    requires |h| >= 2
    ensures (h + s)[2..] == h[2..] + s && ([h[0]] + (h + s))[2..] == h[1..] + s
  {
  }

  /** From position k on, the third pass of the pattern is the rest of a placeholder, from
      position j on, and the third pass of what remains of the pattern. */
  predicate Resumes(p: string, w: string, k: nat, j: nat, rest: string) {
    j <= |w| + 4 && EndsWith(Thrice(p, Holder(w)), k, Holder(w)[j..] + Thrice(rest, Holder(w)))
  }

  predicate EndsWith(s: string, k: nat, x: string) {
    k <= |s| && s[k..] == x
  }

  /** The ways in which a pattern can end a placeholder. */
  predicate Ends(p: string, w: string, j: nat, mid: string, rest: string) {
    || (j == |w| + 4 && mid == [':', ':'] && |Literals(rest)| + 2 == |Literals(p)|)
    || (j == 1 && mid == [':', '*', '*'] && |Literals(rest)| + 1 == |Literals(p)|)
    || (j == 2 && mid == ['*', '*'] && |Literals(rest)| == |Literals(p)|)
  }

  /** How two colons of the third pass end a placeholder: with two colons of the pattern, or
      with the first one or two colons of the placeholder put in for a double star.  What is
      left of that placeholder starts at j. */
  lemma Ending(p: string, w: string) returns (j: nat, mid: string, rest: string)
    requires [':', ':'] <= Thrice(p, Holder(w))
    ensures p == mid + rest && Ends(p, w, j, mid, rest) && Resumes(p, w, 2, j, rest)
  {
    var h := Holder(w);
    assert [':', ':'] == [':'] + [':'] && [':'] == [':'] + [];
    ReadColon(p, h, [':']);
    if DoubleStarAt(p) {
      j, mid, rest := 2, ['*', '*'], p[2..];
      DropTwo(h, Thrice(rest, h));
    } else {
      ReadColon(p[1..], h, []);
      j, mid, rest := EndingInside(p, w);
    }
  }

  lemma EndingInside(p: string, w: string) returns (j: nat, mid: string, rest: string)
    requires |p| >= 2 && p[0] == ':' && Thrice(p, Holder(w)) == [':'] + Thrice(p[1..], Holder(w))
    requires Literals(p) == [':'] + Literals(p[1..])
    requires DoubleStarAt(p[1..]) || (p[1] == ':' && Thrice(p[1..], Holder(w)) == [':'] + Thrice(p[1..][1..], Holder(w))
                                      && Literals(p[1..]) == [':'] + Literals(p[1..][1..]))
    ensures p == mid + rest && Ends(p, w, j, mid, rest) && Resumes(p, w, 2, j, rest)
  {
    var h := Holder(w);
    if DoubleStarAt(p[1..]) {
      j, mid, rest := 1, [':', '*', '*'], p[1..][2..];
      DropTwo(h, Thrice(rest, h));
    } else {
      j, mid, rest := |h|, [':', ':'], p[1..][1..];
      assert Thrice(p, h)[2..] == Thrice(rest, h);
    }
  }

  function Colons(n: nat): (r: string)
    ensures n <= 2 ==> |r| == n
  {
    if n == 0 then [] else if n == 1 then [':'] else [':', ':']
  }

  /** A pattern that begins with these colons, and goes on with the rest of a placeholder. */
  ghost predicate Led(p: string, w: string, colons: string, tail: string) {
    && p == colons + tail && Literals(p) == colons + Literals(tail)
    && Thrice(p, Holder(w)) == colons + Thrice(tail, Holder(w))
    && w + [':', ':'] <= Thrice(tail, Holder(w))
  }

  /** The n colons that lead a placeholder, when its other colons belong to the one before. */
  lemma Lead(p: string, w: string, n: nat) returns (tail: string)
    requires PlainWord(w) && n <= 2 && (n == 2 ==> !DoubleStarAt(p))
    requires Holder(w)[2 - n..] <= Thrice(p, Holder(w))
    ensures Led(p, w, Colons(n), tail)
  {
    if n == 0 {
      tail := p;
      LeadNothing(p, w);
    } else if n == 1 {
      assert Holder(w)[1..] == [':'] + (w + [':', ':']);
      tail := LeadColon(p, w);
    } else {
      assert Holder(w)[0..] == Holder(w);
      tail := LeadColons(p, w);
    }
  }

  lemma LeadNothing(p: string, w: string)
    requires Holder(w)[2..] <= Thrice(p, Holder(w))
    ensures Led(p, w, [], p)
  {
    assert Holder(w)[2..] == w + [':', ':'];
    NothingLeads(p);
    NothingLeads(Literals(p));
    NothingLeads(Thrice(p, Holder(w)));
  }

  lemma NothingLeads(s: string)
    ensures s == [] + s
  {
  }

  lemma LeadColons(p: string, w: string) returns (tail: string)
    requires PlainWord(w) && !DoubleStarAt(p) && Holder(w) <= Thrice(p, Holder(w))
    ensures Led(p, w, [':', ':'], tail)
  {
    var q := w + [':', ':'];
    assert Holder(w) == [':'] + ([':'] + q);
    ReadColon(p, Holder(w), [':'] + q);
    tail := LeadColon(p[1..], w);
    TwoColons(tail);
    TwoColons(Thrice(tail, Holder(w)));
    TwoColons(Literals(tail));
  }

  lemma TwoColons(s: string)
    ensures [':', ':'] + s == [':'] + ([':'] + s)
  {
  }

  lemma LeadColon(p: string, w: string) returns (tail: string)
    requires PlainWord(w) && [':'] + (w + [':', ':']) <= Thrice(p, Holder(w))
    ensures Led(p, w, [':'], tail)
  {
    var q := w + [':', ':'];
    assert q[0] == w[0] && Plain(w[0]);
    NotTheHolder(p, w, q);
    ReadColon(p, Holder(w), q);
    tail := p[1..];
  }

  /** The texts that the last pass takes for a placeholder although they are not one. */
  predicate StartsBad(p: string, w: string) {
    || Holder(w) <= p
    || [':', ':'] + w + [':', '*', '*'] <= p
    || [':', ':'] + w + ['*', '*'] <= p
  }

  /** A pattern that begins with n colons, the placeholder's word, and the end of a placeholder. */
  ghost predicate Pieces(p: string, w: string, n: nat, tail: string, after: string, j: nat, mid: string, rest: string)
  {
    && p == Colons(n) + tail && tail == w + after && after == mid + rest
    && Thrice(p, Holder(w)) == Colons(n) + Thrice(tail, Holder(w))
    && Thrice(tail, Holder(w)) == w + Thrice(after, Holder(w))
    && Literals(p) == Colons(n) + Literals(tail) && Literals(tail) == w + Literals(after)
    && Ends(after, w, j, mid, rest) && Resumes(after, w, 2, j, rest)
  }

  /** The pattern behind a placeholder found in the third pass, piece by piece. */
  lemma Spelled(p: string, w: string, n: nat)
      returns (tail: string, after: string, j: nat, mid: string, rest: string)
    requires PlainWord(w) && n <= 2 && (n == 2 ==> !DoubleStarAt(p))
    requires Holder(w)[2 - n..] <= Thrice(p, Holder(w))
    ensures Pieces(p, w, n, tail, after, j, mid, rest)
  {
    tail := Lead(p, w, n);
    ReadWord(tail, Holder(w), w, [':', ':']);
    after := tail[|w|..];
    j, mid, rest := Ending(after, w);
  }

  /** Where the last pass goes on behind such a placeholder, and the pattern it goes on with. */
  ghost predicate Consumed(p: string, w: string, n: nat, j: nat, rest: string) {
    && 1 <= j <= |w| + 4 && |rest| < |p|
    && Resumes(p, w, |w| + 2 + n, j, rest)
    && |Literals(rest)| + |w| + 4 - j <= |Literals(p)| + 2 - n
    && ('?' in p ==> '?' in rest)
    && (n == 2 ==> StartsBad(p, w) && [':', ':'] <= Literals(p))
    && (n == 2 ==> |Literals(rest)| + |w| + 4 - j < |Literals(p)| || 1 <= j <= 2)
  }

  /** A placeholder found in the third pass that starts in literal text, or in the last colons
      of a placeholder: the pattern spells it, at least up to a double star. */
  lemma Consume(p: string, w: string, n: nat) returns (j: nat, rest: string)
    requires PlainWord(w) && n <= 2 && (n == 2 ==> !DoubleStarAt(p))
    requires Holder(w)[2 - n..] <= Thrice(p, Holder(w))
    ensures Consumed(p, w, n, j, rest)
  {
    var tail, after, mid;
    tail, after, j, mid, rest := Spelled(p, w, n);
    ConsumeSlice(p, w, n, tail, after, j, rest);
    ConsumeText(p, w, n, tail, after, mid, rest);
  }

  lemma ConsumeText(p: string, w: string, n: nat, tail: string, after: string, mid: string, rest: string)
    requires PlainWord(w) && n <= 2
    requires p == Colons(n) + tail && tail == w + after && after == mid + rest
    requires mid == [':', ':'] || mid == [':', '*', '*'] || mid == ['*', '*']
    ensures |rest| < |p| && ('?' in p ==> '?' in rest) && (n == 2 ==> StartsBad(p, w))
  {
  }

  lemma ConsumeSlice(p: string, w: string, n: nat, tail: string, after: string, j: nat, rest: string)
    requires n <= 2
    requires Thrice(p, Holder(w)) == Colons(n) + Thrice(tail, Holder(w))
    requires Thrice(tail, Holder(w)) == w + Thrice(after, Holder(w))
    requires Resumes(after, w, 2, j, rest)
    ensures Resumes(p, w, |w| + 2 + n, j, rest)
  {
    var s, t, a := Thrice(p, Holder(w)), Thrice(tail, Holder(w)), Thrice(after, Holder(w));
    Behind(n, s, Colons(n), t, w, a, Holder(w)[j..] + Thrice(rest, Holder(w)));
  }

  lemma Behind(n: nat, s: string, c: string, t: string, w: string, a: string, x: string)
    requires s == c + t && t == w + a && EndsWith(a, 2, x) && |c| == n
    ensures EndsWith(s, |w| + 2 + n, x)
  {
    assert t[|w| + 2..] == a[2..];
    assert s[|c| + (|w| + 2)..] == t[|w| + 2..];
  }
}
