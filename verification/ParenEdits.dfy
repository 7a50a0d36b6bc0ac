/** Why the two numbers the scanner reports are the right ones: no shorter sequence of
  single-parenthesis insertions and deletions balances the code-level parentheses. */
module ParenEdits {
  import opened LintParens

  datatype Paren = Open | Close

  /** The code-level parentheses of a text, in order. */
  function Parens(an: AlnumTest, s: string): seq<Paren> {
    if s == [] then []
    else
      var front, c := s[..|s| - 1], s[|s| - 1];
      Parens(an, front)
      + (if AtCode(TallyOf(an, front).mode) && c == '(' then [Open]
         else if AtCode(TallyOf(an, front).mode) && c == ')' then [Close] else [])
  }

  // ---------------------------------------------------------------- balance by counting

  function Count(p: Paren, ps: seq<Paren>): nat {
    if ps == [] then 0 else (if ps[0] == p then 1 else 0) + Count(p, ps[1..])
  }

  /** Balanced in the usual sense: no prefix closes more than it opens, and the totals agree. */
  ghost predicate Balanced(ps: seq<Paren>) {
    && (forall k :: 0 <= k <= |ps| ==> Count(Close, ps[..k]) <= Count(Open, ps[..k]))
    && Count(Close, ps) == Count(Open, ps)
  }

  // ---------------------------------------------------------------- the counter

  /** Unmatched closers met when reading `ps` with `d` forms already open. */
  function Strays(d: nat, ps: seq<Paren>): nat
    decreases |ps|
  {
    if ps == [] then 0
    else if ps[0] == Open then Strays(d + 1, ps[1..])
    else if d > 0 then Strays(d - 1, ps[1..])
    else 1 + Strays(0, ps[1..])
  }

  /** Forms still open at the end. */
  function EndDepth(d: nat, ps: seq<Paren>): nat
    decreases |ps|
  {
    if ps == [] then d
    else if ps[0] == Open then EndDepth(d + 1, ps[1..])
    else if d > 0 then EndDepth(d - 1, ps[1..])
    else EndDepth(0, ps[1..])
  }

  function Cost(d: nat, ps: seq<Paren>): nat { Strays(d, ps) + EndDepth(d, ps) }

  lemma {:induction false} Append(d: nat, a: seq<Paren>, b: seq<Paren>)
    ensures Strays(d, a + b) == Strays(d, a) + Strays(EndDepth(d, a), b)
    ensures EndDepth(d, a + b) == EndDepth(EndDepth(d, a), b)
    decreases |a|
  {
    if a == [] {
      assert a + b == b;
    } else {
      assert (a + b)[1..] == a[1..] + b;
      Append(if a[0] == Open then d + 1 else if d > 0 then d - 1 else 0, a[1..], b);
    }
  }

  /** The scanner's depth and number of strays are those of the code-level parentheses. */
  lemma {:induction false} TallyCountsParens(an: AlnumTest, s: string)
    ensures TallyOf(an, s).depth == EndDepth(0, Parens(an, s))
    ensures |TallyOf(an, s).strays| == Strays(0, Parens(an, s))
  {
    if s != [] {
      var front := s[..|s| - 1];
      TallyCountsParens(an, front);
      var t := Parens(an, s)[|Parens(an, front)|..];
      assert Parens(an, s) == Parens(an, front) + t;
      Append(0, Parens(an, front), t);
      assert t == [] || (t == [t[0]] && t[1..] == []);
    }
  }

  lemma {:induction false} CountAppend(p: Paren, a: seq<Paren>, b: seq<Paren>)
    ensures Count(p, a + b) == Count(p, a) + Count(p, b)
    decreases |a|
  {
    if a == [] {
      assert a + b == b;
    } else {
      assert (a + b)[1..] == a[1..] + b;
      CountAppend(p, a[1..], b);
    }
  }

  lemma {:induction false} CountTotals(d: nat, ps: seq<Paren>)
    ensures EndDepth(d, ps) - Strays(d, ps) == d + Count(Open, ps) - Count(Close, ps)
    decreases |ps|
  {
    if ps != [] {
      CountTotals(if ps[0] == Open then d + 1 else if d > 0 then d - 1 else 0, ps[1..]);
    }
  }

  /** The first stray closer, if there is one: deleting it costs one edit and saves one stray. */
  lemma {:induction false} FirstStray(d: nat, ps: seq<Paren>) returns (k: nat)
    requires Strays(d, ps) > 0
    ensures k < |ps| && ps[k] == Close
    ensures d + Count(Open, ps[..k]) == Count(Close, ps[..k])
    ensures Strays(d, ps[..k] + ps[k + 1..]) == Strays(d, ps) - 1
    ensures EndDepth(d, ps[..k] + ps[k + 1..]) == EndDepth(d, ps)
    decreases |ps|
  {
    if d == 0 && ps[0] == Close {
      k := 0;
      assert ps[..0] + ps[1..] == ps[1..];
    } else {
      var d' := if ps[0] == Open then d + 1 else d - 1;
      var j := FirstStray(d', ps[1..]);
      k := j + 1;
      assert ps[..k] == [ps[0]] + ps[1..][..j];
      CountAppend(Open, [ps[0]], ps[1..][..j]);
      CountAppend(Close, [ps[0]], ps[1..][..j]);
      var rest := ps[1..][..j] + ps[1..][j + 1..];
      assert ps[..k] + ps[k + 1..] == [ps[0]] + rest;
      assert ([ps[0]] + rest)[1..] == rest;
    }
  }

  /** The counter says "no problem" exactly on the balanced sequences. */
  lemma CostZeroIffBalanced(ps: seq<Paren>)
    ensures Cost(0, ps) == 0 <==> Balanced(ps)
  {
    CountTotals(0, ps);
    if Strays(0, ps) > 0 {
      var k := FirstStray(0, ps);
      assert ps[..k + 1] == ps[..k] + [Close];
      CountAppend(Open, ps[..k], [Close]);
      CountAppend(Close, ps[..k], [Close]);
      assert Count(Close, ps[..k + 1]) > Count(Open, ps[..k + 1]);
    } else {
      forall k | 0 <= k <= |ps| ensures Count(Close, ps[..k]) <= Count(Open, ps[..k]) {
        assert ps == ps[..k] + ps[k..];
        Append(0, ps[..k], ps[k..]);
        CountTotals(0, ps[..k]);
      }
    }
  }

  // ---------------------------------------------------------------- edits

  /** One edit of the parenthesis sequence; an edit outside the sequence changes nothing. */
  datatype Edit = Insert(at: nat, p: Paren) | Delete(at: nat)

  function Apply(ps: seq<Paren>, e: Edit): seq<Paren> {
    match e
    case Insert(k, p) => if k <= |ps| then ps[..k] + [p] + ps[k..] else ps
    case Delete(k) => if k < |ps| then ps[..k] + ps[k + 1..] else ps
  }

  function ApplyAll(ps: seq<Paren>, es: seq<Edit>): seq<Paren>
    decreases |es|
  {
    if es == [] then ps else ApplyAll(Apply(ps, es[0]), es[1..])
  }

  lemma {:induction false} OneDeeper(d: nat, ps: seq<Paren>)
    ensures Cost(d, ps) <= Cost(d + 1, ps) + 1 && Cost(d + 1, ps) <= Cost(d, ps) + 1
    decreases |ps|
  {
    if ps == [] {
    } else if ps[0] == Open {
      OneDeeper(d + 1, ps[1..]);
    } else if d > 0 {
      OneDeeper(d - 1, ps[1..]);
    }
  }

  /** One parenthesis in the middle of a sequence changes the cost by at most one. */
  lemma OneParenMoves(a: seq<Paren>, p: Paren, b: seq<Paren>)
    ensures Cost(0, a + b) <= Cost(0, a + [p] + b) + 1
    ensures Cost(0, a + [p] + b) <= Cost(0, a + b) + 1
  {
    var d := EndDepth(0, a);
    Append(0, a, b);
    assert a + [p] + b == a + ([p] + b);
    Append(0, a, [p] + b);
    assert ([p] + b)[1..] == b;
    OneDeeper(d, b);
    if d > 0 {
      OneDeeper(d - 1, b);
    }
  }

  lemma OneEditMoves(ps: seq<Paren>, e: Edit)
    ensures Cost(0, ps) <= Cost(0, Apply(ps, e)) + 1
  {
    match e
    case Insert(k, p) =>
      if k <= |ps| {
        assert ps == ps[..k] + ps[k..];
        OneParenMoves(ps[..k], p, ps[k..]);
      }
    case Delete(k) =>
      if k < |ps| {
        assert ps == ps[..k] + [ps[k]] + ps[k + 1..];
        OneParenMoves(ps[..k], ps[k], ps[k + 1..]);
      }
  }

  /** No edit sequence shorter than strays + depth balances the parentheses. */
  lemma {:induction false} NoShorterRepair(ps: seq<Paren>, es: seq<Edit>)
    requires Balanced(ApplyAll(ps, es))
    ensures |es| >= Strays(0, ps) + EndDepth(0, ps)
    decreases |es|
  {
    if es == [] {
      CostZeroIffBalanced(ps);
    } else {
      OneEditMoves(ps, es[0]);
      NoShorterRepair(Apply(ps, es[0]), es[1..]);
    }
  }

  /** Strays + depth edits suffice: delete each stray, then append one closer per open form. */
  lemma {:induction false} SomeRepair(ps: seq<Paren>) returns (es: seq<Edit>)
    ensures |es| == Strays(0, ps) + EndDepth(0, ps) && Balanced(ApplyAll(ps, es))
    ensures forall e :: e in es ==> e.Delete? || e.p == Close
    decreases Cost(0, ps)
  {
    if Cost(0, ps) == 0 {
      CostZeroIffBalanced(ps);
      es := [];
    } else {
      var e;
      if Strays(0, ps) > 0 {
        var k := FirstStray(0, ps);
        e := Delete(k);
      } else {
        e := Insert(|ps|, Close);
        assert Apply(ps, e) == ps + [Close];
        Append(0, ps, [Close]);
      }
      var rest := SomeRepair(Apply(ps, e));
      es := [e] + rest;
    }
  }

  /** The repair is minimal: the number of edits the fix makes is the least number that balances the text. */
  lemma FixIsMinimal(an: AlnumTest, s: string)
    requires Fixable(an, s)
    ensures forall es :: Balanced(ApplyAll(Parens(an, s), es)) ==>
              |es| >= FixOf(an, s).append + |FixOf(an, s).remove|
    ensures exists es :: Balanced(ApplyAll(Parens(an, s), es))
              && |es| == FixOf(an, s).append + |FixOf(an, s).remove|
  {
    var ps := Parens(an, s);
    TallyCountsParens(an, s);
    forall es | Balanced(ApplyAll(ps, es)) ensures |es| >= FixOf(an, s).append + |FixOf(an, s).remove| {
      NoShorterRepair(ps, es);
    }
    var es := SomeRepair(ps);
  }

  /** A text without an open block comment is reported clean exactly when its code-level parentheses balance. */
  lemma CleanIffBalanced(an: AlnumTest, s: string)
    ensures Problems(an, s) == [] <==> Balanced(Parens(an, s)) && !InBlock(TallyOf(an, s).mode)
  {
    TallyCountsParens(an, s);
    CostZeroIffBalanced(Parens(an, s));
    CleanMeansNoProblem(an, s);
  }
}
