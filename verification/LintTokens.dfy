/** What the tokens of the scanner are, said of the characters themselves: strings with their escapes, line comments,
  nested block comments and character literals hide everything inside them, and end where they should. */
module LintTokens {
  import opened LintParens

  /** A trace of tallies, one per character read. */
  lemma {:induction false} TallyIs(an: AlnumTest, s: string, ts: seq<Tally>)
    requires |ts| == |s| + 1 && ts[0] == Tally(Code, 0, [])
    requires forall k :: 0 <= k < |s| ==> Next(an, ts[k], s[k], k) == ts[k + 1]
    ensures TallyOf(an, s) == ts[|s|]
  {
    if s != [] {
      TallyIs(an, s[..|s| - 1], ts[..|s|]);
    }
  }

  // ---------------------------------------------------------------- strings

  /** How many backslashes stand right before index `k`. */
  function Backslashes(s: string, k: nat): nat
    requires k <= |s|
  {
    if k == 0 || s[k - 1] != '\\' then 0 else 1 + Backslashes(s, k - 1)
  }

  /** Every quote in `s` has an odd number of backslashes right before it. */
  predicate QuotesEscaped(s: string) {
    forall k :: 0 <= k < |s| && s[k] == '"' ==> Backslashes(s, k) % 2 == 1
  }

  lemma {:induction false} BackslashesOfPrefix(s: string, n: nat, k: nat)
    requires k <= n <= |s|
    ensures Backslashes(s[..n], k) == Backslashes(s, k)
    decreases k
  {
    if k > 0 {
      BackslashesOfPrefix(s, n, k - 1);
    }
  }

  lemma QuotesEscapedPrefix(s: string, n: nat)
    requires QuotesEscaped(s) && n <= |s|
    ensures QuotesEscaped(s[..n])
  {
    forall k | 0 <= k < n && s[k] == '"' ensures Backslashes(s[..n], k) % 2 == 1 {
      BackslashesOfPrefix(s, n, k);
    }
  }

  /** A string stays open as long as each quote is escaped, and nothing inside it counts. */
  lemma {:induction false} StringStaysOpen(an: AlnumTest, s: string, body: string)
    requires AtCode(TallyOf(an, s).mode) && QuotesEscaped(body)
    ensures TallyOf(an, s + ['"'] + body) ==
            TallyOf(an, s).(mode := if Backslashes(body, |body|) % 2 == 0 then Str else StrEsc)
    decreases |body|
  {
    hide TallyOf;
    TallySnoc(an, s, '"');
    if body == [] {
      assert s + ['"'] + body == s + ['"'];
    } else {
      var n := |body| - 1;
      var front := body[..n];
      QuotesEscapedPrefix(body, n);
      StringStaysOpen(an, s, front);
      BackslashesOfPrefix(body, n, n);
      assert s + ['"'] + body == (s + ['"'] + front) + [body[n]];
      TallySnoc(an, s + ['"'] + front, body[n]);
      assert body[n] == '"' ==> Backslashes(body, n) % 2 == 1;
    }
  }

  /** A string ends at its first quote with an even number of backslashes right before it, whatever it holds. */
  lemma StringEnds(an: AlnumTest, s: string, body: string)
    requires AtCode(TallyOf(an, s).mode) && QuotesEscaped(body) && Backslashes(body, |body|) % 2 == 0
    ensures TallyOf(an, s + ['"'] + body + ['"']) == TallyOf(an, s).(mode := Code)
  {
    hide TallyOf;
    StringStaysOpen(an, s, body);
    TallySnoc(an, s + ['"'] + body, '"');
  }

  /** An escaped quote does not end the string: its closer is no stray. */
  lemma EscapedQuoteExample(an: AlnumTest)
    ensures TallyOf(an, "\"\\\")\"") == Tally(Code, 0, [])
  {
    TallyIs(an, "\"\\\")\"", [Tally(Code, 0, []), Tally(Str, 0, []), Tally(StrEsc, 0, []), Tally(Str, 0, []),
                              Tally(Str, 0, []), Tally(Code, 0, [])]);
  }

  // ---------------------------------------------------------------- line comments

  /** A line comment hides everything up to its newline, which ends it. */
  lemma {:induction false} LineCommentToken(an: AlnumTest, s: string, body: string)
    requires AtCode(TallyOf(an, s).mode) && '\n' !in body
    ensures TallyOf(an, s + [';'] + body) == TallyOf(an, s).(mode := LineComment)
    ensures TallyOf(an, s + [';'] + body + ['\n']) == TallyOf(an, s).(mode := Code)
    decreases |body|
  {
    hide TallyOf;
    if body == [] {
      TallySnoc(an, s, ';');
      assert s + [';'] + body == s + [';'];
    } else {
      var front, c := body[..|body| - 1], body[|body| - 1];
      LineCommentToken(an, s, front);
      assert s + [';'] + body == (s + [';'] + front) + [c];
      TallySnoc(an, s + [';'] + front, c);
    }
    TallySnoc(an, s + [';'] + body, '\n');
  }

  // ---------------------------------------------------------------- block comments

  /** What stands in a block comment: characters, and whole comments inside it. */
  datatype Piece = Plain(c: char) | Comment(inner: seq<Piece>)

  function TextOf(ps: seq<Piece>): string
    decreases ps
  {
    if ps == [] then []
    else
      TextOf(ps[..|ps| - 1])
      + match ps[|ps| - 1] case Plain(c) => [c] case Comment(inner) => "#|" + TextOf(inner) + "|#"
  }

  /** The first character of a piece. */
  function First(p: Piece): char {
    match p case Plain(c) => c case Comment(_) => '#'
  }

  /** No character meets the one behind it as `#|` or `|#`, at any depth: those open and close comments. */
  predicate Fine(ps: seq<Piece>)
    decreases ps, 0
  {
    ps != [] ==>
      var n := |ps| - 1;
      && Fine(ps[..n])
      && (n > 0 && ps[n - 1].Plain? ==>
            && !(ps[n - 1].c == '#' && First(ps[n]) == '|')
            && !(ps[n - 1].c == '|' && First(ps[n]) == '#'))
      && (ps[n].Comment? ==> Closable(ps[n].inner))
  }

  /** Text that a `|#` behind it closes. */
  predicate Closable(ps: seq<Piece>)
    decreases ps, 1
  {
    Fine(ps) && (ps != [] ==> ps[|ps| - 1] != Plain('#'))
  }

  function Pending(ps: seq<Piece>, level: nat): Mode {
    if ps != [] && ps[|ps| - 1] == Plain('#') then BlockHash(level)
    else if ps != [] && ps[|ps| - 1] == Plain('|') then BlockBar(level)
    else Block(level)
  }

  lemma TwoMore(an: AlnumTest, s: string, c: char, d: char)
    ensures TallyOf(an, s + [c, d]) == Next(an, Next(an, TallyOf(an, s), c, |s|), d, |s| + 1)
  {
    assert s + [c, d] == (s + [c]) + [d];
    TallySnoc(an, s, c);
    TallySnoc(an, s + [c], d);
  }

  lemma PlainMove(an: AlnumTest, t: string, front: seq<Piece>, p: Piece, level: nat)
    requires Fine(front + [p]) && p.Plain? && level > 0 && TallyOf(an, t).mode == Pending(front, level)
    ensures TallyOf(an, t + [p.c]) == TallyOf(an, t).(mode := Pending(front + [p], level))
  {
    assert (front + [p])[..|front|] == front;
    TallySnoc(an, t, p.c);
    hide TallyOf;
  }

  lemma OpenMove(an: AlnumTest, t: string, front: seq<Piece>, p: Piece, level: nat)
    requires Fine(front + [p]) && p.Comment? && level > 0 && TallyOf(an, t).mode == Pending(front, level)
    ensures Fine(p.inner) && (p.inner != [] ==> p.inner[|p.inner| - 1] != Plain('#'))
    ensures TallyOf(an, t + "#|") == TallyOf(an, t).(mode := Block(level + 1))
  {
    assert (front + [p])[..|front|] == front;
    TwoMore(an, t, '#', '|');
    hide TallyOf;
  }

  lemma CloseMove(an: AlnumTest, t: string, inner: seq<Piece>, level: nat)
    requires TallyOf(an, t).mode == Pending(inner, level) && level > 0 && Closable(inner)
    ensures TallyOf(an, t + "|#") == TallyOf(an, t).(mode := if level == 1 then Code else Block(level - 1))
  {
    TwoMore(an, t, '|', '#');
    hide TallyOf;
    hide Fine;
  }

  lemma TextOfSnoc(ps: seq<Piece>, p: Piece)
    ensures TextOf(ps + [p]) ==
            TextOf(ps) + match p case Plain(c) => [c] case Comment(inner) => "#|" + TextOf(inner) + "|#"
  {
    assert (ps + [p])[..|ps|] == ps;
  }

  lemma FineFront(ps: seq<Piece>, p: Piece)
    requires Fine(ps + [p])
    ensures Fine(ps)
  {
    assert (ps + [p])[..|ps|] == ps;
  }

  lemma Nesting(s: string, front: string, inner: string)
    ensures s + (front + ("#|" + inner + "|#")) == s + front + "#|" + inner + "|#"
  {
  }

  lemma Splits(ps: seq<Piece>)
    requires ps != [] && Fine(ps)
    ensures ps == ps[..|ps| - 1] + [ps[|ps| - 1]] && Fine(ps[..|ps| - 1])
  {
  }

  /** Inside a block comment nothing counts, and comments in it come back to its level. */
  lemma {:induction false} BlockText(an: AlnumTest, s: string, ps: seq<Piece>, level: nat)
    requires TallyOf(an, s).mode == Block(level) && level > 0 && Fine(ps)
    ensures TallyOf(an, s + TextOf(ps)) == TallyOf(an, s).(mode := Pending(ps, level))
    decreases ps
  {
    if ps == [] {
      assert s + TextOf(ps) == s;
    } else {
      hide TallyOf;
      hide TextOf;
      Splits(ps);
      hide Fine;
      hide Pending;
      var front, p := ps[..|ps| - 1], ps[|ps| - 1];
      BlockText(an, s, front, level);
      TextOfSnoc(front, p);
      var t := s + TextOf(front);
      if p.Plain? {
        PlainMove(an, t, front, p, level);
        assert s + TextOf(ps) == t + [p.c];
      } else {
        CommentMove(an, t, front, p, level);
        Nesting(s, TextOf(front), TextOf(p.inner));
      }
    }
  }

  lemma {:induction false} CommentMove(an: AlnumTest, t: string, front: seq<Piece>, p: Piece, level: nat)
    requires Fine(front + [p]) && p.Comment? && level > 0 && TallyOf(an, t).mode == Pending(front, level)
    ensures TallyOf(an, t + "#|" + TextOf(p.inner) + "|#") ==
            TallyOf(an, t).(mode := Pending(front + [p], level))
    decreases p
  {
    hide TallyOf;
    OpenMove(an, t, front, p, level);
    hide Fine;
    hide TextOf;
    BlockText(an, t + "#|", p.inner, level + 1);
    CloseMove(an, t + "#|" + TextOf(p.inner), p.inner, level + 1);
  }

  /** A block comment hides everything in it, nested comments included, and ends with the `|#` of its own level; until
      then it is open. */
  lemma BlockCommentToken(an: AlnumTest, s: string, ps: seq<Piece>)
    requires AtCode(TallyOf(an, s).mode) && Fine(ps)
    ensures InBlock(TallyOf(an, s + "#|" + TextOf(ps)).mode)
    ensures TallyOf(an, s + "#|" + TextOf(ps)).(mode := Code) == TallyOf(an, s).(mode := Code)
    ensures Closable(ps) ==> TallyOf(an, s + "#|" + TextOf(ps) + "|#") == TallyOf(an, s).(mode := Code)
  {
    hide TallyOf;
    hide Fine;
    hide TextOf;
    TwoMore(an, s, '#', '|');
    BlockText(an, s + "#|", ps, 1);
    if Closable(ps) {
      CloseMove(an, s + "#|" + TextOf(ps), ps, 1);
    }
  }

  /** The inner comment ends first: its closer hides no second stray. */
  lemma NestedCommentExample(an: AlnumTest)
    ensures TallyOf(an, "#|#|)|#)|#)") == Tally(Code, 0, [10])
  {
    var t: Mode -> Tally := m => Tally(m, 0, []);
    TallyIs(an, "#|#|)|#)|#)",
            [t(Code), t(Hash), t(Block(1)), t(BlockHash(1)), t(Block(2)), t(Block(2)), t(BlockBar(2)), t(Block(1)),
             t(Block(1)), t(BlockBar(1)), t(Code), Tally(Code, 0, [10])]);
  }

  // ---------------------------------------------------------------- character literals

  lemma HashOpens(an: AlnumTest, s: string)
    requires AtCode(TallyOf(an, s).mode)
    ensures TallyOf(an, s + "#\\") == TallyOf(an, s).(mode := CharStart)
  {
    TwoMore(an, s, '#', '\\');
    hide TallyOf;
  }

  /** A character literal hides its one character, which starts no name. */
  lemma CharLiteralToken(an: AlnumTest, s: string, c: char)
    requires AtCode(TallyOf(an, s).mode) && !an(c)
    ensures TallyOf(an, s + "#\\" + [c]) == TallyOf(an, s).(mode := Code)
  {
    hide TallyOf;
    HashOpens(an, s);
    hide AtCode;
    TallySnoc(an, s + "#\\", c);
  }

  /** Or it hides the whole alphanumeric name it starts with; behind it is code again. */
  lemma {:induction false} CharNameToken(an: AlnumTest, s: string, name: string)
    requires AtCode(TallyOf(an, s).mode) && name != [] && forall c <- name :: an(c)
    ensures TallyOf(an, s + "#\\" + name) == TallyOf(an, s).(mode := CharName)
    decreases |name|
  {
    hide TallyOf;
    var start, front, c := s + "#\\", name[..|name| - 1], name[|name| - 1];
    assert an(c) && c in name;
    if front == [] {
      HashOpens(an, s);
      assert start + name == start + [c];
      NameMove(an, start, c);
    } else {
      CharNameToken(an, s, front);
      assert start + name == (start + front) + [c];
      NameMove(an, start + front, c);
    }
  }

  lemma NameMove(an: AlnumTest, t: string, c: char)
    requires (TallyOf(an, t).mode == CharStart || TallyOf(an, t).mode == CharName) && an(c)
    ensures TallyOf(an, t + [c]) == TallyOf(an, t).(mode := CharName)
  {
    TallySnoc(an, t, c);
    hide TallyOf;
  }

  /** `#\(` opens nothing. */
  lemma CharLiteralExample(an: AlnumTest)
    ensures TallyOf(an, "#\\()") == Tally(Code, 0, [3])
  {
    TallyIs(an, "#\\()", [Tally(Code, 0, []), Tally(Hash, 0, []), Tally(CharStart, 0, []), Tally(Code, 0, []),
                          Tally(Code, 0, [3])]);
  }

  /** A name ends where the alphanumeric characters do: the closer behind it closes. */
  lemma CharNameExample(an: AlnumTest)
    requires an('a') && an('b')
    ensures TallyOf(an, "(#\\ab)") == Tally(Code, 0, [])
  {
    TallyIs(an, "(#\\ab)", [Tally(Code, 0, []), Tally(Code, 1, []), Tally(Hash, 1, []), Tally(CharStart, 1, []),
                            Tally(CharName, 1, []), Tally(CharName, 1, []), Tally(Code, 0, [])]);
  }

  /** Two openers, one closer and a stray in comments and code. */
  lemma LineCommentExample(an: AlnumTest)
    ensures TallyOf(an, "((;)\n))") == Tally(Code, 0, []) && TallyOf(an, ")(;)") == Tally(LineComment, 1, [0])
  {
    TallyIs(an, "((;)\n))",
            [Tally(Code, 0, []), Tally(Code, 1, []), Tally(Code, 2, []), Tally(LineComment, 2, []),
             Tally(LineComment, 2, []), Tally(Code, 2, []), Tally(Code, 1, []), Tally(Code, 0, [])]);
    TallyIs(an, ")(;)", [Tally(Code, 0, []), Tally(Code, 0, [0]), Tally(Code, 1, [0]), Tally(LineComment, 1, [0]),
                         Tally(LineComment, 1, [0])]);
  }
}
