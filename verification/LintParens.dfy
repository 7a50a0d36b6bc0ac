/** The Lisp parenthesis scanner and repairer of scripts/lint-parens.py.

  `Scan` is the scanner as the script runs it: an index that jumps over whole tokens.
  `TallyOf` is its specification: one automaton step per character. Everything proved about
  balance, minimality and repair is proved about `TallyOf`, and `Scan` is proved equal to it.
 */
module LintParens {
  /** The characters the tokenizer gives a meaning to; `str.isalnum` is false on all of them. */
  predicate Syntax(c: char) {
    c == '(' || c == ')' || c == '"' || c == ';' || c == '#' || c == '|' || c == '\\' || c == '\n'
  }

  /** `str.isalnum`, for any alphabet: every result below holds for each such test. */
  type AlnumTest = f: char -> bool | forall c :: Syntax(c) ==> !f(c) witness (c: char) => false

  datatype Mode =
    | Code
    | Hash                      // just after a code-level '#', which may open "#|" or "#\"
    | LineComment
    | Str
    | StrEsc
    | Block(level: nat)
    | BlockHash(level: nat)
    | BlockBar(level: nat)
    | CharStart                 // just after "#\"
    | CharName                  // inside the alphanumeric name of a character literal

  function CodeStep(c: char): Mode {
    if c == ';' then LineComment else if c == '"' then Str else if c == '#' then Hash else Code
  }

  function Step(an: AlnumTest, m: Mode, c: char): Mode {
    match m
    case Code => CodeStep(c)
    case Hash => if c == '|' then Block(1) else if c == '\\' then CharStart else CodeStep(c)
    case LineComment => if c == '\n' then Code else LineComment
    case Str => if c == '\\' then StrEsc else if c == '"' then Code else Str
    case StrEsc => Str
    case Block(l) => if c == '#' then BlockHash(l) else if c == '|' then BlockBar(l) else Block(l)
    case BlockHash(l) => if c == '|' then Block(l + 1) else if c == '#' then BlockHash(l) else Block(l)
    case BlockBar(l) =>
      if c == '#' then (if l <= 1 then Code else Block(l - 1)) else if c == '|' then BlockBar(l) else Block(l)
    case CharStart => if an(c) then CharName else Code
    case CharName => if an(c) then CharName else CodeStep(c)
  }

  /** A parenthesis read in one of these modes is a code-level parenthesis. */
  predicate AtCode(m: Mode) { m.Code? || m.Hash? || m.CharName? }

  predicate InBlock(m: Mode) { m.Block? || m.BlockHash? || m.BlockBar? }

  datatype Tally = Tally(mode: Mode, depth: nat, strays: seq<nat>)

  function Next(an: AlnumTest, t: Tally, c: char, i: nat): Tally {
    var m := Step(an, t.mode, c);
    if AtCode(t.mode) && c == '(' then Tally(m, t.depth + 1, t.strays)
    else if AtCode(t.mode) && c == ')' then
      if t.depth > 0 then Tally(m, t.depth - 1, t.strays) else Tally(m, 0, t.strays + [i])
    else Tally(m, t.depth, t.strays)
  }

  /** The automaton run over a whole text: final mode, open depth, positions of stray closers. */
  function TallyOf(an: AlnumTest, s: string): Tally {
    if s == [] then Tally(Code, 0, [])
    else Next(an, TallyOf(an, s[..|s| - 1]), s[|s| - 1], |s| - 1)
  }

  lemma TallyStep(an: AlnumTest, s: string, i: nat)
    requires i < |s|
    ensures TallyOf(an, s[..i + 1]) == Next(an, TallyOf(an, s[..i]), s[i], i)
  {
    assert s[..i + 1][..i] == s[..i];
  }

  lemma TallySnoc(an: AlnumTest, s: string, c: char)
    ensures TallyOf(an, s + [c]) == Next(an, TallyOf(an, s), c, |s|)
  {
    assert (s + [c])[..|s|] == s;
  }

  // ---------------------------------------------------------------- problems and fixes

  datatype Problem = StrayClose(at: nat) | UnclosedBlock | UnclosedForm(depth: nat)

  /** `{}` is `Fix(0, [])`; otherwise `{'append': append, 'remove': remove}` without empty entries. */
  datatype Fix = Fix(append: nat, remove: seq<nat>)

  function StrayProblems(strays: seq<nat>): (ps: seq<Problem>)
    ensures |ps| == |strays| && forall k :: 0 <= k < |ps| ==> ps[k] == StrayClose(strays[k])
  {
    seq(|strays|, k requires 0 <= k < |strays| => StrayClose(strays[k]))
  }

  function Problems(an: AlnumTest, s: string): seq<Problem> {
    var t := TallyOf(an, s);
    StrayProblems(t.strays)
    + (if InBlock(t.mode) then [UnclosedBlock] else [])
    + (if t.depth > 0 then [UnclosedForm(t.depth)] else [])
  }

  /** A fix is offered exactly when there is a problem and no block comment is left open. */
  predicate Fixable(an: AlnumTest, s: string) {
    var t := TallyOf(an, s);
    !InBlock(t.mode) && (t.depth > 0 || t.strays != [])
  }

  function FixOf(an: AlnumTest, s: string): Fix {
    if Fixable(an, s) then Fix(TallyOf(an, s).depth, TallyOf(an, s).strays) else Fix(0, [])
  }

  lemma CleanMeansNoProblem(an: AlnumTest, s: string)
    ensures Problems(an, s) == [] <==>
            TallyOf(an, s).strays == [] && TallyOf(an, s).depth == 0 && !InBlock(TallyOf(an, s).mode)
  {
    var t := TallyOf(an, s);
    assert |Problems(an, s)| ==
           |t.strays| + (if InBlock(t.mode) then 1 else 0) + (if t.depth > 0 then 1 else 0);
  }

  // ---------------------------------------------------------------- the scanner

  predicate StartsWith(text: string, a: char, b: char, i: nat) {
    i + 1 < |text| && text[i] == a && text[i + 1] == b
  }

  /** The automaton's tally of the first `i` characters; the index may run past the end. */
  function At(an: AlnumTest, text: string, i: nat): Tally {
    TallyOf(an, if i <= |text| then text[..i] else text)
  }

  /** At a token boundary the automaton cannot combine what it has read with the next character. */
  predicate Boundary(an: AlnumTest, text: string, m: Mode, i: nat) {
    i < |text| ==>
      || (AtCode(m) && (m.Hash? ==> text[i] != '|' && text[i] != '\\') && (m.CharName? ==> !an(text[i])))
      || (m.LineComment? && text[i] == '\n')
  }

  /** The same inside a block comment of the given nesting level. */
  predicate BlockBoundary(text: string, m: Mode, i: nat, level: nat) {
    && InBlock(m) && m.level == level
    && (i < |text| ==> (m.BlockHash? ==> text[i] != '|') && (m.BlockBar? ==> text[i] != '#'))
  }

  lemma AtStep(an: AlnumTest, text: string, i: nat)
    requires i < |text|
    ensures At(an, text, i + 1) == Next(an, At(an, text, i), text[i], i)
  {
    TallyStep(an, text, i);
  }

  /** Reading a non-code parenthesis or any other character moves only the mode. */
  lemma Quiet(an: AlnumTest, text: string, i: nat)
    requires i < |text|
    requires AtCode(At(an, text, i).mode) ==> text[i] != '(' && text[i] != ')'
    ensures At(an, text, i + 1) == At(an, text, i).(mode := Step(an, At(an, text, i).mode, text[i]))
  {
    AtStep(an, text, i);
  }

  lemma Quiet2(an: AlnumTest, text: string, i: nat)
    requires i + 1 < |text|
    requires text[i] != '(' && text[i] != ')' && text[i + 1] != '(' && text[i + 1] != ')'
    ensures At(an, text, i + 2)
            == At(an, text, i).(mode := Step(an, Step(an, At(an, text, i).mode, text[i]), text[i + 1]))
  {
    Quiet(an, text, i);
    Quiet(an, text, i + 1);
  }

  /** The three moves of the block-comment loop, on the mode alone. */
  lemma BlockMoves(an: AlnumTest, text: string, m: Mode, i: nat, level: nat)
    requires i < |text| && level > 0 && BlockBoundary(text, m, i, level)
    ensures StartsWith(text, '#', '|', i) ==> Step(an, Step(an, m, '#'), '|') == Block(level + 1)
    ensures StartsWith(text, '|', '#', i) ==>
              Step(an, Step(an, m, '|'), '#') == if level == 1 then Code else Block(level - 1)
    ensures !StartsWith(text, '#', '|', i) && !StartsWith(text, '|', '#', i) ==>
              BlockBoundary(text, Step(an, m, text[i]), i + 1, level)
  {
  }

  method SkipLineComment(an: AlnumTest, text: string, start: nat, ghost t: Tally)
    returns (index: nat, ghost m: Mode)
    requires start < |text| && text[start] == ';'
    requires t == At(an, text, start) && Boundary(an, text, t.mode, start)
    ensures start < index <= |text| && At(an, text, index) == t.(mode := m)
    ensures Boundary(an, text, m, index) && !InBlock(m)
  {
    Quiet(an, text, start);
    index, m := start + 1, LineComment;
    while index < |text| && text[index] != '\n'
      invariant start < index <= |text| && At(an, text, index) == t.(mode := m)
      invariant m == LineComment
    {
      Quiet(an, text, index);
      index := index + 1;
    }
  }

  method SkipString(an: AlnumTest, text: string, start: nat, ghost t: Tally)
    returns (index: nat, ghost m: Mode)
    requires start < |text| && text[start] == '"'
    requires t == At(an, text, start) && Boundary(an, text, t.mode, start)
    ensures start < index <= |text| + 1 && At(an, text, index) == t.(mode := m)
    ensures Boundary(an, text, m, index) && !InBlock(m)
  {
    Quiet(an, text, start);
    index, m := start + 1, Str;
    while index < |text|
      invariant start < index <= |text| + 1 && At(an, text, index) == t.(mode := m)
      invariant m == if index <= |text| then Str else StrEsc
    {
      Quiet(an, text, index);
      if text[index] == '\\' {
        m := StrEsc;
        if index + 1 < |text| {
          Quiet(an, text, index + 1);
          m := Str;
        } else if index + 1 == |text| {
          assert text[..|text|] == text;
        }
        index := index + 2;
        continue;
      }
      if text[index] == '"' {
        index, m := index + 1, Code;
        break;
      }
      index := index + 1;
    }
  }

  method SkipBlock(an: AlnumTest, text: string, start: nat, ghost t: Tally)
    returns (index: nat, level: nat, ghost m: Mode)
    requires StartsWith(text, '#', '|', start)
    requires t == At(an, text, start) && Boundary(an, text, t.mode, start)
    ensures start < index <= |text| && At(an, text, index) == t.(mode := m)
    ensures level == 0 ==> m == Code
    ensures level > 0 ==> index == |text| && InBlock(m)
  {
    level := 1;
    Quiet2(an, text, start);
    index, m := start + 2, Block(1);
    while index < |text| && level > 0
      invariant start < index <= |text| && At(an, text, index) == t.(mode := m)
      invariant if level == 0 then m == Code else BlockBoundary(text, m, index, level)
    {
      BlockMoves(an, text, m, index, level);
      if StartsWith(text, '#', '|', index) {
        Quiet2(an, text, index);
        level := level + 1;
        index, m := index + 2, Block(level);
      } else if StartsWith(text, '|', '#', index) {
        Quiet2(an, text, index);
        level := level - 1;
        index, m := index + 2, if level == 0 then Code else Block(level);
      } else {
        Quiet(an, text, index);
        m := Step(an, m, text[index]);
        index := index + 1;
      }
    }
  }

  method SkipCharLiteral(an: AlnumTest, text: string, start: nat, ghost t: Tally)
    returns (index: nat, ghost m: Mode)
    requires StartsWith(text, '#', '\\', start)
    requires t == At(an, text, start) && Boundary(an, text, t.mode, start)
    ensures start < index <= |text| && At(an, text, index) == t.(mode := m)
    ensures Boundary(an, text, m, index) && !InBlock(m)
  {
    Quiet(an, text, start);
    Quiet(an, text, start + 1);
    index, m := start + 2, CharStart;
    if index < |text| && an(text[index]) {
      while index < |text| && an(text[index])
        invariant start < index <= |text| && At(an, text, index) == t.(mode := m)
        invariant m == CharName || (m == CharStart && index < |text| && an(text[index]))
      {
        Quiet(an, text, index);
        index, m := index + 1, CharName;
      }
    } else if index < |text| {
      Quiet(an, text, index);
      index, m := index + 1, Code;
    }
  }

  /** scan: the index-driven scanner computes exactly the automaton's problems and fix. */
  method Scan(an: AlnumTest, text: string) returns (problems: seq<Problem>, fix: Fix)
    ensures problems == Problems(an, text)
    ensures fix == FixOf(an, text)
  {
    var depth: nat, strays: seq<nat>, index: nat := 0, [], 0;
    problems := [];
    ghost var m := Code;
    while index < |text|
      invariant index <= |text| + 1
      invariant At(an, text, index) == Tally(m, depth, strays)
      invariant Boundary(an, text, m, index)
      invariant InBlock(m) ==> index == |text|
      invariant problems == StrayProblems(strays) + (if InBlock(m) then [UnclosedBlock] else [])
    {
      var character := text[index];
      ghost var t := Tally(m, depth, strays);
      if character == '\n' {
        Quiet(an, text, index);
        index, m := index + 1, Code;
      } else if character == ';' {
        index, m := SkipLineComment(an, text, index, t);
      } else if character == '"' {
        index, m := SkipString(an, text, index, t);
      } else if StartsWith(text, '#', '|', index) {
        var level;
        index, level, m := SkipBlock(an, text, index, t);
        if level > 0 {
          problems := problems + [UnclosedBlock];
        }
      } else if StartsWith(text, '#', '\\', index) {
        index, m := SkipCharLiteral(an, text, index, t);
      } else {
        AtStep(an, text, index);
        if character == '(' {
          depth := depth + 1;
        } else if character == ')' {
          if depth > 0 {
            depth := depth - 1;
          } else {
            problems := problems + [StrayClose(index)];
            strays := strays + [index];
          }
        }
        m := Step(an, m, character);
        index := index + 1;
      }
    }
    assert index == |text| ==> text[..index] == text;
    if depth > 0 {
      problems := problems + [UnclosedForm(depth)];
    }
    fix := Fix(0, []);
    if problems != [] && UnclosedBlock !in problems {
      fix := Fix(depth, strays);
    }
  }
}
