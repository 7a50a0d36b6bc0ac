/** What the mechanical repair of scripts/lint-parens.py does to the text, and when the repaired
  text scans clean. */
module LintRepair {
  import opened Options
  import opened LintParens
  import opened TextFiles

  // ---------------------------------------------------------------- fix_text

  function Closers(n: nat): (r: string)
    ensures |r| == n && forall k :: 0 <= k < n ==> r[k] == ')'
  {
    seq(n, _ => ')')
  }

  /** len(text.rstrip("\n")) */
  function StrippedLen(s: string): (n: nat)
    ensures n <= |s|
    ensures n > 0 ==> s[n - 1] != '\n'
    ensures forall k :: n <= k < |s| ==> s[k] == '\n'
  {
    if s != [] && s[|s| - 1] == '\n' then StrippedLen(s[..|s| - 1]) else |s|
  }

  /** The characters whose index is not listed. */
  function RemoveAt(s: string, gone: seq<nat>): string {
    if s == [] then []
    else RemoveAt(s[..|s| - 1], gone) + (if |s| - 1 in gone then [] else [s[|s| - 1]])
  }

  function FixText(text: string, fix: Fix): string {
    var appended :=
      if fix.append > 0 then
        var n := StrippedLen(text);
        text[..n] + Closers(fix.append) + text[n..]
      else text;
    if fix.remove != [] then RemoveAt(appended, fix.remove) else appended
  }

  // ---------------------------------------------------------------- shape of the repair

  /** The text without its stray closers. */
  function Kept(an: AlnumTest, s: string): string { RemoveAt(s, TallyOf(an, s).strays) }

  /** Every reported stray is a code-level `)` read at depth zero, and strays are only ever added. */
  lemma {:induction false} StraysAre(an: AlnumTest, s: string)
    ensures forall k :: k in TallyOf(an, s).strays ==>
              k < |s| && s[k] == ')' && AtCode(TallyOf(an, s[..k]).mode) && TallyOf(an, s[..k]).depth == 0
  {
    if s != [] {
      var front := s[..|s| - 1];
      StraysAre(an, front);
      forall k | k in TallyOf(an, s).strays
        ensures k < |s| && s[k] == ')' && AtCode(TallyOf(an, s[..k]).mode) && TallyOf(an, s[..k]).depth == 0
      {
        if k in TallyOf(an, front).strays {
          assert front[..k] == s[..k];
        }
      }
    }
  }

  lemma {:induction false} RemoveIrrelevant(s: string, gone: seq<nat>, i: nat)
    requires i >= |s|
    ensures RemoveAt(s, gone + [i]) == RemoveAt(s, gone)
  {
    if s != [] {
      RemoveIrrelevant(s[..|s| - 1], gone, i);
    }
  }

  lemma {:induction false} RemoveNone(s: string, t: string, gone: seq<nat>)
    requires forall k :: k in gone ==> k < |s|
    ensures RemoveAt(s + t, gone) == RemoveAt(s, gone) + t
    decreases |t|
  {
    if t == [] {
      assert s + t == s;
    } else {
      assert (s + t)[..|s + t| - 1] == s + t[..|t| - 1];
      RemoveNone(s, t[..|t| - 1], gone);
    }
  }

  /** Reading one more character either drops it (a stray) or keeps it. */
  lemma KeptSnoc(an: AlnumTest, s: string, c: char)
    ensures var t, u := TallyOf(an, s), TallyOf(an, s + [c]);
            if AtCode(t.mode) && c == ')' && t.depth == 0
            then u.strays == t.strays + [|s|] && Kept(an, s + [c]) == Kept(an, s)
            else u.strays == t.strays && Kept(an, s + [c]) == Kept(an, s) + [c]
  {
    var t := TallyOf(an, s);
    TallySnoc(an, s, c);
    StraysAre(an, s);
    assert (s + [c])[..|s|] == s;
    RemoveIrrelevant(s, t.strays, |s|);
  }

  lemma {:induction false} TrailingNewlines(an: AlnumTest, s: string, t: string)
    requires forall k :: 0 <= k < |t| ==> t[k] == '\n'
    ensures var u, v := TallyOf(an, s), TallyOf(an, s + t);
            u.depth == v.depth && u.strays == v.strays && (InBlock(u.mode) <==> InBlock(v.mode))
    ensures AtCode(TallyOf(an, s).mode) ==> AtCode(TallyOf(an, s + t).mode)
    decreases |t|
  {
    if t == [] {
      assert s + t == s;
    } else {
      var front := t[..|t| - 1];
      assert s + t == (s + front) + ['\n'];
      TrailingNewlines(an, s, front);
      TallySnoc(an, s + front, '\n');
    }
  }

  /** The repaired text is the stripped text without its strays, the missing closers, and the
      trailing newlines: every stray index precedes the insertion point. */
  lemma RepairShape(an: AlnumTest, s: string)
    requires Fixable(an, s)
    ensures var n := StrippedLen(s);
            FixText(s, FixOf(an, s)) == Kept(an, s[..n]) + Closers(TallyOf(an, s).depth) + s[n..]
    ensures forall k :: k in TallyOf(an, s).strays ==> k < StrippedLen(s)
    ensures TallyOf(an, s[..StrippedLen(s)]).strays == TallyOf(an, s).strays
    ensures TallyOf(an, s[..StrippedLen(s)]).depth == TallyOf(an, s).depth
  {
    hide TallyOf;
    var n, t := StrippedLen(s), TallyOf(an, s);
    assert s == s[..n] + s[n..];
    TrailingNewlines(an, s[..n], s[n..]);
    StraysAre(an, s[..n]);
    var tail := Closers(t.depth) + s[n..];
    assert s[..n] + Closers(t.depth) + s[n..] == s[..n] + tail;
    RemoveNone(s[..n], tail, t.strays);
    if t.depth == 0 {
      assert Closers(0) == [];
      assert s[..n] + tail == s;
    }
    if t.strays == [] {
      RemoveNone([], s[..n], []);
      assert [] + s[..n] == s[..n];
    }
    assert Kept(an, s[..n]) + Closers(t.depth) + s[n..] == Kept(an, s[..n]) + tail;
  }

  // ---------------------------------------------------------------- fusion

  /** Deleting the run of strays between a code-level `#` at `i` and the character at `j`
      would make the two read as one token, `#|` or `#\`. */
  predicate Fused(an: AlnumTest, s: string, i: nat, j: nat) {
    && i + 1 < j < |s|
    && TallyOf(an, s[..i + 1]).mode == Hash
    && (forall k :: i < k < j ==> k in TallyOf(an, s).strays)
    && (s[j] == '|' || s[j] == '\\')
  }

  ghost predicate NoFusion(an: AlnumTest, s: string) {
    forall i, j :: !Fused(an, s, i, j)
  }

  /** A `#` at `i` followed by nothing but strays. */
  predicate Dangling(an: AlnumTest, s: string, i: nat) {
    && i + 1 < |s|
    && TallyOf(an, s[..i + 1]).mode == Hash
    && (forall k :: i < k < |s| ==> k in TallyOf(an, s).strays)
  }

  /** How the mode after the kept characters relates to the mode after all of them. */
  ghost predicate Related(an: AlnumTest, s: string, m: Mode, k: Mode) {
    || k == m
    || (m == Code && k == CharName)
    || (m == Code && k == Hash && exists i :: Dangling(an, s, i))
  }

  lemma FusionMonotone(an: AlnumTest, s: string, c: char)
    requires NoFusion(an, s + [c])
    ensures NoFusion(an, s)
  {
    forall i, j | Fused(an, s, i, j) ensures Fused(an, s + [c], i, j) {
      assert (s + [c])[..i + 1] == s[..i + 1];
      KeptSnoc(an, s, c);
    }
  }

  lemma RunGrows(before: seq<nat>, after: seq<nat>, i: nat, n: nat)
    requires after == before + [n]
    requires forall k :: i < k < n ==> k in before
    ensures forall k :: i < k < n + 1 ==> k in after
  {
    assert after[|before|] == n;
  }

  lemma DanglingGrows(an: AlnumTest, s: string, i: nat)
    requires TallyOf(an, s).depth == 0 && AtCode(TallyOf(an, s).mode)
    requires Dangling(an, s, i) || (i + 1 == |s| && TallyOf(an, s).mode == Hash)
    ensures Dangling(an, s + [')'], i)
  {
    TallySnoc(an, s, ')');
    RunGrows(TallyOf(an, s).strays, TallyOf(an, s + [')']).strays, i, |s|);
    assert (s + [')'])[..i + 1] == s[..i + 1];
    assert i + 1 == |s| ==> s[..i + 1] == s;
  }

  lemma DanglingThenFused(an: AlnumTest, s: string, i: nat, c: char)
    requires Dangling(an, s, i) && (c == '|' || c == '\\')
    ensures Fused(an, s + [c], i, |s|)
  {
    KeptSnoc(an, s, c);
    assert (s + [c])[..i + 1] == s[..i + 1];
  }

  /** Without fusion, reading the kept characters tracks reading all of them. */
  lemma {:induction false} KeptTracks(an: AlnumTest, s: string)
    requires NoFusion(an, s)
    ensures TallyOf(an, Kept(an, s)).strays == [] && TallyOf(an, Kept(an, s)).depth == TallyOf(an, s).depth
    ensures Related(an, s, TallyOf(an, s).mode, TallyOf(an, Kept(an, s)).mode)
    decreases |s|
  {
    if s != [] {
      var f, c := s[..|s| - 1], s[|s| - 1];
      assert s == f + [c];
      FusionMonotone(an, f, c);
      KeptTracks(an, f);
      KeptSnoc(an, f, c);
      TallySnoc(an, f, c);
      TallySnoc(an, Kept(an, f), c);
      var m, k := TallyOf(an, f).mode, TallyOf(an, Kept(an, f)).mode;
      if AtCode(m) && c == ')' && TallyOf(an, f).depth == 0 {
        if k == Hash {
          var i := if m == Hash then |f| - 1 else var i :| Dangling(an, f, i); i;
          if m == Hash {
            assert f != [];
          }
          DanglingGrows(an, f, i);
        }
      } else if k == Hash && m == Code {
        var i :| Dangling(an, f, i);
        if c == '|' || c == '\\' {
          DanglingThenFused(an, f, i, c);
        }
      }
    }
  }

  /** The kept characters read at code level exactly where the originals did. */
  ghost predicate CodeLevelsKept(an: AlnumTest, s: string) {
    forall n :: 0 <= n <= |s| ==>
      (AtCode(TallyOf(an, Kept(an, s[..n])).mode) <==> AtCode(TallyOf(an, s[..n]).mode))
  }

  lemma {:induction false} StrayRunKeepsNothing(an: AlnumTest, s: string, a: nat, b: nat)
    requires a <= b <= |s| && forall k :: a <= k < b ==> k in TallyOf(an, s).strays
    ensures Kept(an, s[..b]) == Kept(an, s[..a])
    decreases b
  {
    hide TallyOf;
    hide RemoveAt;
    if a < b {
      StrayRunKeepsNothing(an, s, a, b - 1);
      StraysAre(an, s);
      assert s[..b] == s[..b - 1] + [s[b - 1]];
      KeptSnoc(an, s[..b - 1], s[b - 1]);
    }
  }

  lemma {:induction false} StraysOfPrefix(an: AlnumTest, s: string, n: nat, k: nat)
    requires k < n <= |s|
    ensures k in TallyOf(an, s).strays <==> k in TallyOf(an, s[..n]).strays
    decreases |s|
  {
    hide TallyOf;
    hide RemoveAt;
    if n < |s| {
      var f := s[..|s| - 1];
      assert s == f + [s[|s| - 1]];
      KeptSnoc(an, f, s[|s| - 1]);
      assert f[..n] == s[..n];
      StraysOfPrefix(an, f, n, k);
    } else {
      assert s[..n] == s;
    }
  }

  lemma FusedInPrefix(an: AlnumTest, s: string, n: nat, i: nat, j: nat)
    requires n <= |s|
    ensures Fused(an, s[..n], i, j) <==> j < n && Fused(an, s, i, j)
  {
    hide TallyOf;
    if i + 1 < j < n {
      assert s[..n][..i + 1] == s[..i + 1];
      forall k | i < k < j
        ensures k in TallyOf(an, s).strays <==> k in TallyOf(an, s[..n]).strays
      {
        StraysOfPrefix(an, s, n, k);
      }
    }
  }

  /** The first fusion point changes what is code: the text after it is read as a comment or a character. */
  lemma FirstFusionBreaks(an: AlnumTest, s: string, i: nat, j: nat)
    requires Fused(an, s, i, j) && NoFusion(an, s[..j])
    ensures AtCode(TallyOf(an, s[..j + 1]).mode)
    ensures TallyOf(an, Kept(an, s[..j + 1])).mode == if s[j] == '|' then Block(1) else CharStart
  {
    hide TallyOf;
    var p, h := s[..j], s[..i + 1];
    assert NoFusion(an, h) by {
      forall a: nat, b: nat | Fused(an, h, a, b) ensures false {
        FusedInPrefix(an, s, i + 1, a, b);
        FusedInPrefix(an, s, j, a, b);
      }
    }
    KeptTracks(an, h);
    assert TallyOf(an, Kept(an, h)).mode == Hash;
    StrayRunKeepsNothing(an, s, i + 1, j);
    ModeAfterStray(an, s, j - 1);
    assert s[..j + 1] == p + [s[j]];
    KeptSnoc(an, p, s[j]);
    TallySnoc(an, p, s[j]);
    TallySnoc(an, Kept(an, p), s[j]);
  }

  lemma CloserStep(an: AlnumTest, m: Mode)
    requires AtCode(m)
    ensures Step(an, m, ')') == Code
  {
  }

  lemma {:induction false} ModeAfterStray(an: AlnumTest, s: string, k: nat)
    requires k in TallyOf(an, s).strays
    ensures k < |s| && TallyOf(an, s[..k + 1]).mode == Code
  {
    var f, c := s[..|s| - 1], s[|s| - 1];
    assert s == f + [c];
    KeptSnoc(an, f, c);
    if k in TallyOf(an, f).strays {
      ModeAfterStray(an, f, k);
      assert f[..k + 1] == s[..k + 1];
    } else {
      assert s[..k + 1] == s;
      CloserStep(an, TallyOf(an, f).mode);
    }
  }

  lemma {:induction false} FusionBreaks(an: AlnumTest, s: string, i: nat, j: nat)
    requires Fused(an, s, i, j)
    ensures !CodeLevelsKept(an, s)
    decreases j
  {
    if NoFusion(an, s[..j]) {
      FirstFusionBreaks(an, s, i, j);
    } else {
      var i', j' :| Fused(an, s[..j], i', j');
      FusedInPrefix(an, s, j, i', j');
      FusionBreaks(an, s, i', j');
    }
  }

  /** Deleting the strays leaves every other character's reading unchanged if and only if no
      deleted run joins a code-level `#` to `|` or `\`. */
  lemma RemovalKeepsTokensIff(an: AlnumTest, s: string)
    ensures CodeLevelsKept(an, s) <==> NoFusion(an, s)
  {
    if NoFusion(an, s) {
      forall n | 0 <= n <= |s|
        ensures AtCode(TallyOf(an, Kept(an, s[..n])).mode) <==> AtCode(TallyOf(an, s[..n]).mode)
      {
        forall i, j ensures !Fused(an, s[..n], i, j) {
          FusedInPrefix(an, s, n, i, j);
        }
        KeptTracks(an, s[..n]);
      }
    } else {
      var i, j :| Fused(an, s, i, j);
      FusionBreaks(an, s, i, j);
    }
  }

  // ---------------------------------------------------------------- when the repair scans clean

  /** How many of `n` closers appended where a text ends in mode `m` close a form: all of them at code level, none in
      a line comment or a string, and all but the first, which becomes a character, after a bare `#\`. */
  function Closing(m: Mode, n: nat): nat {
    if AtCode(m) then n else if m.CharStart? && n > 0 then n - 1 else 0
  }

  /** `n` closers close exactly what is open. */
  predicate ClosedBy(t: Tally, n: nat) {
    t.strays == [] && !InBlock(t.mode) && t.depth == Closing(t.mode, n)
  }

  lemma OneCloser(an: AlnumTest, t: Tally, i: nat, n: nat)
    requires n > 0
    ensures ClosedBy(Next(an, t, ')', i), n - 1) <==> ClosedBy(t, n)
  {
  }

  lemma {:induction false} ClosersClose(an: AlnumTest, s: string, n: nat)
    ensures ClosedBy(TallyOf(an, s + Closers(n)), 0) <==> ClosedBy(TallyOf(an, s), n)
    decreases n
  {
    hide TallyOf;
    hide ClosedBy;
    if n == 0 {
      assert s + Closers(0) == s;
    } else {
      assert s + Closers(n) == (s + [')']) + Closers(n - 1);
      ClosersClose(an, s + [')'], n - 1);
      TallySnoc(an, s, ')');
      OneCloser(an, TallyOf(an, s), |s|, n);
    }
  }

  /** The condition on where the closers land: the end of the text, without its trailing newlines,
      is not inside a line comment or a string and is not a bare `#\`. */
  predicate EndsAtCode(an: AlnumTest, s: string) {
    AtCode(TallyOf(an, s[..StrippedLen(s)]).mode)
  }

  /** When the repaired text scans clean, for every text: if and only if the text without its strays, read on its own,
      is one that the closers close. */
  lemma RepairScansCleanIff(an: AlnumTest, s: string)
    requires Fixable(an, s)
    ensures Problems(an, FixText(s, FixOf(an, s))) == [] <==>
            ClosedBy(TallyOf(an, Kept(an, s[..StrippedLen(s)])), TallyOf(an, s).depth)
  {
    hide TallyOf;
    hide FixText;
    hide Kept;
    var n, d := StrippedLen(s), TallyOf(an, s).depth;
    var k := Kept(an, s[..n]);
    RepairShape(an, s);
    ClosersClose(an, k, d);
    TrailingNewlines(an, k + Closers(d), s[n..]);
    CleanMeansNoProblem(an, FixText(s, FixOf(an, s)));
  }

  /** When no deletion fuses two characters, that comes to this: no closer has to be appended or the text ends at code
      level. */
  lemma UnfusedScansCleanIff(an: AlnumTest, s: string)
    requires Fixable(an, s) && NoFusion(an, s)
    ensures Problems(an, FixText(s, FixOf(an, s))) == [] <==> TallyOf(an, s).depth == 0 || EndsAtCode(an, s)
  {
    hide TallyOf;
    hide FixText;
    hide Kept;
    var n := StrippedLen(s);
    var p := s[..n];
    RepairScansCleanIff(an, s);
    RepairShape(an, s);
    assert s == p + s[n..];
    TrailingNewlines(an, p, s[n..]);
    forall i, j ensures !Fused(an, p, i, j) {
      FusedInPrefix(an, s, n, i, j);
    }
    KeptTracks(an, p);
  }

  // ---------------------------------------------------------------- check --fix

  /** `after` is `before` with strays deleted and a block of closers inserted, and nothing else. */
  ghost predicate OnlyParensTouched(an: AlnumTest, before: string, after: string) {
    exists a, b, n ::
      && before == a + b
      && after == RemoveAt(a, TallyOf(an, before).strays) + Closers(n) + b
      && (forall k :: k in TallyOf(an, before).strays ==> k < |a| && before[k] == ')')
  }

  lemma RepairTouchesOnlyParens(an: AlnumTest, s: string)
    requires Fixable(an, s)
    ensures OnlyParensTouched(an, s, FixText(s, FixOf(an, s)))
  {
    RepairShape(an, s);
    StraysAre(an, s);
    var n := StrippedLen(s);
    assert s == s[..n] + s[n..];
  }

  /** What check writes back in fix mode over a file with the content `raw`, if anything. */
  function WrittenBack(an: AlnumTest, raw: string): Option<string> {
    var text := AsText(raw);
    if FixOf(an, text) != Fix(0, []) && Problems(an, FixText(text, FixOf(an, text))) == []
    then Some(FixText(text, FixOf(an, text)))
    else None
  }

  lemma {:induction false} RemoveAtChars(s: string, gone: seq<nat>)
    ensures forall c <- RemoveAt(s, gone) :: c in s
    ensures forall k :: 0 <= k < |s| && k !in gone ==> s[k] in RemoveAt(s, gone)
  {
    if s != [] {
      var front := s[..|s| - 1];
      RemoveAtChars(front, gone);
      assert forall c <- front :: c in s;
      assert forall k :: 0 <= k < |front| ==> front[k] == s[k];
    }
  }

  lemma FixTextChars(s: string, fix: Fix)
    ensures forall c <- FixText(s, fix) :: c == ')' || c in s
  {
    var n := StrippedLen(s);
    assert forall c <- s[..n] + Closers(fix.append) + s[n..] :: c == ')' || c in s;
    RemoveAtChars(s, fix.remove);
    RemoveAtChars(s[..n] + Closers(fix.append) + s[n..], fix.remove);
  }

  lemma TouchedKeepsOthers(an: AlnumTest, before: string, after: string, c: char)
    requires OnlyParensTouched(an, before, after) && c in before && c != ')'
    ensures c in after
  {
    var strays := TallyOf(an, before).strays;
    var a, b, n :| && before == a + b && after == RemoveAt(a, strays) + Closers(n) + b
                   && forall k :: k in strays ==> k < |a| && before[k] == ')';
    RemoveAtChars(a, strays);
    var k :| 0 <= k < |before| && before[k] == c;
    assert k < |a| ==> a[k] == c;
    assert k >= |a| ==> b[k - |a|] == c;
  }

  /** What is written back differs from the file itself by parentheses only if and only if the file holds no
      carriage return; from its text it never differs by more. */
  lemma WriteTouchesOnlyParensIff(an: AlnumTest, raw: string)
    requires WrittenBack(an, raw).Some?
    ensures OnlyParensTouched(an, AsText(raw), WrittenBack(an, raw).value)
    ensures OnlyParensTouched(an, raw, WrittenBack(an, raw).value) <==> '\r' !in raw
  {
    hide OnlyParensTouched;
    hide TallyOf;
    hide FixText;
    hide AsText;
    hide Problems;
    var text := AsText(raw);
    RepairTouchesOnlyParens(an, text);
    ReadAsItStandsIff(raw);
    TextHasNoReturn(raw);
    FixTextChars(text, FixOf(an, text));
    if '\r' in raw && OnlyParensTouched(an, raw, WrittenBack(an, raw).value) {
      TouchedKeepsOthers(an, raw, WrittenBack(an, raw).value, '\r');
      assert false;
    }
  }

  /** check: `raw` is None when the file cannot be read; `written` is what is written back. */
  method Check(an: AlnumTest, raw: Option<string>, fixMode: bool) returns (ok: bool, written: Option<string>)
    ensures raw.None? ==> !ok && written == None
    ensures raw.Some? ==>
              && written == (if fixMode then WrittenBack(an, raw.value) else None)
              && (ok <==> Problems(an, AsText(raw.value)) == [] || written.Some?)
    ensures written.Some? ==>
              && Problems(an, AsText(raw.value)) != [] && Problems(an, written.value) == []
              && OnlyParensTouched(an, AsText(raw.value), written.value)
              && (OnlyParensTouched(an, raw.value, written.value) <==> '\r' !in raw.value)
  {
    hide OnlyParensTouched;
    hide TallyOf;
    hide FixText;
    hide AsText;
    written := None;
    if raw == None {
      return false, None;
    }
    var text := AsText(raw.value);
    var problems, fix := Scan(an, text);
    CleanMeansNoProblem(an, text);
    hide Problems;
    if fixMode {
      if fix != Fix(0, []) {
        var repaired := FixText(text, fix);
        var after, _ := Scan(an, repaired);
        if after != [] {
          return false, None;
        }
        WriteTouchesOnlyParensIff(an, raw.value);
        return true, Some(repaired);
      }
      return problems == [], None;
    }
    ok := problems == [];
  }

  /** Fixing is settled after one run: over whatever the first run leaves in the file a second one writes nothing,
      and gives the verdict the first one gave. */
  lemma RepairIsIdempotent(an: AlnumTest, raw: string)
    ensures var after := if WrittenBack(an, raw).Some? then WrittenBack(an, raw).value else raw;
            && WrittenBack(an, after) == None
            && (Problems(an, AsText(after)) == [] <==>
                Problems(an, AsText(raw)) == [] || WrittenBack(an, raw).Some?)
  {
    hide TallyOf;
    hide FixText;
    hide AsText;
    if WrittenBack(an, raw).Some? {
      var text := AsText(raw);
      var after := WrittenBack(an, raw).value;
      TextHasNoReturn(raw);
      FixTextChars(text, FixOf(an, text));
      ReadAsItStandsIff(after);
      CleanMeansNoProblem(an, after);
    }
  }

  // ---------------------------------------------------------------- fusions that stay open

  /** No `|#` starts in `s`. */
  predicate NeverCloses(s: string) {
    forall k :: 0 <= k < |s| - 1 ==> !(s[k] == '|' && s[k + 1] == '#')
  }

  lemma {:induction false} StaysInBlock(an: AlnumTest, s: string, rest: string)
    requires TallyOf(an, s).mode.Block? && NeverCloses(rest)
    ensures InBlock(TallyOf(an, s + rest).mode)
    ensures TallyOf(an, s + rest).mode.BlockBar? ==> rest != [] && rest[|rest| - 1] == '|'
    decreases |rest|
  {
    if rest == [] {
      assert s + rest == s;
    } else {
      hide TallyOf;
      var front, c := rest[..|rest| - 1], rest[|rest| - 1];
      assert forall k :: 0 <= k < |front| ==> front[k] == rest[k];
      StaysInBlock(an, s, front);
      assert s + rest == (s + front) + [c];
      TallySnoc(an, s + front, c);
    }
  }

  lemma {:induction false} KeptGrows(an: AlnumTest, s: string, a: nat, b: nat)
    requires a <= b <= |s|
    ensures Kept(an, s[..a]) <= Kept(an, s[..b])
    decreases b
  {
    hide TallyOf;
    hide RemoveAt;
    if a < b {
      KeptGrows(an, s, a, b - 1);
      assert s[..b] == s[..b - 1] + [s[b - 1]];
      KeptSnoc(an, s[..b - 1], s[b - 1]);
    }
  }

  /** A first fusion of `#` with a bar opens a comment in the repaired text: unless a `|#` stands behind it there, the
      repair does not scan clean and is not written. */
  lemma OpenFusionIsRefused(an: AlnumTest, s: string, i: nat, j: nat)
    requires Fixable(an, s) && Fused(an, s, i, j) && NoFusion(an, s[..j]) && s[j] == '|'
    ensures Kept(an, s[..j + 1]) <= FixText(s, FixOf(an, s))
    ensures NeverCloses(FixText(s, FixOf(an, s))[|Kept(an, s[..j + 1])|..]) ==>
              Problems(an, FixText(s, FixOf(an, s))) != []
  {
    hide TallyOf;
    hide FixText;
    hide Kept;
    hide NoFusion;
    var n, head, after := StrippedLen(s), Kept(an, s[..j + 1]), FixText(s, FixOf(an, s));
    RepairShape(an, s);
    KeptGrows(an, s, j + 1, n);
    FirstFusionBreaks(an, s, i, j);
    assert after == head + after[|head|..];
    hide Fused;
    if NeverCloses(after[|head|..]) {
      StaysInBlock(an, head, after[|head|..]);
      CleanMeansNoProblem(an, after);
    }
  }

  // ---------------------------------------------------------------- why the conditions are needed

  /** Each prefix's tally, one character at a time, for short literal texts. */
  lemma TallyOfThree(an: AlnumTest, a: char, b: char, c: char)
    ensures TallyOf(an, [a, b, c]) ==
            Next(an, Next(an, Next(an, Tally(Code, 0, []), a, 0), b, 1), c, 2)
  {
    assert TallyOf(an, []) == Tally(Code, 0, []);
    hide TallyOf;
    hide Next;
    hide Step;
    assert [a] + [b] == [a, b] && [a, b] + [c] == [a, b, c] && [] + [a] == [a];
    TallySnoc(an, [], a);
    TallySnoc(an, [a], b);
    TallySnoc(an, [a, b], c);
  }

  lemma FusedTally(an: AlnumTest)
    ensures TallyOf(an, "#)|").strays == [1] && TallyOf(an, "#)|").depth == 0 && !InBlock(TallyOf(an, "#)|").mode)
    ensures InBlock(TallyOf(an, "#|").mode)
  {
    assert TallyOf(an, []) == Tally(Code, 0, []);
    hide TallyOf;
    TallyOfThree(an, '#', ')', '|');
    assert "#)|" == ['#', ')', '|'];
    TallySnoc(an, [], '#');
    TallySnoc(an, "#", '|');
    assert "#" + ['|'] == "#|" && [] + ['#'] == "#";
  }

  lemma FusedText()
    ensures RemoveAt("#)|", [1]) == "#|"
  {
    var s := "#)|";
    assert s[..2] == "#)" && s[..1] == "#" && "#)"[..1] == "#" && "#"[..0] == [];
    assert RemoveAt("#", [1]) == "#";
    assert RemoveAt("#)", [1]) == "#";
  }

  /** `#)|`: deleting the stray opens a block comment, so the offered fix is not applied. */
  lemma FusionExample(an: AlnumTest)
    ensures Fixable(an, "#)|") && TallyOf(an, "#)|").depth == 0
    ensures Problems(an, FixText("#)|", FixOf(an, "#)|"))) != []
  {
    hide TallyOf;
    hide RemoveAt;
    hide Problems;
    FusedTally(an);
    FusedText();
    CleanMeansNoProblem(an, "#|");
  }

  /** `(;`: the closer lands in the line comment, so the offered fix is not applied. */
  lemma CommentEndExample(an: AlnumTest)
    ensures Fixable(an, "(; ") && NoFusion(an, "(; ") && TallyOf(an, "(; ").depth == 1
    ensures Problems(an, FixText("(; ", FixOf(an, "(; "))) != []
  {
    TallyOfThree(an, '(', ';', ' ');
    assert "(; " == ['(', ';', ' '];
    var s := "(; ";
    assert StrippedLen(s) == 3 && s[..3] == s;
    UnfusedScansCleanIff(an, s);
  }

  lemma CrlfText()
    ensures AsText("(\r\n") == "(\n"
    ensures FixText("(\n", Fix(1, [])) == "()\n"
  {
    assert "(\r\n"[1..] == "\r\n" && "\r\n"[2..] == [];
    assert AsText("\r\n") == "\n";
    var text := "(\n";
    assert StrippedLen(text) == 1;
    assert text[..1] + Closers(1) + text[1..] == "()\n";
  }

  lemma CrlfTallies(an: AlnumTest)
    ensures TallyOf(an, "(\n") == Tally(Code, 1, [])
    ensures TallyOf(an, "()\n") == Tally(Code, 0, [])
  {
    assert TallyOf(an, []) == Tally(Code, 0, []);
    hide TallyOf;
    TallySnoc(an, [], '(');
    TallySnoc(an, "(", '\n');
    assert [] + ['('] == "(" && "(" + ['\n'] == "(\n";
    TallyOfThree(an, '(', ')', '\n');
    assert "()\n" == ['(', ')', '\n'];
  }

  /** A fixed file with carriage returns loses them, wherever they stood. */
  lemma CrlfExample(an: AlnumTest)
    ensures WrittenBack(an, "(\r\n") == Some("()\n")
  {
    hide TallyOf;
    hide AsText;
    hide FixText;
    hide Problems;
    CrlfText();
    CrlfTallies(an);
    CleanMeansNoProblem(an, "()\n");
  }
}
