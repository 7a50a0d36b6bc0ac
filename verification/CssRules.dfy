/** The CSS block parser of automation/jobs/feedback-apply.py, and what splicing a block does to it. */
module CssRules {
  import opened Options

  /** What the text before a block makes of it: the selector of a rule, or nothing for a skipped block. */
  type Select = string -> Option<string>

  /** A top-level rule: its selector, and the bounds of the block between its braces. */
  datatype Rule = Rule(selector: string, start: nat, end: nat)

  /** Where the parser stands: the brace depth, the selector text, and where the current block opened. */
  datatype Scan = Scan(depth: nat, sel: string, openPos: nat)

  function Front(s: string): (r: string)
    requires s != []
    ensures |r| < |s|
  {
    s[..|s| - 1]
  }

  function Last(s: string): char
    requires s != []
  {
    s[|s| - 1]
  }

  /** Top-level at-rules are skipped. */
  predicate Kept(selector: string) { !("@" <= selector) && '{' !in selector }

  /** The selector is the stripped text, unless skipped; which characters str.strip() takes for white space
      plays no part here, so it is a parameter. */
  function StripAndKeep(strip: string -> string): Select {
    (text: string) => if Kept(strip(text)) then Some(strip(text)) else None
  }

  /** What the character `c` at position `i` does; outside blocks all text is selector text. */
  function Step(p: Scan, c: char, i: nat): Scan {
    if c == '{' then
      if p.depth == 0 then Scan(1, p.sel, i) else p.(depth := p.depth + 1)
    else if c == '}' && p.depth > 0 then
      if p.depth == 1 then Scan(0, [], p.openPos) else p.(depth := p.depth - 1)
    else if p.depth == 0 then p.(sel := p.sel + [c])
    else p
  }

  function ScanOf(s: string): Scan {
    if s == [] then Scan(0, [], 0) else Step(ScanOf(Front(s)), Last(s), |s| - 1)
  }

  /** The rule, if any, that the character at `i` closes. */
  function Closing(select: Select, p: Scan, c: char, i: nat): seq<Rule> {
    if c == '}' && p.depth == 1 && select(p.sel).Some? then [Rule(select(p.sel).value, p.openPos + 1, i)] else []
  }

  /** The rules closed by the end of `s`. */
  function Out(select: Select, s: string): seq<Rule> {
    if s == [] then [] else Out(select, Front(s)) + Closing(select, ScanOf(Front(s)), Last(s), |s| - 1)
  }

  function RulesOf(select: Select, css: string): seq<Rule> {
    if ScanOf(css).depth == 0 then Out(select, css) else []
  }

  /** Reading one more character. */
  lemma Reads(select: Select, s: string, c: char)
    ensures Front(s + [c]) == s
    ensures ScanOf(s + [c]) == Step(ScanOf(s), c, |s|)
    ensures Out(select, s + [c]) == Out(select, s) + Closing(select, ScanOf(s), c, |s|)
  {
    assert Front(s + [c]) == s;
  }

  lemma OneMore<T>(a: seq<T>, b: seq<T>, x: seq<T>, c: seq<T>, y: seq<T>)
    requires a == b + x && b == c && x == y
    ensures a == c + y
  {
  }

  lemma NoMore<T>(a: seq<T>, x: seq<T>)
    requires x == []
    ensures a == a + x
  {
  }

  lemma SameSum<T>(a: seq<T>, b: seq<T>, x: seq<T>, c: seq<T>, out: seq<T>)
    requires a == b + x && c == b && out == c + x
    ensures out == a
  {
  }

  /** The loop's positions stand for the parser's state after `i` characters. */
  ghost predicate Tracks(css: string, i: nat, depth: nat, openPos: nat, selStart: nat, prevEnd: nat) {
    && prevEnd <= i <= |css| && (depth > 0 ==> selStart <= openPos < i)
    && ScanOf(css[..i]) == Scan(depth, if depth == 0 then css[prevEnd..i] else css[selStart..openPos], openPos)
  }

  lemma TracksStep(css: string, i: nat, depth: nat, openPos: nat, selStart: nat, prevEnd: nat)
    requires i < |css| && Tracks(css, i, depth, openPos, selStart, prevEnd)
    ensures css[i] == '{' && depth == 0 ==> Tracks(css, i + 1, 1, i, prevEnd, prevEnd)
    ensures css[i] == '{' && depth > 0 ==> Tracks(css, i + 1, depth + 1, openPos, selStart, prevEnd)
    ensures css[i] == '}' && depth == 1 ==> Tracks(css, i + 1, 0, openPos, selStart, i + 1)
    ensures css[i] == '}' && depth > 1 ==> Tracks(css, i + 1, depth - 1, openPos, selStart, prevEnd)
    ensures css[i] != '{' && (css[i] == '}' ==> depth == 0) ==> Tracks(css, i + 1, depth, openPos, selStart, prevEnd)
  {
    hide ScanOf;
    assert css[..i + 1] == css[..i] + [css[i]];
    Reads(text => None, css[..i], css[i]);
    assert css[prevEnd..i + 1] == css[prevEnd..i] + [css[i]];
  }

  lemma AtStart(select: Select, css: string)
    ensures Tracks(css, 0, 0, 0, 0, 0) && Out(select, css[..0]) == []
  {
  }

  /** rules(css): the loop keeps positions and slices the selector out when a block closes. */
  method Rules(strip: string -> string, css: string) returns (out: seq<Rule>)
    ensures out == RulesOf(StripAndKeep(strip), css)
  {
    hide ScanOf;
    hide Out;
    ghost var select := StripAndKeep(strip);
    AtStart(select, css);
    var depth: nat, openPos: nat, selStart: nat, prevEnd: nat := 0, 0, 0, 0;
    out := [];
    for i := 0 to |css|
      invariant Tracks(css, i, depth, openPos, selStart, prevEnd)
      invariant out == Out(select, css[..i])
    {
      ghost var p, before := ScanOf(css[..i]), out;
      ghost var x := Closing(select, p, css[i], i);
      assert css[..i + 1] == css[..i] + [css[i]];
      Reads(select, css[..i], css[i]);
      TracksStep(css, i, depth, openPos, selStart, prevEnd);
      if css[i] == '{' {
        if depth == 0 {
          openPos, selStart := i, prevEnd;
        }
        depth := depth + 1;
      } else if css[i] == '}' && depth > 0 {
        depth := depth - 1;
        if depth == 0 {
          var sel := strip(css[selStart..openPos]);
          if Kept(sel) {
            assert x == [Rule(sel, openPos + 1, i)];
            out := out + [Rule(sel, openPos + 1, i)];
          }
          prevEnd := i + 1;
        }
      }
      if x == [] {
        NoMore(out, x);
      }
      SameSum(Out(select, css[..i + 1]), Out(select, css[..i]), x, before, out);
    }
    assert css[..|css|] == css;
    if depth != 0 {
      out := [];
    }
  }

  // ---------------------------------------------------------------- blocks

  /** The brace depth after reading `s` inside a block; None when the block is closed on the way. */
  function DepthInside(s: string): (r: Option<nat>)
    ensures r.Some? ==> r.value > 0
  {
    if s == [] then Some(1)
    else
      match DepthInside(Front(s))
      case None => None
      case Some(d) =>
        if Last(s) == '{' then Some(d + 1)
        else if Last(s) == '}' then (if d == 1 then None else Some(d - 1))
        else Some(d)
  }

  /** Text that can stand as a block: it closes every brace it opens and no other. */
  predicate BlockText(s: string) { DepthInside(s) == Some(1) }

  lemma {:induction false} BraceFreeIsBlockText(s: string)
    requires '{' !in s && '}' !in s
    ensures BlockText(s)
  {
    if s != [] {
      BraceFreeIsBlockText(Front(s));
    }
  }

  lemma FrontOfSum(a: string, b: string)
    requires b != []
    ensures b == Front(b) + [Last(b)] && a + b == a + Front(b) + [Last(b)]
  {
  }

  /** Reading block text from inside a block moves only the depth. */
  lemma {:induction false} ThroughBlock(select: Select, a: string, b: string)
    requires ScanOf(a).depth == 1 && DepthInside(b).Some?
    ensures ScanOf(a + b) == ScanOf(a).(depth := DepthInside(b).value)
    ensures Out(select, a + b) == Out(select, a)
    decreases |b|
  {
    if b == [] {
      assert a + b == a;
    } else {
      FrontOfSum(a, b);
      ThroughBlock(select, a, Front(b));
      Reads(select, a + Front(b), Last(b));
    }
  }

  /** `s` stands inside a block that opened after `a`, with `b` of its text read. */
  ghost predicate OpenedAt(select: Select, s: string, a: string, b: string) {
    && s == a + b && a != [] && DepthInside(b).Some?
    && ScanOf(a).depth == 1 && ScanOf(a).openPos == |a| - 1
  }

  /** Inside a block, the text splits where it opened. */
  lemma {:induction false} SinceOpen(select: Select, s: string)
    requires ScanOf(s).depth > 0
    ensures exists a, b :: OpenedAt(select, s, a, b)
    decreases |s|
  {
    FrontOfSum([], s);
    Reads(select, Front(s), Last(s));
    if ScanOf(Front(s)).depth == 0 {
      assert OpenedAt(select, s, s, []);
    } else {
      SinceOpen(select, Front(s));
      var a, b :| OpenedAt(select, Front(s), a, b);
      OpenedGrows(select, Front(s), a, b, Last(s));
    }
  }

  lemma OpenedGrows(select: Select, s: string, a: string, b: string, c: char)
    requires ScanOf(s + [c]).depth > 0 && ScanOf(s).depth > 0 && OpenedAt(select, s, a, b)
    ensures OpenedAt(select, s + [c], a, b + [c])
  {
    hide ScanOf;
    hide Out;
    ThroughBlock(select, a, b);
    Reads(select, s, c);
    assert Front(b + [c]) == b;
    assert s + [c] == a + (b + [c]);
  }

  /** Rule `k` of `out` splits the text into what precedes its block, the block, and what follows its closing brace. */
  ghost predicate Located(select: Select, css: string, out: seq<Rule>, k: nat, pre: string, block: string,
                          post: string) {
    && css == pre + block + ['}'] + post
    && k < |out| && select(ScanOf(pre).sel) == Some(out[k].selector)
    && out[k].start == |pre| && out[k].end == |pre| + |block|
    && ScanOf(pre).depth == 1 && ScanOf(pre).openPos == |pre| - 1 && BlockText(block)
    && Out(select, pre) == out[..k]
  }

  lemma {:induction false} RuleLocated(select: Select, css: string, k: nat)
    requires k < |Out(select, css)|
    ensures exists pre, block, post :: Located(select, css, Out(select, css), k, pre, block, post)
    decreases |css|
  {
    var f, c := Front(css), Last(css);
    FrontOfSum([], css);
    Reads(select, f, c);
    if k < |Out(select, f)| {
      RuleLocated(select, f, k);
      var pre, block, post :| Located(select, f, Out(select, f), k, pre, block, post);
      LocatedGrows(select, f, Out(select, f), Out(select, css), k, pre, block, post, c);
    } else {
      SinceOpen(select, f);
      var a, b :| OpenedAt(select, f, a, b);
      ThroughBlock(select, a, b);
      assert css == a + b + ['}'] + [];
      assert Located(select, css, Out(select, css), k, a, b, []);
    }
  }

  lemma LocatedGrows(select: Select, f: string, out: seq<Rule>, more: seq<Rule>, k: nat, pre: string, block: string,
                     post: string, c: char)
    requires Located(select, f, out, k, pre, block, post) && out <= more
    ensures Located(select, f + [c], more, k, pre, block, post + [c])
  {
    assert f + [c] == pre + block + ['}'] + (post + [c]);
  }

  /** A rule is listed exactly where the brace that closes it stands. */
  lemma {:induction false} OutAt(select: Select, css: string, r: Rule)
    ensures r in Out(select, css) <==>
            r.end < |css| && r in Closing(select, ScanOf(css[..r.end]), css[r.end], r.end)
    decreases |css|
  {
    if css != [] {
      var f, c := Front(css), Last(css);
      FrontOfSum([], css);
      Reads(select, f, c);
      OutAt(select, f, r);
      if r.end < |f| {
        assert css[..r.end] == f[..r.end] && css[r.end] == f[r.end];
      } else if r.end == |f| {
        assert css[..r.end] == f;
      }
    }
  }

  /** Between blocks all text is selector text. */
  lemma {:induction false} ThroughGap(select: Select, a: string, gap: string)
    requires ScanOf(a).depth == 0 && '{' !in gap
    ensures ScanOf(a + gap) == ScanOf(a).(sel := ScanOf(a).sel + gap)
    decreases |gap|
  {
    if gap == [] {
      assert a + gap == a;
      NoMore(ScanOf(a).sel, gap);
    } else {
      FrontOfSum(a, gap);
      assert Last(gap) in gap && forall x <- Front(gap) :: x in gap;
      ThroughGap(select, a, Front(gap));
      Reads(select, a + Front(gap), Last(gap));
      FrontOfSum(ScanOf(a).sel, gap);
    }
  }

  /** Where a block behind `before` and `gap` starts, and where it ends. */
  lemma BlockBounds(select: Select, before: string, gap: string, block: string)
    requires ScanOf(before).depth == 0 && ScanOf(before).sel == [] && '{' !in gap && BlockText(block)
    ensures ScanOf(before + gap + ['{'] + block) == Scan(1, gap, |before| + |gap|)
  {
    hide ScanOf;
    ThroughGap(select, before, gap);
    NoMore(gap, []);
    assert [] + gap == gap;
    Reads(select, before + gap, '{');
    ThroughBlock(select, before + gap + ['{'], block);
  }

  /** Every block between balanced text is listed, with the stripped text before it as its selector, unless that starts
      with an at sign; what stands in it is no rule of its own. */
  lemma BlockIsRuleIff(strip: string -> string, before: string, gap: string, block: string, post: string)
    requires ScanOf(before).depth == 0 && ScanOf(before).sel == [] && '{' !in gap && BlockText(block)
    requires ScanOf(before + gap + ['{'] + block + ['}'] + post).depth == 0
    ensures var css, start := before + gap + ['{'] + block + ['}'] + post, |before| + |gap| + 1;
            (exists r :: r in RulesOf(StripAndKeep(strip), css) && r.start == start && r.end == start + |block|) <==>
            !("@" <= strip(gap)) && '{' !in strip(gap)
    ensures var css, start := before + gap + ['{'] + block + ['}'] + post, |before| + |gap| + 1;
            forall r :: r in RulesOf(StripAndKeep(strip), css) && r.start == start && r.end == start + |block| ==>
              r.selector == strip(gap)
  {
    hide ScanOf;
    hide Out;
    var select, inside := StripAndKeep(strip), before + gap + ['{'] + block;
    var css, start, end := inside + ['}'] + post, |before| + |gap| + 1, |inside|;
    BlockBounds(select, before, gap, block);
    assert css[..end] == inside && css[end] == '}';
    var closed := Closing(select, Scan(1, gap, |before| + |gap|), '}', end);
    forall r: Rule | r.start == start && r.end == end ensures r in Out(select, css) <==> r in closed {
      OutAt(select, css, r);
    }
    if !("@" <= strip(gap)) && '{' !in strip(gap) {
      var r := Rule(strip(gap), start, end);
      assert r in closed && r.start == start && r.end == end;
    }
  }

  /** A trace of the parser, and what it has listed, one character at a time. */
  lemma {:induction false} Traced(select: Select, css: string, ps: seq<Scan>, outs: seq<seq<Rule>>)
    requires |ps| == |outs| == |css| + 1 && ps[0] == Scan(0, [], 0) && outs[0] == []
    requires forall k :: 0 <= k < |css| ==>
               ps[k + 1] == Step(ps[k], css[k], k) && outs[k + 1] == outs[k] + Closing(select, ps[k], css[k], k)
    ensures ScanOf(css) == ps[|css|] && Out(select, css) == outs[|css|]
  {
    if css != [] {
      var n := |css| - 1;
      FrontOfSum([], css);
      Traced(select, css[..n], ps[..n + 1], outs[..n + 1]);
      Reads(select, css[..n], css[n]);
    }
  }

  /** A block with one inside: one rule, to its own brace. */
  lemma NestedBlockExample(strip: string -> string)
    requires strip("a") == "a"
    ensures RulesOf(StripAndKeep(strip), "a{{}}") == [Rule("a", 2, 4)]
  {
    var select := StripAndKeep(strip);
    assert "a"[0] != '@' && '{' !in "a";
    assert select("a") == Some("a") && [] + ['a'] == "a";
    hide StripAndKeep;
    Traced(select, "a{{}}", [Scan(0, "", 0), Scan(0, "a", 0), Scan(1, "a", 1), Scan(2, "a", 1), Scan(1, "a", 1),
                             Scan(0, "", 1)], [[], [], [], [], [], [Rule("a", 2, 4)]]);
  }

  // ---------------------------------------------------------------- splicing

  function Splice(css: string, r: Rule, text: string): string
    requires r.start <= r.end <= |css|
  {
    css[..r.start] + text + css[r.end..]
  }

  /** `m` is `q` moved by `d` places. */
  predicate Shifted(q: Rule, m: Rule, d: int) {
    m.selector == q.selector && m.start == q.start + d && m.end == q.end + d
  }

  /** From index `k` on, the rules of the two lists correspond, moved by `d` places. */
  ghost predicate InStep(qs: seq<Rule>, ms: seq<Rule>, k: nat, d: int) {
    |qs| == |ms| && forall j :: k <= j < |qs| ==> Shifted(qs[j], ms[j], d)
  }

  /** Two parsers outside any earlier block: the same but for positions, which differ by `d`. */
  predicate Same(p: Scan, q: Scan, d: int) {
    p.depth == q.depth && p.sel == q.sel && (p.depth > 0 ==> q.openPos == p.openPos + d)
  }

  lemma SameStep(select: Select, p: Scan, q: Scan, c: char, i: nat, j: nat)
    requires Same(p, q, j - i)
    ensures Same(Step(p, c, i), Step(q, c, j), j - i)
    ensures InStep(Closing(select, p, c, i), Closing(select, q, c, j), 0, j - i)
  {
  }

  lemma InStepAppend(qs: seq<Rule>, ms: seq<Rule>, xs: seq<Rule>, ys: seq<Rule>, k: nat, d: int)
    requires InStep(qs, ms, k, d) && InStep(xs, ys, 0, d)
    ensures InStep(qs + xs, ms + ys, k, d)
  {
  }

  /** Two texts that agree from a point outside blocks on: the parses agree from there, moved. */
  lemma {:induction false} SameTail(select: Select, a: string, c: string, b: string)
    requires Same(ScanOf(a), ScanOf(c), |c| - |a|) && |Out(select, a)| == |Out(select, c)|
    ensures Same(ScanOf(a + b), ScanOf(c + b), |c| - |a|)
    ensures Out(select, a) <= Out(select, a + b) && Out(select, c) <= Out(select, c + b)
    ensures InStep(Out(select, a + b), Out(select, c + b), |Out(select, a)|, |c| - |a|)
    decreases |b|
  {
    if b == [] {
      assert a + b == a && c + b == c;
    } else {
      var a', c', x := a + Front(b), c + Front(b), Last(b);
      FrontOfSum(a, b);
      FrontOfSum(c, b);
      SameTail(select, a, c, Front(b));
      Reads(select, a', x);
      Reads(select, c', x);
      SameStep(select, ScanOf(a'), ScanOf(c'), x, |a'|, |c'|);
      InStepAppend(Out(select, a'), Out(select, c'), Closing(select, ScanOf(a'), x, |a'|),
                   Closing(select, ScanOf(c'), x, |c'|),
                   |Out(select, a)|, |c| - |a|);
    }
  }

  /** `ms` lists the rules `qs` after the block of rule `k` was given `size` characters: the rules before it
      stay, it keeps its start, and those after it move by the difference. */
  ghost predicate AllMoved(qs: seq<Rule>, ms: seq<Rule>, k: nat, size: nat)
    requires k < |qs|
  {
    && InStep(qs, ms, k + 1, size - qs[k].end + qs[k].start)
    && ms[k] == Rule(qs[k].selector, qs[k].start, qs[k].start + size)
    && forall j :: 0 <= j < k ==> ms[j] == qs[j]
  }

  /** Closing the block records its rule. */
  lemma AfterBlock(select: Select, pre: string, block: string, c: char)
    requires ScanOf(pre).depth == 1 && BlockText(block) && select(ScanOf(pre).sel).Some? && c == '}'
    ensures ScanOf(pre + block + [c]).depth == 0 && ScanOf(pre + block + [c]).sel == []
    ensures Out(select, pre + block + [c]) ==
            Out(select, pre) + [Rule(select(ScanOf(pre).sel).value, ScanOf(pre).openPos + 1, |pre| + |block|)]
  {
    hide ScanOf;
    hide Out;
    ThroughBlock(select, pre, block);
    Reads(select, pre + block, c);
    OneMore(Out(select, pre + block + [c]), Out(select, pre + block),
            Closing(select, ScanOf(pre + block), c, |pre + block|),
            Out(select, pre), [Rule(select(ScanOf(pre).sel).value, ScanOf(pre).openPos + 1, |pre| + |block|)]);
  }

  lemma SpliceMoves(select: Select, css: string, k: nat, text: string, pre: string, block: string, post: string)
    requires Located(select, css, Out(select, css), k, pre, block, post) && BlockText(text)
    ensures var after := pre + text + ['}'] + post;
            && ScanOf(after).depth == ScanOf(css).depth
            && AllMoved(Out(select, css), Out(select, after), k, |text|)
  {
    hide ScanOf;
    hide Out;
    hide DepthInside;
    AfterBlock(select, pre, block, '}');
    AfterBlock(select, pre, text, '}');
    var a, c := pre + block + ['}'], pre + text + ['}'];
    SameTail(select, a, c, post);
  }

  lemma SpliceOfLocated(select: Select, css: string, out: seq<Rule>, k: nat, text: string, pre: string, block: string,
                        post: string)
    requires Located(select, css, out, k, pre, block, post)
    ensures Splice(css, out[k], text) == pre + text + ['}'] + post
  {
    assert css[|pre| + |block|..] == ['}'] + post;
    assert css[..|pre|] == pre;
  }

  /** Replacing a parsed block by block text and parsing again gives the same rules, with the same selectors,
      at moved offsets. */
  lemma SpliceKeepsRules(select: Select, css: string, k: nat, text: string)
    requires k < |RulesOf(select, css)| && BlockText(text)
    ensures var r := RulesOf(select, css)[k];
            && r.start <= r.end < |css|
            && AllMoved(RulesOf(select, css), RulesOf(select, Splice(css, r, text)), k, |text|)
  {
    RuleLocated(select, css, k);
    var pre, block, post :| Located(select, css, Out(select, css), k, pre, block, post);
    SpliceMoves(select, css, k, text, pre, block, post);
    SpliceOfLocated(select, css, Out(select, css), k, text, pre, block, post);
  }

  /** Two parsed rules do not overlap, and come in the order they are listed. */
  lemma RulesApart(select: Select, css: string, j: nat, k: nat)
    requires j < k < |Out(select, css)|
    ensures var out := Out(select, css); out[j].start <= out[j].end < out[k].start <= out[k].end < |css|
  {
    RuleLocated(select, css, k);
    var pre, block, post :| Located(select, css, Out(select, css), k, pre, block, post);
    assert Out(select, css)[j] == Out(select, pre)[j];
    RuleLocated(select, pre, j);
  }

  function Block(css: string, r: Rule): string
    requires r.start <= r.end <= |css|
  {
    css[r.start..r.end]
  }

  lemma SliceOfPrefix(s: string, t: string, n: nat, lo: nat, hi: nat)
    requires lo <= hi <= n <= |s| && n <= |t| && s[..n] == t[..n]
    ensures s[lo..hi] == t[lo..hi]
  {
    assert s[lo..hi] == s[..n][lo..hi] && t[lo..hi] == t[..n][lo..hi];
  }

  lemma SliceOfSuffix(s: string, t: string, n: nat, m: nat, lo: nat, hi: nat)
    requires n <= lo <= hi <= |s| && m <= |t| && s[n..] == t[m..]
    ensures hi - n + m <= |t| && s[lo..hi] == t[lo - n + m..hi - n + m]
  {
    assert |s[n..]| == |t[m..]|;
    forall i | 0 <= i < hi - lo ensures s[lo..hi][i] == t[lo - n + m..hi - n + m][i] {
      assert s[lo + i] == s[n..][lo - n + i] && t[lo - n + m + i] == t[m..][lo - n + i];
    }
  }

  /** The edited rule holds the new text and every other rule its old block. */
  lemma SpliceKeepsBlocks(select: Select, css: string, k: nat, text: string, j: nat)
    requires k < |RulesOf(select, css)| && j < |RulesOf(select, css)| && BlockText(text)
    ensures var r, q := RulesOf(select, css)[k], RulesOf(select, css)[j];
            && r.start <= r.end < |css| && q.start <= q.end < |css|
            && var after := Splice(css, r, text);
               var m := RulesOf(select, after);
               && |m| == |RulesOf(select, css)| && m[j].selector == q.selector && m[j].start <= m[j].end < |after|
               && Block(after, m[j]) == if j == k then text else Block(css, q)
  {
    hide ScanOf;
    hide Out;
    hide DepthInside;
    SpliceKeepsRules(select, css, k, text);
    var r, q := RulesOf(select, css)[k], RulesOf(select, css)[j];
    var after := Splice(css, r, text);
    if j < k {
      RulesApart(select, css, j, k);
      SliceOfPrefix(css, after, r.start, q.start, q.end);
    } else if j > k {
      RulesApart(select, css, k, j);
      assert after[r.start + |text|..] == css[r.end..];
      SliceOfSuffix(css, after, r.end, r.start + |text|, q.start, q.end);
    } else {
      assert Block(after, RulesOf(select, after)[j]) == text;
    }
  }
}
