/** scripts/queue_pointer.py: the rotation of the queue's `## Next` pointer, over lines. */
module QueuePointer {
  import opened Options

  const DEFAULT_TTL_DAYS: nat := 7

  /** What the patterns see of a line: a heading, a bold bullet with its id and tokens, a line that opens a bold
      bullet the pointer's pattern does not match, a blank line, a line indented by two spaces, or any other. */
  datatype Shape =
    | Heading(next: bool)
    | Bullet(id: string, stamp: Option<int>, ttl: Option<nat>)
    | Broken
    | Blank
    | Indented
    | Other

  /** The text of a line: as found, or written by a rotation. */
  datatype Text = Source(text: string) | Fresh(from: string)
      | Cause(dropped: string, day: int, stamp: int, age: int, last: bool)

  /** A line; `queued` holds the id of a tab-separated queue row in state queued. */
  datatype Line = Line(shape: Shape, queued: Option<string>, text: Text)

  datatype Pointer = Pointer(id: string, stamp: Option<int>, ttl: nat)

  // ---------------------------------------------------------------- the block

  predicate IsNext(l: Line) { l.shape.Heading? && l.shape.next }

  function NextHeading(lines: seq<Line>, i: nat): (h: nat)
    requires i <= |lines|
    ensures i <= h <= |lines| && (h < |lines| ==> IsNext(lines[h])) && forall j :: i <= j < h ==> !IsNext(lines[j])
    decreases |lines| - i
  {
    if i == |lines| || IsNext(lines[i]) then i else NextHeading(lines, i + 1)
  }

  function SkipBlanks(lines: seq<Line>, i: nat): (j: nat)
    requires i <= |lines|
    ensures i <= j <= |lines| && (j < |lines| ==> !lines[j].shape.Blank?)
    ensures forall k :: i <= k < j ==> lines[k].shape.Blank?
    decreases |lines| - i
  {
    if i == |lines| || !lines[i].shape.Blank? then i else SkipBlanks(lines, i + 1)
  }

  function BlockEnd(lines: seq<Line>, i: nat): (j: nat)
    requires i <= |lines|
    ensures i <= j <= |lines| && (j < |lines| ==> lines[j].shape.Heading?)
    ensures forall k :: i <= k < j ==> !lines[k].shape.Heading?
    decreases |lines| - i
  {
    if i == |lines| || lines[i].shape.Heading? then i else BlockEnd(lines, i + 1)
  }

  /** The lines of the `## Next` block, without the blank lines under its heading. */
  datatype Block = Block(start: nat, end: nat)

  function BlockOf(lines: seq<Line>): (b: Option<Block>)
    ensures b.Some? ==> b.value.start <= b.value.end <= |lines|
  {
    var h := NextHeading(lines, 0);
    if h == |lines| then None
    else var lo := SkipBlanks(lines, h + 1); Some(Block(lo, BlockEnd(lines, lo)))
  }

  function Body(lines: seq<Line>): seq<Line> {
    if BlockOf(lines).Some? then lines[BlockOf(lines).value.start..BlockOf(lines).value.end] else []
  }

  /** The first bold bullet of a block. */
  function FirstBullet(body: seq<Line>): (i: nat)
    ensures i <= |body| && (i < |body| ==> body[i].shape.Bullet?) && forall j :: 0 <= j < i ==> !body[j].shape.Bullet?
  {
    if body == [] || body[0].shape.Bullet? then 0 else 1 + FirstBullet(body[1..])
  }

  /** pointer() */
  function PointerOf(lines: seq<Line>): Option<Pointer> {
    var body := Body(lines);
    var i := FirstBullet(body);
    if i == |body| then None
    else
      var s := body[i].shape;
      Some(Pointer(s.id, s.stamp, if s.ttl.Some? then s.ttl.value else DEFAULT_TTL_DAYS))
  }

  /** _next_queued_id(): the first queued row of the whole file, wherever it stands. */
  function NextQueued(lines: seq<Line>): Option<string> {
    if lines == [] then None
    else if lines[0].queued.Some? then lines[0].queued
    else NextQueued(lines[1..])
  }

  // ---------------------------------------------------------------- dropping the bullet

  predicate Opens(l: Line) { l.shape.Bullet? || l.shape.Broken? }

  function FirstOpening(body: seq<Line>): (i: nat)
    ensures i <= |body| && (i < |body| ==> Opens(body[i])) && forall j :: 0 <= j < i ==> !Opens(body[j])
  {
    if body == [] || Opens(body[0]) then 0 else 1 + FirstOpening(body[1..])
  }

  /** How many of the lines after a bullet go with it: its indented lines and a blank one right behind them. */
  function Tail(rest: seq<Line>): (n: nat)
    ensures n <= |rest|
  {
    if rest == [] then 0
    else if rest[0].shape.Indented? then 1 + Tail(rest[1..])
    else if rest[0].shape.Blank? then 1
    else 0
  }

  /** The block without the first line that opens a bold bullet, and what goes with it. */
  function Kept(body: seq<Line>): seq<Line> {
    var i := FirstOpening(body);
    if i == |body| then body else body[..i] + body[i + 1 + Tail(body[i + 1..])..]
  }

  /** What the rest of the loop will keep of the lines from `i` on, inside the dropped bullet or past it. */
  function RestKept(body: seq<Line>, i: nat, inBullet: bool): seq<Line>
    requires i <= |body|
  {
    if inBullet then body[i + Tail(body[i..])..] else body[i..]
  }

  /** The loop of demote_and_advance. */
  method DropBullet(body: seq<Line>) returns (kept: seq<Line>)
    ensures kept == Kept(body)
  {
    hide Kept;
    hide RestKept;
    kept := [];
    var dropped, inBullet := false, false;
    for i := 0 to |body|
      invariant !dropped ==> !inBullet && kept == body[..i] && forall j :: 0 <= j < i ==> !Opens(body[j])
      invariant dropped ==> Kept(body) == kept + RestKept(body, i, inBullet)
    {
      if !dropped && Opens(body[i]) {
        OpensHere(body, i);
        dropped, inBullet := true, true;
        continue;
      }
      if inBullet {
        if body[i].shape.Indented? || body[i].shape.Blank? {
          InsideBullet(body, i);
          if body[i].shape.Indented? {
            continue;
          }
          inBullet := false;
          continue;
        }
        BulletOver(body, i);
        inBullet := false;
      }
      if dropped {
        KeepsLine(kept, body, i);
      }
      kept := kept + [body[i]];
    }
    if dropped {
      NothingRests(kept, body, inBullet);
    } else {
      NoOpening(body);
      assert body[..|body|] == body;
    }
  }

  lemma InsideBullet(body: seq<Line>, i: nat)
    requires i < |body| && (body[i].shape.Indented? || body[i].shape.Blank?)
    ensures RestKept(body, i, true) == RestKept(body, i + 1, body[i].shape.Indented?)
  {
    assert body[i..][1..] == body[i + 1..];
  }

  lemma BulletOver(body: seq<Line>, i: nat)
    requires i < |body| && !body[i].shape.Indented? && !body[i].shape.Blank?
    ensures RestKept(body, i, true) == RestKept(body, i, false)
  {
  }

  lemma KeepsLine(kept: seq<Line>, body: seq<Line>, i: nat)
    requires i < |body|
    ensures kept + RestKept(body, i, false) == kept + [body[i]] + RestKept(body, i + 1, false)
  {
  }

  lemma NothingRests(kept: seq<Line>, body: seq<Line>, inBullet: bool)
    ensures kept + RestKept(body, |body|, inBullet) == kept
  {
  }

  lemma {:induction false} FirstOpeningIs(body: seq<Line>, i: nat)
    requires i < |body| && Opens(body[i]) && forall j :: 0 <= j < i ==> !Opens(body[j])
    ensures FirstOpening(body) == i
  {
  }

  lemma OpensHere(body: seq<Line>, i: nat)
    requires i < |body| && Opens(body[i]) && forall j :: 0 <= j < i ==> !Opens(body[j])
    ensures Kept(body) == body[..i] + RestKept(body, i + 1, true)
  {
    hide FirstOpening;
    hide Tail;
    FirstOpeningIs(body, i);
    hide Opens;
    assert body[i + 1..][Tail(body[i + 1..])..] == body[i + 1 + Tail(body[i + 1..])..];
  }

  lemma NoOpening(body: seq<Line>)
    requires forall j :: 0 <= j < |body| ==> !Opens(body[j])
    ensures Kept(body) == body
  {
  }

  // ---------------------------------------------------------------- the rotation

  datatype Rotation = Rotation(lines: seq<Line>, old_id: string, new_id: Option<string>, age: int)

  /** The lines a rotation puts at the head of the block. */
  function Head(p: Pointer, newId: Option<string>, today: int): seq<Line>
    requires p.stamp.Some?
  {
    var cause := Line(Other, None, Cause(p.id, today, p.stamp.value, today - p.stamp.value, newId == None));
    if newId.Some? then [Line(Bullet(newId.value, Some(today), Some(p.ttl)), None, Fresh(p.id)), cause] else [cause]
  }

  /** An id that can be advanced to: a queued row's, unless empty. */
  function Advance(lines: seq<Line>): Option<string> {
    if NextQueued(lines) == Some("") then None else NextQueued(lines)
  }

  /** The pointer a rotation demotes on day `today`, if any. */
  function Stalled(lines: seq<Line>, today: int): (r: Option<Pointer>)
    ensures r.Some? ==> r.value.stamp.Some? && r == PointerOf(lines)
  {
    match PointerOf(lines)
    case None => None
    case Some(p) => if p.id == "" || p.stamp == None || today - p.stamp.value <= p.ttl then None else Some(p)
  }

  /** demote_and_advance() */
  function Rotated(lines: seq<Line>, today: int): Option<Rotation> {
    match Stalled(lines, today)
    case None => None
    case Some(p) =>
      var newId := Advance(lines);
      Some(Rotation(Rewritten(lines, Head(p, newId, today) + Kept(Body(lines))), p.id, newId, today - p.stamp.value))
  }

  /** The file with the lines of its block replaced. */
  function Rewritten(lines: seq<Line>, body: seq<Line>): seq<Line> {
    if BlockOf(lines) == None then lines
    else lines[..BlockOf(lines).value.start] + body + lines[BlockOf(lines).value.end..]
  }

  /** The queue file, and ensure_current() on it. */
  class Queue {
    var lines: seq<Line>

    constructor (lines: seq<Line>)
      ensures this.lines == lines
    {
      this.lines := lines;
    }

    method EnsureCurrent(today: int) returns (r: Option<Rotation>)
      modifies this
      ensures r == Rotated(old(lines), today)
      ensures lines == if r.Some? then r.value.lines else old(lines)
    {
      var p := PointerOf(lines);
      if p == None || p.value.id == "" || p.value.stamp == None {
        return None;
      }
      var age := today - p.value.stamp.value;
      if age <= p.value.ttl {
        return None;
      }
      var kept := DropBullet(Body(lines));
      var newId := Advance(lines);
      var block := BlockOf(lines).value;
      lines := lines[..block.start] + (Head(p.value, newId, today) + kept) + lines[block.end..];
      return Some(Rotation(lines, p.value.id, newId, age));
    }
  }

  // ---------------------------------------------------------------- what a rotation keeps

  /** A block body that reads as one where it stands: not blank at its start, no heading in it. */
  predicate WellPlaced(body: seq<Line>) {
    && body != [] && !body[0].shape.Blank? && forall j :: 0 <= j < |body| ==> !body[j].shape.Heading?
  }

  lemma ReadsAt(lines: seq<Line>, h: nat, lo: nat, hi: nat)
    requires h < lo <= hi <= |lines| && IsNext(lines[h]) && forall j :: 0 <= j < h ==> !IsNext(lines[j])
    requires (forall j :: h < j < lo ==> lines[j].shape.Blank?) && (lo < |lines| ==> !lines[lo].shape.Blank?)
    requires (forall j :: lo <= j < hi ==> !lines[j].shape.Heading?) && (hi < |lines| ==> lines[hi].shape.Heading?)
    ensures BlockOf(lines) == Some(Block(lo, hi))
  {
    hide NextHeading;
    hide SkipBlanks;
    hide BlockEnd;
    assert NextHeading(lines, 0) == h;
    assert SkipBlanks(lines, h + 1) == lo;
    assert BlockEnd(lines, lo) == hi;
  }

  lemma Pieces(pre: seq<Line>, body: seq<Line>, post: seq<Line>)
    ensures var now := pre + body + post;
            && (forall j :: 0 <= j < |pre| ==> now[j] == pre[j])
            && (forall j :: |pre| <= j < |pre| + |body| ==> now[j] == body[j - |pre|])
            && (post != [] ==> now[|pre| + |body|] == post[0])
            && now[|pre|..|pre| + |body|] == body
  {
  }

  /** A new body is read back as it was written. */
  lemma ReadsBack(lines: seq<Line>, body: seq<Line>)
    requires BlockOf(lines).Some? && WellPlaced(body)
    ensures BlockOf(Rewritten(lines, body)) ==
            Some(Block(BlockOf(lines).value.start, BlockOf(lines).value.start + |body|))
    ensures Body(Rewritten(lines, body)) == body
  {
    hide NextHeading;
    hide SkipBlanks;
    hide BlockEnd;
    var b, now := BlockOf(lines).value, Rewritten(lines, body);
    Pieces(lines[..b.start], body, lines[b.end..]);
    ReadsAt(now, NextHeading(lines, 0), b.start, b.start + |body|);
    hide BlockOf;
  }

  lemma BodyHasNoHeading(lines: seq<Line>)
    ensures forall l <- Body(lines) :: !l.shape.Heading?
  {
  }

  lemma {:induction false} KeptIsPart(body: seq<Line>)
    ensures forall l <- Kept(body) :: l in body
  {
    var i := FirstOpening(body);
    if i < |body| {
      var n := Tail(body[i + 1..]);
      assert forall l <- body[..i] :: l in body;
      assert forall l <- body[i + 1 + n..] :: l in body;
    }
  }

  lemma RotatedBody(lines: seq<Line>, today: int)
    requires Rotated(lines, today).Some?
    ensures var p := Stalled(lines, today).value;
            Body(Rotated(lines, today).value.lines) == Head(p, Advance(lines), today) + Kept(Body(lines))
  {
    hide Kept;
    hide Body;
    var p := Stalled(lines, today).value;
    BodyHasNoHeading(lines);
    KeptIsPart(Body(lines));
    PointerHasBlock(lines);
    ReadsBack(lines, Head(p, Advance(lines), today) + Kept(Body(lines)));
  }

  lemma PointerHasBlock(lines: seq<Line>)
    requires PointerOf(lines).Some?
    ensures BlockOf(lines).Some?
  {
  }

  /** What goes with a bullet: indented lines, and at most one blank one at the end. */
  predicate Continuation(lines: seq<Line>) {
    forall j :: 0 <= j < |lines| ==> lines[j].shape.Indented? || (lines[j].shape.Blank? && j == |lines| - 1)
  }

  lemma {:induction false} TailContinues(rest: seq<Line>)
    ensures Continuation(rest[..Tail(rest)])
    ensures var n := Tail(rest); n < |rest| && (n == 0 || !rest[n - 1].shape.Blank?) ==>
            !rest[n].shape.Indented? && !rest[n].shape.Blank?
  {
    if rest != [] && rest[0].shape.Indented? {
      TailContinues(rest[1..]);
      assert rest[..Tail(rest)] == [rest[0]] + rest[1..][..Tail(rest[1..])];
    }
  }

  /** A rotation drops one line that opens a bold bullet with its continuation, puts its own lines at the head of
      the block, and leaves every other line of the file as and where it was. */
  lemma RotationIsLocal(lines: seq<Line>, today: int)
    requires Rotated(lines, today).Some?
    ensures var p, b := Stalled(lines, today).value, BlockOf(lines);
            && b.Some?
            && var body := Body(lines);
               var i := FirstOpening(body);
               && i < |body|
               && var n := Tail(body[i + 1..]);
                  && Continuation(body[i + 1..i + 1 + n])
                  && lines == lines[..b.value.start] + (body[..i] + body[i..i + 1 + n] + body[i + 1 + n..]) +
                     lines[b.value.end..]
                  && Rotated(lines, today).value.lines ==
                     lines[..b.value.start] + (Head(p, Advance(lines), today) + body[..i] + body[i + 1 + n..]) +
                         lines[b.value.end..]
  {
    hide BlockOf;
    hide Kept;
    hide FirstBullet;
    hide FirstOpening;
    hide Tail;
    PointerHasBlock(lines);
    var body, b := Body(lines), BlockOf(lines).value;
    var i := FirstOpening(body);
    assert Opens(body[FirstBullet(body)]);
    var n, h := Tail(body[i + 1..]), Head(Stalled(lines, today).value, Advance(lines), today);
    assert body == lines[b.start..b.end];
    assert Rotated(lines, today).value.lines == lines[..b.start] + (h + Kept(body)) + lines[b.end..];
    hide Rotated;
    hide Rewritten;
    hide Head;
    hide Body;
    hide Stalled;
    hide Advance;
    hide Continuation;
    hide Opens;
    assert Continuation(body[i + 1..i + 1 + n]) && Kept(body) == body[..i] + body[i + 1 + n..] by {
      KeptParts(body, i, n);
    }
    Assembled(lines, b.start, b.end, h, i, n, Kept(body));
  }

  lemma KeptParts(body: seq<Line>, i: nat, n: nat)
    requires i == FirstOpening(body) < |body| && n == Tail(body[i + 1..])
    ensures Continuation(body[i + 1..i + 1 + n])
    ensures body == body[..i] + body[i..i + 1 + n] + body[i + 1 + n..]
    ensures body == body[..i] + [body[i]] + body[i + 1..i + 1 + n] + body[i + 1 + n..]
    ensures Kept(body) == body[..i] + body[i + 1 + n..]
  {
    hide FirstOpening;
    hide Tail;
    TailContinues(body[i + 1..]);
    hide Continuation;
    SplitAt(body, i, n);
  }

  lemma SplitAt(body: seq<Line>, i: nat, n: nat)
    requires i < |body| && i + 1 + n <= |body|
    ensures body[i + 1..][..n] == body[i + 1..i + 1 + n]
    ensures body == body[..i] + body[i..i + 1 + n] + body[i + 1 + n..]
    ensures body == body[..i] + [body[i]] + body[i + 1..i + 1 + n] + body[i + 1 + n..]
  {
  }

  lemma Assembled(lines: seq<Line>, lo: nat, hi: nat, h: seq<Line>, i: nat, n: nat, kept: seq<Line>)
    requires lo <= hi <= |lines| && i + 1 + n <= hi - lo
    requires var body := lines[lo..hi]; kept == body[..i] + body[i + 1 + n..]
    ensures var body := lines[lo..hi];
            lines == lines[..lo] + (body[..i] + body[i..i + 1 + n] + body[i + 1 + n..]) + lines[hi..]
    ensures var body := lines[lo..hi];
            lines[..lo] + (h + kept) + lines[hi..] == lines[..lo] + (h + body[..i] + body[i + 1 + n..]) + lines[hi..]
  {
    var body := lines[lo..hi];
    assert body == body[..i] + body[i..i + 1 + n] + body[i + 1 + n..];
    assert h + (body[..i] + body[i + 1 + n..]) == h + body[..i] + body[i + 1 + n..];
  }

  /** A rotation demotes a stamped pointer past its term, and reports its id, its age and the id it advances to. */
  lemma RotationReports(lines: seq<Line>, today: int)
    requires Rotated(lines, today).Some?
    ensures PointerOf(lines).Some? && PointerOf(lines).value.stamp.Some?
    ensures var r, p := Rotated(lines, today).value, PointerOf(lines).value;
            r.old_id == p.id != "" && r.age == today - p.stamp.value && r.age > p.ttl && r.new_id != Some("")
    ensures Stalled(lines, today) == PointerOf(lines) && Rotated(lines, today).value.new_id == Advance(lines)
  {
    hide PointerOf;
    hide Rewritten;
    hide Kept;
    hide Body;
  }

  /** What a rotation writes at the head of the block: the new pointer, if there is an id to advance to, stamped with
      the day and the old term; then the line that names the demoted id, the day, its stamp and its age. */
  lemma RotationIsRecorded(lines: seq<Line>, today: int, p: Pointer)
    requires Rotated(lines, today).Some? && PointerOf(lines) == Some(p)
    ensures p.stamp.Some?
    ensures var r := Rotated(lines, today).value;
            var cause := Line(Other, None, Cause(p.id, today, p.stamp.value, r.age, r.new_id == None));
            match r.new_id
            case None => [cause] <= Body(r.lines)
            case Some(id) => [Line(Bullet(id, Some(today), Some(p.ttl)), None, Fresh(p.id)), cause] <= Body(r.lines)
  {
    hide Rotated;
    hide Stalled;
    hide PointerOf;
    hide Advance;
    hide Body;
    hide Kept;
    RotationReports(lines, today);
    RotatedBody(lines, today);
    HeadStarts(p, Advance(lines), today, Kept(Body(lines)));
    hide Head;
  }

  lemma HeadStarts(p: Pointer, newId: Option<string>, today: int, kept: seq<Line>)
    requires p.stamp.Some?
    ensures var cause := Line(Other, None, Cause(p.id, today, p.stamp.value, today - p.stamp.value, newId == None));
            match newId
            case None => [cause] <= Head(p, newId, today) + kept
            case Some(id) =>
              [Line(Bullet(id, Some(today), Some(p.ttl)), None, Fresh(p.id)), cause] <= Head(p, newId, today) + kept
  {
  }

  /** The line dropped is the pointer itself exactly when no broken bullet stands before it. */
  lemma DropsThePointerIff(lines: seq<Line>)
    requires PointerOf(lines).Some?
    ensures var body := Body(lines);
            FirstOpening(body) == FirstBullet(body) <==>
                forall j :: 0 <= j < FirstBullet(body) ==> !body[j].shape.Broken?
  {
    hide FirstOpening;
    hide FirstBullet;
    var body := Body(lines);
    assert Opens(body[FirstBullet(body)]);
  }

  /** A broken bullet in front of the pointer is dropped in its place, and the demoted pointer stays in the block. */
  lemma BrokenBulletIsDroppedInstead()
    ensures var heading, broken, bullet := Line(Heading(true), None, Source("## Next")),
                                           Line(Broken, None, Source("- **x")),
                                           Line(Bullet("a", Some(0), None), None, Source("- **a** set=0"));
            var lines := [heading, broken, bullet];
            && PointerOf(lines) == Some(Pointer("a", Some(0), DEFAULT_TTL_DAYS))
            && Rotated(lines, 8).Some?
            && Body(Rotated(lines, 8).value.lines) == Head(Pointer("a", Some(0), DEFAULT_TTL_DAYS), None, 8) + [bullet]
  {
    var heading, broken, bullet := Line(Heading(true), None, Source("## Next")), Line(Broken, None, Source("- **x")),
                                   Line(Bullet("a", Some(0), None), None, Source("- **a** set=0"));
    var lines := [heading, broken, bullet];
    ReadsAt(lines, 0, 1, 3);
    assert Body(lines) == [broken, bullet];
    assert [broken, bullet][1..] == [bullet];
    assert FirstBullet([broken, bullet]) == 1;
    assert Tail([bullet]) == 0;
    assert Kept([broken, bullet]) == [bullet];
    NextQueuedIs(lines);
    RotatedBody(lines, 8);
  }

  // ---------------------------------------------------------------- repeated rotations

  /** With a queued row a rotation leaves its id as the pointer, stamped today with the same term: on any later
      day the pointer stands until that term has passed, and is demoted again after. */
  lemma AdvancedPointerStands(lines: seq<Line>, today: int, day: int)
    requires Rotated(lines, today).Some? && Advance(lines).Some?
    ensures var r, p := Rotated(lines, today).value, Stalled(lines, today).value;
            && r.new_id == Advance(lines)
            && PointerOf(r.lines) == Some(Pointer(r.new_id.value, Some(today), p.ttl))
            && (Rotated(r.lines, day) == None <==> day - today <= p.ttl)
  {
    hide NextHeading;
    hide BlockEnd;
    hide SkipBlanks;
    hide Body;
    hide Kept;
    hide Rewritten;
    RotatedBody(lines, today);
  }

  lemma {:induction false} NextQueuedIs(lines: seq<Line>)
    ensures NextQueued(lines) == None <==> forall l <- lines :: l.queued == None
  {
    if lines != [] {
      NextQueuedIs(lines[1..]);
      assert lines == [lines[0]] + lines[1..];
    }
  }

  /** The lines that open a bold bullet. */
  function Openings(body: seq<Line>): nat {
    if body == [] then 0 else Openings(body[..|body| - 1]) + if Opens(body[|body| - 1]) then 1 else 0
  }

  lemma {:induction false} OpeningsOfSum(a: seq<Line>, b: seq<Line>)
    ensures Openings(a + b) == Openings(a) + Openings(b)
  {
    if b == [] {
      assert a + b == a;
    } else {
      OpeningsOfSum(a, b[..|b| - 1]);
      assert (a + b)[..|a + b| - 1] == a + b[..|b| - 1];
    }
  }

  lemma {:induction false} NoOpenings(a: seq<Line>)
    requires forall j :: 0 <= j < |a| ==> !Opens(a[j])
    ensures Openings(a) == 0
  {
    if a != [] {
      NoOpenings(a[..|a| - 1]);
    }
  }

  lemma OneOpening(a: seq<Line>, x: Line, d: seq<Line>, c: seq<Line>)
    requires Opens(x) && Continuation(d)
    ensures Openings(a + [x] + d + c) == Openings(a + c) + 1
  {
    OpeningsOfSum(a, [x]);
    OpeningsOfSum(a + [x], d);
    OpeningsOfSum(a + [x] + d, c);
    OpeningsOfSum(a, c);
    NoOpenings(d);
    assert [x][..0] == [];
  }

  lemma KeptLosesOne(body: seq<Line>)
    requires FirstOpening(body) < |body|
    ensures Openings(Kept(body)) + 1 == Openings(body)
  {
    hide Openings;
    hide Tail;
    hide FirstOpening;
    hide Kept;
    var i := FirstOpening(body);
    var n := Tail(body[i + 1..]);
    KeptParts(body, i, n);
    OneOpening(body[..i], body[i], body[i + 1..i + 1 + n], body[i + 1 + n..]);
  }

  /** With nothing to advance to, a rotation takes one bullet out of the block and adds none. */
  lemma EmptyQueueShrinks(lines: seq<Line>, today: int)
    requires Rotated(lines, today).Some? && Advance(lines) == None
    ensures Openings(Body(Rotated(lines, today).value.lines)) + 1 == Openings(Body(lines))
  {
    var body, p := Body(lines), Stalled(lines, today).value;
    hide NextHeading;
    hide BlockEnd;
    hide SkipBlanks;
    assert FirstOpening(body) < |body| by {
      assert Opens(body[FirstBullet(body)]);
    }
    KeptLosesOne(body);
    RotatedBody(lines, today);
    OpeningsOfSum(Head(p, None, today), Kept(body));
    NoOpenings(Head(p, None, today));
  }

  /** A queued row with a blank id on a line that no rotation drops: the row search stops there for good. */
  predicate Stopper(l: Line) { l.queued == Some("") && (l.shape.Heading? || l.shape.Other?) }

  predicate Stopped(lines: seq<Line>) { exists i :: 0 <= i < |lines| && Stopper(lines[i]) }

  /** Every queued row with an id stands behind a stopper; a file without queued rows is one such file. */
  predicate NothingToAdvance(lines: seq<Line>) {
    lines != [] ==>
      var front, last := lines[..|lines| - 1], lines[|lines| - 1];
      NothingToAdvance(front) && (last.queued.Some? && last.queued != Some("") ==> Stopped(front))
  }

  lemma StoppedSum(a: seq<Line>, b: seq<Line>)
    ensures Stopped(a + b) <==> Stopped(a) || Stopped(b)
  {
    if i :| 0 <= i < |a| && Stopper(a[i]) {
      assert (a + b)[i] == a[i];
    }
    if i :| 0 <= i < |b| && Stopper(b[i]) {
      assert (a + b)[|a| + i] == b[i];
    }
    if i :| 0 <= i < |a + b| && Stopper((a + b)[i]) {
      assert if i < |a| then Stopper(a[i]) else Stopper(b[i - |a|]);
    }
  }

  lemma {:induction false} NothingInSum(a: seq<Line>, b: seq<Line>)
    ensures NothingToAdvance(a + b) <==> NothingToAdvance(a) && (Stopped(a) || NothingToAdvance(b))
  {
    hide Stopped;
    if b == [] {
      assert a + b == a;
    } else {
      var front := b[..|b| - 1];
      NothingInSum(a, front);
      assert (a + b)[..|a + b| - 1] == a + front;
      StoppedSum(a, front);
    }
  }

  lemma NothingPlain(lines: seq<Line>)
    requires forall i :: 0 <= i < |lines| ==> lines[i].queued == None
    ensures NothingToAdvance(lines) && !Stopped(lines)
    decreases |lines|
  {
    if lines != [] {
      NothingPlain(lines[..|lines| - 1]);
    }
  }

  /** A file without a queued row has nothing to advance to, and neither has one that keeps the predicate. */
  lemma {:induction false} NothingMeansNone(lines: seq<Line>)
    ensures NextQueued(lines) == None ==> NothingToAdvance(lines)
    ensures NothingToAdvance(lines) ==> Advance(lines) == None
  {
    if NextQueued(lines) == None {
      NextQueuedIs(lines);
      forall i | 0 <= i < |lines| ensures lines[i].queued == None {
        assert lines[i] in lines;
      }
      NothingPlain(lines);
    }
    if lines != [] && NothingToAdvance(lines) {
      NothingInSum([lines[0]], lines[1..]);
      assert lines == [lines[0]] + lines[1..];
      assert [lines[0]][..0] == [];
      NothingMeansNone(lines[1..]);
    }
  }

  /** Leaving out lines without a stopper and adding lines without queued rows keeps the predicate. */
  lemma NothingStays(p: seq<Line>, h: seq<Line>, a: seq<Line>, d: seq<Line>, c: seq<Line>, q: seq<Line>)
    requires NothingToAdvance(p + (a + d + c) + q) && !Stopped(d)
    requires NothingToAdvance(h) && !Stopped(h)
    ensures NothingToAdvance(p + (h + a + c) + q)
  {
    hide Stopped;
    hide NothingToAdvance;
    assert p + (a + d + c) + q == p + (a + (d + (c + q)));
    assert p + (h + a + c) + q == p + (h + (a + (c + q)));
    NothingInSum(p, a + (d + (c + q)));
    NothingInSum(a, d + (c + q));
    NothingInSum(d, c + q);
    NothingInSum(p, h + (a + (c + q)));
    NothingInSum(h, a + (c + q));
    NothingInSum(a, c + q);
  }

  lemma DroppedHasNoStopper(body: seq<Line>, i: nat, n: nat)
    requires i + 1 + n <= |body| && Opens(body[i]) && Continuation(body[i + 1..i + 1 + n])
    ensures !Stopped(body[i..i + 1 + n])
  {
    var d := body[i..i + 1 + n];
    assert forall k :: 0 < k < |d| ==> d[k] == body[i + 1..i + 1 + n][k - 1];
    assert Opens(d[0]);
  }

  /** What a rotation that advances to nothing drops, and what it leaves. */
  lemma RotationPieces(lines: seq<Line>, today: int)
      returns (p: seq<Line>, a: seq<Line>, d: seq<Line>, c: seq<Line>, q: seq<Line>)
    requires Rotated(lines, today).Some? && Advance(lines) == None
    ensures lines == p + (a + d + c) + q && !Stopped(d) && Stalled(lines, today).Some?
    ensures Rotated(lines, today).value.lines == p + (Head(Stalled(lines, today).value, None, today) + a + c) + q
  {
    assert Stalled(lines, today).Some?;
    hide Rotated;
    hide BlockOf;
    hide Body;
    hide Tail;
    hide FirstOpening;
    hide Stalled;
    hide Advance;
    hide Head;
    RotationIsLocal(lines, today);
    var b, body := BlockOf(lines).value, Body(lines);
    var i := FirstOpening(body);
    var n := Tail(body[i + 1..]);
    DroppedHasNoStopper(body, i, n);
    hide Continuation;
    hide Stopped;
    p, a, d, c, q := lines[..b.start], body[..i], body[i..i + 1 + n], body[i + 1 + n..], lines[b.end..];
  }

  /** With nothing to advance to but through rows that no rotation uncovers, there is nothing to advance to after. */
  lemma NothingStaysNothing(lines: seq<Line>, today: int)
    requires Rotated(lines, today).Some? && NothingToAdvance(lines)
    ensures NothingToAdvance(Rotated(lines, today).value.lines)
  {
    hide NothingToAdvance;
    hide Rotated;
    hide Stalled;
    hide Stopped;
    hide Advance;
    NothingMeansNone(lines);
    var p, a, d, c, q := RotationPieces(lines, today);
    var h := Head(Stalled(lines, today).value, None, today);
    NothingPlain(h);
    hide Head;
    NothingStays(p, h, a, d, c, q);
  }

  /** How many of the calls on the days `days`, one after the other, rotate the file. */
  function Effective(lines: seq<Line>, days: seq<int>): nat
    decreases |days|
  {
    if days == [] then 0
    else if Rotated(lines, days[0]).Some? then 1 + Effective(Rotated(lines, days[0]).value.lines, days[1..])
    else Effective(lines, days[1..])
  }

  /** With nothing to advance to, no queued row above all, rotation comes to an end: it happens at most once for each
      bullet of the block. */
  lemma {:induction false} EmptyQueueSettles(lines: seq<Line>, days: seq<int>)
    requires NothingToAdvance(lines)
    ensures Effective(lines, days) <= Openings(Body(lines))
    decreases |days|
  {
    if days != [] {
      NothingMeansNone(lines);
      if Rotated(lines, days[0]).Some? {
        EmptyQueueShrinks(lines, days[0]);
        NothingStaysNothing(lines, days[0]);
        EmptyQueueSettles(Rotated(lines, days[0]).value.lines, days[1..]);
      } else {
        EmptyQueueSettles(lines, days[1..]);
      }
    }
  }

  lemma {:induction false} FirstQueuedIs(lines: seq<Line>, i: nat)
    requires i < |lines| && lines[i].queued.Some? && forall j :: 0 <= j < i ==> lines[j].queued == None
    ensures NextQueued(lines) == lines[i].queued
  {
    if i > 0 {
      FirstQueuedIs(lines[1..], i - 1);
    }
  }

  lemma TwoLinesDropped(bullet: Line, blank: Line, row: Line)
    requires Opens(bullet) && blank.shape.Indented? && row.shape.Other?
    ensures Kept([bullet, blank, row]) == [row]
  {
    assert [bullet, blank, row][1..] == [blank, row] && [blank, row][1..] == [row];
    assert Tail([row]) == 0 && Tail([blank, row]) == 1;
    assert [bullet, blank, row][..0] == [] && [bullet, blank, row][2..] == [row];
  }

  lemma LoneRotation(heading: Line, bullet: Line, blank: Line, row: Line, today: int)
    requires IsNext(heading) && blank.shape.Indented? && row.shape.Other? && bullet.shape.Bullet?
    requires bullet.shape.id != "" && bullet.shape.ttl == None
    requires bullet.shape.stamp.Some? && today - bullet.shape.stamp.value > DEFAULT_TTL_DAYS
    requires Advance([heading, bullet, blank, row]) == None
    ensures var p := Pointer(bullet.shape.id, bullet.shape.stamp, DEFAULT_TTL_DAYS);
            Rotated([heading, bullet, blank, row], today).Some?
            && Rotated([heading, bullet, blank, row], today).value.lines == [heading, Head(p, None, today)[0], row]
  {
    var lines := [heading, bullet, blank, row];
    ReadsAt(lines, 0, 1, 4);
    TwoLinesDropped(bullet, blank, row);
    hide BlockOf;
    hide Kept;
    hide Advance;
    assert Body(lines) == [bullet, blank, row];
    assert FirstBullet([bullet, blank, row]) == 0;
    hide Body;
    hide FirstBullet;
    assert lines[..1] == [heading] && lines[4..] == [];
    var p := Pointer(bullet.shape.id, bullet.shape.stamp, DEFAULT_TTL_DAYS);
    assert Stalled(lines, today) == Some(p);
    var cause := Head(p, None, today)[0];
    assert [heading] + ([cause] + [row]) + [] == [heading, cause, row];
  }

  /** A queued row with a blank id among the lines of the pointer is dropped with it, and uncovers the next row. */
  lemma DroppedRowUncoversTheNext()
    ensures var lines := [Line(Heading(true), None, Source("## Next")),
                          Line(Bullet("a", Some(0), None), None, Source("- **a** set=0")),
                          Line(Indented, Some(""), Source("  \tqueued\t-\t-")),
                          Line(Other, Some("b"), Source("b\tqueued\t-\t-"))];
            && Rotated(lines, 8).Some? && Advance(lines) == None
            && Advance(Rotated(lines, 8).value.lines) == Some("b")
  {
    var heading, bullet := Line(Heading(true), None, Source("## Next")),
                           Line(Bullet("a", Some(0), None), None, Source("- **a** set=0"));
    var blank, row :=
        Line(Indented, Some(""), Source("  \tqueued\t-\t-")), Line(Other, Some("b"), Source("b\tqueued\t-\t-"));
    hide Rotated;
    FirstQueuedIs([heading, bullet, blank, row], 2);
    LoneRotation(heading, bullet, blank, row, 8);
    var cause := Head(Pointer("a", Some(0), DEFAULT_TTL_DAYS), None, 8)[0];
    FirstQueuedIs([heading, cause, row], 2);
  }
}
