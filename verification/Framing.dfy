/** What scripts/verify-candidate.py feeds its digest, and the text it accepts: files are framed by NULs, and
    accepted text holds none. */
module Framing {
  import opened Options

  const NUL: char := '\0'

  datatype Item = Item(path: string, bytes: string)

  predicate NulFree(s: string) { NUL !in s }

  predicate AllNulFree(items: seq<Item>) {
    forall i :: 0 <= i < |items| ==> NulFree(items[i].path) && NulFree(items[i].bytes)
  }

  /** The bytes the digest sees: path, NUL, content, NUL, file after file. */
  function Frame(items: seq<Item>): string {
    if items == [] then []
    else
      var last := items[|items| - 1];
      Frame(items[..|items| - 1]) + last.path + [NUL] + last.bytes + [NUL]
  }

  /** candidate_hash up to the digest itself: the updates in order; None when a file cannot be read. */
  method FrameFiles(entries: seq<string>, files: map<string, string>) returns (r: Option<string>)
    ensures r.Some? <==> forall i :: 0 <= i < |entries| ==> entries[i] in files
    ensures r.Some? ==> r.value == Frame(Items(entries, files))
  {
    var fed := "";
    for i := 0 to |entries|
      invariant forall j :: 0 <= j < i ==> entries[j] in files
      invariant fed == Frame(Items(entries[..i], files))
    {
      if entries[i] !in files {
        return None;
      }
      assert entries[..i + 1][..i] == entries[..i];
      ghost var before := fed;
      fed := fed + entries[i];
      fed := fed + [NUL];
      fed := fed + files[entries[i]];
      fed := fed + [NUL];
      ItemsSnoc(entries[..i], entries[i], files);
      assert entries[..i] + [entries[i]] == entries[..i + 1];
    }
    assert entries[..|entries|] == entries;
    return Some(fed);
  }

  function Items(entries: seq<string>, files: map<string, string>): (r: seq<Item>)
    requires forall i :: 0 <= i < |entries| ==> entries[i] in files
    ensures |r| == |entries| && forall i :: 0 <= i < |entries| ==> r[i] == Item(entries[i], files[entries[i]])
  {
    seq(|entries|, i requires 0 <= i < |entries| => Item(entries[i], files[entries[i]]))
  }

  lemma ItemsSnoc(front: seq<string>, last: string, files: map<string, string>)
    requires last in files && forall i :: 0 <= i < |front| ==> front[i] in files
    ensures Frame(Items(front + [last], files)) == Frame(Items(front, files)) + last + [NUL] + files[last] + [NUL]
  {
    var items := Items(front + [last], files);
    assert items[..|front|] == Items(front, files);
  }

  // ---------------------------------------------------------------- unique decoding

  /** A text that ends in a NUL, or is empty. */
  predicate Closed(s: string) { s == [] || s[|s| - 1] == NUL }

  lemma FieldHoldsNul(a: string, p: string, b: string, q: string)
    requires a + p == b + q && Closed(b)
    ensures |a| < |b| ==> NUL in p
  {
    if |a| < |b| {
      assert (a + p)[|b| - 1] == p[|b| - 1 - |a|];
      assert (b + q)[|b| - 1] == NUL;
    }
  }

  /** After the last NUL comes the last field. */
  lemma LastFieldIsUnique(a: string, p: string, b: string, q: string)
    requires a + p == b + q && Closed(a) && Closed(b) && NulFree(p) && NulFree(q)
    ensures a == b && p == q
  {
    FieldHoldsNul(a, p, b, q);
    FieldHoldsNul(b, q, a, p);
    assert a == (a + p)[..|a|] && b == (b + q)[..|b|];
    assert p == (a + p)[|a|..] && q == (b + q)[|b|..];
  }

  lemma DropLast(a: string, b: string, c: char)
    requires a + [c] == b + [c]
    ensures a == b
  {
    assert a == (a + [c])[..|a|] && b == (b + [c])[..|b|];
  }

  /** The last frame can be read off the end. */
  lemma LastFrameIsUnique(a: string, x: Item, b: string, y: Item)
    requires a + x.path + [NUL] + x.bytes + [NUL] == b + y.path + [NUL] + y.bytes + [NUL]
    requires Closed(a) && Closed(b) && NulFree(x.path) && NulFree(x.bytes) && NulFree(y.path) && NulFree(y.bytes)
    ensures a == b && x == y
  {
    DropLast(a + x.path + [NUL] + x.bytes, b + y.path + [NUL] + y.bytes, NUL);
    LastFieldIsUnique(a + x.path + [NUL], x.bytes, b + y.path + [NUL], y.bytes);
    DropLast(a + x.path, b + y.path, NUL);
    LastFieldIsUnique(a, x.path, b, y.path);
  }

  lemma FrameIsClosed(items: seq<Item>)
    ensures Closed(Frame(items)) && (Frame(items) == [] ==> items == [])
  {
  }

  /** NUL-free candidates are told apart by what the digest sees. */
  lemma {:induction false} FrameIsInjective(xs: seq<Item>, ys: seq<Item>)
    requires AllNulFree(xs) && AllNulFree(ys) && Frame(xs) == Frame(ys)
    ensures xs == ys
    decreases |xs|
  {
    FrameIsClosed(xs);
    FrameIsClosed(ys);
    if xs != [] && ys != [] {
      var m, n := |xs| - 1, |ys| - 1;
      FrameIsClosed(xs[..m]);
      FrameIsClosed(ys[..n]);
      LastFrameIsUnique(Frame(xs[..m]), xs[m], Frame(ys[..n]), ys[n]);
      FrameIsInjective(xs[..m], ys[..n]);
      assert xs == xs[..m] + [xs[m]] && ys == ys[..n] + [ys[n]];
    }
  }

  /** With NULs allowed in contents the framing is ambiguous: one file can look like two. */
  lemma NulsMakeFramesAmbiguous()
    ensures exists xs, ys :: xs != ys && Frame(xs) == Frame(ys)
  {
    var one, two := [Item("a", "b\0c\0d")], [Item("a", "b"), Item("c", "d")];
    assert one[..0] == [] && two[..1] == [Item("a", "b")] && two[..1][..0] == [];
    assert Frame(two[..1]) == "a\0b\0";
    assert Frame(one) == "a\0b\0c\0d\0" && Frame(two) == "a\0b\0c\0d\0";
  }

  // ---------------------------------------------------------------- accepted text

  /** The characters str.splitlines() breaks at; newline translation leaves no carriage returns. */
  predicate Boundary(c: char) {
    c as int in {10, 11, 12, 28, 29, 30, 133, 8232, 8233}
  }

  /** A control character the scan refuses inside a line. */
  predicate Control(c: char) { (c as int < 32 && c != '\t') || c as int == 127 }

  predicate Blank(c: char) { c == ' ' || c == '\t' }

  datatype Fault = ControlCharacter(line: nat) | TrailingWhitespace(line: nat)

  /** The end of the line that starts at `from`. */
  function LineEnd(text: string, from: nat): (end: nat)
    requires from <= |text|
    ensures from <= end <= |text| && (end < |text| ==> Boundary(text[end]))
    ensures forall i :: from <= i < end ==> !Boundary(text[i])
    decreases |text| - from
  {
    if from == |text| || Boundary(text[from]) then from else LineEnd(text, from + 1)
  }

  /** Where the line at `from` goes wrong: a control character counts before trailing white space. */
  function LineFault(text: string, from: nat, end: nat, number: nat): Option<Fault>
    requires from <= end <= |text|
  {
    if exists i :: from <= i < end && Control(text[i]) then Some(ControlCharacter(number))
    else if from < end && Blank(text[end - 1]) then Some(TrailingWhitespace(number))
    else None
  }

  /** The first fault from the line at `from` on. */
  function FaultFrom(text: string, from: nat, number: nat): Option<Fault>
    requires from <= |text|
    decreases |text| - from
  {
    if from == |text| then None
    else
      var end := LineEnd(text, from);
      if LineFault(text, from, end, number).Some? then LineFault(text, from, end, number)
      else if end == |text| then None
      else FaultFrom(text, end + 1, number + 1)
  }

  /** whitespace_error: line after line, character after character. */
  method WhitespaceError(text: string) returns (r: Option<Fault>)
    ensures r == FaultFrom(text, 0, 1)
  {
    var from, number := 0, 1;
    while from < |text|
      invariant from <= |text| && FaultFrom(text, 0, 1) == FaultFrom(text, from, number)
    {
      var end := LineEnd(text, from);
      for i := from to end
        invariant forall j :: from <= j < i ==> !Control(text[j])
      {
        if Control(text[i]) {
          return Some(ControlCharacter(number));
        }
      }
      if from < end && Blank(text[end - 1]) {
        return Some(TrailingWhitespace(number));
      }
      if end == |text| {
        return None;
      }
      from, number := end + 1, number + 1;
    }
    return None;
  }

  /** Nothing wrong at position `i` itself. */
  predicate FineAt(text: string, i: nat)
    requires i < |text|
  {
    && (Control(text[i]) ==> Boundary(text[i]))
    && (Blank(text[i]) ==> i + 1 < |text| && !Boundary(text[i + 1]))
  }

  lemma {:induction false} FineFromIff(text: string, from: nat, number: nat)
    requires from <= |text|
    ensures FaultFrom(text, from, number) == None <==> forall i :: from <= i < |text| ==> FineAt(text, i)
    decreases |text| - from
  {
    if from < |text| {
      var end := LineEnd(text, from);
      LineFineIff(text, from, end, number);
      if end < |text| {
        FineFromIff(text, end + 1, number + 1);
        assert FineAt(text, end);
      }
    }
  }

  lemma LineFineIff(text: string, from: nat, end: nat, number: nat)
    requires from <= end <= |text| && end == LineEnd(text, from)
    ensures LineFault(text, from, end, number) == None <==> forall i :: from <= i < end ==> FineAt(text, i)
  {
    if LineFault(text, from, end, number) == None {
      forall i | from <= i < end ensures FineAt(text, i) {
        assert !Control(text[i]);
      }
    } else if i :| from <= i < end && Control(text[i]) {
      assert !FineAt(text, i);
    } else {
      assert !FineAt(text, end - 1);
    }
  }

  /** Nothing is wrong at a position that holds no control character but a tab or a line boundary, and no blank right
      before a line boundary or at the end. */
  lemma FineAtIff(text: string, i: nat)
    requires i < |text|
    ensures FineAt(text, i) <==>
            && ((text[i] as int < 32 && text[i] != '\t') || text[i] as int == 127 ==>
                  text[i] as int in {10, 11, 12, 28, 29, 30})
            && (text[i] == ' ' || text[i] == '\t' ==>
                  i + 1 < |text| && text[i + 1] as int !in {10, 11, 12, 28, 29, 30, 133, 8232, 8233})
  {
  }

  /** A text passes exactly when nothing is wrong at any position. */
  lemma AcceptedIff(text: string)
    ensures FaultFrom(text, 0, 1) == None <==> forall i :: 0 <= i < |text| ==> FineAt(text, i)
  {
    FineFromIff(text, 0, 1);
  }

  lemma AcceptedTextHasNoNul(text: string)
    requires FaultFrom(text, 0, 1) == None
    ensures NulFree(text)
  {
    AcceptedIff(text);
    forall i | 0 <= i < |text| ensures text[i] != NUL {
      assert FineAt(text, i);
    }
  }
}
