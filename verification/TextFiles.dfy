/** Reading a file as text turns every line end into a newline; writing it back does not turn them back. */
module TextFiles {
  /** Python's newline translation on reading. */
  function AsText(raw: string): string {
    if raw == [] then []
    else if raw[0] != '\r' then [raw[0]] + AsText(raw[1..])
    else ['\n'] + AsText(if |raw| > 1 && raw[1] == '\n' then raw[2..] else raw[1..])
  }

  lemma {:induction false} TextHasNoReturn(raw: string)
    ensures '\r' !in AsText(raw)
    decreases |raw|
  {
    if raw != [] {
      TextHasNoReturn(if raw[0] == '\r' && |raw| > 1 && raw[1] == '\n' then raw[2..] else raw[1..]);
    }
  }

  lemma {:induction false} PlainText(raw: string)
    requires '\r' !in raw
    ensures AsText(raw) == raw
  {
    if raw != [] {
      assert raw[0] in raw && forall c <- raw[1..] :: c in raw;
      PlainText(raw[1..]);
    }
  }

  /** A file is read as it stands if and only if it holds no carriage return. */
  lemma ReadAsItStandsIff(raw: string)
    ensures AsText(raw) == raw <==> '\r' !in raw
  {
    TextHasNoReturn(raw);
    if '\r' !in raw {
      PlainText(raw);
    }
  }
}
