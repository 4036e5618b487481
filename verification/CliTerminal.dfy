/**
 The terminal as the command line interface sees it (src/cli/CLI.cpp): a bottom line with a cursor, and the lines above
 it. Escape sequences are commands: move the cursor by n columns, delete n characters at the cursor.
 */
module CliTerminal {

  datatype Screen = Screen(line: string, col: nat, above: seq<string>, lastColumnWritten: bool)

  function Blanks(n: nat): (r: string)
    ensures |r| == n && forall i :: 0 <= i < n ==> r[i] == ' '
  {
    seq(n, _ => ' ')
  }

  /** No line feed in it. */
  predicate Plain(s: string) { '\n' !in s }

  predicate Usable(sc: Screen) { 0 < |sc.line| && sc.col <= |sc.line| }

  function NewLine(sc: Screen): Screen
  {
    sc.(line := Blanks(|sc.line|), col := 0, above := sc.above + [sc.line])
  }

  /** A character; behind the last column the terminal wraps to a new line. */
  function Put(sc: Screen, c: char): (r: Screen)
    requires Usable(sc)
    ensures Usable(r) && |r.line| == |sc.line|
  {
    if c == '\n' then NewLine(sc)
    else
      var s := if sc.col == |sc.line| then NewLine(sc) else sc;
      s.(line := s.line[s.col := c], col := s.col + 1, lastColumnWritten := s.lastColumnWritten || s.col + 1 == |s.line|)
  }

  function Write(sc: Screen, text: string): (r: Screen)
    requires Usable(sc)
    ensures Usable(r) && |r.line| == |sc.line|
    decreases |text|
  {
    if text == "" then sc else Write(Put(sc, text[0]), text[1..])
  }

  /** Moves the cursor; it stops at the borders. */
  function MoveX(sc: Screen, delta: int): (r: Screen)
    requires Usable(sc)
    ensures Usable(r) && |r.line| == |sc.line|
  {
    if delta == 0 then sc
    else
      var c := (if sc.col == |sc.line| then sc.col - 1 else sc.col) + delta;
      sc.(col := if c < 0 then 0 else if c >= |sc.line| then |sc.line| - 1 else c)
  }

  /** Deletes characters at the cursor; what is right of them moves to the left. */
  function Delete(sc: Screen, n: nat): (r: Screen)
    requires Usable(sc)
    ensures Usable(r) && |r.line| == |sc.line|
  {
    var k := if sc.col + n <= |sc.line| then n else |sc.line| - sc.col;
    sc.(line := sc.line[..sc.col] + sc.line[sc.col + k..] + Blanks(k))
  }

  /** The bottom line shows the text, with the cursor in column col, and has room for one more character. */
  ghost predicate Shows(sc: Screen, text: string, col: nat)
  {
    |text| < |sc.line| && sc.line == text + Blanks(|sc.line| - |text|) && sc.col == col <= |text|
  }

  // ---------------------------------------------------------------- effects

  /** Writing inside the line overwrites what is there. */
  lemma {:induction false} WriteIs(sc: Screen, text: string)
    requires Usable(sc) && sc.col + |text| < |sc.line| && Plain(text)
    ensures Write(sc, text) == sc.(line := sc.line[..sc.col] + text + sc.line[sc.col + |text|..], col := sc.col + |text|)
    decreases |text|
  {
    if text == "" {
      assert sc.line[..sc.col] + sc.line[sc.col..] == sc.line;
    } else {
      var s := Put(sc, text[0]);
      WriteIs(s, text[1..]);
      assert text == [text[0]] + text[1..];
      assert s.line[..s.col] == sc.line[..sc.col] + [text[0]];
      assert s.line[s.col + |text[1..]|..] == sc.line[sc.col + |text|..];
      assert s.line[..s.col] + text[1..] == sc.line[..sc.col] + text;
    }
  }

  lemma {:induction false} WriteAppend(sc: Screen, a: string, b: string)
    requires Usable(sc)
    ensures Write(sc, a + b) == Write(Write(sc, a), b)
    decreases |a|
  {
    if a == "" {
      assert a + b == b;
    } else {
      assert (a + b)[1..] == a[1..] + b;
      WriteAppend(Put(sc, a[0]), a[1..], b);
    }
  }

  /** Writing behind the text. */
  lemma WriteBehind(sc: Screen, text: string, more: string)
    requires Shows(sc, text, |text|) && Plain(more) && |text| + |more| < |sc.line|
    ensures Usable(sc) && Shows(Write(sc, more), text + more, |text| + |more|)
    ensures Write(sc, more).lastColumnWritten == sc.lastColumnWritten && Write(sc, more).above == sc.above
  {
    WriteIs(sc, more);
    assert sc.line[..sc.col] == text;
    assert sc.line[sc.col + |more|..] == Blanks(|sc.line| - |text| - |more|);
  }

  lemma Around(line: string, a: string, b: string, n: nat)
    requires |a| + |b| <= |a| + n <= |line| && line == a + b + Blanks(|line| - |a| - |b|)
    ensures line[..|a|] == a && line[|a| + n..] == Blanks(|line| - |a| - n)
  {
  }

  /** Rewriting the rest of the line after an insertion. */
  lemma WriteInserted(sc: Screen, a: string, b: string, more: string)
    requires Shows(sc, a + b, |a|) && Plain(more + b) && |a| + |more| + |b| < |sc.line|
    ensures Usable(sc) && Shows(Write(sc, more + b), a + more + b, |a| + |more| + |b|)
    ensures Write(sc, more + b).lastColumnWritten == sc.lastColumnWritten && Write(sc, more + b).above == sc.above
  {
    hide Write, Plain;
    WriteIs(sc, more + b);
    Around(sc.line, a, b, |more + b|);
    assert a + (more + b) == a + more + b;
  }

  /** Rewriting the rest of the line without the character at the cursor, and deleting the last one. */
  lemma WriteErased(sc: Screen, a: string, c: char, b: string)
    requires Shows(sc, a + [c] + b, |a|) && Plain(b)
    ensures Usable(sc) && Shows(Delete(Write(sc, b), 1), a + b, |a| + |b|)
    ensures Write(sc, b).lastColumnWritten == sc.lastColumnWritten && Write(sc, b).above == sc.above
  {
    WriteIs(sc, b);
    var s := Write(sc, b);
    var rest := sc.line[|a| + |b|..];
    assert sc.line[..sc.col] == a;
    assert s.line == a + b + rest;
    assert rest[1..] == Blanks(|sc.line| - |a| - |b| - 1);
    assert Delete(s, 1).line == a + b + rest[1..] + Blanks(1);
    assert rest[1..] + Blanks(1) == Blanks(|sc.line| - |a| - |b|);
    assert a + b + rest[1..] + Blanks(1) == a + b + (rest[1..] + Blanks(1));
  }

  lemma MoveIs(sc: Screen, text: string, col: nat, delta: int)
    requires Shows(sc, text, col) && 0 <= col + delta <= |text|
    ensures Usable(sc) && MoveX(sc, delta) == sc.(col := (col + delta) as nat) && Shows(MoveX(sc, delta), text, col + delta)
  {
  }

  /** Deleting the end of the line. */
  lemma DeleteEnd(sc: Screen, text: string, tail: string)
    requires Shows(sc, text + tail, |text|)
    ensures Usable(sc) && Shows(Delete(sc, |tail|), text, |text|)
  {
    assert sc.line[..sc.col] == text;
    assert sc.line[sc.col + |tail|..] == Blanks(|sc.line| - |text| - |tail|);
    assert text + Blanks(|sc.line| - |text| - |tail|) + Blanks(|tail|) == text + Blanks(|sc.line| - |text|);
  }

  /** After a line feed, whatever has been written before. */
  lemma FreshLine(sc: Screen, text: string)
    requires Usable(sc)
    ensures Shows(Write(sc, text + "\n"), "", 0)
  {
    WriteAppend(sc, text, "\n");
    var s := Write(sc, text);
    assert Write(s, "\n") == Write(Put(s, '\n'), "") by { assert "\n"[1..] == ""; }
    assert "" + Blanks(|s.line|) == Blanks(|s.line|);
  }

  /** A line that is shorter than the screen is wide ends up above. */
  lemma PrintedAbove(sc: Screen, text: string)
    requires Shows(sc, "", 0) && Plain(text) && |text| < |sc.line|
    ensures Usable(sc)
    ensures Write(sc, text + "\n").above == sc.above + [text + Blanks(|sc.line| - |text|)]
    ensures Write(sc, text + "\n").lastColumnWritten == sc.lastColumnWritten
  {
    WriteAppend(sc, text, "\n");
    WriteIs(sc, text);
    var s := Write(sc, text);
    assert Write(s, "\n") == Write(Put(s, '\n'), "") by { assert "\n"[1..] == ""; }
    assert sc.line == Blanks(|sc.line|);
    assert s.line == text + Blanks(|sc.line| - |text|);
  }
}
