/**
 The line editor of the command line interface (EnterLine and its helpers in src/cli/CLI.cpp). The terminal's screen is
 changed by write, cursor-move and delete commands only. Keys are abstract; locking, timeouts and errors of the terminal
 are not modelled. A column where the source computes with small integer types is always in their range.
 */
module CliEditor {
  import opened CliTerminal
  import opened CliLists
  import Levenshtein

  datatype Key =
    | Backspace | Tab | ArrowLeft | ArrowRight | ArrowUp | ArrowDown | Pos1 | End | Del
    | Etx | Return | NeedMoreData | OtherCommand
    | NoCommand(chars: string)

  datatype Outcome = Going(reinserted: string) | Entered | CtrlC

  // ---------------------------------------------------------------- what a key does to the input

  datatype State = State(
    buf: string,            // inputBuffer
    cur: nat,               // cursorX
    backup: string,         // inputBufferBackup
    iteratingHistory: bool,
    historyIdx: nat,
    suggestionsValid: bool,
    suggestions: seq<Suggestion>,
    suggestionIdx: nat)     // |suggestions|: behind the last one

  datatype Setup = Setup(useHistory: bool, history: seq<string>, names: seq<string>, max: nat)

  predicate Consistent(st: State, su: Setup)
  {
    && st.cur <= |st.buf| <= su.max && Plain(st.buf) && Plain(st.backup)
    && (st.iteratingHistory ==> st.historyIdx < |su.history|)
    && (st.suggestionsValid ==> st.suggestionIdx <= |st.suggestions|)
    && AllPlain(st.suggestions)
  }

  predicate AllPlain(l: seq<Suggestion>) { forall i :: 0 <= i < |l| ==> Plain(l[i].name) }

  predicate SetupOk(su: Setup)
  {
    && (forall i :: 0 <= i < |su.history| ==> Plain(su.history[i]))
    && (forall i :: 0 <= i < |su.names| ==> Plain(su.names[i]) && |su.names[i]| < Levenshtein.SIZE_MAX)
    && su.max < 240
  }

  function Cut(s: string, max: nat): string { if |s| <= max then s else s[..max] }

  /** The input is replaced and the cursor set behind it. */
  function Replaced(st: State, s: string, max: nat): State { st.(buf := Cut(s, max), cur := |Cut(s, max)|) }

  /** A key that is no part of an iteration ends it and gives up the backup. */
  function Prepared(st: State, key: Key): State
  {
    var s1 := if st.iteratingHistory && key !in {Return, NeedMoreData, ArrowUp, ArrowDown}
              then st.(iteratingHistory := false, backup := "") else st;
    if s1.suggestionsValid && key !in {Return, NeedMoreData, Tab} then s1.(suggestionsValid := false, backup := "") else s1
  }

  function EraseAt(s: string, i: nat): string
    requires i < |s|
  {
    s[..i] + s[i + 1..]
  }

  /** The characters that are inserted at once: the last of several is read again. */
  function Inserted(chars: string): string { if |chars| > 1 then chars[..|chars| - 1] else chars }

  function AfterBackspace(st: State): State
    requires st.cur <= |st.buf|
  {
    if st.cur > 0 then st.(buf := EraseAt(st.buf, st.cur - 1), cur := st.cur - 1) else st
  }

  function AfterDel(st: State): State
  {
    if st.cur < |st.buf| then st.(buf := EraseAt(st.buf, st.cur)) else st
  }

  function AfterMove(st: State, key: Key): State
  {
    if key == ArrowLeft then (if st.cur > 0 then st.(cur := st.cur - 1) else st)
    else if key == ArrowRight then (if st.cur < |st.buf| then st.(cur := st.cur + 1) else st)
    else if key == Pos1 then st.(cur := 0)
    else st.(cur := |st.buf|)
  }

  function AfterChars(st: State, chars: string, max: nat): State
    requires st.cur <= |st.buf| <= max
  {
    var s := Inserted(Cut(chars, max - |st.buf|));
    st.(buf := st.buf[..st.cur] + s + st.buf[st.cur..], cur := st.cur + |s|)
  }

  /** To the next older command; behind the oldest one comes the latest. */
  function AfterUp(st: State, su: Setup): State
    requires st.iteratingHistory ==> st.historyIdx < |su.history|
  {
    if !su.useHistory || su.history == [] then st
    else if !st.iteratingHistory then
      Replaced(st.(backup := st.buf, historyIdx := |su.history| - 1, iteratingHistory := true), su.history[|su.history| - 1], su.max)
    else
      var i := if st.historyIdx == 0 then |su.history| - 1 else st.historyIdx - 1;
      Replaced(st.(historyIdx := i), su.history[i], su.max)
  }

  /** To the next younger command; behind the latest one comes what the user has entered. */
  function AfterDown(st: State, su: Setup): State
  {
    if !st.iteratingHistory then st
    else if st.historyIdx + 1 >= |su.history| then
      Replaced(st.(historyIdx := st.historyIdx + 1, iteratingHistory := false), st.backup, su.max)
    else
      Replaced(st.(historyIdx := st.historyIdx + 1), su.history[st.historyIdx + 1], su.max)
  }

  function AfterTab(st: State, su: Setup): State
    requires st.suggestionsValid ==> st.suggestionIdx <= |st.suggestions|
  {
    if !su.useHistory || su.names == [] then st
    else if !st.suggestionsValid then
      Suggest(st.(backup := st.buf, suggestions := Suggestions(st.buf, su.names), suggestionIdx := 0, suggestionsValid := true), su.max)
    else
      Suggest(st.(suggestionIdx := if st.suggestionIdx == |st.suggestions| then 0 else st.suggestionIdx + 1), su.max)
  }

  function Next(st0: State, key: Key, su: Setup): State
    requires Consistent(st0, su)
  {
    var st := Prepared(st0, key);
    match key
    case Backspace => AfterBackspace(st)
    case Del => AfterDel(st)
    case ArrowLeft => AfterMove(st, key)
    case ArrowRight => AfterMove(st, key)
    case Pos1 => AfterMove(st, key)
    case End => AfterMove(st, key)
    case NoCommand(chars) => AfterChars(st, chars, su.max)
    case ArrowUp => AfterUp(st, su)
    case ArrowDown => AfterDown(st, su)
    case Tab => AfterTab(st, su)
    case Etx => st
    case Return => st
    case NeedMoreData => st
    case OtherCommand => st
  }

  /** Shows the current suggestion, or the user's own input behind the last one. */
  function Suggest(st: State, max: nat): State
    requires st.suggestionIdx <= |st.suggestions|
  {
    Replaced(st, if st.suggestionIdx == |st.suggestions| then st.backup else st.suggestions[st.suggestionIdx].name, max)
  }

  // ---------------------------------------------------------------- the editor

  class Editor {
    const terminalWidth: nat
    var screen: Screen
    var currentLineHead: string
    var inputBuffer: string
    var cursorX: nat
    var recoveryRequired: bool
    var maxInputLength: nat
    var useHistory: bool
    var history: seq<string>
    var commands: seq<string>
    var inputBufferBackup: string
    var iteratingHistory: bool
    var historyIdx: nat
    var suggestionsValid: bool
    var suggestions: seq<Suggestion>
    var suggestionIdx: nat

    ghost function St(): State
      reads this`inputBuffer, this`cursorX, this`inputBufferBackup, this`iteratingHistory, this`historyIdx
      reads this`suggestionsValid, this`suggestions, this`suggestionIdx
    {
      State(inputBuffer, cursorX, inputBufferBackup, iteratingHistory, historyIdx, suggestionsValid, suggestions, suggestionIdx)
    }

    ghost function Su(): Setup
      reads this`useHistory, this`history, this`commands, this`maxInputLength
    {
      Setup(useHistory, history, commands, maxInputLength)
    }

    /** While a line is being entered, the bottom line shows the line head and the input, and the cursor stands where
        the input is edited. The last column stays free. */
    ghost predicate OnScreen()
      reads this`screen, this`currentLineHead, this`inputBuffer, this`cursorX
    {
      Shows(screen, currentLineHead + inputBuffer, |currentLineHead| + cursorX)
    }

    ghost predicate Valid()
      reads this
    {
      && 80 <= terminalWidth <= 240 && |screen.line| == terminalWidth && Usable(screen)
      && |currentLineHead| <= terminalWidth - 2 && Plain(currentLineHead)
      && (recoveryRequired ==> maxInputLength == terminalWidth - 1 - |currentLineHead|)
      && SetupOk(Su()) && Consistent(St(), Su())
      && (if recoveryRequired then OnScreen() else Shows(screen, "", 0))
    }

    constructor (width: nat, names: seq<string>)
      requires 80 <= width <= 240
      requires forall i :: 0 <= i < |names| ==> Plain(names[i]) && |names[i]| < Levenshtein.SIZE_MAX
      ensures Valid() && !recoveryRequired
    {
      terminalWidth := width;
      screen := Screen(Blanks(width), 0, [], false);
      currentLineHead, inputBuffer, cursorX, recoveryRequired, maxInputLength := "", "", 0, false, 0;
      useHistory, history, commands := false, [], names;
      inputBufferBackup, iteratingHistory, historyIdx := "", false, 0;
      suggestionsValid, suggestions, suggestionIdx := false, [], 0;
      new;
      assert "" + Blanks(width) == Blanks(width);
    }

    // -------------------------------------------------------------- commands to the terminal

    method Terminal_Write(s: string)
      requires Usable(screen)
      modifies this`screen
      ensures screen == Write(old(screen), s)
    {
      screen := Write(screen, s);
    }

    /** The distance is a 16-bit number between -9999 and 9999. */
    method Terminal_MoveCursorX(deltaX: int)
      requires Usable(screen) && -9999 <= deltaX <= 9999
      modifies this`screen
      ensures screen == MoveX(old(screen), deltaX)
    {
      screen := MoveX(screen, deltaX);
    }

    /** The number of characters is an 8-bit number. */
    method Terminal_DeleteChars(n: nat)
      requires Usable(screen) && n <= 255
      modifies this`screen
      ensures screen == Delete(old(screen), n)
    {
      screen := if n != 0 then Delete(screen, n) else screen;
      DeleteNothing(old(screen));
    }

    lemma DeleteNothing(sc: Screen)
      requires Usable(sc)
      ensures Delete(sc, 0) == sc
    {
      assert sc.line[..sc.col] + sc.line[sc.col + 0..] + Blanks(0) == sc.line;
    }

    // -------------------------------------------------------------- replacing the input

    /** Removes the input from the screen, with the cursor behind the line head. */
    method EraseInput(prevCursorX: nat, prevInputBuffer: string)
      requires Usable(screen) && |screen.line| == terminalWidth <= 240 && prevCursorX <= |prevInputBuffer|
      requires Shows(screen, currentLineHead + prevInputBuffer, |currentLineHead| + prevCursorX)
      modifies this`screen
      ensures Usable(screen) && |screen.line| == terminalWidth
      ensures Shows(screen, currentLineHead, |currentLineHead|)
      ensures screen.above == old(screen.above) && screen.lastColumnWritten == old(screen.lastColumnWritten)
    {
      hide Shows, Plain;
      ShowsBounds(screen, currentLineHead + prevInputBuffer, |currentLineHead| + prevCursorX);
      MoveIs(screen, currentLineHead + prevInputBuffer, |currentLineHead| + prevCursorX, 0 - prevCursorX);
      Terminal_MoveCursorX(0 - prevCursorX);
      DeleteEnd(screen, currentLineHead, prevInputBuffer);
      Terminal_DeleteChars(|prevInputBuffer|);
    }

    lemma ShowsBounds(sc: Screen, text: string, col: nat)
      requires Shows(sc, text, col)
      ensures |text| < |sc.line| && col <= |text| && Usable(sc)
    {
    }

    /** ReplaceInputBufferWithString. */
    method ReplaceInputBufferWithString(newInputBuffer: string)
      requires Valid() && recoveryRequired && Plain(newInputBuffer)
      modifies this`screen, this`inputBuffer, this`cursorX
      ensures Valid() && inputBuffer == Cut(newInputBuffer, maxInputLength) && cursorX == |inputBuffer|
      ensures screen.above == old(screen.above) && screen.lastColumnWritten == old(screen.lastColumnWritten)
    {
      hide Shows, SetupOk, AllPlain;
      var prevCursorX, prevInputBuffer := cursorX, inputBuffer;
      inputBuffer := if |newInputBuffer| <= maxInputLength then newInputBuffer else newInputBuffer[..maxInputLength];
      cursorX := |inputBuffer|;
      EraseInput(prevCursorX, prevInputBuffer);
      WriteBehind(screen, currentLineHead, inputBuffer);
      Terminal_Write(inputBuffer);
    }

    /** ClearInputBuffer. */
    method ClearInputBuffer()
      requires Valid() && recoveryRequired
      modifies this`screen, this`inputBuffer, this`cursorX
      ensures Valid() && inputBuffer == "" && cursorX == 0
      ensures screen.above == old(screen.above) && screen.lastColumnWritten == old(screen.lastColumnWritten)
    {
      hide Shows, SetupOk, AllPlain;
      var prevCursorX, prevInputBuffer := cursorX, inputBuffer;
      inputBuffer := "";
      cursorX := 0;
      EraseInput(prevCursorX, prevInputBuffer);
      assert currentLineHead + "" == currentLineHead;
    }

    // -------------------------------------------------------------- other threads write lines

      /** Removes the line that is being edited from the screen. */
    method RemoveLine()
      requires Usable(screen) && |screen.line| == terminalWidth <= 240 && OnScreen() && cursorX <= |inputBuffer|
      modifies this`screen
      ensures Usable(screen) && |screen.line| == terminalWidth && Shows(screen, "", 0)
      ensures screen.above == old(screen.above) && screen.lastColumnWritten == old(screen.lastColumnWritten)
    {
      hide Shows, Write, Plain;
      ghost var shown := currentLineHead + inputBuffer;
      ShowsBounds(screen, shown, |currentLineHead| + cursorX);
      MoveIs(screen, shown, |currentLineHead| + cursorX, -(|currentLineHead| + cursorX));
      Terminal_MoveCursorX(-(|currentLineHead| + cursorX));
      assert "" + shown == shown;
      DeleteEnd(screen, "", shown);
      Terminal_DeleteChars(|currentLineHead| + |inputBuffer|);
    }

    /** Brings the line that is being edited back. */
    method RestoreLine()
      requires Usable(screen) && |screen.line| == terminalWidth <= 240 && Shows(screen, "", 0)
      requires Plain(currentLineHead) && Plain(inputBuffer) && cursorX <= |inputBuffer|
      requires |currentLineHead| + |inputBuffer| < terminalWidth
      modifies this`screen
      ensures Usable(screen) && |screen.line| == terminalWidth && OnScreen()
      ensures screen.above == old(screen.above) && screen.lastColumnWritten == old(screen.lastColumnWritten)
    {
      hide Shows, Write, Plain;
      WriteBehind(screen, "", currentLineHead);
      assert "" + currentLineHead == currentLineHead;
      Terminal_Write(currentLineHead);
      WriteBehind(screen, currentLineHead, inputBuffer);
      Terminal_Write(inputBuffer);
      ghost var shown := currentLineHead + inputBuffer;
      MoveIs(screen, shown, |shown|, -(|inputBuffer| - cursorX));
      Terminal_MoveCursorX(-(|inputBuffer| - cursorX));
    }

    /** WriteLineComposed; text is the concatenation of the fragments. */
    method WriteLineComposed(text: string)
      requires Valid()
      modifies this`screen
      ensures Valid()
      ensures Plain(text) && |text| < terminalWidth ==>
                && screen.above == old(screen.above) + [text + Blanks(terminalWidth - |text|)]
                && screen.lastColumnWritten == old(screen.lastColumnWritten)
    {
      hide Shows, Write, SetupOk, AllPlain, Plain;
      if recoveryRequired {
        RemoveLine();
        Print(text);
        RestoreLine();
      } else {
        Print(text);
      }
    }

    /** A line of text and a line feed. */
    method Print(text: string)
      requires Usable(screen) && Shows(screen, "", 0)
      modifies this`screen
      ensures Usable(screen) && Shows(screen, "", 0) && |screen.line| == old(|screen.line|)
      ensures Plain(text) && |text| < |screen.line| ==>
                && screen.above == old(screen.above) + [text + Blanks(|screen.line| - |text|)]
                && screen.lastColumnWritten == old(screen.lastColumnWritten)
    {
      hide Shows, Write;
      FreshLine(screen, text);
      if Plain(text) && |text| < |screen.line| { PrintedAbove(screen, text); }
      Terminal_Write(text + "\n");
    }

    // -------------------------------------------------------------- keys

    /** Erases the character at the cursor and rewrites what is behind it. */
    method EraseAtCursor()
      requires Usable(screen) && |screen.line| == terminalWidth <= 240 && Plain(inputBuffer) && cursorX < |inputBuffer|
      requires OnScreen()
      modifies this`screen, this`inputBuffer
      ensures Usable(screen) && |screen.line| == terminalWidth && OnScreen()
      ensures inputBuffer == EraseAt(old(inputBuffer), cursorX) && Plain(inputBuffer)
      ensures screen.above == old(screen.above) && screen.lastColumnWritten == old(screen.lastColumnWritten)
    {
      hide Shows, Write, Plain;
      ShowsBounds(screen, currentLineHead + inputBuffer, |currentLineHead| + cursorX);
      PlainErased(inputBuffer, cursorX);
      ghost var a, c, b := currentLineHead + inputBuffer[..cursorX], inputBuffer[cursorX], inputBuffer[cursorX + 1..];
      EraseParts(currentLineHead, inputBuffer, cursorX);
      WriteErased(screen, a, c, b);
      inputBuffer := inputBuffer[..cursorX] + inputBuffer[cursorX + 1..];
      Terminal_Write(inputBuffer[cursorX..]);
      Terminal_DeleteChars(1);
      MoveIs(screen, a + b, |a| + |b|, -(|inputBuffer| - cursorX));
      Terminal_MoveCursorX(-(|inputBuffer| - cursorX));
    }

    /** Deletes the last character, with the cursor behind it. */
    method EraseLast()
      requires Usable(screen) && |screen.line| == terminalWidth <= 240 && Plain(inputBuffer)
      requires 0 < cursorX == |inputBuffer| && OnScreen()
      modifies this`screen, this`inputBuffer, this`cursorX
      ensures Usable(screen) && |screen.line| == terminalWidth && OnScreen() && Plain(inputBuffer)
      ensures inputBuffer == EraseAt(old(inputBuffer), old(cursorX) - 1) && cursorX == old(cursorX) - 1
      ensures screen.above == old(screen.above) && screen.lastColumnWritten == old(screen.lastColumnWritten)
    {
      hide Shows, Write, Plain;
      ghost var shown, tail := currentLineHead + inputBuffer, inputBuffer[cursorX - 1..];
      MoveIs(screen, shown, |currentLineHead| + cursorX, -1);
      PlainParts(inputBuffer, cursorX - 1, cursorX);
      assert EraseAt(inputBuffer, cursorX - 1) == inputBuffer[..|inputBuffer| - 1];
      inputBuffer := inputBuffer[..|inputBuffer| - 1];
      cursorX := cursorX - 1;
      Terminal_MoveCursorX(-1);
      assert shown == currentLineHead + inputBuffer + tail;
      DeleteEnd(screen, currentLineHead + inputBuffer, tail);
      Terminal_DeleteChars(1);
    }

    method OnBackspace()
      requires Valid() && recoveryRequired
      modifies this`screen, this`inputBuffer, this`cursorX
      ensures Valid() && recoveryRequired && Kept(old(screen), old(Su()), old(currentLineHead))
      ensures St() == AfterBackspace(old(St()))
    {
      hide Shows, Write, Plain, SetupOk, AllPlain, Suggestions;
      if |inputBuffer| > 0 && cursorX > 0 {
        if cursorX == |inputBuffer| {
          // the last character
          EraseLast();
        } else {
          // a character in the middle
          MoveIs(screen, currentLineHead + inputBuffer, |currentLineHead| + cursorX, -1);
          cursorX := cursorX - 1;
          Terminal_MoveCursorX(-1);
          EraseAtCursor();
        }
      }
    }

    method OnDel()
      requires Valid() && recoveryRequired
      modifies this`screen, this`inputBuffer
      ensures Valid() && recoveryRequired && Kept(old(screen), old(Su()), old(currentLineHead))
      ensures St() == AfterDel(old(St()))
    {
      hide Shows, Write, Plain, SetupOk, AllPlain, Suggestions;
      if cursorX < |inputBuffer| { EraseAtCursor(); }
    }

    /** Cursor movement to column x of the input. */
    method MoveTo(x: nat)
      requires Valid() && recoveryRequired && x <= |inputBuffer|
      modifies this`screen, this`cursorX
      ensures Valid() && recoveryRequired && Kept(old(screen), old(Su()), old(currentLineHead))
      ensures cursorX == x
    {
      hide Shows, Plain, SetupOk, AllPlain;
      MoveIs(screen, currentLineHead + inputBuffer, |currentLineHead| + cursorX, x - cursorX);
      Terminal_MoveCursorX(x - cursorX);
      cursorX := x;
    }

    /** The four keys that move the cursor. */
    method OnMove(key: Key)
      requires Valid() && recoveryRequired && key in {ArrowLeft, ArrowRight, Pos1, End}
      modifies this`screen, this`cursorX
      ensures Valid() && recoveryRequired && Kept(old(screen), old(Su()), old(currentLineHead))
      ensures St() == AfterMove(old(St()), key)
    {
      hide Shows, Write, Plain, SetupOk, AllPlain, Suggestions;
      if key == ArrowLeft {
        if cursorX > 0 { MoveTo(cursorX - 1); }
      } else if key == ArrowRight {
        if cursorX < |inputBuffer| { MoveTo(cursorX + 1); }
      } else if key == Pos1 {
        MoveTo(0);
      } else {
        MoveTo(|inputBuffer|);
      }
    }

    method OnNoCommand(chars: string) returns (c: string)
      requires Valid() && recoveryRequired && Plain(chars)
      modifies this`screen, this`inputBuffer, this`cursorX
      ensures Valid() && recoveryRequired && Kept(old(screen), old(Su()), old(currentLineHead))
      ensures St() == AfterChars(old(St()), chars, maxInputLength)
      ensures var s := Cut(chars, maxInputLength - |old(inputBuffer)|); c == s[|Inserted(s)|..]
    {
      hide Shows, Write, Plain, SetupOk, AllPlain, Suggestions;
      c := "";
      PlainCut(chars, maxInputLength - |inputBuffer|);
      // the parser offers at most as many characters as there is room for
      var newChars := Cut(chars, maxInputLength - |inputBuffer|);
      var nbOfNewChars := |newChars|;
      if nbOfNewChars != 0 {
        // the last of several characters is inserted into the parser again
        if nbOfNewChars > 1 {
          c := newChars[nbOfNewChars - 1..];
          nbOfNewChars := nbOfNewChars - 1;
        }
        assert newChars[..nbOfNewChars] == Inserted(newChars);
        InsertAtCursor(newChars[..nbOfNewChars]);
      } else {
        assert inputBuffer == inputBuffer[..cursorX] + "" + inputBuffer[cursorX..];
      }
    }

    /** Inserts characters and rewrites what is behind them. */
    method InsertAtCursor(more: string)
      requires Usable(screen) && |screen.line| == terminalWidth <= 240 && Plain(inputBuffer) && cursorX <= |inputBuffer|
      requires OnScreen() && Plain(more) && |currentLineHead| + |inputBuffer| + |more| < terminalWidth
      modifies this`screen, this`inputBuffer, this`cursorX
      ensures Usable(screen) && |screen.line| == terminalWidth && OnScreen() && Plain(inputBuffer)
      ensures inputBuffer == old(inputBuffer)[..old(cursorX)] + more + old(inputBuffer)[old(cursorX)..]
      ensures cursorX == old(cursorX) + |more|
      ensures screen.above == old(screen.above) && screen.lastColumnWritten == old(screen.lastColumnWritten)
    {
      hide Shows, Write, Plain;
      PlainInserted(inputBuffer, cursorX, more);
      var prevCursorX, append := cursorX, cursorX == |inputBuffer|;
      ghost var a, b := currentLineHead + inputBuffer[..cursorX], inputBuffer[cursorX..];
      InsertParts(currentLineHead, inputBuffer, cursorX, more);
      WriteInserted(screen, a, b, more);
      inputBuffer := inputBuffer[..cursorX] + more + inputBuffer[cursorX..];
      cursorX := cursorX + |more|;
      Terminal_Write(inputBuffer[prevCursorX..]);
      if !append {
        MoveIs(screen, a + more + b, |a| + |more| + |b|, -(|inputBuffer| - cursorX));
        Terminal_MoveCursorX(-(|inputBuffer| - cursorX));
      }
    }

    method OnArrowUp()
      requires Valid() && recoveryRequired
      modifies this`screen, this`inputBuffer, this`cursorX, this`inputBufferBackup, this`iteratingHistory, this`historyIdx
      ensures Valid() && recoveryRequired && Kept(old(screen), old(Su()), old(currentLineHead))
      ensures St() == AfterUp(old(St()), Su())
    {
      hide Shows, Write, Suggestions, AllPlain, SetupOk, Plain;
      if useHistory && history != [] {
        OlderEntry();
        PlainHistory(Su(), historyIdx);
        ReplaceInputBufferWithString(history[historyIdx]);
      }
    }

    /** Selects the latest command, or the next older one. */
    method OlderEntry()
      requires Valid() && recoveryRequired && useHistory && history != []
      modifies this`inputBufferBackup, this`iteratingHistory, this`historyIdx
      ensures Valid() && historyIdx < |history|
      ensures Replaced(St(), history[historyIdx], maxInputLength) == AfterUp(old(St()), Su())
    {
      hide Shows, Write, Suggestions, AllPlain, SetupOk, Plain, Cut;
      if !iteratingHistory {
        // start at the latest command
        inputBufferBackup := inputBuffer;
        historyIdx := |history| - 1;
        iteratingHistory := true;
      } else {
        // move to the next older command
        historyIdx := if historyIdx == 0 then |history| - 1 else historyIdx - 1;
      }
    }

    method OnArrowDown()
      requires Valid() && recoveryRequired
      modifies this`screen, this`inputBuffer, this`cursorX, this`inputBufferBackup, this`iteratingHistory, this`historyIdx
      ensures Valid() && recoveryRequired && Kept(old(screen), old(Su()), old(currentLineHead))
      ensures St() == AfterDown(old(St()), Su())
    {
      hide Shows, Write, Suggestions, AllPlain, SetupOk, Plain;
      if iteratingHistory {
        historyIdx := historyIdx + 1;
        if historyIdx >= |history| {
          // restore user entry and finish iteration
          iteratingHistory := false;
          ReplaceInputBufferWithString(inputBufferBackup);
        } else {
          PlainHistory(Su(), historyIdx);
          ReplaceInputBufferWithString(history[historyIdx]);
        }
      }
    }

    /** Of everything that is not the state of the editor, only the bottom line of the screen has changed. */
    ghost predicate Kept(sc: Screen, su: Setup, head: string)
      reads this
    {
      screen.above == sc.above && screen.lastColumnWritten == sc.lastColumnWritten && Su() == su && currentLineHead == head
    }

    method OnTab()
      requires Valid() && recoveryRequired
      modifies this`screen, this`inputBuffer, this`cursorX, this`inputBufferBackup
      modifies this`suggestionsValid, this`suggestions, this`suggestionIdx
      ensures Valid() && recoveryRequired && Kept(old(screen), old(Su()), old(currentLineHead))
      ensures St() == AfterTab(old(St()), Su())
    {
      hide Shows, Write, Suggestions, AllPlain, SetupOk, Plain;
      if useHistory && commands != [] {
        var s := NextSuggestion();
        ReplaceInputBufferWithString(s);
      }
    }

    /** Builds the list of suggestions, or goes on in it; what is to be shown then. */
    method NextSuggestion() returns (s: string)
      requires Valid() && recoveryRequired && useHistory && commands != []
      modifies this`inputBufferBackup, this`suggestionsValid, this`suggestions, this`suggestionIdx
      ensures Valid() && Plain(s)
      ensures Replaced(St(), s, maxInputLength) == AfterTab(old(St()), Su())
    {
      hide Shows, Write, Suggestions, AllPlain, SetupOk, Plain, Cut;
      if !suggestionsValid {
        inputBufferBackup := inputBuffer;
        NamesOk(Su());
        SuggestionsPlain(inputBuffer, commands);
        suggestions := BuildListOfSuggestions(inputBuffer, commands);
        suggestionIdx := 0;
        suggestionsValid := true;
      } else {
        suggestionIdx := if suggestionIdx == |suggestions| then 0 else suggestionIdx + 1;
      }
      if suggestionIdx == |suggestions| {
        s := inputBufferBackup;
      } else {
        PlainName(suggestions, suggestionIdx);
        s := suggestions[suggestionIdx].name;
      }
    }

    /** One pass of the loop of EnterLine. */
    method HandleKey(key: Key) returns (r: Outcome)
      requires Valid() && recoveryRequired && (key.NoCommand? ==> Plain(key.chars))
      modifies this
      ensures Valid() && Su() == old(Su()) && currentLineHead == old(currentLineHead)
      ensures screen.lastColumnWritten == old(screen.lastColumnWritten)
      ensures St() == Next(old(St()), key, Su())
      ensures r == (match key
                    case Return => Entered
                    case Etx => CtrlC
                    case NoCommand(chars) =>
                      var s := Cut(chars, maxInputLength - |old(inputBuffer)|); Going(s[|Inserted(s)|..])
                    case _ => Going(""))
      ensures if r.Going? then recoveryRequired && screen.above == old(screen.above)
              else !recoveryRequired && screen.above == old(screen.above) + [old(screen.line)]
    {
      hide Shows, Write, Suggestions, Plain, SetupOk, AllPlain;
      hide AfterBackspace, AfterDel, AfterMove, AfterChars, AfterUp, AfterDown, AfterTab;
      r := Going("");
      Prepare(key);
      match key {
        case Backspace => OnBackspace();
        case Tab => OnTab();
        case ArrowLeft => OnMove(key);
        case ArrowRight => OnMove(key);
        case ArrowUp => OnArrowUp();
        case ArrowDown => OnArrowDown();
        case Pos1 => OnMove(key);
        case End => OnMove(key);
        case Del => OnDel();
        case Etx => Leave(); r := CtrlC;
        case NoCommand(chars) =>
          var c := OnNoCommand(chars);
          r := Going(c);
        case Return => Leave(); r := Entered;
        case NeedMoreData =>
        case OtherCommand =>
      }
    }

    /** Ends an iteration through history or suggestions that the key is no part of. */
    method Prepare(key: Key)
      requires Valid() && recoveryRequired
      modifies this`iteratingHistory, this`inputBufferBackup, this`suggestionsValid
      ensures Valid() && St() == Prepared(old(St()), key)
    {
      hide Shows, SetupOk, AllPlain, Plain;
      NoText();
      if iteratingHistory && key !in {Return, NeedMoreData, ArrowUp, ArrowDown} {
        iteratingHistory := false;
        inputBufferBackup := "";
      }
      if suggestionsValid && key !in {Return, NeedMoreData, Tab} {
        suggestionsValid := false;
        inputBufferBackup := "";
      }
    }

    /** Ends the line on the screen. */
    method Leave()
      requires Valid() && recoveryRequired
      modifies this`screen, this`recoveryRequired
      ensures Valid() && !recoveryRequired
      ensures screen.above == old(screen.above) + [old(screen.line)] && screen.lastColumnWritten == old(screen.lastColumnWritten)
    {
      hide Shows;
      LineFeed(screen);
      Terminal_Write("\n");
      recoveryRequired := false;
    }

    lemma LineFeed(sc: Screen)
      requires Usable(sc)
      ensures Write(sc, "\n") == NewLine(sc) && Shows(NewLine(sc), "", 0)
    {
      assert "\n"[1..] == "";
      assert "" + Blanks(|sc.line|) == Blanks(|sc.line|);
    }

    method ShowHead()
      requires Usable(screen) && Shows(screen, "", 0) && Plain(currentLineHead) && |currentLineHead| < |screen.line|
      modifies this`screen
      ensures Usable(screen) && |screen.line| == old(|screen.line|)
      ensures Shows(screen, currentLineHead, |currentLineHead|)
      ensures screen.above == old(screen.above) && screen.lastColumnWritten == old(screen.lastColumnWritten)
    {
      hide Shows, Write, Plain;
      WriteBehind(screen, "", currentLineHead);
      assert "" + currentLineHead == currentLineHead;
      Terminal_Write(currentLineHead);
    }

    /** Sets up the input buffer and what belongs to it. */
    method ResetInput(useHist: bool)
      requires |currentLineHead| <= terminalWidth - 2 && terminalWidth <= 240
      modifies this`maxInputLength, this`inputBuffer, this`cursorX, this`useHistory, this`inputBufferBackup
      modifies this`iteratingHistory, this`historyIdx, this`suggestionsValid, this`recoveryRequired
      ensures maxInputLength == terminalWidth - 1 - |currentLineHead| && recoveryRequired && useHistory == useHist
      ensures St() == State("", 0, "", false, 0, false, suggestions, suggestionIdx)
      ensures AllPlain(suggestions) ==> Consistent(St(), Su())
      ensures currentLineHead + inputBuffer == currentLineHead
    {
      hide AllPlain, Plain;
      maxInputLength := terminalWidth - 1 - |currentLineHead|;
      inputBuffer := "";
      cursorX := 0;
      useHistory := useHist;
      inputBufferBackup := "";
      iteratingHistory, historyIdx, suggestionsValid := false, 0, false;
      recoveryRequired := true;
      NoText();
      assert currentLineHead + inputBuffer == currentLineHead;
    }

    /** The beginning of EnterLine. */
    method StartLine(useHist: bool, lineHead: string) returns (ok: bool)
      requires Valid() && !recoveryRequired && Plain(lineHead)
      modifies this
      ensures Valid() && ok == (|lineHead| <= terminalWidth - 2)
      ensures ok ==> recoveryRequired && currentLineHead == lineHead && maxInputLength == terminalWidth - 1 - |lineHead|
      ensures ok ==> inputBuffer == "" && cursorX == 0 && !iteratingHistory && !suggestionsValid && useHistory == useHist
      ensures ok ==> screen.above == old(screen.above) && screen.lastColumnWritten == old(screen.lastColumnWritten)
      ensures !ok ==> !recoveryRequired && screen == old(screen)
      ensures history == old(history) && commands == old(commands)
    {
      hide Shows, Write, AllPlain, SetupOk, Plain;
      ghost var before := Su();
      if |lineHead| > terminalWidth - 2 { return false; }
      currentLineHead := lineHead;
      ShowHead();
      ResetInput(useHist);
      SameSetup(before, Su());
      return true;
    }
  }

  lemma RatedName(input: string, name: string)
    ensures Rated(input, name).name == name
  {
  }

  lemma PlainHistory(su: Setup, i: nat)
    requires SetupOk(su) && i < |su.history|
    ensures Plain(su.history[i])
  {
  }

  lemma NamesOk(su: Setup)
    requires SetupOk(su)
    ensures forall i :: 0 <= i < |su.names| ==> Plain(su.names[i]) && |su.names[i]| < Levenshtein.SIZE_MAX
  {
  }

  lemma PlainName(l: seq<Suggestion>, i: nat)
    requires AllPlain(l) && i < |l|
    ensures Plain(l[i].name)
  {
  }

  lemma NoText()
    ensures Plain("")
  {
  }

  lemma SameSetup(a: Setup, b: Setup)
    requires SetupOk(a) && a.history == b.history && a.names == b.names && b.max < 240
    ensures SetupOk(b)
  {
  }

  lemma PlainParts(s: string, i: nat, j: nat)
    requires i <= j <= |s| && Plain(s)
    ensures Plain(s[..i]) && Plain(s[j..])
  {
  }

  lemma EraseParts(head: string, s: string, i: nat)
    requires i < |s|
    ensures head + s == head + s[..i] + [s[i]] + s[i + 1..] && head + s[..i] + s[i + 1..] == head + (s[..i] + s[i + 1..])
    ensures (s[..i] + s[i + 1..])[i..] == s[i + 1..]
  {
    assert s == s[..i] + [s[i]] + s[i + 1..];
  }

  lemma InsertParts(head: string, s: string, i: nat, more: string)
    requires i <= |s|
    ensures head + s == head + s[..i] + s[i..] && head + s[..i] + more + s[i..] == head + (s[..i] + more + s[i..])
    ensures (s[..i] + more + s[i..])[i..] == more + s[i..]
  {
    assert s == s[..i] + s[i..];
  }

  lemma PlainErased(s: string, i: nat)
    requires i < |s| && Plain(s)
    ensures Plain(s[i + 1..]) && Plain(s[..i] + s[i + 1..])
  {
  }

  lemma PlainInserted(s: string, i: nat, more: string)
    requires i <= |s| && Plain(s) && Plain(more)
    ensures Plain(more + s[i..]) && Plain(s[..i] + more + s[i..])
  {
  }

  lemma PlainCut(s: string, max: nat)
    requires Plain(s)
    ensures Plain(Cut(s, max)) && Plain(Inserted(Cut(s, max)))
  {
  }

  lemma SuggestionsPlain(input: string, names: seq<string>)
    requires forall i :: 0 <= i < |names| ==> Plain(names[i])
    ensures AllPlain(Suggestions(input, names))
  {
    hide Plain, SortAll, Rated;
    var all := RatedAll(input, names);
    SortAllIs(all);
    forall i | 0 <= i < |Suggestions(input, names)| ensures Plain(Suggestions(input, names)[i].name) {
      assert SortAll(all)[i] in multiset(SortAll(all));
      assert SortAll(all)[i] in all;
      var k :| 0 <= k < |all| && all[k] == SortAll(all)[i];
      RatedName(input, names[k]);
    }
  }
}
