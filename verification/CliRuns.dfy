/**
 Entering lines: any sequence of keys and of lines printed by other threads leaves the screen and the editor consistent.
 What the keys do to each other.
 */
module CliRuns {
  import opened CliTerminal
  import opened CliLists
  import opened CliEditor

  datatype Event = Pressed(key: Key) | Printed(text: string)

  predicate Acceptable(e: Event) { e.Pressed? && e.key.NoCommand? ==> Plain(e.key.chars) }

  lemma StaysConsistent(st: State, key: Key, su: Setup)
    requires Consistent(st, su) && SetupOk(su) && Acceptable(Pressed(key))
    ensures Consistent(Next(st, key, su), su)
  {
    hide Suggestions, SetupOk, AllPlain, Plain, AfterUp, AfterDown, AfterTab, AfterBackspace, AfterDel, AfterChars, AfterMove;
    NoText();
    var p := Prepared(st, key);
    match key
    case ArrowUp => UpConsistent(p, su);
    case ArrowDown => DownConsistent(p, su);
    case Tab => TabConsistent(p, su);
    case Backspace => ErasedConsistent(p, su);
    case Del => ErasedConsistent(p, su);
    case NoCommand(chars) => CharsConsistent(p, chars, su);
    case ArrowLeft => MovedConsistent(p, key, su);
    case ArrowRight => MovedConsistent(p, key, su);
    case Pos1 => MovedConsistent(p, key, su);
    case End => MovedConsistent(p, key, su);
    case Etx =>
    case Return =>
    case NeedMoreData =>
    case OtherCommand =>
  }

  lemma ErasedConsistent(st: State, su: Setup)
    requires Consistent(st, su)
    ensures Consistent(AfterBackspace(st), su) && Consistent(AfterDel(st), su)
  {
    hide AllPlain;
  }

  lemma MovedConsistent(st: State, key: Key, su: Setup)
    requires Consistent(st, su)
    ensures Consistent(AfterMove(st, key), su)
  {
    hide AllPlain, Plain;
  }

  lemma CharsConsistent(st: State, chars: string, su: Setup)
    requires Consistent(st, su) && Plain(chars)
    ensures Consistent(AfterChars(st, chars, su.max), su)
  {
    hide AllPlain;
  }

  lemma UpConsistent(st: State, su: Setup)
    requires Consistent(st, su) && SetupOk(su)
    ensures Consistent(AfterUp(st, su), su)
  {
    hide Suggestions, AllPlain;
    forall i: nat | i < |su.history| ensures Plain(Cut(su.history[i], su.max)) { PlainCut(su.history[i], su.max); }
  }

  lemma DownConsistent(st: State, su: Setup)
    requires Consistent(st, su) && SetupOk(su)
    ensures Consistent(AfterDown(st, su), su)
  {
    hide Suggestions, AllPlain;
    forall i: nat | i < |su.history| ensures Plain(Cut(su.history[i], su.max)) { PlainCut(su.history[i], su.max); }
    PlainCut(st.backup, su.max);
  }

  lemma TabConsistent(st: State, su: Setup)
    requires Consistent(st, su) && SetupOk(su)
    ensures Consistent(AfterTab(st, su), su)
  {
    hide Suggestions, Plain, Cut;
    NamesOk(su);
    SuggestionsPlain(st.buf, su.names);
    if su.useHistory && su.names != [] {
      var l := if st.suggestionsValid then st.suggestions else Suggestions(st.buf, su.names);
      var i := if !st.suggestionsValid then 0 else if st.suggestionIdx == |l| then 0 else st.suggestionIdx + 1;
      if i < |l| { PlainCut(l[i].name, su.max); }
      PlainCut(st.backup, su.max);
      PlainCut(st.buf, su.max);
      CutShort(if i < |l| then l[i].name else if st.suggestionsValid then st.backup else st.buf, su.max);
    }
  }

  lemma CutShort(s: string, max: nat)
    ensures |Cut(s, max)| <= max && (|s| <= max ==> Cut(s, max) == s)
  {
  }

  /** Every printed line fits into a line of the screen. */
  predicate Fitting(events: seq<Event>, width: nat)
  {
    forall i :: 0 <= i < |events| && events[i].Printed? ==> Plain(events[i].text) && |events[i].text| < width
  }

  lemma ValidParts(ed: Editor)
    requires ed.Valid()
    ensures Consistent(ed.St(), ed.Su()) && SetupOk(ed.Su()) && (ed.recoveryRequired ==> ed.OnScreen())
  {
  }

  /** What a key does, and the last of several characters that is read again. */
  function Pass(st: State, key: Key, su: Setup): State
    requires Consistent(st, su) && SetupOk(su) && Acceptable(Pressed(key))
    ensures Consistent(Pass(st, key, su), su)
  {
    StaysConsistent(st, key, su);
    var t := Next(st, key, su);
    var again := Again(st, key, su);
    if again == "" then t else
      StaysConsistent(t, NoCommand(again), su);
      Next(t, NoCommand(again), su)
  }

  /** What is read again. */
  function Again(st: State, key: Key, su: Setup): string
    requires Consistent(st, su) && SetupOk(su) && Acceptable(Pressed(key))
    ensures Plain(Again(st, key, su)) && |Again(st, key, su)| <= 1
  {
    if !key.NoCommand? then NoText(); "" else
      PlainSuffix(key.chars, su.max - |st.buf|);
      var s := Cut(key.chars, su.max - |st.buf|);
      s[|Inserted(s)|..]
  }

  /** The line that is being entered, how it ends, and how many events it takes. */
  function Run(st: State, su: Setup, events: seq<Event>): (State, Outcome, nat)
    requires Consistent(st, su) && SetupOk(su) && forall i :: 0 <= i < |events| ==> Acceptable(events[i])
    decreases |events|
  {
    if events == [] then (st, Going(""), 0) else
    match events[0]
    case Printed(_) => Later(Run(st, su, events[1..]))
    case Pressed(key) =>
      if key == Return then (Next(st, key, su), Entered, 1)
      else if key == Etx then (Next(st, key, su), CtrlC, 1)
      else Later(Run(Pass(st, key, su), su, events[1..]))
  }

  function Later(r: (State, Outcome, nat)): (State, Outcome, nat) { (r.0, r.1, r.2 + 1) }

  function Shifted(r: (State, Outcome, nat), n: nat): (State, Outcome, nat) { (r.0, r.1, r.2 + n) }

  /** The rest of a run, with characters that are still to be read again. */
  function Resume(st: State, c: string, su: Setup, events: seq<Event>): (State, Outcome, nat)
    requires Consistent(st, su) && SetupOk(su) && Plain(c) && forall i :: 0 <= i < |events| ==> Acceptable(events[i])
  {
    if c == "" then Run(st, su, events) else
      StaysConsistent(st, NoCommand(c), su);
      Run(Next(st, NoCommand(c), su), su, events)
  }

  lemma ResumeStart(st: State, su: Setup, events: seq<Event>)
    requires Consistent(st, su) && SetupOk(su) && Plain("") && forall i :: 0 <= i < |events| ==> Acceptable(events[i])
    ensures Resume(st, "", su, events) == Run(st, su, events)
  {
  }

  lemma ResumeStep(st: State, su: Setup, events: seq<Event>, used: nat)
    requires Consistent(st, su) && SetupOk(su) && used < |events| && forall i :: 0 <= i < |events| ==> Acceptable(events[i])
    ensures var r := Shifted(Resume(st, "", su, events[used..]), used);
            match events[used]
            case Printed(_) => r == Shifted(Resume(st, "", su, events[used + 1..]), used + 1)
            case Pressed(key) =>
              (StaysConsistent(st, key, su);
               if key == Return then r == (Next(st, key, su), Entered, used + 1)
               else if key == Etx then r == (Next(st, key, su), CtrlC, used + 1)
               else r == Shifted(Resume(Next(st, key, su), Again(st, key, su), su, events[used + 1..]), used + 1))
  {
    hide Consistent, SetupOk, Plain, Next, Cut, Inserted;
    NoText();
    assert events[used..][1..] == events[used + 1..];
  }

  /** A character that is read again is inserted for good. */
  lemma AgainOnce(st: State, c: string, su: Setup, events: seq<Event>)
    requires Consistent(st, su) && SetupOk(su) && Plain(c) && |c| == 1 && forall i :: 0 <= i < |events| ==> Acceptable(events[i])
    ensures var s := Cut(c, su.max - |st.buf|); s[|Inserted(s)|..] == ""
    ensures (NoText(); StaysConsistent(st, NoCommand(c), su);
             Resume(st, c, su, events) == Resume(Next(st, NoCommand(c), su), "", su, events))
  {
    hide Run, Next;
  }

  /** A run ends with the events. */
  lemma ResumeEnd(st: State, su: Setup)
    requires Consistent(st, su) && SetupOk(su) && Plain("")
    ensures Resume(st, "", su, []) == (st, Going(""), 0)
  {
  }

  /** One pass of the loop of EnterLine: handles a character that is read again, or the next event. */
  method OnePass(ed: Editor, c: string, events: seq<Event>, used: nat) returns (r: Outcome, next: nat)
    requires ed.Valid() && ed.recoveryRequired && Plain(c) && |c| <= 1 && Consistent(ed.St(), ed.Su()) && SetupOk(ed.Su())
    requires used <= |events| && (c == "" ==> used < |events|) && forall i :: 0 <= i < |events| ==> Acceptable(events[i])
    modifies ed
    ensures ed.Valid() && ed.Su() == old(ed.Su()) && ed.currentLineHead == old(ed.currentLineHead)
    ensures Consistent(ed.St(), ed.Su()) && SetupOk(ed.Su()) && ed.recoveryRequired == r.Going?
    ensures next == (if c == "" then used + 1 else used) && (r.Going? ==> Plain(r.reinserted) && |r.reinserted| <= 1)
    ensures c != "" ==> r == Going("")
    ensures Shifted(old(Resume(ed.St(), c, ed.Su(), events[used..])), used) ==
            if r.Going? then Shifted(Resume(ed.St(), r.reinserted, ed.Su(), events[next..]), next) else (ed.St(), r, next)
    ensures Fitting(events, ed.terminalWidth) ==> ed.screen.lastColumnWritten == old(ed.screen.lastColumnWritten)
  {
    hide Shows, Write, SetupOk, Next, Plain, AllPlain, Run, Resume, Consistent, Editor.Valid;
    NoText();
    ghost var st, su := ed.St(), ed.Su();
    r, next := Going(""), used;
    if c != "" {
      AgainOnce(st, c, su, events[used..]);
      r := ed.HandleKey(NoCommand(c));
    } else {
      ResumeStep(st, su, events, used);
      next := used + 1;
      match events[used] {
        case Printed(text) => ed.WriteLineComposed(text);
        case Pressed(key) => r := ed.HandleKey(key);
      }
    }
    ValidParts(ed);
  }

  /** EnterLine for a line that has been started: keys, and WriteLineComposed calls of other threads in between. It
      stops behind Return or CTRL+C. */
  method EnterLine(ed: Editor, events: seq<Event>) returns (r: Outcome, used: nat)
    requires ed.Valid() && ed.recoveryRequired && forall i :: 0 <= i < |events| ==> Acceptable(events[i])
    modifies ed
    ensures ed.Valid() && ed.Su() == old(ed.Su()) && ed.currentLineHead == old(ed.currentLineHead)
    ensures (ed.St(), r, used) == Run(old(ed.St()), old(ed.Su()), events)
    ensures ed.recoveryRequired == r.Going? && (r.Going? ==> ed.OnScreen())
    ensures Fitting(events, ed.terminalWidth) ==> ed.screen.lastColumnWritten == old(ed.screen.lastColumnWritten)
  {
    hide Shows, Write, SetupOk, Next, Plain, AllPlain, Run, Resume, Consistent, Fitting, Editor.Valid, Editor.OnScreen;
    NoText();
    ValidParts(ed);
    ResumeStart(ed.St(), ed.Su(), events);
    ghost var whole := Run(ed.St(), ed.Su(), events);
    r, used := Going(""), 0;
    assert events[0..] == events;
    while r.Going? && (r.reinserted != "" || used < |events|)
      invariant used <= |events| && ed.Valid() && (r.Going? ==> Plain(r.reinserted) && |r.reinserted| <= 1)
      invariant ed.currentLineHead == old(ed.currentLineHead) && ed.Su() == old(ed.Su()) && ed.recoveryRequired == r.Going?
      invariant Consistent(ed.St(), ed.Su()) && SetupOk(ed.Su())
      invariant whole == if r.Going? then Shifted(Resume(ed.St(), r.reinserted, ed.Su(), events[used..]), used) else (ed.St(), r, used)
      invariant Fitting(events, ed.terminalWidth) ==> ed.screen.lastColumnWritten == old(ed.screen.lastColumnWritten)
      decreases |events| - used, if r.Going? then |r.reinserted| else 0
    {
      r, used := OnePass(ed, r.reinserted, events, used);
    }
    if r.Going? {
      assert events[used..] == [];
      ResumeEnd(ed.St(), ed.Su());
    }
    ValidParts(ed);
  }

  lemma PlainSuffix(s: string, max: nat)
    requires Plain(s)
    ensures var t := Cut(s, max); Plain(t[|Inserted(t)|..])
  {
  }

  function Keys(chars: string): (events: seq<Event>)
    requires Plain(chars)
    ensures |events| == |chars| && forall i :: 0 <= i < |events| ==> events[i].Pressed? && Acceptable(events[i])
  {
    if chars == "" then [] else [Pressed(NoCommand([chars[0]]))] + Keys(chars[1..])
  }

  /** Characters typed behind the input, and Return: this is what is entered. */
  lemma {:induction false} TypedLine(st: State, su: Setup, chars: string)
    requires Consistent(st, su) && SetupOk(su) && Plain(chars) && st.cur == |st.buf| && |st.buf| + |chars| <= su.max
    ensures var r := Run(st, su, Keys(chars) + [Pressed(Return)]);
            r.0.buf == st.buf + chars && r.1 == Entered && r.2 == |chars| + 1
    decreases |chars|
  {
    hide Consistent, SetupOk, Plain, Run, Pass, Next;
    if chars == "" {
      RunReturn(st, su);
      assert st.buf + "" == st.buf;
    } else {
      PlainTail(chars);
      var key, rest := NoCommand([chars[0]]), Keys(chars[1..]) + [Pressed(Return)];
      TypedOne(st, su, chars[0]);
      TypedLine(Pass(st, key, su), su, chars[1..]);
      RunFirst(st, su, key, rest);
      assert Keys(chars) + [Pressed(Return)] == [Pressed(key)] + rest;
      assert st.buf + [chars[0]] + chars[1..] == st.buf + chars;
    }
  }

  lemma RunReturn(st: State, su: Setup)
    requires Consistent(st, su) && SetupOk(su)
    ensures Run(st, su, [] + [Pressed(Return)]) == (Next(st, Return, su), Entered, 1) && Next(st, Return, su) == st
  {
    hide Consistent, SetupOk;
    assert [] + [Pressed(Return)] == [Pressed(Return)];
  }

  lemma RunFirst(st: State, su: Setup, key: Key, rest: seq<Event>)
    requires Consistent(st, su) && SetupOk(su) && Acceptable(Pressed(key)) && key != Return && key != Etx
    requires forall i :: 0 <= i < |rest| ==> Acceptable(rest[i])
    ensures Run(st, su, [Pressed(key)] + rest) == Later(Run(Pass(st, key, su), su, rest))
  {
    hide Consistent, SetupOk, Pass, Next;
    assert ([Pressed(key)] + rest)[1..] == rest;
  }

  lemma PlainTail(s: string)
    requires Plain(s) && s != ""
    ensures Plain(s[1..]) && Plain([s[0]])
  {
  }

  lemma TypedOne(st: State, su: Setup, ch: char)
    requires Consistent(st, su) && SetupOk(su) && Plain([ch]) && st.cur == |st.buf| < su.max
    ensures var t := Pass(st, NoCommand([ch]), su); t.buf == st.buf + [ch] && t.cur == |t.buf|
  {
    hide SetupOk, Plain, AllPlain;
    assert Cut([ch], su.max - |st.buf|) == [ch];
    assert st.buf[..st.cur] == st.buf && st.buf[st.cur..] == "";
  }

  // ---------------------------------------------------------------- what keys do to each other

  /** Nothing is being iterated. */
  predicate Idle(st: State) { !st.iteratingHistory && !st.suggestionsValid }

  lemma TypeAndErase(st: State, su: Setup, ch: char)
    requires Consistent(st, su) && Idle(st) && |st.buf| < su.max && ch != '\n'
    ensures Consistent(Next(st, NoCommand([ch]), su), su)
    ensures Next(Next(st, NoCommand([ch]), su), Backspace, su) == st
  {
    hide Suggestions, AllPlain, SetupOk;
    var t := Next(st, NoCommand([ch]), su);
    assert Cut([ch], su.max - |st.buf|) == [ch];
    assert t.buf == st.buf[..st.cur] + [ch] + st.buf[st.cur..] && t.cur == st.cur + 1;
    assert EraseAt(t.buf, st.cur) == st.buf;
  }

  /** Characters that arrive together end up together, although the last one is read a second time. */
  lemma TypedTogether(st: State, su: Setup, chars: string)
    requires Consistent(st, su) && |chars| > 1 && |st.buf| + |chars| <= su.max && Plain(chars)
    ensures var t := Next(st, NoCommand(chars), su);
            && Consistent(t, su)
            && var u := Next(t, NoCommand(chars[|chars| - 1..]), su);
               u.buf == st.buf[..st.cur] + chars + st.buf[st.cur..] && u.cur == st.cur + |chars|
  {
    hide Suggestions, AllPlain, SetupOk, Plain;
    var t := Next(st, NoCommand(chars), su);
    var most, last := chars[..|chars| - 1], chars[|chars| - 1..];
    assert Cut(chars, su.max - |st.buf|) == chars && Inserted(chars) == most && Inserted(last) == last;
    assert t.buf == st.buf[..st.cur] + most + st.buf[st.cur..] && t.cur == st.cur + |most|;
    Glue(st.buf[..st.cur], most, last, st.buf[st.cur..]);
    assert most + last == chars;
    assert Cut(last, su.max - |t.buf|) == last by { hide Next; }
    PlainGlue(st.buf, st.cur, most, chars);
    NoText();
  }

  lemma Glue(x: string, m: string, l: string, y: string)
    ensures var s := x + m + y; s[..|x| + |m|] + l + s[|x| + |m|..] == x + (m + l) + y
  {
    var s := x + m + y;
    assert s[..|x| + |m|] == x + m && s[|x| + |m|..] == y;
    assert x + m + l == x + (m + l);
  }

  lemma PlainGlue(s: string, i: nat, m: string, chars: string)
    requires i <= |s| && Plain(s) && Plain(chars) && m <= chars
    ensures Plain(s[..i] + m + s[i..])
  {
  }

  /** n times the same key. */
  function Repeat(st: State, key: Key, su: Setup, n: nat): State
    requires Consistent(st, su) && SetupOk(su) && key in {ArrowUp, ArrowDown, ArrowLeft, ArrowRight, Tab}
    ensures Consistent(Repeat(st, key, su, n), su)
    decreases n
  {
    if n == 0 then st else
      StaysConsistent(st, key, su);
      Repeat(Next(st, key, su), key, su, n - 1)
  }

  /** From entry i of the history, arrow-down leads back to the user's own input in |history| - i steps. */
  lemma {:induction false} DownToInput(st: State, su: Setup)
    requires Consistent(st, su) && SetupOk(su) && st.iteratingHistory && !st.suggestionsValid && |st.backup| <= su.max
    ensures var r := Repeat(st, ArrowDown, su, |su.history| - st.historyIdx);
            r.buf == st.backup && r.cur == |st.backup| && !r.iteratingHistory
    decreases |su.history| - st.historyIdx
  {
    hide SetupOk, AllPlain, Suggestions, Plain;
    StaysConsistent(st, ArrowDown, su);
    var t := Next(st, ArrowDown, su);
    if st.historyIdx + 1 < |su.history| {
      DownToInput(t, su);
    } else {
      assert Repeat(st, ArrowDown, su, 1) == Repeat(t, ArrowDown, su, 0) == t;
      CutShort(st.backup, su.max);
    }
  }

  /** k times arrow-up (within the history) and as often arrow-down: the user's input is back. */
  lemma UpAndDown(st: State, su: Setup, k: nat)
    requires Consistent(st, su) && SetupOk(su) && Idle(st) && su.useHistory && 0 < k <= |su.history|
    ensures var up := Repeat(st, ArrowUp, su, k);
            var r := Repeat(up, ArrowDown, su, k);
            r.buf == st.buf && r.cur == |st.buf|
  {
    hide SetupOk, AllPlain, Suggestions, Plain, Repeat;
    UpTo(st, su, k);
    DownToInput(Repeat(st, ArrowUp, su, k), su);
  }

  lemma {:induction false} UpTo(st: State, su: Setup, k: nat)
    requires Consistent(st, su) && SetupOk(su) && Idle(st) && su.useHistory && 0 < k <= |su.history|
    ensures var up := Repeat(st, ArrowUp, su, k);
            up.iteratingHistory && !up.suggestionsValid && up.historyIdx == |su.history| - k && up.backup == st.buf
    decreases k
  {
    hide SetupOk, AllPlain, Suggestions, Plain;
    if k > 1 {
      UpTo(st, su, k - 1);
    } else {
      NoRepetition(st, ArrowUp, su);
    }
    LastOne(st, ArrowUp, su, k - 1);
  }

  lemma NoRepetition(st: State, key: Key, su: Setup)
    requires Consistent(st, su) && SetupOk(su) && key in {ArrowUp, ArrowDown, ArrowLeft, ArrowRight, Tab}
    ensures Repeat(st, key, su, 0) == st
  {
  }

  lemma {:induction false} LastOne(st: State, key: Key, su: Setup, n: nat)
    requires Consistent(st, su) && SetupOk(su) && key in {ArrowUp, ArrowDown, ArrowLeft, ArrowRight, Tab}
    ensures Repeat(st, key, su, n + 1) == Next(Repeat(st, key, su, n), key, su)
    decreases n
  {
    hide Next;
    StaysConsistent(st, key, su);
    if n > 0 {
      LastOne(Next(st, key, su), key, su, n - 1);
    } else {
      assert Repeat(Next(st, key, su), key, su, 0) == Next(st, key, su);
    }
  }

  /** From suggestion i, Tab leads through the rest of the list to the user's own input. */
  lemma {:induction false} TabToInput(st: State, su: Setup)
    requires Consistent(st, su) && SetupOk(su) && st.suggestionsValid && !st.iteratingHistory && |st.backup| <= su.max
    requires su.useHistory && su.names != []  && st.suggestionIdx < |st.suggestions|
    ensures var r := Repeat(st, Tab, su, |st.suggestions| - st.suggestionIdx);
            r.buf == st.backup && r.cur == |st.backup|
    decreases |st.suggestions| - st.suggestionIdx
  {
    hide SetupOk, AllPlain, Suggestions, Plain;
    StaysConsistent(st, Tab, su);
    var t := Next(st, Tab, su);
    if st.suggestionIdx + 1 < |st.suggestions| {
      TabToInput(t, su);
    } else {
      assert Repeat(st, Tab, su, 1) == Repeat(t, Tab, su, 0) == t;
      CutShort(st.backup, su.max);
    }
  }
}
