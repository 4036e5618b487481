/**
 What is entered: the line that results from characters, cursor keys and the history, from an empty line on.
 */
module CliLaws {
  import opened CliTerminal
  import opened CliLists
  import opened CliEditor
  import opened CliRuns
  import StreamSpec

  predicate AllAcceptable(events: seq<Event>) { forall i :: 0 <= i < |events| ==> Acceptable(events[i]) }

  /** n times the same key. */
  function Times(key: Key, n: nat): (events: seq<Event>)
    requires key in {ArrowUp, ArrowDown, ArrowLeft, ArrowRight, Tab}
    ensures |events| == n && AllAcceptable(events)
  {
    seq(n, _ => Pressed(key))
  }

  function Once(key: Key): (events: seq<Event>)
    requires !key.NoCommand?
    ensures AllAcceptable(events)
  {
    [Pressed(key)]
  }

  /** The events enter the line: the last one ends it. */
  ghost predicate Enters(st: State, su: Setup, events: seq<Event>, line: string)
  {
    && Consistent(st, su) && SetupOk(su) && AllAcceptable(events)
    && var r := Run(st, su, events);
       r.0.buf == line && r.1 == Entered && r.2 == |events|
  }

  /** The events lead from one state to another, and the line goes on. */
  ghost predicate Leads(st: State, su: Setup, events: seq<Event>, t: State)
  {
    && Consistent(st, su) && SetupOk(su) && AllAcceptable(events) && Consistent(t, su)
    && Run(st, su, events) == (t, Going(""), |events|)
  }

  lemma {:induction false} RunThen(st: State, su: Setup, a: seq<Event>, t: State, b: seq<Event>)
    requires Leads(st, su, a, t) && AllAcceptable(b)
    ensures AllAcceptable(a + b) && Run(st, su, a + b) == Shifted(Run(t, su, b), |a|)
    decreases |a|
  {
    hide Consistent, SetupOk, Pass, Next;
    if a == [] {
      assert a + b == b;
    } else {
      assert (a + b)[1..] == a[1..] + b && (a + b)[0] == a[0];
      assert forall i :: 0 <= i < |a| - 1 ==> a[1..][i] == a[i + 1];
      match a[0]
      case Printed(_) => RunThen(st, su, a[1..], t, b);
      case Pressed(key) => RunThen(Pass(st, key, su), su, a[1..], t, b);
    }
  }

  lemma Chain(st: State, su: Setup, a: seq<Event>, t: State, b: seq<Event>, u: State)
    requires Leads(st, su, a, t) && Leads(t, su, b, u)
    ensures Leads(st, su, a + b, u)
  {
    hide Consistent, SetupOk, Run;
    RunThen(st, su, a, t, b);
  }

  lemma Finish(st: State, su: Setup, a: seq<Event>, t: State)
    requires Leads(st, su, a, t)
    ensures Enters(st, su, a + Once(Return), t.buf)
  {
    hide Consistent, SetupOk, Run;
    RunThen(st, su, a, t, Once(Return));
    RunReturn(t, su);
    assert [] + [Pressed(Return)] == Once(Return);
  }

  // ---------------------------------------------------------------- single steps

  lemma KeyLeads(st: State, su: Setup, key: Key)
    requires Consistent(st, su) && SetupOk(su) && !key.NoCommand? && key != Return && key != Etx
    ensures Leads(st, su, Once(key), Next(st, key, su))
  {
    hide Consistent, SetupOk, Next;
    StaysConsistent(st, key, su);
    var t := Next(st, key, su);
    assert Once(key)[1..] == [];
    assert Run(t, su, []) == (t, Going(""), 0);
  }

  lemma NothingLeads(st: State, su: Setup)
    requires Consistent(st, su) && SetupOk(su)
    ensures Leads(st, su, [], st)
  {
    hide Consistent, SetupOk;
  }

  lemma {:induction false} TimesLeads(st: State, su: Setup, key: Key, n: nat)
    requires Consistent(st, su) && SetupOk(su) && key in {ArrowUp, ArrowDown, ArrowLeft, ArrowRight, Tab}
    ensures Leads(st, su, Times(key, n), Repeat(st, key, su, n))
    decreases n
  {
    hide Consistent, SetupOk, Next, Run;
    if n == 0 {
      NothingLeads(st, su);
      assert Times(key, 0) == [];
      NoRepetition(st, key, su);
    } else {
      var t := Next(st, key, su);
      KeyLeads(st, su, key);
      TimesLeads(t, su, key, n - 1);
      Chain(st, su, Once(key), t, Times(key, n - 1), Repeat(t, key, su, n - 1));
      assert Once(key) + Times(key, n - 1) == Times(key, n);
    }
  }

  /** Characters are inserted at the cursor, as many as there is room for. */
  lemma {:induction false} TypedLeads(st: State, su: Setup, x: string, y: string, chars: string) returns (t: State)
    requires Consistent(st, su) && SetupOk(su) && Idle(st) && Plain(chars) && st.buf == x + y && st.cur == |x|
    ensures Leads(st, su, Keys(chars), t) && Idle(t)
    ensures var s := Cut(chars, Room(st, su)); t.buf == x + s + y && t.cur == |x| + |s|
    decreases |chars|
  {
    hide Consistent, SetupOk, Plain, Run, Pass, Next, Cut, Leads, Idle;
    if chars == "" {
      NothingLeads(st, su);
      t := st;
      NoCut(x, y, Room(st, su));
    } else {
      PlainTail(chars);
      var c := [chars[0]];
      var u := TypedKey(st, su, x, y, chars[0]);
      LeadsConsistent(st, su, [Pressed(NoCommand(c))], u);
      t := TypedLeads(u, su, if Room(st, su) > 0 then x + c else x, y, chars[1..]);
      CutStep(x, y, chars, Room(st, su));
      Chain(st, su, [Pressed(NoCommand(c))], u, Keys(chars[1..]), t);
    }
  }

  lemma LeadsConsistent(st: State, su: Setup, events: seq<Event>, t: State)
    requires Leads(st, su, events, t)
    ensures Consistent(t, su)
  {
  }

  lemma NoCut(x: string, y: string, n: nat)
    ensures Cut("", n) == "" && x + "" + y == x + y
  {
  }

  lemma CutStep(x: string, y: string, chars: string, n: nat)
    requires chars != ""
    ensures var x1 := if n > 0 then x + [chars[0]] else x;
            var s1 := Cut(chars[1..], if n > 0 then n - 1 else 0);
            x1 + s1 + y == x + Cut(chars, n) + y && |x1| + |s1| == |x| + |Cut(chars, n)|
  {
    var c := [chars[0]];
    if n > 0 {
      assert c + Cut(chars[1..], n - 1) == Cut(chars, n);
      assert x + c + Cut(chars[1..], n - 1) == x + (c + Cut(chars[1..], n - 1));
    }
  }

  /** Characters that can still be inserted. */
  function Room(st: State, su: Setup): nat
    requires Consistent(st, su)
  {
    su.max - |st.buf|
  }

  lemma TypedKey(st: State, su: Setup, x: string, y: string, c: char) returns (t: State)
    requires Consistent(st, su) && SetupOk(su) && Idle(st) && Plain([c]) && st.buf == x + y && st.cur == |x|
    ensures Leads(st, su, [Pressed(NoCommand([c]))], t) && Idle(t)
    ensures if Room(st, su) > 0 then t.buf == x + [c] + y && t.cur == |x| + 1 else t.buf == x + y && t.cur == |x|
  {
    hide Consistent, SetupOk, Plain, AfterChars, Cut, Inserted, Leads;
    var key := NoCommand([c]);
    Bound(st, su);
    OneChar(st, x, y, c, su.max);
    t := Pass(st, key, su);
    OnePassed(st, su, key);
  }

  lemma Bound(st: State, su: Setup)
    requires Consistent(st, su)
    ensures st.cur <= |st.buf| <= su.max
  {
  }

  lemma OneChar(st: State, x: string, y: string, c: char, max: nat)
    requires st.buf == x + y && st.cur == |x| && |st.buf| <= max
    ensures AfterChars(st, [c], max) == if |st.buf| < max then st.(buf := x + [c] + y, cur := |x| + 1) else st
    ensures var s := Cut([c], max - |st.buf|); s[|Inserted(s)|..] == ""
  {
    var s := Cut([c], max - |st.buf|);
    assert s == if |st.buf| < max then [c] else "";
    assert st.buf[..st.cur] == x && st.buf[st.cur..] == y;
    assert x + "" + y == x + y;
  }

  lemma OnePassed(st: State, su: Setup, key: Key)
    requires Consistent(st, su) && SetupOk(su) && Acceptable(Pressed(key)) && key != Return && key != Etx
    ensures Leads(st, su, [Pressed(key)], Pass(st, key, su))
  {
    hide Consistent, SetupOk, Pass;
    var t := Pass(st, key, su);
    assert [Pressed(key)][1..] == [];
    assert Run(t, su, []) == (t, Going(""), 0);
  }

  /** The cursor moves to the left up to the beginning. */
  lemma {:induction false} MovedLeft(st: State, su: Setup, n: nat)
    requires Consistent(st, su) && SetupOk(su) && Idle(st)
    ensures Repeat(st, ArrowLeft, su, n) == st.(cur := if n <= st.cur then st.cur - n else 0)
    decreases n
  {
    hide SetupOk, AllPlain, Plain, Suggestions;
    if n > 0 {
      StaysConsistent(st, ArrowLeft, su);
      MovedLeft(Next(st, ArrowLeft, su), su, n - 1);
    }
  }

  /** The cursor moves to the right up to the end. */
  lemma {:induction false} MovedRight(st: State, su: Setup, n: nat)
    requires Consistent(st, su) && SetupOk(su) && Idle(st)
    ensures Repeat(st, ArrowRight, su, n) == st.(cur := if st.cur + n <= |st.buf| then st.cur + n else |st.buf|)
    decreases n
  {
    hide SetupOk, AllPlain, Plain, Suggestions;
    if n > 0 {
      StaysConsistent(st, ArrowRight, su);
      MovedRight(Next(st, ArrowRight, su), su, n - 1);
    }
  }

  // ---------------------------------------------------------------- lines

  /** A line is being entered and nothing has been typed yet. */
  predicate EmptyLine(st: State, su: Setup)
  {
    Consistent(st, su) && SetupOk(su) && Idle(st) && st.buf == ""
  }

  /** b typed where the input is x + y and the cursor stands between them. */
  lemma TypedBetween(st: State, su: Setup, events: seq<Event>, t: State, x: string, y: string, b: string)
    requires Leads(st, su, events, t) && Idle(t) && t.buf == x + y && t.cur == |x|
    requires Plain(b) && |x| + |y| + |b| <= su.max
    ensures Enters(st, su, events + Keys(b) + Once(Return), x + b + y)
  {
    hide Consistent, SetupOk, Run, Plain;
    var u := TypedLeads(t, su, x, y, b);
    Chain(st, su, events, t, Keys(b), u);
    Finish(st, su, events + Keys(b), u);
  }

  /** a typed into an empty line, and then the cursor moved. */
  lemma TypedAndMoved(st: State, su: Setup, a: string, moves: seq<Event>, n: nat, t: State, u: State)
    requires EmptyLine(st, su) && Plain(a) && |a| <= su.max && n <= |a|
    requires Leads(st, su, Keys(a), t) && t.buf == a && Idle(t)
    requires Leads(t, su, moves, u) && u == t.(cur := n)
    ensures Leads(st, su, Keys(a) + moves, u) && Idle(u) && u.buf == a[..n] + a[n..] && u.cur == |a[..n]|
  {
    hide Consistent, SetupOk, Run, Plain;
    Chain(st, su, Keys(a), t, moves, u);
  }

  lemma TypedFirst(st: State, su: Setup, a: string) returns (t: State)
    requires EmptyLine(st, su) && Plain(a) && |a| <= su.max
    ensures Leads(st, su, Keys(a), t) && Idle(t) && t.buf == a && t.cur == |a| && Consistent(t, su)
  {
    hide SetupOk, Run, Plain, AllPlain;
    t := TypedLeads(st, su, "", "", a);
    assert "" + a + "" == a;
  }

  /** Pos1 leads to the beginning of the input, End behind it. */
  lemma InsertedInFront(st: State, su: Setup, a: string, b: string)
    requires EmptyLine(st, su) && Plain(a) && Plain(b) && |a| + |b| <= su.max
    ensures Enters(st, su, Keys(a) + Once(Pos1) + Keys(b) + Once(Return), b + a)
    ensures Enters(st, su, Keys(a) + (Once(Pos1) + Once(End)) + Keys(b) + Once(Return), a + b)
  {
    hide Consistent, SetupOk, Run, Plain, Next, Leads, Enters, Once, Keys;
    Ends(a, b);
    var t := TypedFirst(st, su, a);
    var u := Next(t, Pos1, su);
    StaysConsistent(t, Pos1, su);
    var v := Next(u, End, su);
    CursorKeys(t, su);
    KeyLeads(t, su, Pos1);
    KeyLeads(u, su, End);
    Chain(t, su, Once(Pos1), u, Once(End), v);
    TypedAndMoved(st, su, a, Once(Pos1), 0, t, u);
    TypedAndMoved(st, su, a, Once(Pos1) + Once(End), |a|, t, v);
    TypedBetween(st, su, Keys(a) + Once(Pos1), u, "", a, b);
    TypedBetween(st, su, Keys(a) + (Once(Pos1) + Once(End)), v, a, "", b);
  }

  lemma Ends(a: string, b: string)
    ensures "" + b + a == b + a && a + b + "" == a + b
    ensures a[..0] == "" && a[0..] == a && a[..|a|] == a && a[|a|..] == "" && a + "" == a && "" + a == a
  {
  }

  lemma CursorKeys(t: State, su: Setup)
    requires Consistent(t, su) && SetupOk(su) && Idle(t)
    ensures Next(t, Pos1, su) == t.(cur := 0) && Consistent(Next(t, Pos1, su), su)
    ensures Next(Next(t, Pos1, su), End, su) == t.(cur := |t.buf|)
  {
    hide SetupOk, AllPlain, Plain;
  }

  /** Where the cursor stands n characters in front of the end of a. */
  function Back(a: string, n: nat): nat { if n <= |a| then |a| - n else 0 }

  /** n times arrow-left, up to the beginning, and as often arrow-right. */
  lemma InsertedInside(st: State, su: Setup, a: string, n: nat, b: string)
    requires EmptyLine(st, su) && Plain(a) && Plain(b) && |a| + |b| <= su.max
    ensures Enters(st, su, Keys(a) + Times(ArrowLeft, n) + Keys(b) + Once(Return), a[..Back(a, n)] + b + a[Back(a, n)..])
    ensures Enters(st, su, Keys(a) + (Times(ArrowLeft, n) + Times(ArrowRight, n)) + Keys(b) + Once(Return), a + b)
  {
    hide Consistent, SetupOk, Run, Plain, Next, Leads, Enters, Repeat, Times;
    var t := TypedFirst(st, su, a);
    var u := MovedBack(t, su, n);
    TimesLeads(u, su, ArrowRight, n);
    MovedRight(u, su, n);
    var v := t.(cur := |a|);
    Chain(t, su, Times(ArrowLeft, n), u, Times(ArrowRight, n), v);
    TypedAndMoved(st, su, a, Times(ArrowLeft, n), Back(a, n), t, u);
    TypedAndMoved(st, su, a, Times(ArrowLeft, n) + Times(ArrowRight, n), |a|, t, v);
    TypedBetween(st, su, Keys(a) + Times(ArrowLeft, n), u, a[..Back(a, n)], a[Back(a, n)..], b);
    TypedBetween(st, su, Keys(a) + (Times(ArrowLeft, n) + Times(ArrowRight, n)), v, a, "", b);
    assert a + b + "" == a + b;
  }

  lemma MovedBack(t: State, su: Setup, n: nat) returns (u: State)
    requires Consistent(t, su) && SetupOk(su) && Idle(t) && t.cur == |t.buf|
    ensures u == t.(cur := Back(t.buf, n)) && Consistent(u, su) && Leads(t, su, Times(ArrowLeft, n), u)
  {
    hide Consistent, SetupOk, Run, Next;
    u := Repeat(t, ArrowLeft, su, n);
    TimesLeads(t, su, ArrowLeft, n);
    MovedLeft(t, su, n);
  }

  /** Behind n times arrow-left, Del removes the character at the cursor and Backspace the one in front of it, if there is
      one. */
  lemma ErasedInside(st: State, su: Setup, a: string, n: nat)
    requires EmptyLine(st, su) && Plain(a) && |a| <= su.max
    ensures var i := Back(a, n);
            && Enters(st, su, Keys(a) + Times(ArrowLeft, n) + Once(Del) + Once(Return),
                      if i < |a| then a[..i] + a[i + 1..] else a)
            && Enters(st, su, Keys(a) + Times(ArrowLeft, n) + Once(Backspace) + Once(Return),
                      if i > 0 then a[..i - 1] + a[i..] else a)
  {
    hide Consistent, SetupOk, Run, Plain, Next, Leads, Enters, Repeat, Times, Once, Keys;
    var t := TypedFirst(st, su, a);
    var u := MovedBack(t, su, n);
    TypedAndMoved(st, su, a, Times(ArrowLeft, n), Back(a, n), t, u);
    assert a[..Back(a, n)] + a[Back(a, n)..] == a;
    KeyLeads(u, su, Del);
    KeyLeads(u, su, Backspace);
    EraseKeys(u, su);
    var before := Keys(a) + Times(ArrowLeft, n);
    Chain(st, su, before, u, Once(Del), Next(u, Del, su));
    Chain(st, su, before, u, Once(Backspace), Next(u, Backspace, su));
    Finish(st, su, before + Once(Del), Next(u, Del, su));
    Finish(st, su, before + Once(Backspace), Next(u, Backspace, su));
  }

  lemma EraseKeys(t: State, su: Setup)
    requires Consistent(t, su) && SetupOk(su) && Idle(t)
    ensures t.cur <= |t.buf|
    ensures Next(t, Del, su).buf == if t.cur < |t.buf| then t.buf[..t.cur] + t.buf[t.cur + 1..] else t.buf
    ensures Next(t, Backspace, su).buf == if t.cur > 0 then t.buf[..t.cur - 1] + t.buf[t.cur..] else t.buf
  {
    hide SetupOk, AllPlain, Plain;
  }

  /** What does not fit is dropped. */
  lemma TypedTooMuch(st: State, su: Setup, a: string)
    requires EmptyLine(st, su) && Plain(a)
    ensures Enters(st, su, Keys(a) + Once(Return), if |a| <= su.max then a else a[..su.max])
  {
    hide SetupOk, Run, Plain, AllPlain, Leads, Enters, Keys, Once;
    Ends(if |a| <= su.max then a else a[..su.max], "");
    var t := TypedLeads(st, su, "", "", a);
    Finish(st, su, Keys(a), t);
  }

  // ---------------------------------------------------------------- history and suggestions

  /** Entry i of the history is shown, and the user's own input kept. */
  ghost predicate ShowsEntry(t: State, su: Setup, i: nat, input: string)
  {
    && Consistent(t, su) && t.iteratingHistory && !t.suggestionsValid && t.historyIdx == i < |su.history|
    && t.buf == Cut(su.history[i], su.max) && t.cur == |t.buf| && t.backup == input
  }

  lemma ShowsEntryParts(t: State, su: Setup, i: nat, input: string)
    requires ShowsEntry(t, su, i, input)
    ensures Consistent(t, su) && i < |su.history|
  {
  }

  /** The index of the entry that is reached by k times arrow-up: backwards from the latest one, again and again. */
  function Older(k: nat, n: nat): (i: nat)
    requires k > 0 && n > 0
    ensures i < n
  {
    n - 1 - (k - 1) % n
  }

  lemma OlderStep(k: nat, n: nat)
    requires k > 0 && n > 0
    ensures Older(1, n) == n - 1
    ensures Older(k + 1, n) == if Older(k, n) == 0 then n - 1 else Older(k, n) - 1
  {
    NextIndex(k, n);
  }

  lemma DivMod(a: nat, n: nat, q: nat, r: nat)
    requires r < n && a == q * n + r
    ensures a % n == r
  {
    StreamSpec.DivUnique(a, q, n, r);
  }

  lemma {:induction false} UpShows(st: State, su: Setup, k: nat)
    requires Consistent(st, su) && SetupOk(su) && Idle(st) && su.useHistory && su.history != [] && k > 0
    ensures ShowsEntry(Repeat(st, ArrowUp, su, k), su, Older(k, |su.history|), st.buf)
    decreases k
  {
    hide SetupOk, AllPlain, Suggestions, Plain, Older, Cut;
    if k > 1 {
      UpShows(st, su, k - 1);
      OlderStep(k - 1, |su.history|);
    } else {
      NoRepetition(st, ArrowUp, su);
      OlderStep(1, |su.history|);
    }
    LastOne(st, ArrowUp, su, k - 1);
    StaysConsistent(Repeat(st, ArrowUp, su, k - 1), ArrowUp, su);
  }

  lemma {:induction false} DownShows(st: State, su: Setup, i: nat, input: string, j: nat)
    requires SetupOk(su) && ShowsEntry(st, su, i, input) && i + j < |su.history|
    ensures Consistent(st, su) && ShowsEntry(Repeat(st, ArrowDown, su, j), su, i + j, input)
    decreases j
  {
    hide SetupOk, AllPlain, Suggestions, Plain, Cut;
    if j > 0 {
      StaysConsistent(st, ArrowDown, su);
      DownShows(Next(st, ArrowDown, su), su, i + 1, input, j - 1);
    }
  }

  /** k times arrow-up and j times arrow-down show entry |history| - k + j (with k counted around the history); it can be
      edited and entered, cut to the room there is. */
  lemma HistoryEntered(st: State, su: Setup, k: nat, j: nat, b: string)
    requires Consistent(st, su) && SetupOk(su) && Idle(st) && su.useHistory && su.history != [] && k > 0
    requires Older(k, |su.history|) + j < |su.history| && Plain(b)
    requires var s := su.history[Older(k, |su.history|) + j]; |b| <= su.max - |Cut(s, su.max)|
    ensures var s := su.history[Older(k, |su.history|) + j];
            && Enters(st, su, Times(ArrowUp, k) + Times(ArrowDown, j) + Once(Return), Cut(s, su.max))
            && Enters(st, su, Times(ArrowUp, k) + Times(ArrowDown, j) + Once(End) + Keys(b) + Once(Return), Cut(s, su.max) + b)
  {
    hide Consistent, SetupOk, Run, Plain, Next, Leads, Enters, Repeat, Times, Once, Keys, Older, Cut, Idle;
    var i := Older(k, |su.history|);
    var t := Repeat(st, ArrowUp, su, k);
    UpShows(st, su, k);
    DownShows(t, su, i, st.buf, j);
    var u := Repeat(t, ArrowDown, su, j);
    TimesLeads(st, su, ArrowUp, k);
    TimesLeads(t, su, ArrowDown, j);
    var events := Times(ArrowUp, k) + Times(ArrowDown, j);
    Chain(st, su, Times(ArrowUp, k), t, Times(ArrowDown, j), u);
    Finish(st, su, events, u);
    var v := Next(u, End, su);
    KeyLeads(u, su, End);
    EndsIteration(u, su, i + j, st.buf);
    Chain(st, su, events, u, Once(End), v);
    Ends(u.buf, b);
    TypedBetween(st, su, events + Once(End), v, u.buf, "", b);
  }

  lemma EndsIteration(t: State, su: Setup, i: nat, input: string)
    requires ShowsEntry(t, su, i, input)
    ensures Consistent(t, su) && Idle(Next(t, End, su)) && Next(t, End, su).buf == t.buf && Next(t, End, su).cur == |t.buf|
  {
    hide AllPlain, Plain, Cut;
  }

  /** Every other key acts as if the iteration had been ended before, with the input that is shown. */
  lemma OtherKeyEnds(t: State, su: Setup, key: Key)
    requires Consistent(t, su) && t.iteratingHistory != t.suggestionsValid
    ensures var u := t.(iteratingHistory := false, suggestionsValid := false, backup := "");
            && Consistent(u, su)
            && (t.iteratingHistory && key !in {ArrowUp, ArrowDown, Return, NeedMoreData} ==> Next(t, key, su) == Next(u, key, su))
            && (t.suggestionsValid && key !in {Tab, Return, NeedMoreData} ==> Next(t, key, su) == Next(u, key, su))
            && (key in {Return, NeedMoreData} ==> Next(t, key, su) == t)
            && Next(u, OtherCommand, su) == u && Next(u, ArrowDown, su) == u
  {
    hide AllPlain, Suggestions, AfterBackspace, AfterDel, AfterMove, AfterChars, AfterUp, AfterTab;
  }

  /** Suggestion c of l is shown, or the user's own input behind the last one. */
  ghost predicate ShowsSuggestion(t: State, su: Setup, l: seq<Suggestion>, c: nat, input: string)
  {
    && Consistent(t, su) && t.suggestionsValid && !t.iteratingHistory && t.suggestions == l && t.suggestionIdx == c <= |l|
    && t.buf == Cut(if c < |l| then l[c].name else input, su.max) && t.cur == |t.buf| && t.backup == input
  }

  lemma TabStep(t: State, su: Setup, l: seq<Suggestion>, c: nat, input: string)
    requires SetupOk(su) && ShowsSuggestion(t, su, l, c, input) && su.useHistory && su.names != []
    ensures Consistent(t, su) && ShowsSuggestion(Next(t, Tab, su), su, l, if c == |l| then 0 else c + 1, input)
  {
    hide SetupOk, AllPlain, Plain, Cut, Suggestions;
    StaysConsistent(t, Tab, su);
  }

  /** What the n-th time of Tab shows: one suggestion after the other, behind the last one the user's own input, and then the
      first one again. */
  lemma {:induction false} TabShows(st: State, su: Setup, i: nat)
    requires Consistent(st, su) && SetupOk(su) && Idle(st) && su.useHistory && su.names != []
    ensures var l, t := Suggestions(st.buf, su.names), Repeat(st, Tab, su, i + 1);
            ShowsSuggestion(t, su, l, i % (|l| + 1), st.buf) && Leads(st, su, Times(Tab, i + 1), t)
    decreases i
  {
    hide SetupOk, AllPlain, Plain, Cut, Suggestions, Leads;
    var l := Suggestions(st.buf, su.names);
    NextIndex(i, |l| + 1);
    LastOne(st, Tab, su, i);
    TimesLeads(st, su, Tab, i + 1);
    if i > 0 {
      TabShows(st, su, i - 1);
      TabStep(Repeat(st, Tab, su, i), su, l, (i - 1) % (|l| + 1), st.buf);
    } else {
      NoRepetition(st, Tab, su);
      StaysConsistent(st, Tab, su);
    }
  }

  lemma NextIndex(i: nat, n: nat)
    requires n > 0
    ensures i % n == if i == 0 || (i - 1) % n == n - 1 then 0 else (i - 1) % n + 1
  {
    if i > 0 {
      var q, r := (i - 1) / n, (i - 1) % n;
      assert i - 1 == q * n + r;
      if r + 1 < n {
        DivMod(i, n, q, r + 1);
      } else {
        assert i == (q + 1) * n;
        DivMod(i, n, q + 1, 0);
      }
    }
  }
}
