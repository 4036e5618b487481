/**
 The command history and the list of suggestions of the command line interface (src/cli/CLI.cpp).
 */
module CliLists {
  import Levenshtein

  // ---------------------------------------------------------------- history

  predicate NoDuplicates(h: seq<string>) { forall i, j :: 0 <= i < j < |h| ==> h[i] != h[j] }

  /** h without x. */
  function Without(h: seq<string>, x: string): seq<string>
  {
    if h == [] then [] else if h[0] == x then Without(h[1..], x) else [h[0]] + Without(h[1..], x)
  }

  /** x becomes the latest entry; the oldest one gives way if there are already `depth` others. */
  function Remembered(h: seq<string>, x: string, depth: nat): seq<string>
  {
    var others := Without(h, x);
    (if |others| >= depth && others != [] then others[1..] else others) + [x]
  }

  lemma {:induction false} WithoutIs(h: seq<string>, x: string, i: nat)
    requires NoDuplicates(h) && i < |h| && h[i] == x
    ensures Without(h, x) == h[..i] + h[i + 1..]
    decreases i
  {
    if i == 0 {
      Absent(h[1..], x);
    } else {
      WithoutIs(h[1..], x, i - 1);
    }
  }

  lemma {:induction false} Absent(h: seq<string>, x: string)
    requires forall i :: 0 <= i < |h| ==> h[i] != x
    ensures Without(h, x) == h
  {
    if h != [] { Absent(h[1..], x); }
  }

  /** AddInputBufferToHistory. */
  method AddToHistory(history: seq<string>, input: string, historyDepth: nat) returns (h: seq<string>)
    requires NoDuplicates(history) && |history| <= historyDepth && 0 < historyDepth
    ensures h == Remembered(history, input, historyDepth)
    ensures input !in history ==> h == (if |history| == historyDepth then history[1..] else history) + [input]
    ensures forall i :: 0 <= i < |history| && history[i] == input ==> h == history[..i] + history[i + 1..] + [input]
    ensures NoDuplicates(h) && |h| <= historyDepth && h[|h| - 1] == input
  {
    h := history;
    // is the input already in the history?
    for i := 0 to |h|
      invariant forall k :: 0 <= k < i ==> h[k] != input
    {
      if h[i] == input {
        WithoutIs(h, input, i);
        if i != |h| - 1 {
          h := h[..i] + h[i + 1..] + [input];
        } else {
          assert h == h[..i] + h[i + 1..] + [input];
        }
        return;
      }
    }
    Absent(h, input);
    if |h| == historyDepth { h := h[1..]; }
    h := h + [input];
  }

  // ---------------------------------------------------------------- suggestions

  datatype Suggestion = Suggestion(name: string, distance: nat)

  const maximumSuggestions: nat := 6

  predicate Sorted(l: seq<Suggestion>) { forall i, j :: 0 <= i < j < |l| ==> l[i].distance <= l[j].distance }

  /** c goes behind everything that is at least as close. */
  function Insert(l: seq<Suggestion>, c: Suggestion): seq<Suggestion>
  {
    if l == [] || l[0].distance > c.distance then [c] + l else [l[0]] + Insert(l[1..], c)
  }

  /** Stable sort by distance. */
  function SortAll(cs: seq<Suggestion>): seq<Suggestion>
  {
    if cs == [] then [] else Insert(SortAll(cs[..|cs| - 1]), cs[|cs| - 1])
  }

  function First(l: seq<Suggestion>, n: nat): seq<Suggestion> { if |l| <= n then l else l[..n] }

  lemma {:induction false} InsertSorted(l: seq<Suggestion>, c: Suggestion)
    requires Sorted(l)
    ensures Sorted(Insert(l, c)) && |Insert(l, c)| == |l| + 1
    ensures l != [] ==> Insert(l, c)[0] == l[0] || Insert(l, c)[0] == c
  {
    if l != [] && l[0].distance <= c.distance {
      InsertSorted(l[1..], c);
      SortedCons(l[0], Insert(l[1..], c));
    }
  }

  lemma SortedCons(x: Suggestion, l: seq<Suggestion>)
    requires Sorted(l) && (l != [] ==> x.distance <= l[0].distance)
    ensures Sorted([x] + l)
  {
  }

  lemma {:induction false} InsertKeeps(l: seq<Suggestion>, c: Suggestion)
    ensures multiset(Insert(l, c)) == multiset(l) + multiset{c}
  {
    if l != [] {
      assert l == [l[0]] + l[1..];
      if l[0].distance <= c.distance { InsertKeeps(l[1..], c); }
    }
  }

  lemma EmptySorted()
    ensures Sorted([])
  {
  }

  /** The list of suggestions before truncation is sorted and holds every command. */
  lemma {:induction false} SortAllIs(cs: seq<Suggestion>)
    ensures Sorted(SortAll(cs)) && multiset(SortAll(cs)) == multiset(cs) && |SortAll(cs)| == |cs|
  {
    hide Sorted, Insert;
    EmptySorted();
    if cs != [] {
      SortAllIs(cs[..|cs| - 1]);
      InsertSorted(SortAll(cs[..|cs| - 1]), cs[|cs| - 1]);
      InsertKeeps(SortAll(cs[..|cs| - 1]), cs[|cs| - 1]);
      assert cs == cs[..|cs| - 1] + [cs[|cs| - 1]];
    }
  }

  /** Truncating first and inserting then is inserting first and truncating then. */
  lemma {:induction false} InsertFirst(l: seq<Suggestion>, c: Suggestion, n: nat)
    ensures First(Insert(First(l, n), c), n) == First(Insert(l, c), n)
  {
    if |l| > n {
      if n > 0 && l[0].distance <= c.distance {
        InsertFirst(l[1..], c, n - 1);
        assert First(l, n)[1..] == First(l[1..], n - 1);
        FirstCons(l[0], Insert(First(l[1..], n - 1), c), n);
        FirstCons(l[0], Insert(l[1..], c), n);
      } else if n > 0 {
        assert First([c] + First(l, n), n) == First([c] + l, n);
      } else {
        assert First(Insert([], c), 0) == First(Insert(l, c), 0) == [];
      }
    }
  }

  lemma FirstCons(x: Suggestion, l: seq<Suggestion>, n: nat)
    requires n > 0
    ensures First([x] + l, n) == [x] + First(l, n - 1)
  {
  }

  lemma {:induction false} InsertAt(l: seq<Suggestion>, c: Suggestion, i: nat)
    requires i <= |l| && (forall k :: 0 <= k < i ==> l[k].distance <= c.distance) && (i < |l| ==> l[i].distance > c.distance)
    ensures Insert(l, c) == l[..i] + [c] + l[i..]
    decreases i
  {
    if i > 0 {
      InsertAt(l[1..], c, i - 1);
      assert [l[0]] + l[1..][..i - 1] == l[..i];
    }
  }

  /** InsertIntoSuggestionList. */
  method InsertIntoSuggestionList(suggestions: seq<Suggestion>, c: Suggestion) returns (l: seq<Suggestion>)
    requires |suggestions| <= maximumSuggestions
    ensures l == First(Insert(suggestions, c), maximumSuggestions)
  {
    l := suggestions;
    for i := 0 to |l|
      invariant forall k :: 0 <= k < i ==> l[k].distance <= c.distance
    {
      if l[i].distance > c.distance {
        InsertAt(l, c, i);
        l := l[..i] + [c] + l[i..];
        if |l| > maximumSuggestions { l := l[..|l| - 1]; }
        return;
      }
    }
    InsertAt(l, c, |l|);
    assert l[..|l|] + [c] + l[|l|..] == l + [c];
    if |l| < maximumSuggestions {
      l := l + [c];
    } else {
      assert (l + [c])[..maximumSuggestions] == l;
    }
  }

  /** A command with its distance to the input, as far as it fits a byte. */
  function Rated(input: string, name: string): Suggestion
  {
    var d := Levenshtein.Distance(input, name, false);
    Suggestion(name, if d > 255 then 255 else d)
  }

  function RatedAll(input: string, names: seq<string>): (r: seq<Suggestion>)
    ensures |r| == |names| && forall i :: 0 <= i < |r| ==> r[i] == Rated(input, names[i])
  {
    seq(|names|, i requires 0 <= i < |names| => Rated(input, names[i]))
  }

  /** The six closest commands, closest first, in the order of registration where equally close. */
  function Suggestions(input: string, names: seq<string>): seq<Suggestion>
  {
    First(SortAll(RatedAll(input, names)), maximumSuggestions)
  }

  /** The entries at distance d. */
  function At(l: seq<Suggestion>, d: nat): seq<Suggestion>
  {
    if l == [] then [] else (if l[0].distance == d then [l[0]] else []) + At(l[1..], d)
  }

  lemma {:induction false} AtAppend(a: seq<Suggestion>, c: Suggestion, d: nat)
    ensures At(a + [c], d) == At(a, d) + if c.distance == d then [c] else []
  {
    if a == [] {
      assert a + [c] == [c] && [c][1..] == [];
    } else {
      assert (a + [c])[1..] == a[1..] + [c];
      AtAppend(a[1..], c, d);
    }
  }

  lemma {:induction false} NoneAt(l: seq<Suggestion>, d: nat)
    requires forall i :: 0 <= i < |l| ==> l[i].distance > d
    ensures At(l, d) == []
  {
    if l != [] { NoneAt(l[1..], d); }
  }

  lemma {:induction false} InsertAfterEquals(l: seq<Suggestion>, c: Suggestion, d: nat)
    requires Sorted(l)
    ensures At(Insert(l, c), d) == At(l, d) + if c.distance == d then [c] else []
  {
    if l == [] {
    } else if l[0].distance > c.distance {
      if d == c.distance { NoneAt(l, d); }
      assert ([c] + l)[1..] == l;
    } else {
      InsertAfterEquals(l[1..], c, d);
      assert ([l[0]] + Insert(l[1..], c))[1..] == Insert(l[1..], c);
    }
  }

  /** What is equally close stays in order. */
  lemma {:induction false} SortStable(cs: seq<Suggestion>, d: nat)
    ensures At(SortAll(cs), d) == At(cs, d)
  {
    hide Sorted, Insert, At;
    if cs != [] {
      var a, c := cs[..|cs| - 1], cs[|cs| - 1];
      SortStable(a, d);
      SortAllIs(a);
      InsertAfterEquals(SortAll(a), c, d);
      AtAppend(a, c, d);
      assert cs == a + [c];
    }
  }

  /** With the commands that are left out behind it, the list is all commands sorted by distance, those that are equally
      close in the order of registration. */
  lemma SuggestionsAreClosest(input: string, names: seq<string>)
    ensures var all, l := RatedAll(input, names), Suggestions(input, names);
            && |all| == |names|
            && (forall i :: 0 <= i < |all| ==>
                  && all[i].name == names[i]
                  && var d := Levenshtein.Distance(input, names[i], false); all[i].distance == if d > 255 then 255 else d)
            && |l| == (if |names| < 6 then |names| else 6)
            && exists rest :: Sorted(l + rest) && multiset(l + rest) == multiset(all) && forall d :: At(l + rest, d) == At(all, d)
  {
    hide SortAll, Sorted, At, Levenshtein.Distance;
    var all := RatedAll(input, names);
    var sorted := SortAll(all);
    SortAllIs(all);
    forall d ensures At(sorted, d) == At(all, d) { SortStable(all, d); }
    Split(sorted, maximumSuggestions);
  }

  lemma Split(l: seq<Suggestion>, n: nat)
    ensures exists rest :: First(l, n) + rest == l
  {
    if |l| <= n {
      assert First(l, n) + [] == l;
    } else {
      assert First(l, n) + l[n..] == l;
    }
  }

  /** BuildListOfSuggestions. */
  method BuildListOfSuggestions(input: string, names: seq<string>) returns (suggestions: seq<Suggestion>)
    requires |input| < Levenshtein.SIZE_MAX && forall i :: 0 <= i < |names| ==> |names[i]| < Levenshtein.SIZE_MAX
    ensures suggestions == Suggestions(input, names)
  {
    hide SortAll, Insert, Levenshtein.Distance;
    suggestions := [];
    NothingToSort();
    ghost var all := RatedAll(input, names);
    assert all[..0] == [];
    for i := 0 to |names|
      invariant suggestions == First(SortAll(all[..i]), maximumSuggestions)
    {
      var r := Levenshtein.LevenshteinDistance(input, names[i], false);
      var distance := r.distance;
      if distance > 255 { distance := 255; }
      ghost var before := SortAll(all[..i]);
      NextToSort(all, i);
      InsertFirst(before, all[i], maximumSuggestions);
      suggestions := InsertIntoSuggestionList(suggestions, Suggestion(names[i], distance));
    }
    assert all[..|names|] == all;
  }

  lemma NothingToSort()
    ensures SortAll([]) == []
  {
  }

  lemma NextToSort(all: seq<Suggestion>, i: nat)
    requires i < |all|
    ensures SortAll(all[..i + 1]) == Insert(SortAll(all[..i]), all[i])
  {
    assert all[..i + 1][..i] == all[..i];
  }
}
