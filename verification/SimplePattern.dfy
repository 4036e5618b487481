/**
 TestSimplePatternMatch (src/string/tools.cpp): wildcards '*' and '?', escapes, and a search that restarts behind the
 last '*'. The function never gives up a match of the last part of the pattern once it has found one, so it is not
 always exact; the lemmas say when it is.
 */
module SimplePattern {
  import opened Ascii

  datatype Token = Lit(c: char) | Any | Star | Bad  // Bad: "**", a trailing '\' or an invalid escape sequence

  datatype Result = Match | NoMatch | InvalidArgument

  function Fold(c: char, caseSensitive: bool): char { if caseSensitive then c else ToUpper(c) }

  predicate Special(c: char) { c == '*' || c == '?' || c == '\\' }

  /** The pattern from position j on; nothing is read behind a malformed part. */
  function Tokens(p: string, j: nat, behindStar: bool): (r: seq<Token>)
    decreases |p| - j
  {
    if j >= |p| then []
    else if p[j] == '*' then if behindStar then [Bad] else [Star] + Tokens(p, j + 1, true)
    else if p[j] == '?' then [Any] + Tokens(p, j + 1, false)
    else if p[j] == '\\' then
      if j + 1 < |p| && Special(p[j + 1]) then [Lit(p[j + 1])] + Tokens(p, j + 2, false) else [Bad]
    else [Lit(p[j])] + Tokens(p, j + 1, false)
  }

  predicate Fits(t: Token, c: char, caseSensitive: bool)
  {
    t == Any || (t.Lit? && Fold(t.c, caseSensitive) == Fold(c, caseSensitive))
  }

  // ---------------------------------------------------------------- what a pattern means

  /** s from position i on matches the pattern. */
  predicate Matches(ts: seq<Token>, s: string, i: nat, cs: bool)
    decreases |ts|
  {
    if ts == [] then i == |s|
    else if ts[0] == Star then exists k: nat :: i <= k <= |s| && Matches(ts[1..], s, k, cs)
    else i < |s| && Fits(ts[0], s[i], cs) && Matches(ts[1..], s, i + 1, cs)
  }

  predicate WellFormed(ts: seq<Token>) { Bad !in ts }

  predicate HasStar(ts: seq<Token>) { Star in ts }

  predicate EndsInStar(ts: seq<Token>) { ts != [] && ts[|ts| - 1] == Star }

  // ---------------------------------------------------------------- what the function computes

  datatype Attempted = Final(r: Result) | Retry

  /** Compares from position i on, up to a mismatch. */
  function Attempt(ts: seq<Token>, s: string, i: nat, cs: bool): Attempted
    decreases |ts|, 0
  {
    if ts == [] then Final(if i >= |s| then Match else NoMatch)
    else if ts[0] == Star then Final(Behind(ts[1..], s, i, cs))
    else if ts[0] == Bad then Final(InvalidArgument)
    else if i >= |s| then Final(NoMatch)
    else if Fits(ts[0], s[i], cs) then Attempt(ts[1..], s, i + 1, cs)
    else Retry
  }

  /** Behind a '*': tries position e and the ones after it. */
  function Behind(ts: seq<Token>, s: string, e: nat, cs: bool): Result
    decreases |ts|, 1 + (if e <= |s| then |s| - e else 0)
  {
    if ts == [] then Match
    else if ts[0] == Star then InvalidArgument
    else
      match Attempt(ts, s, e, cs)
      case Final(r) => r
      case Retry => if e >= |s| then NoMatch else Behind(ts, s, e + 1, cs)
  }

  function Outcome(a: Attempted): Result { if a == Retry then NoMatch else a.r }

  function Test(ts: seq<Token>, s: string, cs: bool): Result { Outcome(Attempt(ts, s, 0, cs)) }

  // ---------------------------------------------------------------- soundness

  lemma {:induction false} AttemptSound(ts: seq<Token>, s: string, i: nat, cs: bool)
    requires i <= |s| && Attempt(ts, s, i, cs) == Final(Match)
    ensures Matches(ts, s, i, cs)
    decreases |ts|, 0
  {
    if ts != [] {
      if ts[0] == Star { BehindSound(ts[1..], s, i, cs); } else { AttemptSound(ts[1..], s, i + 1, cs); }
    }
  }

  lemma {:induction false} BehindSound(ts: seq<Token>, s: string, e: nat, cs: bool)
    requires e <= |s| && Behind(ts, s, e, cs) == Match
    ensures exists k: nat :: e <= k <= |s| && Matches(ts, s, k, cs)
    decreases |ts|, 1 + |s| - e
  {
    if ts == [] {
      assert Matches(ts, s, |s|, cs);
    } else if Attempt(ts, s, e, cs) == Retry {
      BehindSound(ts, s, e + 1, cs);
    } else {
      AttemptSound(ts, s, e, cs);
    }
  }

  // ---------------------------------------------------------------- completeness, up to a matching proper prefix

  /** Some proper prefix of s matches from position i on. */
  ghost predicate PrefixMatches(ts: seq<Token>, s: string, i: nat, cs: bool)
  {
    exists q: nat :: q < |s| && Matches(ts, s[..q], i, cs)
  }

  lemma {:induction false} NotRetry(ts: seq<Token>, s: string, i: nat, q: nat, cs: bool)
    requires q <= |s| && Matches(ts, s[..q], i, cs)
    ensures Attempt(ts, s, i, cs) != Retry
    decreases |ts|
  {
    if ts != [] && ts[0] != Star && ts[0] != Bad { NotRetry(ts[1..], s, i + 1, q, cs); }
  }

  /** If the comparison ends without a match, there is no match further behind either, unless a proper prefix matches. */
  lemma {:induction false} AttemptComplete(ts: seq<Token>, s: string, i: nat, k: nat, cs: bool)
    requires i <= k <= |s| && WellFormed(ts) && Attempt(ts, s, i, cs) == Final(NoMatch) && Matches(ts, s, k, cs)
    requires StarsApart(ts)
    ensures PrefixMatches(ts, s, i, cs) && !EndsInStar(ts)
    decreases |ts|, 0
  {
    if ts == [] {
      assert Matches(ts, s[..i], i, cs);
    } else if ts[0] == Star {
      var k': nat :| k <= k' <= |s| && Matches(ts[1..], s, k', cs);
      BehindComplete(ts[1..], s, i, k', cs);
      var q: nat, b: nat :| q < |s| && i <= b <= q && Matches(ts[1..], s[..q], b, cs);
      assert Matches(ts, s[..q], i, cs);
    } else {
      AttemptComplete(ts[1..], s, i + 1, k + 1, cs);
      var q: nat :| q < |s| && Matches(ts[1..], s[..q], i + 1, cs);
      MatchesInside(ts[1..], s[..q], i + 1, cs);
      assert Matches(ts, s[..q], i, cs);
    }
  }

  lemma {:induction false} MatchesInside(ts: seq<Token>, s: string, i: nat, cs: bool)
    requires Matches(ts, s, i, cs)
    ensures i <= |s|
  {
  }

  lemma {:induction false} BehindComplete(ts: seq<Token>, s: string, e: nat, k: nat, cs: bool)
    requires e <= k <= |s| && WellFormed(ts) && Matches(ts, s, k, cs) && StarsApart([Star] + ts)
    requires Behind(ts, s, e, cs) != Match
    ensures exists q: nat, b: nat :: q < |s| && e <= b <= q && Matches(ts, s[..q], b, cs)
    ensures !EndsInStar(ts)
    decreases |ts|, 1 + |s| - e
  {
    assert ([Star] + ts)[1..] == ts;
    if ts != [] {
      NextNotStar(ts);
      NoInvalid(ts, s, e, cs);
      if Attempt(ts, s, e, cs) == Retry {
        if e == k {
          assert s[..|s|] == s;
          NotRetry(ts, s, e, |s|, cs);
        }
        BehindComplete(ts, s, e + 1, k, cs);
      } else {
        AttemptComplete(ts, s, e, k, cs);
        var q: nat :| q < |s| && Matches(ts, s[..q], e, cs);
        MatchesInside(ts, s[..q], e, cs);
      }
    }
  }

  /** No two stars in a row: what Tokens yields for a well-formed pattern. */
  predicate StarsApart(ts: seq<Token>) { forall i :: 0 <= i < |ts| - 1 && ts[i] == Star ==> ts[i + 1] != Star }

  lemma NextNotStar(ts: seq<Token>)
    requires ts != [] && StarsApart([Star] + ts)
    ensures ts[0] != Star
  {
    var t := [Star] + ts;
    assert t[0] == Star && t[1] == ts[0];
  }

  lemma {:induction false} NoInvalid(ts: seq<Token>, s: string, i: nat, cs: bool)
    requires WellFormed(ts) && StarsApart(ts)
    ensures Attempt(ts, s, i, cs) != Final(InvalidArgument)
    decreases |ts|, 0
  {
    if ts != [] {
      assert StarsApart(ts[1..]) && WellFormed(ts[1..]);
      if ts[0] == Star {
        assert [Star] + ts[1..] == ts;
        NoInvalidBehind(ts[1..], s, i, cs);
      } else {
        NoInvalid(ts[1..], s, i + 1, cs);
      }
    }
  }

  lemma {:induction false} NoInvalidBehind(ts: seq<Token>, s: string, e: nat, cs: bool)
    requires WellFormed(ts) && StarsApart([Star] + ts)
    ensures Behind(ts, s, e, cs) != InvalidArgument
    decreases |ts|, 1 + (if e <= |s| then |s| - e else 0)
  {
    assert ([Star] + ts)[1..] == ts;
    if ts != [] {
      NextNotStar(ts);
      NoInvalid(ts, s, e, cs);
      if e < |s| { NoInvalidBehind(ts, s, e + 1, cs); }
    }
  }

  // ---------------------------------------------------------------- a match that ends early is final

  /** If some part of s that ends before s matches, and the pattern does not end in '*', the comparison fails. */
  lemma {:induction false} AttemptEarly(ts: seq<Token>, s: string, i: nat, k: nat, q: nat, cs: bool)
    requires i <= k && q < |s| && Matches(ts, s[..q], k, cs) && !EndsInStar(ts)
    ensures Attempt(ts, s, i, cs) != Final(Match)
    decreases |ts|, 0
  {
    MatchesInside(ts, s[..q], k, cs);
    if ts != [] && ts[0] != Bad {
      if ts[0] == Star {
        var k': nat :| k <= k' <= q && Matches(ts[1..], s[..q], k', cs);
        BehindEarly(ts[1..], s, i, k', q, cs);
      } else {
        AttemptEarly(ts[1..], s, i + 1, k + 1, q, cs);
      }
    }
  }

  lemma {:induction false} BehindEarly(ts: seq<Token>, s: string, e: nat, k: nat, q: nat, cs: bool)
    requires e <= k && q < |s| && Matches(ts, s[..q], k, cs) && ts != [] && !EndsInStar(ts)
    ensures Behind(ts, s, e, cs) != Match
    decreases |ts|, 1 + (if e <= |s| then |s| - e else 0)
  {
    MatchesInside(ts, s[..q], k, cs);
    if ts[0] != Star {
      AttemptEarly(ts, s, e, k, q, cs);
      if Attempt(ts, s, e, cs) == Retry && e < |s| {
        if e == k { NotRetry(ts, s, e, q, cs); }
        BehindEarly(ts, s, e + 1, k, q, cs);
      }
    }
  }

  // ---------------------------------------------------------------- the theorem

  lemma {:induction false} NoStarExact(ts: seq<Token>, s: string, i: nat, cs: bool)
    requires i <= |s| && WellFormed(ts) && !HasStar(ts)
    ensures Outcome(Attempt(ts, s, i, cs)) == if Matches(ts, s, i, cs) then Match else NoMatch
    decreases |ts|
  {
    if ts != [] {
      assert Bad != ts[0] && Star != ts[0];
      if i < |s| { NoStarExact(ts[1..], s, i + 1, cs); }
    }
  }

  /** When a well-formed pattern is reported to match: exactly when it does and, if it holds a '*' but does not end in
      one, no proper prefix of the string matches as well. */
  lemma TestIs(ts: seq<Token>, s: string, cs: bool)
    requires WellFormed(ts) && StarsApart(ts)
    ensures Test(ts, s, cs) != InvalidArgument
    ensures Test(ts, s, cs) == Match <==>
              && Matches(ts, s, 0, cs)
              && (HasStar(ts) && !EndsInStar(ts) ==> !PrefixMatches(ts, s, 0, cs))
  {
    NoInvalid(ts, s, 0, cs);
    if !HasStar(ts) {
      NoStarExact(ts, s, 0, cs);
    } else {
      var a := Attempt(ts, s, 0, cs);
      if a == Final(Match) {
        AttemptSound(ts, s, 0, cs);
        if !EndsInStar(ts) && PrefixMatches(ts, s, 0, cs) {
          var q: nat :| q < |s| && Matches(ts, s[..q], 0, cs);
          AttemptEarly(ts, s, 0, 0, q, cs);
        }
      } else if Matches(ts, s, 0, cs) {
        assert s[..|s|] == s;
        NotRetry(ts, s, 0, |s|, cs);
        assert a.Final? && a.r == NoMatch;
        AttemptComplete(ts, s, 0, 0, cs);
      }
    }
  }

  /** A string made for a pattern: one character per token that needs one. */
  function Sample(ts: seq<Token>): string
  {
    if ts == [] then ""
    else if ts[0].Star? || ts[0].Bad? then Sample(ts[1..])
    else [if ts[0].Lit? then ts[0].c else '?'] + Sample(ts[1..])
  }

  /** What stands behind the last '*'. */
  function LastPart(ts: seq<Token>): (r: seq<Token>)
    ensures |r| <= |ts| && ts[|ts| - |r|..] == r
    ensures !HasStar(r)
    decreases |ts|
  {
    if !HasStar(ts) then ts else LastPart(ts[1..])
  }

  /** The sample matches, also with a second copy of its last part behind it if there is a '*'. */
  lemma {:induction false} SampleMatches(ts: seq<Token>, pre: string, tail: string, s: string, cs: bool)
    requires WellFormed(ts) && s == pre + Sample(ts) + tail
    requires tail == "" || (HasStar(ts) && tail == Sample(LastPart(ts)))
    ensures Matches(ts, s, |pre|, cs)
    decreases |ts|
  {
    hide WellFormed, HasStar, LastPart, Matches, Sample;
    SampleStep(ts);
    if ts == [] {
      NoStarInNothing();
      assert s == pre;
      MatchEnd(s, cs);
    } else if ts[0] == Star {
      TailWellFormed(ts);
      var head := if tail != "" && !HasStar(ts[1..]) then pre + Sample(ts[1..]) else pre;
      if tail != "" && !HasStar(ts[1..]) {
        // the star takes the first copy of the last part
        TwoCopies(pre, Sample(ts[1..]));
        SampleMatches(ts[1..], head, "", s, cs);
      } else {
        SampleMatches(ts[1..], pre, tail, s, cs);
      }
      assert |pre| <= |head| <= |s|;
      MatchStar(ts, s, |pre|, |head|, cs);
    } else {
      TailWellFormed(ts);
      var c := [if ts[0].Lit? then ts[0].c else '?'];
      var rest := Sample(ts[1..]);
      Regrouped(pre, c, rest, tail);
      SampleMatches(ts[1..], pre + c, tail, s, cs);
      MatchToken(ts, s, |pre|, cs);
    }
  }

  lemma TwoCopies(pre: string, b: string)
    ensures pre + b + b == (pre + b) + b + ""
  {
  }

  lemma Regrouped(pre: string, c: string, rest: string, tail: string)
    requires |c| == 1
    ensures pre + (c + rest) + tail == pre + c + rest + tail && |pre + c| == |pre| + 1
    ensures (pre + (c + rest) + tail)[|pre|] == c[0]
  {
    assert pre + (c + rest) == pre + c + rest;
  }

  lemma SampleStep(ts: seq<Token>)
    requires WellFormed(ts)
    ensures ts == [] ==> Sample(ts) == ""
    ensures ts != [] && ts[0] == Star ==> Sample(ts) == Sample(ts[1..])
    ensures ts != [] && ts[0] != Star ==> Sample(ts) == [if ts[0].Lit? then ts[0].c else '?'] + Sample(ts[1..])
  {
  }

  lemma MatchEnd(s: string, cs: bool)
    ensures Matches([], s, |s|, cs)
  {
  }

  lemma MatchStar(ts: seq<Token>, s: string, i: nat, k: nat, cs: bool)
    requires ts != [] && ts[0] == Star && i <= k <= |s| && Matches(ts[1..], s, k, cs)
    ensures Matches(ts, s, i, cs)
  {
  }

  lemma MatchToken(ts: seq<Token>, s: string, i: nat, cs: bool)
    requires ts != [] && ts[0] != Star && i < |s| && Fits(ts[0], s[i], cs) && Matches(ts[1..], s, i + 1, cs)
    ensures Matches(ts, s, i, cs)
  {
  }

  lemma NoStarInNothing()
    ensures !HasStar([])
  {
  }

  lemma TailWellFormed(ts: seq<Token>)
    requires ts != [] && WellFormed(ts)
    ensures WellFormed(ts[1..]) && ts[0] != Bad
    ensures ts[0] != Star ==> HasStar(ts[1..]) == HasStar(ts) && (HasStar(ts) ==> LastPart(ts[1..]) == LastPart(ts))
    ensures ts[0] == Star ==> HasStar(ts) && LastPart(ts) == LastPart(ts[1..])
    ensures !HasStar(ts[1..]) ==> LastPart(ts[1..]) == ts[1..]
  {
  }

  /** The function decides every string correctly exactly if the pattern holds no '*' or ends in one. */
  lemma ExactPatterns(ts: seq<Token>, cs: bool)
    requires WellFormed(ts) && StarsApart(ts)
    ensures (forall s :: Test(ts, s, cs) == Match <==> Matches(ts, s, 0, cs)) <==> (HasStar(ts) ==> EndsInStar(ts))
  {
    hide Test, Matches, HasStar, EndsInStar, WellFormed, StarsApart;
    forall s | HasStar(ts) ==> EndsInStar(ts) ensures Test(ts, s, cs) == Match <==> Matches(ts, s, 0, cs) {
      TestIs(ts, s, cs);
    }
    if HasStar(ts) && !EndsInStar(ts) {
      var s := FailsOn(ts, cs);
      assert !(Test(ts, s, cs) == Match <==> Matches(ts, s, 0, cs));
    }
  }

  lemma FailsOn(ts: seq<Token>, cs: bool) returns (s: string)
    requires WellFormed(ts) && StarsApart(ts) && HasStar(ts) && !EndsInStar(ts)
    ensures Matches(ts, s, 0, cs) && Test(ts, s, cs) == NoMatch
  {
    hide Test, Matches, Sample, LastPart;
    var tail := Sample(LastPart(ts));
    s := Sample(ts) + tail;
    LastNotEmpty(ts);
    SampleMatches(ts, "", tail, s, cs);
    var q := |Sample(ts)|;
    SampleMatches(ts, "", "", s[..q], cs);
    assert q < |s|;
    TestIs(ts, s, cs);
  }

  lemma {:induction false} LastNotEmpty(ts: seq<Token>)
    requires WellFormed(ts) && HasStar(ts) && !EndsInStar(ts)
    ensures Sample(LastPart(ts)) != ""
    decreases |ts|
  {
    if HasStar(ts[1..]) {
      LastNotEmpty(ts[1..]);
    } else {
      assert ts[0] == Star && ts[1] != Star && ts[1] != Bad;
      assert LastPart(ts) == ts[1..];
    }
  }

  /** The simplest failure: "*a" and "aa". */
  lemma Counterexample()
    ensures Tokens("*a", 0, false) == [Star, Lit('a')]
    ensures Matches([Star, Lit('a')], "aa", 0, true) && Test([Star, Lit('a')], "aa", true) == NoMatch
  {
    var ts := [Star, Lit('a')];
    assert Tokens("*a", 2, false) == [] && Tokens("*a", 1, true) == [Lit('a')];
    var t := ts[1..];
    assert t == [Lit('a')] && t[1..] == [];
    assert Matches(t[1..], "aa", 2, true) && Matches(t, "aa", 1, true);
    assert Attempt(t[1..], "aa", 1, true) == Final(NoMatch);
    assert Attempt(t, "aa", 0, true) == Final(NoMatch);
    assert Behind(t, "aa", 0, true) == NoMatch;
  }

  lemma {:induction false} TokensApart(p: string, j: nat, behindStar: bool)
    ensures StarsApart(Tokens(p, j, behindStar))
    ensures behindStar && Tokens(p, j, behindStar) != [] ==> Tokens(p, j, behindStar)[0] != Star
    decreases |p| - j
  {
    if j < |p| && p[j] == '*' && !behindStar {
      TokensApart(p, j + 1, true);
    } else if j + 1 < |p| && p[j] == '\\' && Special(p[j + 1]) {
      TokensApart(p, j + 2, false);
    } else if j < |p| && (!Special(p[j]) || p[j] == '?') {
      TokensApart(p, j + 1, false);
    }
  }

  // ---------------------------------------------------------------- the implementation

  datatype Pointer = Null | At(pos: nat)

  /** The character at a position of a null-terminated string. */
  function CharAt(s: string, i: nat): char { if i < |s| then s[i] else '\0' }

  predicate NullTerminated(s: string) { forall i :: 0 <= i < |s| ==> s[i] != '\0' }

  /** The pattern from j on, where j is behind the '\' of an escape sequence if one is being resolved. */
  function Rest(p: string, j: nat, escapeActive: bool): seq<Token>
  {
    if escapeActive then [Lit(CharAt(p, j))] + Tokens(p, j + 1, false) else Tokens(p, j, false)
  }

  /** The result of the state the loop is in. */
  function PendingResult(p: string, s: string, i: nat, j: nat, escapeActive: bool, ref: Pointer, retry: Pointer, cs: bool): Result
  {
    var rest := Rest(p, j, escapeActive);
    if ref == Null then Outcome(Attempt(rest, s, i, cs))
    else if retry == Null then Behind(rest, s, i, cs)
    else match Attempt(rest, s, i, cs) case Final(r) => r case Retry => Behind(Tokens(p, ref.pos, false), s, retry.pos, cs)
  }

  /** What the loop keeps. */
  ghost predicate Consistent(p: string, s: string, i: nat, j: nat, escapeActive: bool, ref: Pointer, retry: Pointer)
  {
    && i <= |s| && j <= |p|
    && (escapeActive ==> j < |p| && Special(p[j]))
    && (ref.At? ==> ref.pos < |p| && ref.pos <= j && p[ref.pos] != '*')
    && (ref == Null ==> retry == Null)
    && (retry.At? ==> 0 < retry.pos <= i)
    && (ref.At? && retry == Null ==> j < |p| && Rest(p, j, escapeActive) == Tokens(p, ref.pos, false))
  }

  lemma RestUnfold(p: string, j: nat, b: bool)
    requires j < |p| && NullTerminated(p)
    ensures p[j] != '*' ==> Tokens(p, j, b) == Tokens(p, j, false)
    ensures p[j] != '*' ==> Tokens(p, j, false) != [] && Tokens(p, j, false)[0] != Star
    ensures p[j] == '*' ==> Tokens(p, j, false) == [Star] + Tokens(p, j + 1, true)
    ensures p[j] == '?' ==> Tokens(p, j, false) == [Any] + Tokens(p, j + 1, false)
    ensures p[j] == '\\' ==>
              Tokens(p, j, false) ==
              if j + 1 < |p| && Special(p[j + 1]) then [Lit(p[j + 1])] + Tokens(p, j + 2, false) else [Bad]
    ensures !Special(p[j]) ==> Tokens(p, j, false) == [Lit(p[j])] + Tokens(p, j + 1, false)
    ensures p[j] == '*' ==> Tokens(p, j, true) == [Bad]
  {
  }

  /** Resolves a '*' and an escape sequence at the current position of the pattern. */
  method Resolve(s: string, p: string, pStr: nat, pCharSeq0: nat, escapeActive0: bool, ref0: Pointer, retry0: Pointer, cs: bool)
    returns (result: Pending, pCharSeq: nat, escapeActive: bool, ref: Pointer, retry: Pointer)
    requires NullTerminated(p) && Consistent(p, s, pStr, pCharSeq0, escapeActive0, ref0, retry0)
    ensures var before := PendingResult(p, s, pStr, pCharSeq0, escapeActive0, ref0, retry0, cs);
            match result
            case Thrown => before == InvalidArgument
            case Matched => before == Match
            case Going =>
              && Consistent(p, s, pStr, pCharSeq, escapeActive, ref, retry)
              && PendingResult(p, s, pStr, pCharSeq, escapeActive, ref, retry, cs) == before
              && (!escapeActive && pCharSeq < |p| ==> p[pCharSeq] != '*' && p[pCharSeq] != '\\')
              && ((ref == ref0 && retry == retry0) || (ref.At? && retry == Null && (ref0.At? ==> ref.pos > ref0.pos)))
  {
    hide Tokens, Attempt, Behind, Fits;
    result, pCharSeq, escapeActive, ref, retry := Going, pCharSeq0, escapeActive0, ref0, retry0;
    if escapeActive { return; }
    if ref.At? { RestUnfold(p, ref.pos, false); }
    ghost var ts := Tokens(p, pCharSeq, false);
    var expected := CharAt(p, pCharSeq);
    // a star
    if expected == '*' {
      RestUnfold(p, pCharSeq, false);
      pCharSeq := pCharSeq + 1;
      expected := CharAt(p, pCharSeq);
      assert ts[0] == Star;
      StarStep(ts, p, pCharSeq, s, pStr, cs);
      if expected == '\0' { return Matched, pCharSeq, false, ref, retry; }
      RestUnfold(p, pCharSeq, true);
      if expected == '*' { return Thrown, pCharSeq, false, ref, retry; }
      ts := Tokens(p, pCharSeq, false);
      retry := Null;
      ref := At(pCharSeq);
    }
    // the character behind a backslash
    if expected == '\\' {
      RestUnfold(p, pCharSeq, false);
      pCharSeq := pCharSeq + 1;
      expected := CharAt(p, pCharSeq);
      BadStep(ts, s, pStr, cs);
      if expected == '\0' { return Thrown, pCharSeq, false, ref, retry; }
      if expected != '*' && expected != '?' && expected != '\\' { return Thrown, pCharSeq, false, ref, retry; }
      escapeActive := true;
    }
  }

  datatype Pending = Going | Matched | Thrown

  /** TestSimplePatternMatch. */
  method TestSimplePatternMatch(s: string, p: string, caseSensitive: bool) returns (r: Result)
    requires NullTerminated(s) && NullTerminated(p)
    ensures r == Test(Tokens(p, 0, false), s, caseSensitive)
  {
    hide Tokens, Attempt, Behind, Fits;
    var pStr: nat, pCharSeq: nat := 0, 0;
    var pStrRetry, pRefBehindWildCard, escapeActive := Null, Null, false;
    while true
      invariant Consistent(p, s, pStr, pCharSeq, escapeActive, pRefBehindWildCard, pStrRetry)
      invariant PendingResult(p, s, pStr, pCharSeq, escapeActive, pRefBehindWildCard, pStrRetry, caseSensitive)
                == Test(Tokens(p, 0, false), s, caseSensitive)
      decreases
        if pRefBehindWildCard.At? then |p| - pRefBehindWildCard.pos else |p| + 1,
        |s| - (if pStrRetry.At? then pStrRetry.pos - 1 else pStr),
        |s| - pStr
    {
      var result;
      result, pCharSeq, escapeActive, pRefBehindWildCard, pStrRetry :=
        Resolve(s, p, pStr, pCharSeq, escapeActive, pRefBehindWildCard, pStrRetry, caseSensitive);
      if result == Matched { return Match; }
      if result == Thrown { return InvalidArgument; }
      var actual, expected := CharAt(s, pStr), CharAt(p, pCharSeq);
      var singleCharWildcard := !escapeActive && expected == '?';
      FirstToken(p, pCharSeq, escapeActive, s, pStr, caseSensitive);
      // nothing of the string is left
      if actual == '\0' {
        return if expected == '\0' then Match else NoMatch;
      }
      // nothing of the pattern is left
      if expected == '\0' { return NoMatch; }
      // apply case insensitivity if required
      if !caseSensitive && !singleCharWildcard {
        actual := ToUpper(actual);
        expected := ToUpper(expected);
      }
      if actual == expected || singleCharWildcard {
        // move on
        pStr := pStr + 1;
        pCharSeq := pCharSeq + 1;
        escapeActive := false;
        if pRefBehindWildCard != Null && pStrRetry == Null {
          // remember where to retry looking for a matching sequence
          pStrRetry := At(pStr);
        }
      } else {
        if pRefBehindWildCard == Null {
          return NoMatch;
        } else if pStrRetry != Null {
          // one more character is covered by the wildcard
          pStr := pStrRetry.pos;
          pStrRetry := Null;
          pCharSeq := pRefBehindWildCard.pos;
          escapeActive := false;
        } else {
          // the next start position
          pStr := pStr + 1;
        }
      }
    }
  }

  lemma StarStep(ts: seq<Token>, p: string, j: nat, s: string, i: nat, cs: bool)
    requires ts == [Star] + Tokens(p, j, true) && NullTerminated(p) && j <= |p|
    ensures Attempt(ts, s, i, cs) == Final(Behind(Tokens(p, j, true), s, i, cs))
    ensures Behind(ts, s, i, cs) == InvalidArgument
    ensures j == |p| ==> Behind(Tokens(p, j, true), s, i, cs) == Match
    ensures j < |p| && p[j] == '*' ==> Behind(Tokens(p, j, true), s, i, cs) == InvalidArgument
  {
  }

  lemma BadStep(ts: seq<Token>, s: string, i: nat, cs: bool)
    ensures ts == [Bad] ==> Attempt(ts, s, i, cs) == Final(InvalidArgument) && Behind(ts, s, i, cs) == InvalidArgument
  {
  }

  /** One character against the next token, which is neither a star nor malformed. */
  lemma FirstToken(p: string, j: nat, escapeActive: bool, s: string, i: nat, cs: bool)
    requires NullTerminated(p) && NullTerminated(s) && i <= |s| && j <= |p|
    requires escapeActive ==> j < |p| && Special(p[j])
    requires !escapeActive && j < |p| ==> p[j] != '*' && p[j] != '\\'
    ensures var ts, e, single := Rest(p, j, escapeActive), CharAt(p, j), !escapeActive && CharAt(p, j) == '?';
            var fits := i < |s| && (single || Fold(s[i], cs) == Fold(e, cs));
            && Attempt(ts, s, i, cs) ==
               (if i == |s| then Final(if j == |p| then Match else NoMatch)
                else if j == |p| then Final(NoMatch)
                else if fits then Attempt(Tokens(p, j + 1, false), s, i + 1, cs)
                else Retry)
            && (j < |p| ==>
                  var a := Attempt(ts, s, i, cs);
                  Behind(ts, s, i, cs) == if a.Final? then a.r else if i >= |s| then NoMatch else Behind(ts, s, i + 1, cs))
  {
    if j < |p| && !escapeActive { RestUnfold(p, j, false); }
  }

  // ---------------------------------------------------------------- how patterns are written

  /** How a token is written: '*' is any string, '?' any character, '\' escapes these three. */
  function Spelling(t: Token): (r: string)
    requires t != Bad
    ensures r != ""
  {
    if t == Star then "*"
    else if t == Any then "?"
    else if t.c == '*' then "\\*"
    else if t.c == '?' then "\\?"
    else if t.c == '\\' then "\\\\"
    else [t.c]
  }

  function Spelled(ts: seq<Token>): string
    requires WellFormed(ts)
  {
    if ts == [] then "" else Spelling(ts[0]) + Spelled(ts[1..])
  }

  /** Every sequence of tokens without two stars in a row is what its spelling means. */
  lemma SpelledTokens(ts: seq<Token>)
    requires WellFormed(ts) && StarsApart(ts)
    ensures Tokens(Spelled(ts), 0, false) == ts
  {
    SpelledFrom("", ts, false);
    assert "" + Spelled(ts) == Spelled(ts);
  }

  lemma {:induction false} SpelledFrom(pre: string, ts: seq<Token>, behindStar: bool)
    requires WellFormed(ts) && StarsApart(ts) && (behindStar && ts != [] ==> ts[0] != Star)
    ensures Tokens(pre + Spelled(ts), |pre|, behindStar) == ts
    decreases |ts|
  {
    hide Tokens, Spelling, StarsApart;
    if ts == [] {
      NoTokens(pre + "", behindStar);
    } else {
      var a, rest := Spelling(ts[0]), Spelled(ts[1..]);
      TailApart(ts);
      SpelledFrom(pre + a, ts[1..], ts[0] == Star);
      assert pre + a + rest == pre + Spelled(ts);
      OneToken(pre, ts[0], rest, behindStar);
    }
  }

  lemma NoTokens(p: string, behindStar: bool)
    ensures Tokens(p, |p|, behindStar) == []
  {
  }

  lemma TailApart(ts: seq<Token>)
    requires WellFormed(ts) && StarsApart(ts) && ts != []
    ensures WellFormed(ts[1..]) && StarsApart(ts[1..]) && (ts[0] == Star && ts[1..] != [] ==> ts[1..][0] != Star)
  {
    assert forall i :: 0 <= i < |ts| - 1 ==> ts[1..][i] == ts[i + 1];
  }

  lemma OneToken(pre: string, t: Token, rest: string, behindStar: bool)
    requires t != Bad && (behindStar ==> t != Star)
    ensures Tokens(pre + Spelling(t) + rest, |pre|, behindStar) ==
            [t] + Tokens(pre + Spelling(t) + rest, |pre| + |Spelling(t)|, t == Star)
  {
    var p := pre + Spelling(t) + rest;
    assert p[|pre|] == Spelling(t)[0];
    if |Spelling(t)| == 2 { assert p[|pre| + 1] == Spelling(t)[1]; }
  }

  /** A pattern without stars matches character by character. */
  lemma {:induction false} StarFree(ts: seq<Token>, s: string, i: nat, cs: bool)
    requires WellFormed(ts) && Star !in ts && i <= |s|
    ensures Matches(ts, s, i, cs) <==>
            |ts| == |s| - i && forall k :: 0 <= k < |ts| ==> ts[k] == Any || SameChar(ts[k].c, s[i + k], cs)
    decreases |ts|
  {
    if ts != [] && i < |s| {
      StarFree(ts[1..], s, i + 1, cs);
      OneCharacter(ts[0], s[i], cs);
      if |ts| == |s| - i { assert forall k :: 0 <= k < |ts| - 1 ==> ts[1..][k] == ts[k + 1] && s[i + 1 + k] == s[i + (k + 1)]; }
      assert Matches(ts, s, i, cs) <==> Fits(ts[0], s[i], cs) && Matches(ts[1..], s, i + 1, cs);
    }
  }

  lemma OneCharacter(t: Token, c: char, cs: bool)
    requires t != Star && t != Bad
    ensures Fits(t, c, cs) <==> t == Any || SameChar(t.c, c, cs)
  {
    if t.Lit? { ToUpperMeans(t.c, c); }
  }

  /** What TestSimplePatternMatch says about a well-formed pattern. */
  lemma TestedPattern(p: string, s: string, cs: bool)
    requires WellFormed(Tokens(p, 0, false))
    ensures forall c, d :: Fits(Lit(c), d, cs) <==> SameChar(c, d, cs)
    ensures var ts := Tokens(p, 0, false);
            && Test(ts, s, cs) != InvalidArgument
            && (Test(ts, s, cs) == Match ==> Matches(ts, s, 0, cs))
            && ((HasStar(ts) ==> EndsInStar(ts)) ==> (Test(ts, s, cs) == Match <==> Matches(ts, s, 0, cs)))
            && (HasStar(ts) && !EndsInStar(ts) ==>
                  (Test(ts, s, cs) == Match <==> Matches(ts, s, 0, cs) && !PrefixMatches(ts, s, 0, cs)))
  {
    hide Tokens, Test, Matches, HasStar, EndsInStar, PrefixMatches, StarsApart, Fits;
    forall c, d ensures Fits(Lit(c), d, cs) <==> SameChar(c, d, cs) { OneCharacter(Lit(c), d, cs); }
    TokensApart(p, 0, false);
    TestIs(Tokens(p, 0, false), s, cs);
  }
}
