/**
 Key patterns: `*`, `?`, `[set]`, `[^set]`, ranges and `\` escapes. A pattern
 denotes a list of tokens; `Matches` is the declarative meaning of that list and
 `GlobMatch` the iterative matcher with one backtracking point.
 */
module Glob {
  import opened Base

  /** A member of a bracketed set; a single character is the range from itself to itself. */
  datatype Range = Range(lo: char, hi: char)

  datatype Token =
    | Star
    | AnyOne
    | Literal(c: char)
    | Class(negate: bool, ranges: seq<Range>)

  // ---- declarative meaning -------------------------------------------------

  predicate InRanges(ranges: seq<Range>, c: char) {
    exists i :: 0 <= i < |ranges| && ranges[i].lo <= c <= ranges[i].hi
  }

  predicate Accepts(t: Token, c: char)
    requires !t.Star?
  {
    match t
    case AnyOne => true
    case Literal(l) => l == c
    case Class(negate, ranges) => InRanges(ranges, c) != negate
  }

  /** A star stands for any substring; every other token for one accepted character. */
  predicate Matches(ts: seq<Token>, s: Bytes)
    decreases |ts|
  {
    if ts == [] then s == []
    else if ts[0].Star? then exists k :: 0 <= k <= |s| && Matches(ts[1..], s[k..])
    else s != [] && Accepts(ts[0], s[0]) && Matches(ts[1..], s[1..])
  }

  // ---- reading a pattern ---------------------------------------------------

  /** A bracketed set read from its first member at j: where it closes, and its ranges. */
  datatype SetScan = Unclosed | Closed(close: nat, ranges: seq<Range>)

  /** The set member at k, possibly escaped or a range, and where the next one starts. */
  function MemberAt(pat: Bytes, k: nat): (r: (Range, nat))
    requires k < |pat|
    ensures k < r.1 <= |pat|
  {
    var at := if pat[k] == '\\' && k + 1 < |pat| then k + 1 else k;
    if at + 2 < |pat| && pat[at + 1] == '-' && pat[at + 2] != ']' then
      (Range(pat[at], pat[at + 2]), at + 3)
    else
      (Range(pat[at], pat[at]), at + 1)
  }

  function WithRanges(seen: seq<Range>, scan: SetScan): SetScan {
    match scan
    case Unclosed => Unclosed
    case Closed(close, ranges) => Closed(close, seen + ranges)
  }

  function ScanSet(pat: Bytes, j: nat, k: nat): (r: SetScan)
    requires j <= k <= |pat|
    ensures r.Closed? ==> k <= r.close < |pat|
    decreases |pat| - k
  {
    if k == |pat| then Unclosed
    else if pat[k] == ']' && k > j then Closed(k, [])
    else
      var (range, next) := MemberAt(pat, k);
      WithRanges([range], ScanSet(pat, j, next))
  }

  lemma WithRangesTwice(a: seq<Range>, b: seq<Range>, scan: SetScan)
    ensures WithRanges(a, WithRanges(b, scan)) == WithRanges(a + b, scan)
    ensures WithRanges([], scan) == scan
  {
  }

  /** The token that starts at pi, and how many pattern characters it spans. */
  function TokenAt(pat: Bytes, pi: nat): (r: (Token, nat))
    requires pi < |pat|
    ensures 0 < r.1 <= |pat| - pi
    ensures r.0.Star? <==> pat[pi] == '*'
    ensures r.0.Star? ==> r.1 == 1
  {
    if pat[pi] == '*' then (Star, 1)
    else if pat[pi] == '?' then (AnyOne, 1)
    else if pat[pi] == '\\' && pi + 1 < |pat| then (Literal(pat[pi + 1]), 2)
    else if pat[pi] == '[' then
      var negate := pi + 1 < |pat| && pat[pi + 1] == '^';
      var j := if negate then pi + 2 else pi + 1;
      match ScanSet(pat, j, j)
      case Unclosed => (Literal('['), 1)
      case Closed(close, ranges) => (Class(negate, ranges), close + 1 - pi)
    else (Literal(pat[pi]), 1)
  }

  function Tokens(pat: Bytes, pi: nat): (ts: seq<Token>)
    requires pi <= |pat|
    ensures ts == [] <==> pi == |pat|
    decreases |pat| - pi
  {
    if pi == |pat| then []
    else
      var (t, width) := TokenAt(pat, pi);
      [t] + Tokens(pat, pi + width)
  }

  // ---- facts about the meaning ---------------------------------------------

  predicate NoStars(ts: seq<Token>) {
    forall i :: 0 <= i < |ts| ==> !ts[i].Star?
  }

  /** Star-free tokens consume exactly one character each. */
  lemma {:induction false} ConsumeUnits(units: seq<Token>, rest: seq<Token>, s: Bytes)
    requires NoStars(units)
    requires Matches(units + rest, s)
    ensures |units| <= |s| && Matches(rest, s[|units|..])
  {
    hide Accepts;
    if units == [] {
      assert units + rest == rest && s[0..] == s;
    } else {
      assert (units + rest)[1..] == units[1..] + rest && (units + rest)[0] == units[0];
      ConsumeUnits(units[1..], rest, s[1..]);
      assert s[1..][|units| - 1..] == s[|units|..];
    }
  }

  /** What is left to try: resume at the last star with one of the later characters. */
  predicate Retry(ts: seq<Token>, s: Bytes, from: nat) {
    exists k :: from <= k <= |s| && Matches(ts, s[k..])
  }

  lemma RetryNext(ts: seq<Token>, s: Bytes, from: nat)
    requires from <= |s|
    ensures Retry(ts, s, from) <==> Matches(ts, s[from..]) || Retry(ts, s, from + 1)
  {
  }

  lemma StarRetries(ts: seq<Token>, s: Bytes, si: nat)
    requires ts != [] && ts[0].Star? && si <= |s|
    ensures Matches(ts, s[si..]) <==> Retry(ts[1..], s, si)
  {
    if Matches(ts, s[si..]) {
      var k :| 0 <= k <= |s[si..]| && Matches(ts[1..], s[si..][k..]);
      assert s[si..][k..] == s[si + k..];
    }
    if Retry(ts[1..], s, si) {
      var k :| si <= k <= |s| && Matches(ts[1..], s[k..]);
      assert s[k..] == s[si..][k - si..];
    }
  }

  /**
   The latest star is the only one worth backtracking to. `units` are the star-free
   tokens matched between the previous star and the new one, over s[from..si]: if
   resuming the previous star later succeeds, so does letting the new star absorb more.
   */
  lemma LatestStarSuffices(units: seq<Token>, rest: seq<Token>, s: Bytes, from: nat, si: nat)
    requires NoStars(units) && |units| == si - from && from <= si <= |s|
    requires rest != [] && rest[0].Star?
    requires Retry(units + rest, s, from + 1)
    ensures Retry(rest[1..], s, si)
  {
    var k :| from + 1 <= k <= |s| && Matches(units + rest, s[k..]);
    ConsumeUnits(units, rest, s[k..]);
    var at := k + |units|;
    assert s[k..][|units|..] == s[at..];
    StarRetries(rest, s, at);
    var k' :| at <= k' <= |s| && Matches(rest[1..], s[k'..]);
  }

  /** With the string used up, no later resumption can fit the tokens already matched. */
  lemma NoRetryAtEnd(units: seq<Token>, rest: seq<Token>, s: Bytes, from: nat)
    requires NoStars(units) && |units| == |s| - from && from <= |s|
    ensures !Retry(units + rest, s, from + 1)
  {
    forall k | from + 1 <= k <= |s|
      ensures !Matches(units + rest, s[k..])
    {
      if Matches(units + rest, s[k..]) {
        ConsumeUnits(units, rest, s[k..]);
        assert false;
      }
    }
  }

  lemma {:induction false} MatchesEmpty(ts: seq<Token>)
    ensures Matches(ts, []) <==> forall i :: 0 <= i < |ts| ==> ts[i].Star?
  {
    if ts != [] && ts[0].Star? {
      MatchesEmpty(ts[1..]);
      var e: Bytes := [];
      assert e[0..] == e;
      assert forall i :: 0 < i < |ts| ==> ts[i] == ts[1..][i - 1];
    }
  }

  /** "*" matches every key, which FLUSHALL relies on to disarm every TTL. */
  lemma StarMatchesAll(s: Bytes)
    ensures Matches(Tokens("*", 0), s)
  {
    assert Tokens("*", 1) == [];
    var ts := Tokens("*", 0);
    assert ts == [Star];
    assert ts[1..] == [];
    assert s[|s|..] == [];
    assert Matches(ts[1..], s[|s|..]);
  }

  predicate Plain(c: char) {
    c != '*' && c != '?' && c != '[' && c != '\\'
  }

  /** A pattern without special characters matches itself and nothing else. */
  lemma {:induction false} PlainMatchesItself(pat: Bytes, pi: nat, s: Bytes)
    requires pi <= |pat|
    requires forall i :: 0 <= i < |pat| ==> Plain(pat[i])
    ensures Matches(Tokens(pat, pi), s) <==> s == pat[pi..]
    decreases |pat| - pi
  {
    if pi < |pat| {
      assert TokenAt(pat, pi) == (Literal(pat[pi]), 1);
      var ts := Tokens(pat, pi);
      assert ts[1..] == Tokens(pat, pi + 1);
      if s != [] {
        PlainMatchesItself(pat, pi + 1, s[1..]);
        assert s == [s[0]] + s[1..];
        assert pat[pi..] == [pat[pi]] + pat[pi + 1..];
      }
    }
  }

  // ---- the matcher ---------------------------------------------------------

  lemma NothingInEmpty(c: char)
    ensures !InRanges([], c)
  {
  }

  lemma InRangesAppend(a: seq<Range>, r: Range, c: char)
    ensures InRanges(a + [r], c) <==> InRanges(a, c) || r.lo <= c <= r.hi
  {
    if InRanges(a, c) {
      var i :| 0 <= i < |a| && a[i].lo <= c <= a[i].hi;
      assert (a + [r])[i] == a[i];
    }
    if r.lo <= c <= r.hi {
      assert (a + [r])[|a|] == r;
    }
  }

  /** Scans a bracketed set while testing `c` against its members. */
  method ScanClass(pat: Bytes, j: nat, c: char) returns (close: Option<nat>, matched: bool)
    requires j <= |pat|
    ensures match ScanSet(pat, j, j)
            case Unclosed => close == None
            case Closed(at, ranges) => close == Some(at) && matched == InRanges(ranges, c)
  {
    hide InRanges;
    matched := false;
    ghost var seen: seq<Range> := [];
    NothingInEmpty(c);
    WithRangesTwice([], [], ScanSet(pat, j, j));
    var k := j;
    while k < |pat|
      invariant j <= k <= |pat|
      invariant matched == InRanges(seen, c)
      invariant ScanSet(pat, j, j) == WithRanges(seen, ScanSet(pat, j, k))
    {
      if pat[k] == ']' && k > j {
        assert seen + [] == seen;
        return Some(k), matched;
      }
      ghost var (range, next) := MemberAt(pat, k);
      WithRangesTwice(seen, [range], ScanSet(pat, j, next));
      InRangesAppend(seen, range, c);
      seen := seen + [range];
      var lo := pat[k];
      if lo == '\\' && k + 1 < |pat| {
        k := k + 1;
        lo := pat[k];
      }
      if k + 2 < |pat| && pat[k + 1] == '-' && pat[k + 2] != ']' {
        var hi := pat[k + 2];
        if lo <= c <= hi {
          matched := true;
        }
        k := k + 3;
      } else {
        if lo == c {
          matched := true;
        }
        k := k + 1;
      }
    }
    close := None;
  }

  /** Matches one non-star unit; how far it spans does not depend on the character. */
  method MatchUnit(pat: Bytes, pi: nat, c: char) returns (next: nat, ok: bool)
    requires pi < |pat| && pat[pi] != '*'
    ensures next == pi + TokenAt(pat, pi).1
    ensures ok == Accepts(TokenAt(pat, pi).0, c)
  {
    var pc := pat[pi];
    if pc == '?' {
      return pi + 1, true;
    }
    if pc == '\\' && pi + 1 < |pat| {
      return pi + 2, pat[pi + 1] == c;
    }
    if pc == '[' {
      var j := pi + 1;
      var negate := j < |pat| && pat[j] == '^';
      if negate {
        j := j + 1;
      }
      var close, matched := ScanClass(pat, j, c);
      if close.None? {
        return pi + 1, c == '[';
      }
      return close.value + 1, if negate then !matched else matched;
    }
    return pi + 1, pc == c;
  }

  lemma TokensNext(pat: Bytes, pi: nat)
    requires pi < |pat|
    ensures var (t, width) := TokenAt(pat, pi);
            Tokens(pat, pi) == [t] + Tokens(pat, pi + width) && Tokens(pat, pi)[1..] == Tokens(pat, pi + width)
  {
  }

  lemma UnitMatches(ts: seq<Token>, s: Bytes, si: nat)
    requires ts != [] ==> !ts[0].Star?
    requires si < |s|
    ensures Matches(ts, s[si..]) <==> ts != [] && Accepts(ts[0], s[si]) && Matches(ts[1..], s[si + 1..])
  {
  }

  lemma StarAtEnd(ts: seq<Token>)
    requires ts != []
    ensures Matches(ts, []) <==> ts[0].Star? && Matches(ts[1..], [])
  {
    MatchesEmpty(ts);
    MatchesEmpty(ts[1..]);
    assert forall i :: 0 < i < |ts| ==> ts[i] == ts[1..][i - 1];
  }

  /** What the matcher has established when its loop is at pi and si. */
  ghost predicate Progress(pat: Bytes, str: Bytes, pi: nat, si: nat, starPi: Option<nat>, starSi: nat,
                           units: seq<Token>)
  {
    && pi <= |pat| && starSi <= si <= |str|
    && (starPi.None? ==>
          (Matches(Tokens(pat, 0), str) <==> Matches(Tokens(pat, pi), str[si..])))
    && (starPi.Some? ==>
          && 0 < starPi.value <= pi
          && NoStars(units) && |units| == si - starSi
          && Tokens(pat, starPi.value) == units + Tokens(pat, pi)
          && (Matches(Tokens(pat, 0), str) <==>
              Matches(Tokens(pat, pi), str[si..]) || Retry(Tokens(pat, starPi.value), str, starSi + 1)))
  }

  lemma ProgressStar(pat: Bytes, str: Bytes, pi: nat, si: nat, starPi: Option<nat>, starSi: nat, units: seq<Token>)
    requires Progress(pat, str, pi, si, starPi, starSi, units)
    requires pi < |pat| && pat[pi] == '*'
    ensures Progress(pat, str, pi + 1, si, Some(pi + 1), si, [])
  {
    hide Matches, Tokens;
    var rest := Tokens(pat, pi);
    TokensNext(pat, pi);
    StarRetries(rest, str, si);
    if starPi.Some? && Retry(Tokens(pat, starPi.value), str, starSi + 1) {
      LatestStarSuffices(units, rest, str, starSi, si);
    }
    RetryNext(rest[1..], str, si);
    assert [] + Tokens(pat, pi + 1) == Tokens(pat, pi + 1);
  }

  lemma ProgressUnit(pat: Bytes, str: Bytes, pi: nat, si: nat, starPi: Option<nat>, starSi: nat, units: seq<Token>)
    requires Progress(pat, str, pi, si, starPi, starSi, units)
    requires pi < |pat| && pat[pi] != '*' && si < |str| && Accepts(TokenAt(pat, pi).0, str[si])
    ensures var (t, width) := TokenAt(pat, pi);
            Progress(pat, str, pi + width, si + 1, starPi, starSi, units + [t])
  {
    hide Matches, Tokens;
    TokensNext(pat, pi);
    UnitMatches(Tokens(pat, pi), str, si);
    var (t, width) := TokenAt(pat, pi);
    AppendAssoc(units, [t], Tokens(pat, pi + width));
  }

  lemma ProgressBacktrack(pat: Bytes, str: Bytes, pi: nat, si: nat, starPi: Option<nat>, starSi: nat, units: seq<Token>)
    requires Progress(pat, str, pi, si, starPi, starSi, units)
    requires si < |str|
    requires pi < |pat| ==> pat[pi] != '*' && !Accepts(TokenAt(pat, pi).0, str[si])
    ensures starPi.None? ==> !Matches(Tokens(pat, 0), str)
    ensures starPi.Some? ==> Progress(pat, str, starPi.value, starSi + 1, starPi, starSi + 1, [])
  {
    hide Matches, Tokens;
    if pi < |pat| {
      TokensNext(pat, pi);
    }
    UnitMatches(Tokens(pat, pi), str, si);
    if starPi.Some? {
      RetryNext(Tokens(pat, starPi.value), str, starSi + 1);
      assert [] + Tokens(pat, starPi.value) == Tokens(pat, starPi.value);
    }
  }

  /** The iterative matcher decides exactly the declarative meaning of the pattern. */
  method GlobMatch(pat: Bytes, str: Bytes) returns (r: bool)
    ensures r == Matches(Tokens(pat, 0), str)
  {
    hide Matches, Tokens, TokenAt, Accepts;
    var pi: nat, si: nat := 0, 0;
    var starPi: Option<nat> := None;
    var starSi: nat := 0;
    ghost var units: seq<Token> := [];
    assert str[0..] == str;
    while si < |str|
      invariant Progress(pat, str, pi, si, starPi, starSi, units)
      decreases if starPi.Some? then |pat| - starPi.value else |pat| + 1, |str| - starSi, |str| - si
    {
      if pi < |pat| && pat[pi] == '*' {
        ProgressStar(pat, str, pi, si, starPi, starSi, units);
        pi := pi + 1;
        starPi, starSi, units := Some(pi), si, [];
        continue;
      }
      if pi < |pat| {
        var next, ok := MatchUnit(pat, pi, str[si]);
        if ok {
          ProgressUnit(pat, str, pi, si, starPi, starSi, units);
          units := units + [TokenAt(pat, pi).0];
          pi, si := next, si + 1;
          continue;
        }
      }
      ProgressBacktrack(pat, str, pi, si, starPi, starSi, units);
      if starPi.Some? {
        pi, starSi, units := starPi.value, starSi + 1, [];
        si := starSi;
        continue;
      }
      return false;
    }
    assert str[si..] == [];
    if starPi.Some? {
      NoRetryAtEnd(units, Tokens(pat, pi), str, starSi);
    }
    while pi < |pat| && pat[pi] == '*'
      invariant pi <= |pat|
      invariant Matches(Tokens(pat, 0), str) <==> Matches(Tokens(pat, pi), [])
    {
      TokensNext(pat, pi);
      StarAtEnd(Tokens(pat, pi));
      pi := pi + 1;
    }
    if pi < |pat| {
      TokensNext(pat, pi);
      StarAtEnd(Tokens(pat, pi));
    } else {
      MatchesEmpty(Tokens(pat, pi));
    }
    r := pi == |pat|;
  }
}
