/**
 What a pattern means, read off its text: one law for every way a pattern can begin, with the
 rest of the pattern and the string arbitrary. Together the laws determine which strings any
 pattern matches.
 */
module Patterns {
  import opened Base
  import opened Glob
  import opened Commands

  // ---- the meaning of a pattern depends on its text only -------------------

  function Moved(scan: SetScan, d: nat): SetScan {
    match scan
    case Unclosed => Unclosed
    case Closed(close, ranges) => Closed(close + d, ranges)
  }

  lemma MemberMoved(pat: Bytes, d: nat, k: nat)
    requires d + k < |pat|
    ensures MemberAt(pat, d + k) == (MemberAt(pat[d..], k).0, d + MemberAt(pat[d..], k).1)
  {
  }

  lemma {:induction false} ScanMoved(pat: Bytes, d: nat, j: nat, k: nat)
    requires j <= k && d + k <= |pat|
    ensures ScanSet(pat, d + j, d + k) == Moved(ScanSet(pat[d..], j, k), d)
    decreases |pat| - k
  {
    hide MemberAt;
    if d + k < |pat| && !(pat[d + k] == ']' && k > j) {
      MemberMoved(pat, d, k);
      ScanMoved(pat, d, j, MemberAt(pat[d..], k).1);
    }
  }

  lemma TokenMoved(pat: Bytes, d: nat)
    requires d < |pat|
    ensures TokenAt(pat, d) == TokenAt(pat[d..], 0)
  {
    var rest := pat[d..];
    if pat[d] == '[' {
      var j := if d + 1 < |pat| && pat[d + 1] == '^' then 2 else 1;
      ScanMoved(pat, d, j, j);
    }
  }

  lemma {:induction false} TokensMoved(pat: Bytes, d: nat)
    requires d <= |pat|
    ensures Tokens(pat, d) == Tokens(pat[d..], 0)
    decreases |pat| - d
  {
    hide TokenAt, Tokens;
    if d < |pat| {
      var rest, w := pat[d..], TokenAt(pat, d).1;
      TokenMoved(pat, d);
      TokensNext(pat, d);
      TokensNext(rest, 0);
      TokensMoved(pat, d + w);
      TokensMoved(rest, w);
      SliceTwice(pat, d, w);
    }
  }

  lemma SliceTwice(pat: Bytes, d: nat, w: nat)
    requires d + w <= |pat|
    ensures pat[d..][w..] == pat[d + w..]
  {
  }

  /** A pattern is its first token and then the pattern that is left. */
  lemma FirstToken(pat: Bytes, s: Bytes)
    requires pat != []
    ensures var (t, w) := TokenAt(pat, 0);
            GlobMatches(pat, s) <==> Matches([t] + Tokens(pat[w..], 0), s)
  {
    TokensMoved(pat, TokenAt(pat, 0).1);
  }

  /** A first token that is not a star takes one character, and the rest of the pattern the rest. */
  lemma UnitFirst(pat: Bytes, s: Bytes, t: Token, rest: Bytes)
    requires pat != [] && !t.Star? && TokenAt(pat, 0).0 == t && pat[TokenAt(pat, 0).1..] == rest
    ensures GlobMatches(pat, s) <==> s != [] && Accepts(t, s[0]) && GlobMatches(rest, s[1..])
  {
    hide TokenAt;
    FirstToken(pat, s);
    var ts := [t] + Tokens(rest, 0);
    assert ts[1..] == Tokens(rest, 0);
  }

  // ---- the ways a pattern can begin ----------------------------------------

  lemma EmptyPattern(s: Bytes)
    ensures GlobMatches([], s) <==> s == []
  {
  }

  /** A star stands for any substring. */
  lemma StarPattern(p: Bytes, s: Bytes)
    ensures GlobMatches("*" + p, s) <==> exists k :: 0 <= k <= |s| && GlobMatches(p, s[k..])
  {
    hide Tokens;
    FirstToken("*" + p, s);
    assert ("*" + p)[1..] == p;
    var ts := [Star] + Tokens(p, 0);
    assert ts[1..] == Tokens(p, 0);
    if k :| 0 <= k <= |s| && GlobMatches(p, s[k..]) {
      assert Matches(ts[1..], s[k..]);
    }
    if GlobMatches("*" + p, s) {
      var k :| 0 <= k <= |s| && Matches(ts[1..], s[k..]);
      assert GlobMatches(p, s[k..]);
    }
  }

  /** A question mark stands for any one character. */
  lemma AnyPattern(p: Bytes, s: Bytes)
    ensures GlobMatches("?" + p, s) <==> s != [] && GlobMatches(p, s[1..])
  {
    UnitFirst("?" + p, s, AnyOne, p);
  }

  /** A backslash takes the special meaning from the character after it; at the end it is a character. */
  lemma EscapePattern(c: char, p: Bytes, s: Bytes)
    ensures GlobMatches("\\" + [c] + p, s) <==> s != [] && s[0] == c && GlobMatches(p, s[1..])
    ensures GlobMatches("\\", s) <==> s == "\\"
  {
    var pat := "\\" + [c] + p;
    assert pat[0] == '\\' && pat[1] == c && pat[2..] == p;
    UnitFirst(pat, s, Literal(c), p);
    UnitFirst("\\", s, Literal('\\'), []);
  }

  /** Any other character but a bracket stands for itself. */
  lemma PlainPattern(c: char, p: Bytes, s: Bytes)
    requires Plain(c)
    ensures GlobMatches([c] + p, s) <==> s != [] && s[0] == c && GlobMatches(p, s[1..])
  {
    var pat := [c] + p;
    assert pat[0] == c && pat[1..] == p;
    UnitFirst(pat, s, Literal(c), p);
  }

  // ---- sets ----------------------------------------------------------------

  /** A member of a bracketed set as it is written: a character or a span, its start escaped or not. */
  datatype Member =
    | One(c: char)
    | Span(lo: char, hi: char)
    | Quoted(c: char)
    | QuotedSpan(lo: char, hi: char)

  function MemberText(m: Member): (t: Bytes)
    ensures t != []
  {
    match m
    case One(c) => [c]
    case Span(lo, hi) => [lo, '-', hi]
    case Quoted(c) => ['\\', c]
    case QuotedSpan(lo, hi) => ['\\', lo, '-', hi]
  }

  function SetText(ms: seq<Member>): (t: Bytes)
    ensures ms != [] ==> t != []
  {
    if ms == [] then [] else MemberText(ms[0]) + SetText(ms[1..])
  }

  predicate Holds(m: Member, c: char) {
    match m
    case One(x) => c == x
    case Quoted(x) => c == x
    case Span(lo, hi) => lo <= c <= hi
    case QuotedSpan(lo, hi) => lo <= c <= hi
  }

  predicate InSome(ms: seq<Member>, c: char) {
    exists i :: 0 <= i < |ms| && Holds(ms[i], c)
  }

  /** What follows would turn the character before it into the start of a span. */
  predicate StartsSpan(after: Bytes) {
    |after| >= 2 && after[0] == '-' && after[1] != ']'
  }

  /**
   The members are written so that they are read as themselves: a closing bracket only first or
   escaped, a backslash only escaped, and no single character before a dash unless the dash is last.
   */
  predicate WellSpelled(ms: seq<Member>, first: bool) {
    ms != [] ==>
      && (match ms[0]
          case One(c) => (c == ']' ==> first) && c != '\\' && !StartsSpan(SetText(ms[1..]) + "]")
          case Span(lo, hi) => (lo == ']' ==> first) && lo != '\\' && hi != ']'
          case Quoted(c) => !StartsSpan(SetText(ms[1..]) + "]")
          case QuotedSpan(lo, hi) => hi != ']')
      && WellSpelled(ms[1..], false)
  }

  function RangeOf(m: Member): Range {
    match m
    case One(c) => Range.Range(c, c)
    case Quoted(c) => Range.Range(c, c)
    case Span(lo, hi) => Range.Range(lo, hi)
    case QuotedSpan(lo, hi) => Range.Range(lo, hi)
  }

  function RangesOf(ms: seq<Member>): (r: seq<Range>)
    ensures |r| == |ms|
  {
    seq(|ms|, i requires 0 <= i < |ms| => RangeOf(ms[i]))
  }

  lemma RangesHold(ms: seq<Member>, c: char)
    ensures InRanges(RangesOf(ms), c) <==> InSome(ms, c)
  {
    var rs := RangesOf(ms);
    if InRanges(rs, c) {
      var i :| 0 <= i < |rs| && rs[i].lo <= c <= rs[i].hi;
      assert Holds(ms[i], c);
    }
    if InSome(ms, c) {
      var i :| 0 <= i < |ms| && Holds(ms[i], c);
      assert rs[i].lo <= c <= rs[i].hi;
    }
  }

  /** The set that is read from k on is written here as `ms`, up to its closing bracket. */
  predicate Written(pat: Bytes, j: nat, k: nat, ms: seq<Member>, close: nat) {
    && j <= k <= close < |pat| && pat[k..close] == SetText(ms) && pat[close] == ']'
    && WellSpelled(ms, k == j) && (ms == [] ==> k > j)
  }

  lemma Pieces(pat: Bytes, k: nat, close: nat, a: Bytes, b: Bytes)
    requires k <= close < |pat| && pat[k..close] == a + b
    ensures |a| + |b| == close - k && pat[k + |a|..close] == b
    ensures forall i :: 0 <= i < |a| ==> pat[k + i] == a[i]
    ensures forall i :: 0 <= i < |b| ==> pat[k + |a| + i] == b[i]
  {
    var part := pat[k..close];
    assert part[|a|..] == b && part[..|a|] == a;
    assert forall i :: 0 <= i < |part| ==> pat[k + i] == part[i];
  }

  /** A member is read where its text stands, unless what follows makes it a span. */
  lemma MemberHere(pat: Bytes, k: nat, m: Member, n: nat)
    requires n == k + |MemberText(m)| < |pat| && forall i :: 0 <= i < |MemberText(m)| ==> pat[k + i] == MemberText(m)[i]
    requires m.One? || m.Span? ==> pat[k] != '\\'
    requires (m.Span? || m.QuotedSpan?) ==> m.hi != ']'
    requires (m.One? || m.Quoted?) && n + 1 < |pat| ==> !(pat[n] == '-' && pat[n + 1] != ']')
    ensures MemberAt(pat, k) == (RangeOf(m), n)
  {
    var t := MemberText(m);
    assert pat[k] == t[0] && (|t| > 1 ==> pat[k + 1] == t[1]) && (|t| > 2 ==> pat[k + 2] == t[2]);
    assert |t| > 3 ==> pat[k + 3] == t[3];
  }

  /** One well spelled member is read as that member. */
  lemma MemberRead(pat: Bytes, j: nat, k: nat, ms: seq<Member>, close: nat)
    requires Written(pat, j, k, ms, close) && ms != []
    ensures var n := k + |MemberText(ms[0])|;
            && MemberAt(pat, k) == (RangeOf(ms[0]), n) && Written(pat, j, n, ms[1..], close)
            && !(pat[k] == ']' && k > j)
  {
    hide MemberAt, StartsSpan;
    var m, rest := ms[0], SetText(ms[1..]);
    var n := k + |MemberText(m)|;
    Pieces(pat, k, close, MemberText(m), rest);
    assert pat[k] == MemberText(m)[0];
    NoSpanAfter(pat, n, close, rest);
    MemberHere(pat, k, m, n);
  }

  /** What follows a member is no dash and character, neither in the text nor in the pattern. */
  lemma NoSpanAfter(pat: Bytes, n: nat, close: nat, rest: Bytes)
    requires n <= close < |pat| && pat[n..close] == rest && pat[close] == ']'
    ensures StartsSpan(rest + "]") <==> n + 1 < |pat| && pat[n] == '-' && pat[n + 1] != ']'
  {
    var after := rest + "]";
    assert forall i :: 0 <= i < |rest| ==> pat[n + i] == rest[i];
    assert after[0] == pat[n];
    if |rest| > 0 {
      assert after[1] == pat[n + 1];
    }
  }

  /** A well spelled set is read as its members and closes where it is closed. */
  lemma {:induction false} SetRead(pat: Bytes, j: nat, k: nat, ms: seq<Member>, close: nat)
    requires Written(pat, j, k, ms, close)
    ensures ScanSet(pat, j, k) == Closed(close, RangesOf(ms))
    decreases |ms|
  {
    hide MemberAt;
    if ms == [] {
      assert k == close;
    } else {
      MemberRead(pat, j, k, ms, close);
      SetRead(pat, j, k + |MemberText(ms[0])|, ms[1..], close);
      assert RangesOf(ms) == [RangeOf(ms[0])] + RangesOf(ms[1..]);
    }
  }

  /** And conversely: a set that closes is written as some well spelled members. */
  lemma {:induction false} SetWritten(pat: Bytes, j: nat, k: nat) returns (ms: seq<Member>)
    requires j <= k <= |pat| && ScanSet(pat, j, k).Closed?
    ensures Written(pat, j, k, ms, ScanSet(pat, j, k).close)
    decreases |pat| - k
  {
    hide MemberAt, Written;
    var close := ScanSet(pat, j, k).close;
    if pat[k] == ']' && k > j {
      ms := [];
      WrittenNone(pat, j, k);
    } else {
      var m, n := MemberAs(pat, k);
      var rest := SetWritten(pat, j, n);
      ms := [m] + rest;
      WrittenMore(pat, j, k, m, n, rest, close);
    }
  }

  lemma WrittenNone(pat: Bytes, j: nat, k: nat)
    requires j < k < |pat| && pat[k] == ']'
    ensures Written(pat, j, k, [], k)
  {
  }

  lemma WrittenMore(pat: Bytes, j: nat, k: nat, m: Member, n: nat, rest: seq<Member>, close: nat)
    requires j <= k < n && Written(pat, j, n, rest, close) && !(pat[k] == ']' && k > j)
    requires ReadsAs(pat, k, m, n)
    ensures Written(pat, j, k, [m] + rest, close)
  {
    hide SetText, WellSpelled, StartsSpan;
    var ms := [m] + rest;
    MoreText(m, rest);
    JoinSlices(pat, k, n, close);
    NoSpanAfter(pat, n, close, SetText(rest));
    SpelledMore(m, rest, k == j);
  }

  lemma JoinSlices(pat: Bytes, k: nat, n: nat, close: nat)
    requires k <= n <= close <= |pat|
    ensures pat[k..close] == pat[k..n] + pat[n..close]
    ensures k < n ==> pat[k..n][0] == pat[k]
  {
  }

  lemma MoreText(m: Member, rest: seq<Member>)
    ensures SetText([m] + rest) == MemberText(m) + SetText(rest)
  {
    assert ([m] + rest)[1..] == rest;
  }

  lemma SpelledMore(m: Member, rest: seq<Member>, first: bool)
    requires WellSpelled(rest, false)
    requires (m.One? ==> (m.c == ']' ==> first) && m.c != '\\') && (m.QuotedSpan? ==> m.hi != ']')
    requires m.Span? ==> (m.lo == ']' ==> first) && m.lo != '\\' && m.hi != ']'
    requires m.One? || m.Quoted? ==> !StartsSpan(SetText(rest) + "]")
    ensures WellSpelled([m] + rest, first)
  {
    hide SetText, StartsSpan;
    assert ([m] + rest)[1..] == rest;
  }

  /** The member at k, up to n, with more of the pattern after it, is written as m. */
  predicate ReadsAs(pat: Bytes, k: nat, m: Member, n: nat) {
    k < n < |pat| ==>
      && pat[k..n] == MemberText(m)
      && (m.One? ==> m.c == pat[k] != '\\')
      && (m.Span? ==> m.lo == pat[k] != '\\' && m.hi != ']')
      && (m.QuotedSpan? ==> m.hi != ']')
      && ((m.One? || m.Quoted?) && n + 1 < |pat| ==> !(pat[n] == '-' && pat[n + 1] != ']'))
  }

  /** How the member at k is written. */
  lemma MemberAs(pat: Bytes, k: nat) returns (m: Member, n: nat)
    requires k < |pat|
    ensures n == MemberAt(pat, k).1 && ReadsAs(pat, k, m, n)
  {
    n := MemberAt(pat, k).1;
    var quoted := pat[k] == '\\' && k + 1 < |pat|;
    var at := if quoted then k + 1 else k;
    if at + 2 < |pat| && pat[at + 1] == '-' && pat[at + 2] != ']' {
      m := if quoted then QuotedSpan(pat[at], pat[at + 2]) else Span(pat[at], pat[at + 2]);
    } else {
      m := if quoted then Quoted(pat[at]) else One(pat[at]);
    }
  }

  /** The text after an opening bracket, caret included, that makes up a set. */
  function SetBody(negate: bool, ms: seq<Member>): Bytes {
    (if negate then "^" else []) + SetText(ms)
  }

  /** A set as it has to be written: not empty, well spelled, and without a caret that would negate it. */
  predicate ProperSet(negate: bool, ms: seq<Member>) {
    ms != [] && WellSpelled(ms, true) && (!negate ==> SetText(ms)[0] != '^')
  }

  lemma SetPlaced(negate: bool, ms: seq<Member>, p: Bytes)
    requires ProperSet(negate, ms)
    ensures var pat := "[" + SetBody(negate, ms) + "]" + p;
            var j := if negate then 2 else 1;
            Written(pat, j, j, ms, |SetBody(negate, ms)| + 1) && pat[0] == '[' && (pat[1] == '^' <==> negate)
  {
    hide WellSpelled, SetText;
    var d := if negate then 1 else 0;
    assert SetBody(negate, ms)[d..] == SetText(ms);
    Bracketed(SetBody(negate, ms), p, d);
  }

  lemma Bracketed(body: Bytes, p: Bytes, d: nat)
    requires d <= |body|
    ensures var pat, close := "[" + body + "]" + p, |body| + 1;
            && pat[0] == '[' && pat[close] == ']' && pat[1 + d..close] == body[d..] && pat[close + 1..] == p
            && (body != [] ==> pat[1] == body[0])
  {
  }

  lemma SetToken(negate: bool, ms: seq<Member>, p: Bytes)
    requires ProperSet(negate, ms)
    ensures var pat := "[" + SetBody(negate, ms) + "]" + p;
            TokenAt(pat, 0) == (Class(negate, RangesOf(ms)), |SetBody(negate, ms)| + 2)
  {
    hide Written, ScanSet, SetBody, ProperSet, RangesOf;
    var close := |SetBody(negate, ms)| + 1;
    var pat := "[" + SetBody(negate, ms) + "]" + p;
    var j := if negate then 2 else 1;
    SetPlaced(negate, ms, p);
    SetRead(pat, j, j, ms, close);
    assert TokenAt(pat, 0).1 == close + 1;
  }

  /** A bracketed set stands for one character that is, or with a caret is not, in one of its members. */
  lemma SetPattern(negate: bool, ms: seq<Member>, p: Bytes, s: Bytes)
    requires ProperSet(negate, ms)
    ensures GlobMatches("[" + SetBody(negate, ms) + "]" + p, s) <==>
            s != [] && InSome(ms, s[0]) != negate && GlobMatches(p, s[1..])
  {
    hide TokenAt, InRanges, InSome, ScanSet;
    var body := SetBody(negate, ms);
    var pat := "[" + body + "]" + p;
    SetToken(negate, ms, p);
    assert pat[|body| + 2..] == p;
    UnitFirst(pat, s, Class(negate, RangesOf(ms)), p);
    if s != [] {
      RangesHold(ms, s[0]);
    }
  }

  /** Some set begins here. */
  ghost predicate BeginsSet(q: Bytes) {
    exists negate, ms, p :: ProperSet(negate, ms) && q == SetBody(negate, ms) + "]" + p
  }

  lemma ClosedBegins(q: Bytes, negate: bool, j: nat)
    requires negate == (q != [] && q[0] == '^') && j == (if negate then 2 else 1)
    requires ScanSet("[" + q, j, j).Closed?
    ensures BeginsSet(q)
  {
    hide ScanSet, WellSpelled, SetText;
    var pat := "[" + q;
    var close := ScanSet(pat, j, j).close;
    var ms := SetWritten(pat, j, j);
    Unbracketed(q, j, close);
    assert pat[1..j] == if negate then "^" else [];
    assert q == SetBody(negate, ms) + "]" + pat[close + 1..];
  }

  lemma Unbracketed(q: Bytes, j: nat, close: nat)
    requires 1 <= j < close <= |q|
    ensures var pat := "[" + q;
            && q == pat[1..j] + pat[j..close] + [pat[close]] + pat[close + 1..]
            && pat[j..close][0] == q[j - 1] && (j == 2 ==> pat[1..j] == [q[0]])
  {
  }

  /** A bracket that begins no set stands for itself; in particular one with no closing bracket after it. */
  lemma BracketPattern(q: Bytes, s: Bytes)
    requires !BeginsSet(q)
    ensures GlobMatches("[" + q, s) <==> s != [] && s[0] == '[' && GlobMatches(q, s[1..])
  {
    var pat := "[" + q;
    var negate := q != [] && q[0] == '^';
    var j := if negate then 2 else 1;
    if ScanSet(pat, j, j).Closed? {
      ClosedBegins(q, negate, j);
    }
    assert pat[1..] == q;
    UnitFirst(pat, s, Literal('['), q);
  }

  lemma NothingCloses(q: Bytes)
    requires ']' !in q
    ensures !BeginsSet(q)
  {
    forall negate, ms, p | ProperSet(negate, ms)
      ensures q != SetBody(negate, ms) + "]" + p
    {
      assert ']' in SetBody(negate, ms) + "]" + p;
    }
  }
}
