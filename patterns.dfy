/**
 * The access-log line grammar of utils/patterns.py,
 *
 *   IP - - [DATE] "REQUEST" STATUS SIZE "REFERER" "USER_AGENT" "-"
 *
 * given twice: as a reference grammar (`Render` of well-formed `Groups`) and as
 * the recognizer `Search` that models `re.search` with the composed pattern.
 * Each group of the pattern is followed by a delimiter it cannot contain, so at
 * a fixed start position at most one match exists and the regex engine's
 * backtracking order cannot change which groups are captured.
 */
module Patterns {
  import opened Wrappers
  import opened Text

  /** The seven capture groups, in the pattern's order. */
  datatype Groups = Groups(
    ip: string, date: string, request: string, status: string,
    size: string, referer: string, userAgent: string)

  /** `match.groups()`: the groups as a tuple, in order. */
  function Tuple(g: Groups): (t: seq<string>)
    ensures |t| == 7
    ensures t[0] == g.ip && t[1] == g.date && t[2] == g.request && t[3] == g.status
    ensures t[4] == g.size && t[5] == g.referer && t[6] == g.userAgent
  {
    [g.ip, g.date, g.request, g.status, g.size, g.referer, g.userAgent]
  }

  // The literal text between (and after) the groups.
  const IpCloser := " - - ["
  const DateCloser := "] \""
  const RequestCloser := "\" "
  const StatusCloser := " "
  const SizeCloser := " \""
  const RefererCloser := "\" \""
  const Trailer := "\" \"-\""

  predicate IsIpChar(c: char) { IsDigit(c) || c == '.' }
  predicate NotBracket(c: char) { c != ']' }
  predicate NotQuote(c: char) { c != '"' }

  /** `(?:\d{1,3}\.?){k}`: k runs of one to three digits, each optionally followed by a dot. */
  predicate Runs(s: string, k: nat)
    decreases k, 1
  {
    if k == 0 then s == []
    else RunOf(s, 1, k) || RunOf(s, 2, k) || RunOf(s, 3, k)
  }

  predicate RunOf(s: string, n: nat, k: nat)
    requires 1 <= k
    decreases k, 0
  {
    && n <= |s| && All(s[..n], IsDigit)
    && (Runs(s[n..], k - 1) || (n < |s| && s[n] == '.' && Runs(s[n + 1..], k - 1)))
  }

  /** The IP fragment: `((?:\d{1,3}\.?){4})`. */
  predicate IpShape(s: string) { Runs(s, 4) }

  /** What each group of the pattern admits. */
  predicate WellFormed(g: Groups) {
    && IpShape(g.ip)
    && g.date != [] && All(g.date, NotBracket)
    && g.request != [] && All(g.request, NotQuote)
    && |g.status| == 3 && All(g.status, IsDigit)
    && g.size != [] && All(g.size, IsDigit)
    && g.referer != [] && All(g.referer, NotQuote)
    && g.userAgent != [] && All(g.userAgent, NotQuote)
  }

  /** The text a match covers: the reference grammar of one log line. */
  function Render(g: Groups): string {
    RenderThen(g, [])
  }

  /** `Render(g) + t`, written the way the pattern consumes it, group by group. */
  function RenderThen(g: Groups, t: string): string {
    g.ip + (IpCloser + FromDate(g, t))
  }

  function FromDate(g: Groups, t: string): string {
    g.date + (DateCloser + FromRequest(g, t))
  }

  function FromRequest(g: Groups, t: string): string {
    g.request + (RequestCloser + FromStatus(g, t))
  }

  function FromStatus(g: Groups, t: string): string {
    g.status + (StatusCloser + FromSize(g, t))
  }

  function FromSize(g: Groups, t: string): string {
    g.size + (SizeCloser + FromReferer(g, t))
  }

  function FromReferer(g: Groups, t: string): string {
    g.referer + (RefererCloser + FromUserAgent(g, t))
  }

  function FromUserAgent(g: Groups, t: string): string {
    g.userAgent + (Trailer + t)
  }

  lemma Assoc3(x: string, c: string, f: string, t: string)
    ensures x + (c + (f + t)) == (x + (c + f)) + t
  {
  }

  lemma RenderThenIsAppend(g: Groups, t: string)
    ensures RenderThen(g, t) == Render(g) + t
  {
    Assoc3(g.userAgent, Trailer, [], t);
    assert FromUserAgent(g, t) == FromUserAgent(g, []) + t;
    Assoc3(g.referer, RefererCloser, FromUserAgent(g, []), t);
    Assoc3(g.size, SizeCloser, FromReferer(g, []), t);
    Assoc3(g.status, StatusCloser, FromSize(g, []), t);
    Assoc3(g.request, RequestCloser, FromStatus(g, []), t);
    Assoc3(g.date, DateCloser, FromRequest(g, []), t);
    Assoc3(g.ip, IpCloser, FromDate(g, []), t);
  }

  /** The groups have a match at position `j` of `line`. */
  ghost predicate OccursAt(line: string, j: nat) {
    j <= |line| && exists g :: WellFormed(g) && Render(g) <= line[j..]
  }

  lemma {:induction false} RunsFacts(s: string, k: nat)
    requires Runs(s, k)
    ensures All(s, IsIpChar) && k <= |s| <= 4 * k
    decreases k, 1
  {
    if k > 0 {
      if RunOf(s, 1, k) {
        RunOfFacts(s, 1, k);
      } else if RunOf(s, 2, k) {
        RunOfFacts(s, 2, k);
      } else {
        RunOfFacts(s, 3, k);
      }
    }
  }

  lemma {:induction false} RunOfFacts(s: string, n: nat, k: nat)
    requires 1 <= k && 1 <= n <= 3 && RunOf(s, n, k)
    ensures All(s, IsIpChar) && k <= |s| <= 4 * k
    decreases k, 0
  {
    if Runs(s[n..], k - 1) {
      RunsFacts(s[n..], k - 1);
      assert s == s[..n] + s[n..];
    } else {
      RunsFacts(s[n + 1..], k - 1);
      assert s == s[..n] + [s[n]] + s[n + 1..];
    }
  }

  /** The IP group holds only digits and dots, between 4 and 16 of them. */
  lemma IpShapeChars(s: string)
    requires IpShape(s)
    ensures All(s, IsIpChar) && 4 <= |s| <= 16
  {
    RunsFacts(s, 4);
  }

  /**
   * One group followed by its closing literal: the longest run of characters
   * satisfying `p`, which must be non-empty and followed by `closer`.
   */
  function Field(s: string, p: char -> bool, closer: string): (r: Option<(string, string)>)
    ensures r.Some? ==> r.value.0 != [] && All(r.value.0, p) && s == r.value.0 + (closer + r.value.1)
  {
    var f := TakeWhile(s, p);
    var rest := s[|f|..];
    assert s == f + rest;
    if f != [] && closer <= rest then
      assert rest == closer + rest[|closer|..];
      Some((f, rest[|closer|..]))
    else None
  }

  lemma FieldOf(x: string, closer: string, y: string, p: char -> bool)
    requires x != [] && All(x, p) && closer != [] && !p(closer[0])
    ensures Field(x + (closer + y), p, closer) == Some((x, y))
  {
    TakeWhileOf(x, closer + y, p);
    assert (x + (closer + y))[|x|..] == closer + y;
    assert (closer + y)[|closer|..] == y;
  }

  /** The pattern anchored at the start of `s` (what `re.match` would find). */
  function MatchPrefix(s: string): (r: Option<Groups>)
    ensures r.Some? ==> WellFormed(r.value) && Render(r.value) <= s
  {
    var (ip, s1) :- Field(s, IsIpChar, IpCloser);
    if !IpShape(ip) then None else
    var (date, s2) :- Field(s1, NotBracket, DateCloser);
    var (request, s3) :- Field(s2, NotQuote, RequestCloser);
    var (status, s4) :- Field(s3, IsDigit, StatusCloser);
    if |status| != 3 then None else
    var (size, s5) :- Field(s4, IsDigit, SizeCloser);
    var (referer, s6) :- Field(s5, NotQuote, RefererCloser);
    var (userAgent, s7) :- Field(s6, NotQuote, Trailer);
    var g := Groups(ip, date, request, status, size, referer, userAgent);
    assert s == RenderThen(g, s7);
    RenderThenIsAppend(g, s7);
    Some(g)
  }

  /** A well-formed line is recognized, with exactly its own groups, whatever follows it. */
  lemma Recognized(g: Groups, t: string)
    requires WellFormed(g)
    ensures MatchPrefix(Render(g) + t) == Some(g)
  {
    IpShapeChars(g.ip);
    RenderThenIsAppend(g, t);
    var s7 := t;
    var s6 := FromUserAgent(g, t);
    var s5 := FromReferer(g, t);
    var s4 := FromSize(g, t);
    var s3 := FromStatus(g, t);
    var s2 := FromRequest(g, t);
    var s1 := FromDate(g, t);
    FieldOf(g.ip, IpCloser, s1, IsIpChar);
    FieldOf(g.date, DateCloser, s2, NotBracket);
    FieldOf(g.request, RequestCloser, s3, NotQuote);
    FieldOf(g.status, StatusCloser, s4, IsDigit);
    FieldOf(g.size, SizeCloser, s5, IsDigit);
    FieldOf(g.referer, RefererCloser, s6, NotQuote);
    FieldOf(g.userAgent, Trailer, s7, NotQuote);
  }

  /** The recognizer accepts exactly the texts that begin with a rendering of well-formed groups. */
  lemma RecognizerExact(s: string, g: Groups)
    ensures MatchPrefix(s) == Some(g) <==> WellFormed(g) && Render(g) <= s
  {
    if WellFormed(g) && Render(g) <= s {
      Recognized(g, s[|Render(g)|..]);
      assert s == Render(g) + s[|Render(g)|..];
    }
  }

  /** At one position the groups are determined: the grammar is unambiguous. */
  lemma Unambiguous(s: string, g1: Groups, g2: Groups)
    requires WellFormed(g1) && Render(g1) <= s
    requires WellFormed(g2) && Render(g2) <= s
    ensures g1 == g2
  {
    RecognizerExact(s, g1);
    RecognizerExact(s, g2);
  }

  lemma RecognizerExactAt(line: string, j: nat)
    requires j <= |line|
    ensures MatchPrefix(line[j..]).None? <==> !OccursAt(line, j)
  {
    if m: Groups :| WellFormed(m) && Render(m) <= line[j..] {
      RecognizerExact(line[j..], m);
    }
  }

  /** A match of `re.search`: where it starts, and its groups. */
  datatype Match = Match(start: nat, groups: Groups)

  /** `re.search` from position `i` on: the first start position with a match. */
  function SearchFrom(line: string, i: nat): (r: Option<Match>)
    requires i <= |line|
    ensures r.Some? ==> i <= r.value.start <= |line|
                        && MatchPrefix(line[r.value.start..]) == Some(r.value.groups)
                        && forall j :: i <= j < r.value.start ==> MatchPrefix(line[j..]).None?
    ensures r.None? ==> forall j :: i <= j <= |line| ==> MatchPrefix(line[j..]).None?
    decreases |line| - i
  {
    var m := MatchPrefix(line[i..]);
    if m.Some? then Some(Match(i, m.value))
    else if i == |line| then None
    else SearchFrom(line, i + 1)
  }

  /**
   * `re.search(NGINX_LOG_LINE, line)`: the leftmost position where the
   * reference grammar occurs, with the groups found there; `None` exactly when
   * it occurs nowhere. The line is prefix + matched text + suffix.
   */
  function Search(line: string): (r: Option<Match>)
    ensures r.Some? ==> var m := r.value;
                        && m.start + |Render(m.groups)| <= |line| && WellFormed(m.groups)
                        && line == line[..m.start] + Render(m.groups) + line[m.start + |Render(m.groups)|..]
                        && forall j :: 0 <= j < m.start ==> !OccursAt(line, j)
    ensures r.None? <==> forall j :: 0 <= j <= |line| ==> !OccursAt(line, j)
  {
    SearchFromStart(line);
    SearchFrom(line, 0)
  }

  /** The scan from the start of the line, restated in terms of the reference grammar. */
  lemma SearchFromStart(line: string)
    ensures var r := SearchFrom(line, 0);
            && (r.Some? ==> var m := r.value;
                            && m.start + |Render(m.groups)| <= |line| && WellFormed(m.groups)
                            && line == line[..m.start] + Render(m.groups) + line[m.start + |Render(m.groups)|..]
                            && forall j :: 0 <= j < m.start ==> !OccursAt(line, j))
            && (r.None? <==> forall j :: 0 <= j <= |line| ==> !OccursAt(line, j))
  {
    var r := SearchFrom(line, 0);
    if r.Some? {
      FoundAt(line, r.value);
      RecognizerExactAt(line, r.value.start);
      forall j | 0 <= j < r.value.start
        ensures !OccursAt(line, j)
      {
        RecognizerExactAt(line, j);
      }
    } else {
      forall j | 0 <= j <= |line|
        ensures !OccursAt(line, j)
      {
        RecognizerExactAt(line, j);
      }
    }
  }

  /** Where the recognizer succeeds, the rendered groups sit in the line at that position. */
  lemma FoundAt(line: string, m: Match)
    requires m.start <= |line| && MatchPrefix(line[m.start..]) == Some(m.groups)
    ensures m.start + |Render(m.groups)| <= |line| && WellFormed(m.groups)
    ensures line == line[..m.start] + Render(m.groups) + line[m.start + |Render(m.groups)|..]
  {
    var x := Render(m.groups);
    assert WellFormed(m.groups) && x <= line[m.start..] by {
      RecognizerExact(line[m.start..], m.groups);
    }
    Splice(line, m.start, x);
  }

  lemma Splice(line: string, start: nat, x: string)
    requires start <= |line| && x <= line[start..]
    ensures line == line[..start] + x + line[start + |x|..]
  {
    assert line[start..] == x + line[start + |x|..];
    assert line == line[..start] + line[start..];
  }

  /** `pat` occurs in `s` at position `k`. */
  predicate OccursIn(pat: string, s: string, k: nat) {
    k + |pat| <= |s| && s[k..k + |pat|] == pat
  }

  lemma OccursInside(line: string, start: nat, x: string, off: nat, pat: string)
    requires start <= |line| && x <= line[start..] && OccursIn(pat, x, off)
    ensures OccursIn(pat, line, start + off)
  {
    assert line[start + off..start + off + |pat|] == x[off..off + |pat|];
  }

  /** What occurs in a text spliced into a line occurs in the line. */
  lemma RenderedAt(line: string, start: nat, x: string, off: nat, pat: string)
    requires start + |x| <= |line| && line == line[..start] + x + line[start + |x|..]
    requires OccursIn(pat, x, off)
    ensures OccursIn(pat, line, start + off)
  {
    assert x <= line[start..] by {
      assert line[start..] == x + line[start + |x|..];
    }
    OccursInside(line, start, x, off, pat);
  }

  lemma {:induction false} TrailerEndsRender(g: Groups)
    ensures OccursIn(Trailer, Render(g), |Render(g)| - |Trailer|)
  {
    assert FromUserAgent(g, [])[|FromUserAgent(g, [])| - 5..] == Trailer;
    EndsWithPrefixed(g.referer + RefererCloser, FromUserAgent(g, []));
    EndsWithPrefixed(g.size + SizeCloser, FromReferer(g, []));
    EndsWithPrefixed(g.status + StatusCloser, FromSize(g, []));
    EndsWithPrefixed(g.request + RequestCloser, FromStatus(g, []));
    EndsWithPrefixed(g.date + DateCloser, FromRequest(g, []));
    EndsWithPrefixed(g.ip + IpCloser, FromDate(g, []));
  }

  lemma EndsWithPrefixed(a: string, y: string)
    requires |y| >= 5
    ensures (a + y)[|a + y| - 5..] == y[|y| - 5..]
  {
  }

  /**
   * A line in which the closing `" "-"` (the quote ending the user agent and
   * the quoted dash after it) occurs nowhere never matches.
   */
  lemma NoTrailerNoMatch(line: string)
    requires forall k :: 0 <= k <= |line| ==> !OccursIn(Trailer, line, k)
    ensures Search(line) == None
  {
    if Search(line).Some? {
      var m := Search(line).value;
      var x := Render(m.groups);
      TrailerEndsRender(m.groups);
      var off := |x| - |Trailer|;
      RenderedAt(line, m.start, x, off, Trailer);
    }
  }

  /** A line in which ` - - ` occurs nowhere never matches. */
  lemma NoDashesNoMatch(line: string)
    requires forall k :: 0 <= k <= |line| ==> !OccursIn(" - - ", line, k)
    ensures Search(line) == None
  {
    if Search(line).Some? {
      var m := Search(line).value;
      DashesInRender(m.groups);
      RenderedAt(line, m.start, Render(m.groups), |m.groups.ip|, " - - ");
    }
  }

  lemma DashesInRender(g: Groups)
    ensures OccursIn(" - - ", Render(g), |g.ip|)
  {
    var rest := IpCloser + FromDate(g, []);
    assert Render(g) == g.ip + rest;
    assert rest[..5] == IpCloser[..5] == " - - ";
    assert Render(g)[|g.ip|..|g.ip| + 5] == rest[..5];
  }

  /**
   * An empty quoted referer, `""`, is not matched where the line starts,
   * although every other group is well formed.
   */
  lemma EmptyRefererRejected(g: Groups, t: string)
    requires WellFormed(g)
    ensures MatchPrefix(Render(g.(referer := [])) + t) == None
  {
    var h := g.(referer := []);
    RenderThenIsAppend(h, t);
    IpShapeChars(g.ip);
    FieldOf(g.ip, IpCloser, FromDate(h, t), IsIpChar);
    FieldOf(g.date, DateCloser, FromRequest(h, t), NotBracket);
    FieldOf(g.request, RequestCloser, FromStatus(h, t), NotQuote);
    FieldOf(g.status, StatusCloser, FromSize(h, t), IsDigit);
    FieldOf(g.size, SizeCloser, FromReferer(h, t), IsDigit);
    EmptyField(FromReferer(h, t), NotQuote, RefererCloser);
  }

  /** Likewise an empty quoted user agent. */
  lemma EmptyUserAgentRejected(g: Groups, t: string)
    requires WellFormed(g)
    ensures MatchPrefix(Render(g.(userAgent := [])) + t) == None
  {
    var h := g.(userAgent := []);
    RenderThenIsAppend(h, t);
    IpShapeChars(g.ip);
    FieldOf(g.ip, IpCloser, FromDate(h, t), IsIpChar);
    FieldOf(g.date, DateCloser, FromRequest(h, t), NotBracket);
    FieldOf(g.request, RequestCloser, FromStatus(h, t), NotQuote);
    FieldOf(g.status, StatusCloser, FromSize(h, t), IsDigit);
    FieldOf(g.size, SizeCloser, FromReferer(h, t), IsDigit);
    FieldOf(g.referer, RefererCloser, FromUserAgent(h, t), NotQuote);
    EmptyField(FromUserAgent(h, t), NotQuote, Trailer);
  }

  /** A field cannot be empty: text that starts with a character outside it has none. */
  lemma EmptyField(s: string, p: char -> bool, closer: string)
    requires s != [] && !p(s[0])
    ensures Field(s, p, closer) == None
  {
  }
}
