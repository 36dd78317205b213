/**
 * `re.fullmatch` on the patterns the keyword script builds.
 *
 * A compiled keyword name is "^", then literal characters and capture groups
 * "(.*)", then "$". On that fragment Python's backtracking matcher is modelled
 * exactly: a literal character matches itself, "(.*)" matches any run of
 * characters other than a newline, and the greedy star first tries the longest
 * run and backs off one character at a time until the rest of the pattern matches.
 * Literal text holding a regular-expression metacharacter is outside the fragment.
 */
module Regex {
  import opened Wrappers
  import opened Templates

  /** A pattern body of the fragment: capture groups and literal characters that are not metacharacters. */
  predicate PatternBody(b: string) {
    b == [] || (Group <= b && PatternBody(b[|Group|..])) || (b[0] !in Meta && PatternBody(b[1..]))
  }

  /** An anchored pattern of the fragment, "^" + body + "$". */
  predicate WellFormedPattern(p: string) {
    |p| >= 2 && p[0] == '^' && p[|p| - 1] == '$' && PatternBody(p[1..|p| - 1])
  }

  /**
   * The template a pattern body denotes: one hole per capture group, literal runs
   * of characters that are not metacharacters for the rest.
   */
  function ReadPattern(b: string): (t: seq<Seg>)
    requires PatternBody(b)
    ensures Plain(t)
    decreases |b|
  {
    if b == [] then []
    else if Group <= b then
      var rest := ReadPattern(b[|Group|..]);
      assert ([Hole] + rest)[1..] == rest;
      [Hole] + rest
    else
      ConsLit(b[0], ReadPattern(b[1..]))
  }

  /** Writing the template of a pattern body back, with a group in every hole, gives the body. */
  lemma {:induction false} ReadPatternRoundTrip(b: string)
    requires PatternBody(b)
    ensures Fill(ReadPattern(b), Groups(Holes(ReadPattern(b)))) == b
    decreases |b|
  {
    if b != [] {
      if Group <= b {
        ReadPatternRoundTrip(b[|Group|..]);
        RoundTripGroup(b);
      } else {
        ReadPatternRoundTrip(b[1..]);
        RoundTripLiteral(b);
      }
    }
  }

  /** The round trip over a body that starts with a group. */
  lemma RoundTripGroup(b: string)
    requires PatternBody(b) && Group <= b
    requires Fill(ReadPattern(b[|Group|..]), Groups(Holes(ReadPattern(b[|Group|..])))) == b[|Group|..]
    ensures Fill(ReadPattern(b), Groups(Holes(ReadPattern(b)))) == b
  {
    var rest := ReadPattern(b[|Group|..]);
    assert ReadPattern(b) == [Hole] + rest;
    FillHole(rest, Group, Groups(Holes(rest)));
    assert Groups(Holes(rest) + 1) == [Group] + Groups(Holes(rest));
    assert b[..|Group|] == Group;
    TakeDrop(b, |Group|);
  }

  /** The round trip over a body that starts with a literal character. */
  lemma RoundTripLiteral(b: string)
    requires PatternBody(b) && b != [] && !(Group <= b)
    requires Fill(ReadPattern(b[1..]), Groups(Holes(ReadPattern(b[1..])))) == b[1..]
    ensures Fill(ReadPattern(b), Groups(Holes(ReadPattern(b)))) == b
  {
    var rest := ReadPattern(b[1..]);
    assert ReadPattern(b) == ConsLit(b[0], rest);
    assert Fill(ConsLit(b[0], rest), Groups(Holes(rest))) == [b[0]] + b[1..];
    TakeDrop(b, 1);
  }

  /** The captures `caps` fill the holes of `t` so that the result is `s`, and `.` never matched a newline. */
  predicate Fits(t: seq<Seg>, s: string, caps: seq<string>) {
    && |caps| == Holes(t)
    && (forall c :: c in caps ==> NoNewline(c))
    && Fill(t, caps) == s
  }

  /** `s` is an instance of the template `t`. */
  ghost predicate Matches(t: seq<Seg>, s: string) {
    exists caps :: Fits(t, s, caps)
  }

  /** How far a "(.*)" can reach: the length of the longest prefix of `s` without a newline. */
  function MaxRun(s: string): (r: nat)
    ensures r <= |s| && NoNewline(s[..r])
    ensures r < |s| ==> s[r] == '\n'
  {
    if s == [] || s[0] == '\n' then 0
    else
      var r' := MaxRun(s[1..]);
      assert s[..1 + r'] == [s[0]] + s[1..][..r'];
      1 + r'
  }

  /**
   * The backtracking matcher: the groups captured by a full match of `t` against
   * `s`, or None when there is no match.
   */
  function Match(t: seq<Seg>, s: string): (r: Option<seq<string>>)
    ensures r.Some? ==> Fits(t, s, r.value)
    decreases |t|, 0, 0
  {
    if t == [] then
      if s == [] then Some([]) else None
    else match t[0]
      case Lit(l) =>
        if l <= s then
          assert s == l + s[|l|..];
          Match(t[1..], s[|l|..])
        else None
      case Hole =>
        assert t == [Hole] + t[1..];
        TryHole(t[1..], s, MaxRun(s))
  }

  /** A group in front of `rest` that first tries to capture `s[..k]`, then shorter runs. */
  function TryHole(rest: seq<Seg>, s: string, k: nat): (r: Option<seq<string>>)
    requires k <= |s| && NoNewline(s[..k])
    ensures r.Some? ==> Fits([Hole] + rest, s, r.value) && r.value != []
    decreases |rest|, 1, k
  {
    match Match(rest, s[k..])
    case Some(caps) =>
      var t := [Hole] + rest;
      assert t[0] == Hole && t[1..] == rest;
      assert s == s[..k] + s[k..];
      Some([s[..k]] + caps)
    case None =>
      if k == 0 then None
      else
        assert s[..k - 1] == s[..k][..k - 1];
        TryHole(rest, s, k - 1)
  }

  /** `re.fullmatch(p, s)`: the captured groups, in order, or None. */
  function FullMatch(p: string, s: string): Option<seq<string>>
    requires WellFormedPattern(p)
  {
    Match(ReadPattern(p[1..|p| - 1]), s)
  }

  /**
   * `a` prefers longer captures than `b`, earliest group first: the order in which
   * a greedy backtracking matcher tries the splits of its input.
   */
  predicate Greedier(a: seq<string>, b: seq<string>) {
    |a| == |b| && (a == [] || |a[0]| > |b[0]| || (a[0] == b[0] && Greedier(a[1..], b[1..])))
  }

  lemma MaxRunLongest(s: string, j: nat)
    requires j <= |s| && NoNewline(s[..j])
    ensures j <= MaxRun(s)
  {
  }

  /**
   * If `rest` matches after the first `j` characters, a group allowed up to `k >= j`
   * characters succeeds, and captures either more than `j` characters or exactly
   * `s[..j]` followed by the captures of `rest` there.
   */
  lemma {:induction false} TryHoleGreedy(rest: seq<Seg>, s: string, k: nat, j: nat)
    requires j <= k <= |s| && NoNewline(s[..k])
    requires Match(rest, s[j..]).Some?
    ensures TryHole(rest, s, k).Some?
    ensures var c := TryHole(rest, s, k).value;
      |c[0]| > j || c == [s[..j]] + Match(rest, s[j..]).value
    decreases k
  {
    if Match(rest, s[k..]).None? {
      TryHoleSkip(rest, s, k);
      TryHoleGreedy(rest, s, k - 1, j);
    } else {
      TryHoleHit(rest, s, k);
    }
  }

  /**
   * A group allowed up to `k` characters captures the longest run `s[..j]` after
   * which the rest of the pattern matches.
   */
  lemma {:induction false} TryHoleLongest(rest: seq<Seg>, s: string, k: nat, j: nat)
    requires j <= k <= |s| && NoNewline(s[..k])
    requires Match(rest, s[j..]).Some?
    requires forall m :: j < m <= k ==> Match(rest, s[m..]).None?
    ensures TryHole(rest, s, k) == Some([s[..j]] + Match(rest, s[j..]).value)
    decreases k
  {
    if k > j {
      assert Match(rest, s[k..]).None?;
      TryHoleSkip(rest, s, k);
      TryHoleLongest(rest, s, k - 1, j);
    } else {
      TryHoleHit(rest, s, k);
    }
  }

  /** A leading literal consumes its own text, or the match fails. */
  lemma MatchLit(l: string, rest: seq<Seg>, s: string)
    ensures Match([Lit(l)] + rest, s) == if l <= s then Match(rest, s[|l|..]) else None
  {
    var t := [Lit(l)] + rest;
    assert t[0] == Lit(l) && t[1..] == rest;
  }

  /** A leading group first tries the longest newline-free run. */
  lemma MatchHole(rest: seq<Seg>, s: string)
    ensures Match([Hole] + rest, s) == TryHole(rest, s, MaxRun(s))
  {
    var t := [Hole] + rest;
    assert t[0] == Hole && t[1..] == rest;
  }

  /**
   * A leading group captures the longest newline-free prefix `s[..j]` after which
   * the rest of the pattern matches.
   */
  lemma HoleLongest(rest: seq<Seg>, s: string, j: nat)
    requires j <= |s| && NoNewline(s[..j])
    requires Match(rest, s[j..]).Some?
    requires forall m :: j < m <= |s| ==> Match(rest, s[m..]).None?
    ensures Match([Hole] + rest, s) == Some([s[..j]] + Match(rest, s[j..]).value)
  {
    MatchHole(rest, s);
    MaxRunLongest(s, j);
    TryHoleLongest(rest, s, MaxRun(s), j);
  }

  /** When the rest does not match after `k` characters, the group backs off by one. */
  lemma TryHoleSkip(rest: seq<Seg>, s: string, k: nat)
    requires 0 < k <= |s| && NoNewline(s[..k])
    requires Match(rest, s[k..]).None?
    ensures NoNewline(s[..k - 1])
    ensures TryHole(rest, s, k) == TryHole(rest, s, k - 1)
  {
    assert s[..k - 1] == s[..k][..k - 1];
  }

  /** When the rest matches after `k` characters, the group captures `s[..k]`. */
  lemma TryHoleHit(rest: seq<Seg>, s: string, k: nat)
    requires k <= |s| && NoNewline(s[..k])
    requires Match(rest, s[k..]).Some?
    ensures TryHole(rest, s, k) == Some([s[..k]] + Match(rest, s[k..]).value)
  {
  }

  /**
   * Every split of `s` that fits `t` is found: the matcher succeeds, and its
   * captures are greedier than (or equal to) those of the split.
   */
  lemma {:induction false} MatchGreedy(t: seq<Seg>, s: string, other: seq<string>)
    requires Fits(t, s, other)
    ensures Match(t, s).Some?
    ensures Greedier(Match(t, s).value, other)
    decreases |t|
  {
    if t == [] {
    } else {
      match t[0]
      case Lit(l) =>
        assert s == l + Fill(t[1..], other);
        assert s[|l|..] == Fill(t[1..], other);
        MatchGreedy(t[1..], s[|l|..], other);
      case Hole =>
        var rest, o := t[1..], other[1..];
        var j := |other[0]|;
        assert s == other[0] + Fill(rest, o);
        assert s[..j] == other[0] && s[j..] == Fill(rest, o);
        assert forall c :: c in o ==> c in other;
        MaxRunLongest(s, j);
        MatchGreedy(rest, s[j..], o);
        TryHoleGreedy(rest, s, MaxRun(s), j);
    }
  }

  /** The matcher succeeds exactly on the instances of the template. */
  lemma MatchIff(t: seq<Seg>, s: string)
    ensures Match(t, s).Some? <==> Matches(t, s)
  {
    if Matches(t, s) {
      var caps :| Fits(t, s, caps);
      MatchGreedy(t, s, caps);
    }
  }

  /**
   * Compiling a keyword name whose literal text has no metacharacter gives a pattern
   * of the fragment, and that pattern denotes exactly the name's template.
   */
  lemma {:induction false} CompileReads(name: string)
    requires Plain(Parse(name))
    ensures PatternBody(Substitute(name))
    ensures ReadPattern(Substitute(name)) == Parse(name)
    decreases |name|
  {
    if name != [] {
      var r := PlaceholderLength(name);
      if r.Some? {
        var k := r.value;
        var body := Substitute(name[k..]);
        assert ([Hole] + Parse(name[k..]))[1..] == Parse(name[k..]);
        CompileReads(name[k..]);
        assert (Group + body)[|Group|..] == body;
      } else {
        var body := Substitute(name[1..]);
        CompileReads(name[1..]);
        assert ([name[0]] + body)[1..] == body;
      }
    }
  }

  /** Full-matching a compiled keyword name is matching against its template. */
  lemma CompileFullMatch(name: string, s: string)
    requires Plain(Parse(name))
    ensures WellFormedPattern(Compile(name))
    ensures FullMatch(Compile(name), s) == Match(Parse(name), s)
  {
    CompileReads(name);
    var p := Compile(name);
    assert p[1..|p| - 1] == Substitute(name);
  }

  /**
   * A keyword name without placeholders compiles to a pattern that full-matches
   * that name and nothing else.
   */
  lemma NoPlaceholderExact(name: string, s: string)
    requires Plain(Parse(name)) && Placeholders(name) == []
    ensures WellFormedPattern(Compile(name))
    ensures FullMatch(Compile(name), s).Some? <==> s == name
  {
    CompileFullMatch(name, s);
    ParseRoundTrip(name);
    var t := Parse(name);
    if s == name {
      assert Fits(t, s, []);
      MatchGreedy(t, s, []);
    }
  }

  /**
   * Putting any newline-free texts into the placeholders of a keyword name gives an
   * instruction its compiled pattern full-matches, with captures at least as greedy
   * as the texts put in.
   */
  lemma SubstitutionMatches(name: string, vals: seq<string>)
    requires Plain(Parse(name))
    requires |vals| == |Placeholders(name)| && forall v :: v in vals ==> NoNewline(v)
    ensures WellFormedPattern(Compile(name))
    ensures FullMatch(Compile(name), Fill(Parse(name), vals)).Some?
    ensures Greedier(FullMatch(Compile(name), Fill(Parse(name), vals)).value, vals)
    ensures var caps := FullMatch(Compile(name), Fill(Parse(name), vals)).value;
      |caps| == |vals| && Fill(Parse(name), caps) == Fill(Parse(name), vals)
  {
    var s := Fill(Parse(name), vals);
    CompileFullMatch(name, s);
    MatchGreedy(Parse(name), s, vals);
  }
}
