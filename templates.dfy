/**
 * Keyword name templates such as "Add ${first} and ${second}".
 *
 * The script turns a template into a regular expression by substituting the
 * capture group "(.*)" for every match of the placeholder pattern `\$\{.+?\}`;
 * every other character is copied unchanged. This module models that scan
 * exactly, including the lazy `.+?`, which stops at the first closing brace
 * after the first content character and cannot cross a newline. It also splits
 * a template into its literal text and its holes.
 */
module Templates {
  import opened Wrappers

  /** A template is a sequence of literal runs and holes (one per placeholder). */
  datatype Seg = Lit(text: string) | Hole

  /** The text every placeholder is replaced by. */
  const Group: string := "(.*)"

  /** The characters that are operators, not literals, in a Python regular expression. */
  const Meta: set<char> := {'.', '^', '$', '*', '+', '?', '{', '}', '[', ']', '\\', '|', '(', ')'}

  predicate NoNewline(x: string) {
    '\n' !in x
  }

  /**
   * `p` is one match of the placeholder pattern `\$\{.+?\}`: "${", at least one
   * character other than a newline, and "}". The lazy `+?` makes the match end at
   * the first "}" after the first content character, so no "}" occurs in the
   * content after its first character.
   */
  predicate IsPlaceholder(p: string) {
    && |p| >= 4
    && p[0] == '$' && p[1] == '{'
    && p[|p| - 1] == '}'
    && NoNewline(p[2..|p| - 1])
    && '}' !in p[3..|p| - 1]
  }

  /**
   * The lazy search for the closing brace: `s` starts with "${", and the content
   * `s[2..j]` read so far is nonempty. Returns the length of the placeholder.
   */
  function CloseFrom(s: string, j: nat): (r: Option<nat>)
    requires 3 <= j <= |s|
    ensures r.Some? ==> j < r.value <= |s| && s[r.value - 1] == '}'
    decreases |s| - j
  {
    if j == |s| then None
    else if s[j] == '}' then Some(j + 1)
    else if s[j] == '\n' then None
    else CloseFrom(s, j + 1)
  }

  /**
   * The length of the placeholder match at the start of `s`, if there is one
   * (`re.sub` tries the pattern at each position in turn).
   */
  function PlaceholderLength(s: string): (r: Option<nat>)
    ensures r.Some? ==> 4 <= r.value <= |s| && s[0] == '$'
  {
    if |s| >= 3 && s[0] == '$' && s[1] == '{' && s[2] != '\n' then CloseFrom(s, 3) else None
  }

  /** The lazy search finds the one placeholder prefix, if there is one. */
  lemma {:induction false} CloseFromSpec(s: string, j: nat)
    requires 3 <= j <= |s|
    requires s[0] == '$' && s[1] == '{'
    requires NoNewline(s[2..j]) && '}' !in s[3..j]
    ensures forall k :: 0 <= k <= |s| ==> (IsPlaceholder(s[..k]) <==> CloseFrom(s, j) == Some(k))
    decreases |s| - j
  {
    if j < |s| {
      if s[j] == '}' {
        assert s[..j + 1][2..j] == s[2..j] && s[..j + 1][3..j] == s[3..j];
      } else if s[j] != '\n' {
        assert s[2..j + 1] == s[2..j] + [s[j]] && s[3..j + 1] == s[3..j] + [s[j]];
        CloseFromSpec(s, j + 1);
      }
    }
  }

  /** `PlaceholderLength(s)` is `Some(k)` exactly when `s[..k]` is a placeholder. */
  lemma PlaceholderLengthSpec(s: string)
    ensures forall k :: 0 <= k <= |s| ==> (IsPlaceholder(s[..k]) <==> PlaceholderLength(s) == Some(k))
  {
    if |s| >= 3 && s[0] == '$' && s[1] == '{' && s[2] != '\n' {
      CloseFromSpec(s, 3);
    } else {
      assert forall k :: 0 <= k <= |s| && k >= 4 ==> s[..k][0] == s[0] && s[..k][1] == s[1] && s[..k][2] == s[2];
    }
  }

  /** The number of holes of a template. */
  function Holes(t: seq<Seg>): nat {
    if t == [] then 0 else (if t[0].Hole? then 1 else 0) + Holes(t[1..])
  }

  /** The text obtained by putting `caps[i]` into the i-th hole, left to right. */
  function Fill(t: seq<Seg>, caps: seq<string>): string
    requires |caps| == Holes(t)
  {
    if t == [] then []
    else match t[0]
      case Lit(l) => l + Fill(t[1..], caps)
      case Hole => caps[0] + Fill(t[1..], caps[1..])
  }

  /** Prepends one literal character, merging it into a leading literal run. */
  function ConsLit(c: char, t: seq<Seg>): (r: seq<Seg>)
    ensures Holes(r) == Holes(t)
    ensures forall caps :: |caps| == Holes(t) ==> Fill(r, caps) == [c] + Fill(t, caps)
    ensures Plain(r) <==> c !in Meta && Plain(t)
  {
    if t != [] && t[0].Lit? then
      assert [Lit([c] + t[0].text)] + t[1..] != [] && ([Lit([c] + t[0].text)] + t[1..])[1..] == t[1..];
      PlainTextCons(c, t[0].text);
      [Lit([c] + t[0].text)] + t[1..]
    else
      assert ([Lit([c])] + t)[1..] == t;
      PlainTextCons(c, []);
      assert [c] + [] == [c];
      [Lit([c])] + t
  }

  /** The segments of a keyword name: literal runs and one hole per placeholder. */
  function Parse(s: string): seq<Seg>
    decreases |s|
  {
    if s == [] then []
    else match PlaceholderLength(s)
      case Some(k) => [Hole] + Parse(s[k..])
      case None => ConsLit(s[0], Parse(s[1..]))
  }

  /** The placeholders of a keyword name, left to right (what `re.findall` would list). */
  function Placeholders(s: string): (r: seq<string>)
    ensures |r| == Holes(Parse(s))
    ensures forall p :: p in r ==> IsPlaceholder(p)
    decreases |s|
  {
    if s == [] then []
    else match PlaceholderLength(s)
      case Some(k) =>
        assert ([Hole] + Parse(s[k..]))[1..] == Parse(s[k..]);
        PlaceholderLengthSpec(s);
        [s[..k]] + Placeholders(s[k..])
      case None => Placeholders(s[1..])
  }

  /** The substitution of the compile loop: each placeholder replaced by a capture group, left to right. */
  function Substitute(s: string): string
    decreases |s|
  {
    if s == [] then []
    else match PlaceholderLength(s)
      case Some(k) => Group + Substitute(s[k..])
      case None => [s[0]] + Substitute(s[1..])
  }

  /** The anchored pattern the script builds for a keyword name. */
  function Compile(name: string): string {
    "^" + Substitute(name) + "$"
  }

  /** `n` copies of the capture group text. */
  function Groups(n: nat): (r: seq<string>)
    ensures |r| == n && forall i :: 0 <= i < n ==> r[i] == Group
  {
    if n == 0 then [] else [Group] + Groups(n - 1)
  }

  /** No character of `l` is a metacharacter. */
  predicate PlainText(l: string) {
    forall i :: 0 <= i < |l| ==> l[i] !in Meta
  }

  lemma PlainTextCons(c: char, l: string)
    ensures PlainText([c] + l) <==> c !in Meta && PlainText(l)
  {
    assert ([c] + l)[0] == c;
    assert forall i :: 0 <= i < |l| ==> ([c] + l)[i + 1] == l[i];
  }

  /** Every literal run of `t` is free of regular-expression metacharacters. */
  predicate Plain(t: seq<Seg>) {
    t == [] || ((t[0].Lit? ==> PlainText(t[0].text)) && Plain(t[1..]))
  }

  /**
   * A keyword name is the template's literal text with its placeholders put back
   * into the holes, in order: parsing loses nothing but the placeholder names.
   */
  lemma {:induction false} ParseRoundTrip(s: string)
    ensures Fill(Parse(s), Placeholders(s)) == s
    decreases |s|
  {
    if s != [] {
      var r := PlaceholderLength(s);
      if r.Some? {
        ParseRoundTrip(s[r.value..]);
        RoundTripPlaceholder(s, r.value);
      } else {
        ParseRoundTrip(s[1..]);
        RoundTripChar(s);
      }
    }
  }

  /** The round trip over a name that starts with a placeholder. */
  lemma RoundTripPlaceholder(s: string, k: nat)
    requires s != [] && PlaceholderLength(s) == Some(k)
    requires Fill(Parse(s[k..]), Placeholders(s[k..])) == s[k..]
    ensures Fill(Parse(s), Placeholders(s)) == s
  {
    var p, rest, ps := s[..k], Parse(s[k..]), Placeholders(s[k..]);
    PlaceholderStep(s, k);
    FillHole(rest, p, ps);
    assert Fill(Parse(s), Placeholders(s)) == p + s[k..];
    TakeDrop(s, k);
  }

  /**
   * Sequence identities, proved on their own so that the proofs using them never
   * mix sequence reasoning with unfolding the matcher or the parser (inlined as
   * asserts, they make those proofs costly and unstable for the solver).
   */
  lemma TakeDrop(s: string, k: nat)
    requires k <= |s|
    ensures s[..k] + s[k..] == s
  {
  }

  /** A placeholder at the front of a name is one hole and one listed placeholder. */
  lemma PlaceholderStep(s: string, k: nat)
    requires s != [] && PlaceholderLength(s) == Some(k)
    ensures Parse(s) == [Hole] + Parse(s[k..])
    ensures Placeholders(s) == [s[..k]] + Placeholders(s[k..])
    ensures |Placeholders(s[k..])| == Holes(Parse(s[k..]))
  {
  }

  /** The round trip over a name that starts with a literal character. */
  lemma RoundTripChar(s: string)
    requires s != [] && PlaceholderLength(s).None?
    requires Fill(Parse(s[1..]), Placeholders(s[1..])) == s[1..]
    ensures Fill(Parse(s), Placeholders(s)) == s
  {
    var t, ps := Parse(s[1..]), Placeholders(s[1..]);
    assert Parse(s) == ConsLit(s[0], t);
    assert Placeholders(s) == ps;
    assert |ps| == Holes(t);
    assert Fill(ConsLit(s[0], t), ps) == [s[0]] + Fill(t, ps);
    assert s == [s[0]] + s[1..];
  }

  /** Filling a leading hole puts the first capture in front. */
  lemma FillHole(rest: seq<Seg>, c: string, caps: seq<string>)
    requires |caps| == Holes(rest)
    ensures Holes([Hole] + rest) == Holes(rest) + 1
    ensures Fill([Hole] + rest, [c] + caps) == c + Fill(rest, caps)
  {
    var t := [Hole] + rest;
    assert t[0] == Hole && t[1..] == rest;
    assert ([c] + caps)[0] == c && ([c] + caps)[1..] == caps;
  }

  /** A placeholder at the front of a keyword name becomes a hole. */
  lemma ParsePlaceholder(p: string, r: string)
    requires IsPlaceholder(p)
    ensures Parse(p + r) == [Hole] + Parse(r)
  {
    PlaceholderLengthSpec(p + r);
    assert (p + r)[..|p|] == p && (p + r)[|p|..] == r;
  }

  /** Literal text in front of a hole (or of the end) is kept as one literal run. */
  lemma {:induction false} ParseText(l: string, r: string)
    requires l != [] && PlainText(l)
    requires Parse(r) == [] || Parse(r)[0].Hole?
    ensures Parse(l + r) == [Lit(l)] + Parse(r)
    decreases |l|
  {
    var c, l' := l[0], l[1..];
    assert l + r == [c] + (l' + r) && l == [c] + l';
    ParseChar(c, l' + r);
    if l' == [] {
      assert l' + r == r;
      ConsLitFront(c, Parse(r));
    } else {
      ParseText(l', r);
      ConsLitMerge(c, l', Parse(r));
    }
  }

  /** A character in front of a hole, or of nothing, starts a new literal run. */
  lemma ConsLitFront(c: char, t: seq<Seg>)
    requires t == [] || t[0].Hole?
    ensures ConsLit(c, t) == [Lit([c])] + t
  {
  }

  /** A character in front of a literal run joins it. */
  lemma ConsLitMerge(c: char, l: string, t: seq<Seg>)
    ensures ConsLit(c, [Lit(l)] + t) == [Lit([c] + l)] + t
  {
    var u := [Lit(l)] + t;
    assert u[0] == Lit(l) && u[1..] == t;
  }

  /** A character that cannot open a placeholder starts (or extends) a literal run. */
  lemma ParseChar(c: char, r: string)
    requires c != '$'
    ensures Parse([c] + r) == ConsLit(c, Parse(r))
  {
    var s := [c] + r;
    assert s[0] == c && s[1..] == r;
  }

  /**
   * The substitution keeps every character outside the placeholders and puts one
   * capture group where each placeholder was.
   */
  lemma {:induction false} SubstituteShape(s: string)
    ensures Substitute(s) == Fill(Parse(s), Groups(Holes(Parse(s))))
    ensures Substitute(s) == Fill(Parse(s), Groups(|Placeholders(s)|))
    decreases |s|
  {
    if s != [] {
      match PlaceholderLength(s)
      case Some(k) =>
        SubstituteShape(s[k..]);
        var t := [Hole] + Parse(s[k..]);
        assert t[0] == Hole && t[1..] == Parse(s[k..]);
        var g := Groups(Holes(t));
        assert g[0] == Group && g[1..] == Groups(Holes(Parse(s[k..])));
      case None =>
        SubstituteShape(s[1..]);
    }
  }
}
