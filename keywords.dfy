/**
 * The keyword registry and dispatcher: collect the methods tagged with a
 * `robot_name`, compile each name into an anchored pattern, full-match an
 * instruction against every pattern, and call the one keyword that matches with
 * the captured text as its arguments.
 *
 * Keyword functions are opaque values of a type parameter `F`; reflection over an
 * object's methods is replaced by the list of its members, each with the
 * `robot_name` it carries, if any.
 */
module Keywords {
  import opened Wrappers
  import opened Templates
  import opened Regex

  /** The `Keyword(name, function)` record. */
  datatype Keyword<F> = Keyword(name: string, func: F)

  /** A bound method of the inspected object and its `robot_name` attribute, if it has one. */
  datatype Member<F> = Member(func: F, robotName: Option<string>)

  /** The result of a dispatch: the call to make, or the error raised when not exactly one keyword matches. */
  datatype Outcome<F> = Call(func: F, args: seq<string>) | NoUniqueMatch

  /**
   * `get_keywords`: the tagged members, each paired with its name, in the order
   * they were listed. Untagged members are dropped and nothing else is added.
   */
  function GetKeywords<F>(members: seq<Member<F>>): (r: seq<Keyword<F>>)
    ensures |r| <= |members|
    ensures forall k :: k in r ==> Member(k.func, Some(k.name)) in members
    ensures forall m :: m in members && m.robotName.Some? ==> Keyword(m.robotName.value, m.func) in r
  {
    if members == [] then []
    else
      var m := members[0];
      assert forall x :: x in members[1..] ==> x in members;
      assert forall x :: x in members ==> x == m || x in members[1..];
      (if m.robotName.Some? then [Keyword(m.robotName.value, m.func)] else []) + GetKeywords(members[1..])
  }

  /** `get_keywords` keeps the order of the members: it distributes over concatenation. */
  lemma {:induction false} GetKeywordsAppend<F>(a: seq<Member<F>>, b: seq<Member<F>>)
    ensures GetKeywords(a + b) == GetKeywords(a) + GetKeywords(b)
  {
    if a != [] {
      var m := a[0];
      var head := if m.robotName.Some? then [Keyword(m.robotName.value, m.func)] else [];
      assert (a + b)[0] == m && (a + b)[1..] == a[1..] + b;
      GetKeywordsAppend(a[1..], b);
      assert GetKeywords(a + b) == head + GetKeywords(a[1..] + b);
      assert GetKeywords(a) == head + GetKeywords(a[1..]);
    } else {
      assert a + b == b;
    }
  }

  /** `compiled` holds one entry per keyword, in order: its compiled pattern and the same function. */
  ghost predicate CompiledFrom<F>(compiled: seq<Keyword<F>>, keywords: seq<Keyword<F>>) {
    && |compiled| == |keywords|
    && forall i :: 0 <= i < |keywords| ==>
         compiled[i] == Keyword(Compile(keywords[i].name), keywords[i].func)
  }

  /** The compilation loop of the script: one anchored pattern per keyword, appended in order. */
  method CompileKeywords<F>(keywords: seq<Keyword<F>>) returns (compiled: seq<Keyword<F>>)
    ensures CompiledFrom(compiled, keywords)
  {
    compiled := [];
    for i := 0 to |keywords|
      invariant CompiledFrom(compiled, keywords[..i])
    {
      var keyword := keywords[i];
      var pattern := Substitute(keyword.name);
      pattern := "^" + pattern + "$";
      compiled := compiled + [Keyword(pattern, keyword.func)];
    }
    assert keywords[..|keywords|] == keywords;
  }

  /** Every pattern lies in the fragment the matcher models. */
  predicate AllWellFormed<F>(compiled: seq<Keyword<F>>) {
    forall i :: 0 <= i < |compiled| ==> WellFormedPattern(compiled[i].name)
  }

  /** Keyword `i` is the only one whose pattern full-matches `s`. */
  predicate UniqueMatch<F>(compiled: seq<Keyword<F>>, s: string, i: int)
    requires AllWellFormed(compiled)
  {
    && 0 <= i < |compiled|
    && FullMatch(compiled[i].name, s).Some?
    && forall j :: 0 <= j < |compiled| && FullMatch(compiled[j].name, s).Some? ==> j == i
  }

  /** `matching_keywords`: the keywords whose pattern full-matches `s`, in order. */
  function Matching<F>(compiled: seq<Keyword<F>>, s: string): seq<Keyword<F>>
    requires AllWellFormed(compiled)
  {
    if compiled == [] then []
    else
      (if FullMatch(compiled[0].name, s).Some? then [compiled[0]] else [])
        + Matching(compiled[1..], s)
  }

  /** `matching_keywords` is empty exactly when no pattern full-matches `s`. */
  lemma {:induction false} MatchingNone<F>(compiled: seq<Keyword<F>>, s: string)
    requires AllWellFormed(compiled)
    ensures |Matching(compiled, s)| == 0 <==> forall i :: 0 <= i < |compiled| ==> FullMatch(compiled[i].name, s).None?
  {
    if compiled != [] {
      var tail := compiled[1..];
      assert forall i :: 1 <= i < |compiled| ==> compiled[i] == tail[i - 1];
      MatchingNone(tail, s);
    }
  }

  /** A pattern that is the only one to match leaves exactly one keyword in `matching_keywords`. */
  lemma {:induction false} MatchingUnique<F>(compiled: seq<Keyword<F>>, s: string, i: int)
    requires AllWellFormed(compiled) && UniqueMatch(compiled, s, i)
    ensures |Matching(compiled, s)| == 1
  {
    var tail := compiled[1..];
    assert forall j :: 1 <= j < |compiled| ==> compiled[j] == tail[j - 1];
    if i == 0 {
      MatchingNone(tail, s);
    } else {
      assert UniqueMatch(tail, s, i - 1);
      MatchingUnique(tail, s, i - 1);
    }
  }

  /** When `matching_keywords` has one element, it is the only keyword whose pattern matches. */
  lemma {:induction false} MatchingOne<F>(compiled: seq<Keyword<F>>, s: string)
    requires AllWellFormed(compiled) && |Matching(compiled, s)| == 1
    ensures exists i :: UniqueMatch(compiled, s, i) && Matching(compiled, s)[0] == compiled[i]
  {
    var tail := compiled[1..];
    assert forall j :: 1 <= j < |compiled| ==> compiled[j] == tail[j - 1];
    if FullMatch(compiled[0].name, s).Some? {
      MatchingNone(tail, s);
      assert UniqueMatch(compiled, s, 0);
    } else {
      MatchingOne(tail, s);
      var i :| UniqueMatch(tail, s, i) && Matching(tail, s)[0] == tail[i];
      assert UniqueMatch(compiled, s, i + 1);
    }
  }

  /**
   * Selection and invocation: when exactly one pattern full-matches `s`, call its
   * function with the captured groups; otherwise fail.
   */
  function Dispatch<F>(compiled: seq<Keyword<F>>, s: string): (r: Outcome<F>)
    requires AllWellFormed(compiled)
    ensures r.Call? <==> exists i :: UniqueMatch(compiled, s, i)
    ensures r.Call? ==> exists i :: (UniqueMatch(compiled, s, i)
      && r.func == compiled[i].func && FullMatch(compiled[i].name, s) == Some(r.args))
    ensures (forall i :: 0 <= i < |compiled| ==> FullMatch(compiled[i].name, s).None?) ==> r == NoUniqueMatch
    ensures (exists i, j :: 0 <= i < j < |compiled| && FullMatch(compiled[i].name, s).Some?
              && FullMatch(compiled[j].name, s).Some?) ==> r == NoUniqueMatch
  {
    var matching := Matching(compiled, s);
    MatchingNone(compiled, s);
    if |matching| != 1 then
      assert forall i :: UniqueMatch(compiled, s, i) ==> |matching| == 1 by {
        forall i | UniqueMatch(compiled, s, i) { MatchingUnique(compiled, s, i); }
      }
      NoUniqueMatch
    else
      MatchingOne(compiled, s);
      var kw := matching[0];
      Call(kw.func, FullMatch(kw.name, s).value)
  }

  /** When keyword `i` is the only match, dispatch calls its function with its captured groups. */
  lemma DispatchUnique<F>(compiled: seq<Keyword<F>>, s: string, i: int)
    requires AllWellFormed(compiled) && UniqueMatch(compiled, s, i)
    ensures Dispatch(compiled, s) == Call(compiled[i].func, FullMatch(compiled[i].name, s).value)
  {
    var r := Dispatch(compiled, s);
    var j :| UniqueMatch(compiled, s, j) && r.func == compiled[j].func && FullMatch(compiled[j].name, s) == Some(r.args);
    assert j == i;
  }

  /** Keyword `i` is the only one whose template `s` is an instance of. */
  ghost predicate UniqueTemplate<F>(keywords: seq<Keyword<F>>, s: string, i: int) {
    && 0 <= i < |keywords|
    && Matches(Parse(keywords[i].name), s)
    && forall j :: 0 <= j < |keywords| && Matches(Parse(keywords[j].name), s) ==> j == i
  }

  /**
   * Dispatch over compiled keyword names, stated on the names themselves: it calls
   * a keyword exactly when `s` is an instance of that keyword's template and of no
   * other; the arguments fill the template's placeholders, one per placeholder in
   * order, to give back `s`, and are the greedy (leftmost-longest) such split.
   */
  lemma DispatchTemplates<F>(keywords: seq<Keyword<F>>, compiled: seq<Keyword<F>>, s: string)
    requires CompiledFrom(compiled, keywords)
    requires forall i :: 0 <= i < |keywords| ==> Plain(Parse(keywords[i].name))
    ensures AllWellFormed(compiled)
    ensures Dispatch(compiled, s).Call? <==> exists i :: UniqueTemplate(keywords, s, i)
    ensures Dispatch(compiled, s).Call? ==> exists i :: (UniqueTemplate(keywords, s, i)
      && Dispatch(compiled, s).func == keywords[i].func
      && |Dispatch(compiled, s).args| == |Placeholders(keywords[i].name)|
      && Fits(Parse(keywords[i].name), s, Dispatch(compiled, s).args)
      && forall other :: Fits(Parse(keywords[i].name), s, other) ==> Greedier(Dispatch(compiled, s).args, other))
  {
    forall i | 0 <= i < |keywords|
      ensures WellFormedPattern(compiled[i].name)
      ensures FullMatch(compiled[i].name, s) == Match(Parse(keywords[i].name), s)
      ensures FullMatch(compiled[i].name, s).Some? <==> Matches(Parse(keywords[i].name), s)
    {
      CompileFullMatch(keywords[i].name, s);
      MatchIff(Parse(keywords[i].name), s);
    }
    forall i ensures UniqueMatch(compiled, s, i) <==> UniqueTemplate(keywords, s, i) {}
    var r := Dispatch(compiled, s);
    if r.Call? {
      var i :| UniqueMatch(compiled, s, i) && r.func == compiled[i].func && FullMatch(compiled[i].name, s) == Some(r.args);
      assert UniqueTemplate(keywords, s, i);
      forall other | Fits(Parse(keywords[i].name), s, other)
        ensures Greedier(r.args, other)
      {
        MatchGreedy(Parse(keywords[i].name), s, other);
      }
    }
  }
}
