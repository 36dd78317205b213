/**
 * The `Arithmetic` class the script inspects, as a fixture: its bound methods in
 * the order reflection lists them (sorted by name), three of them tagged with a
 * keyword name, and the instruction the script dispatches.
 */
module Arithmetic {
  import opened Wrappers
  import opened Templates
  import opened Regex
  import opened Keywords

  /** The bound methods of an `Arithmetic` instance. Their bodies are not modelled. */
  datatype Method = Init | Add | Multiply | Subtract

  const First: string := "${first}"
  const Second: string := "${second}"

  /** "Add ${first} and ${second}" */
  const AddName: string := "Add " + First + " and " + Second
  /** "Subtract ${first} from ${second}" */
  const SubtractName: string := "Subtract " + First + " from " + Second
  /** "Multiply ${first} and ${second}" */
  const MultiplyName: string := "Multiply " + First + " and " + Second

  /** `inspect.getmembers(Arithmetic(), inspect.ismethod)`: `__init__` carries no keyword name. */
  const Members: seq<Member<Method>> := [
    Member(Init, None),
    Member(Add, Some(AddName)),
    Member(Multiply, Some(MultiplyName)),
    Member(Subtract, Some(SubtractName))
  ]

  /** The three keywords, in the order `get_keywords` returns them. */
  lemma ArithmeticKeywords()
    ensures GetKeywords(Members) == [Keyword(AddName, Add), Keyword(MultiplyName, Multiply), Keyword(SubtractName, Subtract)]
  {
    var m := Members;
    assert m[1..][1..][1..][1..] == [];
    assert GetKeywords(m[1..][1..][1..]) == [Keyword(SubtractName, Subtract)];
    assert GetKeywords(m[1..][1..]) == [Keyword(MultiplyName, Multiply), Keyword(SubtractName, Subtract)];
    assert GetKeywords(m[1..]) == [Keyword(AddName, Add), Keyword(MultiplyName, Multiply), Keyword(SubtractName, Subtract)];
  }

  /** A two-placeholder template "a${..}b${..}" against an input whose captures are single characters. */
  lemma TwoSingleCaptures(a: string, b: string, x: string, y: string)
    requires |b| >= 2 && b[0] != b[1] && |x| == 1 && |y| == 1 && NoNewline(x) && NoNewline(y)
    ensures Match([Lit(a), Hole, Lit(b), Hole], a + x + b + y) == Some([x, y])
  {
    assert x == [x[0]] && y == [y[0]];
    TwoSingleChars(a, b, x[0], y[0]);
  }

  lemma TwoSingleChars(a: string, b: string, x: char, y: char)
    requires |b| >= 2 && b[0] != b[1] && x != '\n' && y != '\n'
    ensures Match([Lit(a), Hole, Lit(b), Hole], a + [x] + b + [y]) == Some([[x], [y]])
  {
    var tail: seq<Seg> := [Hole, Lit(b), Hole];
    var s', s := [x] + b + [y], a + [x] + b + [y];
    assert s == a + s' && s[|a|..] == s';
    HoleThenTail(b, x, y);
    MatchLit(a, tail, s);
    assert [Lit(a)] + tail == [Lit(a), Hole, Lit(b), Hole];
  }

  /** "${..}b${..}" against x + b + y: the first group cannot reach past `x`. */
  lemma HoleThenTail(b: string, x: char, y: char)
    requires |b| >= 2 && b[0] != b[1] && x != '\n' && y != '\n'
    ensures Match([Hole, Lit(b), Hole], [x] + b + [y]) == Some([[x], [y]])
  {
    SplitAfterFirst(x, b + [y]);
    assert [x] + b + [y] == [x] + (b + [y]);
    LastCapture(b, y);
    TailTooLate(b, x, y);
    HoleLongest([Lit(b), Hole], [x] + b + [y], 1);
    HoleThenTailShape(b, x, y);
  }

  /**
   * Sequence identities, proved on their own so that the proofs using them never
   * mix sequence reasoning with unfolding the matcher or the parser (inlined as
   * asserts, they make those proofs costly and unstable for the solver).
   */
  lemma SplitAfterFirst(x: char, r: string)
    ensures ([x] + r)[1..] == r && ([x] + r)[..1] == [x] && |[x] + r| == |r| + 1
  {
  }

  /** A sequence identity kept apart for the same reason as `SplitAfterFirst`. */
  lemma HoleThenTailShape(b: string, x: char, y: char)
    ensures [Hole] + [Lit(b), Hole] == [Hole, Lit(b), Hole]
    ensures [[x]] + [[y]] == [[x], [y]]
  {
  }

  /** Past its first character, x + b + y no longer starts with `b`. */
  lemma TailTooLate(b: string, x: char, y: char)
    requires |b| >= 2 && b[0] != b[1]
    ensures forall m :: 1 < m <= |b| + 2 ==> Match([Lit(b), Hole], ([x] + b + [y])[m..]).None?
  {
    var s' := [x] + b + [y];
    assert [Lit(b)] + [Hole] == [Lit(b), Hole];
    forall m | 1 < m <= |b| + 2
      ensures Match([Lit(b), Hole], s'[m..]).None?
    {
      MatchLit(b, [Hole], s'[m..]);
      if m == 2 {
        assert s'[m..][0] == b[1];
      }
    }
  }

  /** The tail "b${..}" of such a template captures the last character. */
  lemma LastCapture(b: string, y: char)
    requires y != '\n'
    ensures Match([Lit(b), Hole], b + [y]) == Some([[y]])
  {
    var s := [y];
    assert (b + s)[|b|..] == s && s[1..] == [] && s[..1] == s;
    assert MaxRun(s) == 1;
    assert Match([], s[1..]) == Some([]);
    TryHoleHit([], s, 1);
    MatchHole([], s);
    MatchLit(b, [Hole], b + s);
    assert [Lit(b)] + [Hole] == [Lit(b), Hole];
    assert [Hole] + [] == [Hole];
    assert [[y]] + [] == [[y]];
  }

  /** The templates of the three keywords. */
  lemma AddTemplate()
    ensures Parse(AddName) == [Lit("Add "), Hole, Lit(" and "), Hole]
    ensures Plain(Parse(AddName))
  {
    PlainWords();
    TwoHoleTemplate("Add ", First, " and ", Second);
  }

  lemma SubtractTemplate()
    ensures Parse(SubtractName) == [Lit("Subtract "), Hole, Lit(" from "), Hole]
    ensures Plain(Parse(SubtractName))
  {
    PlainWords();
    TwoHoleTemplate("Subtract ", First, " from ", Second);
  }

  lemma MultiplyTemplate()
    ensures Parse(MultiplyName) == [Lit("Multiply "), Hole, Lit(" and "), Hole]
    ensures Plain(Parse(MultiplyName))
  {
    PlainWords();
    TwoHoleTemplate("Multiply ", First, " and ", Second);
  }

  lemma PlainWords()
    ensures IsPlaceholder(First) && IsPlaceholder(Second)
    ensures PlainText("Add ") && PlainText("Subtract ") && PlainText("Multiply ")
    ensures PlainText(" and ") && PlainText(" from ")
  {
    assert PlainText("Add ");
    assert PlainText("Subtract ");
    assert PlainText("Multiply ");
    assert PlainText(" and ");
    assert PlainText(" from ");
  }

  lemma TwoHoleTemplate(a: string, p: string, b: string, q: string)
    requires a != [] && PlainText(a) && b != [] && PlainText(b)
    requires IsPlaceholder(p) && IsPlaceholder(q)
    ensures Parse(a + p + b + q) == [Lit(a), Hole, Lit(b), Hole]
    ensures Plain([Lit(a), Hole, Lit(b), Hole])
  {
    PlainTwoHole(a, b);
    HoleThenTailTemplate(p, b, q);
    ParseText(a, p + (b + q));
    TwoHoleShape(a, p, b, q);
  }

  /**
   * Sequence identities, proved on their own so that the proofs using them never
   * mix sequence reasoning with unfolding the matcher or the parser (inlined as
   * asserts, they make those proofs costly and unstable for the solver).
   */
  lemma TwoHoleShape(a: string, p: string, b: string, q: string)
    ensures a + p + b + q == a + (p + (b + q))
    ensures [Lit(a)] + [Hole, Lit(b), Hole] == [Lit(a), Hole, Lit(b), Hole]
  {
  }

  lemma PlainTwoHole(a: string, b: string)
    requires PlainText(a) && PlainText(b)
    ensures Plain([Lit(a), Hole, Lit(b), Hole])
  {
    var t: seq<Seg> := [Lit(a), Hole, Lit(b), Hole];
    assert t[1..][1..][1..][1..] == [];
    assert Plain(t[1..][1..][1..]);
    assert Plain(t[1..][1..]);
    assert Plain(t[1..]);
  }

  lemma HoleThenTailTemplate(p: string, b: string, q: string)
    requires b != [] && PlainText(b)
    requires IsPlaceholder(p) && IsPlaceholder(q)
    ensures Parse(p + (b + q)) == [Hole, Lit(b), Hole]
  {
    TailTemplate(b, q);
    ParsePlaceholder(p, b + q);
  }

  lemma TailTemplate(b: string, q: string)
    requires b != [] && PlainText(b) && IsPlaceholder(q)
    ensures Parse(b + q) == [Lit(b), Hole]
  {
    ParsePlaceholder(q, []);
    assert q + [] == q;
    ParseText(b, q);
  }

  /**
   * The compiled `Arithmetic` keywords: three well-formed patterns, for add,
   * multiply and subtract in that order, each full-matching as its template.
   */
  lemma CompiledArithmetic(compiled: seq<Keyword<Method>>, s: string)
    requires CompiledFrom(compiled, GetKeywords(Members))
    ensures AllWellFormed(compiled) && |compiled| == 3
    ensures compiled[0].func == Add && compiled[1].func == Multiply && compiled[2].func == Subtract
    ensures FullMatch(compiled[0].name, s) == Match([Lit("Add "), Hole, Lit(" and "), Hole], s)
    ensures FullMatch(compiled[1].name, s) == Match([Lit("Multiply "), Hole, Lit(" and "), Hole], s)
    ensures FullMatch(compiled[2].name, s) == Match([Lit("Subtract "), Hole, Lit(" from "), Hole], s)
  {
    ArithmeticKeywords();
    var keywords := GetKeywords(Members);
    assert compiled[0] == Keyword(Compile(AddName), Add);
    assert compiled[1] == Keyword(Compile(MultiplyName), Multiply);
    assert compiled[2] == Keyword(Compile(SubtractName), Subtract);
    AddTemplate();
    MultiplyTemplate();
    SubtractTemplate();
    CompiledEntry(AddName, s);
    CompiledEntry(MultiplyName, s);
    CompiledEntry(SubtractName, s);
    forall i | 0 <= i < |compiled|
      ensures WellFormedPattern(compiled[i].name)
    {
      if i == 0 {
      } else if i == 1 {
      } else {
        assert i == 2;
      }
    }
  }

  lemma CompiledEntry(name: string, s: string)
    requires Plain(Parse(name))
    ensures WellFormedPattern(Compile(name))
    ensures FullMatch(Compile(name), s) == Match(Parse(name), s)
  {
    CompileFullMatch(name, s);
  }

  /** "Add 1 and 2", the instruction the script dispatches. */
  const AddInstruction: string := "Add " + "1" + " and " + "2"
  /** "Subtract 1 from 2" */
  const SubtractInstruction: string := "Subtract " + "1" + " from " + "2"
  /** "Multiply 3 and 4" */
  const MultiplyInstruction: string := "Multiply " + "3" + " and " + "4"
  /** An instruction no keyword is named for. */
  const DivideInstruction: string := "Divide 4 by 2"

  /** The script's own instruction: "Add 1 and 2" calls `add` with ("1", "2"). */
  lemma AddExample(compiled: seq<Keyword<Method>>)
    requires CompiledFrom(compiled, GetKeywords(Members))
    ensures AllWellFormed(compiled)
    ensures Dispatch(compiled, AddInstruction) == Call(Add, ["1", "2"])
  {
    var s := AddInstruction;
    CompiledArithmetic(compiled, s);
    AddMatches();
    OnlyOneOfThree(compiled, s, 0);
    DispatchUnique(compiled, s, 0);
  }

  /** Of the three templates, only the add template matches "Add 1 and 2", capturing "1" and "2". */
  lemma AddMatches()
    ensures Match([Lit("Add "), Hole, Lit(" and "), Hole], AddInstruction) == Some(["1", "2"])
    ensures Match([Lit("Multiply "), Hole, Lit(" and "), Hole], AddInstruction) == None
    ensures Match([Lit("Subtract "), Hole, Lit(" from "), Hole], AddInstruction) == None
  {
    TwoSingleCaptures("Add ", " and ", "1", "2");
    assert AddInstruction[0] == 'A';
    FirstLetterDiffers("Multiply ", [Hole, Lit(" and "), Hole], AddInstruction);
    FirstLetterDiffers("Subtract ", [Hole, Lit(" from "), Hole], AddInstruction);
  }

  /** A template whose literal start differs from the input's first character does not match. */
  lemma FirstLetterDiffers(l: string, t: seq<Seg>, s: string)
    requires l != [] && s != [] && l[0] != s[0]
    ensures Match([Lit(l)] + t, s) == None
  {
    var u := [Lit(l)] + t;
    assert u[0] == Lit(l);
    assert !(l <= s);
  }

  /** Among three compiled keywords, the one that alone full-matches is the unique match. */
  lemma OnlyOneOfThree(compiled: seq<Keyword<Method>>, s: string, k: nat)
    requires AllWellFormed(compiled) && |compiled| == 3 && k < 3
    requires FullMatch(compiled[0].name, s).Some? == (k == 0)
    requires FullMatch(compiled[1].name, s).Some? == (k == 1)
    requires FullMatch(compiled[2].name, s).Some? == (k == 2)
    ensures UniqueMatch(compiled, s, k)
  {
    forall j | 0 <= j < |compiled| && FullMatch(compiled[j].name, s).Some?
      ensures j == k
    {
      if j == 0 {
      } else if j == 1 {
      } else {
        assert j == 2;
      }
    }
  }

  /** "Subtract 1 from 2" calls `subtract` with ("1", "2"). */
  lemma SubtractExample(compiled: seq<Keyword<Method>>)
    requires CompiledFrom(compiled, GetKeywords(Members))
    ensures AllWellFormed(compiled)
    ensures Dispatch(compiled, SubtractInstruction) == Call(Subtract, ["1", "2"])
  {
    var s := SubtractInstruction;
    CompiledArithmetic(compiled, s);
    SubtractMatches();
    OnlyOneOfThree(compiled, s, 2);
    DispatchUnique(compiled, s, 2);
  }

  lemma SubtractMatches()
    ensures Match([Lit("Add "), Hole, Lit(" and "), Hole], SubtractInstruction) == None
    ensures Match([Lit("Multiply "), Hole, Lit(" and "), Hole], SubtractInstruction) == None
    ensures Match([Lit("Subtract "), Hole, Lit(" from "), Hole], SubtractInstruction) == Some(["1", "2"])
  {
    TwoSingleCaptures("Subtract ", " from ", "1", "2");
    assert SubtractInstruction[0] == 'S';
    FirstLetterDiffers("Add ", [Hole, Lit(" and "), Hole], SubtractInstruction);
    FirstLetterDiffers("Multiply ", [Hole, Lit(" and "), Hole], SubtractInstruction);
  }

  /** "Multiply 3 and 4" matches only the multiply keyword, which gets ("3", "4"). */
  lemma MultiplyExample(compiled: seq<Keyword<Method>>)
    requires CompiledFrom(compiled, GetKeywords(Members))
    ensures AllWellFormed(compiled)
    ensures Dispatch(compiled, MultiplyInstruction) == Call(Multiply, ["3", "4"])
  {
    var s := MultiplyInstruction;
    CompiledArithmetic(compiled, s);
    MultiplyMatches();
    OnlyOneOfThree(compiled, s, 1);
    DispatchUnique(compiled, s, 1);
  }

  lemma MultiplyMatches()
    ensures Match([Lit("Add "), Hole, Lit(" and "), Hole], MultiplyInstruction) == None
    ensures Match([Lit("Multiply "), Hole, Lit(" and "), Hole], MultiplyInstruction) == Some(["3", "4"])
    ensures Match([Lit("Subtract "), Hole, Lit(" from "), Hole], MultiplyInstruction) == None
  {
    TwoSingleCaptures("Multiply ", " and ", "3", "4");
    assert MultiplyInstruction[0] == 'M';
    FirstLetterDiffers("Add ", [Hole, Lit(" and "), Hole], MultiplyInstruction);
    FirstLetterDiffers("Subtract ", [Hole, Lit(" from "), Hole], MultiplyInstruction);
  }

  /** An instruction that matches no keyword is refused. */
  lemma UnmatchedExample(compiled: seq<Keyword<Method>>)
    requires CompiledFrom(compiled, GetKeywords(Members))
    ensures AllWellFormed(compiled)
    ensures Dispatch(compiled, DivideInstruction) == NoUniqueMatch
  {
    var s := DivideInstruction;
    CompiledArithmetic(compiled, s);
    DivideMatchesNone();
    forall i | 0 <= i < |compiled|
      ensures FullMatch(compiled[i].name, s).None?
    {
      if i == 0 {
      } else if i == 1 {
      } else {
        assert i == 2;
      }
    }
  }

  lemma DivideMatchesNone()
    ensures Match([Lit("Add "), Hole, Lit(" and "), Hole], DivideInstruction) == None
    ensures Match([Lit("Multiply "), Hole, Lit(" and "), Hole], DivideInstruction) == None
    ensures Match([Lit("Subtract "), Hole, Lit(" from "), Hole], DivideInstruction) == None
  {
    var s := DivideInstruction;
    assert s[0] == 'D';
    FirstLetterDiffers("Add ", [Hole, Lit(" and "), Hole], s);
    FirstLetterDiffers("Multiply ", [Hole, Lit(" and "), Hole], s);
    FirstLetterDiffers("Subtract ", [Hole, Lit(" from "), Hole], s);
  }

  /**
   * The script's main block: collect the keywords of an `Arithmetic` instance,
   * compile them, and dispatch "Add 1 and 2".
   */
  method RunAddExample() returns (r: Outcome<Method>)
    ensures r == Call(Add, ["1", "2"])
  {
    var keywords := GetKeywords(Members);
    var compiled := CompileKeywords(keywords);
    AddExample(compiled);
    r := Dispatch(compiled, AddInstruction);
  }
}
