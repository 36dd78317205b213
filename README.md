# Robot-style keyword dispatch, modelled in Dafny

The modelled script collects the methods of an object that carry a keyword
name such as `"Add ${first} and ${second}"`. It turns each name into an anchored
regular expression by replacing every `${...}` placeholder with the group
`(.*)`. It then full-matches an instruction such as `"Add 1 and 2"` against
every pattern. When exactly one pattern matches, the script calls that method
with the captured texts as its arguments. Otherwise it raises an exception.

The project has five modules:

- `Wrappers` holds the `Option` type.
- `Templates` models the placeholder scan of the compile loop exactly. That
  includes the lazy `\$\{.+?\}`, which stops at the first closing brace after the first
  content character and never
  crosses a newline. A name is split into a template of literal runs and holes.
- `Regex` models full matching for the pattern fragment the compile loop
  produces: `^`, literal characters, `(.*)` groups, and `$`. It is a backtracking
  matcher in which each group first tries the longest run without a newline,
  as Python's greedy `.*` does.
- `Keywords` models `get_keywords`, the compile loop (a method with a loop
  invariant), the filter of matching keywords, and the selection and call.
- `Arithmetic` is the script's own `Arithmetic` class as a fixture. It proves
  what the main block does with it.

The model follows what the code does, also where a looser reading of the script would differ:

- The group `(.*)` does not match a newline, because `.` in Python does not.
  Captures are therefore newline-free.
- `get_keywords` keeps the order in which reflection lists the methods, which
  is sorted by name. That is `add`, `multiply`, `subtract` for the fixture.
- A placeholder is whatever the lazy pattern matches, not only `${identifier}`.
  For example, `${}}` is one placeholder and `${}` is none.
- The exception raised when there is not exactly one match is the value
  `NoUniqueMatch`.

## Model

| member | source | states |
|---|---|---|
| Templates.CloseFrom | in-progress/robot-keywords.py:52 | the lazy search for the closing brace of `\$\{.+?\}`; its own contract only bounds the length and says the match ends in "}"; its meaning is stated by CloseFromSpec |
| Templates.PlaceholderLength | in-progress/robot-keywords.py:52 | the placeholder match the substitution finds at the front of the text, if any; its own contract only bounds the length; its meaning is stated by PlaceholderLengthSpec |
| Templates.Parse | in-progress/robot-keywords.py:52 | the split of a name into literal runs and holes; no contract of its own; stated by ParseRoundTrip, ParsePlaceholder, ParseText and SubstituteShape |
| Templates.Substitute | in-progress/robot-keywords.py:52 | the substitution of "(.*)" for each placeholder; no contract of its own; stated by SubstituteShape and CompileReads |
| Templates.Compile | in-progress/robot-keywords.py:52-53 | the anchored pattern "^" + substitution + "$"; no contract of its own; stated by CompileReads, CompileFullMatch and Keywords.CompileKeywords |
| Templates.CloseFromSpec | in-progress/robot-keywords.py:52 | after "${" and a non-empty newline-free content with no "}" after its first character, the lazy search closes at length k exactly when the first k characters form a placeholder |
| Templates.PlaceholderLengthSpec | in-progress/robot-keywords.py:52 | the substitution replaces a prefix of length k exactly when that prefix is the match it finds at the front: "${", one non-newline character, then non-newline text up to the first "}" (so that length is unique) |
| Templates.Placeholders | in-progress/robot-keywords.py:52 | the placeholders found left to right are all matches of the placeholder pattern, one per hole of the template |
| Templates.ParseRoundTrip | in-progress/robot-keywords.py:52 | putting the placeholders back into the holes of the template gives the keyword name again |
| Templates.SubstituteShape | in-progress/robot-keywords.py:52 | the substituted name is the template with one `(.*)` per placeholder and every other character unchanged |
| Templates.ParsePlaceholder | in-progress/robot-keywords.py:52 | a placeholder at the front of a name becomes exactly one hole |
| Templates.ParseText | in-progress/robot-keywords.py:52 | non-empty literal text with no regular-expression metacharacter, in front of a hole or the end of the name, stays one literal run |
| Regex.ReadPattern | in-progress/robot-keywords.py:52-53 | a pattern body of the fragment reads as a template whose literal text has no metacharacter |
| Regex.ReadPatternRoundTrip | in-progress/robot-keywords.py:52-53 | writing that template back with `(.*)` in every hole gives the pattern body |
| Regex.MaxRun | in-progress/robot-keywords.py:57 | the run a `(.*)` group tries first is the longest prefix without a newline |
| Regex.Match | in-progress/robot-keywords.py:57 | every match found is a split of the input into the template's literal text and newline-free captures, one per hole |
| Regex.TryHole | in-progress/robot-keywords.py:57 | a group that backs off from the longest run only ever yields valid splits |
| Regex.HoleLongest | in-progress/robot-keywords.py:57 | a leading group captures the longest newline-free prefix after which the rest of the pattern matches |
| Regex.FullMatch | in-progress/robot-keywords.py:57 | the full match of an anchored pattern and its groups, as used at lines 57 and 64; no contract of its own; stated by CompileFullMatch, NoPlaceholderExact and SubstitutionMatches |
| Regex.MatchGreedy | in-progress/robot-keywords.py:57 | the matcher finds a match whenever a split exists, and its captures are leftmost-longest among all splits |
| Regex.MatchIff | in-progress/robot-keywords.py:57 | the matcher succeeds exactly on the instances of the template |
| Regex.CompileReads | in-progress/robot-keywords.py:52-53 | a name whose literal text has no metacharacter compiles into the fragment, and the pattern denotes exactly the name's template |
| Regex.CompileFullMatch | in-progress/robot-keywords.py:52-57 | full-matching the anchored pattern of a name is matching against the name's template |
| Regex.NoPlaceholderExact | in-progress/robot-keywords.py:52-57 | a name without placeholders compiles to a pattern that full-matches that name and nothing else |
| Regex.SubstitutionMatches | in-progress/robot-keywords.py:52-64 | any newline-free values put into the placeholders give an instruction that full-matches; the captures are as many as the values, fill the template back into the same instruction, and are at least as greedy as the values |
| Keywords.GetKeywords | in-progress/robot-keywords.py:29-40 | the keywords are exactly the tagged members with their names: none added, none dropped, no more than the members |
| Keywords.GetKeywordsAppend | in-progress/robot-keywords.py:34-39 | the keyword list keeps the members' order (it distributes over concatenation) |
| Keywords.CompileKeywords | in-progress/robot-keywords.py:51-54 | one entry per keyword, in order, holding the anchored substituted name and the same function |
| Keywords.Matching | in-progress/robot-keywords.py:57 | the list of keywords whose pattern full-matches, in order; no contract of its own; stated by MatchingNone, MatchingUnique and MatchingOne |
| Keywords.MatchingNone | in-progress/robot-keywords.py:57 | the list of matching keywords is empty exactly when no pattern full-matches |
| Keywords.MatchingUnique | in-progress/robot-keywords.py:57-59 | when one pattern alone matches, the list of matching keywords has one element |
| Keywords.MatchingOne | in-progress/robot-keywords.py:57-62 | when the list of matching keywords has one element, that element is the only keyword whose pattern matches |
| Keywords.Dispatch | in-progress/robot-keywords.py:57-66 | a call is made exactly when one pattern alone matches, to that keyword's function with its captured groups; no match, or two matches, fails |
| Keywords.DispatchUnique | in-progress/robot-keywords.py:62-66 | the unique matching keyword is called with the groups of its own full match |
| Keywords.DispatchTemplates | in-progress/robot-keywords.py:51-66 | over compiled names: a call is made exactly when the instruction is an instance of one template alone; the arguments are one per placeholder, in order, fill that template back into the instruction, and are the leftmost-longest split |
| Arithmetic.ArithmeticKeywords | in-progress/robot-keywords.py:10-40 | the `Arithmetic` instance yields the add, multiply and subtract keywords in that order, and not `__init__` |
| Arithmetic.AddTemplate | in-progress/robot-keywords.py:15 | "Add ${first} and ${second}" has the template "Add ", hole, " and ", hole, with plain literal text |
| Arithmetic.SubtractTemplate | in-progress/robot-keywords.py:19 | "Subtract ${first} from ${second}" has the template "Subtract ", hole, " from ", hole |
| Arithmetic.MultiplyTemplate | in-progress/robot-keywords.py:23 | "Multiply ${first} and ${second}" has the template "Multiply ", hole, " and ", hole |
| Arithmetic.TwoSingleCaptures | in-progress/robot-keywords.py:57 | when the middle literal has at least two characters and its first two differ, a two-placeholder template full-matches its literal text around two one-character values (other than newline) and captures exactly those values |
| Arithmetic.CompiledArithmetic | in-progress/robot-keywords.py:45-54 | the compiled fixture has three well-formed patterns for add, multiply and subtract, each full-matching as its template |
| Arithmetic.AddMatches | in-progress/robot-keywords.py:49-57 | "Add 1 and 2" matches the add template with ("1", "2") and neither other template |
| Arithmetic.AddExample | in-progress/robot-keywords.py:49-64 | dispatching "Add 1 and 2" calls `add` with ("1", "2") |
| Arithmetic.SubtractExample | in-progress/robot-keywords.py:57-64 | dispatching "Subtract 1 from 2" calls `subtract` with ("1", "2") |
| Arithmetic.MultiplyExample | in-progress/robot-keywords.py:57-64 | dispatching "Multiply 3 and 4" calls `multiply` with ("3", "4"), even though the add template shares its " and " |
| Arithmetic.UnmatchedExample | in-progress/robot-keywords.py:57-60 | an instruction that matches no keyword ("Divide 4 by 2") fails |
| Arithmetic.RunAddExample | in-progress/robot-keywords.py:45-64 | the main block, run on the fixture, ends in the call of `add` with ("1", "2") |

## Left out

- Reflection (`inspect.getmembers`, `hasattr`, `getattr`) and the keyword decorator are not modelled. The object's methods are given as a list of members, each with the keyword name it carries, if any.
- The bodies of the `Arithmetic` methods (float conversion and arithmetic) are not modelled. Dispatch returns the function and its arguments instead of calling it. So the numeric results (3.0, 1.0, 12.0) and a failing conversion such as "Add one and two" are not covered.
- `breakpoint()` and `print` in the main block are not modelled.
- The general regular-expression engine is not modelled. Matching covers the patterns compiled from names whose literal text has no regular-expression metacharacter (`. ^ $ * + ? { } [ ] \ | ( )`). Names whose literal text holds one are compiled (`Templates.Substitute`, `Keywords.CompileKeywords`), but their matching is not modelled.
- Keywords.Dispatch: requires every pattern to lie in the modelled fragment (`AllWellFormed`), which the source does not require.
- Keywords.DispatchTemplates: requires every keyword name to have metacharacter-free literal text, for the same reason.
- Regex.CompileReads: holds only for names whose literal text has no metacharacter, for the same reason.
- Regex.CompileFullMatch: holds only for names whose literal text has no metacharacter.
- Regex.NoPlaceholderExact: holds only for names whose literal text has no metacharacter.
- Regex.SubstitutionMatches: holds only for names whose literal text has no metacharacter.
- The exception raised when not exactly one keyword matches is the value `NoUniqueMatch`. Nothing models the termination of the process.
- The site configuration file `pelicanconf.py` is not part of this model.
