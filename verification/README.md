# envsubst, modelled in Dafny

This project models `envsubst(string, env_var_list=None)` from the
python-envsubst module. It replaces `$NAME`, `${NAME}`, `${NAME-default}`
and `${NAME:-default}` in a string with values from the environment or from
the argument vector. A name that is an integer literal (`$1`) indexes
`sys.argv`. An optional allow-list restricts which names are substituted. A
dollar that directly follows a backslash is never the start of a reference.

The substitution runs in two passes, as in the source:

1. Every `$NAME` is replaced.
2. The result of the first pass is scanned again for bracketed references.

The model keeps that order, so everything the first pass produces is seen
by the second. `Engine.ValuesAreRescanned` shows what this means for a
value that itself looks like a reference. `Engine.EmptiedDefaultStaysLiteral`
shows a second consequence: a default that the first pass empties, as in
`${FOO-$UNSET}`, leaves `${FOO-}` behind, which the bracketed pattern
rejects. The bracket then comes out as that literal text, whatever FOO
holds, although the docstring (envsubst.py:98-101) describes FOO's value,
or the substituted default, being used.

Modules:

- `Options`: the `None`/`Some` result used for lookups.
- `Lexical`: name characters and the run of name characters a `+`
  quantifier takes. It also states what "follows a backslash" means for
  the `(?<!\\)` look-behind.
- `Sequences`: facts about concatenation and slicing that the scanners'
  proofs regroup by.
- `Resolve`: `_resolve_var`. The names `int()` accepts, their value, and
  the lookup in the argument vector or the environment.
- `AllowList`: the normalisation of `env_var_list`. A list is kept, a
  single string becomes a one-element list, anything else means "no
  restriction".
- `SimplePass`: the `$NAME` pattern as a scanner and `_repl_simple_env_var`.
  Together they give the first `re.sub`.
- `BracketPass`: the `${...}` pattern, with its optional `-`/`:-`
  fallback, as a scanner and `_repl_extended_env_var`. Together they give
  the second `re.sub`.
- `Engine`: `envsubst` itself, and the end-to-end properties of the two
  passes.
- `Scenarios`: the cases of the repository's test suite, stated as lemmas
  about `Engine.Envsubst`.

Each scanner turns its input into a sequence of pieces: a literal
character, or a matched reference. `ScanRoundTrip` states that the texts of
the pieces spell the input back. `MatchAtSound` and `MatchAtComplete` tie
the matcher to an independent description of what the regular expression
accepts after the `$`. The `(?<!\\)` look-behind is the `escaped` flag the
scanners carry: it is set exactly when the character just copied is a
backslash, and it is clear after a cut, since a cut reference ends in a name
character or a `}`. Substitution renders the pieces in order, which is what
`re.sub`'s left-to-right, non-overlapping search does.

## Model

| member | source | states |
|---|---|---|
| Lexical.NameRunSound | envsubst.py:35 | the greedy name run is a prefix of the input, all name characters, and is not followed by another name character |
| Lexical.NameRunUnique | envsubst.py:35 | any prefix with those three properties is the name run, so the greedy `[A-Za-z0-9_]+` has exactly one match |
| Resolve.ProgramNameAtZero | envsubst.py:39-43 | `$0` resolves to the program name `argv[0]` |
| Resolve.PositionalIgnoresEnvironment | envsubst.py:39-45 | an integer name reads only the argument vector: it is set exactly when its value is a valid index, and then it is that element |
| Resolve.NamedIgnoresArgv | envsubst.py:39-47 | a non-integer name reads only the environment: it is set exactly when the environment has it, and then it is that entry |
| Resolve.ResolveOrDefault | envsubst.py:39-47 | the default is returned for every choice of default exactly when the name is unset; a set name gives its looked-up value whatever default is passed |
| Resolve.IntValueAppend | envsubst.py:41 | the value `int()` gives is positional base ten: the digits of a suffix shift the prefix by one power of ten each |
| Resolve.LeadingZeroIgnored | envsubst.py:41 | `$01` is still an integer name and indexes the same argument as `$1` |
| Resolve.UnderscoreJoinsDigits | envsubst.py:41 | an underscore between two integer names gives an integer name with the value of the two joined, as `int("1_0") == 10` |
| Resolve.JoinedIsIntLiteral | envsubst.py:41 | joining two integer names with one underscore gives a name `int()` accepts |
| Resolve.ConcatIsIntLiteral | envsubst.py:41 | joining two integer names directly gives a name `int()` accepts |
| AllowList.Normalize | envsubst.py:108-112 | a restriction exists exactly for a list or a string; a name is permitted exactly when it is in the list, equals the string, or there is no restriction |
| SimplePass.MatchAtSound | envsubst.py:35 | a match at `$` yields a name that follows the dollar and is not followed by a further name character |
| SimplePass.MatchAtComplete | envsubst.py:35 | every `$name` not followed by a name character is matched with exactly that name |
| SimplePass.ScanRoundTrip | envsubst.py:35 | the pieces of the first pass's scan spell its input back |
| SimplePass.ScanEscapedIsLiteral | envsubst.py:35 | when every dollar follows a backslash, the scan finds no reference |
| SimplePass.EscapedUnchanged | envsubst.py:35 | the first pass leaves a string with only escaped dollars unchanged |
| SimplePass.NoDollarUnchanged | envsubst.py:35 | the first pass leaves a string without dollars unchanged |
| SimplePass.SingleReference | envsubst.py:50-57 | `$name` alone becomes the value when permitted, else stays as matched |
| SimplePass.SubstituteAppend | envsubst.py:35 | the first pass distributes over `a + b` when `a` does not end in a backslash and `SimplePass.Separable(a, b)` holds: `a` or `b` is empty, or `b` does not start with a name character, or `a` ends in a character that is neither a name character nor `$` |
| SimplePass.DollarBrace | envsubst.py:35 | `${` is never a simple reference: the first pass only acts on what follows it |
| BracketPass.UpToBraceSound | envsubst.py:36 | the fallback text the pattern takes is brace-free and stops at the first `}` |
| BracketPass.UpToBraceUnique | envsubst.py:36 | any brace-free prefix that ends at a brace or at the end is that fallback text |
| BracketPass.MatchAtSound | envsubst.py:36 | a bracket match is a well-formed reference whose text starts the input |
| BracketPass.MatchAtComplete | envsubst.py:36 | every well-formed reference at the start of the input is matched, with its name, operator and fallback text |
| BracketPass.MalformedNoMatch | envsubst.py:36 | an unclosed `${name`, an empty fallback, or a `:` not followed by `-` is not matched |
| BracketPass.ScanRoundTrip | envsubst.py:36 | the pieces of the second pass's scan spell its input back |
| BracketPass.ScanEscapedIsLiteral | envsubst.py:36 | when every dollar follows a backslash, the scan finds no reference |
| BracketPass.Replacement | envsubst.py:60-83 | a permitted reference without a fallback resolves exactly as a simple reference does |
| BracketPass.SingleReference | envsubst.py:60-83 | a well-formed reference alone is replaced by its replacement |
| BracketPass.SubstituteAppend | envsubst.py:36 | the second pass distributes over `a + b` when `a` does not end in a backslash and `BracketPass.Separable(a, b)` holds: `b` holds no `}`, or every `$` in `a` has a `}` after it |
| BracketPass.UnmatchedDollar | envsubst.py:36 | a dollar that does not start a bracket reference is copied and the pass goes on with the text after it, which is copied too when it holds no dollar |
| Engine.EscapedVerbatim | envsubst.py:35-36 | a string whose every dollar follows a backslash comes back unchanged, whatever the sources and allow-list |
| Engine.IdentityWithoutDollar | envsubst.py:114-118 | a string without a dollar comes back unchanged |
| Engine.SimpleReference | envsubst.py:50-57 | `$NAME` is kept when excluded; when permitted it becomes the value, itself passed through the second pass |
| Engine.BracketReference | envsubst.py:60-83 | `${NAME}` becomes the value, or the empty string when unset, if permitted, and stays verbatim if excluded |
| Engine.BracketAgreesWithSimple | envsubst.py:95-97 | `${NAME}` is identical to `$NAME` for a permitted name whose value has no dollar |
| Engine.ValuesAreRescanned | envsubst.py:114-118 | a value that spells `${OTHER}` is expanded again when it came from `$NAME` and left alone when it came from `${NAME}` |
| Engine.FallbackReference | envsubst.py:60-83 | a `${NAME-d}` / `${NAME:-d}` reference becomes the replacement of that reference with the first-pass result of its fallback text |
| Engine.UnsetOnlyFallback | envsubst.py:76-78 | `${NAME-d}` gives the value, even an empty one, when set, and the substituted default only when unset |
| Engine.UnsetOrEmptyFallback | envsubst.py:69-75 | `${NAME:-d}` gives the value when it is set and non-empty, and the substituted default when unset or empty |
| Engine.ExcludedBracketKeepsSpan | envsubst.py:60-64 | an excluded bracket reference keeps its span, with `$` references in the fallback already substituted |
| Engine.MalformedBracketLiteral | envsubst.py:36 | `${NAME` followed by a tail that the first pass leaves malformed (an empty default, `:` without `-`, no closing `}`) is kept, and only the tail is substituted; a dollar-free tail is copied whole |
| Engine.EmptiedDefaultStaysLiteral | envsubst.py:114-118 | a default that the first pass empties leaves `${NAME-}` or `${NAME:-}` as literal text, whatever NAME holds |
| Engine.InPlainContext | envsubst.py:114-118 | a reference surrounded by dollar-free text that does not extend it is substituted in place |
| Engine.Concatenation | envsubst.py:114-118 | `envsubst` distributes over `a + b` when `a` meets the condition of `SimplePass.SubstituteAppend` (no final backslash, `SimplePass.Separable(a, b)`) and the first-pass results of `a` and `b` meet the condition of `BracketPass.SubstituteAppend` (no final backslash in the first, `BracketPass.Separable` of the two) |
| Engine.SplitAfterBrace | envsubst.py:114-118 | `envsubst` distributes over a split right after a closing brace |
| Scenarios.SimpleVariable | tests/test_envsubst.py:8-15 | `foo $FOO bar` with FOO set gives `foo test_val_1 bar` |
| Scenarios.BracketedVariable | tests/test_envsubst.py:17-24 | `foo ${FOO} bar` with FOO set gives `foo test_val_1 bar` |
| Scenarios.UnsetOnlyReference | tests/test_envsubst.py:26-61 | `${FOO-i am a default}` gives the default only when FOO is unset, and FOO's value, even empty, otherwise |
| Scenarios.UnsetOnlyOperator | tests/test_envsubst.py:26-61 | in `abc ... def`: the default for an unset FOO, nothing for an empty FOO, and FOO's value when it is set |
| Scenarios.UnsetOrEmptyReference | tests/test_envsubst.py:63-98 | `${FOO:-i am a default}` gives the default when FOO is unset or empty, and the value otherwise |
| Scenarios.UnsetOrEmptyOperator | tests/test_envsubst.py:63-98 | in `abc ... def`: the default for an empty or an unset FOO, and FOO's value when it is set non-empty |
| Scenarios.EscapedSimple | tests/test_envsubst.py:131-153 | `i am an \$ESCAPED variable` is unchanged with or without an allow-list |
| Scenarios.EscapedBracketed | tests/test_envsubst.py:131-153 | the escaped bracketed string is unchanged with or without an allow-list |
| Scenarios.SimpleVariableInDefault | tests/test_envsubst.py:155-198 | `abc ${TEST:-$DEFAULT} def` under the four allow-lists the tests use |
| Scenarios.PositionalArgument | tests/test_envsubst.py:200-211 | `abc $1 def` gives the first argument after the program name |
| Scenarios.Multiple | tests/test_envsubst.py:100-129 | four references of all kinds in one string, with FOO, BAR and BAR2 set and NOPE unset |
| Scenarios.SplitInsideBracket | envsubst.py:36 | the bracket condition of `Concatenation` is needed: a set `${NAME-d}` split before its `}` gives two literal halves, while the whole becomes NAME's value |

## Left out

- `main()` (envsubst.py:122-150): it reads standard input, writes standard output and parses the command line. This is I/O around the core.
- `os.environ` and `sys.argv` are not read from the process. They are the explicit parameter `Resolve.Sources`.
- Python's `re` engine is replaced by hand-written scanners for the two patterns. What the pattern accepts after the `$` is pinned down by `MatchAtSound`/`MatchAtComplete`. The `(?<!\\)` look-behind is the scanners' `escaped` flag, and is stated about only through `ScanEscapedIsLiteral` and the lemmas built on it.
- `env_var_list` with a list that holds non-strings: the model's list holds names only. Any value that is neither a list nor a string is `OtherValue` and, as in the source, means no restriction.
- The `RuntimeError` of envsubst.py:79-80 cannot be raised: group 3 of the bracket pattern is always `-` or `:-` when group 2 is present. `BracketPass.Operator` has exactly those two cases, so the branch is not modelled.
- `int()` is modelled only on the names the patterns can capture (ASCII letters, digits, underscore). Signs, whitespace and non-ASCII digits cannot occur in a captured name.
- Resolve.PositionalIgnoresEnvironment: every digit run is treated as an argv index, however long. Python versions that limit integer strings (4300 digits by default since CPython 3.11 and the 2022 security releases) make `int()` raise ValueError for longer runs, and `_resolve_var` then reads the environment. That limit depends on the Python version and is not modelled.
- A negative argv index cannot be reached, since a captured name has no sign. The index is 0-based as in the source, so `$0` is the program name.
- Engine.UnsetOnlyFallback: proved for fallbacks whose first-pass result is non-empty and contains no `}`. A default whose substituted value contains `}` can change where the second pass's match ends, and that case is not stated.
- Engine.UnsetOrEmptyFallback: the same scope as `UnsetOnlyFallback`.
- Engine.ExcludedBracketKeepsSpan: the same scope as `UnsetOnlyFallback`.
- Engine.FallbackReference: the same scope as `UnsetOnlyFallback`.
- Engine.SimpleReference: the value of a permitted name is stated to be returned verbatim only when it holds no dollar. Otherwise the result is stated as the second pass applied to the value.
- Engine.InPlainContext: the surrounding text must be free of dollars, must not end in a backslash, and must not extend the name. The suffix must hold no `}`. Contexts that interact with the reference are not covered.
- Engine.MalformedBracketLiteral: the malformed shape is required of the first pass's output of the tail, not of the tail as written, because the `$NAME` pass can add or remove the `-`, `:-` or `}` the bracketed pattern looks for. `Engine.EmptiedDefaultStaysLiteral` states the case where it removes a whole default.
- Engine.Concatenation: stated only under the two `Separable` conditions its row names. They are sufficient, not necessary (a split with no dollar on either side distributes whatever `Separable` says), and `Scenarios.SplitInsideBracket` shows a split that breaks the bracket condition and does not distribute.
- SimplePass.SubstituteAppend and BracketPass.SubstituteAppend: the same; the `Separable` condition each requires is sufficient, not necessary.
