# xsh in Dafny

A model of the in-memory logic of `xsh`, a minimal command interpreter in C. Each input line
is expanded (`$name` is replaced from a variable table) and split on `|` into stages. The stages
are wired together with pipes, and each stage is split on spaces and dispatched to a builtin
(`cd`, `pwd`, `set`, `unset`) or to an external program.

The model has one module per component:

- `Store` (store.dfy): the variable table, `env_vars[0..env_count)`, as a class over a fixed
  `array<EnvVar>` of 100 slots and a count. `Set`, `Unset` and the shared key scan `Search` are
  proved against the specification functions `SetBinding` and `UnsetBinding`. Lemmas show what
  those promise: unique keys are kept, the count changes by at most one, order is preserved, and
  lookups give the expected results.
- `Expander` (expander.dfy): `expand_variables` as a fold over the table, in table order. Each
  step replaces only the leftmost `"$" + key` (`strstr`). Lemmas cover leftmost-only,
  no-rescan, order dependence, plain substring matching and the no-match identity.
- `Tokenizer` (tokenizer.dfy): the `strtok` splits on `' '` and on `'|'`. There is one
  specification, `Tokens`, and one loop, `Tokenize`. Lemmas show that every token is non-empty
  and free of delimiters, that delimiter runs collapse, that no character other than a
  delimiter is lost, and that join-then-split is a round trip.
- `Dispatch` (dispatch.dfy): the branch `execute_command` takes (`Action`), and what it does to
  the table (`Effect`).
- `Pipeline` (pipeline.dfy): the descriptor-slot plan of `execute_pipes`. Pipe `p` occupies slots
  `2p` (read end) and `2p + 1` (write end). Stage `i` reads slot `2(i-1)` and writes slot
  `2i + 1`. Every slot is closed in every child and in the parent. Each child runs its stage
  on its own copy of the table.

Where the code and the design description disagree, the model follows the code:
`execute_pipes` forks a child for every stage, even when there is only one. `set` and `unset`
therefore change only that child's copy of the table, and the shell's own table stays empty
forever. So a sequence like `set X 1`, `set X 2`, then a line using `$X` leaves `$X`
unexpanded in the shell as written. `ExecutePipes` and `RunLine` have no `modifies` clause, so
the caller's table is unchanged by construction. `SetDoesNotReachShell` shows this for any key
and value. `SetTwiceThenExpand` shows what the two `set`s give when applied to one table. A
consequence: the parent's table never grows, so in the shell as written a child's `set` always
has a free slot.

## Model

| member | source | states |
|---|---|---|
| Store.Find | xsh.c:75-77 | the first slot whose key matches: it holds the key, no earlier slot does, and None exactly when no slot does |
| Store.Lookup | xsh.c:75-77 | a binding is found exactly when some slot holds the key |
| Store.Env.Search | xsh.c:75-83 | the key scan shared by `set` and `unset` returns the first matching slot below `env_count`, or None |
| Store.Env.Set | xsh.c:73-87 | in place on the array: the new table is `SetBinding` of the old one; the invariant (unique keys, at most 100) is kept |
| Store.SetExisting | xsh.c:77-82 | `set` on a present key rewrites that entry's value only; the count and every other entry are unchanged |
| Store.SetAbsent | xsh.c:84-86 | `set` on an absent key appends `(key, value)` after all existing entries |
| Store.SetKeepsUnique | xsh.c:73-87 | `set` keeps keys unique; the count grows by one exactly when the key was absent |
| Store.LookupAfterSet | xsh.c:73-87 | after `set key value`, lookup of key gives value; every other key keeps its binding |
| Store.SetTwice | xsh.c:75-82 | a second `set` of a key overrides the first without adding an entry |
| Store.Env.Unset | xsh.c:89-105 | in place on the array: the new table is `UnsetBinding` of the old one; the invariant is kept |
| Store.Env.ShiftDown | xsh.c:97-100 | the shift loop moves every entry after slot i one slot down and leaves the rest in place |
| Store.UnsetPresent | xsh.c:93-102 | `unset` of a present key removes exactly that entry, keeps the earlier ones, moves the later ones down by one and decrements the count |
| Store.UnsetAbsent | xsh.c:91-104 | `unset` of an absent key changes nothing |
| Store.LookupAfterUnset | xsh.c:89-105 | after `unset`, keys stay unique, the key is not found, and every other key keeps its binding |
| Store.UnsetUndoesFreshSet | xsh.c:84-101 | `set` of a fresh key followed by `unset` of it gives back the original table |
| Store.Env.Clone | xsh.c:213-228 | a forked child gets a separate copy of the table with the same bindings |
| Expander.IndexFrom | xsh.c:114 | the search from position i finds the first occurrence at or after i, or proves there is none |
| Expander.IndexOf | xsh.c:114 | `strstr`: the leftmost occurrence of the placeholder, None exactly when it does not occur |
| Expander.ReplaceFirstSplices | xsh.c:115-122 | one step keeps the text before the match, puts the value in place of `"$"+key`, keeps the rest; length changes by `\|value\| - \|"$"+key\|` |
| Expander.LaterOccurrenceStays | xsh.c:114-122 | leftmost only: any later occurrence of the placeholder is still there after the step |
| Expander.ExpandNoMatch | xsh.c:109-124 | if no stored key's placeholder occurs in the line, the result equals the input |
| Expander.ExpandNoDollar | xsh.c:109-124 | a line without `$` is returned unchanged, whatever the table holds |
| Expander.ExpandFirstBindingFirst | xsh.c:110-124 | bindings apply in table order: the first acts on the raw line, the rest on its result |
| Expander.FirstDollarMatch | xsh.c:113-114 | a placeholder found at the first `$` of the line is the leftmost occurrence |
| Expander.LeftmostOnlyExample | xsh.c:114-122 | `$A $A` with `A=x` expands to `x $A` |
| Expander.NotIdempotentExample | xsh.c:114-122 | expanding `x $A` again gives `x x`, so expansion is not idempotent |
| Expander.NoRescanExample | xsh.c:114-122 | a value containing its own placeholder is not expanded again |
| Expander.LaterKeyExpandsValueExample | xsh.c:110-124 | a value that spells a later key is expanded by that key (`$A` gives `y` with A=`$B`, B=`y`) |
| Expander.EarlierKeyMissesValueExample | xsh.c:110-124 | with the same bindings in the other order, `$A` gives `$B` |
| Expander.PrefixKeyExample | xsh.c:113-114 | matching is by plain substring: `$AB` with `A=1` gives `1B`, even when `AB` is also stored later |
| Expander.LongerKeyFirstExample | xsh.c:110-124 | with `AB` stored before `A`, `$AB` gives the value of `AB` |
| Expander.ExpandVariables | xsh.c:107-126 | the loop computes `Expand` of the input over the table's bindings in order |
| Tokenizer.FieldEnd | xsh.c:132-136 | the end of the front field: at a delimiter or at the end of the line, with no delimiter before it |
| Tokenizer.TokensWellFormed | xsh.c:132-137 | every token is non-empty and contains no delimiter |
| Tokenizer.TokensOfField | xsh.c:132-137 | a non-empty, delimiter-free line is exactly one token |
| Tokenizer.TokensSplit | xsh.c:193-198 | the tokens of `a + d + b` are the tokens of a followed by those of b |
| Tokenizer.TokensCollapse | xsh.c:132-137 | consecutive delimiters collapse: doubling a delimiter changes no token |
| Tokenizer.NoTokensIff | xsh.c:132-141 | a line yields no token exactly when it is empty or all delimiters |
| Tokenizer.TokensKeepContent | xsh.c:193-198 | the tokens concatenated equal the line with every delimiter deleted |
| Tokenizer.TokensOfJoin | xsh.c:132-137 | joining non-empty, delimiter-free tokens with the delimiter and splitting again gives them back |
| Tokenizer.Tokenize | xsh.c:132-137 | the `strtok` loop (skip delimiters, take a field, repeat) returns exactly `Tokens(s, d)` |
| Dispatch.MutationGatedByArity | xsh.c:151-172 | `set` changes the table only with at least 3 tokens (using tokens 2 and 3), `unset` only with at least 2; every other branch leaves it alone |
| Dispatch.SetIgnoresExtraTokens | xsh.c:153-156 | tokens after the third do not change what `set` does |
| Dispatch.ClassifyNothingIff | xsh.c:140-141 | only an empty argument vector selects no branch |
| Dispatch.BlankStageIsNoOp | xsh.c:130-141 | a stage that is empty or all spaces, and only such a stage, does nothing and leaves the table alone |
| Dispatch.ExternalGetsWholeVector | xsh.c:173-178 | a first token other than the builtin names goes to `execvp` with the whole vector |
| Dispatch.SetTwiceThenExpand | xsh.c:151-156 | `set X 1` then `set X 2` applied to one table make `$X` expand to `2` |
| Dispatch.UnsetNeverSet | xsh.c:162-166 | `unset` of a name never set selects the unset branch and changes nothing |
| Dispatch.ExecuteCommand | xsh.c:128-187 | the branch taken is `Classify` of the space tokens; the new table is that branch's `Effect` on the old one |
| Pipeline.AllSlotsExact | xsh.c:201 | the descriptor array has exactly the slots `0 .. 2(N-1)-1`, each once |
| Pipeline.InputSlotIff | xsh.c:216-219 | stage i reads slot s iff s is an even slot in range and i = s/2 + 1 |
| Pipeline.OutputSlotIff | xsh.c:220-223 | stage i writes slot s iff s is an odd slot in range and i = s/2 |
| Pipeline.NeighboursShareAPipe | xsh.c:204-223 | stage i writes the write end of pipe i and stage i+1 reads its read end |
| Pipeline.EachEndUsedOnce | xsh.c:204-223 | the read end of pipe p is used by stage p+1 only, its write end by stage p only, and neither end is used the wrong way |
| Pipeline.PlanWiring | xsh.c:201-236 | in a run, stage i reads `2(i-1)` iff i > 0 and writes `2i+1` iff i < N-1, both in range; every created slot is closed in each child and in the parent |
| Pipeline.PlanChildStore | xsh.c:211-228 | each child runs its own `\|`-field and ends with its branch's effect on the table as it was at the fork |
| Pipeline.AllocatePipes | xsh.c:202-209 | the `pipe` loop fills exactly the slots `0 .. 2(N-1)-1` |
| Pipeline.CloseAll | xsh.c:224-227 | the close loop closes every slot of the array, in order |
| Pipeline.RunStage | xsh.c:213-229 | one child: its own table copy, its wiring and its dispatch, as `StageOf` describes |
| Pipeline.ExecutePipes | xsh.c:189-241 | `execute_pipes` produces `Plan` of the line; the caller's table is outside the frame and unchanged |
| Pipeline.RunLine | xsh.c:44-45 | one iteration of the read loop: expansion first, then the pipeline on the expanded line |
| Pipeline.SetLineIsOneStage | xsh.c:193-198 | `set KEY VALUE` with plain words is a single stage |
| Pipeline.SetLineSetsKey | xsh.c:130-156 | `set KEY VALUE` with plain words splits into three tokens and selects `set` with KEY and VALUE |
| Pipeline.SetDoesNotReachShell | xsh.c:211-228 | after the line `set KEY VALUE`, the child's table holds the binding but `$KEY` still expands to itself in the shell |

## Left out

- The read loop of `main`: prompt, `fgets` with its 1024-byte truncation, newline stripping, and the `quit`/`exit` keywords (xsh.c:28-50). These are input/output.
- `fork`, `execvp`, `wait`, `dup2`, `close` and `pipe` as system calls, including the nested fork and wait for external commands (xsh.c:173-186) and the final waits (xsh.c:237-240). They are process and OS interaction. Only the slot indices each process would use and close are modelled.
- `handle_cd` and `handle_pwd` (xsh.c:52-71): thin wrappers over `chdir` and `getcwd`. They appear only as the `Cd(path)` and `Pwd` branches, with `path` absent when `cd` stands alone.
- Error text from `perror` and `fprintf`: the error branches are the `SetUsage` and `UnsetUsage` actions.
- A failing `pipe` calls `exit(EXIT_FAILURE)` (xsh.c:204-208): this is process termination.
- The exit status of a child after its stage (xsh.c:229).
- Pipeline.ExecutePipes: requires at least one stage, because a line with no `|`-field declares a descriptor array of negative size (xsh.c:201).
- Pipeline.RunLine: requires at least one stage after expansion, for the same reason.
- Store.Env.Set: requires a free slot when the key is absent, because `handle_set` writes past the 100-entry table without a check (xsh.c:84). No caller in the program can break this, since the shell's own table stays empty.
- Tokenizer.Tokenize: the token list is unbounded. The C arrays `args` and `commands` hold 100 pointers, and a stage with 100 or more tokens, or a line with 100 or more stages, writes past them (xsh.c:130-138, xsh.c:191-199). That overflow is not modelled.
- Expander.ExpandVariables: does not model truncation of the `"$" + key` placeholder at 1023 characters (xsh.c:112-113). Keys come from tokens of a line of at most 1023 characters, so they are always shorter.
- Memory management (`strdup`, `malloc`, `free`) and C string termination: strings are sequences of characters.
