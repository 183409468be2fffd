# goweave weaving phases, modelled in Dafny

This project models the text-insertion weaver of goweave (`weave/transform.go`). The weaver works on a Go source file in three phases, each driven by the list of aspects a `Weave` object holds. An aspect is a pointcut (a kind code and a definition text), before-/after-/around-advice blocks and a list of imports.

- **Global phase** (`applyGlobalAdvice`). The `Weave` object's `appliedGlobal` flag makes this phase run once. When the flag is already set, the phase returns the empty string. Otherwise every aspect whose definition is `"*"` sets the flag. It then writes its before-block and its after-block on the line after the end of the last import.
- **Call phase** (`applyCallAdvice`). For each aspect of kind 1, the call expressions of the parsed file are visited in `ast.Inspect` order. The definition text is normalised to a bare callee name: the text before the first `(`, then, if that holds a dot, the second dot-separated piece. A call matches when its callee name equals this name. The callee name is the identifier, the selected name of a selector, or `"WRONG"` for anything else. The before-block goes one line above the opening parenthesis and the after-block below it. Both are shifted by a drift counter `linecnt`. The counter starts at zero for each aspect and grows by the line count of every block written.
- **Execution phase** (`applyExecutionJP`). For each aspect of kind 2, the top-level declarations are scanned. A function is selected when two things hold:
  - its name equals the definition text before `(` (an empty name is a wildcard);
  - its parameters pass `containArgs`.

  The before-block goes below the opening brace. The after-block goes above the closing brace, and a further (its own line count) lines up when the function declares results. The same per-aspect drift applies.

The call and execution phases collect the imports of each matched aspect once per match, in order. They call `writeMissingImports` only when that list is non-empty.

The model keeps the source's imperative form. `Weaving.Weave` is a class with the `appliedGlobal` field. Its three methods loop over the aspects, the call sites and the declarations with the source's counters. Each method is proved against a specification function:
- `GlobalWrites` for the global phase;
- `PhaseOutcome` for the other two, built from `CallJoinpoints`/`ExecJoinpoints` (which locations match) and `AspectWrites` (where the blocks go).

The k-th match of an aspect (from 0) is placed with drift `DriftAt(adv, k)`, which is `k * Step(adv)`. The lemmas prove that this closed form is the source's running counter: the number of lines of all blocks written before it for that aspect.

The observable result of a phase is a `Rout`:
- `Blank` for the empty string;
- otherwise the ordered `writeAtLine(line, block)` calls plus the import list handed to `writeMissingImports` (when it is called).

The parser is a parameter `parse`. It maps the writes made so far in the phase to the parsed file as the source re-reads it at the start of each aspect: its import end lines, its call sites in traversal order and its top-level declarations. `containArgs` is a parameter too.

Behaviour of the code a reader may not expect, which the model keeps:
- The global phase applies every `"*"` aspect in the list, not just one (weave/transform.go:25-34).
- It selects aspects by definition text, whatever their kind (weave/transform.go:27).
- Its flag is one boolean per `Weave` object: once set, the phase returns the empty string for every later file (weave/transform.go:17-19, 34).
- It never asks for imports, even when a `"*"` aspect lists some: its import list stays empty (weave/transform.go:23, 59).
- The drift counter is reset for every aspect, not kept across the aspects of a phase (weave/transform.go:80, 236).
- Imports are collected with repeats, once per match (weave/transform.go:131-133, 278-280).
- A parse error is only logged (weave/transform.go:38-40, 88-90, 232-234). The parser is handed the text itself, so it still returns a tree, possibly partial, and the phase goes on with whatever it parsed. The `parse` parameter is unconstrained, so it covers such partial files.

## Model

| member | source | states |
|---|---|---|
| Weaving.Weave.ApplyGlobalAdvice | weave/transform.go:16-64 | With the flag already set, it returns the empty string, writes nothing and the flag stays set. Otherwise it performs exactly the writes of `GlobalWrites` (every `"*"` aspect, in order), requests no imports, and leaves the flag set iff some aspect is `"*"`. Requires that no `"*"` aspect is reached while the file has no import. |
| Weaving.WriteAnchors | weave/transform.go:49-55 | A `"*"` aspect appends its non-empty before-block, then its non-empty after-block, both at the same line. |
| Weaving.GlobalAppliesEveryAspect | weave/transform.go:25-57 | The global phase writes one block per non-empty block of every `"*"` aspect, not only the first. |
| Weaving.GlobalNoDrift | weave/transform.go:42-55 | When the last import ends on the same line in every parse, every global write targets the line after it: no drift between blocks or aspects. |
| Weaving.Weave.ApplyCallAdvice | weave/transform.go:68-149 | Returns exactly the writes and imports of `PhaseOutcome` over the kind-1 aspects in order. Each aspect is matched against the file as the earlier aspects left it. `writeMissingImports` runs iff the import list is non-empty. |
| Weaving.InspectCalls | weave/transform.go:80-139 | For one aspect, the visit of every call expression, with the counter starting at zero, appends `AspectWrites` of the calls the pointcut names and the aspect's imports once per such call. |
| Weaving.VisitCall | weave/transform.go:97-135 | One callback visit: the pattern becomes its normal form. On a name match it appends that call's writes at the current drift, grows the drift by one step and appends the imports. Otherwise nothing changes. It keeps the state of the call loop. |
| Weaving.NormalizeCallPattern | weave/transform.go:108-114 | The in-place normalisation yields `CallPattern` of the text. |
| Weaving.AdviseCall | weave/transform.go:118-129 | At a matched call, the before-block goes at `Lparen + linecnt - 1` and the after-block at `Lparen + linecnt'`, where `linecnt'` includes the before-block's lines. Empty blocks are skipped, and the counter grows by `Step`. |
| Weaving.Weave.ApplyExecutionJP | weave/transform.go:213-293 | Returns exactly the writes and imports of `PhaseOutcome` over the kind-2 aspects with the `containArgs` selection. `writeMissingImports` runs iff the import list is non-empty. |
| Weaving.ScanDecls | weave/transform.go:236-283 | For one aspect, the scan of the declarations, with the counter starting at zero, appends `AspectWrites` of the selected functions and the aspect's imports once per such function. |
| Weaving.VisitDecl | weave/transform.go:240-282 | One declaration: when it is a function the pointcut selects, that function's writes are appended at the current drift, the drift grows by one step and the imports are appended. Anything else changes nothing. It keeps the state of the declaration loop. |
| Weaving.AdviseFunction | weave/transform.go:256-276 | At a selected function, the before-block goes at `Lbrace + linecnt`. The after-block goes at `Rbrace + linecnt - 1`, minus its own line count when results are declared. Empty blocks are skipped, and the counter grows by `Step`. |
| Weaving.PhaseProvenance | weave/transform.go:118-133 | Every write of a phase carries a non-empty before- or after-block of an aspect of that phase's kind. Every requested import is one of such an aspect's imports. |
| Weaving.SilentPhase | weave/transform.go:120-129 | When no aspect of the kind has a non-empty block, the phase writes nothing. |
| Weaving.QuietImports | weave/transform.go:143-145 | When no aspect of the kind lists an import, `writeMissingImports` is not called. |
| Weaving.GlobalWrites | weave/transform.go:25-57 | The definition of the global phase's writes: each `"*"` aspect, against the file as the earlier aspects left it, writes its non-empty blocks after the last import; `None` when such an aspect meets a file with no import. Characterised by `GlobalAppliesEveryAspect` and `GlobalNoDrift`; `ApplyGlobalAdvice` is proved equal to it. |
| Weaving.PhaseOutcome | weave/transform.go:74-141 | The definition of the call phase's (and, with `ExecSelect`, the execution phase's, weave/transform.go:219-285) writes and imports: each aspect of the kind, against the file as the earlier aspects left it, adds `AspectWrites` and `AspectImports` of its joinpoints. Characterised by `PhaseProvenance`, `SilentPhase` and `QuietImports`; `ApplyCallAdvice` and `ApplyExecutionJP` are proved equal to it. |
| Weaving.AspectImports | weave/transform.go:131-133 | The definition of one aspect's import requests: its import list once per matched joinpoint, in order (also weave/transform.go:278-280). Characterised by `AspectImportsMembers`. |
| Weaving.ImportsCall | weave/transform.go:143-145 | The definition of the import step: `writeMissingImports` receives the collected list when it is non-empty and is not called otherwise (also weave/transform.go:287-290). Characterised by `QuietImports`; `ApplyCallAdvice` and `ApplyExecutionJP` are proved to return it. |
| Weaving.AspectImportsMembers | weave/transform.go:131-133 | An aspect asks for its imports once per match: the count is matches times imports, and nothing else is asked for. |
| Patterns.Before | weave/transform.go:108 | `strings.Split(s, c)[0]`: a prefix of `s` free of `c`, followed in `s` by `c` when shorter. |
| Patterns.BeforeAt | weave/transform.go:246 | Any `c`-free prefix of `s` that ends at a `c` or at the end of `s` is what `Before` yields. |
| Patterns.SecondField | weave/transform.go:112-113 | `strings.Split(s, ".")[1]` holds no dot and only characters of `s`. |
| Patterns.CallPattern | weave/transform.go:108-114 | The normal form of a call pointcut holds neither `(` nor `.`. |
| Patterns.CallPatternIdempotent | weave/transform.go:108-114 | Normalising a normalised pattern changes nothing, so the repeated in-place normalisation is harmless. |
| Patterns.CallPatternOfName | weave/transform.go:108-114 | `name(args)` normalises to `name`. |
| Patterns.CallPatternOfQualified | weave/transform.go:108-114 | `pkg.name` followed by an argument list or further dotted pieces normalises to `name`. |
| Patterns.CountChar | weave/transform.go:122 | The count of a character is at most the length, and zero iff the character does not occur. |
| Patterns.CountCharIsOccurrences | weave/transform.go:122 | `CountChar(s, c)` is the number of occurrences of `c` in `s` (its multiplicity in `multiset(s)`), the value `strings.Count` returns for a one-character separator. |
| Patterns.Lines | weave/transform.go:122 | A block's line count (`Count(block, "\n") + 1`) is between 1 and its length plus one. |
| Matching.CalleeName | weave/transform.go:98-106 | The definition of the callee name: the identifier, the selected name of a selector, `"WRONG"` for any other callee. Characterised by `MatchIgnoresReceiver` and `OtherCalleeMatchesWrong`. |
| Matching.CallMatches | weave/transform.go:116 | The definition of a call match: the callee name equals the normalised pattern. Characterised by `QualifiedPatternMatches` and `CallJoinpointsExact`. |
| Matching.ExecMatches | weave/transform.go:246-253 | The definition of a function selection: a function whose name equals the text before `(` or that text is empty, and whose parameters pass `containArgs`. Characterised by `WildcardMatchesEveryFunction`, `NamedPatternMatchesByName` and `ExecJoinpointsExact`. |
| Matching.MatchIgnoresReceiver | weave/transform.go:102-103 | A selector call matches by its selected name alone, whatever the receiver. |
| Matching.OtherCalleeMatchesWrong | weave/transform.go:104-116 | A callee that is neither identifier nor selector matches exactly the patterns that normalise to `"WRONG"`. |
| Matching.QualifiedPatternMatches | weave/transform.go:99-116 | A pattern `pkg.name(args)` matches exactly the calls whose callee name is `name`, whatever their receiver or arguments. |
| Matching.CallJoinpoints | weave/transform.go:94-116 | No more joinpoints than call sites. |
| Matching.CallJoinpointsExact | weave/transform.go:94-116 | A call site becomes a joinpoint iff its callee name equals the normalised pattern, in both directions. |
| Matching.CallJoinpointsCount | weave/transform.go:94-116 | There are exactly as many joinpoints as matching call sites (`MatchedCalls`): two matching calls on one line give two joinpoints, hence two steps of drift. |
| Matching.ExecJoinpoints | weave/transform.go:240-253 | No more joinpoints than declarations. |
| Matching.ExecJoinpointsExact | weave/transform.go:240-253 | Exactly the function declarations the pointcut selects become joinpoints. Nothing that is not a function does. |
| Matching.ExecJoinpointsCount | weave/transform.go:240-253 | There are exactly as many joinpoints as selected declarations (`SelectedDecls`). |
| Matching.WildcardMatchesEveryFunction | weave/transform.go:246-253 | A pattern with an empty name before `(` selects every function whose parameters pass `containArgs`. |
| Matching.NamedPatternMatchesByName | weave/transform.go:246-253 | A pattern `name(...)` selects a declaration iff it is a function called `name` whose parameters pass `containArgs`. |
| Drift.Cost | weave/transform.go:120-128 | A block adds no lines iff it is empty. |
| Drift.MatchWrites | weave/transform.go:118-129 | The definition of one match's writes at a given drift: for a call, before-block at `Lparen + drift - 1` and after-block below it; for a function (weave/transform.go:262-276), before-block below `{` and after-block above `}`. Empty blocks are skipped. Characterised by `MatchWritesCost`, `CallMatchWritesWithin` and `AspectWritesBlocks`. |
| Drift.Step | weave/transform.go:120-128 | The definition of the growth of `linecnt` per match: the line counts of the non-empty before- and after-blocks (also weave/transform.go:262-275). Characterised by `MatchWritesCost` and `DriftAtIsMultiple`. |
| Drift.DriftAt | weave/transform.go:80 | The definition of the value of `linecnt` at the k-th match of an aspect: zero at the first, one `Step` more at each later one (also weave/transform.go:236). Characterised by `DriftAtIsMultiple`, `DriftIsLinesWritten` and `DriftStartsAtZero`. |
| Drift.AspectWrites | weave/transform.go:94-139 | The definition of one aspect's ordered writes: `MatchWrites` of each joinpoint in order at drift `DriftAt` (also the loop at weave/transform.go:240-283). Characterised by `AspectWritesCost`, `AspectWritesCount`, `AspectWritesBlocks`, `DriftIsLinesWritten`, `DriftStartsAtZero` and `CallWritesAscending`. |
| Drift.MatchWritesCost | weave/transform.go:118-129 | One match inserts `Step` lines with one write per non-empty block. |
| Drift.DriftAtIsMultiple | weave/transform.go:80 | The k-th match of an aspect is placed with drift `k * Step`, starting from zero. |
| Drift.AspectWritesCost | weave/transform.go:262-276 | The lines an aspect inserts equal its drift after all its matches. |
| Drift.AspectWritesCount | weave/transform.go:120-129 | An aspect performs `BlockCount` writes per match. Empty blocks are never written. |
| Drift.DriftIsLinesWritten | weave/transform.go:118-129 | Each match is placed with a drift equal to the lines of every block already written for its aspect, and that drift never decreases. |
| Drift.DriftStartsAtZero | weave/transform.go:236 | The first match of an aspect is placed with no drift. |
| Drift.AspectWritesBlocks | weave/transform.go:262-276 | Every write carries the aspect's non-empty before- or after-block. |
| Drift.CallMatchWritesWithin | weave/transform.go:118-129 | The writes of one call match are in line order, between its lowest and highest target line. |
| Drift.CallWritesAscending | weave/transform.go:118-129 | When the matched calls come in line order, the aspect's writes target lines in ascending order: the drift never sends a later match above an earlier one. |

## Left out

- `applyAroundAdvice` (weave/transform.go:160-210): its substance is `parseExpr`, `rewriteFile2` and `format.Node`, a structural rewrite and pretty-printing of the syntax tree that is not part of this model.
- The Go parser, `token` positions and the generic `ast.Inspect` traversal: their result is the `parse` parameter, with line numbers as inputs and call sites in traversal order.
- `writeAtLine`, `writeMissingImports`, `fileAsStr` and `writeOut` are not part of this model: their calls are recorded in `Rout`, not their effect on the text. `writeMissingImports` may drop imports the file already has; the model records the list it is given.
- `containArgs` is not part of this model. It is a parameter, with no property assumed.
- Logging through `flog` is left out.
- A parse error is only logged. The weaver goes on with the partial tree the parser returns, which the `parse` parameter covers. Only the global phase can then crash, when that partial tree has no import; see the next line.
- Weaving.Weave.ApplyGlobalAdvice: the crash when a `"*"` aspect is reached and the file has no import (`file.Imports[ilen-1]` with `ilen == 0`) is excluded by a precondition. `GlobalWrites` yields `None` in that case.
- A function declaration without a body (a nil `Body`) makes `fn.Body.Lbrace` crash. `Decl` always carries brace lines, so the model does not capture that crash.
- Matching.CallJoinpointsExact: the joinpoints are characterised by membership (both directions) and, through `CallJoinpointsCount`, by their count, the number of matching call sites. Their order is fixed only by the definition of `CallJoinpoints` as the traversal-order filter. The same holds for Matching.ExecJoinpointsExact with `ExecJoinpointsCount`.
- Drift.CallWritesAscending: its hypothesis `CallsInLineOrder` can fail. `ast.Inspect` visits in pre-order, so in a call chain split over lines (`x.foo(a).` on line 1, `foo(b)` on line 2) the outer call, whose `(` is on line 2, is visited before the inner one on line 1. The lemma says nothing about such files.
- The receiver of a selector call is kept as text only; the source never looks at it.
- Integer widths: line numbers and counters are unbounded; a file long enough to overflow Go's `int` is not modelled.
