# Atomic groups by lookahead and backreference

This project models `transformAtomicGroups` from `src/atomic-groups.js` in Dafny. The function
rewrites the text of a regex pattern so that every atomic group `(?>BODY)` becomes
`(?:(?=(?<$AG$n>BODY))\k<$AG$n>)`. That is a lookahead that captures the body under a
numbered marker name, followed by a backreference to the capture. When no atomic group is
left, the marker names are taken out again. The model has four parts:

- **The token scanner** (`Tokens`). The token regex of the rewrite loop is written out as
  `NextToken`. Its alternatives are tried in order: a group start `(?` plus one of `:=!<>`,
  a numbered backreference `\` plus a digit 1-9 plus further digits, then an optional `\`
  plus one character. `Lex` is the token stream the loop reads from index 0.
- **Class depth** (`ClassDepth`). `[` opens a class at any depth. `]` closes one only when a
  class is open. Group and backreference logic is looked at only outside every class.
- **The guard** `hasUnescapedInDefaultRegexContext` (`Guard`). It runs a quick plain search,
  then a loop over pieces (the needle, or an optional `\` plus a character) with the same
  depth rule and an early return.
- **The rewrite loop** (`Pass`, `Rewrite`, `AtomicGroups`) and **depollution** (`Depollution`).
  Each pass of the outer `do … while` scans from index 0. It tracks the first `(?>` outside
  every class and counts the group starts opened inside it. It rewrites at the `)` that
  closes the group, or aborts at a numbered backreference outside a class.

`RunPass`, `ScanForNeedle`, `HasUnescapedInDefaultRegexContext` and `TransformAtomicGroups`
are methods with the source's loops and early exits. Each is proved equal to a function:
`PassOf`, `GuardFrom`, `OccursUnescaped` and `Transform`. The lemmas prove properties of those
functions:

- the guard says yes exactly when a `(?>` token lies outside every class;
- a pass tracks the first such opener and stops at its matching `)`;
- a rewrite copies the prefix, body and suffix verbatim, and its wrappers add no `(?>`, no
  numbered backreference and no class bracket;
- each rewrite removes exactly one opener, which is the termination measure;
- marker numbers count up from 1;
- the transform fails exactly when the pattern holds both an opener and a numbered
  backreference outside every class.

The source's comments and its code disagree in places. The model follows the code:

- Every pass starts at index 0. The comment at `src/atomic-groups.js:32-33` says otherwise,
  but `aGPos` is reset at line 15 before `lastIndex` is computed at line 17.
- The outermost atomic group is rewritten first. Atomic groups nested in its body count as
  nested groups in that pass and are rewritten in later passes.
- The numbered-backreference error (lines 39-44) does not test whether the scan is inside
  the atomic group. Once the guard has found a `(?>` outside a class, any numbered
  backreference outside a class aborts the transform. Examples are the `\1` in `(?>a)\1`
  (`Examples.BackrefAfterGroupFails`) and in `\1(?>a)`, which aborts in the first pass before
  any rewrite. A pattern with no `(?>` outside a class, such as `a\1`, is returned unchanged
  by the guard at lines 4-6.
- An unclosed `(?>` ends the loop. The pass that tracks it counts every later group start
  as nested and reaches the end without rewriting. So the matched inner group of
  `(?>a(?>b)` is left as it is (`Examples.InnerOpenerKept`).
- Only `(?X` tokens count as nested groups. A bare `(` inside an atomic group is not
  counted, so the first `)` outside a class with no pending `(?X` closes the atomic group.

## Model

| member | source | states |
|---|---|---|
| `Tokens.NextToken` | src/atomic-groups.js:7 | The token at `i` is non-empty and fits in the text. It is a group start exactly when `(?` plus one of `:=!<>` is there. It is a numbered backreference exactly when `\` plus a digit 1-9 is there, and then it covers `\`, that digit and the greedy run of digits after it. A single character is never a `\` that has a character after it. |
| `Tokens.DigitRunIsLongest` | src/atomic-groups.js:7 | The `\d*` of a numbered backreference takes every digit it covers and stops before a non-digit or at the end. |
| `Tokens.TokenSpelled` | src/atomic-groups.js:7 | The token read at `i` spells exactly the text found at `i`. |
| `Tokens.LexCovers` | src/atomic-groups.js:19-20 | The tokens the loop reads one after another spell out the whole pattern. No character is skipped or read twice. |
| `ClassDepth.ClassShields` | src/atomic-groups.js:21-47 | While the opened classes outnumber the `]` that follow, no token counts as an opener, group start, `)` or backreference. The depth never falls below its start minus the number of `]`. |
| `Guard.HasUnescapedInDefaultRegexContext` | src/atomic-groups.js:70-89 | The guard's answer, the quick test followed by the scan, is `OccursUnescaped`: the piece scan from index 0 at depth 0 reports the needle. An empty needle gives false. |
| `Guard.ScanForNeedle` | src/atomic-groups.js:75-88 | The loop with its early `return true` computes the scan's answer `GuardFrom(pattern, 0, needle, 0)`. |
| `Guard.OccursMeans` | src/atomic-groups.js:72 | The quick test finds the needle exactly when the needle starts at some position of the pattern. |
| `Guard.QuickTest` | src/atomic-groups.js:71-74 | When the scan reports the needle, the quick test finds it too. The early `return false` never changes the answer. |
| `Guard.GuardToken` | src/atomic-groups.js:77-86 | The guard's pieces over one token of the rewrite loop report the needle exactly when the token is `(?>` at depth 0. Otherwise they continue after the token with the depth the class-depth rule gives. |
| `Guard.GuardIffOpener` | src/atomic-groups.js:4-6 | The guard says yes exactly when the rewrite loop's token stream holds a `(?>` outside every class. |
| `Pass.RunPass` | src/atomic-groups.js:12-49 | The inner loop, with its `break` and `throw`, returns the pass outcome `PassOf(pattern)`. |
| `Pass.AdvanceDepth` | src/atomic-groups.js:21-48 | The loop body changes the class depth as the class-depth rule says: `[` increments it, and `]` decrements it only above 0. |
| `Pass.PassFromTokens` | src/atomic-groups.js:17-20 | Re-running the token regex where each match ends gives the same pass as walking the token stream of the rest of the pattern. |
| `Pass.FindsFirstOpener` | src/atomic-groups.js:24-27 | A pass that rewrites tracks the first `(?>` outside every class. Before it there is no other such opener and no numbered backreference, and all classes are closed. |
| `Pass.TrackedCloses` | src/atomic-groups.js:28-38 | Once a group is tracked, a rewrite stops at the first `)` outside a class at which the `(?X` starts seen since are all closed, and it reports the tracked start. No numbered backreference outside a class comes before that `)`. |
| `Pass.PassSplit` | src/atomic-groups.js:24-38 | A rewriting pass splits the tokens into prefix, `(?>`, body, `)` and suffix. The `(?>` is at the reported start and the `)` at the reported position. The body's classes balance and its `)` is the matching one. |
| `Pass.ReachesOpener` | src/atomic-groups.js:24-25 | Before the first `(?>` outside every class, with all classes closed and no numbered backreference outside a class, the pass goes on and starts tracking that `(?>`. |
| `Pass.ReachesClose` | src/atomic-groups.js:26-38 | Once a group is tracked, the pass rewrites at the `)` that closes it, provided no numbered backreference outside a class comes first. |
| `Pass.SplitRewrites` | src/atomic-groups.js:24-38 | The converse of `PassSplit`: when the tokens split as prefix, first `(?>` outside a class, body, matching `)` and suffix, with no numbered backreference outside a class before the `)`, the pass rewrites that group at those positions. |
| `Pass.NoRewriteNoBackref` | src/atomic-groups.js:39-44 | A pass that reaches the end met no numbered backreference outside a class. |
| `Pass.AbortHasBackref` | src/atomic-groups.js:39-44 | A pass that aborts met a numbered backreference outside a class. The reported position is where that token starts, and the reported escape is its text. |
| `Pass.QuietPass` | src/atomic-groups.js:19-49 | A pass with no `(?>` and no numbered backreference outside a class ends without rewriting. |
| `Rewrite.Decimal` | src/atomic-groups.js:31 | The template literal spells a marker number as a non-empty run of decimal digits. |
| `Rewrite.DecimalRoundTrip` | src/atomic-groups.js:31 | Reading the digits back gives the number, with no leading zero unless it is 0. |
| `Rewrite.MarkerInjective` | src/atomic-groups.js:30-31 | Different rewrite numbers give different capture names, so each backreference refers to the lookahead of its own rewrite. |
| `Rewrite.MarkerInert` | src/atomic-groups.js:31 | A marker name holds no `(`, `\`, `[` or `]`. |
| `Rewrite.RewrittenShape` | src/atomic-groups.js:34 | The rewritten pattern is the prefix, the opening wrapper, the body, the closing wrapper and the suffix, each at its computed position, with the prefix, body and suffix copied verbatim. |
| `Rewrite.LexOpenText` | src/atomic-groups.js:34 | The text put in place of `(?>` reads as three group starts and then plain characters, whatever follows it. |
| `Rewrite.LexCloseText` | src/atomic-groups.js:34 | The text put in place of the `)` reads as two `)`, the escape `\k` and then plain characters, whatever follows it. |
| `Rewrite.GroupPieces` | src/atomic-groups.js:24-34 | In a token split `pre (?> body ) post`, the `(` of the opener sits at the reported start and the `)` at the reported close. The text after each reads as the rest of the stream. |
| `Rewrite.RewriteTokens` | src/atomic-groups.js:34 | The rewritten pattern's tokens are the original prefix, body and suffix tokens. Only the opener and the closing `)` are replaced, by the wrapper tokens. |
| `Rewrite.OpenNeutral` | src/atomic-groups.js:34 | The opening wrapper holds no `(?>` and no numbered backreference outside a class, and leaves the class depth unchanged. |
| `Rewrite.CloseNeutral` | src/atomic-groups.js:34 | The closing wrapper holds no `(?>` and no numbered backreference outside a class, and leaves the class depth unchanged. |
| `Rewrite.RewriteCounts` | src/atomic-groups.js:34 | The rewrite removes the one replaced `(?>` from the count outside classes. It keeps every other opener and every numbered backreference. |
| `Rewrite.OpenParens` | src/atomic-groups.js:34 | The inserted `(?:(?=(?<$AG$n>` read outside a class holds three group starts and no `)`, and leaves the class depth at zero. |
| `Rewrite.CloseParens` | src/atomic-groups.js:34 | The inserted `))\k<$AG$n>)` read outside a class holds three `)` and no group start, and leaves the class depth at zero. |
| `Rewrite.RewriteKeepsParens` | src/atomic-groups.js:34 | The rewrite takes away one group start and one `)` outside a class and puts in three of each, so both counts grow by two and the parentheses stay balanced. |
| `Depollution.DigitRunExact` | src/atomic-groups.js:54 | Digits spelled out and followed by a non-digit are exactly the greedy `\d+` run. |
| `Depollution.MarkerFormOf` | src/atomic-groups.js:54 | The text `(?<$AG$n>` or `\k<$AG$n>` matches the marker form, and its digit run is the decimal spelling of `n`. |
| `Depollution.DepolluteNamedGroup` | src/atomic-groups.js:54-55 | Outside a class, the named group of marker `n` becomes a plain `(`, and depollution goes on after it. |
| `Depollution.DepolluteMarkerRef` | src/atomic-groups.js:54-55 | Outside a class, the backreference to marker `n` becomes `\` followed by the digits of `n`, which read back as `n`. |
| `Depollution.NoDollarUnchanged` | src/atomic-groups.js:52-57 | A pattern without `$` comes out of depollution unchanged. |
| `AtomicGroups.RewriteStep` | src/atomic-groups.js:34-36 | A rewriting pass reports positions that fit the pattern. Its result has exactly one fewer `(?>` outside a class and the same numbered backreferences outside classes, which is the loop's termination measure. |
| `AtomicGroups.RewriteBalance` | src/atomic-groups.js:30-36 | When a pass rewrites the `(?>` at `a` and the `)` at `p`, the rewritten pattern has two more group starts and two more `)` outside classes than before. |
| `AtomicGroups.TransformAtomicGroups` | src/atomic-groups.js:3-58 | The method (guard, passes, depollution) returns `Transform(pattern)`. |
| `AtomicGroups.NoOpenerNoChange` | src/atomic-groups.js:4-6 | A pattern with no `(?>` outside a class is returned unchanged. |
| `AtomicGroups.PassBackrefs` | src/atomic-groups.js:39-44 | A pass over a whole pattern ends with no rewrite only if the pattern has no numbered backreference outside a class, and aborts only if it has one. |
| `AtomicGroups.QuietNoRewrite` | src/atomic-groups.js:11-50 | A pattern with no `(?>` and no numbered backreference outside a class ends the loop. |
| `AtomicGroups.RewritesFailIff` | src/atomic-groups.js:11-50 | The passes abort exactly when the pattern has a numbered backreference outside a class. |
| `AtomicGroups.TransformFailsIff` | src/atomic-groups.js:3-58 | The transform fails exactly when the pattern has both a `(?>` and a numbered backreference outside every class. |
| `AtomicGroups.RewritesCount` | src/atomic-groups.js:10-50 | When the passes end, the rewrite count plus the openers left equals the start count plus the openers there were. This gives markers numbered 1, 2, … with one per removed opener. The last pass rewrites nothing, and no numbered backreference is left. The first `(?>` outside a class that is left over has no matching `)`. Every opener after it stays as it is, matched or not. |
| `Examples.OpenerInClass` | src/atomic-groups.js:70-89 | `[(?>]+` is returned unchanged. |
| `Examples.EscapedOpener` | src/atomic-groups.js:75 | `\(?>` is returned unchanged: the escape pair takes the `(`. |
| `Examples.BackrefAfterGroupFails` | src/atomic-groups.js:39-44 | `(?>a)\1` fails, although the backreference is outside the atomic group. |
| `Examples.RewritesAtomic` | src/atomic-groups.js:30-36 | `(?>a)` is rewritten once, to `(?:(?=(?<$AG$1>a))\k<$AG$1>)`, and the next pass finds nothing. |
| `Examples.TransformAtomic` | src/atomic-groups.js:3-58 | The transform of `(?>a)` is the depollution of that one rewrite. |
| `Examples.ScanUnclosed` | src/atomic-groups.js:24-38 | In `(?>a(?>b)` the pass tracks the first `(?>`, counts the inner `(?>` as a nested group, lets its `)` close that nested group and reaches the end without rewriting. |
| `Examples.InnerMatched` | src/atomic-groups.js:28-38 | The inner group `(?>b)` of `(?>a(?>b)` is closed by its own `)`. |
| `Examples.InnerOpenerKept` | src/atomic-groups.js:3-58 | `(?>a(?>b)` is returned unchanged: the loop stops after one pass with no rewrite, although its inner atomic group is matched and outside every class. |

## Left out

- The `u` and `s` flags of the host regular expressions are not modelled. The pattern is a
  sequence of characters, with no distinction between code points and UTF-16 units.
- The host `RegExp` engine is not modelled. It is replaced by an explicit tokenizer
  (`NextToken`) and an explicit piece reader (`PieceAt`) that keep its alternation order.
- `Guard.HasUnescapedInDefaultRegexContext`: the needle is matched as literal text. The one
  caller passes the regex `\(\?>`, which matches exactly the text `(?>`. A needle with other
  regex syntax is not modelled.
- `replaceUnescaped` and `RegexContext` from `./utils.js` are not part of this model.
  `Depollution.Depollute` writes the replacement the way it is used at lines 52-57. It is an
  escape-aware, class-aware scan that tries the two marker forms first and then an optional
  `\` plus a character, with the same class-depth rule as the guard.
- Match-time behaviour is not modelled: whether the lookahead plus backreference behaves as
  an atomic group needs a model of the regex matcher.
- Whether positional backreference numbers are right after depollution is not modelled. This
  matters when the pattern already has other capturing groups, and the source does not
  ensure it.
- The error is a failure result that carries the offending escape. The message text is not
  modelled.
- Idempotence of the whole transform is not proved, and it can fail. The loop leaves
  an unclosed `(?>` in place. Depollution turns each `\k<$AG$n>` into the numbered
  backreference `\n` (line 55). So `(?>a)(?>b` becomes `(?:(?=(a))\1)(?>b`, and by
  `TransformFailsIff` transforming that again aborts.
- Parenthesis balance is proved for each rewriting pass (`AtomicGroups.RewriteBalance`), not
  for depollution as a whole. Depollution turns each `(?<$AG$n>` into one `(` and each
  `\k<$AG$n>` into `\n`, so no `(` or `)` is added or removed, but this is shown only at each
  marker position.
- Depollution is proved at each marker position and for text without `$`. There is no
  single statement about the whole final pattern.
- The markers are not proved to be fresh names that no group of the original pattern uses.
