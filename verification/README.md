# PCRE 8.20 as bundled with ARMT, with three ARMT cores

ARMT parses smartctl output, mdstat and HTTP replies with the regular
expression library it carries, PCRE 8.20. This project models that library's
compiler and its two matchers, on byte-code, and proves that they do what the
pattern says. Three smaller pieces of code are modelled beside them: the
directory walk of `CFSVerifier`, the DNS name encoder and decoder of `CDNS`,
and the table of named groups of PCRE.

## The regular expressions covered

Eight-bit subjects, newline LF, the character tables of the C locale. A pattern
is a tree of items: literal bytes, `.`, `\d \D \s \S \w \W`, bitmap classes,
`^ $ \A \Z \z` (also in multiline and dotall mode), capturing and plain groups,
alternation, and greedy, lazy or possessive quantifiers other than `{0}`.

The compiler is covered for all of these. The matchers are covered for the code
of all of them except where a possessive quantifier needs brackets of its own:
on a class, on a group, and on a character or type with a minimum of one and a
limit (`Pattern.CoveredAlts` says so).

## How the proof is put together

- `Opcodes`, `Tree`: the byte-code alphabet; the tree structure of compiled
  code, where each node lies in the code, and which stretches of a subject it
  matches (`ItemL`, `BranchL`, `AltsL`). `Language` unfolds these.
- `Order`: the same matches as a list, the preferred ones in front, with the
  stretches captured on the way.
- `Pattern`: patterns as written and what they match (`PAltsL`), without any
  reference to compiled code. `Translate` says which tree a pattern is compiled
  to and proves that it matches the same; `AutoPossess` has the table that
  makes repeats possessive, and `Spelling` a pattern on which it goes wrong.
- `Meanings`: which bytes a character or type takes and what an anchor wants
  before and behind it, by byte numbers and by what stands there.
- `Kont`, `Moves`, `Spans`, `Exec`: the backtracking matcher `match()`, on
  byte-code, with its chain of group starts and its offsets vector; `Leftover`
  shows what a failed call may leave in that vector.
- `Backtrack`: what `match()` tries, as a list in which every entry carries the
  chain of group starts; `Exec` proves that `match()` reports the first entry.
- `Prefer`: which match of a pattern is preferred (`PAltsO`), again without
  reference to compiled code, and that compiling keeps it. `Flat`, `Nesting`,
  `FalseStart`: when `match()` finds it, and a case when not.
- `Nfa`, `Paths`, `Dfa`: the matcher `internal_dfa_exec()`, with its two state
  lists.
- `Scan`, `FirstBytes`: the analyses of the compiler that later code trusts.
  `Widths` and `Facts` say of the pattern as written what they find: which
  branches have a fixed length, when a pattern is anchored or starts lines, and
  which first and last bytes are noted.
- `Layout`, `Emit`, `Replicate`, `Compile`, `Measure`: the compiler itself,
  writing, moving, copying and linking code in a buffer, and the phase that
  measures the buffer beforehand.
- `Search`, `PatternGroups`, `Regexp`: `pcre_exec()`, `pcre_compile2()`, and
  the whole way from a pattern to its leftmost match and its captures.
- `Tables`, `Classes`: `pcre_maketables()`, and the bit map of a class between
  square brackets.
- `Parens`, `Numbering`, `Openings`: numbering of groups by two methods, and the
  numbers told from the tokens of the text alone. `Recurse`, `Walk`: moving
  groups that contain subroutine calls, and what the walk over the code meets.
  `NameTable`: the table of names.
- `Verifier`, `Dns`: the two ARMT cores.

The main results: `Regexp.CompileAndExec` (compile in place, then search: the
leftmost place where the pattern as written matches, or none; there the match
that is preferred, with the captures that go with it),
`Regexp.CompileAndDfaExec` and `Search.BothEngines` (the state lists record
exactly the ends of all matches, and agree with backtracking),
`Exec.MatchData.Match` (always ends, finds a match exactly when there is one,
reports the first of all that it tries with its captures, undoes captures when
it fails), `Regexp.PcreCompile` (what measuring promised is what is written).
Completeness of `match()` holds for every nesting of groups, also for possibly
empty unlimited groups inside others.

Five properties that one would expect are false of the code, and are stated as
they are:

- `check_auto_possessive()` has four entries that are wrong: `\s` before `\R`,
  `\S` before `\h` or `\v`, `\h` before `\S`. `AutoPossess.TableExact` proves
  that an entry is right if and only if it is not one of these.
- `check_auto_possessive()` takes the next item to be optional only if it is
  followed by the text `*`, `?` or `{0,`, not by `{00,1}`. `Regexp.MisreadExec`
  shows that nothing is found by `a+b{00,1}a` in `aa`.
  `Spelling.SpellingExact` proves for all patterns of this form that they are
  compiled right if and only if the repeat and what comes behind the optional
  item have no byte in common. Every pattern is compiled right if no repeat is
  made possessive before an item whose zero minimum is spelled otherwise
  (`Translate.SpelledAlts`); what is found is a match in any case
  (`Translate.CodeSound`).
- `adjust_recurse()` compares links that it has already moved with links that it
  has not reached yet. `Recurse.AdjustExact` proves that it does its work if and
  only if no resolved call lies just the distance of the move behind one that
  still waits for its group; `Recurse.TrapHappens` shows the case
  `(c(?2)\d(?1)){0,3}(b)`.
- Where an unlimited group that may match nothing contains another one,
  `match()` may take a round that did consume something for an empty one,
  because the inner ket leaves a start of its own on the chain. It still finds a
  match if there is one, but not always the preferred one: `Regexp.NestedExec`
  shows `(?:y|(?:x|)*)*`, which stops after the first byte of `xy`. For patterns
  without such nesting `Regexp.FirstPreferred` gives the preferred match, and
  for all patterns `Backtrack.AltsM` lists what is tried.
- A failed call of `match()` does not restore every slot below its high-water
  mark. A group that is still open when the call is made may find a later
  stretch of its own in its pair; all other slots are as they were
  (`Exec.Undone`). When the ket of a group fails, its pair holds what was just
  captured, so it is unchanged if and only if it already held that
  (`Exec.MatchData.MatchKet`). `Leftover.SecondRoundFails` shows `(a)+b` on
  `aac`.

## Model

| member | source | states |
|---|---|---|
| Translate.SingleRepeats | libs/pcre-8.20/pcre_compile.c:4384-4515 | The EXACT, UPTO, STAR, PLUS and QUERY forms emitted for {min,max} of a character or type accept exactly the runs of min to max bytes; the possessive forms only those that cannot go on |
| Translate.ClassRepeats | libs/pcre-8.20/pcre_compile.c:4545-4580 | The same for the repeat opcodes behind a class, 0 standing for no upper limit |
| Translate.NestedL | libs/pcre-8.20/pcre_compile.c:4749-4818 | k optional copies nested in brackets behind zero-repeat prefixes accept up to k rounds of the group |
| Translate.CopiesL | libs/pcre-8.20/pcre_compile.c:4697-4740 | n copies of a group followed by a rest accept n rounds and then the rest |
| Translate.GroupRepeats | libs/pcre-8.20/pcre_compile.c:4589-4880 | Copies, nested copies and the looping last copy together accept from min to max rounds, in every case of min and max |
| Translate.AltsMatch | libs/pcre-8.20/pcre_compile.c:3055-6670 | The emitted code matches a stretch of a subject if and only if the pattern as written does, unless a repeat is made possessive before an optional item that the text does not show to be optional |
| Translate.CodeSound | libs/pcre-8.20/pcre_compile.c:3055-6670 | The emitted code matches nothing but what the pattern as written matches, however its quantifiers are spelled |
| Translate.NextStops | libs/pcre-8.20/pcre_compile.c:2626-2700 | What the compiler looks at after a repeat that it makes possessive is compiled to code whose first byte the repeat cannot take, if that item must be there |
| Spelling.SpellingExact | libs/pcre-8.20/pcre_compile.c:2690-2697 | Where the next item is optional but spelled {00,n}, the code matches what is written if and only if the repeat and the item behind have no byte in common |
| Translate.AltsShaped | libs/pcre-8.20/pcre_compile.c:4847-4880 | Everything emitted is well formed: above all, an unlimited group whose bracket is not marked cannot match the empty string |
| AutoPossess.TableExact | libs/pcre-8.20/pcre_compile.c:2700-3023 | Where the table answers TRUE no byte can start both items, except for exactly four entries, which do share a byte |
| AutoPossess.AutoDisjoint | libs/pcre-8.20/pcre_compile.c:2626-3023 | For characters and the escapes d D s S w W a TRUE means that no byte matches both items |
| AutoPossess.TableComplete | libs/pcre-8.20/pcre_compile.c:2700-3023 | Where the table answers FALSE some byte can start both items, except for a character before `\R` and for `\v` or `\R` before `\h` |
| AutoPossess.AutoExact | libs/pcre-8.20/pcre_compile.c:2626-3023 | Between characters and the escapes d D s S w W the answer is TRUE if and only if no byte matches both and the text does not show the next item to be optional |
| Translate.PossessiveCode | libs/pcre-8.20/pcre_compile.c:4331-4382 | The code of an unlimited repeat is possessive if and only if it is written so or nothing it could give back can come next |
| Kont.OpAt | libs/pcre-8.20/pcre_exec.c:696-701 | The opcode under the code pointer tells which item comes next, or which end of a group or of the pattern was reached |
| Kont.EndStep | libs/pcre-8.20/pcre_exec.c:1769-1777 | From the end of any branch the ALT links lead forward to the ket of the same group |
| Kont.ReadyAgain | libs/pcre-8.20/pcre_exec.c:1952-1977 | Going round again from a repeating ket keeps everything that calls rely on, and the bound on further moves goes down |
| Kont.ReadyKet | libs/pcre-8.20/pcre_exec.c:1812-1850 | At a ket the link leads back to the bracket, and a marked group that consumed nothing finds its own start on the chain |
| Moves.FirstRound | libs/pcre-8.20/pcre_exec.c:1908-1920 | Rounds of a group can be taken without empty ones, so stopping after an empty round loses no match |
| Moves.NoWayOut | libs/pcre-8.20/pcre_exec.c:1908-1977 | If leaving a group and going round again both fail, no match continues from its ket |
| Exec.TooShort | libs/pcre-8.20/pcre_exec.c:3346-3356 | A repeat that stops short of its minimum matches nothing |
| Exec.AllTried | libs/pcre-8.20/pcre_exec.c:3357-3402 | When every length up to the longest run failed, the repeat and what follows it fail |
| Exec.LongestTried | libs/pcre-8.20/pcre_exec.c:3376-3392 | A possessive repeat has only one length, so when what follows the longest run fails there is no match |
| Exec.WorkingKept | libs/pcre-8.20/pcre_exec.c:6187-6196 | With the vector in thirds, a failed call leaves every working slot alone: data slots and working slots never overlap |
| Exec.MatchData.Match | libs/pcre-8.20/pcre_exec.c:686-702 | Every call ends; MATCH reports the first end, with its captures, of all that the rest of the code leads to; NOMATCH means that there is none; a failed call leaves all slots below its mark as they were, except that the pair of a group still open may hold a later stretch of that group; the slots stay right |
| Exec.MatchData.MatchBra | libs/pcre-8.20/pcre_exec.c:892-1045 | A bracket tries its branches in order, and puts its slots back when all fail |
| Exec.MatchData.MatchCapturing | libs/pcre-8.20/pcre_exec.c:892-957 | With its start in the working slot while the branches are tried |
| Exec.MatchData.MatchBranches | libs/pcre-8.20/pcre_exec.c:908-946 | The loop over the alternatives finds a match in one of them or shows that there is none in any |
| Exec.MatchData.MatchBraZero | libs/pcre-8.20/pcre_exec.c:1779-1799 | A zero-repeat prefix tries the group and what follows it, in either order |
| Exec.MatchData.MatchKet | libs/pcre-8.20/pcre_exec.c:1812-1900 | The end of a group completes the capture, takes its start off the chain, and leaves or repeats; after a failure the group's pair holds the new capture, so it is unchanged exactly if it held that before |
| Leftover.SecondRoundFails | libs/pcre-8.20/pcre_exec.c:1871-1900 | A failed call that does change the pair of an open group |
| Exec.MatchData.Capture | libs/pcre-8.20/pcre_exec.c:1871-1900 | The pair of a closed group gets the stretch that the group matched; pairs passed over are unset |
| Exec.MatchData.LeaveOrRepeat | libs/pcre-8.20/pcre_exec.c:1908-1977 | Past a plain ket, or an empty round, go on; otherwise also try the group again, first or last as the ket says |
| Exec.MatchData.SkipAlts | libs/pcre-8.20/pcre_exec.c:1781-1789 | The links from a bracket lead to its ket |
| Exec.MatchData.FindKet | libs/pcre-8.20/pcre_exec.c:1769-1777 | From the end of a branch the ALT links lead to the ket |
| Exec.MatchData.Decode | libs/pcre-8.20/pcre_exec.c:3040-3166 | The opcodes of a repeat give the item, its least and greatest count, and whether it is lazy or possessive |
| Exec.MatchData.MatchUp | libs/pcre-8.20/pcre_exec.c:3359-3374 | A lazy repeat tries every allowed length, shortest first |
| Exec.MatchData.MatchDown | libs/pcre-8.20/pcre_exec.c:3376-3401 | A greedy repeat tries every allowed length, longest first |
| Exec.MatchData.MatchAll | libs/pcre-8.20/pcre_exec.c:3376-3392 | A possessive repeat tries the longest allowed run and no other |
| Exec.MatchData.MatchSingle | libs/pcre-8.20/pcre_exec.c:3148-3402 | One byte or a repeat of one, in all its forms |
| Exec.MatchData.MatchZero | libs/pcre-8.20/pcre_exec.c:1981-2060 | The opcodes that test the position and consume nothing |
| Meanings.ZeroStands | libs/pcre-8.20/pcre_exec.c:1981-2060 | What an anchor wants before and behind it: `$` and `\Z` the end of the subject or one newline at the end, `\z` the end, `^` and `\A` the start, in multiline mode also the place behind a newline, if the subject goes on, and the place before one |
| Meanings.CharMeans | libs/pcre-8.20/pcre_exec.c:2180-2304 | A literal, a dot, an escape or a class takes one byte, of those listed by number |
| Meanings.AnchorFirst | libs/pcre-8.20/pcre_exec.c:1981-2060 | An anchor in front of a branch |
| Meanings.AnchorLast | libs/pcre-8.20/pcre_exec.c:1981-2060 | A branch with an anchor at its end matches what the branch matches, where the anchor stands |
| Spans.UnderwayMatched | libs/pcre-8.20/pcre_exec.c:1871-1900 | When a ket is reached, the group's alternatives match from the start in its working slot to here |
| Spans.UnderwayLeave | libs/pcre-8.20/pcre_exec.c:1908-1977 | Leaving a group or repeating it continues the match of every group around it |
| Spans.GoodCapture | libs/pcre-8.20/pcre_exec.c:1882-1899 | Completing a capture keeps every pair of slots unset or holding a stretch that its group matches |
| Spans.GoodRestored | libs/pcre-8.20/pcre_exec.c:947-956 | So does putting back the slots of a group that failed |
| Order.AltsListed | libs/pcre-8.20/pcre_exec.c:892-1045 | The ordered list for a group ends at every position where a match ends and nowhere else, whatever was captured before |
| Backtrack.TriesEnter | libs/pcre-8.20/pcre_exec.c:892-1045 | What a bracket leads to is what its branches lead to, one after another, inside it |
| Backtrack.TriesKet | libs/pcre-8.20/pcre_exec.c:1908-1977 | From a ket: only out after a round that left the position on top of the chain; else also round again, first if greedy and last if lazy |
| Backtrack.TriesRep | libs/pcre-8.20/pcre_exec.c:3346-3402 | From a repeat: every allowed number of bytes, the most first if greedy, the least first if lazy |
| Spans.ShowsCapture | libs/pcre-8.20/pcre_exec.c:1871-1900 | Completing a capture makes the slots show what is captured now, and nothing for groups passed over |
| Exec.ShowsBack | libs/pcre-8.20/pcre_exec.c:947-956 | After a failed call the slots show the captures from before it |
| Flat.AltsOrder | libs/pcre-8.20/pcre_exec.c:1812-1977 | Without marked groups inside marked ones, what is tried is what is preferred, in the same order and with the same captures, whatever is on the chain |
| FalseStart.NestedLoopsDiffer | libs/pcre-8.20/pcre_exec.c:1952-1977 | A pattern with nested loops for which the match tried first is not the preferred one |
| Prefer.AllTheSame | libs/pcre-8.20/pcre_compile.c:4331-4382 | Greedy, lazy and possessive repeats lead to the same matches in the same order if giving back leads nowhere |
| Prefer.SingleO | libs/pcre-8.20/pcre_compile.c:4384-4515 | EXACT followed by UPTO, STAR or QUERY takes the allowed numbers of bytes in the order that the quantifier asks for |
| Prefer.CopiesO | libs/pcre-8.20/pcre_compile.c:4697-4740 | Plain copies in front are rounds that must be there |
| Prefer.NestedO | libs/pcre-8.20/pcre_compile.c:4749-4818 | Nested optional copies are optional rounds, tried in the order that the quantifier asks for |
| Prefer.LoopingO | libs/pcre-8.20/pcre_compile.c:4862-4880 | The looping last copy takes one round or more, and an empty round is the last |
| Prefer.AltsSame | libs/pcre-8.20/pcre_compile.c:3055-6670 | The emitted code prefers the same matches, with the same captures, as the pattern as written, unless a repeat is made possessive before an item that may be left out |
| Prefer.PatternListed | libs/pcre-8.20/pcre_compile.c:3055-6670 | The ordered list of a pattern ends exactly where the pattern matches |
| Nesting.NullSame | libs/pcre-8.20/pcre_compile.c:1960-2233 | A group is marked as possibly empty exactly if all items of one of its alternatives, as written, may match nothing |
| Nesting.ApartCode | libs/pcre-8.20/pcre_compile.c:4847-4880 | A pattern without nested possibly empty loops is compiled to code without nested marked groups |
| Paths.LinksShow | libs/pcre-8.20/pcre_dfa_exec.c:810-835 | The links in the code lead through the headers of all branches to the ket |
| Paths.ReachUnit | libs/pcre-8.20/pcre_dfa_exec.c:2189-2407 | Every allowed number of bytes of a repeat is a path of states through it, for a possessive repeat if it cannot go on |
| Paths.LeaveUnit | libs/pcre-8.20/pcre_dfa_exec.c:2189-2407 | A path of states through a repeat takes an allowed number of its bytes, and leaves a possessive repeat only where it cannot go on |
| Paths.PathsAreMatches | libs/pcre-8.20/pcre_dfa_exec.c:564-835 | The paths of states from the opening bracket to the final ket are exactly the matches |
| Dfa.StateLists.IsDuplicate | libs/pcre-8.20/pcre_dfa_exec.c:652-662 | A state is skipped exactly if the same offset and count occur earlier in the active list |
| Dfa.StateLists.Swap | libs/pcre-8.20/pcre_dfa_exec.c:573-580 | The new list becomes the active one, the other starts empty |
| Dfa.Process | libs/pcre-8.20/pcre_dfa_exec.c:753-900 | An active state appends to the two lists exactly the states that its opcode leads to |
| Dfa.ProcessUnit | libs/pcre-8.20/pcre_dfa_exec.c:2189-2407 | The same for opcodes that inspect a byte; a possessive repeat takes back the way out when it can go on |
| Dfa.Record | libs/pcre-8.20/pcre_dfa_exec.c:780-790 | A new match is put in front of the shorter ones, dropping the shortest when there is no room |
| Dfa.ScanActive | libs/pcre-8.20/pcre_dfa_exec.c:624-662 | After one position every state reached there was followed once, and its match recorded if it was the final ket |
| Dfa.PushStart | libs/pcre-8.20/pcre_dfa_exec.c:537-555 | The first states are those just inside each branch of the pattern |
| Dfa.InternalDfaExec | libs/pcre-8.20/pcre_dfa_exec.c:564-669 | Unless the workspace runs out, the ends recorded are exactly the ends of matches from the start, longest first, as many as fit |
| Scan.NotNullAlts | libs/pcre-8.20/pcre_compile.c:1960-2233 | A group that the scan calls non-empty never matches the empty string |
| Scan.CouldBeEmptyBranch | libs/pcre-8.20/pcre_compile.c:1960-2233 | The scan of the byte-code answers TRUE exactly for branches in which every item may match nothing |
| Scan.AnyBranchEmpty | libs/pcre-8.20/pcre_compile.c:2035-2060 | The same over the branches of a group inside |
| Scan.FixedAltsLength | libs/pcre-8.20/pcre_compile.c:1482-1674 | Where the fixed length is not negative, every match of every alternative has just that length |
| Scan.LookbehindReturns | libs/pcre-8.20/pcre_exec.c:1597-1623 | A lookbehind branch that steps back its fixed length and matches ends where it started |
| Scan.LookbehindFinds | libs/pcre-8.20/pcre_exec.c:1597-1623 | It matches after stepping back if and only if it matches some stretch that ends at the pointer |
| Scan.FixedLookbehind | libs/pcre-8.20/pcre_compile.c:6553-6571 | The length of a branch just compiled, still open and ended by OP_END |
| Widths.BranchShows | libs/pcre-8.20/pcre_compile.c:1482-1674 | The code of a branch has a fixed length if and only if the branch as written has: every quantifier allows one number of repeats, and the alternatives of each group are equally long; it is the sum of the lengths |
| Widths.LookbehindLength | libs/pcre-8.20/pcre_compile.c:6553-6571 | Every lookbehind branch with a fixed length is accepted with that length, and no other |
| Scan.StepBack | libs/pcre-8.20/pcre_exec.c:1610-1618 | Stepping back fails exactly if it would leave the subject |
| Scan.Lookbehind | libs/pcre-8.20/pcre_compile.c:6553-6571 | Working out the length, storing it and stepping back by it: the branch then has a match exactly if it matches some stretch that ends at the pointer, and only matches that end there |
| Scan.FindFixedLength | libs/pcre-8.20/pcre_compile.c:1482-1674 | The scan of the byte-code computes that length, and -1 for a repeated group or branches of different lengths |
| Scan.AnchoredEarlier | libs/pcre-8.20/pcre_compile.c:6712-6764 | If the pattern is anchored, a match from any position implies one with the same end from every earlier position |
| Scan.IsAnchored | libs/pcre-8.20/pcre_compile.c:6712-6764 | The scan of the byte-code finds out whether every branch starts with an anchor or .* in dotall mode |
| Scan.StartlineEarlier | libs/pcre-8.20/pcre_compile.c:6789-6869 | If the pattern starts lines, a match in the middle of a line implies one from a byte earlier |
| Scan.IsStartline | libs/pcre-8.20/pcre_compile.c:6789-6869 | The scan of the byte-code finds out whether every branch starts with a circumflex or .* |
| Facts.AltsShow | libs/pcre-8.20/pcre_compile.c:6712-6868 | is_anchored() and is_startline() answer TRUE exactly for the patterns all of whose alternatives begin with `^` (or `\A`, or multiline `^`) or `.*`, also inside groups that must be there |
| FirstBytes.CharHas | libs/pcre-8.20/pcre_compile.c:6318-6358 | The first and required bytes stay true of every match when a literal with its quantifier follows |
| FirstBytes.GroupHas | libs/pcre-8.20/pcre_compile.c:6031-6065 | So they do when a group with its quantifier follows, whatever was taken over from the group |
| FirstBytes.MergeHas | libs/pcre-8.20/pcre_compile.c:6506-6543 | So they do for two alternatives merged into one |
| FirstBytes.AltsHave | libs/pcre-8.20/pcre_compile.c:4225-4229 | Every match of a pattern starts with its first byte and has its required byte, after the first one when both are set |
| Facts.FirstOfAlts | libs/pcre-8.20/pcre_compile.c:6036-6071 | If all alternatives begin with the same literal, also inside groups that must be there, it is the first byte |
| Facts.LastOfAlts | libs/pcre-8.20/pcre_compile.c:6505-6545 | If all alternatives end in the same literal it is the required byte, for sure if each of them has something else before it |
| Facts.VaryOfAlts | libs/pcre-8.20/pcre_compile.c:6328-6360 | Behind an item of variable length the required byte is marked, so that it counts for anchored patterns |
| Facts.UnmarkedAlts | libs/pcre-8.20/pcre_compile.c:6328-6360 | Where nothing is of variable length no byte is marked |
| Layout.AltsMoved | libs/pcre-8.20/pcre_compile.c:4644-4683 | A copy of the cells of a group, anywhere, is the same group: links are relative |
| Layout.AppendAt | libs/pcre-8.20/pcre_compile.c:3139-3150 | Code written behind other code of a branch is the code of both together |
| Emit.Copy | libs/pcre-8.20/pcre_compile.c:4727-4738 | Copying cells forward changes nothing before the copy |
| Emit.MoveUp | libs/pcre-8.20/pcre_compile.c:4644-4683 | Shifting overlapping cells up keeps their contents |
| Emit.EmitSingle | libs/pcre-8.20/pcre_compile.c:6318-6325 | A literal, a type or a class with its bitmap is written as laid out |
| Emit.RepeatSingle | libs/pcre-8.20/pcre_compile.c:4384-4515 | The specified repeat is left in the buffer in place of the item; a possessive one by changing an opcode or by atomic brackets |
| Emit.RepeatClass | libs/pcre-8.20/pcre_compile.c:4545-4580 | The repeat of a class is written behind it |
| Emit.WrapOnce | libs/pcre-8.20/pcre_compile.c:4963-4977 | Shifting code up and putting atomic brackets around it keeps the code |
| Replicate.OpenCopy | libs/pcre-8.20/pcre_compile.c:4776-4802 | One more bracket is opened, chained to the one around it, and the group copied into it |
| Replicate.CloseBrackets | libs/pcre-8.20/pcre_compile.c:4806-4818 | The pending brackets are closed innermost first, each with matching offsets at both ends, leaving the nested copies |
| Replicate.NestCopies | libs/pcre-8.20/pcre_compile.c:4749-4818 | Opening, copying and closing together write the nested optional copies |
| Replicate.PutCopies | libs/pcre-8.20/pcre_compile.c:4697-4740 | The group is replicated to stand the minimum number of times |
| Replicate.MakeLoop | libs/pcre-8.20/pcre_compile.c:4840-4880 | The last copy gets a repeating or possessive ket, and a marked bracket exactly if one of its branches could match nothing |
| Replicate.RepeatGroup | libs/pcre-8.20/pcre_compile.c:4589-4880 | For every quantifier the moved, copied, nested and looping groups in the buffer are the specified code; nothing before the group changes |
| Compile.CloseStep | libs/pcre-8.20/pcre_compile.c:6581-6600 | Writing the forward link of the newest open branch turns it into a closed one and leads back to the branch before |
| Compile.CompileData.ReverseLinks | libs/pcre-8.20/pcre_compile.c:6581-6600 | Reversing the chain makes the links run forward from the bracket through every ALT to the ket |
| Compile.CompileData.AddAlt | libs/pcre-8.20/pcre_compile.c:6655-6665 | A new ALT leads back to the branch before while the group is open |
| Compile.CompileData.CloseGroup | libs/pcre-8.20/pcre_compile.c:6573-6608 | Closing reverses the chain and writes a ket whose link is the distance to the bracket |
| Compile.CompileData.CompileRegex | libs/pcre-8.20/pcre_compile.c:6407-6670 | Alternatives are compiled in place to the specified code, with the specified first and required bytes and group count |
| Compile.CompileData.CompileBranch | libs/pcre-8.20/pcre_compile.c:3055-6370 | One branch is compiled in place, item by item |
| Compile.CompileData.CompileGroup | libs/pcre-8.20/pcre_compile.c:5898-6072 | A group with its quantifier is numbered, compiled and replicated in place |
| Compile.CompileData.CompileChar | libs/pcre-8.20/pcre_compile.c:4222-4360 | A character, type or class with its quantifier is compiled in place |
| Compile.CompileData.GroupNeeds | libs/pcre-8.20/pcre_compile.c:6025-6065 | What a group passes on to the first and required bytes of its branch |
| Compile.CompileData.MergeBytes | libs/pcre-8.20/pcre_compile.c:6506-6543 | How the bytes of one more alternative are merged |
| Measure.NestedFormula | libs/pcre-8.20/pcre_compile.c:4752-4771 | The closed formula for nested copies is the size of the code written for them |
| Measure.CopiesFormula | libs/pcre-8.20/pcre_compile.c:4699-4722 | So is the one for plain copies |
| Measure.MeasureGroup | libs/pcre-8.20/pcre_compile.c:4697-4980 | The work-space position and the length together account for the group with its quantifier, greedy, lazy or possessive |
| Measure.MeasureSingle | libs/pcre-8.20/pcre_compile.c:4384-4515 | The position after a repeated character or type, possessive or not |
| Measure.MeasurePiece | libs/pcre-8.20/pcre_compile.c:3167-3216 | Each cycle adds what was written, atomic brackets included, and moves the work space back |
| Measure.MeasureRegex | libs/pcre-8.20/pcre_compile.c:6439 | The measured length of a group is the number of cells that will be written for it, for all quantifiers, possessive ones included |
| Search.MatchFrom | libs/pcre-8.20/pcre_exec.c:6450-6456 | match() from the start of the code finds a match from a position exactly when there is one, and it is the first of those tried |
| Search.BothEngines | libs/pcre-8.20/pcre_dfa_exec.c:564-669 | Backtracking succeeds if and only if the state lists record a match, and its end is among those recorded |
| Search.SkipToFirst | libs/pcre-8.20/pcre_exec.c:6297-6305 | No match starts where the first byte is missing |
| Search.SkipToLine | libs/pcre-8.20/pcre_exec.c:6309-6338 | No match is skipped on the way to the next line start |
| Search.NoReqNoMatch | libs/pcre-8.20/pcre_exec.c:6396-6436 | Without the required byte ahead no match starts here or later |
| Search.AnchoredOnce | libs/pcre-8.20/pcre_exec.c:6519 | For an anchored pattern a failure at the first position is a failure everywhere |
| Search.BumpAlong | libs/pcre-8.20/pcre_exec.c:6258-6530 | The search loop, with all its start optimisations or without, finds the leftmost match |
| Search.AllCaptured | libs/pcre-8.20/pcre_exec.c:6590-6601 | At the end every pair for a group is unset or holds a stretch that the group matches |
| Search.AllReported | libs/pcre-8.20/pcre_exec.c:6590-6601 | At the end the vector holds the captures of the match that was tried first, and unset pairs for all other groups |
| Search.Report | libs/pcre-8.20/pcre_exec.c:6545-6601 | The vector reports the match tried first: its end, its captures, and unset pairs; the count is positive unless captures overflowed, and above one it is one more than the highest group captured |
| Search.PcreExec | libs/pcre-8.20/pcre_exec.c:5928-6650 | The answer of pcre_exec() and all offsets it leaves, those of the first match tried; with room for all groups the result is positive; the answer does not depend on the optimisations |
| PatternGroups.AltsNumbers | libs/pcre-8.20/pcre_compile.c:5898-5903 | Every capturing group in the code, with all its copies, is the group of the pattern that has its number |
| PatternGroups.GroupsNested | libs/pcre-8.20/pcre_compile.c:5898-5903 | No capturing group contains one with its own number |
| Regexp.BytesTellPattern | libs/pcre-8.20/pcre_compile.c:7407-7435 | The bytes worked out for the pattern hold of every match of the compiled code |
| Regexp.PcreCompile | libs/pcre-8.20/pcre_compile.c:7125-7435 | The measured buffer is filled exactly (ERR23 cannot occur), also with possessive quantifiers; the code matches what the pattern matches; all recorded facts are true, and recorded they are: anchoring and line starts exactly for the patterns that begin so, first and required byte where all alternatives begin or end with the same literal |
| Regexp.CapturedGroups | libs/pcre-8.20/pcre_exec.c:6590-6601 | Captures of compiled groups are captures of the groups as written |
| Regexp.FirstPreferred | libs/pcre-8.20/pcre_exec.c:6590-6601 | What pcre_exec() reports, end and captures, is the preferred match of the pattern as written, if possibly empty loops are not nested |
| Regexp.CompileAndExec | libs/pcre-8.20/pcre_exec.c:5928-6650 | Compiling and searching gives the leftmost match of the pattern as written, or none if and only if there is none; its end and captures are those preferred; with room for all groups the result counts them. Where a repeat is made possessive before an item that may be left out, the match is one of the code, and a match of the pattern |
| Regexp.ExecToAnchor | libs/pcre-8.20/pcre_exec.c:1981-2060 | With an anchor at the end of the pattern, pcre_exec() reports the leftmost match behind which the anchor stands, or none if and only if there is none |
| Regexp.MisreadExec | libs/pcre-8.20/pcre_compile.c:2690-2697 | A pattern that matches although pcre_exec() finds nothing |
| Regexp.NestedExec | libs/pcre-8.20/pcre_exec.c:1952-1977 | A pattern for which pcre_exec() reports another match than the preferred one |
| Regexp.CompileAndDfaExec | libs/pcre-8.20/pcre_dfa_exec.c:387-669 | Compiling and following all states records the ends of all matches of the code, which are those of the pattern as written, under the same condition |
| Tables.BitwiseBit | libs/pcre-8.20/pcre_maketables.c:101-114 | The operators on bytes, bit by bit |
| Tables.PcreMaketables | libs/pcre-8.20/pcre_maketables.c:66-143 | The tables have the lower and the other case of every byte, for every class a map with exactly its bytes, and exactly the type flags that are true |
| Tables.FillBitMaps | libs/pcre-8.20/pcre_maketables.c:101-115 | After zeroing and setting bits each map has exactly the bytes of its class |
| Tables.TypesAgree | libs/pcre-8.20/pcre_exec.c:2219-2304 | The flags that match() tests are the bytes of the type opcodes |
| Tables.TablesSpelled | libs/pcre-8.20/pcre_maketables.c:66-143 | Maps, flags and case tables by the numbers of the bytes in them |
| Tables.FlipTwice | libs/pcre-8.20/pcre_maketables.c:84-90 | Flipping the case twice changes nothing; a byte and its other case have the same lower case |
| Classes.PosixMapsRight | libs/pcre-8.20/pcre_compile.c:247-263 | The table of maps, second maps and options yields the bytes of all fourteen POSIX classes |
| Classes.PosixBits | libs/pcre-8.20/pcre_compile.c:3559-3585 | The chunk that is built for a row of that table has the bytes that the row stands for |
| Classes.AddEscape | libs/pcre-8.20/pcre_compile.c:3638-3765 | An escape adds exactly its bytes; \s adds no VT but leaves one that is there |
| Classes.CompileClass | libs/pcre-8.20/pcre_compile.c:3431-4192 | A class is compiled to an item that matches the bytes listed, or all others if negated; ERR8 exactly for a range out of order |
| Parens.FindParensSub | libs/pcre-8.20/pcre_compile.c:1141-1348 | From a parenthesis to its closing one the scan counts groups as compiling does, with the reset and high-water rule of groups that reset numbers |
| Parens.FindParens | libs/pcre-8.20/pcre_compile.c:1374-1394 | The number reported for a name or a number is the one compiling assigns to the first such group, and none if there is none |
| Numbering.NumberingsAgree | libs/pcre-8.20/pcre_compile.c:5898-5903 | The count and the numbers used there are those of the compiler: without groups that reset numbers every group of the pattern has the next number, and its code has it too |
| Openings.BranchesInOrder | libs/pcre-8.20/pcre_compile.c:1155-1224 | In text without groups that reset numbers the k-th capturing parenthesis, with or without a name, gets number k |
| Openings.FindInOrder | libs/pcre-8.20/pcre_compile.c:1374-1394 | In such text a number is reported if there are so many capturing parentheses, and for a name the place of the first parenthesis that has it |
| Openings.BranchStarts | libs/pcre-8.20/pcre_compile.c:1334-1338 | In a group that resets numbers each branch is numbered as if it were the only one, from the number after those used before the group |
| Openings.BranchesHighest | libs/pcre-8.20/pcre_compile.c:6468-6625 | The count behind the branches of a group is the highest number used in them |
| Openings.GoesOn | libs/pcre-8.20/pcre_compile.c:1328-1338 | What follows a group starts after the highest number used in it, and every capturing parenthesis of the text has its number |
| Openings.FindAround | libs/pcre-8.20/pcre_compile.c:1374-1394 | With one group that resets numbers, a name in a branch of it and a name behind it are reported with the number counted on the tokens, the widest branch counting |
| Recurse.FindRecurse | libs/pcre-8.20/pcre_compile.c:1834-1895 | The next subroutine call, found opcode by opcode |
| Recurse.AdjustRecurse | libs/pcre-8.20/pcre_compile.c:2406-2441 | The loop leaves the links and the list of waiting links as specified |
| Walk.PassItem | libs/pcre-8.20/pcre_internal.h:1579-1658 | The walk by the table of lengths leads from the start of any emitted item to its end, through nested brackets, and meets no call or end marker in it |
| Walk.AllCalls | libs/pcre-8.20/pcre_compile.c:1834-1935 | In emitted code with calls between its items, also inside brackets, the walk meets exactly the calls |
| Walk.FindBehind | libs/pcre-8.20/pcre_compile.c:1834-1935 | In code without calls nothing is found, and a call behind such code is found just there |
| Walk.AdjustNothing | libs/pcre-8.20/pcre_compile.c:2406-2441 | Code without calls and the list of waiting links are left as they are |
| Recurse.AdjustExact | libs/pcre-8.20/pcre_compile.c:2406-2441 | All resolved links are adjusted and the list has each link moved once, if and only if there is no trap |
| Recurse.TrapHappens | libs/pcre-8.20/pcre_compile.c:2406-2441 | A concrete group for which it goes wrong |
| Recurse.MoveGroup | libs/pcre-8.20/pcre_compile.c:4644-4683 | Without a trap, every resolved call leads to the same opcode after the move, and every waiting link is still found |
| Walk.MoveParts | libs/pcre-8.20/pcre_compile.c:4644-4683 | The same for every group of emitted code with calls in it, for the calls where they are written |
| NameTable.MemCmpDecides | libs/pcre-8.20/pcre_compile.c:5494-5512 | Comparing the new name's length only, and then looking for the end, decides the order as strcmp() does |
| NameTable.StrCmpOrder | libs/pcre-8.20/pcre_get.c:84-95 | The order of names is that of a dictionary, by unsigned bytes |
| NameTable.Names.FindSlot | libs/pcre-8.20/pcre_compile.c:5486-5527 | The slot found is behind all names up to the new one; the error for a name used twice is raised exactly then |
| NameTable.Names.Insert | libs/pcre-8.20/pcre_compile.c:5486-5550 | Insertion in place adds exactly the new entry, in order, or raises one of two errors exactly when it should |
| NameTable.Names.GetStringNumber | libs/pcre-8.20/pcre_get.c:69-96 | The binary search finds a number of the name if and only if the name is in the table |
| NameTable.Names.GetStringTableEntries | libs/pcre-8.20/pcre_get.c:118-164 | The first and the last entry of the name, and no others are between or outside |
| Verifier.CFSVerifier.AddPath | fs/CFSVerifier.cc:54-99 | The walk ends also in the presence of link cycles, and adds exactly the directories reached over directories that were not yet known |
| Verifier.AddClosed | fs/CFSVerifier.cc:54-99 | From paths that hold all their own entries it adds exactly what can be reached at all |
| Verifier.AddTree | fs/CFSVerifier.cc:54-99 | After a recursive call every entry other than `.` and `..` of an added directory that is a directory and is not excluded has its own path there; and all that was added is the argument or such an entry |
| Verifier.ExcludeLess | fs/CFSVerifier.cc:49-66 | With one more excluded path nothing more is reached, and nothing that begins with that path |
| Dns.EncodeName | common/CDNS.cc:209-223 | The loop ends and turns the dots of a host name, in place, into the length octets of the name on the wire |
| Dns.ParseDNSName | common/CDNS.cc:165-194 | The decoder reads what stands at the offset and reports the bytes it takes there |
| Dns.WireReads | common/CDNS.cc:165-194 | A name on the wire reads as the host name, and takes two bytes more than it |
| Dns.PointerReads | common/CDNS.cc:175-183 | A name that ends in a pointer takes its labels and two bytes, wherever the pointer leads |
| Dns.RoundTrip | common/CDNS.cc:165-223 | What is encoded is read back |

## Left out

- Scanning of pattern text: patterns come as parsed items, with a mark on every quantifier whose text shows a zero minimum. An unescaped `{` that is a literal counts as a literal for `check_auto_possessive()`, where the source gives up; `Parens.FindParens` takes an escape, a class or a comment as one token.
- UTF-8, Unicode properties, caseless matching, EBCDIC, other newline settings, and the JIT compiler.
- Lookaround but for the step back of a lookbehind, atomic groups, conditions, subroutine calls and back references in matching, verbs, callouts, inline options, and `{0}`.
- A class with one negated character is a class here, where the source has opcodes of its own (OP_NOT); OP_NCLASS is the same as OP_CLASS for single bytes.
- The limits on match() calls and on recursion depth, and the errors for a full work space or a code that is too long (ERR20, ERR52); the machine stack.
- Links are stored in two cells as in the source but are not cut off at 65535; the pattern size limit that guarantees this is not modelled.
- `find_firstassertedchar()`, which only accepts characters inside assertions; study data; PCRE_FIRSTLINE, PCRE_NOTBOL, PCRE_NOTEOL, PCRE_NOTEMPTY and partial matching.
- Search.PcreExec: an offsets vector of fewer than two entries is left alone, where line 6206 of pcre_exec.c writes two entries whenever there is a vector.
- Search.PcreExec: with too few slots for the groups, does not say when the result is 0 rather than a count; the source decides this by a flag that a failed attempt may have set.
- Regexp.CompileAndExec: says that the match is the preferred one only for patterns in which no possibly empty unlimited group contains another; for the others it says that it is the first one tried, because the code may go wrong there. Possessive quantifiers that need atomic or possessive brackets are compiled and measured, but those brackets are not part of the matchers here.
- Exec.MatchData.Match: the main loop over opcodes is a set of methods that call each other; NO_RECURSE and the heap frames are not part of this model.
- The atomic wrap of groups that refer back to themselves, and adjusting calls inside a group that is wrapped rather than given a prefix.
- Recurse.FindRecurse: has the whole table of opcode lengths, but not the further bytes of a character in UTF-8 mode.
- Tables.PcreMaketables: locales other than C are not modelled.
- Classes.CompileClass: the class comes as a list of elements, not as text; caseless matching is not part of it.
- NameTable.Names.Insert: an entry is a number and a name, not the bytes of a slot.
- CFSVerifier: the file system does not change during the walk, and directories can be opened; Scan, Save and Diff are not part of this model.
- Dns.EncodeName: the DNS header, the question and the byte order are not part of this model; host names have labels of 1 to 63 bytes and no trailing dot.
- Dns.ParseDNSName: the target of a compression pointer is computed from six bits, as the source does; section 4.1.4 of RFC 1035 has fourteen.
