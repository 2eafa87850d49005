# A verified model of the generic backtracking regex engine

The `com.belteshazzar.regex` package is a port of `java.util.regex` (JDK 6). It
matches patterns over a `List<T>` of arbitrary objects instead of a string.
A pattern is a list of tokens built with `Pattern.add`:

- structural characters (`(`, `[`, `*`, `{`, `|` and the rest), which are
  `PatternElement` markers;
- repetition counts;
- class tests;
- plain `Comparable` elements, which become the pattern's literals.

`compile()` runs a recursive-descent parser over these tokens. The parser
builds a graph of `Node` objects. A static analysis (`TreeInfo`/`study`)
computes each part's length bounds and whether it is deterministic.
`Node.match` decides matches by backtracking, writing group bounds and
scratch slots into the matcher. `split` cuts an input list at the matches
the matcher finds.

This project models that core in Dafny, one module per part of the
program:

- `Base` (`base.dfy`): the outcome type that carries Java exceptions, and
  Java's 32-bit `int` arithmetic.
- `Tokens` (`tokens.dfy`): `PatternElement`, the four `Patternable`
  kinds, and the items of an input list.
- `CharClass` (`charclass.dfy`): the `CharProperty` predicates and the
  class combinators.
- `Nodes` (`nodes.dfy`): the node graph, kept as an arena indexed by node
  id so that loops and shared nodes can be represented.
- `Study` (`study.dfy`): `study` as functions, plus the class `TreeInfo`,
  whose methods update its four fields in place and agree with those
  functions.
- `MatchSpec` (`matchspec.dfy`): `match`, node kind by node kind, as
  functions over the matcher state.
- `Engine` (`engine.dfy`): the class `Matcher`, whose methods update the
  fields and the `groups`/`locals` arrays in place. Each method is proved to
  do what the `MatchSpec` function of the same name describes.
- `MatchProps` (`matchprops.dfy`): properties of the node semantics,
  including:
  - group bounds and loop counters are restored on failure;
  - counted closures respect their bounds;
  - slices and back references compare as the source does (back references
    by object identity);
  - `Start`, `Branch`, `First` and the look-behinds succeed only for a
    reason they can exhibit.
- `ParseSpec` (`parsespec.dfy`): the parser as functions over an explicit
  parser state (tokens, cursor, counters, arena).
- `Compiler` (`compiler.dfy`): the class `Pattern`, which holds:
  - the token list and the `add`/`compile` lifecycle;
  - the parser, whose methods update the cursor, counters and arena in place
    and agree with `ParseSpec`.
- `ParseProps` (`parseprops.dfy`): properties of the parser and the
  lifecycle, including:
  - what `{n}`, `{n,}` and `{n,m}` compile to, and each error they raise;
  - the range check comparing token kinds;
  - the refusal of unbounded look-behinds;
  - the numbering of capturing groups: the k-th capturing `(` read takes
    group number k, whose tail records at index 2k of `groups`;
  - `add` after `compile`;
  - what a one-literal pattern compiles to, first time and on recompiling.
- `Splitting` (`split.dfy`): `split`, over the successive match spans,
  including:
  - the piece bounds;
  - that pieces and matches together rebuild the input;
  - the trailing-empty trim, as written (it compares each piece's text with
    `""` and so never drops anything) and as documented;
  - the loop of the source as a method proved equal to the documented
    `split`. It differs from the source only in the limit-0 trim, which
    the model corrects (see Findings).

All source references below are to one file,
`src/main/java/com/belteshazzar/regex/Pattern.java`.

Lengths, counts and positions are Dafny's unbounded integers, except in
two places. The study arithmetic wraps around as Java's `int` does. A
group's start index is doubled as in the source.

## Model

| member | source | states |
|---|---|---|
| Base.Wrap32 | src/main/java/com/belteshazzar/regex/Pattern.java:3044-3080 | the result is Java's `int` reduction of its argument: in range, congruent modulo 2^32, and unchanged when it already fits |
| Base.Add32 | src/main/java/com/belteshazzar/regex/Pattern.java:3044-3080 | Java `int` addition: the exact sum whenever it fits in 32 bits, a 32-bit value always |
| Base.Mul32 | src/main/java/com/belteshazzar/regex/Pattern.java:3044-3080 | Java `int` multiplication: the exact product whenever it fits in 32 bits, a 32-bit value always |
| Base.AddOverflowDetected | src/main/java/com/belteshazzar/regex/Pattern.java:3044-3080 | adding a non-negative `int` gives a smaller result exactly when the true sum exceeds `Integer.MAX_VALUE`, which is the overflow test the quantifier analysis uses |
| Tokens.Ordinal | src/main/java/com/belteshazzar/regex/Pattern.java:4164-4171 | each of the 30 markers has its declaration position, below 30, which `compareTo` on markers follows |
| Tokens.MarkerRoundTrip | src/main/java/com/belteshazzar/regex/Pattern.java:4185-4190 | `getFor` gives every marker back from its own declared character, so the 30 characters are pairwise distinct |
| Tokens.CharRoundTrip | src/main/java/com/belteshazzar/regex/Pattern.java:4185-4190 | `getFor(c)` is `OTHER` or the marker declared with `c` |
| Tokens.Kind | src/main/java/com/belteshazzar/regex/Pattern.java:4205-4290 | `patternElement()`: a structural token gives its marker, a count token `NUMBER`, a literal or class token `OTHER` |
| Tokens.CompareTo | src/main/java/com/belteshazzar/regex/Pattern.java:4214-4285 | only an `ElementPatternable` compares, by its wrapped `compareTo`; every other token throws `IllegalArgumentException` |
| Tokens.GetCount | src/main/java/com/belteshazzar/regex/Pattern.java:4224-4321 | only an `IntegerPatternable` returns its count; every other token throws |
| Tokens.ClassToMatch | src/main/java/com/belteshazzar/regex/Pattern.java:4229-4262 | only a `ClassPatternable` returns its class test; every other token throws |
| Tokens.CharToken | src/main/java/com/belteshazzar/regex/Pattern.java:4136-4141 | `add(char)` appends a structural token whose kind is `getFor(ch)` |
| CharClass.TotalAnswers | src/main/java/com/belteshazzar/regex/Pattern.java:2712-2724 | a predicate built only over literal tokens always answers without throwing |
| CharClass.NewSingle | src/main/java/com/belteshazzar/regex/Pattern.java:2396-2399 | accepts exactly the items the literal compares equal to (`compareTo == 0`); over a non-literal every test throws |
| CharClass.RangeFor | src/main/java/com/belteshazzar/regex/Pattern.java:2835-2845 | accepts x exactly when lower <= x <= upper under the endpoints' own `compareTo`, both ends included; a non-literal lower end throws |
| CharClass.Named | src/main/java/com/belteshazzar/regex/Pattern.java:2074-2083 | accepts exactly the items of the token's class |
| CharClass.DotClass | src/main/java/com/belteshazzar/regex/Pattern.java:2865-2869 | accepts every item except a newline marker |
| CharClass.Complement | src/main/java/com/belteshazzar/regex/Pattern.java:2697-2705 | accepts exactly what the operand rejects, and passes the operand's exception through |
| CharClass.MaybeComplement | src/main/java/com/belteshazzar/regex/Pattern.java:2707-2710 | the operand itself when `comp` is false, its complement when it is true |
| CharClass.Union | src/main/java/com/belteshazzar/regex/Pattern.java:4078-4087 | accepts what either side accepts; the right side is not consulted once the left accepts, and a left exception passes through |
| CharClass.Intersection | src/main/java/com/belteshazzar/regex/Pattern.java:4092-4101 | accepts what both sides accept; a left rejection decides without the right side |
| CharClass.SetDifference | src/main/java/com/belteshazzar/regex/Pattern.java:4106-4115 | accepts what the left accepts and the right rejects; the right side is consulted first and decides alone when it accepts |
| Nodes.Deref | src/main/java/com/belteshazzar/regex/Pattern.java:2429-2447 | following a reference gives the node it names, and a null or dangling reference throws `NullPointerException` |
| Nodes.WithNext | src/main/java/com/belteshazzar/regex/Pattern.java:2429-2434 | `node.next = target` changes the continuation to `target` |
| Nodes.InitialGraph | src/main/java/com/belteshazzar/regex/Pattern.java:4120-4125 | every pattern owns `accept`, `lastAccept` and `lookbehindEnd`; `lastAccept` continues to `accept`, the other two to null |
| Nodes.Evens | src/main/java/com/belteshazzar/regex/Pattern.java:2274-2283 | `[2, 4, ..., 2n]`: the `groups` start index doubled for groups 1 to n |
| Nodes.Tails | src/main/java/com/belteshazzar/regex/Pattern.java:2274-2283 | the capture slots of the capturing tails in a stretch of the arena, in creation order: as many as the tails counted there |
| Nodes.TailsAreEvens | src/main/java/com/belteshazzar/regex/Pattern.java:2274-2283 | when the arena is numbered up to n and m capturing tails lie in a stretch, they record at the last m of 2, 4, ..., 2n in creation order |
| Study.CurlyInfo | src/main/java/com/belteshazzar/regex/Pattern.java:3044-3080 | the info handed on by a counted closure: min = atom.min*cmin + prior.min and max = atom.max*cmax + prior.max whenever these fit, max unknown when either side is, determinism only for an exact count over a deterministic atom; both lengths stay 32-bit |
| Study.ConditionalInfo | src/main/java/com/belteshazzar/regex/Pattern.java:3896-3915 | after a conditional: min adds the smaller branch minimum, max the larger branch maximum, max known only when both branches' are, never deterministic |
| Study.StudyNode | src/main/java/com/belteshazzar/regex/Pattern.java:2452-2462 | `node.study(info)`: lengths stay 32-bit, and a chain reported deterministic leaves the info deterministic |
| Study.Grow | src/main/java/com/belteshazzar/regex/Pattern.java:2726-2731 | a one-element node (or a slice of k) adds to both lengths, with Java's wrap-around, and keeps the two flags |
| Study.Unbounded | src/main/java/com/belteshazzar/regex/Pattern.java:3650-3655 | a loop makes the maximum unknown and the chain non-deterministic, lengths unchanged |
| Study.QuesStudied | src/main/java/com/belteshazzar/regex/Pattern.java:2906-2921 | `Ques.study`: lengths stay 32-bit; a deterministic answer leaves the info deterministic |
| Study.CountedStudied | src/main/java/com/belteshazzar/regex/Pattern.java:3044-3080 | `Curly.study` and `GroupCurly.study`: lengths stay 32-bit; a deterministic answer leaves the info deterministic |
| Study.FirstStudied | src/main/java/com/belteshazzar/regex/Pattern.java:3864-3870 | `First.study`: lengths stay 32-bit; a deterministic answer leaves the info deterministic |
| Study.ConditionalStudied | src/main/java/com/belteshazzar/regex/Pattern.java:3896-3915 | `Conditional.study`: lengths are 32-bit; a deterministic answer leaves the info deterministic |
| Study.BranchStudied | src/main/java/com/belteshazzar/regex/Pattern.java:3406-3434 | `Branch.study`: lengths stay 32-bit, the answer and the info are never deterministic, and an unknown maximum stays unknown |
| Study.StudyAlternatives | src/main/java/com/belteshazzar/regex/Pattern.java:3406-3434 | the loop over a branch's alternatives: the minimum only falls and the maximum only rises, and an unknown maximum stays unknown |
| Study.StudySticky | src/main/java/com/belteshazzar/regex/Pattern.java:2452-2462 | for every node chain, an unknown maximum stays unknown and a non-deterministic info stays non-deterministic (with a false answer) |
| Study.StartMinLength | src/main/java/com/belteshazzar/regex/Pattern.java:2489-2496 | `new Start(node)` keeps the minimum length of a fresh study of `node`; it is a 32-bit value and exists exactly when the study returns |
| Study.TreeInfo.constructor | src/main/java/com/belteshazzar/regex/Pattern.java:1544-1547 | a new `TreeInfo` holds the reset values |
| Study.TreeInfo.Reset | src/main/java/com/belteshazzar/regex/Pattern.java:1549-1555 | `reset()` sets min and max to 0 and both flags to true |
| Study.TreeInfo.Study | src/main/java/com/belteshazzar/regex/Pattern.java:2452-2462 | studying in place returns the boolean and leaves the fields that `StudyNode` computes |
| Study.TreeInfo.StudyQues | src/main/java/com/belteshazzar/regex/Pattern.java:2906-2921 | studying a `Ques` in place agrees with `QuesStudied` |
| Study.TreeInfo.StudyFirst | src/main/java/com/belteshazzar/regex/Pattern.java:3864-3870 | studying a `First` in place agrees with `FirstStudied` |
| Study.TreeInfo.StudyConditional | src/main/java/com/belteshazzar/regex/Pattern.java:3896-3915 | studying a `Conditional` in place agrees with `ConditionalStudied` |
| Study.TreeInfo.StudyCounted | src/main/java/com/belteshazzar/regex/Pattern.java:3044-3080 | studying a `Curly` or `GroupCurly` in place agrees with `CountedStudied` |
| Study.TreeInfo.ApplyCounts | src/main/java/com/belteshazzar/regex/Pattern.java:3055-3077 | after the atom is studied, the info holds `CurlyInfo` of the saved prior info, the atom's info and the two counts |
| Study.TreeInfo.StudyBranch | src/main/java/com/belteshazzar/regex/Pattern.java:3406-3434 | studying a `Branch` in place agrees with `BranchStudied` |
| MatchSpec.GetG | src/main/java/com/belteshazzar/regex/Pattern.java:3113-3124 | reading `groups[k]` gives the stored value, and throws outside the array |
| MatchSpec.GetL | src/main/java/com/belteshazzar/regex/Pattern.java:3454-3461 | reading `locals[k]` gives the stored value, and throws outside the array |
| MatchSpec.SetG | src/main/java/com/belteshazzar/regex/Pattern.java:3520-3547 | writing `groups[k]` changes that slot only, and throws outside the array |
| MatchSpec.GetGIf | src/main/java/com/belteshazzar/regex/Pattern.java:3113-3124 | a group slot is read only when the node captures; otherwise the saved value is 0 |
| MatchSpec.ItemAt | src/main/java/com/belteshazzar/regex/Pattern.java:2712-2724 | `seq.get(k)` gives the item at `k`, and throws `IndexOutOfBoundsException` outside the input |
| MatchSpec.Eval | src/main/java/com/belteshazzar/regex/Pattern.java:2441-2447 | `node.match(matcher, i, seq)` dispatched on the node kind, a null node throwing (the body); the contract states that a normal return leaves the input, the region, the look-behind bound, the bounds flags and the array sizes as they were |
| MatchSpec.MatchAccept | src/main/java/com/belteshazzar/regex/Pattern.java:2441-2447 | `accept` records `last = i` and group 0 as [first, last] and succeeds (the body); the contract states that a normal return leaves the input, the region, the look-behind bound, the bounds flags and the array sizes as they were |
| MatchSpec.MatchLastAccept | src/main/java/com/belteshazzar/regex/Pattern.java:2471-2478 | `lastAccept` under `ENDANCHOR` fails unless `i` is the region end, otherwise records the match like `accept` (the body); the contract states that a normal return leaves the input, the region, the look-behind bound, the bounds flags and the array sizes as they were |
| MatchSpec.MatchStart | src/main/java/com/belteshazzar/regex/Pattern.java:2499-2520 | `Start` tries every start from `i` to `to - minLength`, recording `first` and group 0 on success (the body); the contract states that a normal return leaves the input, the region, the look-behind bound, the bounds flags and the array sizes as they were |
| MatchSpec.StartLoop | src/main/java/com/belteshazzar/regex/Pattern.java:2499-2520 | one pass of that search loop (the body); the contract states that a normal return leaves the input, the region, the look-behind bound, the bounds flags and the array sizes as they were |
| MatchSpec.MatchBegin | src/main/java/com/belteshazzar/regex/Pattern.java:2538-2552 | `Begin` matches only at `from` (at 0 without anchoring bounds), recording `first` and group 0 (the body); the contract states that a normal return leaves the input, the region, the look-behind bound, the bounds flags and the array sizes as they were |
| MatchSpec.MatchEnd | src/main/java/com/belteshazzar/regex/Pattern.java:2561-2571 | `End` matches only at the region end (the input end without anchoring bounds), setting `hitEnd` (the body); the contract states that a normal return leaves the input, the region, the look-behind bound, the bounds flags and the array sizes as they were |
| MatchSpec.MatchCaret | src/main/java/com/belteshazzar/regex/Pattern.java:2580-2606 | `Caret` fails at the region end (setting `hitEnd`), and otherwise matches at the start or right after a newline marker (the body); the contract states that a normal return leaves the input, the region, the look-behind bound, the bounds flags and the array sizes as they were |
| MatchSpec.MatchLastMatch | src/main/java/com/belteshazzar/regex/Pattern.java:2615-2619 | `LastMatch` matches only where the previous match ended (the body); the contract states that a normal return leaves the input, the region, the look-behind bound, the bounds flags and the array sizes as they were |
| MatchSpec.MatchDollar | src/main/java/com/belteshazzar/regex/Pattern.java:2642-2680 | `Dollar` matches at the end, or before a final newline marker, setting `hitEnd` and `requireEnd` as the source does (the body); the contract states that a normal return leaves the input, the region, the look-behind bound, the bounds flags and the array sizes as they were |
| MatchSpec.MatchCharProp | src/main/java/com/belteshazzar/regex/Pattern.java:2712-2724 | a `CharProperty` consumes one item its predicate accepts, or sets `hitEnd` at the region end (the body); the contract states that a normal return leaves the input, the region, the look-behind bound, the bounds flags and the array sizes as they were |
| MatchSpec.MatchSlice | src/main/java/com/belteshazzar/regex/Pattern.java:2808-2822 | a `Slice` consumes as many items as it holds, each comparing equal (the body); the contract states that a normal return leaves the input, the region, the look-behind bound, the bounds flags and the array sizes as they were |
| MatchSpec.SliceLoop | src/main/java/com/belteshazzar/regex/Pattern.java:2808-2822 | the comparison loop of a slice from position `j` (the body); the contract states that a normal return leaves the input, the region, the look-behind bound, the bounds flags and the array sizes as they were |
| MatchSpec.MatchQues | src/main/java/com/belteshazzar/regex/Pattern.java:2886-2904 | `Ques` tries the atom then the continuation (greedy), the reverse (lazy), or the atom alone (possessive, independent) (the body); the contract states that a normal return leaves the input, the region, the look-behind bound, the bounds flags and the array sizes as they were |
| MatchSpec.MatchCurly | src/main/java/com/belteshazzar/regex/Pattern.java:2950-2965 | `Curly` first matches `cmin` atoms, then continues greedily, lazily or possessively (the body); the contract states that a normal return leaves the input, the region, the look-behind bound, the bounds flags and the array sizes as they were |
| MatchSpec.CurlyMin | src/main/java/com/belteshazzar/regex/Pattern.java:2953-2961 | the loop over the first `cmin` atoms (the body); the contract states that a normal return leaves the input, the region, the look-behind bound, the bounds flags and the array sizes as they were |
| MatchSpec.Curly0 | src/main/java/com/belteshazzar/regex/Pattern.java:2970-3010 | the greedy match0 (the body); the contract states that a normal return leaves the input, the region, the look-behind bound, the bounds flags and the array sizes as they were |
| MatchSpec.Curly0More | src/main/java/com/belteshazzar/regex/Pattern.java:2989-2999 | the inner loop of match0 that repeats an atom of fixed length `k` (the body); the contract states that a normal return leaves the input, the region, the look-behind bound, the bounds flags and the array sizes as they were |
| MatchSpec.CurlyBack | src/main/java/com/belteshazzar/regex/Pattern.java:3001-3006 | the back-off loop of match0 (the body); the contract states that a normal return leaves the input, the region, the look-behind bound, the bounds flags and the array sizes as they were |
| MatchSpec.Curly1 | src/main/java/com/belteshazzar/regex/Pattern.java:3015-3031 | the lazy match1 (the body); the contract states that a normal return leaves the input, the region, the look-behind bound, the bounds flags and the array sizes as they were |
| MatchSpec.Curly2 | src/main/java/com/belteshazzar/regex/Pattern.java:3033-3042 | the possessive match2 (the body); the contract states that a normal return leaves the input, the region, the look-behind bound, the bounds flags and the array sizes as they were |
| MatchSpec.MatchGroupCurly | src/main/java/com/belteshazzar/regex/Pattern.java:3113-3174 | `GroupCurly` saves the local slot and group bounds, matches `cmin` atoms recording the group, dispatches on the type and restores on failure (the body); the contract states that a normal return leaves the input, the region, the look-behind bound, the bounds flags and the array sizes as they were |
| MatchSpec.GcMin | src/main/java/com/belteshazzar/regex/Pattern.java:3132-3148 | the loop over the first `cmin` group atoms (the body); the contract states that a normal return leaves the input, the region, the look-behind bound, the bounds flags and the array sizes as they were |
| MatchSpec.Gc0 | src/main/java/com/belteshazzar/regex/Pattern.java:3177-3247 | the greedy group match0 (the body); the contract states that a normal return leaves the input, the region, the look-behind bound, the bounds flags and the array sizes as they were |
| MatchSpec.Gc0More | src/main/java/com/belteshazzar/regex/Pattern.java:3202-3217 | its inner loop over atoms of fixed length `k` (the body); the contract states that a normal return leaves the input, the region, the look-behind bound, the bounds flags and the array sizes as they were |
| MatchSpec.Gc0Back | src/main/java/com/belteshazzar/regex/Pattern.java:3218-3238 | its back-off loop (the body); the contract states that a normal return leaves the input, the region, the look-behind bound, the bounds flags and the array sizes as they were |
| MatchSpec.Gc0Exit | src/main/java/com/belteshazzar/regex/Pattern.java:3241-3246 | its exit, restoring the saved group bounds before the continuation (the body); the contract states that a normal return leaves the input, the region, the look-behind bound, the bounds flags and the array sizes as they were |
| MatchSpec.Gc1 | src/main/java/com/belteshazzar/regex/Pattern.java:3250-3266 | the lazy group match1 (the body); the contract states that a normal return leaves the input, the region, the look-behind bound, the bounds flags and the array sizes as they were |
| MatchSpec.Gc2 | src/main/java/com/belteshazzar/regex/Pattern.java:3269-3289 | the possessive group match2 (the body); the contract states that a normal return leaves the input, the region, the look-behind bound, the bounds flags and the array sizes as they were |
| MatchSpec.MatchBranch | src/main/java/com/belteshazzar/regex/Pattern.java:3390-3404 | `Branch` tries its alternatives in order, a null alternative going straight to the connector (the body); the contract states that a normal return leaves the input, the region, the look-behind bound, the bounds flags and the array sizes as they were |
| MatchSpec.BranchAlt | src/main/java/com/belteshazzar/regex/Pattern.java:3390-3404 | one alternative of a branch (the body); the contract states that a normal return leaves the input, the region, the look-behind bound, the bounds flags and the array sizes as they were |
| MatchSpec.BranchLoop | src/main/java/com/belteshazzar/regex/Pattern.java:3390-3404 | the loop over the alternatives from `k` (the body); the contract states that a normal return leaves the input, the region, the look-behind bound, the bounds flags and the array sizes as they were |
| MatchSpec.MatchGroupHead | src/main/java/com/belteshazzar/regex/Pattern.java:3454-3461 | `GroupHead` records `i` in its local slot for the body and restores the slot afterwards (the body); the contract states that a normal return leaves the input, the region, the look-behind bound, the bounds flags and the array sizes as they were |
| MatchSpec.MatchRef | src/main/java/com/belteshazzar/regex/Pattern.java:3463-3470 | `GroupHead.matchRef`, used by `GroupRef` (the body); the contract states that a normal return leaves the input, the region, the look-behind bound, the bounds flags and the array sizes as they were |
| MatchSpec.MatchGroupRef | src/main/java/com/belteshazzar/regex/Pattern.java:3487-3491 | `GroupRef` matches through its head's `matchRef` (the body); the contract states that a normal return leaves the input, the region, the look-behind bound, the bounds flags and the array sizes as they were |
| MatchSpec.MatchGroupTail | src/main/java/com/belteshazzar/regex/Pattern.java:3520-3547 | `GroupTail` records the group bounds for the continuation and restores them on failure (the body); the contract states that a normal return leaves the input, the region, the look-behind bound, the bounds flags and the array sizes as they were |
| MatchSpec.MatchProlog | src/main/java/com/belteshazzar/regex/Pattern.java:3562-3565 | `Prolog` enters its loop through `matchInit` (the body); the contract states that a normal return leaves the input, the region, the look-behind bound, the bounds flags and the array sizes as they were |
| MatchSpec.LoopInit | src/main/java/com/belteshazzar/regex/Pattern.java:3627-3648 | `Loop.matchInit` and `LazyLoop.matchInit` save and restore the count slot around the first iteration (the body); the contract states that a normal return leaves the input, the region, the look-behind bound, the bounds flags and the array sizes as they were |
| MatchSpec.LoopInitBody | src/main/java/com/belteshazzar/regex/Pattern.java:3630-3646 | the body of `matchInit` once the count slot is read (the body); the contract states that a normal return leaves the input, the region, the look-behind bound, the bounds flags and the array sizes as they were |
| MatchSpec.MatchLoop | src/main/java/com/belteshazzar/regex/Pattern.java:3592-3625 | `Loop.match` and `LazyLoop.match`: iterate below `cmin`, then greedily (or lazily) up to `cmax`, stopping on a zero-length iteration (the body); the contract states that a normal return leaves the input, the region, the look-behind bound, the bounds flags and the array sizes as they were |
| MatchSpec.LoopIterate | src/main/java/com/belteshazzar/regex/Pattern.java:3603-3612 | one more iteration of the body with the count incremented, the count restored on failure (the body); the contract states that a normal return leaves the input, the region, the look-behind bound, the bounds flags and the array sizes as they were |
| MatchSpec.MatchBackRef | src/main/java/com/belteshazzar/regex/Pattern.java:3745-3768 | `BackRef` fails on an unset group, sets `hitEnd` when the group does not fit, and otherwise compares items by identity (the body); the contract states that a normal return leaves the input, the region, the look-behind bound, the bounds flags and the array sizes as they were |
| MatchSpec.BackRefLoop | src/main/java/com/belteshazzar/regex/Pattern.java:3745-3768 | the comparison loop of a back reference (the body); the contract states that a normal return leaves the input, the region, the look-behind bound, the bounds flags and the array sizes as they were |
| MatchSpec.MatchFirst | src/main/java/com/belteshazzar/regex/Pattern.java:3846-3862 | `First` searches forward for the first position where the atom matches (the body); the contract states that a normal return leaves the input, the region, the look-behind bound, the bounds flags and the array sizes as they were |
| MatchSpec.MatchConditional | src/main/java/com/belteshazzar/regex/Pattern.java:3884-3894 | `Conditional` takes the yes branch if the condition matches and the not branch otherwise (the body); the contract states that a normal return leaves the input, the region, the look-behind bound, the bounds flags and the array sizes as they were |
| MatchSpec.MatchPos | src/main/java/com/belteshazzar/regex/Pattern.java:3930-3947 | `Pos` runs its condition (against the whole input under transparent bounds) and restores `to` (the body); the contract states that a normal return leaves the input, the region, the look-behind bound, the bounds flags and the array sizes as they were |
| MatchSpec.MatchNeg | src/main/java/com/belteshazzar/regex/Pattern.java:3962-3989 | `Neg` runs its condition and succeeds only when it fails, also retrying with `requireEnd` (the body); the contract states that a normal return leaves the input, the region, the look-behind bound, the bounds flags and the array sizes as they were |
| MatchSpec.LookCond | src/main/java/com/belteshazzar/regex/Pattern.java:3932-3945 | the condition of `Pos` and `Neg` runs with `to` widened under transparent bounds, and with `requireEnd` set for `Neg` at or past `to` (the body); the contract states that a normal return has `to` back at its saved value, and that a normal return leaves the input, the region, the look-behind bound, the bounds flags and the array sizes as they were |
| MatchSpec.BehindLoop | src/main/java/com/belteshazzar/regex/Pattern.java:4018-4036 | the downward search over look-behind starts (the body); the contract states that a normal return leaves the input, the region, the look-behind bound, the bounds flags and the array sizes as they were |
| MatchSpec.BehindState | src/main/java/com/belteshazzar/regex/Pattern.java:4018-4036 | the look-behind condition runs with `lookbehindTo = i` and, under transparent bounds, `from = 0` |
| MatchSpec.MatchBehind | src/main/java/com/belteshazzar/regex/Pattern.java:4018-4036 | `Behind` searches starts from `i - rmin` down to `i - rmax` (bounded by the region), restoring `from` and `lookbehindTo` (the body); the contract states that a normal return leaves the input, the region, the look-behind bound, the bounds flags and the array sizes as they were |
| MatchSpec.MatchNotBehind | src/main/java/com/belteshazzar/regex/Pattern.java:4054-4072 | `NotBehind` succeeds only when that search fails (the body); the contract states that a normal return leaves the input, the region, the look-behind bound, the bounds flags and the array sizes as they were |
| Engine.Matcher.constructor | src/main/java/com/belteshazzar/regex/Pattern.java:1104-1115 | a new matcher over `text`: the region is the whole input, every group and local slot holds -1, `first` is -1, anchoring bounds on, transparent bounds off, `NOANCHOR` |
| Engine.Matcher.Match | src/main/java/com/belteshazzar/regex/Pattern.java:2441-2447 | the method leaves the matcher and returns what `MatchSpec.Eval` computes from the old state (the same answer and new fields, or the same exception) |
| Engine.Matcher.MatchSimple | src/main/java/com/belteshazzar/regex/Pattern.java:2429-2447 | the method leaves the matcher and returns what `MatchSpec.Eval` computes from the old state (the same answer and new fields, or the same exception) for the anchors, the accepting nodes and the single-step nodes |
| Engine.Matcher.MatchCompound | src/main/java/com/belteshazzar/regex/Pattern.java:2429-2447 | the method leaves the matcher and returns what `MatchSpec.Eval` computes from the old state (the same answer and new fields, or the same exception) for the nodes that try an atom, a group or a condition |
| Engine.Matcher.SetGroupZero | src/main/java/com/belteshazzar/regex/Pattern.java:2441-2447 | the method leaves the matcher and returns what `MatchSpec.MatchAccept` computes from the old state (the same answer and new fields, or the same exception) at `last` |
| Engine.Matcher.MatchAccept | src/main/java/com/belteshazzar/regex/Pattern.java:2441-2447 | the method leaves the matcher and returns what `MatchSpec.MatchAccept` computes from the old state (the same answer and new fields, or the same exception) |
| Engine.Matcher.MatchLastAccept | src/main/java/com/belteshazzar/regex/Pattern.java:2471-2478 | the method leaves the matcher and returns what `MatchSpec.MatchLastAccept` computes from the old state (the same answer and new fields, or the same exception) |
| Engine.Matcher.MatchStart | src/main/java/com/belteshazzar/regex/Pattern.java:2499-2520 | the method leaves the matcher and returns what `MatchSpec.MatchStart` computes from the old state (the same answer and new fields, or the same exception) |
| Engine.Matcher.MatchBegin | src/main/java/com/belteshazzar/regex/Pattern.java:2538-2552 | the method leaves the matcher and returns what `MatchSpec.MatchBegin` computes from the old state (the same answer and new fields, or the same exception) |
| Engine.Matcher.MatchEnd | src/main/java/com/belteshazzar/regex/Pattern.java:2561-2571 | the method leaves the matcher and returns what `MatchSpec.MatchEnd` computes from the old state (the same answer and new fields, or the same exception) |
| Engine.Matcher.MatchCaret | src/main/java/com/belteshazzar/regex/Pattern.java:2580-2606 | the method leaves the matcher and returns what `MatchSpec.MatchCaret` computes from the old state (the same answer and new fields, or the same exception) |
| Engine.Matcher.MatchLastMatch | src/main/java/com/belteshazzar/regex/Pattern.java:2615-2619 | the method leaves the matcher and returns what `MatchSpec.MatchLastMatch` computes from the old state (the same answer and new fields, or the same exception) |
| Engine.Matcher.MatchDollar | src/main/java/com/belteshazzar/regex/Pattern.java:2642-2680 | the method leaves the matcher and returns what `MatchSpec.MatchDollar` computes from the old state (the same answer and new fields, or the same exception) |
| Engine.Matcher.MatchCharProp | src/main/java/com/belteshazzar/regex/Pattern.java:2712-2724 | the method leaves the matcher and returns what `MatchSpec.MatchCharProp` computes from the old state (the same answer and new fields, or the same exception) |
| Engine.Matcher.MatchSlice | src/main/java/com/belteshazzar/regex/Pattern.java:2808-2822 | the method leaves the matcher and returns what `MatchSpec.MatchSlice` computes from the old state (the same answer and new fields, or the same exception) |
| Engine.Matcher.MatchQues | src/main/java/com/belteshazzar/regex/Pattern.java:2886-2904 | the method leaves the matcher and returns what `MatchSpec.MatchQues` computes from the old state (the same answer and new fields, or the same exception) |
| Engine.Matcher.MatchCurly | src/main/java/com/belteshazzar/regex/Pattern.java:2950-2965 | the method leaves the matcher and returns what `MatchSpec.MatchCurly` computes from the old state (the same answer and new fields, or the same exception) |
| Engine.Matcher.Curly0 | src/main/java/com/belteshazzar/regex/Pattern.java:2970-3010 | the method leaves the matcher and returns what `MatchSpec.Curly0` computes from the old state (the same answer and new fields, or the same exception) |
| Engine.Matcher.CurlyBack | src/main/java/com/belteshazzar/regex/Pattern.java:3000-3006 | the method leaves the matcher and returns what `MatchSpec.CurlyBack` computes from the old state (the same answer and new fields, or the same exception) |
| Engine.Matcher.Curly1 | src/main/java/com/belteshazzar/regex/Pattern.java:3015-3031 | the method leaves the matcher and returns what `MatchSpec.Curly1` computes from the old state (the same answer and new fields, or the same exception) |
| Engine.Matcher.Curly2 | src/main/java/com/belteshazzar/regex/Pattern.java:3033-3042 | the method leaves the matcher and returns what `MatchSpec.Curly2` computes from the old state (the same answer and new fields, or the same exception) |
| Engine.Matcher.MatchGroupCurly | src/main/java/com/belteshazzar/regex/Pattern.java:3113-3174 | the method leaves the matcher and returns what `MatchSpec.MatchGroupCurly` computes from the old state (the same answer and new fields, or the same exception) |
| Engine.Matcher.PutLocal | src/main/java/com/belteshazzar/regex/Pattern.java:3166-3166 | one write `locals[k] = v`: the new state is the old one with that slot replaced (`MatchSpec.PutL`) |
| Engine.Matcher.PutBounds | src/main/java/com/belteshazzar/regex/Pattern.java:3169-3170 | `groups[x] = vx; groups[y] = vy` only when the `GroupCurly` captures: the new state is `MatchSpec.PutGIf` of the old one |
| Engine.Matcher.GcMin | src/main/java/com/belteshazzar/regex/Pattern.java:3132-3148 | the method leaves the matcher and returns what `MatchSpec.GcMin` computes from the old state (the same answer and new fields, or the same exception) |
| Engine.Matcher.Gc0 | src/main/java/com/belteshazzar/regex/Pattern.java:3177-3247 | the method leaves the matcher and returns what `MatchSpec.Gc0` computes from the old state (the same answer and new fields, or the same exception) |
| Engine.Matcher.Gc0More | src/main/java/com/belteshazzar/regex/Pattern.java:3202-3217 | the method leaves the matcher and returns what `MatchSpec.Gc0More` computes from the old state (the same answer and new fields, or the same exception) |
| Engine.Matcher.Gc0Back | src/main/java/com/belteshazzar/regex/Pattern.java:3218-3238 | the method leaves the matcher and returns what `MatchSpec.Gc0Back` computes from the old state (the same answer and new fields, or the same exception) |
| Engine.Matcher.Gc0Exit | src/main/java/com/belteshazzar/regex/Pattern.java:3241-3246 | the method leaves the matcher and returns what `MatchSpec.Gc0Exit` computes from the old state (the same answer and new fields, or the same exception) |
| Engine.Matcher.Gc1 | src/main/java/com/belteshazzar/regex/Pattern.java:3250-3266 | the method leaves the matcher and returns what `MatchSpec.Gc1` computes from the old state (the same answer and new fields, or the same exception) |
| Engine.Matcher.Gc2 | src/main/java/com/belteshazzar/regex/Pattern.java:3269-3289 | the method leaves the matcher and returns what `MatchSpec.Gc2` computes from the old state (the same answer and new fields, or the same exception) |
| Engine.Matcher.MatchBranch | src/main/java/com/belteshazzar/regex/Pattern.java:3390-3404 | the method leaves the matcher and returns what `MatchSpec.MatchBranch` computes from the old state (the same answer and new fields, or the same exception) |
| Engine.Matcher.MatchGroupHead | src/main/java/com/belteshazzar/regex/Pattern.java:3454-3461 | the method leaves the matcher and returns what `MatchSpec.MatchGroupHead` computes from the old state (the same answer and new fields, or the same exception) |
| Engine.Matcher.MatchRef | src/main/java/com/belteshazzar/regex/Pattern.java:3463-3470 | the method leaves the matcher and returns what `MatchSpec.MatchRef` computes from the old state (the same answer and new fields, or the same exception) |
| Engine.Matcher.MatchGroupRef | src/main/java/com/belteshazzar/regex/Pattern.java:3487-3491 | the method leaves the matcher and returns what `MatchSpec.MatchGroupRef` computes from the old state (the same answer and new fields, or the same exception) |
| Engine.Matcher.MatchGroupTail | src/main/java/com/belteshazzar/regex/Pattern.java:3520-3547 | the method leaves the matcher and returns what `MatchSpec.MatchGroupTail` computes from the old state (the same answer and new fields, or the same exception) |
| Engine.Matcher.PutPair | src/main/java/com/belteshazzar/regex/Pattern.java:3530-3537 | `groups[x] = vx; groups[y] = vy`: the new state is the old one with both slots replaced, `y` last |
| Engine.Matcher.MatchProlog | src/main/java/com/belteshazzar/regex/Pattern.java:3562-3565 | the method leaves the matcher and returns what `MatchSpec.MatchProlog` computes from the old state (the same answer and new fields, or the same exception) |
| Engine.Matcher.LoopInit | src/main/java/com/belteshazzar/regex/Pattern.java:3627-3648 | the method leaves the matcher and returns what `MatchSpec.LoopInit` computes from the old state (the same answer and new fields, or the same exception) |
| Engine.Matcher.LoopInitBody | src/main/java/com/belteshazzar/regex/Pattern.java:3630-3646 | the method leaves the matcher and returns what `MatchSpec.LoopInitBody` computes from the old state (the same answer and new fields, or the same exception) |
| Engine.Matcher.MatchLoop | src/main/java/com/belteshazzar/regex/Pattern.java:3592-3625 | the method leaves the matcher and returns what `MatchSpec.MatchLoop` computes from the old state (the same answer and new fields, or the same exception) |
| Engine.Matcher.LoopIterate | src/main/java/com/belteshazzar/regex/Pattern.java:3603-3612 | the method leaves the matcher and returns what `MatchSpec.LoopIterate` computes from the old state (the same answer and new fields, or the same exception) |
| Engine.Matcher.MatchBackRef | src/main/java/com/belteshazzar/regex/Pattern.java:3745-3768 | the method leaves the matcher and returns what `MatchSpec.MatchBackRef` computes from the old state (the same answer and new fields, or the same exception) |
| Engine.Matcher.MatchFirst | src/main/java/com/belteshazzar/regex/Pattern.java:3846-3862 | the method leaves the matcher and returns what `MatchSpec.MatchFirst` computes from the old state (the same answer and new fields, or the same exception) |
| Engine.Matcher.MatchConditional | src/main/java/com/belteshazzar/regex/Pattern.java:3884-3894 | the method leaves the matcher and returns what `MatchSpec.MatchConditional` computes from the old state (the same answer and new fields, or the same exception) |
| Engine.Matcher.MatchPos | src/main/java/com/belteshazzar/regex/Pattern.java:3930-3947 | the method leaves the matcher and returns what `MatchSpec.MatchPos` computes from the old state (the same answer and new fields, or the same exception) |
| Engine.Matcher.Widen | src/main/java/com/belteshazzar/regex/Pattern.java:3966-3980 | before a look-ahead's condition `to` becomes the text length under transparent bounds, and a `Neg` at or past `to` sets `requireEnd`; nothing else changes |
| Engine.Matcher.SetTo | src/main/java/com/belteshazzar/regex/Pattern.java:3984-3987 | restoring `to` after a look-ahead changes only `to` |
| Engine.Matcher.MatchNeg | src/main/java/com/belteshazzar/regex/Pattern.java:3962-3989 | the method leaves the matcher and returns what `MatchSpec.MatchNeg` computes from the old state (the same answer and new fields, or the same exception) |
| Engine.Matcher.LookCond | src/main/java/com/belteshazzar/regex/Pattern.java:3932-3945 | the method leaves the matcher and returns what `MatchSpec.LookCond` computes from the old state (the same answer and new fields, or the same exception) |
| Engine.Matcher.BehindSearch | src/main/java/com/belteshazzar/regex/Pattern.java:4018-4036 | the method leaves the matcher and returns what `MatchSpec.BehindLoop` computes from the old state (the same answer and new fields, or the same exception) |
| Engine.Matcher.BehindScan | src/main/java/com/belteshazzar/regex/Pattern.java:4029-4032 | the `for` loop of `Behind` and `NotBehind`: the condition tried from `i - rmin` down to the lower bound until it matches; the answer and the new fields are those of `MatchSpec.BehindLoop`, or its exception |
| Engine.Matcher.MatchBehind | src/main/java/com/belteshazzar/regex/Pattern.java:4018-4036 | the method leaves the matcher and returns what `MatchSpec.MatchBehind` computes from the old state (the same answer and new fields, or the same exception) |
| Engine.Matcher.MatchNotBehind | src/main/java/com/belteshazzar/regex/Pattern.java:4054-4072 | the method leaves the matcher and returns what `MatchSpec.MatchNotBehind` computes from the old state (the same answer and new fields, or the same exception) |
| MatchProps.GroupHeadRestores | src/main/java/com/belteshazzar/regex/Pattern.java:3454-3461 | `GroupHead` gives the body's answer with `i` in its slot, and the slot holds its old value afterwards; an out-of-range slot throws |
| MatchProps.GroupTailRecordsAndRestores | src/main/java/com/belteshazzar/regex/Pattern.java:3520-3547 | with no pending `GroupCurly` the tail only sets `last` and succeeds; otherwise it records [locals[slot], i] as the group for the continuation, returns the continuation's success as is, and on failure restores both group bounds |
| MatchProps.GroupCurlyRestores | src/main/java/com/belteshazzar/regex/Pattern.java:3113-3174 | a failing `GroupCurly` leaves its local slot and, when capturing, both group bounds as it found them |
| MatchProps.LoopIterateRestores | src/main/java/com/belteshazzar/regex/Pattern.java:3603-3612 | an iteration runs the body with the count incremented; on failure the count is back to its old value |
| MatchProps.LoopInitRestores | src/main/java/com/belteshazzar/regex/Pattern.java:3627-3648 | `matchInit` returns with the count slot holding its old value |
| MatchProps.CurlyFailsBelowMin | src/main/java/com/belteshazzar/regex/Pattern.java:2953-2961 | an atom that fails before `cmin` repetitions fails the whole `Curly` |
| MatchProps.CurlyAtMax | src/main/java/com/belteshazzar/regex/Pattern.java:2972-2977 | with `cmax` atoms matched, greedy, lazy and possessive all go straight to the continuation |
| MatchProps.CurlyLazyContinuationFirst | src/main/java/com/belteshazzar/regex/Pattern.java:3015-3031 | a lazy `Curly` whose continuation matches (or throws) never tries another atom |
| MatchProps.CurlyZeroWidthStops | src/main/java/com/belteshazzar/regex/Pattern.java:3015-3042 | a zero-length atom match stops a lazy `Curly` and ends a possessive one at the continuation |
| MatchProps.CurlyBackFloor | src/main/java/com/belteshazzar/regex/Pattern.java:3001-3006 | the greedy back-off succeeds only if the continuation matches at one of the backed-off positions, never below `backLimit` |
| MatchProps.GroupCurlyAtMax | src/main/java/com/belteshazzar/regex/Pattern.java:3187-3190 | with `cmax` group atoms matched, all three types go straight to the continuation |
| MatchProps.SliceLoopSpec | src/main/java/com/belteshazzar/regex/Pattern.java:2808-2822 | from any agreeing prefix the slice loop reaches the continuation at `i + \|buf\|` exactly when every remaining item compares equal, and otherwise fails (setting `hitEnd` when the input ran out) |
| MatchProps.SliceSemantics | src/main/java/com/belteshazzar/regex/Pattern.java:2808-2822 | a slice of literals matches exactly the items comparing equal to its buffer, continuing at `i + \|buf\|`; otherwise it fails, setting `hitEnd` when the input ran out |
| MatchProps.BackRefLoopSpec | src/main/java/com/belteshazzar/regex/Pattern.java:3764-3767 | the comparison loop continues at `i + size` exactly when the two runs hold the same objects, and fails otherwise |
| MatchProps.BackRefSemantics | src/main/java/com/belteshazzar/regex/Pattern.java:3745-3768 | an unset group fails; a group that does not fit before `to` fails with `hitEnd`; otherwise the reference matches exactly when the items are the same objects, by reference |
| MatchProps.BackRefByIdentity | src/main/java/com/belteshazzar/regex/Pattern.java:3764-3765 | equal values held by different objects do not match a back reference: the comparison is by identity |
| MatchProps.StartLoopRecordsGroupZero | src/main/java/com/belteshazzar/regex/Pattern.java:2499-2520 | a successful search loop records a `first` between `i` and the guard, group 0 as [first, last], and the continuation can match at `first` |
| MatchProps.StartRecordsGroupZero | src/main/java/com/belteshazzar/regex/Pattern.java:2499-2520 | a successful `Start` records `first <= to - minLength`, group 0 as [first, last] and a continuation match there; past the guard it fails with `hitEnd` |
| MatchProps.BranchLoopFinds | src/main/java/com/belteshazzar/regex/Pattern.java:3390-3404 | a branch succeeds only through one of its alternatives, and the first alternative that succeeds decides |
| MatchProps.BehindLoopFinds | src/main/java/com/belteshazzar/regex/Pattern.java:4018-4036 | the look-behind search succeeds only at a start between its bounds from which the condition matches |
| MatchProps.BehindFinds | src/main/java/com/belteshazzar/regex/Pattern.java:4018-4036 | a successful `Behind` found a start between `max(i - rmax, from)` and `i - rmin` where the condition matches, the continuation matched at `i`, and `from` and `lookbehindTo` are restored |
| MatchProps.NotBehindRejects | src/main/java/com/belteshazzar/regex/Pattern.java:4054-4072 | `NotBehind` fails whenever the look-behind search succeeds |
| MatchProps.FirstFinds | src/main/java/com/belteshazzar/regex/Pattern.java:3846-3862 | a successful `First` found a position between `i` and `to` at which its atom matches |
| MatchProps.LookaheadRestoresRegion | src/main/java/com/belteshazzar/regex/Pattern.java:3930-3989 | `Pos` and `Neg` return with `to` restored, and a succeeding `Neg` saw its condition fail (with or without `requireEnd`) |
| ParseSpec.Wrap | src/main/java/com/belteshazzar/regex/Pattern.java:1435-1439 | a plain `Comparable` becomes a literal token of kind `OTHER`; a token the caller built is kept with its kind |
| ParseSpec.WrapAll | src/main/java/com/belteshazzar/regex/Pattern.java:1435-1439 | the wrapped list has the pattern's length and each position keeps the kind of its wrapped entry |
| ParseSpec.TokensOf | src/main/java/com/belteshazzar/regex/Pattern.java:1433-1442 | `temp` is the wrapped pattern followed by two `END_MARKER` sentinels |
| ParseSpec.Get | src/main/java/com/belteshazzar/regex/Pattern.java:2344-2346 | `temp.get(i)` gives the token at `i`, and throws outside the list |
| ParseSpec.Peek | src/main/java/com/belteshazzar/regex/Pattern.java:1580-1585 | `peek()` gives the token at the cursor without moving |
| ParseSpec.Read | src/main/java/com/belteshazzar/regex/Pattern.java:1590-1595 | `read()` gives the token at the cursor and advances by one |
| ParseSpec.Next | src/main/java/com/belteshazzar/regex/Pattern.java:1600-1605 | `next()` advances by one and gives the token now under the cursor |
| ParseSpec.Skip | src/main/java/com/belteshazzar/regex/Pattern.java:1610-1616 | `skip()` gives the token after the cursor and advances by two |
| ParseSpec.Accept | src/main/java/com/belteshazzar/regex/Pattern.java:1567-1575 | `accept(m, s)` advances by one exactly when the token at the cursor has kind `m`, and throws otherwise |
| ParseSpec.Alloc | src/main/java/com/belteshazzar/regex/Pattern.java:2396-2414 | creating a node appends it to the arena under the next id, changing nothing else |
| ParseSpec.SetNext | src/main/java/com/belteshazzar/regex/Pattern.java:1794-1795 | `node.next = target` on an existing node relinks only that node; a null node throws |
| ParseSpec.Link | src/main/java/com/belteshazzar/regex/Pattern.java:1802-1803 | relinking an existing node changes its `next` and nothing else |
| ParseSpec.AddAtom | src/main/java/com/belteshazzar/regex/Pattern.java:3378-3388 | `Branch.add(node)` appends `node` to the branch's alternatives and changes nothing else |
| ParseSpec.ModeSuffix | src/main/java/com/belteshazzar/regex/Pattern.java:2367-2382 | a following `?` makes the quantifier lazy, a `+` possessive, and either is consumed; otherwise it is greedy and nothing is consumed |
| ParseSpec.UpperBound | src/main/java/com/belteshazzar/regex/Pattern.java:2352-2363 | without a comma the upper bound is the lower one and nothing moves; the tokens, pattern length and depth are unchanged, the counters and the arena only grow, the shared nodes stay in place, every node keeps its capture slot and the group count moves by exactly the capturing tails added (`Numbered`) |
| ParseSpec.Counted | src/main/java/com/belteshazzar/regex/Pattern.java:2344-2389 | a successful `{...}` consumes input and appends a quantifier over `prev` under the next id; the tokens, pattern length and depth are unchanged, the counters and the arena only grow, the shared nodes stay in place, every node keeps its capture slot and the group count moves by exactly the capturing tails added (`Numbered`) |
| ParseSpec.CountedFrom | src/main/java/com/belteshazzar/regex/Pattern.java:2349-2382 | after `{` and a first count, a successful parse consumes input and appends a quantifier over `prev` under the next id; the tokens, pattern length and depth are unchanged, the counters and the arena only grow, the shared nodes stay in place, every node keeps its capture slot and the group count moves by exactly the capturing tails added (`Numbered`) |
| ParseSpec.CountedClose | src/main/java/com/belteshazzar/regex/Pattern.java:2364-2384 | a successful close needs `}` and 0 <= cmin <= cmax, and appends `Curly(prev, cmin, cmax)` with exactly those bounds |
| ParseSpec.Closure | src/main/java/com/belteshazzar/regex/Pattern.java:2300-2391 | a quantifier token consumes input and appends a quantifier node over `prev`; any other token returns `prev` with the state unchanged |
| ParseSpec.ShortClosure | src/main/java/com/belteshazzar/regex/Pattern.java:2304-2342 | `?`, `*` and `+` consume input and append a `Ques` or a `Curly` over `prev` under the next id; the tokens, pattern length and depth are unchanged, the counters and the arena only grow, the shared nodes stay in place, every node keeps its capture slot and the group count moves by exactly the capturing tails added (`Numbered`) |
| ParseSpec.Family | src/main/java/com/belteshazzar/regex/Pattern.java:2060-2068 | `\p{C}` consumes two tokens and yields the type test of the class token after the cursor; the tokens, pattern length and depth are unchanged, the counters and the arena only grow, the shared nodes stay in place, every node keeps its capture slot and the group count moves by exactly the capturing tails added (`Numbered`) |
| ParseSpec.SingleTok | src/main/java/com/belteshazzar/regex/Pattern.java:2050-2055 | `single()` returns the token at the cursor and advances by one |
| ParseSpec.Range | src/main/java/com/belteshazzar/regex/Pattern.java:2024-2048 | `range()` consumes at least one token on success; the tokens, pattern length and depth are unchanged, the counters and the arena only grow, the shared nodes stay in place, every node keeps its capture slot and the group count moves by exactly the capturing tails added (`Numbered`) |
| ParseSpec.RangeDash | src/main/java/com/belteshazzar/regex/Pattern.java:2030-2044 | the dash case of `range()` never moves the cursor back; the tokens, pattern length and depth are unchanged, the counters and the arena only grow, the shared nodes stay in place, every node keeps its capture slot and the group count moves by exactly the capturing tails added (`Numbered`) |
| ParseSpec.Combine | src/main/java/com/belteshazzar/regex/Pattern.java:1990-2015 | the class accumulator holds the latest range, and its first range is taken as is when included and complemented when excluded |
| ParseSpec.Clazz | src/main/java/com/belteshazzar/regex/Pattern.java:1905-2018 | a successful class consumes at least its `[` and `]`; the tokens, pattern length and depth are unchanged, the counters and the arena only grow, the shared nodes stay in place, every node keeps its capture slot and the group count moves by exactly the capturing tails added (`Numbered`) |
| ParseSpec.ClazzLoop | src/main/java/com/belteshazzar/regex/Pattern.java:1912-2017 | one turn of the class loop; a class closing without any range has consumed a token; the tokens, pattern length and depth are unchanged, the counters and the arena only grow, the shared nodes stay in place, every node keeps its capture slot and the group count moves by exactly the capturing tails added (`Numbered`) |
| ParseSpec.ClazzCaret | src/main/java/com/belteshazzar/regex/Pattern.java:1916-1929 | the `^` case of the class loop consumes input; the tokens, pattern length and depth are unchanged, the counters and the arena only grow, the shared nodes stay in place, every node keeps its capture slot and the group count moves by exactly the capturing tails added (`Numbered`) |
| ParseSpec.ClazzNested | src/main/java/com/belteshazzar/regex/Pattern.java:1930-1936 | a nested class consumes at least two tokens; the tokens, pattern length and depth are unchanged, the counters and the arena only grow, the shared nodes stay in place, every node keeps its capture slot and the group count moves by exactly the capturing tails added (`Numbered`) |
| ParseSpec.ClazzAmp | src/main/java/com/belteshazzar/regex/Pattern.java:1937-1976 | the `&&` case consumes input; the tokens, pattern length and depth are unchanged, the counters and the arena only grow, the shared nodes stay in place, every node keeps its capture slot and the group count moves by exactly the capturing tails added (`Numbered`) |
| ParseSpec.ClazzAndAnd | src/main/java/com/belteshazzar/regex/Pattern.java:1942-1969 | the `&&` operand loop consumes input; the tokens, pattern length and depth are unchanged, the counters and the arena only grow, the shared nodes stay in place, every node keeps its capture slot and the group count moves by exactly the capturing tails added (`Numbered`) |
| ParseSpec.ClazzRange | src/main/java/com/belteshazzar/regex/Pattern.java:1990-2016 | a range inside a class consumes input; the tokens, pattern length and depth are unchanged, the counters and the arena only grow, the shared nodes stay in place, every node keeps its capture slot and the group count moves by exactly the capturing tails added (`Numbered`) |
| ParseSpec.ClazzAnd | src/main/java/com/belteshazzar/regex/Pattern.java:1944-1959 | the loop over the right-hand side of `&&`; once a right-hand class exists it stays; the tokens, pattern length and depth are unchanged, the counters and the arena only grow, the shared nodes stay in place, every node keeps its capture slot and the group count moves by exactly the capturing tails added (`Numbered`) |
| ParseSpec.AtomNode | src/main/java/com/belteshazzar/regex/Pattern.java:1874-1881 | one buffered token gives a `Single` (`newSingle`), any other count a `Slice` over exactly the buffer; the node is appended and nothing else changes |
| ParseSpec.AtomLoop | src/main/java/com/belteshazzar/regex/Pattern.java:1815-1868 | the atom loop returns a node of the arena and moves past every literal it buffers, backing up before a quantifier by one literal; the tokens, pattern length and depth are unchanged, the counters and the arena only grow, the shared nodes stay in place, every node keeps its capture slot and the group count moves by exactly the capturing tails added (`Numbered`) |
| ParseSpec.AtomSlash | src/main/java/com/belteshazzar/regex/Pattern.java:1837-1857 | the `SLASH` case returns a node of the arena, and moves past the property when no literal is waiting; the tokens, pattern length and depth are unchanged, the counters and the arena only grow, the shared nodes stay in place, every node keeps its capture slot and the group count moves by exactly the capturing tails added (`Numbered`) |
| ParseSpec.Atom | src/main/java/com/belteshazzar/regex/Pattern.java:1810-1881 | `atom()` returns a node of the arena and consumes input unless the first token stops an atom; the tokens, pattern length and depth are unchanged, the counters and the arena only grow, the shared nodes stay in place, every node keeps its capture slot and the group count moves by exactly the capturing tails added (`Numbered`) |
| ParseSpec.SeqAtom | src/main/java/com/belteshazzar/regex/Pattern.java:1733-1785 | one non-group element of a sequence: a node of the arena, having consumed input (a `{` is left for `closure` to refuse); the tokens, pattern length and depth are unchanged, the counters and the arena only grow, the shared nodes stay in place, every node keeps its capture slot and the group count moves by exactly the capturing tails added (`Numbered`) |
| ParseSpec.SeqFamily | src/main/java/com/belteshazzar/regex/Pattern.java:1736-1748 | `\p`/`\P` in a sequence consumes its tokens and yields a node of the arena; the tokens, pattern length and depth are unchanged, the counters and the arena only grow, the shared nodes stay in place, every node keeps its capture slot and the group count moves by exactly the capturing tails added (`Numbered`) |
| ParseSpec.SeqFinish | src/main/java/com/belteshazzar/regex/Pattern.java:1798-1804 | an empty sequence returns `end`; otherwise the tail is linked to `end` and head and tail are returned |
| ParseSpec.Sequence | src/main/java/com/belteshazzar/regex/Pattern.java:1712-1805 | `sequence(end)` never moves the cursor back; the tokens, pattern length and depth are unchanged, the counters and the arena only grow, the shared nodes stay in place, every node keeps its capture slot and the group count moves by exactly the capturing tails added (`Numbered`) |
| ParseSpec.SeqPiece | src/main/java/com/belteshazzar/regex/Pattern.java:1781-1786 | an atom and its quantifier consume input; the tokens, pattern length and depth are unchanged, the counters and the arena only grow, the shared nodes stay in place, every node keeps its capture slot and the group count moves by exactly the capturing tails added (`Numbered`) |
| ParseSpec.Chain | src/main/java/com/belteshazzar/regex/Pattern.java:1788-1796 | the first node of a sequence becomes its head; every later one is linked after the tail; the tokens, pattern length and depth are unchanged, the counters and the arena only grow, the shared nodes stay in place, every node keeps its capture slot and the group count moves by exactly the capturing tails added (`Numbered`) |
| ParseSpec.Expr | src/main/java/com/belteshazzar/regex/Pattern.java:1646-1707 | `expr(end)` never moves the cursor back; the tokens, pattern length and depth are unchanged, the counters and the arena only grow, the shared nodes stay in place, every node keeps its capture slot and the group count moves by exactly the capturing tails added (`Numbered`) |
| ParseSpec.ExprMore | src/main/java/com/belteshazzar/regex/Pattern.java:1652-1706 | the alternation loop of `expr`; the tokens, pattern length and depth are unchanged, the counters and the arena only grow, the shared nodes stay in place, every node keeps its capture slot and the group count moves by exactly the capturing tails added (`Numbered`) |
| ParseSpec.ExprAlternative | src/main/java/com/belteshazzar/regex/Pattern.java:1654-1700 | one alternative after a `\|`: its sequence joined into the branch; never moves the cursor back; the tokens, pattern length and depth are unchanged, the counters and the arena only grow, the shared nodes stay in place, every node keeps its capture slot and the group count moves by exactly the capturing tails added (`Numbered`) |
| ParseSpec.AddAlternative | src/main/java/com/belteshazzar/regex/Pattern.java:1663-1680 | the shared `BranchConn` is created on the first `\|` (under the next id) and kept afterwards; the cursor stays; the tokens, pattern length and depth are unchanged, the counters and the arena only grow, the shared nodes stay in place, every node keeps its capture slot and the group count moves by exactly the capturing tails added (`Numbered`) |
| ParseSpec.JoinBranch | src/main/java/com/belteshazzar/regex/Pattern.java:1681-1698 | the result is a `Branch` of the arena whose last alternative is the new one (null for an empty alternative) and whose connector is the shared one; the tokens, pattern length and depth are unchanged, the counters and the arena only grow, the shared nodes stay in place, every node keeps its capture slot and the group count moves by exactly the capturing tails added (`Numbered`) |
| ParseSpec.CreateGroup | src/main/java/com/belteshazzar/regex/Pattern.java:2274-2283 | a `GroupHead` and a `GroupTail` are appended sharing the next local slot; a capturing group takes the next group number (the tail keeps it doubled), an anonymous one 0; the counters advance accordingly |
| ParseSpec.GroupCaptures | src/main/java/com/belteshazzar/regex/Pattern.java:2274-2283 | appending a group's head and tail keeps the numbering: the count moves by exactly the one capturing tail (none for an anonymous group) and that tail records at twice the old count |
| ParseSpec.KeepTails | src/main/java/com/belteshazzar/regex/Pattern.java:1793-1796 | a step that keeps the count, the arena size and every capture slot keeps the numbering |
| ParseSpec.AppendKeeps | src/main/java/com/belteshazzar/regex/Pattern.java:2396-2414 | appending a node that is not a capturing tail keeps the numbering |
| ParseSpec.GroupBody | src/main/java/com/belteshazzar/regex/Pattern.java:2187-2191 | a group body returns the head and tail it created and takes at least one local slot; the tokens, pattern length and depth are unchanged, the counters and the arena only grow, the shared nodes stay in place, every node keeps its capture slot and the group count moves by exactly the capturing tails added (`Numbered`) |
| ParseSpec.Group0 | src/main/java/com/belteshazzar/regex/Pattern.java:2101-2267 | `group0()` consumes input on success; the tokens, pattern length and depth are unchanged, the counters and the arena only grow, the shared nodes stay in place, every node keeps its capture slot and the group count moves by exactly the capturing tails added (`Numbered`) |
| ParseSpec.GroupSpecial | src/main/java/com/belteshazzar/regex/Pattern.java:2111-2184 | the `(?` group kinds; the tokens, pattern length and depth are unchanged, the counters and the arena only grow, the shared nodes stay in place, every node keeps its capture slot and the group count moves by exactly the capturing tails added (`Numbered`) |
| ParseSpec.GroupAround | src/main/java/com/belteshazzar/regex/Pattern.java:2113-2165 | the group kinds that parse a body; the tokens, pattern length and depth are unchanged, the counters and the arena only grow, the shared nodes stay in place, every node keeps its capture slot and the group count moves by exactly the capturing tails added (`Numbered`) |
| ParseSpec.GroupAhead | src/main/java/com/belteshazzar/regex/Pattern.java:2113-2137 | the pure, look-ahead and independent groups; the tokens, pattern length and depth are unchanged, the counters and the arena only grow, the shared nodes stay in place, every node keeps its capture slot and the group count moves by exactly the capturing tails added (`Numbered`) |
| ParseSpec.Lookbehind | src/main/java/com/belteshazzar/regex/Pattern.java:2138-2164 | a look-behind is built only for `(?<=` and `(?<!` whose body has a known maximum length after a fresh study |
| ParseSpec.LookbehindStudied | src/main/java/com/belteshazzar/regex/Pattern.java:2144-2164 | past the study, a look-behind is built only for `=` and `!` over a body whose fresh study succeeded with a known maximum length; the tokens, pattern length and depth are unchanged, the counters and the arena only grow, the shared nodes stay in place, every node keeps its capture slot and the group count moves by exactly the capturing tails added (`Numbered`) |
| ParseSpec.StudyHead | src/main/java/com/belteshazzar/regex/Pattern.java:2144-2145 | studying the body into a fresh `TreeInfo` succeeds exactly when `StudyNode` from `Fresh` does, with that info |
| ParseSpec.LookbehindNode | src/main/java/com/belteshazzar/regex/Pattern.java:2149-2163 | the `Behind` or `NotBehind` node is built only for `=` and `!`; the tokens, pattern length and depth are unchanged, the counters and the arena only grow, the shared nodes stay in place, every node keeps its capture slot and the group count moves by exactly the capturing tails added (`Numbered`) |
| ParseSpec.GroupClose | src/main/java/com/belteshazzar/regex/Pattern.java:2194-2266 | the group's closing `)` and its quantifier: on success input was consumed and a (head, tail) pair is returned |
| ParseSpec.QuesGroup | src/main/java/com/belteshazzar/regex/Pattern.java:2208-2227 | a group under `?` or `??`: a new `BranchConn` after the tail and a new `Branch` over the group and null, the group first when greedy and second when lazy; the branch and its connector are returned |
| ParseSpec.CurlyGroup | src/main/java/com/belteshazzar/regex/Pattern.java:2229-2263 | a group under a counted closure: a deterministic group becomes one `GroupCurly` over `head.next` with the closure's mode and bounds and the tail's local and group slots; otherwise a `Loop` (lazy unless greedy) with the bounds over the group and a new iteration-count slot, entered through a `Prolog`, the tail continuing to the loop |
| ParseSpec.WrappedClose | src/main/java/com/belteshazzar/regex/Pattern.java:2123-2137 | a look-ahead or independent group wraps its body in one node, which is both head and tail when the group closes; the cursor moves past the `)`; the tokens, pattern length and depth are unchanged, the counters and the arena only grow, the shared nodes stay in place, every node keeps its capture slot and the group count moves by exactly the capturing tails added (`Numbered`) |
| ParseSpec.StartNode | src/main/java/com/belteshazzar/regex/Pattern.java:2487-2497 | `new Start(node)` appends a `Start` continuing to `node` under the next id |
| ParseSpec.DoCompile | src/main/java/com/belteshazzar/regex/Pattern.java:1428-1479 | a successful parse ends with the cursor at the pattern length (any other position throws); the tokens, pattern length and depth are unchanged, the counters and the arena only grow, the shared nodes stay in place, every node keeps its capture slot and the group count moves by exactly the capturing tails added (`Numbered`) |
| Compiler.Add | src/main/java/com/belteshazzar/regex/Pattern.java:4136-4162 | `add(...)` throws `IllegalStateException` exactly when the pattern is compiled, and otherwise appends the entries and changes nothing else |
| Compiler.CompiledFrom | src/main/java/com/belteshazzar/regex/Pattern.java:1409-1418 | after the counters are set, a compile marks the pattern compiled, keeps its list, ends with the cursor at a non-empty pattern's length, gives an empty pattern `lastAccept` as `matchRoot`, and numbers groups as `Numbered` says |
| Compiler.CompiledAsWritten | src/main/java/com/belteshazzar/regex/Pattern.java:1402-1421 | `compile()` as written resets only the two counters: its result is compiled, keeps the list and leaves the cursor at a non-empty pattern's length |
| Compiler.Compiled | src/main/java/com/belteshazzar/regex/Pattern.java:1402-1421 | `compile()` with the cursor reset too, the corrected half of the first finding: compiled, list kept, at least one group counted, shared nodes in place, cursor at the pattern length |
| Compiler.Pattern.constructor | src/main/java/com/belteshazzar/regex/Pattern.java:1060-1063 | `new Pattern()`: empty list, not compiled, null roots, the three shared nodes and zero counters |
| Compiler.Pattern.AddAll | src/main/java/com/belteshazzar/regex/Pattern.java:4157-4162 | `add(List)` does what `Compiler.Add` says with the list: throws once compiled, appends otherwise |
| Compiler.Pattern.AddChar | src/main/java/com/belteshazzar/regex/Pattern.java:4136-4141 | `add(char)` does what `Compiler.Add` says with a structural token of kind `getFor(ch)` |
| Compiler.Pattern.AddInt | src/main/java/com/belteshazzar/regex/Pattern.java:4143-4148 | `add(int)` does what `Compiler.Add` says with a count token |
| Compiler.Pattern.AddEntry | src/main/java/com/belteshazzar/regex/Pattern.java:4150-4155 | `add(Comparable)` does what `Compiler.Add` says with one entry |
| Compiler.Pattern.Compile | src/main/java/com/belteshazzar/regex/Pattern.java:1402-1421 | `compile()` with `cursor := 0` added, which the source never does: the corrected half of the first finding. It leaves the pattern in the state `Compiler.Compiled` describes, or throws its exception |
| Compiler.Pattern.CompileSteps | src/main/java/com/belteshazzar/regex/Pattern.java:1409-1418 | the steps after the counters are set leave the object in the state `Compiler.CompiledFrom` describes, or throw its exception |
| Compiler.Pattern.DoCompile | src/main/java/com/belteshazzar/regex/Pattern.java:1428-1479 | for a non-empty list, `doCompile()` leaves the state `Compiler.CompiledFrom` describes; the list and the compiled flag are untouched |
| Compiler.Pattern.Parse | src/main/java/com/belteshazzar/regex/Pattern.java:1448-1461 | the method changes the parser fields as `ParseSpec.DoCompile` says and returns its value, or throws the same exception |
| Compiler.Pattern.StartNode | src/main/java/com/belteshazzar/regex/Pattern.java:2487-2497 | the method changes the parser fields as `ParseSpec.StartNode` says and returns its value, or throws the same exception |
| Compiler.Pattern.Next | src/main/java/com/belteshazzar/regex/Pattern.java:1600-1605 | the method changes the parser fields as `ParseSpec.Next` says and returns its value, or throws the same exception; the cursor moves by one |
| Compiler.Pattern.Read | src/main/java/com/belteshazzar/regex/Pattern.java:1590-1595 | the method changes the parser fields as `ParseSpec.Read` says and returns its value, or throws the same exception; the cursor moves by one |
| Compiler.Pattern.Skip | src/main/java/com/belteshazzar/regex/Pattern.java:1610-1616 | the method changes the parser fields as `ParseSpec.Skip` says and returns its value, or throws the same exception; the cursor moves by two |
| Compiler.Pattern.Unread | src/main/java/com/belteshazzar/regex/Pattern.java:1621-1624 | `unread()` moves the cursor back by one |
| Compiler.Pattern.Accept | src/main/java/com/belteshazzar/regex/Pattern.java:1567-1575 | the method changes the parser fields as `ParseSpec.Accept` says and returns its value, or throws the same exception |
| Compiler.Pattern.Alloc | src/main/java/com/belteshazzar/regex/Pattern.java:2396-2414 | the method changes the parser fields as `ParseSpec.Alloc` says and returns its value, or throws the same exception |
| Compiler.Pattern.SetNext | src/main/java/com/belteshazzar/regex/Pattern.java:1794-1795 | the method changes the parser fields as `ParseSpec.SetNext` says and returns its value, or throws the same exception |
| Compiler.Pattern.Link | src/main/java/com/belteshazzar/regex/Pattern.java:1802-1803 | the method changes the parser fields as `ParseSpec.Link` says and returns its value, or throws the same exception |
| Compiler.Pattern.AddAtom | src/main/java/com/belteshazzar/regex/Pattern.java:3378-3388 | the method changes the parser fields as `ParseSpec.AddAtom` says and returns its value, or throws the same exception |
| Compiler.Pattern.ModeSuffix | src/main/java/com/belteshazzar/regex/Pattern.java:2367-2382 | the method changes the parser fields as `ParseSpec.ModeSuffix` says and returns its value, or throws the same exception |
| Compiler.Pattern.UpperBound | src/main/java/com/belteshazzar/regex/Pattern.java:2352-2363 | the method changes the parser fields as `ParseSpec.UpperBound` says and returns its value, or throws the same exception |
| Compiler.Pattern.Counted | src/main/java/com/belteshazzar/regex/Pattern.java:2344-2389 | the method changes the parser fields as `ParseSpec.Counted` says and returns its value, or throws the same exception |
| Compiler.Pattern.CountedFrom | src/main/java/com/belteshazzar/regex/Pattern.java:2349-2382 | the method changes the parser fields as `ParseSpec.CountedFrom` says and returns its value, or throws the same exception |
| Compiler.Pattern.CountedClose | src/main/java/com/belteshazzar/regex/Pattern.java:2364-2384 | the method changes the parser fields as `ParseSpec.CountedClose` says and returns its value, or throws the same exception |
| Compiler.Pattern.Closure | src/main/java/com/belteshazzar/regex/Pattern.java:2300-2391 | the method changes the parser fields as `ParseSpec.Closure` says and returns its value, or throws the same exception |
| Compiler.Pattern.ShortClosure | src/main/java/com/belteshazzar/regex/Pattern.java:2304-2342 | the method changes the parser fields as `ParseSpec.ShortClosure` says and returns its value, or throws the same exception |
| Compiler.Pattern.Family | src/main/java/com/belteshazzar/regex/Pattern.java:2060-2068 | the method changes the parser fields as `ParseSpec.Family` says and returns its value, or throws the same exception |
| Compiler.Pattern.SingleTok | src/main/java/com/belteshazzar/regex/Pattern.java:2050-2055 | the method changes the parser fields as `ParseSpec.SingleTok` says and returns its value, or throws the same exception |
| Compiler.Pattern.Range | src/main/java/com/belteshazzar/regex/Pattern.java:2024-2048 | the method changes the parser fields as `ParseSpec.Range` says and returns its value, or throws the same exception |
| Compiler.Pattern.RangeDash | src/main/java/com/belteshazzar/regex/Pattern.java:2030-2044 | the method changes the parser fields as `ParseSpec.RangeDash` says and returns its value, or throws the same exception |
| Compiler.Pattern.Clazz | src/main/java/com/belteshazzar/regex/Pattern.java:1905-2018 | the method changes the parser fields as `ParseSpec.Clazz` says and returns its value, or throws the same exception |
| Compiler.Pattern.ClassTurn | src/main/java/com/belteshazzar/regex/Pattern.java:1912-2017 | one turn of the class loop agrees with `ParseSpec.ClazzLoop`: going round again continues exactly as the loop function does from the new state |
| Compiler.Pattern.CaretStep | src/main/java/com/belteshazzar/regex/Pattern.java:1916-1929 | the `^` turn agrees with `ParseSpec.ClazzCaret` and always goes round again, having consumed input |
| Compiler.Pattern.CaretFirst | src/main/java/com/belteshazzar/regex/Pattern.java:1918-1924 | a `^` first in a class is a negation when the token before it is `[`, and the loop goes round again, having consumed input; otherwise it is a range: agrees with `ParseSpec.ClazzCaret` |
| Compiler.Pattern.RangeStep | src/main/java/com/belteshazzar/regex/Pattern.java:1990-2016 | the range turn agrees with `ParseSpec.ClazzRange` and goes round again, having consumed input |
| Compiler.Pattern.NestedStep | src/main/java/com/belteshazzar/regex/Pattern.java:1930-1936 | the nested-class turn agrees with `ParseSpec.ClazzNested` |
| Compiler.Pattern.AmpStep | src/main/java/com/belteshazzar/regex/Pattern.java:1937-1976 | the `&&` turn agrees with `ParseSpec.ClazzAmp` |
| Compiler.Pattern.AndAndStep | src/main/java/com/belteshazzar/regex/Pattern.java:1942-1969 | the `&&` operand turn agrees with `ParseSpec.ClazzAndAnd` and goes round again, having consumed input |
| Compiler.Pattern.AtomNode | src/main/java/com/belteshazzar/regex/Pattern.java:1874-1881 | the method changes the parser fields as `ParseSpec.AtomNode` says and returns its value, or throws the same exception |
| Compiler.Pattern.Atom | src/main/java/com/belteshazzar/regex/Pattern.java:1810-1881 | the method changes the parser fields as `ParseSpec.Atom` says and returns its value, or throws the same exception |
| Compiler.Pattern.AtomSlash | src/main/java/com/belteshazzar/regex/Pattern.java:1837-1857 | the method changes the parser fields as `ParseSpec.AtomSlash` says and returns its value, or throws the same exception |
| Compiler.Pattern.SeqAtom | src/main/java/com/belteshazzar/regex/Pattern.java:1733-1785 | the method changes the parser fields as `ParseSpec.SeqAtom` says and returns its value, or throws the same exception |
| Compiler.Pattern.SeqFamily | src/main/java/com/belteshazzar/regex/Pattern.java:1736-1748 | the method changes the parser fields as `ParseSpec.SeqFamily` says and returns its value, or throws the same exception |
| Compiler.Pattern.SeqFinish | src/main/java/com/belteshazzar/regex/Pattern.java:1798-1804 | the method changes the parser fields as `ParseSpec.SeqFinish` says and returns its value, or throws the same exception |
| Compiler.Pattern.Sequence | src/main/java/com/belteshazzar/regex/Pattern.java:1712-1805 | the method changes the parser fields as `ParseSpec.Sequence` says and returns its value, or throws the same exception |
| Compiler.Pattern.Expr | src/main/java/com/belteshazzar/regex/Pattern.java:1646-1707 | the method changes the parser fields as `ParseSpec.Expr` says and returns its value, or throws the same exception |
| Compiler.Pattern.ExprAlternative | src/main/java/com/belteshazzar/regex/Pattern.java:1654-1700 | the method changes the parser fields as `ParseSpec.ExprAlternative` says and returns its value, or throws the same exception |
| Compiler.Pattern.CreateGroup | src/main/java/com/belteshazzar/regex/Pattern.java:2274-2283 | the method changes the parser fields as `ParseSpec.CreateGroup` says and returns its value, or throws the same exception |
| Compiler.Pattern.GroupBody | src/main/java/com/belteshazzar/regex/Pattern.java:2187-2191 | the method changes the parser fields as `ParseSpec.GroupBody` says and returns its value, or throws the same exception |
| Compiler.Pattern.Group0 | src/main/java/com/belteshazzar/regex/Pattern.java:2101-2267 | the method changes the parser fields as `ParseSpec.Group0` says and returns its value, or throws the same exception |
| Compiler.Pattern.GroupSpecial | src/main/java/com/belteshazzar/regex/Pattern.java:2111-2184 | the method changes the parser fields as `ParseSpec.GroupSpecial` says and returns its value, or throws the same exception |
| Compiler.Pattern.GroupAround | src/main/java/com/belteshazzar/regex/Pattern.java:2113-2165 | the method changes the parser fields as `ParseSpec.GroupAround` says and returns its value, or throws the same exception |
| Compiler.Pattern.GroupAhead | src/main/java/com/belteshazzar/regex/Pattern.java:2113-2137 | the method changes the parser fields as `ParseSpec.GroupAhead` says and returns its value, or throws the same exception |
| Compiler.Pattern.GroupInline | src/main/java/com/belteshazzar/regex/Pattern.java:2169-2183 | the method changes the parser fields as `ParseSpec.GroupSpecial` says and returns its value, or throws the same exception for an inline modifier |
| Compiler.Pattern.Lookbehind | src/main/java/com/belteshazzar/regex/Pattern.java:2138-2164 | the method changes the parser fields as `ParseSpec.Lookbehind` says and returns its value, or throws the same exception |
| Compiler.Pattern.LookbehindStudied | src/main/java/com/belteshazzar/regex/Pattern.java:2144-2164 | the method changes the parser fields as `ParseSpec.LookbehindStudied` says and returns its value, or throws the same exception |
| Compiler.Pattern.StudyBody | src/main/java/com/belteshazzar/regex/Pattern.java:2144-2145 | studying the body with a new `TreeInfo` gives `ParseSpec.StudyHead` of the parser state, which is left alone |
| Compiler.Pattern.LookbehindNode | src/main/java/com/belteshazzar/regex/Pattern.java:2149-2163 | the method changes the parser fields as `ParseSpec.LookbehindNode` says and returns its value, or throws the same exception |
| Compiler.Pattern.GroupClose | src/main/java/com/belteshazzar/regex/Pattern.java:2194-2266 | the method changes the parser fields as `ParseSpec.GroupClose` says and returns its value, or throws the same exception |
| Compiler.Pattern.WrappedClose | src/main/java/com/belteshazzar/regex/Pattern.java:2123-2137 | the method changes the parser fields as `ParseSpec.WrappedClose` says and returns its value, or throws the same exception |
| Compiler.Pattern.QuesGroup | src/main/java/com/belteshazzar/regex/Pattern.java:2208-2227 | the method changes the parser fields as `ParseSpec.QuesGroup` says and returns its value, or throws the same exception |
| Compiler.Pattern.CurlyGroup | src/main/java/com/belteshazzar/regex/Pattern.java:2229-2263 | the method changes the parser fields as `ParseSpec.CurlyGroup` says and returns its value, or throws the same exception |
| ParseProps.ClosureAtBrace | src/main/java/com/belteshazzar/regex/Pattern.java:2344-2389 | at a `{`, `closure` is exactly the counted-closure parse |
| ParseProps.ExactRepetition | src/main/java/com/belteshazzar/regex/Pattern.java:2344-2384 | `{n}` with n >= 0 and no suffix appends `Curly(prev, n, n, GREEDY)` under the next id and moves the cursor past the three tokens, nothing else changing |
| ParseProps.OpenRepetition | src/main/java/com/belteshazzar/regex/Pattern.java:2344-2384 | `{n,}` with 0 <= n appends `Curly(prev, n, MAX_REPS, GREEDY)` and moves past the four tokens |
| ParseProps.BoundedRepetition | src/main/java/com/belteshazzar/regex/Pattern.java:2344-2384 | `{n,m}` with 0 <= n <= m appends `Curly(prev, n, m, GREEDY)` and moves past the five tokens |
| ParseProps.InvertedRepetition | src/main/java/com/belteshazzar/regex/Pattern.java:2365-2365 | `{n,m}` with m < n throws "Illegal repetition range" at the index of the `}` itself (one before the cursor after reading it) |
| ParseProps.NegativeRepetition | src/main/java/com/belteshazzar/regex/Pattern.java:2365-2365 | `{n}` with n < 0 throws "Illegal repetition range" |
| ParseProps.UnclosedRepetition | src/main/java/com/belteshazzar/regex/Pattern.java:2364-2364 | `{n` followed by anything but `,` or `}` throws "Unclosed counted closure" |
| ParseProps.BraceWithoutCount | src/main/java/com/belteshazzar/regex/Pattern.java:2385-2388 | a `{` not followed by a count throws "Illegal repetition" |
| ParseProps.LiteralRangeNeverInverted | src/main/java/com/belteshazzar/regex/Pattern.java:2041-2043 | a range between two literal tokens is always accepted, whatever their order, as `rangeFor(lo, hi)`, moving past the three tokens: the inversion test compares the tokens' kinds, which are both `OTHER` |
| ParseProps.StructuralRangeInverted | src/main/java/com/belteshazzar/regex/Pattern.java:2041-2041 | a range whose upper token's kind is declared before the lower token's throws "Illegal character range" |
| ParseProps.UnboundedLookbehindRefused | src/main/java/com/belteshazzar/regex/Pattern.java:2144-2150 | a look-behind whose body has no known maximum length throws "Look-behind group does not have an obvious maximum length" |
| ParseProps.CapturingGroupCounted | src/main/java/com/belteshazzar/regex/Pattern.java:2187-2191 | a regular group's tail records at twice the count at its `(`; the capturing tails of the group (its own, then its body's) are numbered on consecutively from it in creation order, and the count moves by exactly their number (`GroupNumbered`); the count rises by at least one and a local slot is taken |
| ParseProps.AnonymousGroupUncounted | src/main/java/com/belteshazzar/regex/Pattern.java:2113-2117 | a `(?:` group's tail records nowhere (`GroupNumbered` with slot 0): only the capturing groups inside it move the count, by exactly their number, numbered on consecutively from the count at its `(`; with none inside the count is unchanged; a local slot is taken |
| ParseProps.GroupNumbers | src/main/java/com/belteshazzar/regex/Pattern.java:2186-2192 | a group's own capture slot survives its body, and the capturing tails it adds are numbered consecutively in creation order |
| ParseProps.CompileNumbersGroups | src/main/java/com/belteshazzar/regex/Pattern.java:1402-1421 | a compile numbers the capturing groups it creates 1, 2, ... in the order their `(` are read: their tails record at 2, 4, ..., one tail per number up to the final count minus one, and earlier nodes keep their slots |
| ParseProps.CompiledNumbered | src/main/java/com/belteshazzar/regex/Pattern.java:1405-1411 | `compile()` numbers as `Numbered` says, from a count reset to 1 |
| ParseProps.NumberedFromOne | src/main/java/com/belteshazzar/regex/Pattern.java:1406-1406 | numbering that starts from a count of 1 gives the capturing tails added the numbers 2, 4, ... in creation order |
| ParseProps.AddAfterCompile | src/main/java/com/belteshazzar/regex/Pattern.java:4136-4162 | once compiled, every `add` throws `IllegalStateException`, and compiling kept the list |
| ParseProps.AddThenCompile | src/main/java/com/belteshazzar/regex/Pattern.java:4157-4162 | before compiling, `add` appends, and compiling afterwards keeps the extended list |
| ParseProps.ParseLiteral | src/main/java/com/belteshazzar/regex/Pattern.java:1448-1461 | parsing the one-literal pattern gives as `matchRoot` a new `Single` over that literal continuing to `lastAccept` |
| ParseProps.CompileLiteral | src/main/java/com/belteshazzar/regex/Pattern.java:1402-1421 | compiling a one-literal pattern gives that `Single` as `matchRoot` |
| ParseProps.ParseFromEnd | src/main/java/com/belteshazzar/regex/Pattern.java:1448-1461 | parsing with the cursor already at the pattern length gives `lastAccept` as `matchRoot`: the empty pattern |
| ParseProps.RecompileAsWritten | src/main/java/com/belteshazzar/regex/Pattern.java:1402-1421 | compiling a non-empty pattern twice as written gives `lastAccept`, the empty pattern, as `matchRoot` the second time |
| ParseProps.RecompileLiteralAsWritten | src/main/java/com/belteshazzar/regex/Pattern.java:1402-1421 | for a one-literal pattern, the first compile as written gives the `Single`, the second gives `lastAccept`: the pattern is lost |
| ParseProps.RecompileLiteral | src/main/java/com/belteshazzar/regex/Pattern.java:1402-1421 | with the cursor reset, compiling again gives the same `Single` over the literal |
| Splitting.PieceStart | src/main/java/com/belteshazzar/regex/Pattern.java:1260-1266 | each piece starts where the previous match ended, the first at 0 |
| Splitting.Before | src/main/java/com/belteshazzar/regex/Pattern.java:1254-1261 | the pieces before the first k matches: piece i runs from the end of match i-1 to the start of match i |
| Splitting.Pieces | src/main/java/com/belteshazzar/regex/Pattern.java:1262-1276 | those pieces followed by the rest of the input after match k |
| Splitting.Gathered | src/main/java/com/belteshazzar/regex/Pattern.java:1248-1276 | the list before trimming holds at least one piece and at most `limit` pieces when the limit is positive |
| Splitting.TrimEmpty | src/main/java/com/belteshazzar/regex/Pattern.java:1279-1284 | the corrected (documented) trim: dropping trailing empty pieces keeps a prefix, drops only empty pieces and ends on a non-empty one |
| Splitting.Split | src/main/java/com/belteshazzar/regex/Pattern.java:1246-1285 | `split` as documented: the gathered pieces, or for limit 0 a prefix of them with only empty pieces dropped; any other limit keeps them all |
| Splitting.TrimText | src/main/java/com/belteshazzar/regex/Pattern.java:1279-1282 | the trim loop as written: keeps a prefix, drops only pieces whose text is "", and stops at a piece whose text is not "" |
| Splitting.SplitAsWritten | src/main/java/com/belteshazzar/regex/Pattern.java:1246-1285 | `split` as written: the gathered pieces, or for limit 0 a prefix of them with only pieces whose `toString()` is "" dropped |
| Splitting.NoMatchAtZero | src/main/java/com/belteshazzar/regex/Pattern.java:1270-1271 | `index == 0` after the loop, which returns the whole input as the only piece, happens exactly when every match the loop looks at is empty and at position 0 |
| Splitting.ListText | src/main/java/com/belteshazzar/regex/Pattern.java:1258-1258 | `List.toString()` is bracketed, so it is never empty |
| Splitting.TrimTextKeepsAll | src/main/java/com/belteshazzar/regex/Pattern.java:1279-1284 | the trim as written, comparing each piece's text with "", never drops a piece |
| Splitting.TrailingEmptyPieceKept | src/main/java/com/belteshazzar/regex/Pattern.java:1279-1284 | input [a, b] split at the match [1, 2) with limit 0 gives [[a], []] as written, [[a]] as documented |
| Splitting.SplitBounded | src/main/java/com/belteshazzar/regex/Pattern.java:1246-1285 | a nonzero limit gives at least one piece, a positive limit at most `limit`, and limit 0 at most one more piece than matches |
| Splitting.UnlimitedSplit | src/main/java/com/belteshazzar/regex/Pattern.java:1254-1276 | with a negative limit there is one piece more than matches, each between consecutive matches, the last running to the end |
| Splitting.Matches | src/main/java/com/belteshazzar/regex/Pattern.java:1254-1260 | the matched runs, `input[start(i)..end(i)]` |
| Splitting.WovenPrefix | src/main/java/com/belteshazzar/regex/Pattern.java:1254-1276 | interleaving the first k pieces with the first k matches rebuilds the input up to the end of match k |
| Splitting.PiecesRebuild | src/main/java/com/belteshazzar/regex/Pattern.java:1254-1276 | interleaving all pieces with the matches rebuilds the input exactly |
| Splitting.SplitRebuilds | src/main/java/com/belteshazzar/regex/Pattern.java:1246-1285 | with a nonzero limit the pieces, interleaved with the matches they were cut at, rebuild the input |
| Splitting.ZeroLimitTrims | src/main/java/com/belteshazzar/regex/Pattern.java:1279-1284 | for the corrected (documented) `split`: with limit 0 the result is the gathered list without its trailing empty pieces, ending on a non-empty one |
| Splitting.TrimmedSize | src/main/java/com/belteshazzar/regex/Pattern.java:1279-1282 | the trim loop, with the documented test on the piece itself rather than its text: it stops at the size of the list without its trailing empty pieces |
| Splitting.CollectPieces | src/main/java/com/belteshazzar/regex/Pattern.java:1253-1268 | the `while (m.find())` loop: `matchList` and `index` after it are the pieces collected and the end of the last match looked at, as `Collected` and `PieceStart` describe |
| Splitting.SplitInput | src/main/java/com/belteshazzar/regex/Pattern.java:1246-1285 | the match loop and the corrected (documented) trim give exactly `Split(input, spans, limit)`; for limit 0 this differs from the source, whose trim is `SplitAsWritten` |

## Left out

- `Matcher.java` is not part of this model:
  - `find`, `matches`, `reset`, regions and the matcher's own bookkeeping are
    not modelled;
  - the engine holds only the matcher fields the nodes read and write;
  - `split` takes the spans `find()` reports as its input. It requires only
    what `find()` guarantees: the spans lie inside the input, in order,
    without overlapping.
- Engine.Matcher.constructor: `Matcher.java` is not part of this model, so
  the initial matcher state is an assumption, not taken from its source:
  - the region is the whole text;
  - `groups` has 2 × group count slots and `locals` one per local slot, all
    -1;
  - `first` is -1, and `last`, `oldLast` and `lookbehindTo` are 0;
  - `hitEnd` and `requireEnd` are false;
  - anchoring bounds are on and transparent bounds off;
  - the accept mode is `NOANCHOR`.
- The debug output (`System.out.println`, `System.err.println`,
  `printObjectTree`) is left out. It does not affect any result.
- The static `matches(regex, input)`, `split(input)` (that is,
  `split(input, 0)`), `quote`, `readObject` (deserialization) and the
  accessors `pattern()` and `toString()` are left out. They are outside the
  compile/match core.
- `Pattern(List)` (1065-1069) is not a separate constructor. In the model it
  is `new Pattern()` followed by `add(List)` and `compile()`. Sharing the
  caller's list object is not modelled.
- `matcher()`'s lazy, `synchronized` compile is left out. Concurrency is out
  of scope; the compile itself is `Compiler.Pattern.Compile`.
- The state after an exception is not described, only that the same
  exception is thrown. An exception leaves `compile` or `match` altogether.
- Stack depth: recursion in `study` and `match` is bounded by a fuel
  parameter. Running out of fuel is modelled as `StackOverflowError`. A call
  that the JVM would complete with more stack than the fuel allows is
  therefore not modelled.
- The counters `localCount`, `capturingGroupCount` and `cursor`, and match
  positions, are unbounded integers. So is the doubled group index. Their
  32-bit wrap-around (beyond 2^31 tokens or groups) is not modelled.
- The `buffer` array of `atom()` is a local sequence. Its growth by
  doubling (`append`) has no observable effect.
- `groupNodes` is written but never read by the core, so it is left out.
- `ClassPatternable` holds a `Class<?>`. Its runtime `isInstance` test is
  modelled as a predicate on items.
- `instanceof` tests on nodes are tests on the node's constructor.
- `split` returns pieces as subsequences rather than as their `toString()`
  text. The text is modelled only where the source compares it: in the
  trim, through `Splitting.ListText`, given the elements' own `toString`.
- `Curly.study` detects maximum-length overflow with `temp < maxL`. This
  misses some wrapped products (for example max 3, cmax 1431655766). It is
  modelled as written with `Base.Mul32`, and no property about it is claimed.
- MatchSpec.Eval: this and the other `MatchSpec` node functions and their
  loop helpers (`MatchStart` … `MatchNotBehind`) have a contract that states
  only what a normal return leaves unchanged. What each node decides is its
  body. The properties proved about them are the `MatchProps` lemmas, and
  the `Engine.Matcher` methods are proved equal to them.
- ParseSpec.Expr: this and the other parsing functions (`Sequence`, `Atom`,
  `Clazz`, `Group0`, `GroupSpecial`, `Range`, `UpperBound`, `Counted`,
  `ClazzLoop` and their helpers) have a contract that states only:
  - the frame and the group numbering (`Grows`);
  - cursor progress;
  - a few facts about the node they return.

  What they build is their body. The `ParseProps` lemmas state what chosen
  inputs compile to, and the `Compiler.Pattern` methods are proved equal to
  these functions.
- Study.StudyNode: this and the other `*Studied` functions state only two
  things:
  - lengths stay within 32 bits;
  - a `true` answer comes with a deterministic result.

  That flags can only be cleared is the lemma `Study.StudySticky`. Exact
  lengths are stated only for `Study.CurlyInfo`, `Study.ConditionalInfo`
  and `Study.Grow`.

## Findings

| source | as written | input that shows it | evidently intended | confidence | as-written member | corrected member |
|---|---|---|---|---|---|---|
| src/main/java/com/belteshazzar/regex/Pattern.java:1402-1421 | `compile()` resets `capturingGroupCount` and `localCount` but not `cursor`, and `doCompile()` does not reset it either, so a second `compile()` of a non-empty pattern parses from the end of the token list | `new Pattern<T>(list)` (whose constructor already compiles) followed by `.compile()`, with `list` one literal: the second compile yields `lastAccept`, the empty pattern, as `matchRoot` | every compile parses the whole token list, so recompiling yields the same graph | not executed | ParseProps.RecompileLiteralAsWritten | ParseProps.RecompileLiteral |
| src/main/java/com/belteshazzar/regex/Pattern.java:1279-1284 | with `limit == 0` the trim drops trailing pieces whose text `equals("")`, but each piece is a `List.toString()`, which is at least `[]`, so nothing is ever dropped | input `[a, b]`, one match spanning `[1, 2)`, limit 0: the result is `["[a]", "[]"]` | trailing empty pieces are dropped, as the documentation table says (`o`, 0 gives `{ "b", "", ":and:f" }`) | not executed | Splitting.TrailingEmptyPieceKept | Splitting.Split |
