/** The compiled node graph. Java links nodes by object reference and a
    `Loop` points back at its own body, so the graph is an arena indexed by
    node id; `Null` stands for a null reference. */
module Nodes {
  import opened Base
  import opened Tokens
  import opened CharClass

  /** A node id; any id outside the arena (in particular `Null`) is a null
      reference and dereferencing it throws. */
  type Id = int

  const Null: Id := -1

  /** The fixed nodes every pattern owns: `accept`, `lastAccept` and
      `lookbehindEnd`. */
  const ACCEPT: Id := 0
  const LAST_ACCEPT: Id := 1
  const LOOKBEHIND_END: Id := 2

  /** `MAX_REPS`, the unbounded upper repetition count. */
  const MAX_REPS: int := 0x7FFF_FFFF

  /** The quantifier types `GREEDY`, `LAZY`, `POSSESSIVE`, `INDEPENDENT`. */
  datatype Mode = Greedy | Lazy | Possessive | Independent

  /** One node of the graph. `next` is the continuation every node
      inherits; the other fields are those of the Java subclass. */
  datatype Node<!V> =
    | AcceptN(next: Id)
    | LastAcceptN(next: Id)
    | LookbehindEndN(next: Id)
    | StartN(next: Id, minLength: int)
    | BeginN(next: Id)
    | EndN(next: Id)
    | CaretN(next: Id)
    | LastMatchN(next: Id)
    | DollarN(next: Id)
    | CharPropN(next: Id, pred: CharPred<V>)
    | SliceN(next: Id, buf: seq<Token<V>>)
    | QuesN(next: Id, atom: Id, mode: Mode)
    | CurlyN(next: Id, atom: Id, mode: Mode, cmin: int, cmax: int)
    | GroupCurlyN(next: Id, atom: Id, mode: Mode, cmin: int, cmax: int,
                  localIndex: int, groupIndex: int, capture: bool)
    | BranchConnN(next: Id)
    | BranchN(next: Id, atoms: seq<Id>, conn: Id)
    | GroupHeadN(next: Id, localIndex: int)
    | GroupRefN(next: Id, head: Id)
    | GroupTailN(next: Id, localIndex: int, groupIndex: int)
    | PrologN(next: Id, loop: Id)
    | LoopN(next: Id, body: Id, countIndex: int, beginIndex: int,
            cmin: int, cmax: int, lazy: bool)
    | BackRefN(next: Id, groupIndex: int)
    | FirstN(next: Id, atom: Id)
    | ConditionalN(next: Id, cond: Id, yes: Id, not: Id)
    | PosN(next: Id, cond: Id)
    | NegN(next: Id, cond: Id)
    | BehindN(next: Id, cond: Id, rmax: int, rmin: int)
    | NotBehindN(next: Id, cond: Id, rmax: int, rmin: int)

  type Graph<!V> = seq<Node<V>>

  predicate IsNode<V>(g: Graph<V>, id: Id) { 0 <= id < |g| }

  /** Dereferencing an id: a null or dangling reference throws. */
  function Deref<V>(g: Graph<V>, id: Id): (r: Outcome<Node<V>>)
    ensures r.Ok? <==> IsNode(g, id)
    ensures r.Ok? ==> r.value == g[id]
  {
    if IsNode(g, id) then Ok(g[id]) else Err(NullPointer)
  }

  /** `node.next = target`, the in-place relinking the compiler performs. */
  function WithNext<V>(n: Node<V>, target: Id): (m: Node<V>)
    ensures m.next == target
    ensures TailIndex(m) == TailIndex(n)
  {
    n.(next := target)
  }

  /** The start index in `groups` at which a capturing group's `GroupTail`
      records (twice the group number); 0 for every other node, including
      the tail of an anonymous group, which keeps index 0. */
  function TailIndex<V>(n: Node<V>): int
  {
    if n.GroupTailN? then n.groupIndex else 0
  }

  /** The number of capturing tails among the first `k` nodes. */
  function Tally<V>(g: Graph<V>, k: int): (t: int)
    requires k <= |g|
    ensures 0 <= t && (k <= 0 ==> t == 0) && (k > 0 ==> t <= k)
    decreases k
  {
    if k <= 0 then 0 else Tally(g, k - 1) + (if TailIndex(g[k - 1]) != 0 then 1 else 0)
  }

  /** Read from node `k - 1` backwards, the last `n` capturing tails among
      the first `k` nodes record for groups `n`, `n - 1`, ..., 1. */
  ghost predicate NumberedTo<V>(g: Graph<V>, k: int, n: nat)
    requires k <= |g|
    decreases k
  {
    if n == 0 then true
    else if k <= 0 then false
    else if TailIndex(g[k - 1]) != 0 then TailIndex(g[k - 1]) == 2 * n && NumberedTo(g, k - 1, n - 1)
    else NumberedTo(g, k - 1, n)
  }

  /** The first `k` nodes of `g` and `h` have the same capture slots. */
  ghost predicate SameTails<V>(g: Graph<V>, h: Graph<V>, k: int)
  {
    k <= |g| && k <= |h| && forall i :: 0 <= i < k ==> TailIndex(h[i]) == TailIndex(g[i])
  }

  /** Nodes with the same capture slots count and number alike. */
  lemma {:induction false} TailsAgree<V>(g: Graph<V>, h: Graph<V>, k: int, n: nat)
    requires SameTails(g, h, k)
    ensures Tally(g, k) == Tally(h, k) && NumberedTo(g, k, n) == NumberedTo(h, k, n)
    decreases k
  {
    if k > 0 {
      assert TailIndex(h[k - 1]) == TailIndex(g[k - 1]);
      var m := if n > 0 && TailIndex(g[k - 1]) != 0 then n - 1 else n;
      TailsAgree(g, h, k - 1, m);
    }
  }

  /** Keeping the capture slots composes. */
  lemma SameTailsChain<V>(g: Graph<V>, h: Graph<V>, f: Graph<V>)
    requires |g| <= |h| && SameTails(g, h, |g|) && SameTails(h, f, |h|)
    ensures SameTails(g, f, |g|)
  {
  }

  /** Appending a node keeps the earlier capture slots. */
  lemma AppendTails<V>(g: Graph<V>, n: Node<V>)
    ensures SameTails(g, g + [n], |g|)
  {
  }

  /** Rewriting a node without changing its capture slot keeps them all. */
  lemma UpdateTails<V>(g: Graph<V>, id: Id, m: Node<V>)
    requires IsNode(g, id) && TailIndex(m) == TailIndex(g[id])
    ensures SameTails(g, g[id := m], |g|)
  {
  }

  /** `[2, 4, ..., 2n]`: the `groups` start indices of groups 1 to `n`. */
  function Evens(n: nat): (s: seq<int>)
    ensures |s| == n && forall i :: 0 <= i < n ==> s[i] == 2 * (i + 1)
  {
    if n == 0 then [] else Evens(n - 1) + [2 * n]
  }

  /** The capture slots of the capturing tails among `g[lo..k]`, in the
      order the nodes were created. */
  function Tails<V>(g: Graph<V>, lo: int, k: int): (s: seq<int>)
    requires 0 <= lo <= k <= |g|
    ensures |s| == Tally(g, k) - Tally(g, lo)
    decreases k - lo
  {
    if k == lo then []
    else Tails(g, lo, k - 1) + (if TailIndex(g[k - 1]) != 0 then [TailIndex(g[k - 1])] else [])
  }

  /** Counting capturing tails never goes down as the prefix grows. */
  lemma {:induction false} TallyGrows<V>(g: Graph<V>, lo: int, k: int)
    requires 0 <= lo <= k <= |g|
    ensures Tally(g, lo) <= Tally(g, k)
    decreases k - lo
  {
    if k > lo {
      TallyGrows(g, lo, k - 1);
    }
  }

  /** When the last `n` capturing tails of `g[..k]` are numbered 2, ..., 2n
      and `m` of them lie in `g[lo..k]`, those `m` are the last `m`
      numbers, in creation order. */
  lemma {:induction false} TailsAreEvens<V>(g: Graph<V>, lo: int, k: int, n: nat, m: nat)
    requires 0 <= lo <= k <= |g| && m <= n
    requires NumberedTo(g, k, n) && Tally(g, k) - Tally(g, lo) == m
    ensures Tails(g, lo, k) == Evens(n)[n - m..]
    decreases k - lo
  {
    if k > lo {
      TallyGrows(g, lo, k - 1);
      if TailIndex(g[k - 1]) != 0 {
        TailsAreEvens(g, lo, k - 1, n - 1, m - 1);
        assert Evens(n)[n - m..] == Evens(n - 1)[n - m..] + [2 * n];
      } else {
        TailsAreEvens(g, lo, k - 1, n, m);
      }
    }
  }

  /** The graph every pattern starts with: `accept` and `lookbehindEnd` are
      created while the field they would default to is still null, and
      `lastAccept` continues to `accept`. */
  function InitialGraph<V>(): (g: Graph<V>)
    ensures |g| == 3
    ensures g[ACCEPT].AcceptN? && g[LAST_ACCEPT].LastAcceptN? && g[LOOKBEHIND_END].LookbehindEndN?
    ensures g[ACCEPT].next == Null && g[LOOKBEHIND_END].next == Null && g[LAST_ACCEPT].next == ACCEPT
  {
    [AcceptN(Null), LastAcceptN(ACCEPT), LookbehindEndN(Null)]
  }
}
