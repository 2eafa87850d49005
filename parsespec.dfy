/** The recursive-descent compiler of `Pattern` as functions over an
    explicit parser state: the token list with its two end sentinels, the
    cursor, the local-slot and capturing-group counters and the node arena.
    Each function is one parsing method (or one of its loops) and returns
    the value the method returns together with the state it leaves, or the
    exception it throws. The class `Compiler.Pattern` performs the same
    steps in place and is proved to agree with these functions. */
module ParseSpec {
  import opened Base
  import opened Tokens
  import opened CharClass
  import opened Nodes
  import opened Study

  /** An element of the pattern list: a user `Comparable`, or a token the
      caller built itself. */
  datatype Entry<!V> = Plain(compareTo: Item<V> -> int) | Wrapped(token: Token<V>)

  /** `doCompile` wraps every plain `Comparable` in an `ElementPatternable`
      and keeps tokens as they are. */
  function Wrap<V>(e: Entry<V>): (t: Token<V>)
    ensures e.Plain? ==> t.Literal? && Kind(t) == Other
    ensures e.Wrapped? ==> Kind(t) == Kind(e.token)
  {
    match e
    case Plain(c) => Literal(c)
    case Wrapped(t) => t
  }

  function EndToken<V>(): Token<V> { Structural(EndMarker) }

  function WrapAll<V>(pattern: seq<Entry<V>>): (ts: seq<Token<V>>)
    ensures |ts| == |pattern|
    ensures forall i :: 0 <= i < |pattern| ==> Kind(ts[i]) == Kind(Wrap(pattern[i]))
  {
    if |pattern| == 0 then [] else [Wrap(pattern[0])] + WrapAll(pattern[1..])
  }

  /** The token list `doCompile` parses: the wrapped pattern followed by
      two `END_MARKER` sentinels, so that looking two tokens ahead never
      leaves the list. */
  function TokensOf<V>(pattern: seq<Entry<V>>): (temp: seq<Token<V>>)
    ensures |temp| == |pattern| + 2
    ensures Kind(temp[|pattern|]) == EndMarker && Kind(temp[|pattern| + 1]) == EndMarker
    ensures forall i :: 0 <= i < |pattern| ==> Kind(temp[i]) == Kind(Wrap(pattern[i]))
  {
    WrapAll(pattern) + [EndToken(), EndToken()]
  }

  /** The compiler's transient fields. `depth` is the call depth `study`
      may use before the Java stack would overflow. */
  datatype PState<!V> = PState(temp: seq<Token<V>>, patternLength: int, cursor: int,
                               localCount: int, capturingGroupCount: int,
                               nodes: Graph<V>, depth: nat)

  /** A value returned by a parsing step and the state it leaves. */
  datatype Parsed<+X, !V> = Parsed(val: X, ps: PState<V>)

  /** Tokens not yet read, the termination measure of the parser. */
  function Left<V>(ps: PState<V>): int { |ps.temp| - ps.cursor }

  /** The arena starts with the three shared nodes `accept`, `lastAccept`
      and `lookbehindEnd`. */
  ghost predicate Based<V>(g: Graph<V>)
  {
    |g| >= 3 && g[ACCEPT].AcceptN? && g[LAST_ACCEPT].LastAcceptN? && g[LOOKBEHIND_END].LookbehindEndN?
  }

  /** The numbering `compile` keeps: counting starts at 1, and the last
      `count - 1` capturing tails in the arena are those of groups 1, 2,
      ... in the order they were created. */
  ghost predicate Numbering<V>(g: Graph<V>, count: int)
  {
    count >= 1 && NumberedTo(g, |g|, count - 1)
  }

  /** Group numbering from `a` to `b`: the capture slots of the nodes
      already in the arena stay as they are, once counting has started the
      count moves by exactly the number of capturing tails added, and
      `Numbering` is kept. */
  ghost predicate Numbered<V>(a: PState<V>, b: PState<V>)
  {
    SameTails(a.nodes, b.nodes, |a.nodes|)
    && (a.capturingGroupCount >= 1 ==>
          Tally(b.nodes, |b.nodes|) - Tally(a.nodes, |a.nodes|) == b.capturingGroupCount - a.capturingGroupCount)
    && (Numbering(a.nodes, a.capturingGroupCount) ==> Numbering(b.nodes, b.capturingGroupCount))
  }

  /** A step that rewrites nodes without touching their capture slots, and
      leaves the count alone, keeps the numbering. */
  lemma KeepTails<V>(a: PState<V>, b: PState<V>)
    requires b.capturingGroupCount == a.capturingGroupCount && |b.nodes| == |a.nodes|
    requires SameTails(a.nodes, b.nodes, |a.nodes|)
    ensures Numbered(a, b)
  {
    TailsAgree(a.nodes, b.nodes, |a.nodes|, if a.capturingGroupCount >= 1 then a.capturingGroupCount - 1 else 0);
  }

  /** Appending a node that is not a capturing tail keeps the numbering. */
  lemma AppendKeeps<V>(ps: PState<V>, n: Node<V>)
    requires TailIndex(n) == 0
    ensures Numbered(ps, ps.(nodes := ps.nodes + [n]))
  {
    var g := ps.nodes;
    AppendTails(g, n);
    TailsAgree(g, g + [n], |g|, if ps.capturingGroupCount >= 1 then ps.capturingGroupCount - 1 else 0);
  }

  /** A group's head and tail appended to the arena, the count moving on
      for a capturing group: its tail's index is the next in the
      numbering. */
  lemma GroupCaptures<V>(a: PState<V>, b: PState<V>, head: Node<V>, tail: Node<V>, anonymous: bool)
    requires head.GroupHeadN?
    requires tail.GroupTailN? && tail.groupIndex == if anonymous then 0 else 2 * a.capturingGroupCount
    requires b.nodes == a.nodes + [head, tail]
    requires b.capturingGroupCount == a.capturingGroupCount + if anonymous then 0 else 1
    ensures Numbered(a, b)
  {
    var c := a.capturingGroupCount;
    var g := a.nodes;
    assert SameTails(g, b.nodes, |g|) by {
      forall i | 0 <= i < |g| ensures b.nodes[i] == g[i] { }
    }
    TailsAgree(g, b.nodes, |g|, if c >= 1 then c - 1 else 0);
  }

  /** What every parsing step keeps: the tokens, the pattern length and the
      depth stay, the counters and the arena only grow, the shared nodes
      stay what they are (their `next` may be relinked), and groups are
      numbered as `Numbered` says. */
  ghost predicate Grows<V>(a: PState<V>, b: PState<V>)
  {
    b.temp == a.temp && b.patternLength == a.patternLength && b.depth == a.depth
    && a.localCount <= b.localCount && a.capturingGroupCount <= b.capturingGroupCount
    && |a.nodes| <= |b.nodes| && (Based(a.nodes) ==> Based(b.nodes))
    && Numbered(a, b)
  }

  // ---------------------------------------------------------------
  // Cursor primitives: `temp.get` throws outside the list.

  function Get<V>(ps: PState<V>, i: int): (r: Outcome<Token<V>>)
    ensures r.Ok? <==> 0 <= i < |ps.temp|
    ensures r.Ok? ==> r.value == ps.temp[i]
  {
    if 0 <= i < |ps.temp| then Ok(ps.temp[i]) else Err(IndexOutOfBounds(i))
  }

  /** `peek()`: the token at the cursor. */
  function Peek<V>(ps: PState<V>): (r: Outcome<Token<V>>)
    ensures r.Ok? <==> 0 <= ps.cursor < |ps.temp|
    ensures r.Ok? ==> r.value == ps.temp[ps.cursor]
  {
    Get(ps, ps.cursor)
  }

  /** `read()`: the token at the cursor, then one step on. */
  function Read<V>(ps: PState<V>): (r: Outcome<Parsed<Token<V>, V>>)
    ensures r.Ok? <==> 0 <= ps.cursor < |ps.temp|
    ensures r.Ok? ==> r.value.val == ps.temp[ps.cursor] && r.value.ps == ps.(cursor := ps.cursor + 1)
    ensures r.Ok? ==> Grows(ps, r.value.ps)
  {
    var t :- Get(ps, ps.cursor);
    Ok(Parsed(t, ps.(cursor := ps.cursor + 1)))
  }

  /** `next()`: one step on, then the token there. */
  function Next<V>(ps: PState<V>): (r: Outcome<Parsed<Token<V>, V>>)
    ensures r.Ok? <==> 0 <= ps.cursor + 1 < |ps.temp|
    ensures r.Ok? ==> r.value.val == ps.temp[ps.cursor + 1] && r.value.ps == ps.(cursor := ps.cursor + 1)
    ensures r.Ok? ==> Grows(ps, r.value.ps)
  {
    var ps1 := ps.(cursor := ps.cursor + 1);
    var t :- Get(ps1, ps1.cursor);
    Ok(Parsed(t, ps1))
  }

  /** `skip()`: the token after the cursor, and two steps on. */
  function Skip<V>(ps: PState<V>): (r: Outcome<Parsed<Token<V>, V>>)
    ensures r.Ok? <==> 0 <= ps.cursor + 1 < |ps.temp|
    ensures r.Ok? ==> r.value.val == ps.temp[ps.cursor + 1] && r.value.ps == ps.(cursor := ps.cursor + 2)
    ensures r.Ok? ==> Grows(ps, r.value.ps)
  {
    var t :- Get(ps, ps.cursor + 1);
    Ok(Parsed(t, ps.(cursor := ps.cursor + 2)))
  }

  /** `unread()`: one step back. */
  function Unread<V>(ps: PState<V>): PState<V> { ps.(cursor := ps.cursor - 1) }

  // The messages of `error(s)` and `accept(m, s)`.
  const ILLEGAL_REPETITION := "Illegal repetition"
  const UNCLOSED_COUNTED := "Unclosed counted closure"
  const ILLEGAL_REPETITION_RANGE := "Illegal repetition range"
  const ILLEGAL_CHARACTER_RANGE := "Illegal character range"
  const UNCLOSED_CLASS := "Unclosed character class"
  const BAD_CLASS := "Bad class syntax"
  const SLASH_WITHOUT_P := "SLASH must be followed by LOWER_P or UPPER_P"
  const UNKNOWN_GROUP := "Unknown group type"
  const UNKNOWN_INLINE := "Unknown inline modifier"
  const UNKNOWN_LOOKBEHIND := "Unknown look-behind group"
  const UNCLOSED_GROUP := "Unclosed group"
  const INTERNAL_LOGIC := "Internal logic error"
  const UNMATCHED_CLOSE := "Unmatched closing ')'"
  const UNEXPECTED_INTERNAL := "Unexpected internal error"
  const UNBOUNDED_LOOKBEHIND := "Look-behind group does not have an obvious maximum length"
  function UnexpectedCharacter(k: Marker): string { "Unexpected character '" + Describe(k) + "'" }
  function DanglingMeta(k: Marker): string { "Dangling meta character '" + Describe(k) + "'" }

  /** `error(s)`: a syntax error pointing at the token just read. */
  function Error<V>(ps: PState<V>, s: string): Exc { PatternSyntax(s, ps.cursor - 1) }

  /** `accept(m, s)`: read one token and throw `s` unless it is `m`. */
  function Accept<V>(ps: PState<V>, m: Marker, s: string): (r: Outcome<PState<V>>)
    ensures r.Ok? <==> 0 <= ps.cursor < |ps.temp| && Kind(ps.temp[ps.cursor]) == m
    ensures r.Ok? ==> r.value == ps.(cursor := ps.cursor + 1)
    ensures r.Ok? ==> Grows(ps, r.value)
  {
    var t :- Get(ps, ps.cursor);
    var ps1 := ps.(cursor := ps.cursor + 1);
    if Kind(t) != m then Err(Error(ps1, s)) else Ok(ps1)
  }

  // ---------------------------------------------------------------
  // The arena: `new` appends a node, `x.next = y` rewrites one.

  function Alloc<V>(ps: PState<V>, n: Node<V>): (r: Parsed<Id, V>)
    ensures r.val == |ps.nodes| && r.ps == ps.(nodes := ps.nodes + [n])
    ensures TailIndex(n) == 0 ==> Grows(ps, r.ps)
    ensures IsNode(r.ps.nodes, r.val)
  {
    var r := Parsed(|ps.nodes|, ps.(nodes := ps.nodes + [n]));
    if TailIndex(n) == 0 then AppendKeeps(ps, n); r else r
  }

  function SetNext<V>(ps: PState<V>, id: Id, target: Id): (r: Outcome<PState<V>>)
    ensures r.Ok? <==> IsNode(ps.nodes, id)
    ensures r.Ok? ==> r.value == ps.(nodes := ps.nodes[id := WithNext(ps.nodes[id], target)])
    ensures r.Ok? ==> Grows(ps, r.value) && r.value.cursor == ps.cursor && |r.value.nodes| == |ps.nodes|
  {
    if IsNode(ps.nodes, id) then
      UpdateTails(ps.nodes, id, WithNext(ps.nodes[id], target));
      KeepTails(ps, ps.(nodes := ps.nodes[id := WithNext(ps.nodes[id], target)]));
      Ok(ps.(nodes := ps.nodes[id := WithNext(ps.nodes[id], target)]))
    else Err(NullPointer)
  }

  /** `x.next = y` on a node the compiler has just created. */
  function Link<V>(ps: PState<V>, id: Id, target: Id): (r: PState<V>)
    requires IsNode(ps.nodes, id)
    ensures Grows(ps, r) && r.cursor == ps.cursor && |r.nodes| == |ps.nodes|
    ensures r == ps.(nodes := ps.nodes[id := WithNext(ps.nodes[id], target)])
  {
    UpdateTails(ps.nodes, id, WithNext(ps.nodes[id], target));
    KeepTails(ps, ps.(nodes := ps.nodes[id := WithNext(ps.nodes[id], target)]));
    ps.(nodes := ps.nodes[id := WithNext(ps.nodes[id], target)])
  }

  /** `Branch.add(node)`: one more alternative at the end. */
  function AddAtom<V>(ps: PState<V>, b: Id, node: Id): (r: PState<V>)
    requires IsNode(ps.nodes, b) && ps.nodes[b].BranchN?
    ensures r == ps.(nodes := ps.nodes[b := ps.nodes[b].(atoms := ps.nodes[b].atoms + [node])])
    ensures Grows(ps, r) && r.cursor == ps.cursor && |r.nodes| == |ps.nodes|
  {
    UpdateTails(ps.nodes, b, ps.nodes[b].(atoms := ps.nodes[b].atoms + [node]));
    KeepTails(ps, ps.(nodes := ps.nodes[b := ps.nodes[b].(atoms := ps.nodes[b].atoms + [node])]));
    ps.(nodes := ps.nodes[b := ps.nodes[b].(atoms := ps.nodes[b].atoms + [node])])
  }

  // ---------------------------------------------------------------
  // closure

  /** A quantifier token: `closure` consumes it or throws. */
  predicate QuantifierKind(m: Marker) { m == Question || m == Star || m == Plus || m == OpenBrace }

  /** The node `closure` built around `prev`: a `Ques` that is not an
      independent group, or a `Curly` with `0 <= cmin <= cmax`. */
  ghost predicate IsQuantifier<V>(g: Graph<V>, id: Id, prev: Id)
  {
    IsNode(g, id) && g[id].next == ACCEPT
    && ((g[id].QuesN? && g[id].atom == prev && g[id].mode != Independent)
        || (g[id].CurlyN? && g[id].atom == prev && g[id].mode != Independent
            && 0 <= g[id].cmin <= g[id].cmax))
  }

  /** The optional `?` (lazy) or `+` (possessive) after a quantifier; `t`
      is the token at the cursor. */
  function ModeSuffix<V>(ps: PState<V>, t: Token<V>): (r: Outcome<Parsed<Mode, V>>)
    ensures r.Ok? ==> r.value.val != Independent && Grows(ps, r.value.ps)
    ensures r.Ok? ==> r.value.ps.cursor == ps.cursor + (if r.value.val == Greedy then 0 else 1)
    ensures r.Ok? ==> (r.value.val == Lazy <==> Kind(t) == Question)
    ensures r.Ok? ==> (r.value.val == Possessive <==> Kind(t) == Plus)
  {
    if Kind(t) == Question then
      var n :- Next(ps);
      Ok(Parsed(Lazy, n.ps))
    else if Kind(t) == Plus then
      var n :- Next(ps);
      Ok(Parsed(Possessive, n.ps))
    else Ok(Parsed(Greedy, ps))
  }

  /** The upper bound of `{n}` or `{n,m}` or `{n,}` after `n` and the token
      `ch` following it have been read: the bound and the token after it. */
  function UpperBound<V>(ps: PState<V>, cmin: int, ch: Token<V>): (r: Outcome<Parsed<(int, Token<V>), V>>)
    ensures r.Ok? ==> Grows(ps, r.value.ps) && r.value.ps.cursor >= ps.cursor
    ensures r.Ok? && Kind(ch) != Comma ==> r.value.val.0 == cmin && r.value.ps == ps
    ensures r.Ok? ==> r.value.ps == ps.(cursor := r.value.ps.cursor)
  {
    if Kind(ch) == Comma then
      var c :- Read(ps);
      if Kind(c.val) == Number then
        var cmax :- GetCount(c.val);
        var d :- Read(c.ps);
        Ok(Parsed((cmax, d.val), d.ps))
      else Ok(Parsed((MAX_REPS, c.val), c.ps))
    else Ok(Parsed((cmin, ch), ps))
  }

  /** The counted closure `{...}` at the cursor: `skip()` passes the `{`
      and the count already fetched, then the bounds are read. */
  function Counted<V>(ps: PState<V>, prev: Id): (r: Outcome<Parsed<Id, V>>)
    requires 0 <= ps.cursor < |ps.temp| && Kind(ps.temp[ps.cursor]) == OpenBrace
    ensures r.Ok? ==> Grows(ps, r.value.ps) && r.value.ps.cursor > ps.cursor
    ensures r.Ok? ==> r.value.val == |ps.nodes| && IsQuantifier(r.value.ps.nodes, r.value.val, prev)
  {
    var t1 :- Get(ps, ps.cursor + 1);
    if Kind(t1) == Number then CountedFrom(ps.(cursor := ps.cursor + 2), prev, t1)
    else Err(Error(ps, ILLEGAL_REPETITION))
  }

  /** The counted closure once `{` and its first count `t1` are passed. */
  function CountedFrom<V>(ps: PState<V>, prev: Id, t1: Token<V>): (r: Outcome<Parsed<Id, V>>)
    ensures r.Ok? ==> Grows(ps, r.value.ps) && r.value.ps.cursor > ps.cursor
    ensures r.Ok? ==> r.value.val == |ps.nodes| && IsQuantifier(r.value.ps.nodes, r.value.val, prev)
  {
    var cmin :- GetCount(t1);
    var c :- Read(ps);
    var u :- UpperBound(c.ps, cmin, c.val);
    CountedClose(u.ps, prev, cmin, u.val.0, u.val.1)
  }

  /** The end of a counted closure, with both bounds known and `ch` the
      token read after them. */
  function CountedClose<V>(ps: PState<V>, prev: Id, cmin: int, cmax: int, ch: Token<V>)
    : (r: Outcome<Parsed<Id, V>>)
    ensures r.Ok? ==> Grows(ps, r.value.ps) && r.value.ps.cursor >= ps.cursor
    ensures r.Ok? ==> r.value.val == |ps.nodes| && IsQuantifier(r.value.ps.nodes, r.value.val, prev)
    ensures r.Ok? ==> Kind(ch) == CloseBrace && 0 <= cmin <= cmax
    ensures r.Ok? ==> IsNode(r.value.ps.nodes, r.value.val) && r.value.ps.nodes[r.value.val].CurlyN?
                      && r.value.ps.nodes[r.value.val].cmin == cmin && r.value.ps.nodes[r.value.val].cmax == cmax
  {
    if Kind(ch) != CloseBrace then Err(Error(ps, UNCLOSED_COUNTED))
    // `(cmin | cmax | (cmax - cmin)) < 0` on Java ints: a sign bit is set
    // exactly when one of the three is negative, and `cmax - cmin`
    // cannot wrap once both are non-negative.
    else if cmin < 0 || cmax < 0 || cmax - cmin < 0 then Err(Error(ps, ILLEGAL_REPETITION_RANGE))
    else
      var t :- Peek(ps);
      var m :- ModeSuffix(ps, t);
      Ok(Alloc(m.ps, CurlyN(ACCEPT, prev, m.val, cmin, cmax)))
  }

  /** `closure(prev)`: wraps `prev` in the quantifier at the cursor, if
      there is one; otherwise returns `prev` and reads nothing. */
  function Closure<V>(ps: PState<V>, prev: Id): (r: Outcome<Parsed<Id, V>>)
    ensures r.Ok? ==> Grows(ps, r.value.ps) && r.value.ps.cursor >= ps.cursor
    ensures r.Ok? && (0 <= ps.cursor < |ps.temp| && QuantifierKind(Kind(ps.temp[ps.cursor]))) ==>
              r.value.ps.cursor > ps.cursor && r.value.val == |ps.nodes|
              && IsQuantifier(r.value.ps.nodes, r.value.val, prev)
    ensures r.Ok? && !(0 <= ps.cursor < |ps.temp| && QuantifierKind(Kind(ps.temp[ps.cursor]))) ==>
              r.value.val == prev && r.value.ps == ps
  {
    var t :- Peek(ps);
    var k := Kind(t);
    if k == Question || k == Star || k == Plus then ShortClosure(ps, prev, k)
    else if k == OpenBrace then Counted(ps, prev)
    else Ok(Parsed(prev, ps))
  }

  /** `?`, `*` or `+` (kind `k`, at the cursor) and its mode suffix. */
  function ShortClosure<V>(ps: PState<V>, prev: Id, k: Marker): (r: Outcome<Parsed<Id, V>>)
    requires k == Question || k == Star || k == Plus
    ensures r.Ok? ==> Grows(ps, r.value.ps) && r.value.ps.cursor > ps.cursor
    ensures r.Ok? ==> r.value.val == |ps.nodes| && IsQuantifier(r.value.ps.nodes, r.value.val, prev)
  {
    var n :- Next(ps);
    var m :- ModeSuffix(n.ps, n.val);
    Ok(Alloc(m.ps, if k == Question then QuesN(ACCEPT, prev, m.val)
                   else CurlyN(ACCEPT, prev, m.val, if k == Star then 0 else 1, MAX_REPS)))
  }

  // ---------------------------------------------------------------
  // Character classes

  /** A step along a token already known to exist: `next()` or `read()`
      whose token the caller has fetched before. */
  function Advance<V>(ps: PState<V>, k: nat): (r: PState<V>)
    ensures Grows(ps, r) && r.cursor == ps.cursor + k
  {
    ps.(cursor := ps.cursor + k)
  }

  /** `family()`: the class token after `\p` or `\P` becomes a runtime type
      test; the cursor stands on the `p`. */
  function Family<V(!new)>(ps: PState<V>): (r: Outcome<Parsed<CharPred<V>, V>>)
    ensures r.Ok? ==> Grows(ps, r.value.ps) && r.value.ps.cursor == ps.cursor + 2
    ensures r.Ok? ==> r.value.val.NamedP? && 0 <= ps.cursor + 1 < |ps.temp| && ps.temp[ps.cursor + 1].ClassTok?
  {
    var n :- Next(ps);
    var f :- ClassToMatch(n.val);
    Ok(Parsed(Named(f), Advance(n.ps, 1)))
  }

  /** `single()`: the token at the cursor, and one step on; the new cursor
      is inside the list, since `next()` fetched from it. */
  function SingleTok<V>(ps: PState<V>): (r: Outcome<Parsed<Token<V>, V>>)
    ensures r.Ok? ==> Grows(ps, r.value.ps) && r.value.ps.cursor == ps.cursor + 1
    ensures r.Ok? ==> 0 <= ps.cursor && ps.cursor + 1 < |ps.temp| && r.value.val == ps.temp[ps.cursor]
  {
    var t :- Peek(ps);
    var n :- Next(ps);
    Ok(Parsed(t, n.ps))
  }

  /** `range()`: one member of a class, or a range `a-b`. The check against
      an inverted range compares the markers of the two ends, so two
      literals (both `OTHER`) never trip it. */
  function Range<V(!new)>(ps: PState<V>): (r: Outcome<Parsed<CharPred<V>, V>>)
    ensures r.Ok? ==> Grows(ps, r.value.ps) && r.value.ps.cursor > ps.cursor
  {
    var s :- SingleTok(ps);
    var ch := s.val;
    var ps1 := s.ps;
    if Kind(ch) != EndMarker then
      if Kind(ps1.temp[ps1.cursor]) == Dash then RangeDash(ps1, ch)
      else Ok(Parsed(NewSingle(ch), ps1))
    else Err(Error(ps1, UnexpectedCharacter(Kind(ch))))
  }

  /** `range()` once `ch` is read and a `DASH` is at the cursor: a range
      unless the dash is followed by `[` or `]`. */
  function RangeDash<V(!new)>(ps: PState<V>, ch: Token<V>): (r: Outcome<Parsed<CharPred<V>, V>>)
    ensures r.Ok? ==> Grows(ps, r.value.ps) && r.value.ps.cursor >= ps.cursor
  {
    var e :- Get(ps, ps.cursor + 1);
    if Kind(e) == OpenSquare then Ok(Parsed(NewSingle(ch), ps))
    else if Kind(e) != CloseSquare then
      var m :- SingleTok(Advance(ps, 1));
      if Ordinal(Kind(m.val)) < Ordinal(Kind(ch)) then Err(Error(m.ps, ILLEGAL_CHARACTER_RANGE))
      else Ok(Parsed(RangeFor(ch, m.val), m.ps))
    else Ok(Parsed(NewSingle(ch), ps))
  }

  /** What `clazz` has built so far: nothing, or the class `prev` and the
      most recent operand `node`. */
  datatype ClassAcc<!V> = NoClass | ClassAcc(prev: CharPred<V>, node: CharPred<V>)

  /** `acc` extended by the operand `node` of `range()`: a union, or after a
      leading `^` a set difference (the complement for the first operand). */
  function Combine<V(!new)>(acc: ClassAcc<V>, node: CharPred<V>, incl: bool): (r: ClassAcc<V>)
    ensures r.ClassAcc? && r.node == node
    ensures acc.NoClass? ==> r.prev == (if incl then node else Complement(node))
  {
    if incl then (if acc.NoClass? then ClassAcc(node, node) else ClassAcc(Union(acc.prev, node), node))
    else (if acc.NoClass? then ClassAcc(Complement(node), node)
          else ClassAcc(SetDifference(acc.prev, node), node))
  }

  /** `clazz(consume)`: the class whose `[` is at the cursor; the closing
      `]` is consumed when `consume` holds. */
  function Clazz<V(!new)>(ps: PState<V>, consume: bool): (r: Outcome<Parsed<CharPred<V>, V>>)
    decreases Left(ps), 0
    ensures r.Ok? ==> Grows(ps, r.value.ps) && r.value.ps.cursor >= ps.cursor + 2
  {
    var n :- Next(ps);
    ClazzLoop(n.ps, n.val, NoClass, true, true, consume)
  }

  /** The loop of `clazz`; `ch` is its loop variable, the token at the
      cursor. */
  function ClazzLoop<V(!new)>(ps: PState<V>, ch: Token<V>, acc: ClassAcc<V>, incl: bool,
                               firstInClass: bool, consume: bool): (r: Outcome<Parsed<CharPred<V>, V>>)
    decreases Left(ps), 3
    ensures r.Ok? ==> Grows(ps, r.value.ps)
    ensures r.Ok? ==> r.value.ps.cursor >= ps.cursor + (if acc.NoClass? then 1 else 0)
  {
    var k := Kind(ch);
    if k == Caret then ClazzCaret(ps, acc, incl, firstInClass, consume)
    else if k == OpenSquare then ClazzNested(ps, acc, incl, consume)
    else if k == And then ClazzAmp(ps, acc, incl, consume)
    else if k == EndMarker && ps.cursor >= ps.patternLength then Err(Error(ps, UNCLOSED_CLASS))
    else if k == CloseSquare && acc.ClassAcc? then
      if consume then
        var n :- Next(ps);
        Ok(Parsed(acc.prev, n.ps))
      else Ok(Parsed(acc.prev, ps))
    else ClazzRange(ps, acc, incl, false, consume)
  }

  /** `^` in a class: a negation right after the opening `[`, otherwise a
      literal (which leaves `firstInClass` as it was). */
  function ClazzCaret<V(!new)>(ps: PState<V>, acc: ClassAcc<V>, incl: bool, firstInClass: bool,
                                consume: bool): (r: Outcome<Parsed<CharPred<V>, V>>)
    decreases Left(ps), 2
    ensures r.Ok? ==> Grows(ps, r.value.ps) && r.value.ps.cursor > ps.cursor
  {
    if firstInClass then
      var p :- Get(ps, ps.cursor - 1);
      if Kind(p) != OpenSquare then ClazzRange(ps, acc, incl, firstInClass, consume)
      else
        var n :- Next(ps);
        ClazzLoop(n.ps, n.val, acc, !incl, firstInClass, consume)
    else ClazzRange(ps, acc, incl, firstInClass, consume)
  }

  /** A nested class `[...]` inside a class: united with what came before. */
  function ClazzNested<V(!new)>(ps: PState<V>, acc: ClassAcc<V>, incl: bool, consume: bool)
    : (r: Outcome<Parsed<CharPred<V>, V>>)
    decreases Left(ps), 1
    ensures r.Ok? ==> Grows(ps, r.value.ps) && r.value.ps.cursor >= ps.cursor + 2
  {
    var c :- Clazz(ps, true);
    var acc' := if acc.NoClass? then ClassAcc(c.val, c.val) else ClassAcc(Union(acc.prev, c.val), c.val);
    var t :- Peek(c.ps);
    ClazzLoop(c.ps, t, acc', incl, false, consume)
  }

  /** `&` inside a class: `&&` intersects with the operand after it, a
      single `&` is given back and read as a literal. */
  function ClazzAmp<V(!new)>(ps: PState<V>, acc: ClassAcc<V>, incl: bool, consume: bool)
    : (r: Outcome<Parsed<CharPred<V>, V>>)
    decreases Left(ps), 1
    ensures r.Ok? ==> Grows(ps, r.value.ps) && r.value.ps.cursor > ps.cursor
  {
    var n :- Next(ps);
    if Kind(n.val) == And then ClazzAndAnd(n.ps, acc, incl, consume)
    else ClazzRange(Unread(n.ps), acc, incl, false, consume)
  }

  /** `&&` with the cursor on the second `&`: the right-hand operand, then
      its intersection with the class so far. */
  function ClazzAndAnd<V(!new)>(ps: PState<V>, acc: ClassAcc<V>, incl: bool, consume: bool)
    : (r: Outcome<Parsed<CharPred<V>, V>>)
    decreases Left(ps), 4
    ensures r.Ok? ==> Grows(ps, r.value.ps) && r.value.ps.cursor > ps.cursor
  {
    var n2 :- Next(ps);
    var rn :- ClazzAnd(n2.ps, n2.val, None);
    var ch := rn.val.1;
    match rn.val.0
    case None =>
      if acc.NoClass? then Err(Error(rn.ps, BAD_CLASS))
      else ClazzLoop(rn.ps, ch, ClassAcc(Intersection(acc.prev, acc.node), acc.node), incl, false, consume)
    case Some(right) =>
      var acc' := if acc.NoClass? then ClassAcc(right, right)
                  else ClassAcc(Intersection(acc.prev, right), right);
      ClazzLoop(rn.ps, ch, acc', incl, false, consume)
  }

  /** The tail of the `clazz` loop: `range()` and its combination with what
      was built so far. */
  function ClazzRange<V(!new)>(ps: PState<V>, acc: ClassAcc<V>, incl: bool, firstInClass: bool,
                                consume: bool): (r: Outcome<Parsed<CharPred<V>, V>>)
    decreases Left(ps), 0
    ensures r.Ok? ==> Grows(ps, r.value.ps) && r.value.ps.cursor > ps.cursor
  {
    var n :- Range(ps);
    var t :- Peek(n.ps);
    ClazzLoop(n.ps, t, Combine(acc, n.val, incl), incl, firstInClass, consume)
  }

  /** The right-hand side of `&&`: classes without brackets, up to the
      closing `]` or the next `&`; the last one parsed wins. Returns the
      operand, if any, and the token that stopped the loop. */
  function ClazzAnd<V(!new)>(ps: PState<V>, ch: Token<V>, right: Option<CharPred<V>>)
    : (r: Outcome<Parsed<(Option<CharPred<V>>, Token<V>), V>>)
    decreases Left(ps) + 1, 3
    ensures r.Ok? ==> Grows(ps, r.value.ps) && r.value.ps.cursor >= ps.cursor
    ensures r.Ok? && right.Some? ==> r.value.val.0.Some?
  {
    if Kind(ch) == CloseSquare || Kind(ch) == And then Ok(Parsed((right, ch), ps))
    else
      var c :- Clazz(Unread(ps), false);
      var t :- Peek(c.ps);
      ClazzAnd(c.ps, t, Some(c.val))
  }

  // ---------------------------------------------------------------
  // atom

  /** Markers at which `atom` stops collecting literals, leaving the
      quantifier or construct to its caller. */
  predicate AtomStop(m: Marker)
  {
    m == Star || m == Plus || m == Question || m == OpenBrace || m == Dollar || m == Dot
    || m == Caret || m == OpenBracket || m == OpenSquare || m == Pipe || m == CloseBracket
  }

  /** `newSingle(buffer[0])` for one literal, `newSlice(buffer, n)` for any
      other number. */
  function AtomNode<V(!new)>(ps: PState<V>, buf: seq<Token<V>>): (r: Parsed<Id, V>)
    ensures Grows(ps, r.ps) && r.ps.cursor == ps.cursor && r.val == |ps.nodes|
    ensures |r.ps.nodes| == |ps.nodes| + 1 && r.ps.nodes[..|ps.nodes|] == ps.nodes
    ensures |buf| == 1 ==> r.ps.nodes[r.val].CharPropN? && r.ps.nodes[r.val].pred.SingleP?
    ensures |buf| != 1 ==> r.ps.nodes[r.val].SliceN? && r.ps.nodes[r.val].buf == buf
  {
    if |buf| == 1 then Alloc(ps, CharPropN(ACCEPT, NewSingle(buf[0])))
    else Alloc(ps, SliceN(ACCEPT, buf))
  }

  /** The `SLASH` case of `atom()`'s loop: a `\\p{..}`/`\\P{..}` property ends
      the literal run collected so far, or is itself the atom. */
  function AtomSlash<V(!new)>(ps: PState<V>, buf: seq<Token<V>>): (r: Outcome<Parsed<Id, V>>)
    ensures r.Ok? ==> Grows(ps, r.value.ps) && IsNode(r.value.ps.nodes, r.value.val)
    ensures r.Ok? ==> r.value.ps.cursor >= ps.cursor
    ensures r.Ok? && |buf| == 0 ==> r.value.ps.cursor > ps.cursor
  {
    var n :- Next(ps);
    if Kind(n.val) == LowerP || Kind(n.val) == UpperP then
      if |buf| > 0 then Ok(AtomNode(Unread(n.ps), buf))
      else
        // `next()` passes the `p`; `family()` then steps once more.
        var n2 :- Next(n.ps);
        var f :- Family(n2.ps);
        Ok(Alloc(f.ps, CharPropN(ACCEPT, MaybeComplement(f.val, Kind(n.val) == UpperP))))
    else Err(Error(n.ps, SLASH_WITHOUT_P))
  }

  /** The loop of `atom()`: `ch` is the token at the cursor, `buf` holds
      the literals collected so far (`first` of them) and `prev` the cursor
      at the last one. A quantifier after two or more literals gives the
      last literal back, so that the quantifier applies to it alone. */
  function AtomLoop<V(!new)>(ps: PState<V>, ch: Token<V>, buf: seq<Token<V>>, prev: int)
    : (r: Outcome<Parsed<Id, V>>)
    decreases Left(ps)
    ensures r.Ok? ==> Grows(ps, r.value.ps) && IsNode(r.value.ps.nodes, r.value.val)
    ensures r.Ok? ==> r.value.ps.cursor >= (if |buf| > 1 then Min(prev, ps.cursor) else ps.cursor)
    ensures r.Ok? && |buf| == 0 && !AtomStop(Kind(ch)) && !(Kind(ch) == EndMarker && ps.cursor >= ps.patternLength)
            ==> r.value.ps.cursor > ps.cursor
  {
    var k := Kind(ch);
    if k == Star || k == Plus || k == Question || k == OpenBrace then
      if |buf| > 1 then Ok(AtomNode(ps.(cursor := prev), buf[..|buf| - 1]))
      else Ok(AtomNode(ps, buf))
    else if AtomStop(k) then Ok(AtomNode(ps, buf))
    else if k == Slash then AtomSlash(ps, buf)
    else if k == EndMarker && ps.cursor >= ps.patternLength then Ok(AtomNode(ps, buf))
    else
      var n :- Next(ps);
      AtomLoop(n.ps, n.val, buf + [ch], ps.cursor)
  }

  /** `atom()`: a run of literals as one `Single` or `Slice` node. It reads
      at least one token unless the first one is a stopper. */
  function Atom<V(!new)>(ps: PState<V>): (r: Outcome<Parsed<Id, V>>)
    ensures r.Ok? ==> Grows(ps, r.value.ps) && r.value.ps.cursor >= ps.cursor
    ensures r.Ok? ==> IsNode(r.value.ps.nodes, r.value.val)
    ensures r.Ok? && 0 <= ps.cursor < |ps.temp| && !AtomStop(Kind(ps.temp[ps.cursor]))
            && !(Kind(ps.temp[ps.cursor]) == EndMarker && ps.cursor >= ps.patternLength)
            ==> r.value.ps.cursor > ps.cursor
  {
    var t :- Peek(ps);
    AtomLoop(ps, t, [], -1)
  }

  // ---------------------------------------------------------------
  // sequence, expr, group0

  /** The single-node constructs of `sequence`'s switch, with the token
      kind `k` at the cursor; anything else is an `atom()`. */
  function SeqAtom<V(!new)>(ps: PState<V>, k: Marker): (r: Outcome<Parsed<Id, V>>)
    requires 0 <= ps.cursor < |ps.temp| && k == Kind(ps.temp[ps.cursor])
    requires k != OpenBracket && !SeqEnd(ps, k)
    ensures r.Ok? ==> Grows(ps, r.value.ps) && IsNode(r.value.ps.nodes, r.value.val)
    ensures r.Ok? ==> r.value.ps.cursor > ps.cursor || (k == OpenBrace && r.value.ps.cursor == ps.cursor)
  {
    if k == OpenSquare then
      var c :- Clazz(ps, true);
      Ok(Alloc(c.ps, CharPropN(ACCEPT, c.val)))
    else if k == Slash then SeqFamily(ps)
    else if k == Caret || k == Dollar || k == Dot then
      var n :- Next(ps);
      Ok(Alloc(n.ps, if k == Caret then BeginN(ACCEPT) else if k == Dollar then DollarN(ACCEPT)
                     else CharPropN(ACCEPT, DotClass())))
    else if k == Question || k == Star || k == Plus then
      var n :- Next(ps);
      Err(Error(n.ps, DanglingMeta(k)))
    else Atom(ps)
  }

  /** `\p` or `\P` in a sequence: the family node, complemented for `P`. */
  function SeqFamily<V(!new)>(ps: PState<V>): (r: Outcome<Parsed<Id, V>>)
    ensures r.Ok? ==> Grows(ps, r.value.ps) && IsNode(r.value.ps.nodes, r.value.val)
    ensures r.Ok? ==> r.value.ps.cursor > ps.cursor
  {
    var n :- Next(ps);
    if Kind(n.val) == LowerP || Kind(n.val) == UpperP then
      var f :- Family(n.ps);
      Ok(Alloc(f.ps, CharPropN(ACCEPT, MaybeComplement(f.val, Kind(n.val) == UpperP))))
    else Err(Error(n.ps, SLASH_WITHOUT_P))
  }

  /** Markers that end a sequence without being consumed. */
  predicate SeqEnd<V>(ps: PState<V>, k: Marker)
  {
    k == Pipe || k == CloseBracket || (k == EndMarker && ps.cursor >= ps.patternLength)
  }

  /** The end of `sequence(end)`: an empty sequence is `end` itself,
      otherwise the last node continues to `end`. The second value is the
      tail (`root`), null for an empty sequence. */
  function SeqFinish<V>(ps: PState<V>, end: Id, head: Id, tail: Id): (r: Outcome<Parsed<(Id, Id), V>>)
    ensures r.Ok? ==> Grows(ps, r.value.ps) && r.value.ps.cursor == ps.cursor
    ensures r.Ok? && head == Null ==> r.value.val == (end, Null) && r.value.ps == ps
    ensures r.Ok? && head != Null ==> r.value.val == (head, tail)
  {
    if head == Null then Ok(Parsed((end, Null), ps))
    else
      var ps1 :- SetNext(ps, tail, end);
      Ok(Parsed((head, tail), ps1))
  }

  /** The loop of `sequence(end)`: `head` and `tail` are the chain built so
      far (null while it is empty). */
  function Sequence<V(!new)>(ps: PState<V>, end: Id, head: Id, tail: Id): (r: Outcome<Parsed<(Id, Id), V>>)
    decreases Left(ps), 2
    ensures r.Ok? ==> Grows(ps, r.value.ps) && r.value.ps.cursor >= ps.cursor
  {
    var t :- Peek(ps);
    var k := Kind(t);
    if k == OpenBracket then
      var g :- Group0(ps);
      match g.val
      case None => Sequence(g.ps, end, head, tail)
      case Some(ht) =>
        var ps2 :- Chain(g.ps, head, tail, ht.0);
        Sequence(ps2, end, if head == Null then ht.0 else head, ht.1)
    else if SeqEnd(ps, k) then SeqFinish(ps, end, head, tail)
    else
      var c :- SeqPiece(ps, k);
      var ps2 :- Chain(c.ps, head, tail, c.val);
      Sequence(ps2, end, if head == Null then c.val else head, c.val)
  }

  /** One atom of a sequence and the quantifier after it, if any. */
  function SeqPiece<V(!new)>(ps: PState<V>, k: Marker): (r: Outcome<Parsed<Id, V>>)
    requires 0 <= ps.cursor < |ps.temp| && k == Kind(ps.temp[ps.cursor])
    requires k != OpenBracket && !SeqEnd(ps, k)
    ensures r.Ok? ==> Grows(ps, r.value.ps) && r.value.ps.cursor > ps.cursor
  {
    var a :- SeqAtom(ps, k);
    Closure(a.ps, a.val)
  }

  /** `node` joins the chain `head`..`tail`: it becomes the head of an empty
      chain, and otherwise `tail.next = node`. */
  function Chain<V>(ps: PState<V>, head: Id, tail: Id, node: Id): (r: Outcome<PState<V>>)
    ensures r == if head == Null then Ok(ps) else SetNext(ps, tail, node)
    ensures r.Ok? ==> Grows(ps, r.value) && r.value.cursor == ps.cursor
  {
    if head == Null then Ok(ps) else SetNext(ps, tail, node)
  }

  /** `expr(end)`: the first sequence, then one more alternative per `|`. */
  function Expr<V(!new)>(ps: PState<V>, end: Id): (r: Outcome<Parsed<Id, V>>)
    decreases Left(ps), 5
    ensures r.Ok? ==> Grows(ps, r.value.ps) && r.value.ps.cursor >= ps.cursor
  {
    var s :- Sequence(ps, end, Null, Null);
    ExprMore(s.ps, end, s.val.0, s.val.1, Null)
  }

  /** The `|` loop of `expr`: `prev` is the expression so far and
      `firstTail` the tail of its first alternative; `branchConn` is the
      connector every alternative ends in, created at the first `|`. An
      empty alternative is a null atom; the first `|` wraps `prev` in a new
      `Branch` unless `prev` already is one. */
  function ExprMore<V(!new)>(ps: PState<V>, end: Id, prev: Id, firstTail: Id, branchConn: Id)
    : (r: Outcome<Parsed<Id, V>>)
    decreases Left(ps), 4
    ensures r.Ok? ==> Grows(ps, r.value.ps) && r.value.ps.cursor >= ps.cursor
  {
    var t :- Peek(ps);
    if Kind(t) != Pipe then Ok(Parsed(prev, ps))
    else
      var n :- Next(ps);
      var a :- ExprAlternative(n.ps, end, prev, firstTail, branchConn);
      ExprMore(a.ps, end, a.val.0, firstTail, a.val.1)
  }

  /** One alternative after a `|`: its sequence, then `AddAlternative`. */
  function ExprAlternative<V(!new)>(ps: PState<V>, end: Id, prev: Id, firstTail: Id, branchConn: Id)
    : (r: Outcome<Parsed<(Id, Id), V>>)
    decreases Left(ps), 3
    ensures r.Ok? ==> Grows(ps, r.value.ps) && r.value.ps.cursor >= ps.cursor
  {
    var s :- Sequence(ps, end, Null, Null);
    AddAlternative(s.ps, end, prev, firstTail, branchConn, s.val.0, s.val.1)
  }

  /** The alternative `node` (with tail `nodeTail`) is hooked to the
      shared `BranchConn`, created at the first `|`, and joins the branch;
      an empty alternative (`node == end`) joins as `null`. */
  function AddAlternative<V>(ps: PState<V>, end: Id, prev: Id, firstTail: Id, branchConn: Id, node: Id, nodeTail: Id)
    : (r: Outcome<Parsed<(Id, Id), V>>)
    ensures r.Ok? ==> Grows(ps, r.value.ps) && r.value.ps.cursor == ps.cursor
    ensures r.Ok? ==> r.value.val.1 == if branchConn == Null then |ps.nodes| else branchConn
  {
    var b := if branchConn == Null then Alloc(ps, BranchConnN(end)) else Parsed(branchConn, ps);
    var ps2 :- if node == end then Ok(b.ps) else SetNext(b.ps, nodeTail, b.val);
    JoinBranch(ps2, end, prev, firstTail, b.val, if node == end then Null else node)
  }

  /** `atom` joins the `Branch` `prev`, or a new `Branch` is created from
      `prev` (`null` when it is `end`), whose first tail is redirected to
      the `BranchConn` `bc`, and `atom`. The value is the `Branch` and
      `bc`; `atom` is the branch's last alternative. */
  function JoinBranch<V>(ps: PState<V>, end: Id, prev: Id, firstTail: Id, bc: Id, atom: Id)
    : (r: Outcome<Parsed<(Id, Id), V>>)
    ensures r.Ok? ==> Grows(ps, r.value.ps) && r.value.ps.cursor == ps.cursor && r.value.val.1 == bc
    ensures r.Ok? ==> IsNode(r.value.ps.nodes, r.value.val.0) && r.value.ps.nodes[r.value.val.0].BranchN?
    ensures r.Ok? ==> var atoms := r.value.ps.nodes[r.value.val.0].atoms;
                      |atoms| >= 1 && atoms[|atoms| - 1] == atom
  {
    if IsNode(ps.nodes, prev) && ps.nodes[prev].BranchN? then
      Ok(Parsed((prev, bc), AddAtom(ps, prev, atom)))
    else
      var ps3 :- if prev == end then Ok(ps) else SetNext(ps, firstTail, bc);
      var br := Alloc(ps3, BranchN(ACCEPT, [if prev == end then Null else prev, atom], bc));
      Ok(Parsed((br.val, bc), br.ps))
  }

  /** `createGroup(anonymous)`: a `GroupHead` and a `GroupTail` sharing a
      fresh local slot; a capturing group also takes the next group
      number, which the tail keeps doubled (the index of the group's start
      in `groups`). */
  function CreateGroup<V>(ps: PState<V>, anonymous: bool): (r: Parsed<(Id, Id), V>)
    ensures Grows(ps, r.ps) && r.ps.cursor == ps.cursor
    ensures r.ps.localCount == ps.localCount + 1
    ensures r.ps.capturingGroupCount == ps.capturingGroupCount + (if anonymous then 0 else 1)
    ensures r.val == (|ps.nodes|, |ps.nodes| + 1) && |r.ps.nodes| == |ps.nodes| + 2
    ensures r.ps.nodes[..|ps.nodes|] == ps.nodes
    ensures r.ps.nodes[r.val.0] == GroupHeadN(ACCEPT, ps.localCount)
    ensures r.ps.nodes[r.val.1] == GroupTailN(ACCEPT, ps.localCount,
                                              if anonymous then 0 else 2 * ps.capturingGroupCount)
  {
    var localIndex := ps.localCount;
    var groupIndex := if anonymous then 0 else ps.capturingGroupCount;
    var ps1 := ps.(localCount := ps.localCount + 1,
                   capturingGroupCount := if anonymous then ps.capturingGroupCount
                                          else ps.capturingGroupCount + 1);
    var h := Alloc(ps1, GroupHeadN(ACCEPT, localIndex));
    var t := Alloc(h.ps, GroupTailN(ACCEPT, localIndex, groupIndex + groupIndex));
    GroupCaptures(ps, t.ps, GroupHeadN(ACCEPT, localIndex), GroupTailN(ACCEPT, localIndex, groupIndex + groupIndex),
                  anonymous);
    Parsed((h.val, t.val), t.ps)
  }

  /** A group's head and tail around its parsed body: `createGroup`, then
      `head.next = expr(tail)`. */
  function GroupBody<V(!new)>(ps: PState<V>, anonymous: bool): (r: Outcome<Parsed<(Id, Id), V>>)
    decreases Left(ps), 6
    ensures r.Ok? ==> Grows(ps, r.value.ps) && r.value.ps.cursor >= ps.cursor
    ensures r.Ok? ==> r.value.val == (|ps.nodes|, |ps.nodes| + 1)
    ensures r.Ok? ==> r.value.ps.localCount >= ps.localCount + 1
  {
    var g := CreateGroup(ps, anonymous);
    var e :- Expr(g.ps, g.val.1);
    Ok(Parsed(g.val, Link(e.ps, g.val.0, e.val)))
  }

  /** `group0()` from the `(` at the cursor: the group's head and tail, or
      none for a bare `(?)`. */
  function Group0<V(!new)>(ps: PState<V>): (r: Outcome<Parsed<Option<(Id, Id)>, V>>)
    decreases Left(ps), 1
    ensures r.Ok? ==> Grows(ps, r.value.ps) && r.value.ps.cursor > ps.cursor
  {
    var n :- Next(ps);
    if Kind(n.val) == Question then
      var s :- Skip(n.ps);
      GroupSpecial(s.ps, Kind(s.val))
    else
      var b :- GroupBody(n.ps, false);
      GroupClose(b.ps, b.val.0, b.val.1, true)
  }

  /** The groups that start with `(?`, by the marker `k` after the `?`. */
  function GroupSpecial<V(!new)>(ps: PState<V>, k: Marker): (r: Outcome<Parsed<Option<(Id, Id)>, V>>)
    decreases Left(ps), 9
    ensures r.Ok? ==> Grows(ps, r.value.ps) && r.value.ps.cursor >= ps.cursor
  {
    if k == Colon || k == Equals || k == Bang || k == GreaterThan || k == LessThan then GroupAround(ps, k)
    else if k == Dollar || k == At then Err(Error(ps, UNKNOWN_GROUP))
    // `unread(); read()` fetches the same token again, so a `:` cannot
    // reach this branch.
    else if k == CloseBracket then Ok(Parsed(None, ps))
    else Err(Error(ps, UNKNOWN_INLINE))
  }

  /** The groups with a body: non-capturing `(?:`, the look-arounds and
      the independent group `(?>`. */
  function GroupAround<V(!new)>(ps: PState<V>, k: Marker): (r: Outcome<Parsed<Option<(Id, Id)>, V>>)
    requires k == Colon || k == Equals || k == Bang || k == GreaterThan || k == LessThan
    decreases Left(ps), 8
    ensures r.Ok? ==> Grows(ps, r.value.ps) && r.value.ps.cursor >= ps.cursor
  {
    if k == LessThan then
      var c :- Read(ps);
      var b :- GroupBody(c.ps, true);
      Lookbehind(b.ps, b.val.0, b.val.1, Kind(c.val))
    else GroupAhead(ps, k)
  }

  /** `(?:`, `(?=`, `(?!` and `(?>`, whose body starts at the cursor. */
  function GroupAhead<V(!new)>(ps: PState<V>, k: Marker): (r: Outcome<Parsed<Option<(Id, Id)>, V>>)
    requires k == Colon || k == Equals || k == Bang || k == GreaterThan
    decreases Left(ps), 7
    ensures r.Ok? ==> Grows(ps, r.value.ps) && r.value.ps.cursor >= ps.cursor
  {
    var b :- GroupBody(ps, true);
    if k == Colon then GroupClose(b.ps, b.val.0, b.val.1, false)
    else if k == GreaterThan then WrappedClose(b.ps, QuesN(ACCEPT, b.val.0, Independent))
    else WrappedClose(b.ps, if k == Equals then PosN(ACCEPT, b.val.0) else NegN(ACCEPT, b.val.0))
  }

  /** A group whose body is wrapped in one new node (a look-ahead or an
      independent group): that node is both head and tail of the closed
      group. */
  function WrappedClose<V>(ps: PState<V>, n: Node<V>): (r: Outcome<Parsed<Option<(Id, Id)>, V>>)
    requires !n.GroupTailN?
    ensures r.Ok? ==> Grows(ps, r.value.ps) && r.value.ps.cursor > ps.cursor
  {
    var a := Alloc(ps, n);
    GroupClose(a.ps, a.val, a.val, false)
  }

  /** `(?<=...)` and `(?<!...)`: the body ends in `lookbehindEnd` and must
      have a known maximum length, which with the minimum bounds the
      search. `m` is the marker after `<`. */
  function Lookbehind<V(!new)>(ps: PState<V>, head: Id, tail: Id, m: Marker)
    : (r: Outcome<Parsed<Option<(Id, Id)>, V>>)
    ensures r.Ok? ==> Grows(ps, r.value.ps) && r.value.ps.cursor > ps.cursor
    ensures r.Ok? ==> (m == Equals || m == Bang)
                      && StudyNode(WithTail(ps.nodes, tail), head, Fresh, ps.depth).Ok?
                      && StudyNode(WithTail(ps.nodes, tail), head, Fresh, ps.depth).value.info.maxValid
  {
    var ps1 :- SetNext(ps, tail, LOOKBEHIND_END);
    LookbehindStudied(ps1, head, m)
  }

  /** A look-behind once its tail leads to `lookbehindEnd`: the body must
      have a bounded length. */
  function LookbehindStudied<V(!new)>(ps: PState<V>, head: Id, m: Marker)
    : (r: Outcome<Parsed<Option<(Id, Id)>, V>>)
    ensures r.Ok? ==> Grows(ps, r.value.ps) && r.value.ps.cursor > ps.cursor
    ensures r.Ok? ==> (m == Equals || m == Bang)
                      && StudyNode(ps.nodes, head, Fresh, ps.depth).Ok?
                      && StudyNode(ps.nodes, head, Fresh, ps.depth).value.info.maxValid
  {
    var info :- StudyHead(ps, head);
    if !info.maxValid then Err(Error(ps, UNBOUNDED_LOOKBEHIND))
    else LookbehindNode(ps, head, info, m)
  }

  /** `head.study(new TreeInfo())`: what a fresh `TreeInfo` holds afterwards. */
  function StudyHead<V(!new)>(ps: PState<V>, head: Id): (r: Outcome<Info>)
    ensures r.Ok? <==> StudyNode(ps.nodes, head, Fresh, ps.depth).Ok?
    ensures r.Ok? ==> r.value == StudyNode(ps.nodes, head, Fresh, ps.depth).value.info
  {
    var s :- StudyNode(ps.nodes, head, Fresh, ps.depth);
    Ok(s.info)
  }

  /** The `Behind` or `NotBehind` node over a studied body. */
  function LookbehindNode<V>(ps: PState<V>, head: Id, info: Info, m: Marker)
    : (r: Outcome<Parsed<Option<(Id, Id)>, V>>)
    ensures r.Ok? ==> Grows(ps, r.value.ps) && r.value.ps.cursor > ps.cursor && (m == Equals || m == Bang)
  {
    if m == Equals then
      var a := Alloc(ps, BehindN(ACCEPT, head, info.maxLength, info.minLength));
      GroupClose(a.ps, a.val, a.val, false)
    else if m == Bang then
      var a := Alloc(ps, NotBehindN(ACCEPT, head, info.maxLength, info.minLength));
      GroupClose(a.ps, a.val, a.val, false)
    else Err(Error(ps, UNKNOWN_LOOKBEHIND))
  }

  /** The arena after `tail.next = lookbehindEnd` (unchanged for a null
      tail). */
  function WithTail<V>(g: Graph<V>, tail: Id): Graph<V>
  {
    if IsNode(g, tail) then g[tail := WithNext(g[tail], LOOKBEHIND_END)] else g
  }

  /** The end of `group0`: the closing `)`, then a quantifier on the whole
      group. `?` becomes a `Branch` between the group and nothing; a
      counted or starred group becomes a `GroupCurly` when `study` finds
      it deterministic and a `Prolog`/`Loop` pair (with one more local
      slot, for the iteration count) otherwise; possessive quantifiers and
      quantified zero-length assertions stay as `closure` built them. */
  function GroupClose<V>(ps: PState<V>, head: Id, tail: Id, capturing: bool)
    : (r: Outcome<Parsed<Option<(Id, Id)>, V>>)
    ensures r.Ok? ==> Grows(ps, r.value.ps) && r.value.ps.cursor > ps.cursor && r.value.val.Some?
  {
    var ps1 :- Accept(ps, CloseBracket, UNCLOSED_GROUP);
    var c :- Closure(ps1, head);
    var node := c.val;
    var ps2 := c.ps;
    if node == head then Ok(Parsed(Some((head, tail)), ps2))
    else if head == tail then Ok(Parsed(Some((node, node)), ps2))
    else
      var q := ps2.nodes[node];
      if q.QuesN? then
        if q.mode == Possessive then Ok(Parsed(Some((node, node)), ps2))
        else QuesGroup(ps2, q.mode, head, tail)
      else if q.CurlyN? then
        if q.mode == Possessive then Ok(Parsed(Some((node, node)), ps2))
        else CurlyGroup(ps2, q.mode, q.cmin, q.cmax, head, tail, capturing)
      else Err(Error(ps2, INTERNAL_LOGIC))
  }

  /** A group under a greedy or lazy `?`: a `Branch` choosing between the
      group and nothing, in the order the mode prefers. */
  function QuesGroup<V>(ps: PState<V>, mode: Mode, head: Id, tail: Id)
    : (r: Outcome<Parsed<Option<(Id, Id)>, V>>)
    ensures r.Ok? ==> Grows(ps, r.value.ps) && r.value.ps.cursor == ps.cursor && r.value.val.Some?
    ensures r.Ok? && IsNode(ps.nodes, tail) ==>
              var b := |ps.nodes|; var g := r.value.ps.nodes;
              |g| == b + 2 && r.value.val == Some((b + 1, b))
              && g[b] == BranchConnN(ACCEPT) && g[tail].next == b
              && g[b + 1] == BranchN(ACCEPT, if mode == Greedy then [head, Null] else [Null, head], b)
  {
    var bc := Alloc(ps, BranchConnN(ACCEPT));
    var ps3 :- SetNext(bc.ps, tail, bc.val);
    var br := Alloc(ps3, BranchN(ACCEPT, if mode == Greedy then [head, Null] else [Null, head], bc.val));
    Ok(Parsed(Some((br.val, bc.val)), br.ps))
  }

  /** A group under a greedy or lazy counted closure: a `GroupCurly` when
      the group is deterministic, a `Prolog` and `Loop` otherwise. */
  function CurlyGroup<V>(ps: PState<V>, mode: Mode, cmin: int, cmax: int, head: Id, tail: Id, capturing: bool)
    : (r: Outcome<Parsed<Option<(Id, Id)>, V>>)
    ensures r.Ok? ==> Grows(ps, r.value.ps) && r.value.ps.cursor == ps.cursor && r.value.val.Some?
    ensures r.Ok? && IsNode(ps.nodes, tail) ==>
              var b := |ps.nodes|; var g := r.value.ps.nodes;
              IsNode(ps.nodes, head) && StudyNode(ps.nodes, head, Fresh, ps.depth).Ok?
              && (StudyNode(ps.nodes, head, Fresh, ps.depth).value.ret ==>
                    ps.nodes[tail].GroupTailN? && |g| == b + 1 && r.value.val == Some((b, b))
                    && g[b] == GroupCurlyN(ACCEPT, ps.nodes[head].next, mode, cmin, cmax,
                                           ps.nodes[tail].localIndex, ps.nodes[tail].groupIndex, capturing))
              && (!StudyNode(ps.nodes, head, Fresh, ps.depth).value.ret ==>
                    ps.nodes[head].GroupHeadN? && |g| == b + 2 && r.value.val == Some((b + 1, b))
                    && r.value.ps.localCount == ps.localCount + 1
                    && g[b] == LoopN(ACCEPT, head, ps.localCount, ps.nodes[head].localIndex, cmin, cmax, mode != Greedy)
                    && g[b + 1] == PrologN(ACCEPT, b) && g[tail].next == b)
  {
    var s :- StudyNode(ps.nodes, head, Fresh, ps.depth);
    var h := ps.nodes[head];
    if s.ret then
      var t :- Deref(ps.nodes, tail);
      if !t.GroupTailN? then Err(ClassCast)
      else
        var gc := Alloc(ps, GroupCurlyN(ACCEPT, h.next, mode, cmin, cmax, t.localIndex, t.groupIndex, capturing));
        Ok(Parsed(Some((gc.val, gc.val)), gc.ps))
    else
      if !h.GroupHeadN? then Err(ClassCast)
      else
        var loop := Alloc(ps, LoopN(ACCEPT, head, ps.localCount, h.localIndex, cmin, cmax, mode != Greedy));
        var prolog := Alloc(loop.ps, PrologN(ACCEPT, loop.val));
        var ps3 := prolog.ps.(localCount := prolog.ps.localCount + 1);
        var ps4 :- SetNext(ps3, tail, loop.val);
        Ok(Parsed(Some((prolog.val, loop.val)), ps4))
  }

  // ---------------------------------------------------------------
  // doCompile

  /** `new Start(node)`: studies `node` from a reset for its minimum. */
  function StartNode<V>(ps: PState<V>, node: Id): (r: Outcome<Parsed<Id, V>>)
    ensures r.Ok? ==> Grows(ps, r.value.ps) && r.value.ps.cursor == ps.cursor
    ensures r.Ok? ==> r.value.val == |ps.nodes| && IsNode(r.value.ps.nodes, r.value.val)
                      && r.value.ps.nodes[r.value.val].StartN?
                      && r.value.ps.nodes[r.value.val].next == node
  {
    var s :- StudyNode(ps.nodes, node, Fresh, ps.depth);
    Ok(Alloc(ps, StartN(node, s.info.minLength)))
  }

  /** `doCompile()` once the token list is in place: parse an expression
      ending in `lastAccept`, insist that it used up the pattern, and put a
      `Start` in front unless it begins with `^`. The value is the pair
      (`root`, `matchRoot`). */
  function DoCompile<V(!new)>(ps: PState<V>): (r: Outcome<Parsed<(Id, Id), V>>)
    ensures r.Ok? ==> Grows(ps, r.value.ps) && r.value.ps.cursor == ps.patternLength
  {
    var e :- Expr(ps, LAST_ACCEPT);
    if e.ps.patternLength != e.ps.cursor then
      var t :- Peek(e.ps);
      if Kind(t) == CloseBracket then Err(Error(e.ps, UNMATCHED_CLOSE))
      else Err(Error(e.ps, UNEXPECTED_INTERNAL))
    else if IsNode(e.ps.nodes, e.val) && (e.ps.nodes[e.val].BeginN? || e.ps.nodes[e.val].FirstN?) then
      Ok(Parsed((e.val, e.val), e.ps))
    else
      var st :- StartNode(e.ps, e.val);
      Ok(Parsed((st.val, e.val), st.ps))
  }
}
