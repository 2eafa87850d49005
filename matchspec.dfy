/** What `Node.match(matcher, i, seq)` computes, node kind by node kind, as
    functions over the matcher state. A call either throws or returns the
    boolean answer together with the matcher state it leaves behind. The
    state after an exception is not described: the exception leaves the
    matcher altogether. */
module MatchSpec {
  import opened Base
  import opened Tokens
  import opened CharClass
  import opened Nodes

  /** `Matcher.acceptMode` values. */
  const NOANCHOR: int := 0
  const ENDANCHOR: int := 1

  /** The matcher fields the nodes read and write. `text` is the input list
      the nodes receive as `seq`; its length is `getTextLength()`. */
  datatype MState<V> = MState(
    groups: seq<int>, locals: seq<int>,
    from: int, to: int, first: int, last: int, oldLast: int, lookbehindTo: int,
    hitEnd: bool, requireEnd: bool,
    anchoringBounds: bool, transparentBounds: bool, acceptMode: int,
    text: seq<Item<V>>)

  /** The boolean a `match` call returns and the state it returns in. */
  datatype Res<V> = Res(matched: bool, st: MState<V>)

  type Out<V> = Outcome<Res<V>>

  /** What every normal return leaves as it found it: the array sizes, the
      input, the region and the look-behind bound. Lookarounds change
      `from`, `to` and `lookbehindTo` only for the duration of their
      condition. */
  ghost predicate Preserved<V>(a: MState<V>, b: MState<V>)
  {
    |a.groups| == |b.groups| && |a.locals| == |b.locals| && a.text == b.text
    && a.from == b.from && a.to == b.to && a.lookbehindTo == b.lookbehindTo
    && a.oldLast == b.oldLast && a.anchoringBounds == b.anchoringBounds
    && a.transparentBounds == b.transparentBounds && a.acceptMode == b.acceptMode
  }

  ghost predicate Keeps<V>(st: MState<V>, r: Out<V>) { r.Ok? ==> Preserved(st, r.value.st) }

  // ---- array and list access with Java's bounds checks ----

  function GetG<V>(st: MState<V>, k: int): (r: Outcome<int>)
    ensures r.Ok? <==> 0 <= k < |st.groups|
    ensures r.Ok? ==> r.value == st.groups[k]
  {
    if 0 <= k < |st.groups| then Ok(st.groups[k]) else Err(IndexOutOfBounds(k))
  }

  function GetL<V>(st: MState<V>, k: int): (r: Outcome<int>)
    ensures r.Ok? <==> 0 <= k < |st.locals|
    ensures r.Ok? ==> r.value == st.locals[k]
  {
    if 0 <= k < |st.locals| then Ok(st.locals[k]) else Err(IndexOutOfBounds(k))
  }

  function SetG<V>(st: MState<V>, k: int, v: int): (r: Outcome<MState<V>>)
    ensures r.Ok? <==> 0 <= k < |st.groups|
    ensures r.Ok? ==> r.value == st.(groups := st.groups[k := v])
  {
    if 0 <= k < |st.groups| then Ok(st.(groups := st.groups[k := v])) else Err(IndexOutOfBounds(k))
  }

  /** `groups[k]` when `capture`, 0 otherwise. */
  function GetGIf<V>(capture: bool, st: MState<V>, k: int): (r: Outcome<int>)
    ensures !capture ==> r == Ok(0)
    ensures capture ==> r == GetG(st, k)
  {
    if capture then GetG(st, k) else Ok(0)
  }

  /** Stores at an index already read, which can no longer fail. */
  function PutG<V>(st: MState<V>, k: int, v: int): MState<V>
    requires 0 <= k < |st.groups|
  {
    st.(groups := st.groups[k := v])
  }

  function PutL<V>(st: MState<V>, k: int, v: int): MState<V>
    requires 0 <= k < |st.locals|
  {
    st.(locals := st.locals[k := v])
  }

  function PutGIf<V>(capture: bool, st: MState<V>, k: int, v: int): MState<V>
    requires capture ==> 0 <= k < |st.groups|
  {
    if capture then PutG(st, k, v) else st
  }

  /** `seq.get(k)`. */
  function ItemAt<V>(st: MState<V>, k: int): (r: Outcome<Item<V>>)
    ensures r.Ok? <==> 0 <= k < |st.text|
    ensures r.Ok? ==> r.value == st.text[k]
  {
    if 0 <= k < |st.text| then Ok(st.text[k]) else Err(IndexOutOfBounds(k))
  }

  // ---- dispatch ----

  /** The node kinds the matcher dispatches in its first half: anchors,
      accepting nodes, single-step nodes and `Ques`. */
  predicate SimpleKind<V>(n: Node<V>)
  {
    n.AcceptN? || n.LastAcceptN? || n.LookbehindEndN? || n.StartN? || n.BeginN? || n.EndN?
    || n.CaretN? || n.LastMatchN? || n.DollarN? || n.CharPropN? || n.SliceN? || n.BranchConnN?
    || n.QuesN?
  }

  /** `node.match(matcher, i, seq)` for the node with id `id`; `fuel` bounds
      the depth of nested calls and its exhaustion is a stack overflow. */
  function Eval<V>(g: Graph<V>, id: Id, st: MState<V>, i: int, fuel: nat): (r: Out<V>)
    decreases fuel, 0
    ensures Keeps(st, r)
  {
    if fuel == 0 then Err(StackOverflow)
    else if !IsNode(g, id) then Err(NullPointer)
    else
      var n := g[id];
      var f := fuel - 1;
      match n
      case AcceptN(_) => MatchAccept(st, i)
      case LastAcceptN(_) => MatchLastAccept(st, i)
      case LookbehindEndN(_) => Ok(Res(i == st.lookbehindTo, st))
      case StartN(_, _) => MatchStart(g, n, st, i, f)
      case BeginN(_) => MatchBegin(g, n, st, i, f)
      case EndN(_) => MatchEnd(g, n, st, i, f)
      case CaretN(_) => MatchCaret(g, n, st, i, f)
      case LastMatchN(_) => MatchLastMatch(g, n, st, i, f)
      case DollarN(_) => MatchDollar(g, n, st, i, f)
      case CharPropN(_, _) => MatchCharProp(g, n, st, i, f)
      case SliceN(_, _) => MatchSlice(g, n, st, i, f)
      case QuesN(_, _, _) => MatchQues(g, n, st, i, f)
      case CurlyN(_, _, _, _, _) => MatchCurly(g, n, st, i, f)
      case GroupCurlyN(_, _, _, _, _, _, _, _) => MatchGroupCurly(g, n, st, i, f)
      case BranchConnN(_) => Eval(g, n.next, st, i, f)
      case BranchN(_, _, _) => MatchBranch(g, n, st, i, f)
      case GroupHeadN(_, _) => MatchGroupHead(g, n, st, i, f)
      case GroupRefN(_, _) => MatchGroupRef(g, n, st, i, f)
      case GroupTailN(_, _, _) => MatchGroupTail(g, n, st, i, f)
      case PrologN(_, _) => MatchProlog(g, n, st, i, f)
      case LoopN(_, _, _, _, _, _, _) => MatchLoop(g, n, st, i, f)
      case BackRefN(_, _) => MatchBackRef(g, n, st, i, f)
      case FirstN(_, _) => MatchFirst(g, n, st, i, f)
      case ConditionalN(_, _, _, _) => MatchConditional(g, n, st, i, f)
      case PosN(_, _) => MatchPos(g, n, st, i, f)
      case NegN(_, _) => MatchNeg(g, n, st, i, f)
      case BehindN(_, _, _, _) => MatchBehind(g, n, st, i, f)
      case NotBehindN(_, _, _, _) => MatchNotBehind(g, n, st, i, f)
  }

  // ---- accepting nodes and anchors ----

  /** `accept`: record the match end and the bounds of group 0. */
  function MatchAccept<V>(st: MState<V>, i: int): (r: Out<V>)
    ensures Keeps(st, r)
  {
    var s1 := st.(last := i);
    var s2 :- SetG(s1, 0, s1.first);
    var s3 :- SetG(s2, 1, s2.last);
    Ok(Res(true, s3))
  }

  /** `lastAccept`: as `accept`, but under `ENDANCHOR` only at `to`. */
  function MatchLastAccept<V>(st: MState<V>, i: int): (r: Out<V>)
    ensures Keeps(st, r)
  {
    if st.acceptMode == ENDANCHOR && i != st.to then Ok(Res(false, st))
    else MatchAccept(st, i)
  }

  /** `Start`: try the continuation at every position up to `to - minLength`. */
  function MatchStart<V>(g: Graph<V>, n: Node<V>, st: MState<V>, i: int, f: nat): (r: Out<V>)
    requires n.StartN?
    decreases f, 2
    ensures Keeps(st, r)
  {
    var guard := st.to - n.minLength;
    if i > guard then Ok(Res(false, st.(hitEnd := true)))
    else StartLoop(g, n, st, i, guard, f)
  }

  /** The `for (; i <= guard; i++)` loop of `Start` from position `i` on. */
  function StartLoop<V>(g: Graph<V>, n: Node<V>, st: MState<V>, i: int, guard: int, f: nat): (r: Out<V>)
    requires n.StartN?
    decreases f, 1, guard - i + 1
    ensures Keeps(st, r)
  {
    if i > guard then Ok(Res(false, st))
    else
      var a :- Eval(g, n.next, st, i, f);
      if a.matched then
        var s1 := a.st.(first := i);
        var s2 :- SetG(s1, 0, s1.first);
        var s3 :- SetG(s2, 1, s2.last);
        Ok(Res(true, s3))
      else
        StartLoop(g, n, if i == guard then a.st.(hitEnd := true) else a.st, i + 1, guard, f)
  }

  /** `Begin`: only at the start of the (anchoring) region. */
  function MatchBegin<V>(g: Graph<V>, n: Node<V>, st: MState<V>, i: int, f: nat): (r: Out<V>)
    requires n.BeginN?
    decreases f, 1
    ensures Keeps(st, r)
  {
    var fromIndex := if st.anchoringBounds then st.from else 0;
    if i == fromIndex then
      var a :- Eval(g, n.next, st, i, f);
      if a.matched then
        var s1 := a.st.(first := i);
        var s2 :- SetG(s1, 0, i);
        var s3 :- SetG(s2, 1, s2.last);
        Ok(Res(true, s3))
      else Ok(a)
    else Ok(Res(false, st))
  }

  /** `End`: only at the end of the (anchoring) region; sets `hitEnd`. */
  function MatchEnd<V>(g: Graph<V>, n: Node<V>, st: MState<V>, i: int, f: nat): (r: Out<V>)
    requires n.EndN?
    decreases f, 1
    ensures Keeps(st, r)
  {
    var endIndex := if st.anchoringBounds then st.to else |st.text|;
    if i == endIndex then Eval(g, n.next, st.(hitEnd := true), i, f)
    else Ok(Res(false, st))
  }

  /** `Caret`: at the region start or right after a newline marker, never at
      the region end. */
  function MatchCaret<V>(g: Graph<V>, n: Node<V>, st: MState<V>, i: int, f: nat): (r: Out<V>)
    requires n.CaretN?
    decreases f, 1
    ensures Keeps(st, r)
  {
    var startIndex := if st.anchoringBounds then st.from else 0;
    var endIndex := if st.anchoringBounds then st.to else |st.text|;
    if i == endIndex then Ok(Res(false, st.(hitEnd := true)))
    else if i > startIndex then
      var x :- ItemAt(st, i - 1);
      if !IsNewLine(x) then Ok(Res(false, st)) else Eval(g, n.next, st, i, f)
    else Eval(g, n.next, st, i, f)
  }

  /** `LastMatch` (`\G`): only where the previous match ended. */
  function MatchLastMatch<V>(g: Graph<V>, n: Node<V>, st: MState<V>, i: int, f: nat): (r: Out<V>)
    requires n.LastMatchN?
    decreases f, 1
    ensures Keeps(st, r)
  {
    if i != st.oldLast then Ok(Res(false, st)) else Eval(g, n.next, st, i, f)
  }

  /** `Dollar`: at the end, or before a newline marker within the last two
      positions; sets `hitEnd` and `requireEnd` when it matches. Java reads
      `seq.get(i)` a second time when `i == endIndex - 2`; both reads see the
      same element, so one read stands for them. */
  function MatchDollar<V>(g: Graph<V>, n: Node<V>, st: MState<V>, i: int, f: nat): (r: Out<V>)
    requires n.DollarN?
    decreases f, 1
    ensures Keeps(st, r)
  {
    var endIndex := if st.anchoringBounds then st.to else |st.text|;
    if i < endIndex - 2 then Ok(Res(false, st))
    else if i < endIndex then
      var x :- ItemAt(st, i);
      if !IsNewLine(x) then Ok(Res(false, st))
      else Eval(g, n.next, st.(hitEnd := true, requireEnd := true), i, f)
    else Eval(g, n.next, st.(hitEnd := true, requireEnd := true), i, f)
  }

  // ---- single elements and literal runs ----

  /** `CharProperty`: one element before `to` that satisfies the predicate. */
  function MatchCharProp<V>(g: Graph<V>, n: Node<V>, st: MState<V>, i: int, f: nat): (r: Out<V>)
    requires n.CharPropN?
    decreases f, 1
    ensures Keeps(st, r)
  {
    if i < st.to then
      var x :- ItemAt(st, i);
      var b :- Satisfies(n.pred, x);
      if b then Eval(g, n.next, st, i + 1, f) else Ok(Res(false, st))
    else Ok(Res(false, st.(hitEnd := true)))
  }

  /** `Slice`: the buffered literals against consecutive elements. */
  function MatchSlice<V>(g: Graph<V>, n: Node<V>, st: MState<V>, i: int, f: nat): (r: Out<V>)
    requires n.SliceN?
    decreases f, 2
    ensures Keeps(st, r)
  {
    SliceLoop(g, n, st, i, 0, f)
  }

  /** The `for (j ...)` loop of `Slice` from index `j` of the buffer on. */
  function SliceLoop<V>(g: Graph<V>, n: Node<V>, st: MState<V>, i: int, j: nat, f: nat): (r: Out<V>)
    requires n.SliceN?
    decreases f, 1, |n.buf| - j
    ensures Keeps(st, r)
  {
    if j < |n.buf| then
      if i + j >= st.to then Ok(Res(false, st.(hitEnd := true)))
      else
        var x :- ItemAt(st, i + j);
        var d :- CompareTo(n.buf[j], x);
        if d != 0 then Ok(Res(false, st)) else SliceLoop(g, n, st, i, j + 1, f)
    else Eval(g, n.next, st, i + |n.buf|, f)
  }

  // ---- ? and {m,n} over a non-capturing atom ----

  /** `Ques` in its four types. */
  function MatchQues<V>(g: Graph<V>, n: Node<V>, st: MState<V>, i: int, f: nat): (r: Out<V>)
    requires n.QuesN?
    decreases f, 1
    ensures Keeps(st, r)
  {
    match n.mode
    case Greedy =>
      var a :- Eval(g, n.atom, st, i, f);
      if a.matched then
        var b :- Eval(g, n.next, a.st, a.st.last, f);
        if b.matched then Ok(b) else Eval(g, n.next, b.st, i, f)
      else Eval(g, n.next, a.st, i, f)
    case Lazy =>
      var b :- Eval(g, n.next, st, i, f);
      if b.matched then Ok(b)
      else
        var a :- Eval(g, n.atom, b.st, i, f);
        if a.matched then Eval(g, n.next, a.st, a.st.last, f) else Ok(a)
    case Possessive =>
      var a :- Eval(g, n.atom, st, i, f);
      Eval(g, n.next, a.st, if a.matched then a.st.last else i, f)
    case Independent =>
      var a :- Eval(g, n.atom, st, i, f);
      if a.matched then Eval(g, n.next, a.st, a.st.last, f) else Ok(a)
  }

  /** `Curly.match`: the mandatory `cmin` atoms, then the type's loop. */
  function MatchCurly<V>(g: Graph<V>, n: Node<V>, st: MState<V>, i: int, f: nat): (r: Out<V>)
    requires n.CurlyN?
    decreases f, 6
    ensures Keeps(st, r)
  {
    CurlyMin(g, n, st, i, 0, f)
  }

  /** The mandatory-atom loop of `Curly.match` from count `j` on. */
  function CurlyMin<V>(g: Graph<V>, n: Node<V>, st: MState<V>, i: int, j: int, f: nat): (r: Out<V>)
    requires n.CurlyN?
    decreases f, 5, n.cmin - j
    ensures Keeps(st, r)
  {
    if j < n.cmin then
      var a :- Eval(g, n.atom, st, i, f);
      if a.matched then CurlyMin(g, n, a.st, a.st.last, j + 1, f) else Ok(a)
    else
      match n.mode
      case Greedy => Curly0(g, n, st, i, j, f)
      case Lazy => Curly1(g, n, st, i, j, f)
      case _ => Curly2(g, n, st, i, j, f)
  }

  /** `Curly.match0`, the greedy loop, with `j` atoms matched so far. */
  function Curly0<V>(g: Graph<V>, n: Node<V>, st: MState<V>, i: int, j: int, f: nat): (r: Out<V>)
    requires n.CurlyN?
    decreases f, 4
    ensures Keeps(st, r)
  {
    if j >= n.cmax then Eval(g, n.next, st, i, f)
    else
      var a :- Eval(g, n.atom, st, i, f);
      if !a.matched then Eval(g, n.next, a.st, i, f)
      else
        var k := a.st.last - i;
        if k == 0 then Eval(g, n.next, a.st, i, f)
        else Curly0More(g, n, a.st, a.st.last, j + 1, k, j, f)
  }

  /** The inner `while (j < cmax)` loop of `match0`: more atoms of the same
      width `k`; `backLimit` is the count `match0` was entered with. */
  function Curly0More<V>(g: Graph<V>, n: Node<V>, st: MState<V>, i: int, j: int, k: int,
                         backLimit: int, f: nat): (r: Out<V>)
    requires n.CurlyN?
    decreases f, 3, n.cmax - j
    ensures Keeps(st, r)
  {
    if j < n.cmax then
      var a :- Eval(g, n.atom, st, i, f);
      if !a.matched then CurlyBack(g, n, a.st, i, j, k, backLimit, f)
      else if i + k != a.st.last then
        if f == 0 then Err(StackOverflow)
        else
          var b :- Curly0(g, n, a.st, a.st.last, j + 1, f - 1);
          if b.matched then Ok(b) else CurlyBack(g, n, b.st, i, j, k, backLimit, f)
      else Curly0More(g, n, a.st, i + k, j + 1, k, backLimit, f)
    else CurlyBack(g, n, st, i, j, k, backLimit, f)
  }

  /** The back-off loop of `match0`: give back one atom of width `k` at a
      time, never below `backLimit` atoms. */
  function CurlyBack<V>(g: Graph<V>, n: Node<V>, st: MState<V>, i: int, j: int, k: int,
                        backLimit: int, f: nat): (r: Out<V>)
    requires n.CurlyN?
    decreases f, 2, j - backLimit + 1
    ensures Keeps(st, r)
  {
    if j >= backLimit then
      var b :- Eval(g, n.next, st, i, f);
      if b.matched then Ok(b) else CurlyBack(g, n, b.st, i - k, j - 1, k, backLimit, f)
    else Ok(Res(false, st))
  }

  /** `Curly.match1`, the reluctant loop. */
  function Curly1<V>(g: Graph<V>, n: Node<V>, st: MState<V>, i: int, j: int, f: nat): (r: Out<V>)
    requires n.CurlyN?
    decreases f, 1, n.cmax - j
    ensures Keeps(st, r)
  {
    var b :- Eval(g, n.next, st, i, f);
    if b.matched then Ok(b)
    else if j >= n.cmax then Ok(b)
    else
      var a :- Eval(g, n.atom, b.st, i, f);
      if !a.matched then Ok(a)
      else if i == a.st.last then Ok(Res(false, a.st))
      else Curly1(g, n, a.st, a.st.last, j + 1, f)
  }

  /** `Curly.match2`, the possessive loop. */
  function Curly2<V>(g: Graph<V>, n: Node<V>, st: MState<V>, i: int, j: int, f: nat): (r: Out<V>)
    requires n.CurlyN?
    decreases f, 1, n.cmax - j
    ensures Keeps(st, r)
  {
    if j < n.cmax then
      var a :- Eval(g, n.atom, st, i, f);
      if !a.matched then Eval(g, n.next, a.st, i, f)
      else if i == a.st.last then Eval(g, n.next, a.st, i, f)
      else Curly2(g, n, a.st, a.st.last, j + 1, f)
    else Eval(g, n.next, st, i, f)
  }

  // ---- {m,n} over a deterministic group ----

  /** The group bounds a capturing `GroupCurly` writes exist: `match` has
      read both before any of its loops runs. */
  ghost predicate GcSlots<V>(n: Node<V>, st: MState<V>)
    requires n.GroupCurlyN?
  {
    n.capture ==> 0 <= n.groupIndex && n.groupIndex + 1 < |st.groups|
  }

  /** `GroupCurly.match`: saves the group's local slot (and bounds when
      capturing), runs the repetition, and puts them back on failure. */
  function MatchGroupCurly<V>(g: Graph<V>, n: Node<V>, st: MState<V>, i: int, f: nat): (r: Out<V>)
    requires n.GroupCurlyN?
    decreases f, 7
    ensures Keeps(st, r)
  {
    var save0 :- GetL(st, n.localIndex);
    var save1 :- GetGIf(n.capture, st, n.groupIndex);
    var save2 :- GetGIf(n.capture, st, n.groupIndex + 1);
    var a :- GcMin(g, n, PutL(st, n.localIndex, -1), i, 0, f);
    if a.matched then Ok(a)
    else
      var s2 := PutL(a.st, n.localIndex, save0);
      var s3 := PutGIf(n.capture, s2, n.groupIndex, save1);
      Ok(Res(false, PutGIf(n.capture, s3, n.groupIndex + 1, save2)))
  }

  /** The mandatory-atom loop of `GroupCurly.match`, recording each atom's
      bounds when capturing, then the type's loop entered with `cmin`. */
  function GcMin<V>(g: Graph<V>, n: Node<V>, st: MState<V>, i: int, j: int, f: nat): (r: Out<V>)
    requires n.GroupCurlyN? && GcSlots(n, st)
    decreases f, 6, n.cmin - j
    ensures Keeps(st, r)
  {
    if j < n.cmin then
      var a :- Eval(g, n.atom, st, i, f);
      if a.matched then
        var s1 := PutGIf(n.capture, a.st, n.groupIndex, i);
        var s2 := PutGIf(n.capture, s1, n.groupIndex + 1, s1.last);
        GcMin(g, n, s2, s2.last, j + 1, f)
      else Ok(a)
    else
      match n.mode
      case Greedy => Gc0(g, n, st, i, n.cmin, f)
      case Lazy => Gc1(g, n, st, i, n.cmin, f)
      case _ => Gc2(g, n, st, i, n.cmin, f)
  }

  /** `GroupCurly.match0`, the greedy loop. */
  function Gc0<V>(g: Graph<V>, n: Node<V>, st: MState<V>, i: int, j: int, f: nat): (r: Out<V>)
    requires n.GroupCurlyN? && GcSlots(n, st)
    decreases f, 5
    ensures Keeps(st, r)
  {
    var save0 := if n.capture then st.groups[n.groupIndex] else 0;
    var save1 := if n.capture then st.groups[n.groupIndex + 1] else 0;
    if j >= n.cmax then Gc0Exit(g, n, st, i, save0, save1, f)
    else
      var a :- Eval(g, n.atom, st, i, f);
      if !a.matched then Gc0Exit(g, n, a.st, i, save0, save1, f)
      else
        var k := a.st.last - i;
        if k <= 0 then
          var s1 := PutGIf(n.capture, a.st, n.groupIndex, i);
          var s2 := PutGIf(n.capture, s1, n.groupIndex + 1, i + k);
          Gc0Exit(g, n, s2, i + k, save0, save1, f)
        else Gc0More(g, n, a.st, i, j, k, save0, save1, f)
  }

  /** The inner `for (;;)` of `GroupCurly.match0`, entered right after an
      atom of width `k` matched at `i` with `j` atoms counted before it. */
  function Gc0More<V>(g: Graph<V>, n: Node<V>, st: MState<V>, i: int, j: int, k: int,
                      save0: int, save1: int, f: nat): (r: Out<V>)
    requires n.GroupCurlyN? && GcSlots(n, st)
    decreases f, 4, n.cmax - j
    ensures Keeps(st, r)
  {
    var s1 := PutGIf(n.capture, st, n.groupIndex, i);
    var s2 := PutGIf(n.capture, s1, n.groupIndex + 1, i + k);
    var i' := i + k;
    var j' := j + 1;
    if j' >= n.cmax then Gc0Back(g, n, s2, i', j', k, save0, save1, f)
    else
      var a :- Eval(g, n.atom, s2, i', f);
      if !a.matched then Gc0Back(g, n, a.st, i', j', k, save0, save1, f)
      else if i' + k != a.st.last then
        if f == 0 then Err(StackOverflow)
        else
          var b :- Gc0(g, n, a.st, i', j', f - 1);
          if b.matched then Ok(b) else Gc0Back(g, n, b.st, i', j', k, save0, save1, f)
      else Gc0More(g, n, a.st, i', j', k, save0, save1, f)
  }

  /** The back-off loop of `GroupCurly.match0`: while more than `cmin` atoms
      are counted, try the continuation, then give back one atom. */
  function Gc0Back<V>(g: Graph<V>, n: Node<V>, st: MState<V>, i: int, j: int, k: int,
                      save0: int, save1: int, f: nat): (r: Out<V>)
    requires n.GroupCurlyN? && GcSlots(n, st)
    decreases f, 3, j - n.cmin
    ensures Keeps(st, r)
  {
    if j > n.cmin then
      var b :- Eval(g, n.next, st, i, f);
      var s1 := PutGIf(n.capture, b.st, n.groupIndex + 1, i);
      var s2 := PutGIf(n.capture, s1, n.groupIndex, i - k);
      if b.matched then Ok(Res(true, s2))
      else Gc0Back(g, n, s2, i - k, j - 1, k, save0, save1, f)
    else Gc0Exit(g, n, st, i, save0, save1, f)
  }

  /** The end of `GroupCurly.match0`: restore the saved bounds and continue. */
  function Gc0Exit<V>(g: Graph<V>, n: Node<V>, st: MState<V>, i: int, save0: int, save1: int,
                      f: nat): (r: Out<V>)
    requires n.GroupCurlyN? && GcSlots(n, st)
    decreases f, 2
    ensures Keeps(st, r)
  {
    var s1 := PutGIf(n.capture, st, n.groupIndex, save0);
    Eval(g, n.next, PutGIf(n.capture, s1, n.groupIndex + 1, save1), i, f)
  }

  /** `GroupCurly.match1`, the reluctant loop. */
  function Gc1<V>(g: Graph<V>, n: Node<V>, st: MState<V>, i: int, j: int, f: nat): (r: Out<V>)
    requires n.GroupCurlyN? && GcSlots(n, st)
    decreases f, 1, n.cmax - j
    ensures Keeps(st, r)
  {
    var b :- Eval(g, n.next, st, i, f);
    if b.matched then Ok(b)
    else if j >= n.cmax then Ok(b)
    else
      var a :- Eval(g, n.atom, b.st, i, f);
      if !a.matched then Ok(a)
      else if i == a.st.last then Ok(Res(false, a.st))
      else
        var s1 := PutGIf(n.capture, a.st, n.groupIndex, i);
        var s2 := PutGIf(n.capture, s1, n.groupIndex + 1, s1.last);
        Gc1(g, n, s2, s2.last, j + 1, f)
  }

  /** `GroupCurly.match2`, the possessive loop. */
  function Gc2<V>(g: Graph<V>, n: Node<V>, st: MState<V>, i: int, j: int, f: nat): (r: Out<V>)
    requires n.GroupCurlyN? && GcSlots(n, st)
    decreases f, 1, n.cmax - j
    ensures Keeps(st, r)
  {
    if j < n.cmax then
      var a :- Eval(g, n.atom, st, i, f);
      if !a.matched then Eval(g, n.next, a.st, i, f)
      else
        var s1 := PutGIf(n.capture, a.st, n.groupIndex, i);
        var s2 := PutGIf(n.capture, s1, n.groupIndex + 1, s1.last);
        if i == s2.last then Eval(g, n.next, s2, i, f)
        else Gc2(g, n, s2, s2.last, j + 1, f)
    else Eval(g, n.next, st, i, f)
  }

  // ---- alternation ----

  /** `Branch`: the alternatives in order; a null alternative is the empty
      one, which goes straight to the connector's continuation. */
  function MatchBranch<V>(g: Graph<V>, n: Node<V>, st: MState<V>, i: int, f: nat): (r: Out<V>)
    requires n.BranchN?
    decreases f, 2
    ensures Keeps(st, r)
  {
    BranchLoop(g, n, st, i, 0, f)
  }

  /** Alternative `k` of a `Branch`. */
  function BranchAlt<V>(g: Graph<V>, n: Node<V>, st: MState<V>, i: int, k: nat, f: nat): (r: Out<V>)
    requires n.BranchN? && k < |n.atoms|
    decreases f, 1, 0
    ensures Keeps(st, r)
  {
    if n.atoms[k] == Null then
      var c :- Deref(g, n.conn);
      Eval(g, c.next, st, i, f)
    else Eval(g, n.atoms[k], st, i, f)
  }

  /** The `for (n ...)` loop of `Branch` from alternative `k` on. */
  function BranchLoop<V>(g: Graph<V>, n: Node<V>, st: MState<V>, i: int, k: nat, f: nat): (r: Out<V>)
    requires n.BranchN?
    decreases f, 1, |n.atoms| - k
    ensures Keeps(st, r)
  {
    if k < |n.atoms| then
      var a :- BranchAlt(g, n, st, i, k, f);
      if a.matched then Ok(a) else BranchLoop(g, n, a.st, i, k + 1, f)
    else Ok(Res(false, st))
  }

  // ---- groups ----

  /** `GroupHead.match`: record the group start in the local slot for the
      continuation, then put the old slot value back whatever happened. */
  function MatchGroupHead<V>(g: Graph<V>, n: Node<V>, st: MState<V>, i: int, f: nat): (r: Out<V>)
    requires n.GroupHeadN?
    decreases f, 1
    ensures Keeps(st, r)
  {
    var save :- GetL(st, n.localIndex);
    var a :- Eval(g, n.next, PutL(st, n.localIndex, i), i, f);
    Ok(Res(a.matched, PutL(a.st, n.localIndex, save)))
  }

  /** `GroupHead.matchRef`: as `match`, but the slot holds `~i`, which tells
      the group's tail not to record bounds. */
  function MatchRef<V>(g: Graph<V>, h: Node<V>, st: MState<V>, i: int, f: nat): (r: Out<V>)
    requires h.GroupHeadN?
    decreases f, 1
    ensures Keeps(st, r)
  {
    var save :- GetL(st, h.localIndex);
    var a :- Eval(g, h.next, PutL(st, h.localIndex, -i - 1), i, f);
    Ok(Res(a.matched, PutL(a.st, h.localIndex, save)))
  }

  /** `GroupRef`: the referenced group's body again, then the continuation. */
  function MatchGroupRef<V>(g: Graph<V>, n: Node<V>, st: MState<V>, i: int, f: nat): (r: Out<V>)
    requires n.GroupRefN?
    decreases f, 2
    ensures Keeps(st, r)
  {
    var h :- Deref(g, n.head);
    if !h.GroupHeadN? then Err(ClassCast)
    else
      var a :- MatchRef(g, h, st, i, f);
      if a.matched then Eval(g, n.next, a.st, a.st.last, f) else Ok(a)
  }

  /** `GroupTail`: record `(start, i)` as the group's bounds for the
      continuation and restore the previous bounds if it fails; inside a
      group reference only report the end. */
  function MatchGroupTail<V>(g: Graph<V>, n: Node<V>, st: MState<V>, i: int, f: nat): (r: Out<V>)
    requires n.GroupTailN?
    decreases f, 1
    ensures Keeps(st, r)
  {
    var tmp :- GetL(st, n.localIndex);
    if tmp >= 0 then
      var groupStart :- GetG(st, n.groupIndex);
      var groupEnd :- GetG(st, n.groupIndex + 1);
      var s1 := PutG(st, n.groupIndex, tmp);
      var a :- Eval(g, n.next, PutG(s1, n.groupIndex + 1, i), i, f);
      if a.matched then Ok(a)
      else
        var s3 := PutG(a.st, n.groupIndex, groupStart);
        Ok(Res(false, PutG(s3, n.groupIndex + 1, groupEnd)))
    else Ok(Res(true, st.(last := i)))
  }

  // ---- general repetition through Prolog and Loop ----

  /** `Prolog`: the loop's `matchInit`. */
  function MatchProlog<V>(g: Graph<V>, n: Node<V>, st: MState<V>, i: int, f: nat): (r: Out<V>)
    requires n.PrologN?
    decreases f, 3
    ensures Keeps(st, r)
  {
    var l :- Deref(g, n.loop);
    if !l.LoopN? then Err(ClassCast) else LoopInit(g, l, st, i, f)
  }

  /** `Loop.matchInit` / `LazyLoop.matchInit`: the first iteration, with the
      count slot saved before and restored after. */
  function LoopInit<V>(g: Graph<V>, l: Node<V>, st: MState<V>, i: int, f: nat): (r: Out<V>)
    requires l.LoopN?
    decreases f, 2
    ensures Keeps(st, r)
  {
    var save :- GetL(st, l.countIndex);
    var a :- LoopInitBody(g, l, st, i, f);
    Ok(Res(a.matched, PutL(a.st, l.countIndex, save)))
  }

  function LoopInitBody<V>(g: Graph<V>, l: Node<V>, st: MState<V>, i: int, f: nat): (r: Out<V>)
    requires l.LoopN? && 0 <= l.countIndex < |st.locals|
    decreases f, 1
    ensures Keeps(st, r)
  {
    if 0 < l.cmin then Eval(g, l.body, PutL(st, l.countIndex, 1), i, f)
    else if !l.lazy then
      if 0 < l.cmax then
        var a :- Eval(g, l.body, PutL(st, l.countIndex, 1), i, f);
        if a.matched then Ok(a) else Eval(g, l.next, a.st, i, f)
      else Eval(g, l.next, st, i, f)
    else
      var b :- Eval(g, l.next, st, i, f);
      if b.matched then Ok(b)
      else if 0 < l.cmax then Eval(g, l.body, PutL(b.st, l.countIndex, 1), i, f)
      else Ok(b)
  }

  /** `Loop.match` / `LazyLoop.match`: one more iteration unless the body
      matched empty; the iteration count is put back when the body fails. */
  function MatchLoop<V>(g: Graph<V>, n: Node<V>, st: MState<V>, i: int, f: nat): (r: Out<V>)
    requires n.LoopN?
    decreases f, 2
    ensures Keeps(st, r)
  {
    var begin :- GetL(st, n.beginIndex);
    if i > begin then
      var count :- GetL(st, n.countIndex);
      if count < n.cmin then LoopIterate(g, n, st, i, count, f)
      else if !n.lazy then
        if count < n.cmax then
          var a :- LoopIterate(g, n, st, i, count, f);
          if a.matched then Ok(a) else Eval(g, n.next, a.st, i, f)
        else Eval(g, n.next, st, i, f)
      else
        var b :- Eval(g, n.next, st, i, f);
        if b.matched then Ok(b)
        else if count < n.cmax then LoopIterate(g, n, b.st, i, count, f)
        else Ok(b)
    else Eval(g, n.next, st, i, f)
  }

  /** One more pass through the body with the count raised, lowered again
      if the body fails. */
  function LoopIterate<V>(g: Graph<V>, n: Node<V>, st: MState<V>, i: int, count: int, f: nat): (r: Out<V>)
    requires n.LoopN? && 0 <= n.countIndex < |st.locals|
    decreases f, 1
    ensures Keeps(st, r)
  {
    var a :- Eval(g, n.body, PutL(st, n.countIndex, count + 1), i, f);
    if a.matched then Ok(a) else Ok(Res(false, PutL(a.st, n.countIndex, count)))
  }

  // ---- back references ----

  /** `BackRef`: the elements the group last matched, compared by object
      identity. */
  function MatchBackRef<V>(g: Graph<V>, n: Node<V>, st: MState<V>, i: int, f: nat): (r: Out<V>)
    requires n.BackRefN?
    decreases f, 2
    ensures Keeps(st, r)
  {
    var j :- GetG(st, n.groupIndex);
    var k :- GetG(st, n.groupIndex + 1);
    var groupSize := k - j;
    if j < 0 then Ok(Res(false, st))
    else if i + groupSize > st.to then Ok(Res(false, st.(hitEnd := true)))
    else BackRefLoop(g, n, st, i, j, groupSize, 0, f)
  }

  function BackRefLoop<V>(g: Graph<V>, n: Node<V>, st: MState<V>, i: int, j: int, size: int,
                          index: int, f: nat): (r: Out<V>)
    requires n.BackRefN?
    decreases f, 1, size - index
    ensures Keeps(st, r)
  {
    if index < size then
      var x :- ItemAt(st, i + index);
      var y :- ItemAt(st, j + index);
      if x.ref != y.ref then Ok(Res(false, st))
      else BackRefLoop(g, n, st, i, j, size, index + 1, f)
    else Eval(g, n.next, st, i + size, f)
  }

  // ---- First, Conditional and lookarounds ----

  /** `First`: the first position from `i` on where the atom matches, moving
      `first` along. */
  function MatchFirst<V>(g: Graph<V>, n: Node<V>, st: MState<V>, i: int, f: nat): (r: Out<V>)
    requires n.FirstN?
    decreases f, 1, st.to - i + 1
    ensures Keeps(st, r)
  {
    if i > st.to then Ok(Res(false, st.(hitEnd := true)))
    else
      var a :- Eval(g, n.atom, st, i, f);
      if a.matched then Eval(g, n.next, a.st, a.st.last, f)
      else MatchFirst(g, n, a.st.(first := a.st.first + 1), i + 1, f)
  }

  function MatchConditional<V>(g: Graph<V>, n: Node<V>, st: MState<V>, i: int, f: nat): (r: Out<V>)
    requires n.ConditionalN?
    decreases f, 1
    ensures Keeps(st, r)
  {
    var c :- Eval(g, n.cond, st, i, f);
    if c.matched then Eval(g, n.yes, c.st, i, f) else Eval(g, n.not, c.st, i, f)
  }

  /** `Pos`: the condition at `i`, with `to` widened to the text end under
      transparent bounds and restored afterwards. */
  function MatchPos<V>(g: Graph<V>, n: Node<V>, st: MState<V>, i: int, f: nat): (r: Out<V>)
    requires n.PosN?
    decreases f, 2
    ensures Keeps(st, r)
  {
    var c :- LookCond(g, n.cond, st, i, f, false);
    if c.matched then Eval(g, n.next, c.st, i, f) else Ok(Res(false, c.st))
  }

  /** `Neg`: as `Pos` with the answer inverted; at or past `to` it also sets
      `requireEnd`. */
  function MatchNeg<V>(g: Graph<V>, n: Node<V>, st: MState<V>, i: int, f: nat): (r: Out<V>)
    requires n.NegN?
    decreases f, 2
    ensures Keeps(st, r)
  {
    var c :- LookCond(g, n.cond, st, i, f, true);
    if !c.matched then Eval(g, n.next, c.st, i, f) else Ok(Res(false, c.st))
  }

  /** The condition of `Pos` (`neg` false) or `Neg` (`neg` true) at `i`:
      run with `to` widened to the end of the input under transparent
      bounds, `Neg` setting `requireEnd` at or past `to`; the caller's `to`
      is put back afterwards. */
  function LookCond<V>(g: Graph<V>, cond: Id, st: MState<V>, i: int, f: nat, neg: bool): (r: Out<V>)
    decreases f, 1
    ensures Keeps(st, r)
    ensures r.Ok? ==> r.value.st.to == st.to
  {
    var s0 := if st.transparentBounds then st.(to := |st.text|) else st;
    var s1 := if neg && i >= s0.to then s0.(requireEnd := true) else s0;
    var c :- Eval(g, cond, s1, i, f);
    Ok(Res(c.matched, c.st.(to := st.to)))
  }

  /** The search of `Behind` and `NotBehind`: the condition at `j`, `j - 1`,
      ... down to `lo`, stopping at the first match. */
  function BehindLoop<V>(g: Graph<V>, cond: Id, st: MState<V>, j: int, lo: int, f: nat): (r: Out<V>)
    decreases f, 1, j - lo + 1
    ensures Keeps(st, r)
  {
    if j >= lo then
      var c :- Eval(g, cond, st, j, f);
      if c.matched then Ok(c) else BehindLoop(g, cond, c.st, j - 1, lo, f)
    else Ok(Res(false, st))
  }

  /** The state the look-behind condition runs in: `lookbehindTo` is `i`,
      and `from` is 0 under transparent bounds. */
  function BehindState<V>(st: MState<V>, i: int): (s: MState<V>)
    ensures s == st.(lookbehindTo := i, from := if st.transparentBounds then 0 else st.from)
  {
    var s1 := st.(lookbehindTo := i);
    if st.transparentBounds then s1.(from := 0) else s1
  }

  /** The lowest start `Behind` and `NotBehind` try. */
  function BehindLow<V>(st: MState<V>, i: int, rmax: int): int
  {
    Max(i - rmax, if !st.transparentBounds then st.from else 0)
  }

  /** `Behind`: some start between `i - rmax` and `i - rmin` from which the
      condition ends exactly at `i`. */
  function MatchBehind<V>(g: Graph<V>, n: Node<V>, st: MState<V>, i: int, f: nat): (r: Out<V>)
    requires n.BehindN?
    decreases f, 2
    ensures Keeps(st, r)
  {
    var c :- BehindLoop(g, n.cond, BehindState(st, i), i - n.rmin, BehindLow(st, i, n.rmax), f);
    var s3 := c.st.(from := st.from, lookbehindTo := st.lookbehindTo);
    if c.matched then Eval(g, n.next, s3, i, f) else Ok(Res(false, s3))
  }

  /** `NotBehind`: no such start. */
  function MatchNotBehind<V>(g: Graph<V>, n: Node<V>, st: MState<V>, i: int, f: nat): (r: Out<V>)
    requires n.NotBehindN?
    decreases f, 2
    ensures Keeps(st, r)
  {
    var c :- BehindLoop(g, n.cond, BehindState(st, i), i - n.rmin, BehindLow(st, i, n.rmax), f);
    var s3 := c.st.(from := st.from, lookbehindTo := st.lookbehindTo);
    if !c.matched then Eval(g, n.next, s3, i, f) else Ok(Res(false, s3))
  }
}
