/** The matcher the nodes run against, and the nodes' `match` methods as
    code that updates it in place. Every method is proved to return what
    the corresponding function of `MatchSpec` computes and to leave the
    matcher in the state that function describes. */
module Engine {
  import opened Base
  import opened Tokens
  import opened CharClass
  import opened Nodes
  import S = MatchSpec

  /** A method's result `r` and the matcher state `now` it returned in are
      those the specification `e` describes; after an exception only the
      exception itself is described. */
  ghost predicate Agrees<V>(r: Outcome<bool>, e: S.Out<V>, now: S.MState<V>)
  {
    match e
    case Ok(res) => r == Ok(res.matched) && now == res.st
    case Err(x) => r == Err(x)
  }

  /** The part of `Matcher` the nodes use. The input list is fixed for the
      matcher's lifetime, as are the two scratch arrays. */
  class Matcher<V> {
    const text: seq<Item<V>>
    const groups: array<int>
    const locals: array<int>
    var from: int
    var to: int
    var first: int
    var last: int
    var oldLast: int
    var lookbehindTo: int
    var hitEnd: bool
    var requireEnd: bool
    var anchoringBounds: bool
    var transparentBounds: bool
    var acceptMode: int

    ghost predicate Valid() reads this { groups != locals }

    /** The matcher's state as the specification sees it. */
    ghost function Snapshot(): S.MState<V>
      reads this, groups, locals
    {
      S.MState(groups[..], locals[..], from, to, first, last, oldLast, lookbehindTo,
               hitEnd, requireEnd, anchoringBounds, transparentBounds, acceptMode, text)
    }

    /** A matcher over `text` with the region set to the whole input,
      `groupCount` group slots (two per group) and `localCount` scratch
      slots, all holding -1. */
    constructor(text: seq<Item<V>>, groupCount: nat, localCount: nat)
      ensures Valid()
      ensures Snapshot() == S.MState(seq(2 * groupCount, _ => -1), seq(localCount, _ => -1),
                                     0, |text|, -1, 0, 0, 0, false, false, true, false,
                                     S.NOANCHOR, text)
    {
      this.text := text;
      groups := new int[2 * groupCount](_ => -1);
      locals := new int[localCount](_ => -1);
      from := 0;
      to := |text|;
      first := -1;
      last := 0;
      oldLast := 0;
      lookbehindTo := 0;
      hitEnd := false;
      requireEnd := false;
      anchoringBounds := true;
      transparentBounds := false;
      acceptMode := S.NOANCHOR;
    }

    // ---- dispatch ----

    /** `node.match(this, i, text)` for the node with id `id`. */
    method Match(g: Graph<V>, id: Id, i: int, fuel: nat) returns (r: Outcome<bool>)
      requires Valid()
      modifies this, groups, locals
      decreases fuel, 0
      ensures Agrees(r, S.Eval(g, id, old(Snapshot()), i, fuel), Snapshot())
    {
      if fuel == 0 { return Err(StackOverflow); }
      if !IsNode(g, id) { return Err(NullPointer); }
      if S.SimpleKind(g[id]) {
        r := MatchSimple(g, id, i, fuel - 1);
      } else {
        r := MatchCompound(g, id, i, fuel - 1);
      }
    }

    /** The anchors, the accepting nodes and the single-step nodes. */
    method MatchSimple(g: Graph<V>, id: Id, i: int, f: nat) returns (r: Outcome<bool>)
      requires Valid() && IsNode(g, id) && S.SimpleKind(g[id])
      modifies this, groups, locals
      decreases f, 8
      ensures Agrees(r, S.Eval(g, id, old(Snapshot()), i, f + 1), Snapshot())
    {
      var n := g[id];
      if n.AcceptN? {
        r := MatchAccept(i);
      } else if n.LastAcceptN? {
        r := MatchLastAccept(i);
      } else if n.LookbehindEndN? {
        r := Ok(i == lookbehindTo);
      } else if n.StartN? {
        r := MatchStart(g, n, i, f);
      } else if n.BeginN? {
        r := MatchBegin(g, n, i, f);
      } else if n.EndN? {
        r := MatchEnd(g, n, i, f);
      } else if n.CaretN? {
        r := MatchCaret(g, n, i, f);
      } else if n.LastMatchN? {
        r := MatchLastMatch(g, n, i, f);
      } else if n.DollarN? {
        r := MatchDollar(g, n, i, f);
      } else if n.CharPropN? {
        r := MatchCharProp(g, n, i, f);
      } else if n.SliceN? {
        r := MatchSlice(g, n, i, f);
      } else if n.BranchConnN? {
        r := Match(g, n.next, i, f);
      } else {
        r := MatchQues(g, n, i, f);
      }
    }

    /** The nodes that try an atom, a group or a condition. */
    method MatchCompound(g: Graph<V>, id: Id, i: int, f: nat) returns (r: Outcome<bool>)
      requires Valid() && IsNode(g, id) && !S.SimpleKind(g[id])
      modifies this, groups, locals
      decreases f, 8
      ensures Agrees(r, S.Eval(g, id, old(Snapshot()), i, f + 1), Snapshot())
    {
      var n := g[id];
      if n.CurlyN? {
        r := MatchCurly(g, n, i, f);
      } else if n.GroupCurlyN? {
        r := MatchGroupCurly(g, n, i, f);
      } else if n.BranchN? {
        r := MatchBranch(g, n, i, f);
      } else if n.GroupHeadN? {
        r := MatchGroupHead(g, n, i, f);
      } else if n.GroupRefN? {
        r := MatchGroupRef(g, n, i, f);
      } else if n.GroupTailN? {
        r := MatchGroupTail(g, n, i, f);
      } else if n.PrologN? {
        r := MatchProlog(g, n, i, f);
      } else if n.LoopN? {
        r := MatchLoop(g, n, i, f);
      } else if n.BackRefN? {
        r := MatchBackRef(g, n, i, f);
      } else if n.FirstN? {
        r := MatchFirst(g, n, i, f);
      } else if n.ConditionalN? {
        r := MatchConditional(g, n, i, f);
      } else if n.PosN? {
        r := MatchPos(g, n, i, f);
      } else if n.NegN? {
        r := MatchNeg(g, n, i, f);
      } else if n.BehindN? {
        r := MatchBehind(g, n, i, f);
      } else {
        r := MatchNotBehind(g, n, i, f);
      }
    }

    // ---- accepting nodes and anchors ----

    /** `groups[0] = first; groups[1] = last`, as the accepting nodes,
        `Start` and `Begin` end. */
    method SetGroupZero() returns (r: Outcome<bool>)
      requires Valid()
      modifies groups
      ensures Agrees(r, S.MatchAccept(old(Snapshot()), last), Snapshot())
    {
      if groups.Length <= 0 { return Err(IndexOutOfBounds(0)); }
      groups[0] := first;
      if groups.Length <= 1 { return Err(IndexOutOfBounds(1)); }
      groups[1] := last;
      return Ok(true);
    }

    method MatchAccept(i: int) returns (r: Outcome<bool>)
      requires Valid()
      modifies this, groups
      ensures Agrees(r, S.MatchAccept(old(Snapshot()), i), Snapshot())
    {
      last := i;
      r := SetGroupZero();
    }

    method MatchLastAccept(i: int) returns (r: Outcome<bool>)
      requires Valid()
      modifies this, groups
      ensures Agrees(r, S.MatchLastAccept(old(Snapshot()), i), Snapshot())
    {
      if acceptMode == S.ENDANCHOR && i != to { return Ok(false); }
      r := MatchAccept(i);
    }

    method MatchStart(g: Graph<V>, n: Node<V>, i0: int, f: nat) returns (r: Outcome<bool>)
      requires Valid() && n.StartN?
      modifies this, groups, locals
      decreases f, 2
      ensures Agrees(r, S.MatchStart(g, n, old(Snapshot()), i0, f), Snapshot())
    {
      var guard := to - n.minLength;
      if i0 > guard { hitEnd := true; return Ok(false); }
      var i := i0;
      ghost var target := S.StartLoop(g, n, Snapshot(), i, guard, f);
      while i <= guard
        invariant S.StartLoop(g, n, Snapshot(), i, guard, f) == target
        decreases guard - i + 1
      {
        var a := Match(g, n.next, i, f);
        if a.Err? { return a; }
        if a.value {
          first := i;
          r := SetGroupZero();
          return;
        }
        if i == guard { hitEnd := true; }
        i := i + 1;
      }
      return Ok(false);
    }

    method MatchBegin(g: Graph<V>, n: Node<V>, i: int, f: nat) returns (r: Outcome<bool>)
      requires Valid() && n.BeginN?
      modifies this, groups, locals
      decreases f, 1
      ensures Agrees(r, S.MatchBegin(g, n, old(Snapshot()), i, f), Snapshot())
    {
      var fromIndex := if anchoringBounds then from else 0;
      if i != fromIndex { return Ok(false); }
      r := Match(g, n.next, i, f);
      if r.Err? || !r.value { return; }
      first := i;
      r := SetGroupZero();
    }

    method MatchEnd(g: Graph<V>, n: Node<V>, i: int, f: nat) returns (r: Outcome<bool>)
      requires Valid() && n.EndN?
      modifies this, groups, locals
      decreases f, 1
      ensures Agrees(r, S.MatchEnd(g, n, old(Snapshot()), i, f), Snapshot())
    {
      var endIndex := if anchoringBounds then to else |text|;
      if i != endIndex { return Ok(false); }
      hitEnd := true;
      r := Match(g, n.next, i, f);
    }

    method MatchCaret(g: Graph<V>, n: Node<V>, i: int, f: nat) returns (r: Outcome<bool>)
      requires Valid() && n.CaretN?
      modifies this, groups, locals
      decreases f, 1
      ensures Agrees(r, S.MatchCaret(g, n, old(Snapshot()), i, f), Snapshot())
    {
      var startIndex := if anchoringBounds then from else 0;
      var endIndex := if anchoringBounds then to else |text|;
      if i == endIndex { hitEnd := true; return Ok(false); }
      if i > startIndex {
        if !(0 <= i - 1 < |text|) { return Err(IndexOutOfBounds(i - 1)); }
        if !IsNewLine(text[i - 1]) { return Ok(false); }
      }
      r := Match(g, n.next, i, f);
    }

    method MatchLastMatch(g: Graph<V>, n: Node<V>, i: int, f: nat) returns (r: Outcome<bool>)
      requires Valid() && n.LastMatchN?
      modifies this, groups, locals
      decreases f, 1
      ensures Agrees(r, S.MatchLastMatch(g, n, old(Snapshot()), i, f), Snapshot())
    {
      if i != oldLast { return Ok(false); }
      r := Match(g, n.next, i, f);
    }

    method MatchDollar(g: Graph<V>, n: Node<V>, i: int, f: nat) returns (r: Outcome<bool>)
      requires Valid() && n.DollarN?
      modifies this, groups, locals
      decreases f, 1
      ensures Agrees(r, S.MatchDollar(g, n, old(Snapshot()), i, f), Snapshot())
    {
      var endIndex := if anchoringBounds then to else |text|;
      if i < endIndex - 2 { return Ok(false); }
      if i < endIndex {
        if !(0 <= i < |text|) { return Err(IndexOutOfBounds(i)); }
        if !IsNewLine(text[i]) { return Ok(false); }
      }
      hitEnd := true;
      requireEnd := true;
      r := Match(g, n.next, i, f);
    }

    // ---- single elements and literal runs ----

    method MatchCharProp(g: Graph<V>, n: Node<V>, i: int, f: nat) returns (r: Outcome<bool>)
      requires Valid() && n.CharPropN?
      modifies this, groups, locals
      decreases f, 1
      ensures Agrees(r, S.MatchCharProp(g, n, old(Snapshot()), i, f), Snapshot())
    {
      if i >= to { hitEnd := true; return Ok(false); }
      if !(0 <= i < |text|) { return Err(IndexOutOfBounds(i)); }
      var b := Satisfies(n.pred, text[i]);
      if b.Err? { return Err(b.exc); }
      if !b.value { return Ok(false); }
      r := Match(g, n.next, i + 1, f);
    }

    method MatchSlice(g: Graph<V>, n: Node<V>, i: int, f: nat) returns (r: Outcome<bool>)
      requires Valid() && n.SliceN?
      modifies this, groups, locals
      decreases f, 2
      ensures Agrees(r, S.MatchSlice(g, n, old(Snapshot()), i, f), Snapshot())
    {
      var buf := n.buf;
      var j := 0;
      while j < |buf|
        invariant 0 <= j <= |buf|
        invariant Snapshot() == old(Snapshot())
        invariant S.SliceLoop(g, n, Snapshot(), i, j, f) == S.MatchSlice(g, n, Snapshot(), i, f)
        decreases |buf| - j
      {
        if i + j >= to { hitEnd := true; return Ok(false); }
        if !(0 <= i + j < |text|) { return Err(IndexOutOfBounds(i + j)); }
        var d := CompareTo(buf[j], text[i + j]);
        if d.Err? { return Err(d.exc); }
        if d.value != 0 { return Ok(false); }
        j := j + 1;
      }
      r := Match(g, n.next, i + |buf|, f);
    }

    // ---- ? and {m,n} over a non-capturing atom ----

    method MatchQues(g: Graph<V>, n: Node<V>, i: int, f: nat) returns (r: Outcome<bool>)
      requires Valid() && n.QuesN?
      modifies this, groups, locals
      decreases f, 1
      ensures Agrees(r, S.MatchQues(g, n, old(Snapshot()), i, f), Snapshot())
    {
      match n.mode
      case Greedy =>
        var a := Match(g, n.atom, i, f);
        if a.Err? { return a; }
        if a.value {
          var b := Match(g, n.next, last, f);
          if b.Err? || b.value { return b; }
        }
        r := Match(g, n.next, i, f);
      case Lazy =>
        var b := Match(g, n.next, i, f);
        if b.Err? || b.value { return b; }
        var a := Match(g, n.atom, i, f);
        if a.Err? || !a.value { return a; }
        r := Match(g, n.next, last, f);
      case Possessive =>
        var a := Match(g, n.atom, i, f);
        if a.Err? { return a; }
        var j := if a.value then last else i;
        r := Match(g, n.next, j, f);
      case Independent =>
        var a := Match(g, n.atom, i, f);
        if a.Err? || !a.value { return a; }
        r := Match(g, n.next, last, f);
    }

    /** `Curly.match`. */
    method MatchCurly(g: Graph<V>, n: Node<V>, i0: int, f: nat) returns (r: Outcome<bool>)
      requires Valid() && n.CurlyN?
      modifies this, groups, locals
      decreases f, 6
      ensures Agrees(r, S.MatchCurly(g, n, old(Snapshot()), i0, f), Snapshot())
    {
      var i := i0;
      var j := 0;
      ghost var target := S.CurlyMin(g, n, Snapshot(), i, j, f);
      while j < n.cmin
        invariant S.CurlyMin(g, n, Snapshot(), i, j, f) == target
        decreases n.cmin - j
      {
        var a := Match(g, n.atom, i, f);
        if a.Err? || !a.value { return a; }
        i := last;
        j := j + 1;
      }
      match n.mode
      case Greedy => r := Curly0(g, n, i, j, f);
      case Lazy => r := Curly1(g, n, i, j, f);
      case _ => r := Curly2(g, n, i, j, f);
    }

    /** `Curly.match0`, the greedy loop. */
    method Curly0(g: Graph<V>, n: Node<V>, i0: int, j0: int, f: nat) returns (r: Outcome<bool>)
      requires Valid() && n.CurlyN?
      modifies this, groups, locals
      decreases f, 4
      ensures Agrees(r, S.Curly0(g, n, old(Snapshot()), i0, j0, f), Snapshot())
    {
      if j0 >= n.cmax { r := Match(g, n.next, i0, f); return; }
      var backLimit := j0;
      var a := Match(g, n.atom, i0, f);
      if a.Err? { return a; }
      if !a.value || last - i0 == 0 { r := Match(g, n.next, i0, f); return; }
      var k := last - i0;
      var i := last;
      var j := j0 + 1;
      ghost var target := S.Curly0More(g, n, Snapshot(), i, j, k, backLimit, f);
      while j < n.cmax
        invariant S.Curly0More(g, n, Snapshot(), i, j, k, backLimit, f) == target
        decreases n.cmax - j
      {
        a := Match(g, n.atom, i, f);
        if a.Err? { return a; }
        if !a.value { break; }
        if i + k != last {
          if f == 0 { return Err(StackOverflow); }
          var b := Curly0(g, n, last, j + 1, f - 1);
          if b.Err? || b.value { return b; }
          break;
        }
        i := i + k;
        j := j + 1;
      }
      assert S.CurlyBack(g, n, Snapshot(), i, j, k, backLimit, f) == target;
      r := CurlyBack(g, n, i, j, k, backLimit, f);
    }

    /** The back-off loop of `Curly.match0`: the continuation tried after
        each of the atoms matched, last first, down to `backLimit`. */
    method CurlyBack(g: Graph<V>, n: Node<V>, i0: int, j0: int, k: int, backLimit: int, f: nat)
      returns (r: Outcome<bool>)
      requires Valid() && n.CurlyN?
      modifies this, groups, locals
      decreases f, 2
      ensures Agrees(r, S.CurlyBack(g, n, old(Snapshot()), i0, j0, k, backLimit, f), Snapshot())
    {
      var i, j := i0, j0;
      ghost var target := S.CurlyBack(g, n, Snapshot(), i, j, k, backLimit, f);
      while j >= backLimit
        invariant Valid()
        invariant S.CurlyBack(g, n, Snapshot(), i, j, k, backLimit, f) == target
        decreases j - backLimit + 1
      {
        var b := Match(g, n.next, i, f);
        if b.Err? || b.value { return b; }
        i := i - k;
        j := j - 1;
      }
      return Ok(false);
    }

    /** `Curly.match1`, the reluctant loop. */
    method Curly1(g: Graph<V>, n: Node<V>, i0: int, j0: int, f: nat) returns (r: Outcome<bool>)
      requires Valid() && n.CurlyN?
      modifies this, groups, locals
      decreases f, 1
      ensures Agrees(r, S.Curly1(g, n, old(Snapshot()), i0, j0, f), Snapshot())
    {
      var i := i0;
      var j := j0;
      ghost var target := S.Curly1(g, n, Snapshot(), i, j, f);
      while true
        invariant S.Curly1(g, n, Snapshot(), i, j, f) == target
        decreases n.cmax - j
      {
        var b := Match(g, n.next, i, f);
        if b.Err? || b.value { return b; }
        if j >= n.cmax { return Ok(false); }
        var a := Match(g, n.atom, i, f);
        if a.Err? || !a.value { return a; }
        if i == last { return Ok(false); }
        i := last;
        j := j + 1;
      }
    }

    /** `Curly.match2`, the possessive loop. */
    method Curly2(g: Graph<V>, n: Node<V>, i0: int, j0: int, f: nat) returns (r: Outcome<bool>)
      requires Valid() && n.CurlyN?
      modifies this, groups, locals
      decreases f, 1
      ensures Agrees(r, S.Curly2(g, n, old(Snapshot()), i0, j0, f), Snapshot())
    {
      var i := i0;
      var j := j0;
      ghost var target := S.Curly2(g, n, Snapshot(), i, j, f);
      while j < n.cmax
        invariant S.Curly2(g, n, Snapshot(), i, j, f) == target
        decreases n.cmax - j
      {
        var a := Match(g, n.atom, i, f);
        if a.Err? { return a; }
        if !a.value || i == last { break; }
        i := last;
        j := j + 1;
      }
      r := Match(g, n.next, i, f);
    }

    // ---- {m,n} over a deterministic group ----
    /** `GroupCurly.match`. */
    method MatchGroupCurly(g: Graph<V>, n: Node<V>, i: int, f: nat) returns (r: Outcome<bool>)
      requires Valid() && n.GroupCurlyN?
      modifies this, groups, locals
      decreases f, 7
      ensures Agrees(r, S.MatchGroupCurly(g, n, old(Snapshot()), i, f), Snapshot())
    {
      var li, gi := n.localIndex, n.groupIndex;
      if !(0 <= li < locals.Length) { return Err(IndexOutOfBounds(li)); }
      var save0 := locals[li];
      var save1, save2 := 0, 0;
      if n.capture {
        if !(0 <= gi < groups.Length) { return Err(IndexOutOfBounds(gi)); }
        save1 := groups[gi];
        if !(0 <= gi + 1 < groups.Length) { return Err(IndexOutOfBounds(gi + 1)); }
        save2 := groups[gi + 1];
      }
      PutLocal(li, -1);
      r := GcMin(g, n, i, 0, f);
      if r.Err? || r.value { return; }
      PutLocal(li, save0);
      PutBounds(n, gi, save1, gi + 1, save2);
    }

    /** One write into the `locals` array. */
    method PutLocal(k: int, v: int)
      requires Valid() && 0 <= k < locals.Length
      modifies locals
      ensures Snapshot() == S.PutL(old(Snapshot()), k, v)
    {
      locals[k] := v;
    }

    /** `groups[x] = vx; groups[y] = vy` when the `GroupCurly` captures. */
    method PutBounds(n: Node<V>, x: int, vx: int, y: int, vy: int)
      requires Valid() && n.GroupCurlyN?
      requires n.capture ==> 0 <= x < groups.Length && 0 <= y < groups.Length
      modifies groups
      ensures Snapshot() == S.PutGIf(n.capture, S.PutGIf(n.capture, old(Snapshot()), x, vx), y, vy)
    {
      if n.capture {
        groups[x] := vx;
        groups[y] := vy;
      }
    }

    /** The mandatory-atom loop of `GroupCurly.match`, then the type's loop. */
    method GcMin(g: Graph<V>, n: Node<V>, i0: int, j0: int, f: nat) returns (r: Outcome<bool>)
      requires Valid() && n.GroupCurlyN? && S.GcSlots(n, Snapshot())
      modifies this, groups, locals
      decreases f, 6
      ensures Agrees(r, S.GcMin(g, n, old(Snapshot()), i0, j0, f), Snapshot())
    {
      var gi := n.groupIndex;
      var i := i0;
      var j := j0;
      ghost var target := S.GcMin(g, n, Snapshot(), i, j, f);
      while j < n.cmin
        invariant S.GcSlots(n, Snapshot())
        invariant S.GcMin(g, n, Snapshot(), i, j, f) == target
        decreases n.cmin - j
      {
        var a := Match(g, n.atom, i, f);
        if a.Err? || !a.value { return a; }
        PutBounds(n, gi, i, gi + 1, last);
        i := last;
        j := j + 1;
      }
      match n.mode
      case Greedy => r := Gc0(g, n, i, n.cmin, f);
      case Lazy => r := Gc1(g, n, i, n.cmin, f);
      case _ => r := Gc2(g, n, i, n.cmin, f);
    }

    /** `GroupCurly.match0`, the greedy loop. */
    method Gc0(g: Graph<V>, n: Node<V>, i: int, j: int, f: nat) returns (r: Outcome<bool>)
      requires Valid() && n.GroupCurlyN? && S.GcSlots(n, Snapshot())
      modifies this, groups, locals
      decreases f, 5
      ensures Agrees(r, S.Gc0(g, n, old(Snapshot()), i, j, f), Snapshot())
    {
      var gi := n.groupIndex;
      var save0 := if n.capture then groups[gi] else 0;
      var save1 := if n.capture then groups[gi + 1] else 0;
      if j >= n.cmax { r := Gc0Exit(g, n, i, save0, save1, f); return; }
      var a := Match(g, n.atom, i, f);
      if a.Err? { return a; }
      if !a.value { r := Gc0Exit(g, n, i, save0, save1, f); return; }
      var k := last - i;
      if k <= 0 {
        PutBounds(n, gi, i, gi + 1, i + k);
        r := Gc0Exit(g, n, i + k, save0, save1, f);
      } else {
        r := Gc0More(g, n, i, j, k, save0, save1, f);
      }
    }

    /** The inner `for (;;)` of `GroupCurly.match0`: more atoms of width `k`. */
    method Gc0More(g: Graph<V>, n: Node<V>, i0: int, j0: int, k: int, save0: int, save1: int, f: nat)
      returns (r: Outcome<bool>)
      requires Valid() && n.GroupCurlyN? && S.GcSlots(n, Snapshot())
      modifies this, groups, locals
      decreases f, 4
      ensures Agrees(r, S.Gc0More(g, n, old(Snapshot()), i0, j0, k, save0, save1, f), Snapshot())
    {
      var gi := n.groupIndex;
      var i := i0;
      var j := j0;
      ghost var target := S.Gc0More(g, n, Snapshot(), i, j, k, save0, save1, f);
      while true
        invariant S.GcSlots(n, Snapshot())
        invariant S.Gc0More(g, n, Snapshot(), i, j, k, save0, save1, f) == target
        decreases n.cmax - j
      {
        PutBounds(n, gi, i, gi + 1, i + k);
        i := i + k;
        j := j + 1;
        if j >= n.cmax { break; }
        var a := Match(g, n.atom, i, f);
        if a.Err? { return a; }
        if !a.value { break; }
        if i + k != last {
          if f == 0 { return Err(StackOverflow); }
          var b := Gc0(g, n, i, j, f - 1);
          if b.Err? || b.value { return b; }
          break;
        }
      }
      r := Gc0Back(g, n, i, j, k, save0, save1, f);
    }

    /** The back-off loop of `GroupCurly.match0`. */
    method Gc0Back(g: Graph<V>, n: Node<V>, i0: int, j0: int, k: int, save0: int, save1: int, f: nat)
      returns (r: Outcome<bool>)
      requires Valid() && n.GroupCurlyN? && S.GcSlots(n, Snapshot())
      modifies this, groups, locals
      decreases f, 3
      ensures Agrees(r, S.Gc0Back(g, n, old(Snapshot()), i0, j0, k, save0, save1, f), Snapshot())
    {
      var gi := n.groupIndex;
      var i := i0;
      var j := j0;
      ghost var target := S.Gc0Back(g, n, Snapshot(), i, j, k, save0, save1, f);
      while j > n.cmin
        invariant S.GcSlots(n, Snapshot())
        invariant S.Gc0Back(g, n, Snapshot(), i, j, k, save0, save1, f) == target
        decreases j - n.cmin
      {
        var b := Match(g, n.next, i, f);
        if b.Err? { return b; }
        PutBounds(n, gi + 1, i, gi, i - k);
        i := i - k;
        if b.value { return b; }
        j := j - 1;
      }
      r := Gc0Exit(g, n, i, save0, save1, f);
    }

    /** The end of `GroupCurly.match0`: the saved bounds back, then the
        continuation. */
    method Gc0Exit(g: Graph<V>, n: Node<V>, i: int, save0: int, save1: int, f: nat)
      returns (r: Outcome<bool>)
      requires Valid() && n.GroupCurlyN? && S.GcSlots(n, Snapshot())
      modifies this, groups, locals
      decreases f, 2
      ensures Agrees(r, S.Gc0Exit(g, n, old(Snapshot()), i, save0, save1, f), Snapshot())
    {
      PutBounds(n, n.groupIndex, save0, n.groupIndex + 1, save1);
      r := Match(g, n.next, i, f);
    }

    /** `GroupCurly.match1`, the reluctant loop. */
    method Gc1(g: Graph<V>, n: Node<V>, i0: int, j0: int, f: nat) returns (r: Outcome<bool>)
      requires Valid() && n.GroupCurlyN? && S.GcSlots(n, Snapshot())
      modifies this, groups, locals
      decreases f, 1
      ensures Agrees(r, S.Gc1(g, n, old(Snapshot()), i0, j0, f), Snapshot())
    {
      var gi := n.groupIndex;
      var i := i0;
      var j := j0;
      ghost var target := S.Gc1(g, n, Snapshot(), i, j, f);
      while true
        invariant S.GcSlots(n, Snapshot())
        invariant S.Gc1(g, n, Snapshot(), i, j, f) == target
        decreases n.cmax - j
      {
        var b := Match(g, n.next, i, f);
        if b.Err? || b.value { return b; }
        if j >= n.cmax { return Ok(false); }
        var a := Match(g, n.atom, i, f);
        if a.Err? || !a.value { return a; }
        if i == last { return Ok(false); }
        PutBounds(n, gi, i, gi + 1, last);
        i := last;
        j := j + 1;
      }
    }

    /** `GroupCurly.match2`, the possessive loop. */
    method Gc2(g: Graph<V>, n: Node<V>, i0: int, j0: int, f: nat) returns (r: Outcome<bool>)
      requires Valid() && n.GroupCurlyN? && S.GcSlots(n, Snapshot())
      modifies this, groups, locals
      decreases f, 1
      ensures Agrees(r, S.Gc2(g, n, old(Snapshot()), i0, j0, f), Snapshot())
    {
      var gi := n.groupIndex;
      var i := i0;
      var j := j0;
      ghost var target := S.Gc2(g, n, Snapshot(), i, j, f);
      while j < n.cmax
        invariant S.GcSlots(n, Snapshot())
        invariant S.Gc2(g, n, Snapshot(), i, j, f) == target
        decreases n.cmax - j
      {
        var a := Match(g, n.atom, i, f);
        if a.Err? { return a; }
        if !a.value { break; }
        PutBounds(n, gi, i, gi + 1, last);
        if i == last { break; }
        i := last;
        j := j + 1;
      }
      r := Match(g, n.next, i, f);
    }

    // ---- alternation ----

    method MatchBranch(g: Graph<V>, n: Node<V>, i: int, f: nat) returns (r: Outcome<bool>)
      requires Valid() && n.BranchN?
      modifies this, groups, locals
      decreases f, 2
      ensures Agrees(r, S.MatchBranch(g, n, old(Snapshot()), i, f), Snapshot())
    {
      var k := 0;
      ghost var target := S.BranchLoop(g, n, Snapshot(), i, k, f);
      while k < |n.atoms|
        invariant 0 <= k <= |n.atoms|
        invariant S.BranchLoop(g, n, Snapshot(), i, k, f) == target
        decreases |n.atoms| - k
      {
        var a;
        if n.atoms[k] == Null {
          if !IsNode(g, n.conn) { return Err(NullPointer); }
          a := Match(g, g[n.conn].next, i, f);
        } else {
          a := Match(g, n.atoms[k], i, f);
        }
        if a.Err? || a.value { return a; }
        k := k + 1;
      }
      return Ok(false);
    }

    // ---- groups ----

    method MatchGroupHead(g: Graph<V>, n: Node<V>, i: int, f: nat) returns (r: Outcome<bool>)
      requires Valid() && n.GroupHeadN?
      modifies this, groups, locals
      decreases f, 1
      ensures Agrees(r, S.MatchGroupHead(g, n, old(Snapshot()), i, f), Snapshot())
    {
      var li := n.localIndex;
      if !(0 <= li < locals.Length) { return Err(IndexOutOfBounds(li)); }
      var save := locals[li];
      PutLocal(li, i);
      r := Match(g, n.next, i, f);
      if r.Err? { return; }
      PutLocal(li, save);
    }

    /** `GroupHead.matchRef`. */
    method MatchRef(g: Graph<V>, h: Node<V>, i: int, f: nat) returns (r: Outcome<bool>)
      requires Valid() && h.GroupHeadN?
      modifies this, groups, locals
      decreases f, 1
      ensures Agrees(r, S.MatchRef(g, h, old(Snapshot()), i, f), Snapshot())
    {
      var li := h.localIndex;
      if !(0 <= li < locals.Length) { return Err(IndexOutOfBounds(li)); }
      var save := locals[li];
      PutLocal(li, -i - 1);
      r := Match(g, h.next, i, f);
      if r.Err? { return; }
      PutLocal(li, save);
    }

    method MatchGroupRef(g: Graph<V>, n: Node<V>, i: int, f: nat) returns (r: Outcome<bool>)
      requires Valid() && n.GroupRefN?
      modifies this, groups, locals
      decreases f, 2
      ensures Agrees(r, S.MatchGroupRef(g, n, old(Snapshot()), i, f), Snapshot())
    {
      if !IsNode(g, n.head) { return Err(NullPointer); }
      var h := g[n.head];
      if !h.GroupHeadN? { return Err(ClassCast); }
      r := MatchRef(g, h, i, f);
      if r.Err? || !r.value { return; }
      r := Match(g, n.next, last, f);
    }

    method MatchGroupTail(g: Graph<V>, n: Node<V>, i: int, f: nat) returns (r: Outcome<bool>)
      requires Valid() && n.GroupTailN?
      modifies this, groups, locals
      decreases f, 1
      ensures Agrees(r, S.MatchGroupTail(g, n, old(Snapshot()), i, f), Snapshot())
    {
      var li, gi := n.localIndex, n.groupIndex;
      if !(0 <= li < locals.Length) { return Err(IndexOutOfBounds(li)); }
      var tmp := locals[li];
      if tmp < 0 {
        last := i;
        return Ok(true);
      }
      if !(0 <= gi < groups.Length) { return Err(IndexOutOfBounds(gi)); }
      var groupStart := groups[gi];
      if !(0 <= gi + 1 < groups.Length) { return Err(IndexOutOfBounds(gi + 1)); }
      var groupEnd := groups[gi + 1];
      PutPair(gi, tmp, gi + 1, i);
      r := Match(g, n.next, i, f);
      if r.Err? || r.value { return; }
      PutPair(gi, groupStart, gi + 1, groupEnd);
    }

    /** `groups[x] = vx; groups[y] = vy`. */
    method PutPair(x: int, vx: int, y: int, vy: int)
      requires Valid() && 0 <= x < groups.Length && 0 <= y < groups.Length
      modifies groups
      ensures Snapshot() == S.PutG(S.PutG(old(Snapshot()), x, vx), y, vy)
    {
      groups[x] := vx;
      groups[y] := vy;
    }

    // ---- general repetition through Prolog and Loop ----

    method MatchProlog(g: Graph<V>, n: Node<V>, i: int, f: nat) returns (r: Outcome<bool>)
      requires Valid() && n.PrologN?
      modifies this, groups, locals
      decreases f, 3
      ensures Agrees(r, S.MatchProlog(g, n, old(Snapshot()), i, f), Snapshot())
    {
      if !IsNode(g, n.loop) { return Err(NullPointer); }
      var l := g[n.loop];
      if !l.LoopN? { return Err(ClassCast); }
      r := LoopInit(g, l, i, f);
    }

    /** `Loop.matchInit` and `LazyLoop.matchInit`. */
    method LoopInit(g: Graph<V>, l: Node<V>, i: int, f: nat) returns (r: Outcome<bool>)
      requires Valid() && l.LoopN?
      modifies this, groups, locals
      decreases f, 2
      ensures Agrees(r, S.LoopInit(g, l, old(Snapshot()), i, f), Snapshot())
    {
      var ci := l.countIndex;
      if !(0 <= ci < locals.Length) { return Err(IndexOutOfBounds(ci)); }
      var save := locals[ci];
      r := LoopInitBody(g, l, i, f);
      if r.Err? { return; }
      PutLocal(ci, save);
    }

    method LoopInitBody(g: Graph<V>, l: Node<V>, i: int, f: nat) returns (r: Outcome<bool>)
      requires Valid() && l.LoopN? && 0 <= l.countIndex < locals.Length
      modifies this, groups, locals
      decreases f, 1
      ensures Agrees(r, S.LoopInitBody(g, l, old(Snapshot()), i, f), Snapshot())
    {
      var ci := l.countIndex;
      if 0 < l.cmin {
        PutLocal(ci, 1);
        r := Match(g, l.body, i, f);
      } else if !l.lazy {
        if 0 < l.cmax {
          PutLocal(ci, 1);
          r := Match(g, l.body, i, f);
          if r.Err? || r.value { return; }
        }
        r := Match(g, l.next, i, f);
      } else {
        r := Match(g, l.next, i, f);
        if r.Err? || r.value { return; }
        if 0 < l.cmax {
          PutLocal(ci, 1);
          r := Match(g, l.body, i, f);
        }
      }
    }

    /** `Loop.match` and `LazyLoop.match`. */
    method MatchLoop(g: Graph<V>, n: Node<V>, i: int, f: nat) returns (r: Outcome<bool>)
      requires Valid() && n.LoopN?
      modifies this, groups, locals
      decreases f, 2
      ensures Agrees(r, S.MatchLoop(g, n, old(Snapshot()), i, f), Snapshot())
    {
      var bi, ci := n.beginIndex, n.countIndex;
      if !(0 <= bi < locals.Length) { return Err(IndexOutOfBounds(bi)); }
      if i > locals[bi] {
        if !(0 <= ci < locals.Length) { return Err(IndexOutOfBounds(ci)); }
        var count := locals[ci];
        if count < n.cmin {
          r := LoopIterate(g, n, i, count, f);
          return;
        }
        if !n.lazy {
          if count < n.cmax {
            r := LoopIterate(g, n, i, count, f);
            if r.Err? || r.value { return; }
          }
        } else {
          r := Match(g, n.next, i, f);
          if r.Err? || r.value { return; }
          if count < n.cmax {
            r := LoopIterate(g, n, i, count, f);
          }
          return;
        }
      }
      r := Match(g, n.next, i, f);
    }

    method LoopIterate(g: Graph<V>, n: Node<V>, i: int, count: int, f: nat) returns (r: Outcome<bool>)
      requires Valid() && n.LoopN? && 0 <= n.countIndex < locals.Length
      modifies this, groups, locals
      decreases f, 1
      ensures Agrees(r, S.LoopIterate(g, n, old(Snapshot()), i, count, f), Snapshot())
    {
      PutLocal(n.countIndex, count + 1);
      r := Match(g, n.body, i, f);
      if r.Err? || r.value { return; }
      PutLocal(n.countIndex, count);
    }

    // ---- back references ----

    method MatchBackRef(g: Graph<V>, n: Node<V>, i: int, f: nat) returns (r: Outcome<bool>)
      requires Valid() && n.BackRefN?
      modifies this, groups, locals
      decreases f, 2
      ensures Agrees(r, S.MatchBackRef(g, n, old(Snapshot()), i, f), Snapshot())
    {
      var gi := n.groupIndex;
      if !(0 <= gi < groups.Length) { return Err(IndexOutOfBounds(gi)); }
      var j := groups[gi];
      if !(0 <= gi + 1 < groups.Length) { return Err(IndexOutOfBounds(gi + 1)); }
      var k := groups[gi + 1];
      var groupSize := k - j;
      if j < 0 { return Ok(false); }
      if i + groupSize > to { hitEnd := true; return Ok(false); }
      var index := 0;
      while index < groupSize
        invariant Snapshot() == old(Snapshot())
        invariant S.BackRefLoop(g, n, Snapshot(), i, j, groupSize, index, f)
                  == S.MatchBackRef(g, n, Snapshot(), i, f)
        decreases groupSize - index
      {
        if !(0 <= i + index < |text|) { return Err(IndexOutOfBounds(i + index)); }
        if !(0 <= j + index < |text|) { return Err(IndexOutOfBounds(j + index)); }
        if text[i + index].ref != text[j + index].ref { return Ok(false); }
        index := index + 1;
      }
      r := Match(g, n.next, i + groupSize, f);
    }

    // ---- First, Conditional and lookarounds ----

    method MatchFirst(g: Graph<V>, n: Node<V>, i0: int, f: nat) returns (r: Outcome<bool>)
      requires Valid() && n.FirstN?
      modifies this, groups, locals
      decreases f, 1
      ensures Agrees(r, S.MatchFirst(g, n, old(Snapshot()), i0, f), Snapshot())
    {
      var i := i0;
      ghost var target := S.MatchFirst(g, n, Snapshot(), i, f);
      ghost var to0 := to;
      while true
        invariant to == to0
        invariant S.MatchFirst(g, n, Snapshot(), i, f) == target
        decreases to0 - i + 1
      {
        if i > to { hitEnd := true; return Ok(false); }
        var a := Match(g, n.atom, i, f);
        if a.Err? { return a; }
        if a.value {
          r := Match(g, n.next, last, f);
          return;
        }
        i := i + 1;
        first := first + 1;
      }
    }

    method MatchConditional(g: Graph<V>, n: Node<V>, i: int, f: nat) returns (r: Outcome<bool>)
      requires Valid() && n.ConditionalN?
      modifies this, groups, locals
      decreases f, 1
      ensures Agrees(r, S.MatchConditional(g, n, old(Snapshot()), i, f), Snapshot())
    {
      var c := Match(g, n.cond, i, f);
      if c.Err? { return c; }
      if c.value {
        r := Match(g, n.yes, i, f);
      } else {
        r := Match(g, n.not, i, f);
      }
    }

    method MatchPos(g: Graph<V>, n: Node<V>, i: int, f: nat) returns (r: Outcome<bool>)
      requires Valid() && n.PosN?
      modifies this, groups, locals
      decreases f, 2
      ensures Agrees(r, S.MatchPos(g, n, old(Snapshot()), i, f), Snapshot())
    {
      var c := LookCond(g, n.cond, i, f, false);
      if c.Err? || !c.value { return c; }
      r := Match(g, n.next, i, f);
    }

    method MatchNeg(g: Graph<V>, n: Node<V>, i: int, f: nat) returns (r: Outcome<bool>)
      requires Valid() && n.NegN?
      modifies this, groups, locals
      decreases f, 2
      ensures Agrees(r, S.MatchNeg(g, n, old(Snapshot()), i, f), Snapshot())
    {
      var c := LookCond(g, n.cond, i, f, true);
      if c.Err? { return c; }
      if c.value { return Ok(false); }
      r := Match(g, n.next, i, f);
    }

    /** The condition of `Pos`/`Neg` with `to` widened and then restored. */
    method LookCond(g: Graph<V>, cond: Id, i: int, f: nat, neg: bool) returns (r: Outcome<bool>)
      requires Valid()
      modifies this, groups, locals
      decreases f, 1
      ensures Agrees(r, S.LookCond(g, cond, old(Snapshot()), i, f, neg), Snapshot())
    {
      var savedTo := to;
      Widen(i, neg);
      r := Match(g, cond, i, f);
      SetTo(savedTo);
    }

    /** The region change before a look-ahead's condition. */
    method Widen(i: int, neg: bool)
      modifies this`to, this`requireEnd
      ensures var s0 := if old(transparentBounds) then old(Snapshot()).(to := |text|) else old(Snapshot());
              Snapshot() == if neg && i >= s0.to then s0.(requireEnd := true) else s0
    {
      if transparentBounds { to := |text|; }
      if neg && i >= to { requireEnd := true; }
    }

    /** Restoring `to` after a look-ahead. */
    method SetTo(x: int)
      modifies this`to
      ensures Snapshot() == old(Snapshot()).(to := x)
    {
      to := x;
    }

    /** The search shared by `Behind` and `NotBehind`: whether the condition
        matches from some start in `i - rmax .. i - rmin`, latest first,
        with `from` and `lookbehindTo` restored afterwards. */
    method BehindSearch(g: Graph<V>, cond: Id, i: int, rmax: int, rmin: int, f: nat)
      returns (r: Outcome<bool>)
      requires Valid()
      modifies this, groups, locals
      decreases f, 2
      ensures match S.BehindLoop(g, cond, S.BehindState(old(Snapshot()), i), i - rmin,
                                 S.BehindLow(old(Snapshot()), i, rmax), f)
              case Ok(c) =>
                r == Ok(c.matched)
                && Snapshot() == c.st.(from := old(from), lookbehindTo := old(lookbehindTo))
              case Err(x) => r == Err(x)
    {
      var savedFrom := from;
      var startIndex := if !transparentBounds then from else 0;
      var lo := Max(i - rmax, startIndex);
      var savedLBT := lookbehindTo;
      lookbehindTo := i;
      if transparentBounds { from := 0; }
      r := BehindScan(g, cond, i - rmin, lo, f);
      if r.Err? { return; }
      from := savedFrom;
      lookbehindTo := savedLBT;
    }

    /** The loop of `Behind` and `NotBehind`: the condition tried from each
        start `j` down to `lo` until it matches. */
    method BehindScan(g: Graph<V>, cond: Id, j0: int, lo: int, f: nat) returns (r: Outcome<bool>)
      requires Valid()
      modifies this, groups, locals
      decreases f, 1
      ensures match S.BehindLoop(g, cond, old(Snapshot()), j0, lo, f)
              case Ok(c) => r == Ok(c.matched) && Snapshot() == c.st
              case Err(x) => r == Err(x)
    {
      var matched := false;
      var j := j0;
      ghost var target := S.BehindLoop(g, cond, Snapshot(), j, lo, f);
      while !matched && j >= lo
        invariant Valid()
        invariant !matched ==> S.BehindLoop(g, cond, Snapshot(), j, lo, f) == target
        invariant matched ==> target == Ok(S.Res(true, Snapshot()))
        decreases j - lo + 1
      {
        var c := Match(g, cond, j, f);
        if c.Err? { return c; }
        matched := c.value;
        j := j - 1;
      }
      return Ok(matched);
    }

    method MatchBehind(g: Graph<V>, n: Node<V>, i: int, f: nat) returns (r: Outcome<bool>)
      requires Valid() && n.BehindN?
      modifies this, groups, locals
      decreases f, 3
      ensures Agrees(r, S.MatchBehind(g, n, old(Snapshot()), i, f), Snapshot())
    {
      var c := BehindSearch(g, n.cond, i, n.rmax, n.rmin, f);
      if c.Err? || !c.value { return c; }
      r := Match(g, n.next, i, f);
    }

    method MatchNotBehind(g: Graph<V>, n: Node<V>, i: int, f: nat) returns (r: Outcome<bool>)
      requires Valid() && n.NotBehindN?
      modifies this, groups, locals
      decreases f, 3
      ensures Agrees(r, S.MatchNotBehind(g, n, old(Snapshot()), i, f), Snapshot())
    {
      var c := BehindSearch(g, n.cond, i, n.rmax, n.rmin, f);
      if c.Err? { return c; }
      if c.value { return Ok(false); }
      r := Match(g, n.next, i, f);
    }
  }
}
