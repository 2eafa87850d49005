/** `TreeInfo` and `Node.study`: the static analysis that computes the
    minimum and maximum length a node chain can match, whether the maximum
    is known, and whether the chain is deterministic. All lengths are Java
    `int`s and wrap around as Java's do. */
module Study {
  import opened Base
  import opened Tokens
  import opened CharClass
  import opened Nodes

  /** The four fields of a `TreeInfo`. */
  datatype Info = Info(minLength: int, maxLength: int, maxValid: bool, deterministic: bool)

  /** `TreeInfo.reset()`: nothing matched yet, maximum known, deterministic. */
  const Fresh: Info := Info(0, 0, true, true)

  /** The `TreeInfo` a `study` call leaves and the boolean it returns. */
  datatype Studied = Studied(info: Info, ret: bool)

  /** Both lengths fit Java's `int`. */
  predicate Int32Info(a: Info) { IsInt32(a.minLength) && IsInt32(a.maxLength) }

  /** The arbitrary large minimum a counted closure records when its
      minimum overflows. */
  const LARGE_MIN: int := 0xFFF_FFFF

  /** What `Curly.study` and `GroupCurly.study` hand on to their
      continuation: `prior` is the info they were entered with and `atom`
      the atom's info studied from a reset. The minimum is
      `atom.min * cmin + prior.min`, replaced by a large constant when the
      sum comes out below `prior.min`; the maximum is
      `atom.max * cmax + prior.max`, marked unknown when either side is
      unknown or the sum comes out below `prior.max`; determinism survives
      only an exact count over a deterministic atom. */
  function CurlyInfo(prior: Info, atom: Info, cmin: int, cmax: int): (r: Info)
    ensures r.deterministic <==> atom.deterministic && cmin == cmax && prior.deterministic
    ensures !(prior.maxValid && atom.maxValid) ==> !r.maxValid
    ensures IsInt32(prior.minLength) && IsInt32(atom.minLength * cmin) && atom.minLength * cmin >= 0
            && IsInt32(atom.minLength * cmin + prior.minLength)
            ==> r.minLength == atom.minLength * cmin + prior.minLength
    ensures prior.maxValid && atom.maxValid && IsInt32(prior.maxLength)
            && IsInt32(atom.maxLength * cmax) && atom.maxLength * cmax >= 0
            && IsInt32(atom.maxLength * cmax + prior.maxLength)
            ==> r.maxValid && r.maxLength == atom.maxLength * cmax + prior.maxLength
    ensures IsInt32(prior.minLength) && IsInt32(prior.maxLength) && IsInt32(atom.maxLength) ==> Int32Info(r)
  {
    var temp := Add32(Mul32(atom.minLength, cmin), prior.minLength);
    var minLength := if temp < prior.minLength then LARGE_MIN else temp;
    var maxTemp := Add32(Mul32(atom.maxLength, cmax), prior.maxLength);
    var maxValid := prior.maxValid && atom.maxValid && !(maxTemp < prior.maxLength);
    var maxLength := if prior.maxValid && atom.maxValid then maxTemp else atom.maxLength;
    Info(minLength, maxLength, maxValid, atom.deterministic && cmin == cmax && prior.deterministic)
  }

  /** What `Conditional.study` hands on: the shorter minimum and the longer
      maximum of its two arms added to the prior ones. */
  function ConditionalInfo(prior: Info, yes: Info, not: Info): (r: Info)
    ensures !r.deterministic
    ensures r.maxValid <==> prior.maxValid && yes.maxValid && not.maxValid
    ensures IsInt32(prior.minLength + Min(yes.minLength, not.minLength)) ==>
            r.minLength == prior.minLength + Min(yes.minLength, not.minLength)
    ensures IsInt32(prior.maxLength + Max(yes.maxLength, not.maxLength)) ==>
            r.maxLength == prior.maxLength + Max(yes.maxLength, not.maxLength)
    ensures Int32Info(r)
  {
    Info(Add32(prior.minLength, Min(yes.minLength, not.minLength)),
         Add32(prior.maxLength, Max(yes.maxLength, not.maxLength)),
         prior.maxValid && yes.maxValid && not.maxValid, false)
  }

  /** The node kinds whose `study` adds lengths or wraps an atom. */
  predicate FrontKind<V>(n: Node<V>)
  {
    n.StartN? || n.DollarN? || n.CharPropN? || n.SliceN? || n.QuesN? || n.CurlyN? || n.GroupCurlyN?
    || n.BranchConnN?
  }

  /** `node.study(info)` for the node with id `id`; `fuel` bounds the depth
      of nested calls. A node whose class does not override `study`
      continues with `next`, or returns `deterministic` when `next` is
      null. */
  function StudyNode<V>(g: Graph<V>, id: Id, info: Info, fuel: nat): (r: Outcome<Studied>)
    decreases fuel, 0
    ensures r.Ok? ==> IsNode(g, id)
    ensures r.Ok? && Int32Info(info) ==> Int32Info(r.value.info)
    ensures r.Ok? && r.value.ret ==> r.value.info.deterministic
  {
    if fuel == 0 then Err(StackOverflow)
    else if !IsNode(g, id) then Err(NullPointer)
    else
      var n := g[id];
      var f := fuel - 1;
      match n
      case StartN(next, _) =>
        var s :- StudyNode(g, next, info, f);
        Ok(Studied(s.info.(maxValid := false, deterministic := false), false))
      case DollarN(next) =>
        var s :- StudyNode(g, next, info, f);
        Ok(Studied(s.info, s.info.deterministic))
      case CharPropN(next, _) => StudyNode(g, next, Grow(info, 1), f)
      case SliceN(next, buf) => StudyNode(g, next, Grow(info, |buf|), f)
      case QuesN(next, atom, mode) => QuesStudied(g, next, atom, mode, info, f)
      case CurlyN(next, atom, _, cmin, cmax) => CountedStudied(g, next, atom, cmin, cmax, info, f)
      case GroupCurlyN(next, atom, _, cmin, cmax, _, _, _) => CountedStudied(g, next, atom, cmin, cmax, info, f)
      case BranchConnN(_) => Ok(Studied(info, info.deterministic))
      case BranchN(_, atoms, conn) => BranchStudied(g, atoms, conn, info, f)
      case GroupRefN(next, _) => StudyNode(g, next, info.(maxValid := false, deterministic := false), f)
      case PrologN(_, loop) =>
        var l :- Deref(g, loop);
        if !l.LoopN? then Err(ClassCast) else Ok(Studied(Unbounded(info), false))
      case LoopN(_, _, _, _, _, _, _) => Ok(Studied(Unbounded(info), false))
      case BackRefN(next, _) => StudyNode(g, next, info.(maxValid := false), f)
      case FirstN(next, atom) => FirstStudied(g, next, atom, info, f)
      case ConditionalN(next, _, yes, not) => ConditionalStudied(g, next, yes, not, info, f)
      case _ =>
        if IsNode(g, n.next) then StudyNode(g, n.next, info, f)
        else Ok(Studied(info, info.deterministic))
  }

  /** One element more, or a run of `k` (`CharProperty`, `Slice`). */
  function Grow(info: Info, k: int): (r: Info)
    ensures Int32Info(r) && r.maxValid == info.maxValid && r.deterministic == info.deterministic
    ensures IsInt32(info.minLength + k) ==> r.minLength == info.minLength + k
    ensures IsInt32(info.maxLength + k) ==> r.maxLength == info.maxLength + k
  {
    info.(minLength := Add32(info.minLength, k), maxLength := Add32(info.maxLength, k))
  }

  /** No known maximum and not deterministic (`Loop`, `Start`, `First`). */
  function Unbounded(info: Info): (r: Info)
    ensures !r.maxValid && !r.deterministic
    ensures r.minLength == info.minLength && r.maxLength == info.maxLength
  {
    info.(maxValid := false, deterministic := false)
  }

  /** `Ques.study`: the atom may be skipped, so the minimum is put back;
      an independent group is studied as the atom followed by the rest. */
  function QuesStudied<V>(g: Graph<V>, next: Id, atom: Id, mode: Mode, info: Info, f: nat): (r: Outcome<Studied>)
    decreases f, 1
    ensures r.Ok? && Int32Info(info) ==> Int32Info(r.value.info)
    ensures r.Ok? && r.value.ret ==> r.value.info.deterministic
  {
    var a :- StudyNode(g, atom, info, f);
    if mode != Independent then
      StudyNode(g, next, a.info.(minLength := info.minLength, deterministic := false), f)
    else StudyNode(g, next, a.info, f)
  }

  /** `Curly.study` and `GroupCurly.study`: the atom from a reset, then the
      continuation with the counted info. */
  function CountedStudied<V>(g: Graph<V>, next: Id, atom: Id, cmin: int, cmax: int, info: Info, f: nat)
    : (r: Outcome<Studied>)
    decreases f, 1
    ensures r.Ok? && Int32Info(info) ==> Int32Info(r.value.info)
    ensures r.Ok? && r.value.ret ==> r.value.info.deterministic
  {
    var a :- StudyNode(g, atom, Fresh, f);
    StudyNode(g, next, CurlyInfo(info, a.info, cmin, cmax), f)
  }

  /** `First.study`: the atom, then the continuation with no known maximum. */
  function FirstStudied<V>(g: Graph<V>, next: Id, atom: Id, info: Info, f: nat): (r: Outcome<Studied>)
    decreases f, 1
    ensures r.Ok? && Int32Info(info) ==> Int32Info(r.value.info)
    ensures r.Ok? && r.value.ret ==> r.value.info.deterministic
  {
    var a :- StudyNode(g, atom, info, f);
    StudyNode(g, next, Unbounded(a.info), f)
  }

  /** `Conditional.study`: both arms from a reset, then the continuation. */
  function ConditionalStudied<V>(g: Graph<V>, next: Id, yes: Id, not: Id, info: Info, f: nat)
    : (r: Outcome<Studied>)
    decreases f, 1
    ensures r.Ok? ==> Int32Info(r.value.info)
    ensures r.Ok? && r.value.ret ==> r.value.info.deterministic
  {
    var y :- StudyNode(g, yes, Fresh, f);
    var z :- StudyNode(g, not, Fresh, f);
    StudyNode(g, next, ConditionalInfo(info, y.info, z.info), f)
  }

  /** `Branch.study`: the alternatives, then the connector's continuation
      from a reset, the two added up; a branch is never deterministic. */
  function BranchStudied<V>(g: Graph<V>, atoms: seq<Id>, conn: Id, info: Info, f: nat): (r: Outcome<Studied>)
    decreases f, 2
    ensures r.Ok? && Int32Info(info) ==> Int32Info(r.value.info)
    ensures r.Ok? ==> !r.value.ret && !r.value.info.deterministic
    ensures r.Ok? && !info.maxValid ==> !r.value.info.maxValid
  {
    var alts :- StudyAlternatives(g, atoms, 0, INT_MAX, -1, info.maxValid, f);
    var c :- Deref(g, conn);
    var s :- StudyNode(g, c.next, Fresh, f);
    Ok(Studied(Info(Add32(s.info.minLength, Add32(info.minLength, alts.minLength)),
                    Add32(s.info.maxLength, Add32(info.maxLength, alts.maxLength)),
                    s.info.maxValid && alts.maxValid, false), false))
  }

  /** The alternatives loop of `Branch.study` from alternative `k` on: each
      alternative is studied from a reset (a null one matches the empty
      sequence); the shortest minimum, the longest maximum and whether all
      maxima are known are collected in a `Info` whose `deterministic` is
      unused. */
  function StudyAlternatives<V>(g: Graph<V>, atoms: seq<Id>, k: nat, minL2: int, maxL2: int,
                                maxV: bool, f: nat): (r: Outcome<Info>)
    decreases f, 1, |atoms| - k + 1
    ensures r.Ok? && IsInt32(minL2) && IsInt32(maxL2) ==>
      IsInt32(r.value.minLength) && IsInt32(r.value.maxLength)
    ensures r.Ok? ==> r.value.minLength <= minL2 && r.value.maxLength >= maxL2
    ensures r.Ok? && !maxV ==> !r.value.maxValid
  {
    if k < |atoms| then
      var a :- if atoms[k] == Null then Ok(Studied(Fresh, true)) else StudyNode(g, atoms[k], Fresh, f);
      StudyAlternatives(g, atoms, k + 1, Min(minL2, a.info.minLength), Max(maxL2, a.info.maxLength),
                        maxV && a.info.maxValid, f)
    else Ok(Info(minL2, maxL2, maxV, false))
  }

  /** Once a chain is known to have no bounded maximum, or to be
      non-deterministic, studying more nodes never undoes it. */
  lemma {:induction false} StudySticky<V>(g: Graph<V>, id: Id, info: Info, fuel: nat)
    ensures Sticky(info, StudyNode(g, id, info, fuel))
    decreases fuel, 1
  {
    if fuel > 0 && IsNode(g, id) {
      if FrontKind(g[id]) {
        StickyFront(g, id, info, fuel);
      } else {
        StickyBack(g, id, info, fuel);
      }
    }
  }

  /** A cleared flag stays cleared, and a non-deterministic start gives a
      `false` answer. */
  ghost predicate Sticky(info: Info, r: Outcome<Studied>)
  {
    r.Ok? ==> (!info.maxValid ==> !r.value.info.maxValid)
              && (!info.deterministic ==> !r.value.info.deterministic && !r.value.ret)
  }

  lemma {:induction false} StickyFront<V>(g: Graph<V>, id: Id, info: Info, fuel: nat)
    requires fuel > 0 && IsNode(g, id) && FrontKind(g[id])
    ensures Sticky(info, StudyNode(g, id, info, fuel))
    decreases fuel, 0
  {
    var n := g[id];
    var f := fuel - 1;
    if n.DollarN? {
      StudySticky(g, n.next, info, f);
    } else if n.CharPropN? {
      StudySticky(g, n.next, Grow(info, 1), f);
    } else if n.SliceN? {
      StudySticky(g, n.next, Grow(info, |n.buf|), f);
    } else if n.QuesN? {
      StudySticky(g, n.atom, info, f);
      var a := StudyNode(g, n.atom, info, f);
      if a.Ok? {
        if n.mode != Independent {
          StudySticky(g, n.next, a.value.info.(minLength := info.minLength, deterministic := false), f);
        } else {
          StudySticky(g, n.next, a.value.info, f);
        }
      }
    } else if n.CurlyN? || n.GroupCurlyN? {
      var a := StudyNode(g, n.atom, Fresh, f);
      if a.Ok? { StudySticky(g, n.next, CurlyInfo(info, a.value.info, n.cmin, n.cmax), f); }
    }
  }

  lemma {:induction false} StickyBack<V>(g: Graph<V>, id: Id, info: Info, fuel: nat)
    requires fuel > 0 && IsNode(g, id) && !FrontKind(g[id])
    ensures Sticky(info, StudyNode(g, id, info, fuel))
    decreases fuel, 0
  {
    var n := g[id];
    var f := fuel - 1;
    if n.GroupRefN? {
      StudySticky(g, n.next, info.(maxValid := false, deterministic := false), f);
    } else if n.BackRefN? {
      StudySticky(g, n.next, info.(maxValid := false), f);
    } else if n.FirstN? {
      var a := StudyNode(g, n.atom, info, f);
      if a.Ok? { StudySticky(g, n.next, a.value.info.(maxValid := false, deterministic := false), f); }
    } else if n.ConditionalN? {
      var y := StudyNode(g, n.yes, Fresh, f);
      var z := StudyNode(g, n.not, Fresh, f);
      if y.Ok? && z.Ok? { StudySticky(g, n.next, ConditionalInfo(info, y.value.info, z.value.info), f); }
    } else if !(n.BranchN? || n.PrologN? || n.LoopN?) {
      if IsNode(g, n.next) { StudySticky(g, n.next, info, f); }
    }
  }

  /** `new Start(node)` studies `node` from a reset and keeps the minimum. */
  function StartMinLength<V>(g: Graph<V>, node: Id, fuel: nat): (r: Outcome<int>)
    ensures r.Ok? ==> IsInt32(r.value)
    ensures r.Ok? <==> StudyNode(g, node, Fresh, fuel).Ok?
  {
    var s :- StudyNode(g, node, Fresh, fuel);
    Ok(s.info.minLength)
  }

  /** A `study` call on a `TreeInfo` object returned `r` and left the
      object holding `now`, as the functional `e` says. */
  predicate Agrees(r: Outcome<bool>, e: Outcome<Studied>, now: Info) {
    match e
    case Ok(s) => r == Ok(s.ret) && now == s.info
    case Err(x) => r == Err(x)
  }

  /** A `TreeInfo` object; `study` updates it in place. */
  class TreeInfo {
    var minLength: int
    var maxLength: int
    var maxValid: bool
    var deterministic: bool

    function Value(): Info reads this { Info(minLength, maxLength, maxValid, deterministic) }

    constructor()
      ensures Value() == Fresh
    {
      minLength, maxLength, maxValid, deterministic := 0, 0, true, true;
    }

    method Reset()
      modifies this
      ensures Value() == Fresh
    {
      minLength, maxLength, maxValid, deterministic := 0, 0, true, true;
    }

    /** `node.study(this)` for the node with id `id`. */
    method Study<V>(g: Graph<V>, id: Id, fuel: nat) returns (r: Outcome<bool>)
      modifies this
      decreases fuel, 2
      ensures Agrees(r, StudyNode(g, id, old(Value()), fuel), Value())
    {
      if fuel == 0 { return Err(StackOverflow); }
      if !IsNode(g, id) { return Err(NullPointer); }
      if FrontKind(g[id]) {
        r := StudyFront(g, id, fuel);
      } else {
        r := StudyBack(g, id, fuel);
      }
    }

    /** `study` of the nodes that add lengths or wrap an atom. */
    method StudyFront<V>(g: Graph<V>, id: Id, fuel: nat) returns (r: Outcome<bool>)
      requires fuel > 0 && IsNode(g, id) && FrontKind(g[id])
      modifies this
      decreases fuel, 1
      ensures Agrees(r, StudyNode(g, id, old(Value()), fuel), Value())
    {
      var n := g[id];
      var f := fuel - 1;
      if n.StartN? {
        r := Study(g, n.next, f);
        if r.Err? { return; }
        maxValid := false;
        deterministic := false;
        r := Ok(false);
      } else if n.DollarN? {
        r := Study(g, n.next, f);
        if r.Err? { return; }
        r := Ok(deterministic);
      } else if n.CharPropN? {
        minLength := Add32(minLength, 1);
        maxLength := Add32(maxLength, 1);
        r := Study(g, n.next, f);
      } else if n.SliceN? {
        minLength := Add32(minLength, |n.buf|);
        maxLength := Add32(maxLength, |n.buf|);
        r := Study(g, n.next, f);
      } else if n.QuesN? {
        r := StudyQues(g, n.next, n.atom, n.mode, f);
      } else if n.CurlyN? {
        r := StudyCounted(g, n.next, n.atom, n.cmin, n.cmax, f);
      } else if n.GroupCurlyN? {
        r := StudyCounted(g, n.next, n.atom, n.cmin, n.cmax, f);
      } else {
        r := Ok(deterministic);
      }
    }

    /** `study` of the other nodes. */
    method StudyBack<V>(g: Graph<V>, id: Id, fuel: nat) returns (r: Outcome<bool>)
      requires fuel > 0 && IsNode(g, id) && !FrontKind(g[id])
      modifies this
      decreases fuel, 1
      ensures Agrees(r, StudyNode(g, id, old(Value()), fuel), Value())
    {
      var n := g[id];
      var f := fuel - 1;
      if n.BranchN? {
        r := StudyBranch(g, n.atoms, n.conn, f);
      } else if n.GroupRefN? {
        maxValid := false;
        deterministic := false;
        r := Study(g, n.next, f);
      } else if n.PrologN? {
        if !IsNode(g, n.loop) { return Err(NullPointer); }
        if !g[n.loop].LoopN? { return Err(ClassCast); }
        maxValid := false;
        deterministic := false;
        r := Ok(false);
      } else if n.LoopN? {
        maxValid := false;
        deterministic := false;
        r := Ok(false);
      } else if n.BackRefN? {
        maxValid := false;
        r := Study(g, n.next, f);
      } else if n.FirstN? {
        r := StudyFirst(g, n.next, n.atom, f);
      } else if n.ConditionalN? {
        r := StudyConditional(g, n.next, n.yes, n.not, f);
      } else if IsNode(g, n.next) {
        r := Study(g, n.next, f);
      } else {
        r := Ok(deterministic);
      }
    }

    /** `Ques.study`. */
    method StudyQues<V>(g: Graph<V>, next: Id, atom: Id, mode: Mode, f: nat) returns (r: Outcome<bool>)
      modifies this
      decreases f, 3
      ensures Agrees(r, QuesStudied(g, next, atom, mode, old(Value()), f), Value())
    {
      if mode != Independent {
        var minL := minLength;
        r := Study(g, atom, f);
        if r.Err? { return; }
        minLength := minL;
        deterministic := false;
        r := Study(g, next, f);
      } else {
        r := Study(g, atom, f);
        if r.Err? { return; }
        r := Study(g, next, f);
      }
    }

    /** `First.study`. */
    method StudyFirst<V>(g: Graph<V>, next: Id, atom: Id, f: nat) returns (r: Outcome<bool>)
      modifies this
      decreases f, 3
      ensures Agrees(r, FirstStudied(g, next, atom, old(Value()), f), Value())
    {
      r := Study(g, atom, f);
      if r.Err? { return; }
      maxValid := false;
      deterministic := false;
      r := Study(g, next, f);
    }

    /** `Conditional.study`. */
    method StudyConditional<V>(g: Graph<V>, next: Id, yes: Id, not: Id, f: nat) returns (r: Outcome<bool>)
      modifies this
      decreases f, 3
      ensures Agrees(r, ConditionalStudied(g, next, yes, not, old(Value()), f), Value())
    {
      var minL, maxL, maxV := minLength, maxLength, maxValid;
      Reset();
      r := Study(g, yes, f);
      if r.Err? { return; }
      var minL2, maxL2, maxV2 := minLength, maxLength, maxValid;
      Reset();
      r := Study(g, not, f);
      if r.Err? { return; }
      minLength := Add32(minL, Min(minL2, minLength));
      maxLength := Add32(maxL, Max(maxL2, maxLength));
      maxValid := maxV && maxV2 && maxValid;
      deterministic := false;
      r := Study(g, next, f);
    }

    /** `Curly.study` and `GroupCurly.study`. */
    method StudyCounted<V>(g: Graph<V>, next: Id, atom: Id, cmin: int, cmax: int, f: nat)
      returns (r: Outcome<bool>)
      modifies this
      decreases f, 3
      ensures Agrees(r, CountedStudied(g, next, atom, cmin, cmax, old(Value()), f), Value())
    {
      var prior := Value();
      Reset();
      r := Study(g, atom, f);
      if r.Err? { return; }
      ApplyCounts(prior, cmin, cmax);
      r := Study(g, next, f);
    }

    /** The lengths after a counted closure, from those before it (`prior`)
      and the atom's, which the fields hold. */
    method ApplyCounts(prior: Info, cmin: int, cmax: int)
      modifies this
      ensures Value() == CurlyInfo(prior, old(Value()), cmin, cmax)
    {
      var minL, maxL, maxV, detm := prior.minLength, prior.maxLength, prior.maxValid, prior.deterministic;
      var temp := Add32(Mul32(minLength, cmin), minL);
      if temp < minL { temp := LARGE_MIN; }
      minLength := temp;
      if maxV && maxValid {
        temp := Add32(Mul32(maxLength, cmax), maxL);
        maxLength := temp;
        if temp < maxL { maxValid := false; }
      } else {
        maxValid := false;
      }
      if deterministic && cmin == cmax { deterministic := detm; } else { deterministic := false; }
    }

    /** `Branch.study`. */
    method StudyBranch<V>(g: Graph<V>, atoms: seq<Id>, conn: Id, f: nat) returns (r: Outcome<bool>)
      modifies this
      decreases f, 3
      ensures Agrees(r, BranchStudied(g, atoms, conn, old(Value()), f), Value())
    {
      var minL, maxL, maxV := minLength, maxLength, maxValid;
      var minL2, maxL2 := INT_MAX, -1;
      var k := 0;
      ghost var target := StudyAlternatives(g, atoms, 0, minL2, maxL2, maxV, f);
      while k < |atoms|
        invariant 0 <= k <= |atoms|
        invariant StudyAlternatives(g, atoms, k, minL2, maxL2, maxV, f) == target
        decreases |atoms| - k
      {
        Reset();
        if atoms[k] != Null {
          r := Study(g, atoms[k], f);
          if r.Err? { return; }
        }
        minL2 := Min(minL2, minLength);
        maxL2 := Max(maxL2, maxLength);
        maxV := maxV && maxValid;
        k := k + 1;
      }
      minL := Add32(minL, minL2);
      maxL := Add32(maxL, maxL2);
      Reset();
      if !IsNode(g, conn) { return Err(NullPointer); }
      r := Study(g, g[conn].next, f);
      if r.Err? { return; }
      minLength := Add32(minLength, minL);
      maxLength := Add32(maxLength, maxL);
      maxValid := maxValid && maxV;
      deterministic := false;
      r := Ok(false);
    }
  }
}
