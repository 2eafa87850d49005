/** `Pattern` as an object: the token list the user builds with `add`,
    the `compile` lifecycle, and the recursive-descent compiler working in
    place on the cursor, the counters and the node arena. Every parsing
    method is proved to do what the function of the same name in
    `ParseSpec` describes. */
module Compiler {
  import opened Base
  import opened Tokens
  import opened CharClass
  import opened Nodes
  import opened Study
  import PS = ParseSpec

  /** The observable fields of a `Pattern` besides the parser's own. */
  datatype PatternState<!V> = PatternState(pattern: seq<PS.Entry<V>>, compiled: bool, root: Id, matchRoot: Id,
                         ps: PS.PState<V>)

  /** `add(...)`: appends to the token list, or throws once the pattern is
      compiled. */
  function Add<V>(o: PatternState<V>, es: seq<PS.Entry<V>>): (r: Outcome<PatternState<V>>)
    ensures r.Err? <==> o.compiled
    ensures r.Err? ==> r.exc == IllegalState
    ensures r.Ok? ==> r.value.pattern == o.pattern + es && r.value.compiled == o.compiled
  {
    if o.compiled then Err(IllegalState) else Ok(o.(pattern := o.pattern + es))
  }

  /** The steps `compile()` takes once the counters are set: parse a
      non-empty pattern (and release the token list), or give the empty
      pattern a `Start` in front of `lastAccept`. */
  function CompiledFrom<V(!new)>(o: PatternState<V>): (r: Outcome<PatternState<V>>)
    ensures r.Ok? ==> r.value.compiled && r.value.pattern == o.pattern
    ensures r.Ok? ==> r.value.ps.capturingGroupCount >= o.ps.capturingGroupCount
    ensures r.Ok? ==> PS.Numbered(o.ps, r.value.ps)
    ensures r.Ok? ==> (PS.Based(o.ps.nodes) ==> PS.Based(r.value.ps.nodes))
    ensures r.Ok? && |o.pattern| == 0 ==> r.value.matchRoot == LAST_ACCEPT
    ensures r.Ok? && |o.pattern| > 0 ==> r.value.ps.cursor == |o.pattern|
  {
    if |o.pattern| > 0 then
      var d :- PS.DoCompile(o.ps.(temp := PS.TokensOf(o.pattern), patternLength := |o.pattern|));
      Ok(o.(compiled := true, root := d.val.0, matchRoot := d.val.1, ps := d.ps.(temp := [], patternLength := 0)))
    else
      var st :- PS.StartNode(o.ps, LAST_ACCEPT);
      Ok(o.(compiled := true, root := st.val, matchRoot := LAST_ACCEPT, ps := st.ps))
  }

  /** `compile()` as written: the counters are reset, the cursor is not. */
  function CompiledAsWritten<V(!new)>(o: PatternState<V>): (r: Outcome<PatternState<V>>)
    ensures r.Ok? ==> r.value.compiled && r.value.pattern == o.pattern
    ensures r.Ok? && |o.pattern| > 0 ==> r.value.ps.cursor == |o.pattern|
  {
    CompiledFrom(o.(ps := o.ps.(capturingGroupCount := 1, localCount := 0)))
  }

  /** `compile()` with the cursor reset as well, so that compiling again
      parses the pattern from its first token. */
  function Compiled<V(!new)>(o: PatternState<V>): (r: Outcome<PatternState<V>>)
    ensures r.Ok? ==> r.value.compiled && r.value.pattern == o.pattern
    ensures r.Ok? ==> r.value.ps.capturingGroupCount >= 1
    ensures r.Ok? && |o.pattern| > 0 ==> r.value.ps.cursor == |o.pattern|
    ensures r.Ok? && PS.Based(o.ps.nodes) ==> PS.Based(r.value.ps.nodes)
  {
    CompiledFrom(o.(ps := o.ps.(capturingGroupCount := 1, localCount := 0, cursor := 0)))
  }

  /** A method's result and new state are those of the function it
      implements: the same value and state, or the same exception (the
      state after an exception is left open). */
  ghost predicate Mirrors<X, V>(r: Outcome<X>, e: Outcome<PS.Parsed<X, V>>, now: PS.PState<V>)
  {
    match e
    case Ok(p) => r == Ok(p.val) && now == p.ps
    case Err(x) => r == Err(x)
  }

  ghost predicate MirrorsState<V>(r: Outcome<()>, e: Outcome<PS.PState<V>>, now: PS.PState<V>)
  {
    match e
    case Ok(p) => r == Ok(()) && now == p
    case Err(x) => r == Err(x)
  }

  ghost predicate MirrorsObj<V>(r: Outcome<()>, e: Outcome<PatternState<V>>, now: PatternState<V>)
  {
    match e
    case Ok(o) => r == Ok(()) && now == o
    case Err(x) => r == Err(x)
  }

  /** One turn of the `clazz` loop: go round again with the next token and
      the updated accumulator, or leave with the finished class. */
  datatype ClassStep<!V> = Again(ch: Token<V>, acc: PS.ClassAcc<V>, incl: bool, first: bool)
                         | Done(node: CharPred<V>)

  /** A turn of the loop agrees with the loop function from its start. */
  ghost predicate StepMirrors<V(!new)>(r: Outcome<ClassStep<V>>, e: Outcome<PS.Parsed<CharPred<V>, V>>,
                                       now: PS.PState<V>, consume: bool)
  {
    match r
    case Err(x) => e == Err(x)
    case Ok(Done(node)) => e == Ok(PS.Parsed(node, now))
    case Ok(Again(ch, acc, incl, first)) => e == PS.ClazzLoop(now, ch, acc, incl, first, consume)
  }

  class Pattern<V(!new)> {
    var pattern: seq<PS.Entry<V>>
    var compiled: bool
    var root: Id
    var matchRoot: Id
    var temp: seq<Token<V>>
    var patternLength: int
    var cursor: int
    var localCount: int
    var capturingGroupCount: int
    var nodes: Graph<V>
    /** How deep `study` may recurse before the Java stack would overflow. */
    const depth: nat

    function State(): PS.PState<V>
      reads this
    {
      PS.PState(temp, patternLength, cursor, localCount, capturingGroupCount, nodes, depth)
    }

    function Whole(): PatternState<V>
      reads this
    {
      PatternState(pattern, compiled, root, matchRoot, State())
    }

    /** `new Pattern()`: an empty token list, not yet compiled. */
    constructor(depth: nat)
      ensures Whole() == PatternState([], false, Null, Null, PS.PState([], 0, 0, 0, 0, InitialGraph(), depth))
      ensures PS.Based(nodes)
    {
      pattern := [];
      compiled := false;
      root := Null;
      matchRoot := Null;
      temp := [];
      patternLength := 0;
      cursor := 0;
      localCount := 0;
      capturingGroupCount := 0;
      nodes := InitialGraph();
      this.depth := depth;
    }

    // -------------------------------------------------------------
    // Building the token list

    /** `add(List)`: the shared form of the four `add` overloads. */
    method AddAll(l: seq<PS.Entry<V>>) returns (r: Outcome<()>)
      modifies this`pattern
      ensures MirrorsObj(r, Add(old(Whole()), l), Whole())
      ensures r.Err? <==> compiled
      ensures pattern == if compiled then old(pattern) else old(pattern) + l
    {
      if compiled {
        return Err(IllegalState);
      }
      pattern := pattern + l;
      return Ok(());
    }

    /** `add(char)`: the marker declared with `c`. */
    method AddChar(c: char) returns (r: Outcome<()>)
      modifies this`pattern
      ensures MirrorsObj(r, Add(old(Whole()), [PS.Wrapped(CharToken(c))]), Whole())
    {
      r := AddAll([PS.Wrapped(CharToken(c))]);
    }

    /** `add(int)`: a count token. */
    method AddInt(i: int) returns (r: Outcome<()>)
      requires IsInt32(i)
      modifies this`pattern
      ensures MirrorsObj(r, Add(old(Whole()), [PS.Wrapped(Count(i))]), Whole())
    {
      r := AddAll([PS.Wrapped(Count(i))]);
    }

    /** `add(Comparable)`: a literal, or a token built by the caller. */
    method AddEntry(e: PS.Entry<V>) returns (r: Outcome<()>)
      modifies this`pattern
      ensures MirrorsObj(r, Add(old(Whole()), [e]), Whole())
    {
      r := AddAll([e]);
    }

    // -------------------------------------------------------------
    // compile

    /** `compile()`, with the cursor reset (see `CompiledAsWritten`). */
    method Compile() returns (r: Outcome<()>)
      modifies this
      ensures MirrorsObj(r, Compiled(old(Whole())), Whole())
    {
      capturingGroupCount := 1;
      localCount := 0;
      cursor := 0;
      r := CompileSteps();
    }

    /** What `compile()` does once the counters are set. */
    method CompileSteps() returns (r: Outcome<()>)
      modifies this
      ensures MirrorsObj(r, CompiledFrom(old(Whole())), Whole())
    {
      if |pattern| > 0 {
        var d :- DoCompile();
      } else {
        var st :- StartNode(LAST_ACCEPT);
        root := st;
        matchRoot := LAST_ACCEPT;
      }
      compiled := true;
      return Ok(());
    }

    /** `doCompile()`: the token list with its two sentinels, the parse,
      and the release of the token list. */
    method DoCompile() returns (r: Outcome<()>)
      requires |pattern| > 0
      modifies this`temp, this`patternLength, this`root, this`matchRoot
      modifies this`cursor, this`nodes, this`localCount, this`capturingGroupCount
      ensures MirrorsObj(r, CompiledFrom(old(Whole())), Whole().(compiled := true))
    {
      ghost var o := old(Whole());
      temp := PS.TokensOf(pattern);
      patternLength := |pattern|;
      assert State() == o.ps.(temp := PS.TokensOf(o.pattern), patternLength := |o.pattern|);
      var m :- Parse();
      root := m.0;
      matchRoot := m.1;
      temp := [];
      patternLength := 0;
      return Ok(());
    }

    /** The parse inside `doCompile`, yielding (`root`, `matchRoot`). */
    method Parse() returns (r: Outcome<(Id, Id)>)
      modifies this`cursor, this`nodes, this`localCount, this`capturingGroupCount
      ensures Mirrors(r, PS.DoCompile(old(State())), State())
    {
      var e :- Expr(LAST_ACCEPT);
      if patternLength != cursor {
        var t :- PS.Peek(State());
        if Kind(t) == CloseBracket {
          return Err(PS.Error(State(), PS.UNMATCHED_CLOSE));
        }
        return Err(PS.Error(State(), PS.UNEXPECTED_INTERNAL));
      }
      if IsNode(nodes, e) && (nodes[e].BeginN? || nodes[e].FirstN?) {
        return Ok((e, e));
      }
      var st :- StartNode(e);
      return Ok((st, e));
    }

    /** `new Start(node)`. */
    method StartNode(node: Id) returns (r: Outcome<Id>)
      modifies this`nodes
      ensures Mirrors(r, PS.StartNode(old(State()), node), State())
    {
      var info := new TreeInfo();
      var s :- info.Study(nodes, node, depth);
      var id := Alloc(StartN(node, info.minLength));
      return Ok(id);
    }

    // -------------------------------------------------------------
    // Cursor primitives

    method Next() returns (r: Outcome<Token<V>>)
      modifies this`cursor
      ensures Mirrors(r, PS.Next(old(State())), State())
      ensures cursor == old(cursor) + 1
    {
      cursor := cursor + 1;
      r := PS.Get(State(), cursor);
    }

    method Read() returns (r: Outcome<Token<V>>)
      modifies this`cursor
      ensures Mirrors(r, PS.Read(old(State())), State())
      ensures cursor == old(cursor) + 1
    {
      r := PS.Get(State(), cursor);
      cursor := cursor + 1;
    }

    method Skip() returns (r: Outcome<Token<V>>)
      modifies this`cursor
      ensures Mirrors(r, PS.Skip(old(State())), State())
      ensures cursor == old(cursor) + 2
    {
      var i := cursor;
      r := PS.Get(State(), i + 1);
      cursor := i + 2;
    }

    method Unread()
      modifies this`cursor
      ensures State() == PS.Unread(old(State()))
    {
      cursor := cursor - 1;
    }

    method Accept(m: Marker, s: string) returns (r: Outcome<()>)
      modifies this`cursor
      ensures MirrorsState(r, PS.Accept(old(State()), m, s), State())
    {
      var t :- Read();
      if Kind(t) != m {
        return Err(PS.Error(State(), s));
      }
      return Ok(());
    }

    // -------------------------------------------------------------
    // The arena

    method Alloc(n: Node<V>) returns (id: Id)
      modifies this`nodes
      ensures PS.Alloc(old(State()), n) == PS.Parsed(id, State())
    {
      id := |nodes|;
      nodes := nodes + [n];
    }

    method SetNext(id: Id, target: Id) returns (r: Outcome<()>)
      modifies this`nodes
      ensures MirrorsState(r, PS.SetNext(old(State()), id, target), State())
    {
      if !IsNode(nodes, id) {
        return Err(NullPointer);
      }
      nodes := nodes[id := WithNext(nodes[id], target)];
      return Ok(());
    }

    method Link(id: Id, target: Id)
      requires IsNode(nodes, id)
      modifies this`nodes
      ensures State() == PS.Link(old(State()), id, target)
    {
      nodes := nodes[id := WithNext(nodes[id], target)];
    }

    method AddAtom(b: Id, node: Id)
      requires IsNode(nodes, b) && nodes[b].BranchN?
      modifies this`nodes
      ensures State() == PS.AddAtom(old(State()), b, node)
    {
      nodes := nodes[b := nodes[b].(atoms := nodes[b].atoms + [node])];
    }

    // -------------------------------------------------------------
    // closure

    method ModeSuffix(t: Token<V>) returns (r: Outcome<Mode>)
      modifies this`cursor
      ensures Mirrors(r, PS.ModeSuffix(old(State()), t), State())
    {
      if Kind(t) == Question {
        var n :- Next();
        return Ok(Lazy);
      } else if Kind(t) == Plus {
        var n :- Next();
        return Ok(Possessive);
      }
      return Ok(Greedy);
    }

    method UpperBound(cmin: int, ch: Token<V>) returns (r: Outcome<(int, Token<V>)>)
      modifies this`cursor
      ensures Mirrors(r, PS.UpperBound(old(State()), cmin, ch), State())
    {
      if Kind(ch) == Comma {
        var c :- Read();
        if Kind(c) == Number {
          var cmax :- GetCount(c);
          var d :- Read();
          return Ok((cmax, d));
        }
        return Ok((MAX_REPS, c));
      }
      return Ok((cmin, ch));
    }

    method Counted(prev: Id) returns (r: Outcome<Id>)
      requires 0 <= cursor < |temp| && Kind(temp[cursor]) == OpenBrace
      modifies this`cursor, this`nodes
      ensures Mirrors(r, PS.Counted(old(State()), prev), State())
    {
      var t1 :- PS.Get(State(), cursor + 1);
      if Kind(t1) == Number {
        var s := Skip();
        r := CountedFrom(prev, t1);
      } else {
        r := Err(PS.Error(State(), PS.ILLEGAL_REPETITION));
      }
    }

    method CountedFrom(prev: Id, t1: Token<V>) returns (r: Outcome<Id>)
      modifies this`cursor, this`nodes
      ensures Mirrors(r, PS.CountedFrom(old(State()), prev, t1), State())
    {
      var cmin :- GetCount(t1);
      var c :- Read();
      var u :- UpperBound(cmin, c);
      r := CountedClose(prev, cmin, u.0, u.1);
    }

    method CountedClose(prev: Id, cmin: int, cmax: int, ch: Token<V>) returns (r: Outcome<Id>)
      modifies this`cursor, this`nodes
      ensures Mirrors(r, PS.CountedClose(old(State()), prev, cmin, cmax, ch), State())
    {
      if Kind(ch) != CloseBrace {
        return Err(PS.Error(State(), PS.UNCLOSED_COUNTED));
      }
      if cmin < 0 || cmax < 0 || cmax - cmin < 0 {
        return Err(PS.Error(State(), PS.ILLEGAL_REPETITION_RANGE));
      }
      var t :- PS.Peek(State());
      var m :- ModeSuffix(t);
      var id := Alloc(CurlyN(ACCEPT, prev, m, cmin, cmax));
      return Ok(id);
    }

    method Closure(prev: Id) returns (r: Outcome<Id>)
      modifies this`cursor, this`nodes
      ensures Mirrors(r, PS.Closure(old(State()), prev), State())
    {
      var t :- PS.Peek(State());
      var k := Kind(t);
      if k == Question || k == Star || k == Plus {
        r := ShortClosure(prev, k);
      } else if k == OpenBrace {
        r := Counted(prev);
      } else {
        return Ok(prev);
      }
    }

    /** `?`, `*` or `+` and its mode suffix. */
    method ShortClosure(prev: Id, k: Marker) returns (r: Outcome<Id>)
      requires k == Question || k == Star || k == Plus
      modifies this`cursor, this`nodes
      ensures Mirrors(r, PS.ShortClosure(old(State()), prev, k), State())
    {
      var n :- Next();
      var m :- ModeSuffix(n);
      var id := Alloc(if k == Question then QuesN(ACCEPT, prev, m)
                      else CurlyN(ACCEPT, prev, m, if k == Star then 0 else 1, MAX_REPS));
      return Ok(id);
    }

    // -------------------------------------------------------------
    // Character classes

    method Family() returns (r: Outcome<CharPred<V>>)
      modifies this`cursor
      ensures Mirrors(r, PS.Family(old(State())), State())
    {
      var n :- Next();
      var f :- ClassToMatch(n);
      var d := Read();
      return Ok(Named(f));
    }

    method SingleTok() returns (r: Outcome<Token<V>>)
      modifies this`cursor
      ensures Mirrors(r, PS.SingleTok(old(State())), State())
    {
      var t :- PS.Peek(State());
      var n :- Next();
      return Ok(t);
    }

    /** `range()` after the first token, with a `DASH` at the cursor. */
    method RangeDash(ch: Token<V>) returns (r: Outcome<CharPred<V>>)
      modifies this`cursor
      ensures Mirrors(r, PS.RangeDash(old(State()), ch), State())
    {
      var e :- PS.Get(State(), cursor + 1);
      if Kind(e) == OpenSquare {
        return Ok(NewSingle(ch));
      }
      if Kind(e) != CloseSquare {
        var n := Next();
        var m :- SingleTok();
        if Ordinal(Kind(m)) < Ordinal(Kind(ch)) {
          return Err(PS.Error(State(), PS.ILLEGAL_CHARACTER_RANGE));
        }
        return Ok(RangeFor(ch, m));
      }
      return Ok(NewSingle(ch));
    }

    method Range() returns (r: Outcome<CharPred<V>>)
      modifies this`cursor
      ensures Mirrors(r, PS.Range(old(State())), State())
    {
      var ch :- SingleTok();
      if Kind(ch) != EndMarker {
        if Kind(temp[cursor]) == Dash {
          r := RangeDash(ch);
          return;
        }
        return Ok(NewSingle(ch));
      }
      return Err(PS.Error(State(), PS.UnexpectedCharacter(Kind(ch))));
    }

    /** `clazz(consume)`. */
    method Clazz(consume: bool) returns (r: Outcome<CharPred<V>>)
      modifies this`cursor
      decreases |temp| - cursor, 0
      ensures Mirrors(r, PS.Clazz(old(State()), consume), State())
    {
      ghost var target := PS.Clazz(State(), consume);
      var ch :- Next();
      var acc: PS.ClassAcc<V> := PS.NoClass;
      var incl, first := true, true;
      while true
        invariant PS.ClazzLoop(State(), ch, acc, incl, first, consume) == target
        invariant old(cursor) < cursor < |temp| && temp == old(temp)
        decreases |temp| - cursor
      {
        var step := ClassTurn(ch, acc, incl, first, consume);
        if step.Err? {
          return Err(step.exc);
        }
        if step.value.Done? {
          return Ok(step.value.node);
        }
        ch, acc, incl, first := step.value.ch, step.value.acc, step.value.incl, step.value.first;
      }
    }

    /** The body of the `clazz` loop, by the marker of `ch`. */
    method ClassTurn(ch: Token<V>, acc: PS.ClassAcc<V>, incl: bool, first: bool, consume: bool)
      returns (r: Outcome<ClassStep<V>>)
      modifies this`cursor
      decreases |temp| - cursor, 3
      ensures StepMirrors(r, PS.ClazzLoop(old(State()), ch, acc, incl, first, consume), State(), consume)
      ensures r.Ok? && r.value.Again? ==> old(cursor) < cursor < |temp|
      ensures temp == old(temp)
    {
      var k := Kind(ch);
      if k == Caret {
        r := CaretStep(acc, incl, first, consume);
      } else if k == OpenSquare {
        r := NestedStep(acc, incl, consume);
      } else if k == And {
        r := AmpStep(acc, incl, consume);
      } else if k == EndMarker && cursor >= patternLength {
        r := Err(PS.Error(State(), PS.UNCLOSED_CLASS));
      } else if k == CloseSquare && acc.ClassAcc? {
        if consume {
          var n :- Next();
        }
        r := Ok(Done(acc.prev));
      } else {
        r := RangeStep(acc, incl, false, consume);
      }
    }

    /** `^`: a negation right after the opening `[`, a literal elsewhere. */
    method CaretStep(acc: PS.ClassAcc<V>, incl: bool, first: bool, consume: bool)
      returns (r: Outcome<ClassStep<V>>)
      modifies this`cursor
      decreases |temp| - cursor, 2
      ensures StepMirrors(r, PS.ClazzCaret(old(State()), acc, incl, first, consume), State(), consume)
      ensures r.Ok? ==> r.value.Again? && old(cursor) < cursor < |temp| && temp == old(temp)
    {
      if first {
        r := CaretFirst(acc, incl, consume);
      } else {
        r := RangeStep(acc, incl, first, consume);
      }
    }

    /** `^` as the first token of a class: a negation when the token before
        it is the opening `[`. */
    method CaretFirst(acc: PS.ClassAcc<V>, incl: bool, consume: bool) returns (r: Outcome<ClassStep<V>>)
      modifies this`cursor
      decreases |temp| - cursor, 1
      ensures StepMirrors(r, PS.ClazzCaret(old(State()), acc, incl, true, consume), State(), consume)
      ensures r.Ok? ==> r.value.Again? && old(cursor) < cursor < |temp| && temp == old(temp)
    {
      var p :- PS.Get(State(), cursor - 1);
      if Kind(p) != OpenSquare {
        r := RangeStep(acc, incl, true, consume);
      } else {
        ghost var s0 := State();
        var n :- Next();
        assert PS.Next(s0) == Ok(PS.Parsed(n, State()));
        assert PS.ClazzCaret(s0, acc, incl, true, consume) == PS.ClazzLoop(State(), n, acc, !incl, true, consume);
        r := Ok(Again(n, acc, !incl, true));
      }
    }

    /** `range()` and its combination with the class so far. */
    method RangeStep(acc: PS.ClassAcc<V>, incl: bool, first: bool, consume: bool)
      returns (r: Outcome<ClassStep<V>>)
      modifies this`cursor
      ensures StepMirrors(r, PS.ClazzRange(old(State()), acc, incl, first, consume), State(), consume)
      ensures r.Ok? ==> r.value.Again? && old(cursor) < cursor < |temp| && temp == old(temp)
    {
      var n :- Range();
      var t :- PS.Peek(State());
      return Ok(Again(t, PS.Combine(acc, n, incl), incl, first));
    }

    /** A nested `[...]`. */
    method NestedStep(acc: PS.ClassAcc<V>, incl: bool, consume: bool) returns (r: Outcome<ClassStep<V>>)
      modifies this`cursor
      decreases |temp| - cursor, 1
      ensures StepMirrors(r, PS.ClazzNested(old(State()), acc, incl, consume), State(), consume)
      ensures r.Ok? ==> r.value.Again? && old(cursor) < cursor < |temp| && temp == old(temp)
    {
      var c :- Clazz(true);
      var acc' := if acc.NoClass? then PS.ClassAcc(c, c) else PS.ClassAcc(Union(acc.prev, c), c);
      var t :- PS.Peek(State());
      return Ok(Again(t, acc', incl, false));
    }

    /** `&&` and its right-hand side, or a literal `&`. */
    method AmpStep(acc: PS.ClassAcc<V>, incl: bool, consume: bool) returns (r: Outcome<ClassStep<V>>)
      modifies this`cursor
      decreases |temp| - cursor, 1
      ensures StepMirrors(r, PS.ClazzAmp(old(State()), acc, incl, consume), State(), consume)
      ensures r.Ok? ==> r.value.Again? && old(cursor) < cursor < |temp| && temp == old(temp)
    {
      var n :- Next();
      if Kind(n) != And {
        Unread();
        r := RangeStep(acc, incl, false, consume);
        return;
      }
      r := AndAndStep(acc, incl, consume);
    }

    /** `&&`: the right-hand operand and its intersection with `acc`. */
    method AndAndStep(acc: PS.ClassAcc<V>, incl: bool, consume: bool) returns (r: Outcome<ClassStep<V>>)
      modifies this`cursor
      decreases |temp| - cursor, 1
      ensures StepMirrors(r, PS.ClazzAndAnd(old(State()), acc, incl, consume), State(), consume)
      ensures r.Ok? ==> r.value.Again? && old(cursor) < cursor < |temp| && temp == old(temp)
    {
      var ch :- Next();
      var right: Option<CharPred<V>> := None;
      ghost var inner := PS.ClazzAnd(State(), ch, None);
      while Kind(ch) != CloseSquare && Kind(ch) != And
        invariant PS.ClazzAnd(State(), ch, right) == inner
        invariant old(cursor) < cursor < |temp| && temp == old(temp)
        decreases |temp| - cursor
      {
        Unread();
        var c :- Clazz(false);
        right := Some(c);
        ch :- PS.Peek(State());
      }
      match right
      case None =>
        if acc.NoClass? {
          return Err(PS.Error(State(), PS.BAD_CLASS));
        }
        return Ok(Again(ch, PS.ClassAcc(Intersection(acc.prev, acc.node), acc.node), incl, false));
      case Some(rn) =>
        var acc' := if acc.NoClass? then PS.ClassAcc(rn, rn) else PS.ClassAcc(Intersection(acc.prev, rn), rn);
        return Ok(Again(ch, acc', incl, false));
    }

    // -------------------------------------------------------------
    // atom

    method AtomNode(buf: seq<Token<V>>) returns (id: Id)
      modifies this`nodes
      ensures PS.AtomNode(old(State()), buf) == PS.Parsed(id, State())
    {
      if |buf| == 1 {
        id := Alloc(CharPropN(ACCEPT, NewSingle(buf[0])));
      } else {
        id := Alloc(SliceN(ACCEPT, buf));
      }
    }

    /** The `SLASH` case of `atom()`'s loop. */
    method AtomSlash(buf: seq<Token<V>>) returns (r: Outcome<Id>)
      modifies this`cursor, this`nodes
      ensures Mirrors(r, PS.AtomSlash(old(State()), buf), State())
    {
      var ch :- Next();
      if Kind(ch) == LowerP || Kind(ch) == UpperP {
        if |buf| > 0 {
          Unread();
          var id := AtomNode(buf);
          return Ok(id);
        }
        var comp := Kind(ch) == UpperP;
        ch :- Next();
        var f :- Family();
        var id := Alloc(CharPropN(ACCEPT, MaybeComplement(f, comp)));
        return Ok(id);
      }
      return Err(PS.Error(State(), PS.SLASH_WITHOUT_P));
    }

    /** `atom()`; `buf` plays the part of the `buffer` field and its
      `first` entries. */
    method Atom() returns (r: Outcome<Id>)
      modifies this`cursor, this`nodes
      ensures Mirrors(r, PS.Atom(old(State())), State())
    {
      ghost var target := PS.Atom(State());
      var buf: seq<Token<V>> := [];
      var prev := -1;
      var ch :- PS.Peek(State());
      while true
        invariant PS.AtomLoop(State(), ch, buf, prev) == target
        invariant 0 <= cursor < |temp| && temp == old(temp) && nodes == old(nodes)
        decreases |temp| - cursor
      {
        var k := Kind(ch);
        if k == Star || k == Plus || k == Question || k == OpenBrace {
          if |buf| > 1 {
            cursor := prev;
            buf := buf[..|buf| - 1];
          }
          break;
        } else if PS.AtomStop(k) {
          break;
        } else if k == Slash {
          r := AtomSlash(buf);
          return;
        } else if k == EndMarker && cursor >= patternLength {
          break;
        }
        prev := cursor;
        buf := buf + [ch];
        ch :- Next();
      }
      var id := AtomNode(buf);
      return Ok(id);
    }

    // -------------------------------------------------------------
    // sequence, expr, group0

    method SeqAtom(k: Marker) returns (r: Outcome<Id>)
      requires 0 <= cursor < |temp| && k == Kind(temp[cursor])
      requires k != OpenBracket && !PS.SeqEnd(State(), k)
      modifies this`cursor, this`nodes
      ensures Mirrors(r, PS.SeqAtom(old(State()), k), State())
    {
      if k == OpenSquare {
        var c :- Clazz(true);
        var id := Alloc(CharPropN(ACCEPT, c));
        return Ok(id);
      } else if k == Slash {
        r := SeqFamily();
      } else if k == Caret || k == Dollar || k == Dot {
        var n :- Next();
        var id := Alloc(if k == Caret then BeginN(ACCEPT) else if k == Dollar then DollarN(ACCEPT)
                        else CharPropN(ACCEPT, DotClass()));
        return Ok(id);
      } else if k == Question || k == Star || k == Plus {
        var n :- Next();
        return Err(PS.Error(State(), PS.DanglingMeta(k)));
      } else {
        r := Atom();
      }
    }

    method SeqFamily() returns (r: Outcome<Id>)
      modifies this`cursor, this`nodes
      ensures Mirrors(r, PS.SeqFamily(old(State())), State())
    {
      var n :- Next();
      if Kind(n) == LowerP || Kind(n) == UpperP {
        var f :- Family();
        var id := Alloc(CharPropN(ACCEPT, MaybeComplement(f, Kind(n) == UpperP)));
        return Ok(id);
      }
      return Err(PS.Error(State(), PS.SLASH_WITHOUT_P));
    }

    method SeqFinish(end: Id, head: Id, tail: Id) returns (r: Outcome<(Id, Id)>)
      modifies this`nodes
      ensures Mirrors(r, PS.SeqFinish(old(State()), end, head, tail), State())
    {
      if head == Null {
        return Ok((end, Null));
      }
      var u :- SetNext(tail, end);
      return Ok((head, tail));
    }

    /** `sequence(end)`: the chain's head and its tail. */
    method Sequence(end: Id) returns (r: Outcome<(Id, Id)>)
      modifies this`cursor, this`nodes, this`localCount, this`capturingGroupCount
      decreases |temp| - cursor, 2
      ensures Mirrors(r, PS.Sequence(old(State()), end, Null, Null), State())
    {
      ghost var target := PS.Sequence(State(), end, Null, Null);
      var head, tail := Null, Null;
      while true
        invariant PS.Sequence(State(), end, head, tail) == target
        invariant old(cursor) <= cursor && temp == old(temp)
        decreases |temp| - cursor
      {
        var t :- PS.Peek(State());
        var k := Kind(t);
        if k == OpenBracket {
          var g :- Group0();
          if g.Some? {
            if head == Null {
              head := g.value.0;
            } else {
              var u :- SetNext(tail, g.value.0);
            }
            tail := g.value.1;
          }
        } else if PS.SeqEnd(State(), k) {
          r := SeqFinish(end, head, tail);
          return;
        } else {
          var a :- SeqAtom(k);
          var c :- Closure(a);
          if head == Null {
            head := c;
          } else {
            var u :- SetNext(tail, c);
          }
          tail := c;
        }
      }
    }

    /** `expr(end)`. */
    method Expr(end: Id) returns (r: Outcome<Id>)
      modifies this`cursor, this`nodes, this`localCount, this`capturingGroupCount
      decreases |temp| - cursor, 5
      ensures Mirrors(r, PS.Expr(old(State()), end), State())
    {
      ghost var target := PS.Expr(State(), end);
      var s :- Sequence(end);
      var prev, firstTail, branchConn := s.0, s.1, Null;
      while true
        invariant PS.ExprMore(State(), end, prev, firstTail, branchConn) == target
        invariant old(cursor) <= cursor && temp == old(temp)
        decreases |temp| - cursor
      {
        var t :- PS.Peek(State());
        if Kind(t) != Pipe {
          return Ok(prev);
        }
        var n :- Next();
        var a :- ExprAlternative(end, prev, firstTail, branchConn);
        prev, branchConn := a.0, a.1;
      }
    }

    /** One alternative after a `|`, joined to the `Branch`. */
    method ExprAlternative(end: Id, prev: Id, firstTail: Id, branchConn0: Id) returns (r: Outcome<(Id, Id)>)
      modifies this`cursor, this`nodes, this`localCount, this`capturingGroupCount
      decreases |temp| - cursor, 3
      ensures Mirrors(r, PS.ExprAlternative(old(State()), end, prev, firstTail, branchConn0), State())
    {
      var s2 :- Sequence(end);
      var node, nodeTail := s2.0, s2.1;
      var branchConn := branchConn0;
      if branchConn == Null {
        branchConn := Alloc(BranchConnN(end));
      }
      if node == end {
        node := Null;
      } else {
        var u :- SetNext(nodeTail, branchConn);
      }
      if IsNode(nodes, prev) && nodes[prev].BranchN? {
        AddAtom(prev, node);
        return Ok((prev, branchConn));
      }
      var first := prev;
      if prev == end {
        first := Null;
      } else {
        var u :- SetNext(firstTail, branchConn);
      }
      var br := Alloc(BranchN(ACCEPT, [first, node], branchConn));
      return Ok((br, branchConn));
    }

    /** `createGroup(anonymous)`, returning head and tail. */
    method CreateGroup(anonymous: bool) returns (ht: (Id, Id))
      modifies this`nodes, this`localCount, this`capturingGroupCount
      ensures PS.CreateGroup(old(State()), anonymous) == PS.Parsed(ht, State())
    {
      var localIndex := localCount;
      localCount := localCount + 1;
      var groupIndex := 0;
      if !anonymous {
        groupIndex := capturingGroupCount;
        capturingGroupCount := capturingGroupCount + 1;
      }
      var head := Alloc(GroupHeadN(ACCEPT, localIndex));
      var tail := Alloc(GroupTailN(ACCEPT, localIndex, groupIndex + groupIndex));
      return (head, tail);
    }

    method GroupBody(anonymous: bool) returns (r: Outcome<(Id, Id)>)
      modifies this`cursor, this`nodes, this`localCount, this`capturingGroupCount
      decreases |temp| - cursor, 6
      ensures Mirrors(r, PS.GroupBody(old(State()), anonymous), State())
    {
      var g := CreateGroup(anonymous);
      var e :- Expr(g.1);
      Link(g.0, e);
      return Ok(g);
    }

    /** `group0()`. */
    method Group0() returns (r: Outcome<Option<(Id, Id)>>)
      modifies this`cursor, this`nodes, this`localCount, this`capturingGroupCount
      decreases |temp| - cursor, 1
      ensures Mirrors(r, PS.Group0(old(State())), State())
    {
      var ch :- Next();
      if Kind(ch) != Question {
        var b :- GroupBody(false);
        r := GroupClose(b.0, b.1, true);
        return;
      }
      var s :- Skip();
      r := GroupSpecial(Kind(s));
    }

    method GroupSpecial(k: Marker) returns (r: Outcome<Option<(Id, Id)>>)
      modifies this`cursor, this`nodes, this`localCount, this`capturingGroupCount
      decreases |temp| - cursor, 9
      ensures Mirrors(r, PS.GroupSpecial(old(State()), k), State())
    {
      if k == Colon || k == Equals || k == Bang || k == GreaterThan || k == LessThan {
        r := GroupAround(k);
      } else if k == Dollar || k == At {
        r := Err(PS.Error(State(), PS.UNKNOWN_GROUP));
      } else {
        r := GroupInline(k);
      }
    }

    /** The inline-modifier groups: `unread(); read()` and the bare `(?)`. */
    method GroupInline(k: Marker) returns (r: Outcome<Option<(Id, Id)>>)
      requires !(k == Colon || k == Equals || k == Bang || k == GreaterThan || k == LessThan)
      requires k != Dollar && k != At
      modifies this`cursor
      ensures Mirrors(r, PS.GroupSpecial(old(State()), k), State())
    {
      Unread();
      var again := Read();
      if k == CloseBracket {
        return Ok(None);
      }
      r := Err(PS.Error(State(), PS.UNKNOWN_INLINE));
    }

    /** The special groups with a body: non-capturing, look-ahead,
        independent and look-behind. */
    method GroupAround(k: Marker) returns (r: Outcome<Option<(Id, Id)>>)
      requires k == Colon || k == Equals || k == Bang || k == GreaterThan || k == LessThan
      modifies this`cursor, this`nodes, this`localCount, this`capturingGroupCount
      decreases |temp| - cursor, 8
      ensures Mirrors(r, PS.GroupAround(old(State()), k), State())
    {
      if k == LessThan {
        var c :- Read();
        var b :- GroupBody(true);
        r := Lookbehind(b.0, b.1, Kind(c));
      } else {
        r := GroupAhead(k);
      }
    }

    /** Non-capturing, look-ahead and independent groups. */
    method GroupAhead(k: Marker) returns (r: Outcome<Option<(Id, Id)>>)
      requires k == Colon || k == Equals || k == Bang || k == GreaterThan
      modifies this`cursor, this`nodes, this`localCount, this`capturingGroupCount
      decreases |temp| - cursor, 7
      ensures Mirrors(r, PS.GroupAhead(old(State()), k), State())
    {
      var b :- GroupBody(true);
      if k == Colon {
        r := GroupClose(b.0, b.1, false);
      } else if k == GreaterThan {
        r := WrappedClose(QuesN(ACCEPT, b.0, Independent));
      } else {
        r := WrappedClose(if k == Equals then PosN(ACCEPT, b.0) else NegN(ACCEPT, b.0));
      }
    }

    /** A group wrapped in the one new node `n`. */
    method WrappedClose(n: Node<V>) returns (r: Outcome<Option<(Id, Id)>>)
      requires !n.GroupTailN?
      modifies this`cursor, this`nodes, this`localCount
      ensures Mirrors(r, PS.WrappedClose(old(State()), n), State())
    {
      var a := Alloc(n);
      r := GroupClose(a, a, false);
    }

    method Lookbehind(head: Id, tail: Id, m: Marker) returns (r: Outcome<Option<(Id, Id)>>)
      modifies this`cursor, this`nodes, this`localCount
      ensures Mirrors(r, PS.Lookbehind(old(State()), head, tail, m), State())
    {
      var u :- SetNext(tail, LOOKBEHIND_END);
      r := LookbehindStudied(head, m);
    }

    method LookbehindStudied(head: Id, m: Marker) returns (r: Outcome<Option<(Id, Id)>>)
      modifies this`cursor, this`nodes, this`localCount
      ensures Mirrors(r, PS.LookbehindStudied(old(State()), head, m), State())
    {
      var info :- StudyBody(head);
      if !info.maxValid {
        return Err(PS.Error(State(), PS.UNBOUNDED_LOOKBEHIND));
      }
      r := LookbehindNode(head, info, m);
    }

    /** `head.study(new TreeInfo())` over the arena as it stands. */
    method StudyBody(head: Id) returns (r: Outcome<Info>)
      ensures r == PS.StudyHead(State(), head)
    {
      var info := new TreeInfo();
      var s := info.Study(nodes, head, depth);
      if s.Err? {
        return Err(s.exc);
      }
      r := Ok(info.Value());
    }

    method LookbehindNode(head: Id, info: Info, m: Marker) returns (r: Outcome<Option<(Id, Id)>>)
      modifies this`cursor, this`nodes, this`localCount
      ensures Mirrors(r, PS.LookbehindNode(old(State()), head, info, m), State())
    {
      if m == Equals {
        var a := Alloc(BehindN(ACCEPT, head, info.maxLength, info.minLength));
        r := GroupClose(a, a, false);
      } else if m == Bang {
        var a := Alloc(NotBehindN(ACCEPT, head, info.maxLength, info.minLength));
        r := GroupClose(a, a, false);
      } else {
        r := Err(PS.Error(State(), PS.UNKNOWN_LOOKBEHIND));
      }
    }

    /** The end of `group0()`: the closing `)` and the group's quantifier. */
    method GroupClose(head: Id, tail: Id, capturing: bool) returns (r: Outcome<Option<(Id, Id)>>)
      modifies this`cursor, this`nodes, this`localCount
      ensures Mirrors(r, PS.GroupClose(old(State()), head, tail, capturing), State())
    {
      var a :- Accept(CloseBracket, PS.UNCLOSED_GROUP);
      var node :- Closure(head);
      if node == head {
        return Ok(Some((head, tail)));
      }
      if head == tail {
        return Ok(Some((node, node)));
      }
      var q := nodes[node];
      if q.QuesN? {
        if q.mode == Possessive {
          return Ok(Some((node, node)));
        }
        r := QuesGroup(q.mode, head, tail);
      } else if q.CurlyN? {
        if q.mode == Possessive {
          return Ok(Some((node, node)));
        }
        r := CurlyGroup(q.mode, q.cmin, q.cmax, head, tail, capturing);
      } else {
        r := Err(PS.Error(State(), PS.INTERNAL_LOGIC));
      }
    }

    /** A group under a greedy or lazy `?`. */
    method QuesGroup(mode: Mode, head: Id, tail: Id) returns (r: Outcome<Option<(Id, Id)>>)
      modifies this`nodes
      ensures Mirrors(r, PS.QuesGroup(old(State()), mode, head, tail), State())
    {
      var bc := Alloc(BranchConnN(ACCEPT));
      var u :- SetNext(tail, bc);
      var br := Alloc(BranchN(ACCEPT, if mode == Greedy then [head, Null] else [Null, head], bc));
      return Ok(Some((br, bc)));
    }

    /** A group under a greedy or lazy counted closure. */
    method CurlyGroup(mode: Mode, cmin: int, cmax: int, head: Id, tail: Id, capturing: bool)
      returns (r: Outcome<Option<(Id, Id)>>)
      modifies this`nodes, this`localCount
      ensures Mirrors(r, PS.CurlyGroup(old(State()), mode, cmin, cmax, head, tail, capturing), State())
    {
      var info := new TreeInfo();
      var det :- info.Study(nodes, head, depth);
      var h := nodes[head];
      if det {
        var t :- Deref(nodes, tail);
        if !t.GroupTailN? {
          return Err(ClassCast);
        }
        var gc := Alloc(GroupCurlyN(ACCEPT, h.next, mode, cmin, cmax, t.localIndex, t.groupIndex, capturing));
        return Ok(Some((gc, gc)));
      }
      if !h.GroupHeadN? {
        return Err(ClassCast);
      }
      var loop := Alloc(LoopN(ACCEPT, head, localCount, h.localIndex, cmin, cmax, mode != Greedy));
      var prolog := Alloc(PrologN(ACCEPT, loop));
      localCount := localCount + 1;
      var u :- SetNext(tail, loop);
      return Ok(Some((prolog, loop)));
    }
  }
}
