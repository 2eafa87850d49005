/** Properties of the compiler: what a quantifier token sequence turns
    into, how character ranges are checked, when a look-behind is refused,
    the `add`/`compile` lifecycle and what compiling a second time does. */
module ParseProps {
  import opened Base
  import opened Tokens
  import opened CharClass
  import opened Nodes
  import opened Study
  import opened ParseSpec
  import C = Compiler

  // ---------------------------------------------------------------
  // Counted closures

  /** The token at `i` is the structural marker `m`. */
  predicate At<V>(ps: PState<V>, i: int, m: Marker)
  {
    0 <= i < |ps.temp| && Kind(ps.temp[i]) == m
  }

  /** A token that is neither `?` nor `+`, so no mode suffix follows. */
  predicate PlainAfter<V>(ps: PState<V>, i: int)
  {
    0 <= i < |ps.temp| && Kind(ps.temp[i]) != Question && Kind(ps.temp[i]) != Plus
  }

  /** At a `{`, `closure` is the counted closure. */
  lemma ClosureAtBrace<V>(ps: PState<V>, prev: Id)
    requires At(ps, ps.cursor, OpenBrace)
    ensures Closure(ps, prev) == Counted(ps, prev)
  {
    assert Peek(ps) == Ok(ps.temp[ps.cursor]);
  }

  /** At `{` and a count, `closure` goes on past both with the count. */
  lemma ClosureAtCount<V>(ps: PState<V>, prev: Id)
    requires At(ps, ps.cursor, OpenBrace) && At(ps, ps.cursor + 1, Number)
    ensures Closure(ps, prev) == CountedFrom(ps.(cursor := ps.cursor + 2), prev, ps.temp[ps.cursor + 1])
  {
    assert Counted(ps, prev) == CountedFrom(ps.(cursor := ps.cursor + 2), prev, ps.temp[ps.cursor + 1]) by {
      assert Get(ps, ps.cursor + 1) == Ok(ps.temp[ps.cursor + 1]);
    }
    ClosureAtBrace(ps, prev);
  }

  /** A `}` after valid counts, followed by neither `?` nor `+`: a greedy
      `Curly` node and nothing more read. */
  lemma ClosePlain<V>(ps: PState<V>, prev: Id, cmin: int, cmax: int, ch: Token<V>)
    requires Kind(ch) == CloseBrace && 0 <= cmin <= cmax && PlainAfter(ps, ps.cursor)
    ensures CountedClose(ps, prev, cmin, cmax, ch)
            == Ok(Parsed(|ps.nodes|, ps.(nodes := ps.nodes + [CurlyN(ACCEPT, prev, Greedy, cmin, cmax)])))
  {
    assert Peek(ps) == Ok(ps.temp[ps.cursor]);
    assert ModeSuffix(ps, ps.temp[ps.cursor]) == Ok(Parsed(Greedy, ps));
  }

  /** `{n}` with `n >= 0` repeats exactly `n` times and reads three tokens. */
  lemma ExactRepetition<V>(ps: PState<V>, prev: Id, n: int)
    requires At(ps, ps.cursor, OpenBrace) && 0 <= ps.cursor
    requires ps.cursor + 1 < |ps.temp| && ps.temp[ps.cursor + 1] == Count(n)
    requires At(ps, ps.cursor + 2, CloseBrace) && PlainAfter(ps, ps.cursor + 3)
    requires n >= 0
    ensures Closure(ps, prev)
            == Ok(Parsed(|ps.nodes|, ps.(cursor := ps.cursor + 3,
                                        nodes := ps.nodes + [CurlyN(ACCEPT, prev, Greedy, n, n)])))
  {
    var c := ps.cursor;
    var ps3 := ps.(cursor := c + 3);
    calc {
      Closure(ps, prev);
      { ClosureAtCount(ps, prev); }
      CountedFrom(ps.(cursor := c + 2), prev, Count(n));
      { assert Read(ps.(cursor := c + 2)) == Ok(Parsed(ps.temp[c + 2], ps3));
        assert UpperBound(ps3, n, ps.temp[c + 2]) == Ok(Parsed((n, ps.temp[c + 2]), ps3)); }
      CountedClose(ps3, prev, n, n, ps.temp[c + 2]);
      { ClosePlain(ps3, prev, n, n, ps.temp[c + 2]); }
      Ok(Parsed(|ps.nodes|, ps3.(nodes := ps.nodes + [CurlyN(ACCEPT, prev, Greedy, n, n)])));
    }
  }

  /** `{n,}` with `n >= 0` has no upper bound: `MAX_REPS`. */
  lemma OpenRepetition<V>(ps: PState<V>, prev: Id, n: int)
    requires At(ps, ps.cursor, OpenBrace) && 0 <= ps.cursor
    requires ps.cursor + 1 < |ps.temp| && ps.temp[ps.cursor + 1] == Count(n)
    requires At(ps, ps.cursor + 2, Comma) && At(ps, ps.cursor + 3, CloseBrace)
    requires PlainAfter(ps, ps.cursor + 4)
    requires 0 <= n <= MAX_REPS
    ensures Closure(ps, prev)
            == Ok(Parsed(|ps.nodes|, ps.(cursor := ps.cursor + 4,
                                        nodes := ps.nodes + [CurlyN(ACCEPT, prev, Greedy, n, MAX_REPS)])))
  {
    var c := ps.cursor;
    var ps3 := ps.(cursor := c + 3);
    var ps4 := ps.(cursor := c + 4);
    calc {
      Closure(ps, prev);
      { ClosureAtCount(ps, prev); }
      CountedFrom(ps.(cursor := c + 2), prev, Count(n));
      { assert Read(ps.(cursor := c + 2)) == Ok(Parsed(ps.temp[c + 2], ps3));
        assert Read(ps3) == Ok(Parsed(ps.temp[c + 3], ps4));
        assert UpperBound(ps3, n, ps.temp[c + 2]) == Ok(Parsed((MAX_REPS, ps.temp[c + 3]), ps4)); }
      CountedClose(ps4, prev, n, MAX_REPS, ps.temp[c + 3]);
      { ClosePlain(ps4, prev, n, MAX_REPS, ps.temp[c + 3]); }
      Ok(Parsed(|ps.nodes|, ps4.(nodes := ps.nodes + [CurlyN(ACCEPT, prev, Greedy, n, MAX_REPS)])));
    }
  }

  /** `{n,m}` reads `m` and the token after it. */
  lemma UpperCount<V>(ps: PState<V>, n: int, m: int)
    requires 1 <= ps.cursor && ps.cursor + 1 < |ps.temp| && Kind(ps.temp[ps.cursor - 1]) == Comma
    requires ps.temp[ps.cursor] == Count(m)
    ensures UpperBound(ps, n, ps.temp[ps.cursor - 1])
            == Ok(Parsed((m, ps.temp[ps.cursor + 1]), ps.(cursor := ps.cursor + 2)))
  {
    assert Read(ps) == Ok(Parsed(Count(m), ps.(cursor := ps.cursor + 1)));
    assert Read(ps.(cursor := ps.cursor + 1)) == Ok(Parsed(ps.temp[ps.cursor + 1], ps.(cursor := ps.cursor + 2)));
  }

  /** `{n,m}` with `0 <= n <= m` repeats between `n` and `m` times. */
  lemma BoundedRepetition<V>(ps: PState<V>, prev: Id, n: int, m: int)
    requires At(ps, ps.cursor, OpenBrace) && 0 <= ps.cursor
    requires ps.cursor + 3 < |ps.temp| && ps.temp[ps.cursor + 1] == Count(n) && ps.temp[ps.cursor + 3] == Count(m)
    requires At(ps, ps.cursor + 2, Comma) && At(ps, ps.cursor + 4, CloseBrace)
    requires PlainAfter(ps, ps.cursor + 5)
    requires 0 <= n <= m
    ensures Closure(ps, prev)
            == Ok(Parsed(|ps.nodes|, ps.(cursor := ps.cursor + 5,
                                        nodes := ps.nodes + [CurlyN(ACCEPT, prev, Greedy, n, m)])))
  {
    var c := ps.cursor;
    var ps3 := ps.(cursor := c + 3);
    var ps5 := ps.(cursor := c + 5);
    calc {
      Closure(ps, prev);
      { ClosureAtCount(ps, prev); }
      CountedFrom(ps.(cursor := c + 2), prev, Count(n));
      { assert Read(ps.(cursor := c + 2)) == Ok(Parsed(ps.temp[c + 2], ps3));
        UpperCount(ps3, n, m); }
      CountedClose(ps5, prev, n, m, ps.temp[c + 4]);
      { ClosePlain(ps5, prev, n, m, ps.temp[c + 4]); }
      Ok(Parsed(|ps.nodes|, ps5.(nodes := ps.nodes + [CurlyN(ACCEPT, prev, Greedy, n, m)])));
    }
  }

  /** `{n,m}` with `m < n` is refused at the closing brace. */
  lemma InvertedRepetition<V>(ps: PState<V>, prev: Id, n: int, m: int)
    requires At(ps, ps.cursor, OpenBrace) && 0 <= ps.cursor
    requires ps.cursor + 3 < |ps.temp| && ps.temp[ps.cursor + 1] == Count(n) && ps.temp[ps.cursor + 3] == Count(m)
    requires At(ps, ps.cursor + 2, Comma) && At(ps, ps.cursor + 4, CloseBrace)
    requires m < n
    ensures Closure(ps, prev) == Err(PatternSyntax("Illegal repetition range", ps.cursor + 4))
  {
    var c := ps.cursor;
    var ps3 := ps.(cursor := c + 3);
    var ps5 := ps.(cursor := c + 5);
    calc {
      Closure(ps, prev);
      { ClosureAtCount(ps, prev); }
      CountedFrom(ps.(cursor := c + 2), prev, Count(n));
      { assert Read(ps.(cursor := c + 2)) == Ok(Parsed(ps.temp[c + 2], ps3));
        UpperCount(ps3, n, m); }
      CountedClose(ps5, prev, n, m, ps.temp[c + 4]);
    }
  }

  /** A negative count in `{n}` is refused as well. */
  lemma NegativeRepetition<V>(ps: PState<V>, prev: Id, n: int)
    requires At(ps, ps.cursor, OpenBrace) && 0 <= ps.cursor
    requires ps.cursor + 1 < |ps.temp| && ps.temp[ps.cursor + 1] == Count(n)
    requires At(ps, ps.cursor + 2, CloseBrace)
    requires n < 0
    ensures Closure(ps, prev) == Err(PatternSyntax("Illegal repetition range", ps.cursor + 2))
  {
    var c := ps.cursor;
    var ps3 := ps.(cursor := c + 3);
    calc {
      Closure(ps, prev);
      { ClosureAtCount(ps, prev); }
      CountedFrom(ps.(cursor := c + 2), prev, Count(n));
      { assert Read(ps.(cursor := c + 2)) == Ok(Parsed(ps.temp[c + 2], ps3));
        assert UpperBound(ps3, n, ps.temp[c + 2]) == Ok(Parsed((n, ps.temp[c + 2]), ps3)); }
      CountedClose(ps3, prev, n, n, ps.temp[c + 2]);
    }
  }

  /** `{n` followed by anything but `,` or `}` is an unclosed closure. */
  lemma UnclosedRepetition<V>(ps: PState<V>, prev: Id, n: int)
    requires At(ps, ps.cursor, OpenBrace) && 0 <= ps.cursor
    requires ps.cursor + 2 < |ps.temp| && ps.temp[ps.cursor + 1] == Count(n)
    requires Kind(ps.temp[ps.cursor + 2]) != Comma && Kind(ps.temp[ps.cursor + 2]) != CloseBrace
    ensures Closure(ps, prev) == Err(PatternSyntax("Unclosed counted closure", ps.cursor + 2))
  {
    var c := ps.cursor;
    var ps3 := ps.(cursor := c + 3);
    calc {
      Closure(ps, prev);
      { ClosureAtCount(ps, prev); }
      CountedFrom(ps.(cursor := c + 2), prev, Count(n));
      { assert Read(ps.(cursor := c + 2)) == Ok(Parsed(ps.temp[c + 2], ps3));
        assert UpperBound(ps3, n, ps.temp[c + 2]) == Ok(Parsed((n, ps.temp[c + 2]), ps3)); }
      CountedClose(ps3, prev, n, n, ps.temp[c + 2]);
    }
  }

  /** `{` not followed by a count: the error points at the token before
      the brace, since the cursor has not moved yet. */
  lemma BraceWithoutCount<V>(ps: PState<V>, prev: Id)
    requires At(ps, ps.cursor, OpenBrace) && 0 <= ps.cursor && ps.cursor + 1 < |ps.temp|
    requires Kind(ps.temp[ps.cursor + 1]) != Number
    ensures Closure(ps, prev) == Err(PatternSyntax("Illegal repetition", ps.cursor - 1))
  {
    assert Counted(ps, prev) == Err(PatternSyntax("Illegal repetition", ps.cursor - 1)) by {
      assert Get(ps, ps.cursor + 1) == Ok(ps.temp[ps.cursor + 1]);
    }
    ClosureAtBrace(ps, prev);
  }

  // ---------------------------------------------------------------
  // Character ranges

  /** Two literals around `-` always form a range: the inversion check
      compares their markers, which are both `OTHER`, so it never fires.
      By `RangeFor`'s contract the class then accepts exactly what lies
      between the ends under the literals' own order, which is nothing
      when they are inverted. */
  lemma LiteralRangeNeverInverted<V(!new)>(ps: PState<V>)
    requires 0 <= ps.cursor && ps.cursor + 3 < |ps.temp|
    requires ps.temp[ps.cursor].Literal? && ps.temp[ps.cursor + 2].Literal?
    requires Kind(ps.temp[ps.cursor + 1]) == Dash
    ensures Range(ps) == Ok(Parsed(RangeFor(ps.temp[ps.cursor], ps.temp[ps.cursor + 2]),
                                   ps.(cursor := ps.cursor + 3)))
  {
    var c := ps.cursor;
    var ps1 := ps.(cursor := c + 1);
    assert SingleTok(ps) == Ok(Parsed(ps.temp[c], ps1));
    assert SingleTok(Advance(ps1, 1)) == Ok(Parsed(ps.temp[c + 2], ps.(cursor := c + 3)));
  }

  /** Structural ends whose markers come in decreasing declaration order
      are refused, pointing at the upper end. */
  lemma StructuralRangeInverted<V(!new)>(ps: PState<V>)
    requires 0 <= ps.cursor && ps.cursor + 3 < |ps.temp|
    requires Kind(ps.temp[ps.cursor + 1]) == Dash
    requires Kind(ps.temp[ps.cursor]) != EndMarker
    requires Kind(ps.temp[ps.cursor + 2]) != OpenSquare && Kind(ps.temp[ps.cursor + 2]) != CloseSquare
    requires Ordinal(Kind(ps.temp[ps.cursor + 2])) < Ordinal(Kind(ps.temp[ps.cursor]))
    ensures Range(ps) == Err(PatternSyntax("Illegal character range", ps.cursor + 2))
  {
    var c := ps.cursor;
    var ps1 := ps.(cursor := c + 1);
    assert SingleTok(ps) == Ok(Parsed(ps.temp[c], ps1));
    assert SingleTok(Advance(ps1, 1)) == Ok(Parsed(ps.temp[c + 2], ps.(cursor := c + 3)));
  }

  // ---------------------------------------------------------------
  // Look-behind

  /** A look-behind body whose maximum length `study` cannot bound is
      refused; with `Lookbehind`'s own contract this makes a bounded
      maximum necessary and sufficient for the study step. */
  lemma UnboundedLookbehindRefused<V(!new)>(ps: PState<V>, head: Id, tail: Id, m: Marker)
    requires IsNode(ps.nodes, tail)
    requires StudyNode(WithTail(ps.nodes, tail), head, Fresh, ps.depth).Ok?
    requires !StudyNode(WithTail(ps.nodes, tail), head, Fresh, ps.depth).value.info.maxValid
    ensures Lookbehind(ps, head, tail, m)
            == Err(PatternSyntax("Look-behind group does not have an obvious maximum length", ps.cursor - 1))
  {
    assert SetNext(ps, tail, LOOKBEHIND_END) == Ok(ps.(nodes := WithTail(ps.nodes, tail)));
  }

  // ---------------------------------------------------------------
  // Group numbering

  /** What a group leaves behind for the numbering, from `ps` at its `(`
      to `q` after its body: its own tail (the second node it created)
      records at `own`, and once counting has started, the capturing
      tails it holds (its own, then its body's) are numbered on
      consecutively from the count at its `(` in the order their `(` were
      read, the count moving by exactly their number. */
  ghost predicate GroupNumbered<V>(ps: PState<V>, q: PState<V>, own: int)
  {
    |q.nodes| >= |ps.nodes| + 2 && TailIndex(q.nodes[|ps.nodes| + 1]) == own
    && ps.capturingGroupCount <= q.capturingGroupCount
    && (Numbering(ps.nodes, ps.capturingGroupCount) ==>
          Tails(q.nodes, |ps.nodes|, |q.nodes|) == Evens(q.capturingGroupCount - 1)[ps.capturingGroupCount - 1..]
          && q.capturingGroupCount - ps.capturingGroupCount == |Tails(q.nodes, |ps.nodes|, |q.nodes|)|)
  }

  /** A capturing group takes the number the counter holds at its `(`
      (`CreateGroup`): its tail records at twice that number, and the
      groups inside it are numbered after it. */
  lemma CapturingGroupCounted<V(!new)>(ps: PState<V>)
    ensures GroupBody(ps, false).Ok? ==>
              var q := GroupBody(ps, false).value.ps;
              GroupNumbered(ps, q, 2 * ps.capturingGroupCount)
              && q.capturingGroupCount >= ps.capturingGroupCount + 1
              && q.localCount >= ps.localCount + 1
  {
    var r := GroupBody(ps, false);
    if r.Ok? {
      var g := CreateGroup(ps, false);
      GroupBodyGrows(ps, false);
      GroupNumbers(ps, g.ps, r.value.ps);
    }
  }

  /** A `(?:` group takes no number: its tail records nowhere, and only
      the capturing groups inside it move the counter. */
  lemma AnonymousGroupUncounted<V(!new)>(ps: PState<V>)
    ensures GroupBody(ps, true).Ok? ==>
              var q := GroupBody(ps, true).value.ps;
              GroupNumbered(ps, q, 0) && q.localCount >= ps.localCount + 1
  {
    var r := GroupBody(ps, true);
    if r.Ok? {
      var g := CreateGroup(ps, true);
      GroupBodyGrows(ps, true);
      GroupNumbers(ps, g.ps, r.value.ps);
    }
  }

  /** The body of a group is parsed from the state `CreateGroup` leaves. */
  lemma GroupBodyGrows<V(!new)>(ps: PState<V>, anonymous: bool)
    ensures GroupBody(ps, anonymous).Ok? ==>
              Grows(CreateGroup(ps, anonymous).ps, GroupBody(ps, anonymous).value.ps)
  {
  }

  /** The capture slots of a group's own head and tail survive its body,
      and the tails it adds are numbered in order. */
  lemma GroupNumbers<V>(ps: PState<V>, g: PState<V>, q: PState<V>)
    requires |g.nodes| == |ps.nodes| + 2 && Grows(ps, g) && Grows(g, q)
    requires g.nodes[|ps.nodes| + 1].GroupTailN?
    ensures GroupNumbered(ps, q, TailIndex(g.nodes[|ps.nodes| + 1]))
  {
    assert TailIndex(q.nodes[|ps.nodes| + 1]) == TailIndex(g.nodes[|ps.nodes| + 1]);
    if Numbering(ps.nodes, ps.capturingGroupCount) {
      SameTailsChain(ps.nodes, g.nodes, q.nodes);
      TailsAgree(ps.nodes, q.nodes, |ps.nodes|, 0);
      TailsAreEvens(q.nodes, |ps.nodes|, |q.nodes|, q.capturingGroupCount - 1,
                    q.capturingGroupCount - ps.capturingGroupCount);
    }
  }

  /** The whole compile numbers the capturing groups it creates 1, 2, ...
      in the order their `(` are read: their tails, in creation order,
      record at 2, 4, ..., and the final count is one more than their
      number. The nodes that were there before keep their slots. */
  lemma CompileNumbersGroups<V(!new)>(o: C.PatternState<V>)
    ensures C.Compiled(o).Ok? ==>
              var q := C.Compiled(o).value.ps;
              |o.ps.nodes| <= |q.nodes|
              && SameTails(o.ps.nodes, q.nodes, |o.ps.nodes|)
              && Tails(q.nodes, |o.ps.nodes|, |q.nodes|) == Evens(q.capturingGroupCount - 1)
  {
    if C.Compiled(o).Ok? {
      CompiledNumbered(o);
      NumberedFromOne(o.ps.(capturingGroupCount := 1, localCount := 0, cursor := 0), C.Compiled(o).value.ps);
    }
  }

  /** `compile()` numbers from a count of 1. */
  lemma CompiledNumbered<V(!new)>(o: C.PatternState<V>)
    ensures C.Compiled(o).Ok? ==>
              Numbered(o.ps.(capturingGroupCount := 1, localCount := 0, cursor := 0), C.Compiled(o).value.ps)
  {
  }

  /** Numbering that starts from a count of 1 gives the capturing tails
      added the numbers 2, 4, ... in creation order. */
  lemma NumberedFromOne<V>(a: PState<V>, q: PState<V>)
    requires a.capturingGroupCount == 1 && q.capturingGroupCount >= 1 && Numbered(a, q)
    ensures |a.nodes| <= |q.nodes| && SameTails(a.nodes, q.nodes, |a.nodes|)
    ensures Tails(q.nodes, |a.nodes|, |q.nodes|) == Evens(q.capturingGroupCount - 1)
  {
    assert Numbering(a.nodes, 1);
    TailsAgree(a.nodes, q.nodes, |a.nodes|, 0);
    TailsAreEvens(q.nodes, |a.nodes|, |q.nodes|, q.capturingGroupCount - 1, q.capturingGroupCount - 1);
    assert Evens(q.capturingGroupCount - 1)[0..] == Evens(q.capturingGroupCount - 1);
  }

  // ---------------------------------------------------------------
  // Lifecycle

  /** Once compiled, `add` throws and the token list stays as it was. */
  lemma AddAfterCompile<V(!new)>(o: C.PatternState<V>, es: seq<Entry<V>>)
    requires C.Compiled(o).Ok?
    ensures C.Add(C.Compiled(o).value, es) == Err(IllegalState)
    ensures C.Compiled(o).value.pattern == o.pattern
  {
  }

  /** Before compiling, `add` appends and compiling then parses exactly
      the tokens added. */
  lemma AddThenCompile<V(!new)>(o: C.PatternState<V>, es: seq<Entry<V>>)
    requires !o.compiled
    ensures C.Add(o, es).Ok? && C.Add(o, es).value.pattern == o.pattern + es
    ensures C.Compiled(C.Add(o, es).value).Ok? ==> C.Compiled(C.Add(o, es).value).value.pattern == o.pattern + es
  {
  }

  // ---------------------------------------------------------------
  // Compiling a pattern of one literal

  /** The parse of the single literal `c`: one `Single` node continuing to
      `lastAccept`, which is also the match root. */
  lemma {:induction false} ParseLiteral<V(!new)>(ps: PState<V>, c: Item<V> -> int)
    requires ps.temp == TokensOf([Plain(c)]) && ps.patternLength == 1 && ps.cursor == 0
    ensures DoCompile(ps).Ok? ==>
              DoCompile(ps).value.val.1 == |ps.nodes|
              && IsNode(DoCompile(ps).value.ps.nodes, |ps.nodes|)
              && DoCompile(ps).value.ps.nodes[|ps.nodes|] == CharPropN(LAST_ACCEPT, NewSingle(Literal(c)))
  {
    var lit: Token<V> := Literal(c);
    var n := |ps.nodes|;
    var ps3 := ps.(cursor := 1, nodes := ps.nodes + [CharPropN(LAST_ACCEPT, NewSingle(lit))]);
    ExprLiteral(ps, c);
    assert ps3.nodes[n].CharPropN?;
  }

  /** The expression of the single literal `c`: one `Single` node that
      continues to `lastAccept`, and the cursor past the literal. */
  lemma {:induction false} ExprLiteral<V(!new)>(ps: PState<V>, c: Item<V> -> int)
    requires ps.temp == TokensOf([Plain(c)]) && ps.patternLength == 1 && ps.cursor == 0
    ensures Expr(ps, LAST_ACCEPT)
            == Ok(Parsed(|ps.nodes|, ps.(cursor := 1, nodes := ps.nodes + [CharPropN(LAST_ACCEPT, NewSingle(Literal(c)))])))
  {
    var lit: Token<V> := Literal(c);
    assert ps.temp == [lit, EndToken(), EndToken()] by {
      assert WrapAll([Plain(c)]) == [lit];
    }
    var n := |ps.nodes|;
    var ps3 := ps.(cursor := 1, nodes := ps.nodes + [CharPropN(LAST_ACCEPT, NewSingle(lit))]);
    calc {
      Expr(ps, LAST_ACCEPT);
      { SequenceLiteral(ps, lit); }
      ExprMore(ps3, LAST_ACCEPT, n, n, Null);
      { assert Peek(ps3) == Ok(EndToken()); }
      Ok(Parsed(n, ps3));
    }
  }

  /** The sequence of the single literal token `lit`. */
  lemma SequenceLiteral<V(!new)>(ps: PState<V>, lit: Token<V>)
    requires lit.Literal? && ps.temp == [lit, EndToken(), EndToken()] && ps.patternLength == 1 && ps.cursor == 0
    ensures Sequence(ps, LAST_ACCEPT, Null, Null)
            == Ok(Parsed((|ps.nodes|, |ps.nodes|),
                         ps.(cursor := 1, nodes := ps.nodes + [CharPropN(LAST_ACCEPT, NewSingle(lit))])))
  {
    var n := |ps.nodes|;
    var ps2 := ps.(cursor := 1, nodes := ps.nodes + [CharPropN(ACCEPT, NewSingle(lit))]);
    AtomLiteral(ps, lit);
    assert Closure(ps2, n) == Ok(Parsed(n, ps2)) by {
      assert Peek(ps2) == Ok(EndToken());
    }
    SequenceAfterFirst(ps, lit, n, ps2);
    SequenceAtEnd(ps2, n);
    assert ps2.nodes[n := WithNext(ps2.nodes[n], LAST_ACCEPT)]
           == ps.nodes + [CharPropN(LAST_ACCEPT, NewSingle(lit))];
  }

  /** `atom()` on the single literal `lit` at the start. */
  lemma AtomLiteral<V(!new)>(ps: PState<V>, lit: Token<V>)
    requires lit.Literal? && ps.temp == [lit, EndToken(), EndToken()] && ps.patternLength == 1 && ps.cursor == 0
    ensures SeqAtom(ps, Other)
            == Ok(Parsed(|ps.nodes|, ps.(cursor := 1, nodes := ps.nodes + [CharPropN(ACCEPT, NewSingle(lit))])))
  {
    var ps1 := ps.(cursor := 1);
    calc {
      SeqAtom(ps, Other);
    ==  { assert Kind(lit) == Other; assert Peek(ps) == Ok(lit); }
      AtomLoop(ps, lit, [], -1);
    ==  { AtomLoopLiteral(ps, lit); }
      AtomLoop(ps1, EndToken(), [lit], 0);
    ==  { AtomLoopEnd(ps1, [lit], 0); }
      Ok(AtomNode(ps1, [lit]));
    }
  }

  /** `atom()`'s loop takes a literal into the empty buffer. */
  lemma AtomLoopLiteral<V(!new)>(ps: PState<V>, lit: Token<V>)
    requires lit.Literal? && 0 <= ps.cursor + 1 < |ps.temp|
    ensures AtomLoop(ps, lit, [], -1)
            == AtomLoop(ps.(cursor := ps.cursor + 1), ps.temp[ps.cursor + 1], [lit], ps.cursor)
  {
    var n := Parsed(ps.temp[ps.cursor + 1], ps.(cursor := ps.cursor + 1));
    assert Kind(lit) == Other && !AtomStop(Other);
    assert Next(ps) == Ok(n);
    assert AtomLoop(ps, lit, [], -1) == AtomLoop(n.ps, n.val, [] + [lit], ps.cursor);
    assert [] + [lit] == [lit];
  }

  /** `atom()`'s loop stops at the end of the pattern. */
  lemma AtomLoopEnd<V(!new)>(ps: PState<V>, buf: seq<Token<V>>, prev: int)
    requires ps.cursor >= ps.patternLength
    ensures AtomLoop(ps, EndToken(), buf, prev) == Ok(AtomNode(ps, buf))
  {
    assert Kind(EndToken<V>()) == EndMarker;
  }

  /** The first turn of `sequence` over a plain atom at the start. */
  lemma SequenceAfterFirst<V(!new)>(ps: PState<V>, lit: Token<V>, n: Id, ps2: PState<V>)
    requires 0 <= ps.cursor < |ps.temp| && ps.temp[ps.cursor] == lit && lit.Literal?
    requires SeqAtom(ps, Other) == Ok(Parsed(n, ps2)) && Closure(ps2, n) == Ok(Parsed(n, ps2))
    ensures Sequence(ps, LAST_ACCEPT, Null, Null) == Sequence(ps2, LAST_ACCEPT, n, n)
  {
    assert Peek(ps) == Ok(lit);
    assert Kind(lit) == Other && !SeqEnd(ps, Other);
  }

  /** `sequence` at the end of the pattern, with one node `n` so far. */
  lemma SequenceAtEnd<V(!new)>(ps: PState<V>, n: Id)
    requires 0 <= ps.cursor < |ps.temp| && ps.temp[ps.cursor] == EndToken() && ps.cursor >= ps.patternLength
    requires IsNode(ps.nodes, n)
    ensures Sequence(ps, LAST_ACCEPT, n, n)
            == Ok(Parsed((n, n), ps.(nodes := ps.nodes[n := WithNext(ps.nodes[n], LAST_ACCEPT)])))
  {
    assert Peek(ps) == Ok(EndToken());
  }

  /** Compiling from the first token, a one-literal pattern's match root
      is a fresh `Single` node for the literal. */
  lemma CompileLiteral<V(!new)>(o: C.PatternState<V>, c: Item<V> -> int)
    requires o.pattern == [Plain(c)]
    ensures C.Compiled(o).Ok? ==>
              C.Compiled(o).value.matchRoot == |o.ps.nodes|
              && IsNode(C.Compiled(o).value.ps.nodes, |o.ps.nodes|)
              && C.Compiled(o).value.ps.nodes[|o.ps.nodes|] == CharPropN(LAST_ACCEPT, NewSingle(Literal(c)))
  {
    var ps := o.ps.(capturingGroupCount := 1, localCount := 0, cursor := 0);
    ParseLiteral(ps.(temp := TokensOf(o.pattern), patternLength := |o.pattern|), c);
  }

  /** With the cursor at the end of the tokens, the parser reads nothing
      and the match root is `lastAccept`: the empty pattern. */
  lemma {:induction false} ParseFromEnd<V(!new)>(ps: PState<V>, pattern: seq<Entry<V>>)
    requires ps.temp == TokensOf(pattern) && ps.patternLength == |pattern| && ps.cursor == |pattern|
    ensures DoCompile(ps).Ok? ==> DoCompile(ps).value.val.1 == LAST_ACCEPT
  {
    assert Kind(ps.temp[ps.cursor]) == EndMarker;
    assert Sequence(ps, LAST_ACCEPT, Null, Null) == Ok(Parsed((LAST_ACCEPT, Null), ps));
    assert ExprMore(ps, LAST_ACCEPT, LAST_ACCEPT, Null, Null) == Ok(Parsed(LAST_ACCEPT, ps));
    assert Expr(ps, LAST_ACCEPT) == Ok(Parsed(LAST_ACCEPT, ps));
  }

  /** `compile()` as written, a second time: the cursor still stands at
      the end of the pattern, so whatever the pattern, a successful
      recompile yields the empty pattern. */
  lemma RecompileAsWritten<V(!new)>(o: C.PatternState<V>)
    requires C.CompiledAsWritten(o).Ok? && |o.pattern| > 0
    ensures var o1 := C.CompiledAsWritten(o).value;
            C.CompiledAsWritten(o1).Ok? ==> C.CompiledAsWritten(o1).value.matchRoot == LAST_ACCEPT
  {
    var o1 := C.CompiledAsWritten(o).value;
    var ps := o1.ps.(capturingGroupCount := 1, localCount := 0);
    ParseFromEnd(ps.(temp := TokensOf(o1.pattern), patternLength := |o1.pattern|), o1.pattern);
  }

  /** The discrepancy on a one-literal pattern: its first compile matches
      the literal, its second (as written) matches the empty sequence. */
  lemma RecompileLiteralAsWritten<V(!new)>(o: C.PatternState<V>, c: Item<V> -> int)
    requires o.pattern == [Plain(c)] && o.ps.cursor == 0 && Based(o.ps.nodes)
    requires C.CompiledAsWritten(o).Ok?
    ensures C.CompiledAsWritten(o).value.matchRoot == |o.ps.nodes| != LAST_ACCEPT
    ensures var o1 := C.CompiledAsWritten(o).value;
            C.CompiledAsWritten(o1).Ok? ==> C.CompiledAsWritten(o1).value.matchRoot == LAST_ACCEPT
  {
    assert C.CompiledAsWritten(o) == C.Compiled(o);
    CompileLiteral(o, c);
    RecompileAsWritten(o);
  }

  /** The corrected `compile()`: compiling again parses the literal again,
      and the new match root is once more a `Single` node for it. */
  lemma RecompileLiteral<V(!new)>(o: C.PatternState<V>, c: Item<V> -> int)
    requires o.pattern == [Plain(c)] && C.Compiled(o).Ok?
    ensures var o1 := C.Compiled(o).value;
            C.Compiled(o1).Ok? ==>
              C.Compiled(o1).value.matchRoot == |o1.ps.nodes|
              && IsNode(C.Compiled(o1).value.ps.nodes, |o1.ps.nodes|)
              && C.Compiled(o1).value.ps.nodes[|o1.ps.nodes|] == CharPropN(LAST_ACCEPT, NewSingle(Literal(c)))
  {
    var o1 := C.Compiled(o).value;
    CompileLiteral(o1, c);
  }
}
