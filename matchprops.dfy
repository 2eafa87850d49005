/** Properties of the match semantics: what the nodes undo when their
    continuation fails, how the repetition modes bound and order their
    attempts, and what the searching nodes report when they succeed. */
module MatchProps {
  import opened Base
  import opened Tokens
  import opened CharClass
  import opened Nodes
  import opened MatchSpec

  /** A call that returned normally and reported a match. */
  ghost predicate Succeeds<V>(r: Out<V>) { r.Ok? && r.value.matched }

  /** A call that returned normally and reported no match. */
  ghost predicate Fails<V>(r: Out<V>) { r.Ok? && !r.value.matched }

  /** Node `id` matches at position `p` from some matcher state. */
  ghost predicate CanMatchAt<V(!new)>(g: Graph<V>, id: Id, p: int, f: nat)
  {
    exists s: MState<V> :: Succeeds(Eval(g, id, s, p, f))
  }

  // ---- undo on failure ----

  /** `GroupHead` runs its continuation with the group start in its local
      slot and puts the slot back afterwards, matched or not. */
  lemma GroupHeadRestores<V>(g: Graph<V>, n: Node<V>, st: MState<V>, i: int, f: nat)
    requires n.GroupHeadN?
    ensures var r := MatchGroupHead(g, n, st, i, f);
      if 0 <= n.localIndex < |st.locals| then
        var a := Eval(g, n.next, PutL(st, n.localIndex, i), i, f);
        (r.Ok? <==> a.Ok?)
        && (r.Ok? ==> r.value.matched == a.value.matched
                      && r.value.st.locals[n.localIndex] == st.locals[n.localIndex])
      else r == Err(IndexOutOfBounds(n.localIndex))
  {
  }

  /** `GroupTail` inside a group reference only reports the end; otherwise
      the continuation sees the group bounds `(locals[slot], i)`, and when it
      fails the previous bounds are back. */
  lemma GroupTailRecordsAndRestores<V>(g: Graph<V>, n: Node<V>, st: MState<V>, i: int, f: nat)
    requires n.GroupTailN? && 0 <= n.localIndex < |st.locals|
    requires 0 <= n.groupIndex && n.groupIndex + 1 < |st.groups|
    ensures var r := MatchGroupTail(g, n, st, i, f);
      var tmp := st.locals[n.localIndex];
      var gi := n.groupIndex;
      (tmp < 0 ==> r == Ok(Res(true, st.(last := i))))
      && (tmp >= 0 ==>
            var a := Eval(g, n.next, st.(groups := st.groups[gi := tmp][gi + 1 := i]), i, f);
            (Succeeds(a) ==> r == a)
            && (Fails(a) ==> Fails(r) && r.value.st.groups[gi] == st.groups[gi]
                             && r.value.st.groups[gi + 1] == st.groups[gi + 1])
            && (a.Err? ==> r == a))
  {
  }

  /** A `GroupCurly` that fails leaves its local slot and, when capturing,
      the group bounds as it found them. */
  lemma GroupCurlyRestores<V>(g: Graph<V>, n: Node<V>, st: MState<V>, i: int, f: nat)
    requires n.GroupCurlyN?
    ensures var r := MatchGroupCurly(g, n, st, i, f);
      Fails(r) ==>
        0 <= n.localIndex < |st.locals|
        && r.value.st.locals[n.localIndex] == st.locals[n.localIndex]
        && (n.capture ==> 0 <= n.groupIndex && n.groupIndex + 1 < |st.groups|
                          && r.value.st.groups[n.groupIndex] == st.groups[n.groupIndex]
                          && r.value.st.groups[n.groupIndex + 1] == st.groups[n.groupIndex + 1])
  {
  }

  /** Another pass of a `Loop` body runs with the count one higher; when it
      fails the count is back at `count`. */
  lemma LoopIterateRestores<V>(g: Graph<V>, n: Node<V>, st: MState<V>, i: int, count: int, f: nat)
    requires n.LoopN? && 0 <= n.countIndex < |st.locals|
    ensures var r := LoopIterate(g, n, st, i, count, f);
      var a := Eval(g, n.body, PutL(st, n.countIndex, count + 1), i, f);
      (Succeeds(a) ==> r == a)
      && (Fails(a) ==> Fails(r) && r.value.st.locals[n.countIndex] == count)
      && (a.Err? ==> r == a)
  {
  }

  /** `matchInit` leaves the iteration count as it found it, whatever the
      outcome. */
  lemma LoopInitRestores<V>(g: Graph<V>, l: Node<V>, st: MState<V>, i: int, f: nat)
    requires l.LoopN?
    ensures var r := LoopInit(g, l, st, i, f);
      r.Ok? ==> 0 <= l.countIndex < |st.locals|
                && r.value.st.locals[l.countIndex] == st.locals[l.countIndex]
  {
  }

  // ---- ? and {m,n} ----

  /** Fewer than `cmin` atoms is a failure: when the atom does not match
      before the minimum is reached, `Curly` fails without trying its
      continuation. */
  lemma CurlyFailsBelowMin<V>(g: Graph<V>, n: Node<V>, st: MState<V>, i: int, j: int, f: nat)
    requires n.CurlyN? && j < n.cmin && Fails(Eval(g, n.atom, st, i, f))
    ensures CurlyMin(g, n, st, i, j, f) == Eval(g, n.atom, st, i, f)
  {
  }

  /** Once `cmax` atoms are counted no mode tries another atom: each goes
      straight to the continuation. */
  lemma CurlyAtMax<V>(g: Graph<V>, n: Node<V>, st: MState<V>, i: int, j: int, f: nat)
    requires n.CurlyN? && j >= n.cmax
    ensures Curly0(g, n, st, i, j, f) == Eval(g, n.next, st, i, f)
    ensures Curly1(g, n, st, i, j, f) == Eval(g, n.next, st, i, f)
    ensures Curly2(g, n, st, i, j, f) == Eval(g, n.next, st, i, f)
  {
  }

  /** The lazy mode tries the continuation before each further atom. */
  lemma CurlyLazyContinuationFirst<V>(g: Graph<V>, n: Node<V>, st: MState<V>, i: int, j: int, f: nat)
    requires n.CurlyN? && !Fails(Eval(g, n.next, st, i, f))
    ensures Curly1(g, n, st, i, j, f) == Eval(g, n.next, st, i, f)
  {
  }

  /** A zero-width atom ends the lazy loop with a failure and the possessive
      loop with the continuation at the same position. */
  lemma CurlyZeroWidthStops<V>(g: Graph<V>, n: Node<V>, st: MState<V>, i: int, j: int, f: nat)
    requires n.CurlyN? && j < n.cmax
    ensures var b := Eval(g, n.next, st, i, f);
      Fails(b) ==>
        var a := Eval(g, n.atom, b.value.st, i, f);
        Succeeds(a) && a.value.st.last == i ==> Curly1(g, n, st, i, j, f) == Ok(Res(false, a.value.st))
    ensures var a := Eval(g, n.atom, st, i, f);
      Succeeds(a) && a.value.st.last == i ==> Curly2(g, n, st, i, j, f) == Eval(g, n.next, a.value.st, i, f)
  {
  }

  /** The position the greedy loop backs off to after giving back `m`
      atoms of width `k`. */
  function BackedOff(i: int, k: int, m: int): (p: int)
    ensures m == 0 ==> p == i
  {
    i - m * k
  }

  /** The greedy back-off never gives back more than it gained: a success
      comes from the continuation at a position reached by giving back at
      most `j - backLimit` atoms. */
  lemma {:induction false} CurlyBackFloor<V(!new)>(g: Graph<V>, n: Node<V>, st: MState<V>, i: int, j: int,
                                             k: int, backLimit: int, f: nat)
    requires n.CurlyN?
    ensures Succeeds(CurlyBack(g, n, st, i, j, k, backLimit, f)) ==>
      exists m :: 0 <= m <= j - backLimit && CanMatchAt(g, n.next, BackedOff(i, k, m), f)
    decreases j - backLimit + 1
  {
    if j >= backLimit {
      var b := Eval(g, n.next, st, i, f);
      if Succeeds(b) {
        assert CanMatchAt(g, n.next, BackedOff(i, k, 0), f);
      } else if b.Ok? {
        CurlyBackFloor(g, n, b.value.st, i - k, j - 1, k, backLimit, f);
        if Succeeds(CurlyBack(g, n, st, i, j, k, backLimit, f)) {
          var m :| 0 <= m <= j - 1 - backLimit && CanMatchAt(g, n.next, BackedOff(i - k, k, m), f);
          assert BackedOff(i, k, m + 1) == BackedOff(i - k, k, m);
        }
      }
    }
  }

  // ---- {m,n} over a group ----

  /** At `cmax` the group loops go straight to the continuation with the
      group bounds they were entered with. */
  lemma GroupCurlyAtMax<V>(g: Graph<V>, n: Node<V>, st: MState<V>, i: int, j: int, f: nat)
    requires n.GroupCurlyN? && GcSlots(n, st) && j >= n.cmax
    ensures Gc0(g, n, st, i, j, f) == Eval(g, n.next, st, i, f)
    ensures Gc1(g, n, st, i, j, f) == Eval(g, n.next, st, i, f)
    ensures Gc2(g, n, st, i, j, f) == Eval(g, n.next, st, i, f)
  {
    var s1 := PutGIf(n.capture, st, n.groupIndex, if n.capture then st.groups[n.groupIndex] else 0);
    assert s1 == st;
    assert PutGIf(n.capture, s1, n.groupIndex + 1, if n.capture then st.groups[n.groupIndex + 1] else 0) == st;
  }

  // ---- Slice ----

  /** The first `m` buffered tokens are literals that compare equal to the
      elements from `i` on, all of them before `to`. */
  ghost predicate SliceAgrees<V>(n: Node<V>, st: MState<V>, i: int, m: int)
    requires n.SliceN?
  {
    forall j :: 0 <= j < m ==>
      j < |n.buf| && i + j < st.to && 0 <= i + j < |st.text|
      && n.buf[j].Literal? && n.buf[j].compareTo(st.text[i + j]) == 0
  }

  /** Some agreeing prefix of the buffer reaches `to`. */
  ghost predicate SliceRunsOut<V>(n: Node<V>, st: MState<V>, i: int)
    requires n.SliceN?
  {
    exists m :: 0 <= m < |n.buf| && SliceAgrees(n, st, i, m) && i + m >= st.to
  }

  predicate AllLiteral<V>(buf: seq<Token<V>>) { forall j :: 0 <= j < |buf| ==> buf[j].Literal? }

  lemma {:induction false} SliceLoopSpec<V>(g: Graph<V>, n: Node<V>, st: MState<V>, i: int, j: nat, f: nat)
    requires n.SliceN? && AllLiteral(n.buf) && 0 <= i && st.to <= |st.text|
    requires j <= |n.buf| && SliceAgrees(n, st, i, j)
    ensures SliceAgrees(n, st, i, |n.buf|) ==>
      SliceLoop(g, n, st, i, j, f) == Eval(g, n.next, st, i + |n.buf|, f)
    ensures !SliceAgrees(n, st, i, |n.buf|) ==>
      SliceLoop(g, n, st, i, j, f) == Ok(Res(false, if SliceRunsOut(n, st, i) then st.(hitEnd := true) else st))
    decreases |n.buf| - j
  {
    if j < |n.buf| {
      if i + j >= st.to {
        assert SliceRunsOut(n, st, i) by { assert SliceAgrees(n, st, i, j) && i + j >= st.to; }
        assert n.buf[j].Literal?;
        assert !SliceAgrees(n, st, i, |n.buf|);
      } else if n.buf[j].compareTo(st.text[i + j]) != 0 {
        assert !SliceAgrees(n, st, i, |n.buf|);
        assert !SliceRunsOut(n, st, i) by {
          forall m | 0 <= m < |n.buf| && SliceAgrees(n, st, i, m) ensures i + m < st.to {
            assert n.buf[j].compareTo(st.text[i + j]) != 0;
            assert m <= j;
          }
        }
      } else {
        assert SliceAgrees(n, st, i, j + 1);
        SliceLoopSpec(g, n, st, i, j + 1, f);
      }
    }
  }

  /** `Slice` at `i` continues at `i + |buf|` exactly when every buffered
      literal equals the element at its offset before `to`; otherwise it
      fails, and it sets `hitEnd` exactly when an agreeing prefix ran into
      `to`. */
  lemma SliceSemantics<V>(g: Graph<V>, n: Node<V>, st: MState<V>, i: int, f: nat)
    requires n.SliceN? && AllLiteral(n.buf) && 0 <= i && st.to <= |st.text|
    ensures SliceAgrees(n, st, i, |n.buf|) ==>
      MatchSlice(g, n, st, i, f) == Eval(g, n.next, st, i + |n.buf|, f)
    ensures !SliceAgrees(n, st, i, |n.buf|) ==>
      MatchSlice(g, n, st, i, f) == Ok(Res(false, if SliceRunsOut(n, st, i) then st.(hitEnd := true) else st))
  {
    SliceLoopSpec(g, n, st, i, 0, f);
  }

  // ---- BackRef ----

  /** The elements at `i + d` and `j + d` are the same object. */
  ghost predicate SameObjectAt<V>(st: MState<V>, i: int, j: int, d: int)
  {
    0 <= i + d < |st.text| && 0 <= j + d < |st.text| && st.text[i + d].ref == st.text[j + d].ref
  }

  /** The `size` elements from `i` are the very objects found from `j`. */
  ghost predicate SameObjects<V>(st: MState<V>, i: int, j: int, size: int)
  {
    forall d :: 0 <= d < size ==> SameObjectAt(st, i, j, d)
  }

  lemma {:induction false} BackRefLoopSpec<V>(g: Graph<V>, n: Node<V>, st: MState<V>, i: int, j: int,
                                              size: int, index: int, f: nat)
    requires n.BackRefN? && 0 <= i && 0 <= j && 0 <= index
    requires i + size <= |st.text| && j + size <= |st.text|
    requires SameObjects(st, i, j, index)
    ensures BackRefLoop(g, n, st, i, j, size, index, f)
            == if SameObjects(st, i, j, size) then Eval(g, n.next, st, i + size, f) else Ok(Res(false, st))
    decreases size - index
  {
    if index < size {
      if st.text[i + index].ref != st.text[j + index].ref {
        assert !SameObjectAt(st, i, j, index);
      } else {
        assert SameObjectAt(st, i, j, index);
        BackRefLoopSpec(g, n, st, i, j, size, index + 1, f);
      }
    }
  }

  /** `BackRef` fails on a group that has not matched, sets `hitEnd` when the
      group's text would run past `to`, and otherwise continues after it
      exactly when the elements at `i` are the same objects the group
      matched — object identity, not `compareTo` or `equals`. */
  lemma BackRefSemantics<V>(g: Graph<V>, n: Node<V>, st: MState<V>, i: int, f: nat)
    requires n.BackRefN? && 0 <= n.groupIndex && n.groupIndex + 1 < |st.groups|
    requires 0 <= i && st.to <= |st.text|
    requires st.groups[n.groupIndex] >= 0 ==>
      st.groups[n.groupIndex] <= st.groups[n.groupIndex + 1] <= |st.text|
    ensures var start, end := st.groups[n.groupIndex], st.groups[n.groupIndex + 1];
      var r := MatchBackRef(g, n, st, i, f);
      (start < 0 ==> r == Ok(Res(false, st)))
      && (start >= 0 && i + (end - start) > st.to ==> r == Ok(Res(false, st.(hitEnd := true))))
      && (start >= 0 && i + (end - start) <= st.to ==>
            r == if SameObjects(st, i, start, end - start) then Eval(g, n.next, st, i + (end - start), f)
                 else Ok(Res(false, st)))
  {
    var start, end := st.groups[n.groupIndex], st.groups[n.groupIndex + 1];
    if start >= 0 && i + (end - start) <= st.to {
      BackRefLoopSpec(g, n, st, i, start, end - start, 0, f);
    }
  }

  /** Two distinct objects never satisfy a back reference, whatever their
      values. */
  lemma BackRefByIdentity<V>(g: Graph<V>, n: Node<V>, st: MState<V>, i: int, f: nat)
    requires n.BackRefN? && 0 <= n.groupIndex && n.groupIndex + 1 < |st.groups|
    requires 0 <= i < st.to <= |st.text|
    requires 0 <= st.groups[n.groupIndex] < st.groups[n.groupIndex + 1] <= |st.text|
    requires st.text[i].ref != st.text[st.groups[n.groupIndex]].ref
    ensures Fails(MatchBackRef(g, n, st, i, f))
  {
    BackRefSemantics(g, n, st, i, f);
    var start, end := st.groups[n.groupIndex], st.groups[n.groupIndex + 1];
    if i + (end - start) <= st.to {
      assert !SameObjectAt(st, i, start, 0);
    }
  }

  // ---- the searching nodes ----

  /** A successful `Start` records group 0 as `(first, last)` with `first` a
      start position between `i` and the last one that leaves room for
      `minLength` elements. */
  lemma {:induction false} StartLoopRecordsGroupZero<V(!new)>(g: Graph<V>, n: Node<V>, st: MState<V>, i: int,
                                                       guard: int, f: nat)
    requires n.StartN?
    ensures var r := StartLoop(g, n, st, i, guard, f);
      Succeeds(r) ==>
        |r.value.st.groups| >= 2 && i <= r.value.st.first <= guard
        && r.value.st.groups[0] == r.value.st.first && r.value.st.groups[1] == r.value.st.last
        && CanMatchAt(g, n.next, r.value.st.first, f)
    decreases guard - i + 1
  {
    if i <= guard {
      var a := Eval(g, n.next, st, i, f);
      if a.Ok? {
        if a.value.matched {
          assert Succeeds(Eval(g, n.next, st, i, f));
        } else {
          StartLoopRecordsGroupZero(g, n, if i == guard then a.value.st.(hitEnd := true) else a.value.st,
                                    i + 1, guard, f);
        }
      }
    }
  }

  lemma StartRecordsGroupZero<V(!new)>(g: Graph<V>, n: Node<V>, st: MState<V>, i: int, f: nat)
    requires n.StartN?
    ensures var r := MatchStart(g, n, st, i, f);
      Succeeds(r) ==>
        |r.value.st.groups| >= 2 && i <= r.value.st.first <= st.to - n.minLength
        && r.value.st.groups[0] == r.value.st.first && r.value.st.groups[1] == r.value.st.last
        && CanMatchAt(g, n.next, r.value.st.first, f)
    ensures i > st.to - n.minLength ==> MatchStart(g, n, st, i, f) == Ok(Res(false, st.(hitEnd := true)))
  {
    if i <= st.to - n.minLength {
      StartLoopRecordsGroupZero(g, n, st, i, st.to - n.minLength, f);
    }
  }

  /** Alternative `k` of a `Branch` matches at `i` from some state. */
  ghost predicate AltCanMatch<V(!new)>(g: Graph<V>, n: Node<V>, i: int, k: nat, f: nat)
    requires n.BranchN? && k < |n.atoms|
  {
    exists s: MState<V> :: Succeeds(BranchAlt(g, n, s, i, k, f))
  }

  /** A `Branch` succeeds only through one of its alternatives, and an
      alternative that matches right away is taken without trying the
      later ones. */
  lemma {:induction false} BranchLoopFinds<V(!new)>(g: Graph<V>, n: Node<V>, st: MState<V>, i: int, k: nat, f: nat)
    requires n.BranchN?
    ensures Succeeds(BranchLoop(g, n, st, i, k, f)) ==>
      exists k' :: k <= k' < |n.atoms| && AltCanMatch(g, n, i, k', f)
    ensures k < |n.atoms| && Succeeds(BranchAlt(g, n, st, i, k, f)) ==>
      BranchLoop(g, n, st, i, k, f) == BranchAlt(g, n, st, i, k, f)
    decreases |n.atoms| - k
  {
    if k < |n.atoms| {
      var a := BranchAlt(g, n, st, i, k, f);
      if Succeeds(a) {
        assert AltCanMatch(g, n, i, k, f);
      } else if a.Ok? {
        BranchLoopFinds(g, n, a.value.st, i, k + 1, f);
      }
    }
  }

  /** The look-behind search succeeds only if the condition matches from
      some start between `lo` and `j`. */
  lemma {:induction false} BehindLoopFinds<V(!new)>(g: Graph<V>, cond: Id, st: MState<V>, j: int, lo: int, f: nat)
    ensures Succeeds(BehindLoop(g, cond, st, j, lo, f)) ==>
      exists p :: lo <= p <= j && CanMatchAt(g, cond, p, f)
    decreases j - lo + 1
  {
    if j >= lo {
      var c := Eval(g, cond, st, j, f);
      if Succeeds(c) {
        assert CanMatchAt(g, cond, j, f);
      } else if c.Ok? {
        BehindLoopFinds(g, cond, c.value.st, j - 1, lo, f);
      }
    }
  }

  /** `Behind` at `i` succeeds only when the condition can match from a
      start no further back than `rmax` and no nearer than `rmin`, not
      before the region start unless the bounds are transparent, and the
      continuation matches at `i`; `from` and `lookbehindTo` are those the
      node was entered with. */
  lemma BehindFinds<V(!new)>(g: Graph<V>, n: Node<V>, st: MState<V>, i: int, f: nat)
    requires n.BehindN?
    ensures var r := MatchBehind(g, n, st, i, f);
      Succeeds(r) ==>
        (exists p :: BehindLow(st, i, n.rmax) <= p <= i - n.rmin && CanMatchAt(g, n.cond, p, f))
        && CanMatchAt(g, n.next, i, f)
        && r.value.st.from == st.from && r.value.st.lookbehindTo == st.lookbehindTo
  {
    var c := BehindLoop(g, n.cond, BehindState(st, i), i - n.rmin, BehindLow(st, i, n.rmax), f);
    BehindLoopFinds(g, n.cond, BehindState(st, i), i - n.rmin, BehindLow(st, i, n.rmax), f);
    if Succeeds(c) {
      var s3 := c.value.st.(from := st.from, lookbehindTo := st.lookbehindTo);
      if Succeeds(Eval(g, n.next, s3, i, f)) {
        assert CanMatchAt(g, n.next, i, f);
      }
    }
  }

  /** `NotBehind` at `i` fails whenever the look-behind search finds its
      condition. */
  lemma NotBehindRejects<V>(g: Graph<V>, n: Node<V>, st: MState<V>, i: int, f: nat)
    requires n.NotBehindN?
    requires Succeeds(BehindLoop(g, n.cond, BehindState(st, i), i - n.rmin, BehindLow(st, i, n.rmax), f))
    ensures Fails(MatchNotBehind(g, n, st, i, f))
  {
  }

  /** `First` succeeds only through an atom match at some position from `i`
      up to `to`. */
  lemma {:induction false} FirstFinds<V(!new)>(g: Graph<V>, n: Node<V>, st: MState<V>, i: int, f: nat)
    requires n.FirstN?
    ensures Succeeds(MatchFirst(g, n, st, i, f)) ==>
      exists p :: i <= p <= st.to && CanMatchAt(g, n.atom, p, f)
    decreases st.to - i + 1
  {
    if i <= st.to {
      var a := Eval(g, n.atom, st, i, f);
      if Succeeds(a) {
        assert CanMatchAt(g, n.atom, i, f);
      } else if a.Ok? {
        var s := a.value.st.(first := a.value.st.first + 1);
        FirstFinds(g, n, s, i + 1, f);
      }
    }
  }

  /** `Pos` and `Neg` run their condition with `to` widened to the end of
      the input under transparent bounds and give the caller the region
      back. */
  lemma LookaheadRestoresRegion<V>(g: Graph<V>, p: Node<V>, q: Node<V>, st: MState<V>, i: int, f: nat)
    requires p.PosN? && q.NegN?
    ensures MatchPos(g, p, st, i, f).Ok? ==> MatchPos(g, p, st, i, f).value.st.to == st.to
    ensures MatchNeg(g, q, st, i, f).Ok? ==> MatchNeg(g, q, st, i, f).value.st.to == st.to
    ensures Succeeds(MatchNeg(g, q, st, i, f)) ==>
      Fails(Eval(g, q.cond, if st.transparentBounds then st.(to := |st.text|) else st, i, f))
      || Fails(Eval(g, q.cond, (if st.transparentBounds then st.(to := |st.text|) else st).(requireEnd := true), i, f))
  {
  }
}
