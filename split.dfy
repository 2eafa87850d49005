/** `split(input, limit)`: the input cut around the successive matches
    `find()` reports. The matches are taken as given, a sequence of
    (start, end) spans in input order; the pieces are sub-sequences of the
    input. */
module Splitting {
  import opened Base

  /** One match reported by `find()`: `start()` and `end()`. */
  datatype Span = Span(start: nat, end: nat)

  /** What `find()` guarantees of its successive matches: each lies inside
      the input, and each starts no earlier than the previous one ended. */
  predicate Ordered(spans: seq<Span>, n: int)
  {
    (forall i :: 0 <= i < |spans| ==> spans[i].start <= spans[i].end <= n)
    && (forall i, j :: 0 <= i < j < |spans| ==> spans[i].end <= spans[j].start)
  }

  /** Where piece `k` starts: at the end of the match before it. */
  function PieceStart(spans: seq<Span>, k: int): (r: int)
    requires 0 <= k <= |spans|
    ensures r >= 0
  {
    if k == 0 then 0 else spans[k - 1].end
  }

  /** The first `k` pieces, each ending where the next match starts. */
  function Before<T>(input: seq<T>, spans: seq<Span>, k: int): (r: seq<seq<T>>)
    requires Ordered(spans, |input|) && 0 <= k <= |spans|
    ensures |r| == k
    ensures forall i {:trigger r[i]} :: 0 <= i < k ==> r[i] == input[PieceStart(spans, i)..spans[i].start]
  {
    seq(k, i requires 0 <= i < k && Ordered(spans, |input|) && k <= |spans| =>
          input[PieceStart(spans, i)..spans[i].start])
  }

  /** The pieces around the first `k` matches: the last one runs to the
      end of the input, whatever matches it contains. */
  function Pieces<T>(input: seq<T>, spans: seq<Span>, k: int): (r: seq<seq<T>>)
    requires Ordered(spans, |input|) && 0 <= k <= |spans|
    ensures |r| == k + 1 && r[k] == input[PieceStart(spans, k)..]
  {
    Before(input, spans, k) + [input[PieceStart(spans, k)..]]
  }

  /** How many matches the loop looks at (`index` follows each of them)
      and how many it cuts at: with a positive limit the cut stops after
      `limit - 1` matches, and the `limit`-th match only moves `index`. */
  function Seen(count: int, limit: int): int
  {
    if limit > 0 then Min(count, limit) else count
  }

  function Cuts(count: int, limit: int): int
  {
    if limit > 0 then Min(count, limit - 1) else count
  }

  /** `index == 0` after the loop: no match was seen, or every match seen
      ended at position 0. The whole input is then the only piece. */
  predicate NoMatch(spans: seq<Span>, limit: int)
  {
    0 <= Seen(|spans|, limit) <= |spans| && PieceStart(spans, Seen(|spans|, limit)) == 0
  }

  /** `index == 0` after the loop exactly when every match the loop
      looks at is empty and at position 0. */
  lemma {:induction false} NoMatchAtZero(spans: seq<Span>, n: int, limit: int)
    requires Ordered(spans, n)
    ensures NoMatch(spans, limit)
            <==> forall i :: 0 <= i < Seen(|spans|, limit) ==> spans[i].start == 0 && spans[i].end == 0
  {
    var k := Seen(|spans|, limit);
    if k > 0 && spans[k - 1].end == 0 {
      forall i | 0 <= i < k
        ensures spans[i].start == 0 && spans[i].end == 0
      {
        if i < k - 1 {
          assert spans[i].end <= spans[k - 1].start;
        }
      }
    }
  }

  /** The pieces before the trailing empty ones are dropped. */
  function Gathered<T>(input: seq<T>, spans: seq<Span>, limit: int): (r: seq<seq<T>>)
    requires Ordered(spans, |input|)
    ensures 1 <= |r|
    ensures limit > 0 ==> |r| <= limit
  {
    if NoMatch(spans, limit) then [input] else Pieces(input, spans, Cuts(|spans|, limit))
  }

  /** The list without its trailing empty pieces. */
  function TrimEmpty<T>(pieces: seq<seq<T>>): (r: seq<seq<T>>)
    ensures |r| <= |pieces| && r == pieces[..|r|]
    ensures forall i :: |r| <= i < |pieces| ==> pieces[i] == []
    ensures |r| > 0 ==> r[|r| - 1] != []
  {
    if |pieces| > 0 && |pieces[|pieces| - 1]| == 0 then TrimEmpty(pieces[..|pieces| - 1]) else pieces
  }

  /** `split` as intended: with `limit == 0` trailing empty pieces are
      dropped (the documented behaviour). */
  function Split<T>(input: seq<T>, spans: seq<Span>, limit: int): (r: seq<seq<T>>)
    requires Ordered(spans, |input|)
    ensures var g := Gathered(input, spans, limit);
            |r| <= |g| && r == g[..|r|] && (forall i :: |r| <= i < |g| ==> g[i] == [])
    ensures limit != 0 ==> r == Gathered(input, spans, limit)
  {
    if limit == 0 && !NoMatch(spans, limit) then TrimEmpty(Gathered(input, spans, limit))
    else Gathered(input, spans, limit)
  }

  // ---------------------------------------------------------------
  // As written: the trim compares each piece's text with "".

  /** `elements joined by ", "`, the middle of `AbstractCollection.toString`;
      `show` is the elements' own `toString`. */
  function Joined<T>(piece: seq<T>, show: T -> string): string
  {
    if |piece| == 0 then ""
    else if |piece| == 1 then show(piece[0])
    else show(piece[0]) + ", " + Joined(piece[1..], show)
  }

  /** `List.toString()`: the elements in square brackets, never empty. */
  function ListText<T>(piece: seq<T>, show: T -> string): (s: string)
    ensures |s| >= 2 && s[0] == '[' && s[|s| - 1] == ']'
  {
    "[" + Joined(piece, show) + "]"
  }

  /** The trim loop as written: drops pieces while their `text` is "". */
  function TrimText<T>(pieces: seq<seq<T>>, text: seq<T> -> string): (r: seq<seq<T>>)
    ensures |r| <= |pieces| && r == pieces[..|r|]
    ensures forall i :: |r| <= i < |pieces| ==> text(pieces[i]) == ""
    ensures |r| > 0 ==> text(r[|r| - 1]) != ""
  {
    if |pieces| > 0 && text(pieces[|pieces| - 1]) == "" then TrimText(pieces[..|pieces| - 1], text)
    else pieces
  }

  /** `split` as written. */
  function SplitAsWritten<T>(input: seq<T>, spans: seq<Span>, limit: int, show: T -> string): (r: seq<seq<T>>)
    requires Ordered(spans, |input|)
    ensures var g := Gathered(input, spans, limit);
            |r| <= |g| && r == g[..|r|] && (forall i :: |r| <= i < |g| ==> ListText(g[i], show) == "")
    ensures limit != 0 ==> r == Gathered(input, spans, limit)
  {
    if limit == 0 && !NoMatch(spans, limit) then TrimText(Gathered(input, spans, limit), p => ListText(p, show))
    else Gathered(input, spans, limit)
  }

  /** The trim as written never drops anything: a list's text always has
      its brackets. */
  lemma TrimTextKeepsAll<T>(pieces: seq<seq<T>>, show: T -> string)
    ensures TrimText(pieces, p => ListText(p, show)) == pieces
  {
    if |pieces| > 0 {
      var s := ListText(pieces[|pieces| - 1], show);
      assert |s| >= 2;
    }
  }

  /** An input whose last match reaches its end: as written, the empty
      piece after it stays; the documented result drops it. */
  lemma TrailingEmptyPieceKept<T>(a: T, b: T, show: T -> string)
    ensures SplitAsWritten([a, b], [Span(1, 2)], 0, show) == [[a], []]
    ensures Split([a, b], [Span(1, 2)], 0) == [[a]]
  {
    var input := [a, b];
    var spans := [Span(1, 2)];
    assert Gathered(input, spans, 0) == [[a], []] by {
      assert input[0..1] == [a];
      assert Before(input, spans, 1) == [[a]];
    }
    TrimTextKeepsAll([[a], []], show);
    assert TrimEmpty([[a], []]) == TrimEmpty([[a]]) by {
      assert [[a], []][..1] == [[a]];
    }
  }

  // ---------------------------------------------------------------
  // Properties

  /** A positive limit caps the number of pieces, and there is always at
      least one unless trailing empty pieces were dropped. */
  lemma SplitBounded<T>(input: seq<T>, spans: seq<Span>, limit: int)
    requires Ordered(spans, |input|)
    ensures limit != 0 ==> 1 <= |Split(input, spans, limit)|
    ensures limit > 0 ==> |Split(input, spans, limit)| <= limit
    ensures limit == 0 ==> |Split(input, spans, limit)| <= |spans| + 1
  {
  }

  /** Without a limit every match cuts: one piece more than matches, each
      the input between two consecutive matches. */
  lemma UnlimitedSplit<T>(input: seq<T>, spans: seq<Span>, limit: int)
    requires Ordered(spans, |input|) && limit < 0 && !NoMatch(spans, limit)
    ensures |Split(input, spans, limit)| == |spans| + 1
    ensures forall i :: 0 <= i < |spans| ==>
              Split(input, spans, limit)[i] == input[PieceStart(spans, i)..spans[i].start]
    ensures Split(input, spans, limit)[|spans|] == input[PieceStart(spans, |spans|)..]
  {
  }

  /** The matched parts of the input. */
  function Matches<T>(input: seq<T>, spans: seq<Span>, k: int): (r: seq<seq<T>>)
    requires Ordered(spans, |input|) && 0 <= k <= |spans|
    ensures |r| == k
    ensures forall i {:trigger r[i]} :: 0 <= i < k ==> r[i] == input[spans[i].start..spans[i].end]
  {
    seq(k, i requires 0 <= i < k && Ordered(spans, |input|) && k <= |spans| =>
          input[spans[i].start..spans[i].end])
  }

  /** The first `k` pieces and matches, alternately. */
  function Woven<T>(pieces: seq<seq<T>>, matches: seq<seq<T>>, k: nat): seq<T>
    requires k <= |pieces| && k <= |matches|
  {
    if k == 0 then [] else Woven(pieces, matches, k - 1) + pieces[k - 1] + matches[k - 1]
  }

  /** Pieces and matches put back together. */
  function Rebuild<T>(pieces: seq<seq<T>>, matches: seq<seq<T>>): seq<T>
    requires |pieces| == |matches| + 1
  {
    Woven(pieces, matches, |matches|) + pieces[|matches|]
  }

  lemma {:induction false} WovenPrefix<T>(input: seq<T>, spans: seq<Span>, m: int, k: nat)
    requires Ordered(spans, |input|) && k <= m <= |spans|
    ensures Woven(Pieces(input, spans, m), Matches(input, spans, m), k) == input[..PieceStart(spans, k)]
  {
    if k > 0 {
      WovenPrefix(input, spans, m, k - 1);
      var a := PieceStart(spans, k - 1);
      var b := spans[k - 1].start;
      var c := spans[k - 1].end;
      Adjacent(input, a, b, c);
      WovenStep(Pieces(input, spans, m), Matches(input, spans, m), k, input[..a], input[a..b], input[b..c]);
    }
  }

  lemma WovenStep<T>(pieces: seq<seq<T>>, matches: seq<seq<T>>, k: nat, x: seq<T>, y: seq<T>, z: seq<T>)
    requires 0 < k <= |pieces| && k <= |matches|
    requires Woven(pieces, matches, k - 1) == x && pieces[k - 1] == y && matches[k - 1] == z
    ensures Woven(pieces, matches, k) == x + y + z
  {
  }

  /** Three adjacent slices make one. */
  lemma Adjacent<T>(s: seq<T>, a: int, b: int, c: int)
    requires 0 <= a <= b <= c <= |s|
    ensures s[..a] + s[a..b] + s[b..c] == s[..c]
  {
    assert s[..a] + s[a..b] == s[..b];
  }

  /** The pieces of `k` cuts and the `k` matches between them put back
      together are the input. */
  lemma PiecesRebuild<T>(input: seq<T>, spans: seq<Span>, k: int)
    requires Ordered(spans, |input|) && 0 <= k <= |spans|
    ensures Rebuild(Pieces(input, spans, k), Matches(input, spans, k)) == input
  {
    WovenPrefix(input, spans, k, k);
    var a := PieceStart(spans, k);
    assert input[..a] + input[a..] == input;
  }

  /** With a limit other than 0 nothing is dropped: the pieces and the
      matches cut at rebuild the input, the last piece absorbing every
      match after the limit. */
  lemma SplitRebuilds<T>(input: seq<T>, spans: seq<Span>, limit: int)
    requires Ordered(spans, |input|) && limit != 0 && !NoMatch(spans, limit)
    ensures Rebuild(Split(input, spans, limit), Matches(input, spans, Cuts(|spans|, limit))) == input
  {
    PiecesRebuild(input, spans, Cuts(|spans|, limit));
  }

  /** With `limit == 0` the result is the untrimmed pieces up to some
      point, and everything dropped is empty. */
  lemma ZeroLimitTrims<T>(input: seq<T>, spans: seq<Span>)
    requires Ordered(spans, |input|) && !NoMatch(spans, 0)
    ensures var g := Gathered(input, spans, 0);
            var r := Split(input, spans, 0);
            r == g[..|r|] && (forall i :: |r| <= i < |g| ==> g[i] == [])
            && (|r| > 0 ==> r[|r| - 1] != [])
  {
  }

  // ---------------------------------------------------------------
  // The loop

  /** What the loop has collected after looking at `k` matches. */
  function Collected<T>(input: seq<T>, spans: seq<Span>, limit: int, k: int): seq<seq<T>>
    requires Ordered(spans, |input|) && 0 <= k <= |spans|
  {
    if limit <= 0 || k <= limit - 1 then Before(input, spans, k) else Pieces(input, spans, limit - 1)
  }

  lemma BeforeStep<T>(input: seq<T>, spans: seq<Span>, k: int)
    requires Ordered(spans, |input|) && 0 <= k < |spans|
    ensures Before(input, spans, k + 1) == Before(input, spans, k) + [input[PieceStart(spans, k)..spans[k].start]]
  {
  }

  lemma TrimStep<T>(pieces: seq<seq<T>>)
    requires |pieces| > 0 && |pieces[|pieces| - 1]| == 0
    ensures TrimEmpty(pieces) == TrimEmpty(pieces[..|pieces| - 1])
  {
  }

  /** The trim loop of `split`: how many pieces remain once the trailing
      empty ones are dropped. */
  method TrimmedSize<T>(pieces: seq<seq<T>>) returns (size: nat)
    ensures size <= |pieces| && pieces[..size] == TrimEmpty(pieces)
  {
    size := |pieces|;
    while size > 0 && |pieces[size - 1]| == 0
      invariant 0 <= size <= |pieces|
      invariant TrimEmpty(pieces[..size]) == TrimEmpty(pieces)
    {
      TrimStep(pieces[..size]);
      assert pieces[..size][..size - 1] == pieces[..size - 1];
      size := size - 1;
    }
    assert TrimEmpty(pieces[..size]) == pieces[..size];
  }

  /** How many pieces the loop holds after `k` matches. */
  lemma CollectedSize<T>(input: seq<T>, spans: seq<Span>, limit: int, k: int)
    requires Ordered(spans, |input|) && 0 <= k <= |spans|
    ensures |Collected(input, spans, limit, k)| == if limit <= 0 || k <= limit - 1 then k else limit
  {
  }

  /** A turn of the loop while fewer than `limit - 1` pieces are
      collected: match `k` cuts, and the next piece starts at its end. */
  lemma CollectCut<T>(input: seq<T>, spans: seq<Span>, limit: int, k: int)
    requires Ordered(spans, |input|) && 0 <= k < |spans| && (limit <= 0 || k < limit - 1)
    ensures var index := PieceStart(spans, Seen(k, limit));
            0 <= index <= spans[k].start
            && Collected(input, spans, limit, k + 1)
               == Collected(input, spans, limit, k) + [input[index..spans[k].start]]
            && PieceStart(spans, Seen(k + 1, limit)) == spans[k].end
  {
    BeforeStep(input, spans, k);
  }

  /** The turn at which `limit - 1` pieces are collected: the last piece
      runs to the end of the input. */
  lemma CollectLast<T>(input: seq<T>, spans: seq<Span>, limit: int, k: int)
    requires Ordered(spans, |input|) && 0 <= k < |spans| && limit > 0 && k == limit - 1
    ensures var index := PieceStart(spans, Seen(k, limit));
            0 <= index <= |input|
            && Collected(input, spans, limit, k + 1) == Collected(input, spans, limit, k) + [input[index..]]
            && PieceStart(spans, Seen(k + 1, limit)) == spans[k].end
  {
    assert Seen(k, limit) == k && Seen(k + 1, limit) == k + 1;
    assert Collected(input, spans, limit, k) == Before(input, spans, k);
    assert Collected(input, spans, limit, k + 1) == Pieces(input, spans, k);
  }

  /** The turns after the limit is reached change nothing. */
  lemma CollectPast<T>(input: seq<T>, spans: seq<Span>, limit: int, k: int)
    requires Ordered(spans, |input|) && 0 <= k < |spans| && limit > 0 && k > limit - 1
    ensures Collected(input, spans, limit, k + 1) == Collected(input, spans, limit, k)
    ensures PieceStart(spans, Seen(k + 1, limit)) == PieceStart(spans, Seen(k, limit))
  {
  }

  /** After the loop: the last piece is added unless the limit is reached,
      which gives the untrimmed pieces. */
  lemma CollectEnd<T>(input: seq<T>, spans: seq<Span>, limit: int)
    requires Ordered(spans, |input|) && !NoMatch(spans, limit)
    ensures var c := Collected(input, spans, limit, |spans|);
            var index := PieceStart(spans, Seen(|spans|, limit));
            0 <= index <= |input|
            && Gathered(input, spans, limit)
               == if limit <= 0 || |c| < limit then c + [input[index..]] else c
  {
  }

  /** The loop of `split`: the pieces collected and where the next one
      starts, once every match is looked at. */
  method CollectPieces<T>(input: seq<T>, spans: seq<Span>, limit: int)
    returns (matchList: seq<seq<T>>, index: int)
    requires Ordered(spans, |input|)
    ensures matchList == Collected(input, spans, limit, |spans|)
    ensures index == PieceStart(spans, Seen(|spans|, limit))
  {
    index := 0;
    var matchLimited := limit > 0;
    matchList := [];
    var k := 0;
    while k < |spans|
      invariant 0 <= k <= |spans|
      invariant matchList == Collected(input, spans, limit, k)
      invariant index == PieceStart(spans, Seen(k, limit))
    {
      CollectedSize(input, spans, limit, k);
      var m := spans[k];
      if !matchLimited || |matchList| < limit - 1 {
        CollectCut(input, spans, limit, k);
        matchList := matchList + [input[index..m.start]];
        index := m.end;
      } else if |matchList| == limit - 1 {
        CollectLast(input, spans, limit, k);
        matchList := matchList + [input[index..]];
        index := m.end;
      } else {
        CollectPast(input, spans, limit, k);
      }
      k := k + 1;
    }
  }

  /** `split(input, limit)` over the matches `spans`. */
  method SplitInput<T>(input: seq<T>, spans: seq<Span>, limit: int) returns (result: seq<seq<T>>)
    requires Ordered(spans, |input|)
    ensures result == Split(input, spans, limit)
  {
    var matchList, index := CollectPieces(input, spans, limit);
    if index == 0 {
      return [input];
    }
    CollectEnd(input, spans, limit);
    if limit <= 0 || |matchList| < limit {
      matchList := matchList + [input[index..]];
    }
    var resultSize := |matchList|;
    if limit == 0 {
      resultSize := TrimmedSize(matchList);
    }
    result := matchList[..resultSize];
  }
}
