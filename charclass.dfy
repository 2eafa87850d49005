/** Element predicates (`CharProperty.isSatisfiedBy`) and the class
    combinators `union`, `intersection`, `setDifference`, `complement`. */
module CharClass {
  import opened Base
  import opened Tokens

  /** The predicate behind a `CharProperty` node. Membership is evaluated
      per element; no table is built. */
  datatype CharPred<!V> =
    | SingleP(c: Token<V>)                       // Single: c.compareTo(x) == 0
    | RangeP(lower: Token<V>, upper: Token<V>)   // rangeFor: inRange(lower, x, upper)
    | NamedP(isInstance: Item<V> -> bool)        // CharPropertyName: runtime type test
    | AllP                                       // All
    | DotP                                       // Dot: anything but the newline marker
    | ComplementP(p: CharPred<V>)
    | UnionP(lhs: CharPred<V>, rhs: CharPred<V>)
    | IntersectionP(lhs: CharPred<V>, rhs: CharPred<V>)
    | DifferenceP(lhs: CharPred<V>, rhs: CharPred<V>)

  /** `isSatisfiedBy(x)`: the boolean answer, or the exception thrown by a
      non-literal token's `compareTo`. Java's `&&`/`||` short-circuit, so the
      second operand is consulted only when the first does not decide. */
  function Satisfies<V>(p: CharPred<V>, x: Item<V>): Outcome<bool>
  {
    match p
    case SingleP(c) =>
      var d :- CompareTo(c, x);
      Ok(d == 0)
    case RangeP(lo, hi) =>
      var a :- CompareTo(lo, x);
      if !(a <= 0) then Ok(false)
      else
        var b :- CompareTo(hi, x);
        Ok(0 <= b)
    case NamedP(f) => Ok(f(x))
    case AllP => Ok(true)
    case DotP => Ok(!IsNewLine(x))
    case ComplementP(q) =>
      var b :- Satisfies(q, x);
      Ok(!b)
    case UnionP(l, r) =>
      var a :- Satisfies(l, x);
      if a then Ok(true) else Satisfies(r, x)
    case IntersectionP(l, r) =>
      var a :- Satisfies(l, x);
      if !a then Ok(false) else Satisfies(r, x)
    case DifferenceP(l, r) =>
      var b :- Satisfies(r, x);
      if b then Ok(false) else Satisfies(l, x)
  }

  /** `p` accepts `x`. */
  predicate Accepts<V>(p: CharPred<V>, x: Item<V>) { Satisfies(p, x) == Ok(true) }

  /** `p` answers for `x` without throwing. */
  predicate Answers<V>(p: CharPred<V>, x: Item<V>) { Satisfies(p, x).Ok? }

  /** Every token a predicate compares against is a literal. */
  predicate Total<V>(p: CharPred<V>)
  {
    match p
    case SingleP(c) => c.Literal?
    case RangeP(lo, hi) => lo.Literal? && hi.Literal?
    case NamedP(_) => true
    case AllP => true
    case DotP => true
    case ComplementP(q) => Total(q)
    case UnionP(l, r) => Total(l) && Total(r)
    case IntersectionP(l, r) => Total(l) && Total(r)
    case DifferenceP(l, r) => Total(l) && Total(r)
  }

  /** A predicate built only over literals never throws. */
  lemma {:induction false} TotalAnswers<V>(p: CharPred<V>, x: Item<V>)
    requires Total(p)
    ensures Answers(p, x)
  {
    match p
    case SingleP(_) =>
    case RangeP(_, _) =>
    case NamedP(_) =>
    case AllP =>
    case DotP =>
    case ComplementP(q) => TotalAnswers(q, x);
    case UnionP(l, r) => TotalAnswers(l, x); TotalAnswers(r, x);
    case IntersectionP(l, r) => TotalAnswers(l, x); TotalAnswers(r, x);
    case DifferenceP(l, r) => TotalAnswers(l, x); TotalAnswers(r, x);
  }

  /** `newSingle(c)`: accepts exactly the elements `c` compares equal to. */
  function NewSingle<V(!new)>(c: Token<V>): (p: CharPred<V>)
    ensures Total(p) <==> c.Literal?
    ensures forall x :: c.Literal? ==> (Accepts(p, x) <==> c.compareTo(x) == 0)
    ensures forall x :: !c.Literal? ==> Satisfies(p, x) == Err(IllegalArgument)
  {
    SingleP(c)
  }

  /** `inRange(lower, x, upper)` over literal endpoints. */
  predicate InRange<V>(lower: Token<V>, x: Item<V>, upper: Token<V>)
    requires lower.Literal? && upper.Literal?
  {
    lower.compareTo(x) <= 0 && 0 <= upper.compareTo(x)
  }

  /** `rangeFor(lower, upper)`: accepts x exactly when lower <= x <= upper
      under the literals' own order, both ends included. */
  function RangeFor<V(!new)>(lower: Token<V>, upper: Token<V>): (p: CharPred<V>)
    ensures Total(p) <==> lower.Literal? && upper.Literal?
    ensures forall x :: lower.Literal? && upper.Literal? ==>
      (Accepts(p, x) <==> InRange(lower, x, upper)) && Answers(p, x)
    ensures forall x :: !lower.Literal? ==> Satisfies(p, x) == Err(IllegalArgument)
  {
    RangeP(lower, upper)
  }

  /** `new CharPropertyName(...)`: the runtime type test itself. */
  function Named<V(!new)>(isInstance: Item<V> -> bool): (p: CharPred<V>)
    ensures Total(p)
    ensures forall x :: Accepts(p, x) <==> isInstance(x)
  {
    NamedP(isInstance)
  }

  /** `Dot`: every element except a newline marker. */
  function DotClass<V(!new)>(): (p: CharPred<V>)
    ensures Total(p)
    ensures forall x :: Accepts(p, x) <==> !IsNewLine(x)
  {
    DotP
  }

  /** `complement()`: accepts exactly what `p` rejects; an exception of `p`
      passes through. */
  function Complement<V(!new)>(p: CharPred<V>): (q: CharPred<V>)
    ensures Total(q) <==> Total(p)
    ensures forall x :: Answers(p, x) ==> Answers(q, x) && (Accepts(q, x) <==> !Accepts(p, x))
    ensures forall x :: !Answers(p, x) ==> Satisfies(q, x) == Satisfies(p, x)
  {
    ComplementP(p)
  }

  /** `maybeComplement(comp)`. */
  function MaybeComplement<V(!new)>(p: CharPred<V>, comp: bool): (q: CharPred<V>)
    ensures !comp ==> q == p
    ensures comp ==> forall x :: Answers(p, x) ==> Answers(q, x) && (Accepts(q, x) <==> !Accepts(p, x))
  {
    if comp then Complement(p) else p
  }

  /** `union(lhs, rhs)`: lhs or rhs; `rhs` is not consulted once `lhs` accepts. */
  function Union<V(!new)>(lhs: CharPred<V>, rhs: CharPred<V>): (p: CharPred<V>)
    ensures Total(p) <==> Total(lhs) && Total(rhs)
    ensures forall x :: Answers(lhs, x) && Answers(rhs, x) ==>
      Answers(p, x) && (Accepts(p, x) <==> Accepts(lhs, x) || Accepts(rhs, x))
    ensures forall x :: Accepts(lhs, x) ==> Accepts(p, x)
    ensures forall x :: !Answers(lhs, x) ==> Satisfies(p, x) == Satisfies(lhs, x)
  {
    UnionP(lhs, rhs)
  }

  /** `intersection(lhs, rhs)`: lhs and rhs. */
  function Intersection<V(!new)>(lhs: CharPred<V>, rhs: CharPred<V>): (p: CharPred<V>)
    ensures Total(p) <==> Total(lhs) && Total(rhs)
    ensures forall x :: Answers(lhs, x) && Answers(rhs, x) ==>
      Answers(p, x) && (Accepts(p, x) <==> Accepts(lhs, x) && Accepts(rhs, x))
    ensures forall x :: Satisfies(lhs, x) == Ok(false) ==> Satisfies(p, x) == Ok(false)
    ensures forall x :: !Answers(lhs, x) ==> Satisfies(p, x) == Satisfies(lhs, x)
  {
    IntersectionP(lhs, rhs)
  }

  /** `setDifference(lhs, rhs)`: lhs and not rhs; `rhs` is consulted first. */
  function SetDifference<V(!new)>(lhs: CharPred<V>, rhs: CharPred<V>): (p: CharPred<V>)
    ensures Total(p) <==> Total(lhs) && Total(rhs)
    ensures forall x :: Answers(lhs, x) && Answers(rhs, x) ==>
      Answers(p, x) && (Accepts(p, x) <==> Accepts(lhs, x) && !Accepts(rhs, x))
    ensures forall x :: Accepts(rhs, x) ==> Satisfies(p, x) == Ok(false)
    ensures forall x :: !Answers(rhs, x) ==> Satisfies(p, x) == Satisfies(rhs, x)
  {
    DifferenceP(lhs, rhs)
  }
}
