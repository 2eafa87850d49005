/** The vocabulary of pattern sources (`PatternElement` and the three
    `Patternable` kinds) and of the items of an input sequence. */
module Tokens {
  import opened Base

  /** The structural markers, in the declaration order of the source enum
      (the order `compareTo` on markers follows). */
  datatype Marker =
    | OpenBracket | OpenSquare | Dot | Slash | Caret | Dollar | CloseBracket
    | Pipe | CloseSquare | Question | Star | CloseBrace | Plus | EndMarker
    | LowerP | UpperP | Other | OpenBrace | And | At | Colon | Equals | Bang
    | GreaterThan | LessThan | Dash | Comma | NewLine | UnderScore | Number

  /** Position of a marker in the enum declaration. */
  function Ordinal(m: Marker): (r: nat)
    ensures r < 30
  {
    match m
    case OpenBracket => 0  case OpenSquare => 1  case Dot => 2  case Slash => 3
    case Caret => 4  case Dollar => 5  case CloseBracket => 6  case Pipe => 7
    case CloseSquare => 8  case Question => 9  case Star => 10  case CloseBrace => 11
    case Plus => 12  case EndMarker => 13  case LowerP => 14  case UpperP => 15
    case Other => 16  case OpenBrace => 17  case And => 18  case At => 19
    case Colon => 20  case Equals => 21  case Bang => 22  case GreaterThan => 23
    case LessThan => 24  case Dash => 25  case Comma => 26  case NewLine => 27
    case UnderScore => 28  case Number => 29
  }

  /** The character each marker is declared with; `MarkerFor` inverts it. */
  function CharOf(m: Marker): char
  {
    match m
    case OpenBracket => '('  case OpenSquare => '['  case Dot => '.'  case Slash => '\\'
    case Caret => '^'  case Dollar => '$'  case CloseBracket => ')'  case Pipe => '|'
    case CloseSquare => ']'  case Question => '?'  case Star => '*'  case CloseBrace => '}'
    case Plus => '+'  case EndMarker => 0 as char  case LowerP => 'p'  case UpperP => 'P'
    case Other => 'x'  case OpenBrace => '{'  case And => '&'  case At => '@'
    case Colon => ':'  case Equals => '='  case Bang => '!'  case GreaterThan => '>'
    case LessThan => '<'  case Dash => '-'  case Comma => ','  case NewLine => '\n'
    case UnderScore => '_'  case Number => '1'
  }

  /** `PatternElement.getFor`: the marker declared with character `c`,
      `Other` for every character no marker is declared with. */
  function MarkerFor(c: char): Marker
  {
    if c == '(' then OpenBracket else if c == '[' then OpenSquare
    else if c == '.' then Dot else if c == '\\' then Slash
    else if c == '^' then Caret else if c == '$' then Dollar
    else if c == ')' then CloseBracket else if c == '|' then Pipe
    else if c == ']' then CloseSquare else if c == '?' then Question
    else if c == '*' then Star else if c == '}' then CloseBrace
    else if c == '+' then Plus else if c == 0 as char then EndMarker
    else if c == 'p' then LowerP else if c == 'P' then UpperP
    else if c == '{' then OpenBrace else if c == '&' then And
    else if c == '@' then At else if c == ':' then Colon
    else if c == '=' then Equals else if c == '!' then Bang
    else if c == '>' then GreaterThan else if c == '<' then LessThan
    else if c == '-' then Dash else if c == ',' then Comma
    else if c == '\n' then NewLine else if c == '_' then UnderScore
    else if c == '1' then Number
    else Other
  }

  /** The name a marker is declared under. */
  function Name(m: Marker): string
  {
    match m
    case OpenBracket => "OPEN_BRACKET"
    case OpenSquare => "OPEN_SQUARE"
    case Dot => "DOT"
    case Slash => "SLASH"
    case Caret => "CARET"
    case Dollar => "DOLLAR"
    case CloseBracket => "CLOSE_BRACKET"
    case Pipe => "PIPE"
    case CloseSquare => "CLOSE_SQUARE"
    case Question => "QUESTION"
    case Star => "STAR"
    case CloseBrace => "CLOSE_BRACE"
    case Plus => "PLUS"
    case EndMarker => "END_MARKER"
    case LowerP => "LOWER_P"
    case UpperP => "UPPER_P"
    case Other => "OTHER"
    case OpenBrace => "OPEN_BRACE"
    case And => "AND"
    case At => "AT"
    case Colon => "COLON"
    case Equals => "EQUALS"
    case Bang => "BANG"
    case GreaterThan => "GREATER_THAN"
    case LessThan => "LESS_THAN"
    case Dash => "DASH"
    case Comma => "COMMA"
    case NewLine => "NEW_LINE"
    case UnderScore => "UNDER_SCORE"
    case Number => "NUMBER"
  }

  /** `PatternElement.toString()`: the name followed by the character in
      quotes and parentheses, as error messages show it. */
  function Describe(m: Marker): string
  {
    Name(m) + "('" + [CharOf(m)] + "')"
  }

  /** Every marker is found again from its own character: the 30 declared
      characters are pairwise distinct. */
  lemma MarkerRoundTrip(m: Marker)
    ensures MarkerFor(CharOf(m)) == m
  {
    match m
    case OpenBracket =>  case OpenSquare =>  case Dot =>  case Slash =>  case Caret =>
    case Dollar =>  case CloseBracket =>  case Pipe =>  case CloseSquare =>  case Question =>
    case Star =>  case CloseBrace =>  case Plus =>  case EndMarker =>  case LowerP =>
    case UpperP =>  case Other =>  case OpenBrace =>  case And =>  case At =>
    case Colon =>  case Equals =>  case Bang =>  case GreaterThan =>  case LessThan =>
    case Dash =>  case Comma =>  case NewLine =>  case UnderScore =>  case Number =>
  }

  /** A character either names no marker or is the declared character of
      the marker it names. */
  lemma CharRoundTrip(c: char)
    ensures MarkerFor(c) == Other || CharOf(MarkerFor(c)) == c
  {
  }

  /** An element of the input sequence. `ref` is its object identity (two
      positions holding the same object share it); a `Mark` item is a
      structural marker object placed in the input, which is how the
      newline of `.`, `^` and `$` reaches the engine. */
  datatype Item<V> = Obj(ref: nat, value: V) | Mark(ref: nat, marker: Marker)

  predicate IsNewLine<V>(x: Item<V>) { x.Mark? && x.marker == NewLine }

  /** A pattern token. `Literal` is an `ElementPatternable` wrapping a
      user `Comparable` (its `compareTo` applied to input items);
      `Structural` a `PatternElementPatternable`; `Count` an
      `IntegerPatternable`; `ClassTok` a `ClassPatternable` (its runtime
      type test taken as a predicate). */
  datatype Token<!V> =
    | Structural(marker: Marker)
    | Literal(compareTo: Item<V> -> int)
    | Count(count: int)
    | ClassTok(isInstance: Item<V> -> bool)

  /** `patternElement()` of a token. */
  function Kind<V>(t: Token<V>): (m: Marker)
    ensures t.Structural? ==> m == t.marker
    ensures t.Count? <==> (m == Number && !t.Structural?)
    ensures (t.Literal? || t.ClassTok?) ==> m == Other
  {
    match t
    case Structural(m) => m
    case Literal(_) => Other
    case Count(_) => Number
    case ClassTok(_) => Other
  }

  /** `compareTo` of a token against an input item: only literals
      implement it, the other kinds throw. */
  function CompareTo<V>(t: Token<V>, x: Item<V>): (r: Outcome<int>)
    ensures r.Ok? <==> t.Literal?
    ensures t.Literal? ==> r.value == t.compareTo(x)
  {
    if t.Literal? then Ok(t.compareTo(x)) else Err(IllegalArgument)
  }

  /** `getCount()`: only a count token answers, the others throw. */
  function GetCount<V>(t: Token<V>): (r: Outcome<int>)
    ensures r.Ok? <==> t.Count?
    ensures t.Count? ==> r.value == t.count
  {
    if t.Count? then Ok(t.count) else Err(IllegalArgument)
  }

  /** `getClassToMatch()`: only a class token answers, the others throw. */
  function ClassToMatch<V>(t: Token<V>): (r: Outcome<Item<V> -> bool>)
    ensures r.Ok? <==> t.ClassTok?
  {
    if t.ClassTok? then Ok(t.isInstance) else Err(IllegalArgument)
  }

  /** `PatternElementPatternable(m)` for a character passed to `add(char)`. */
  function CharToken<V>(c: char): (t: Token<V>)
    ensures t.Structural? && Kind(t) == MarkerFor(c)
  {
    Structural(MarkerFor(c))
  }
}
