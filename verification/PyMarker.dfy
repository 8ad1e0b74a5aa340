/** The recursive-descent evaluator of PEP 508 environment markers. */
module PyMarker {
  import opened Common
  import opened Orders
  import opened Text
  import opened PyVersion
  import opened PyConstraint
  import opened PyMarkerText

  datatype Target = Target(
    pythonVersion: string, pythonFullVersion: string, sysPlatform: string, osName: string,
    platformSystem: string, implementation: string)

  datatype Comparison =
    | SameText | EqualTo | NotEqualTo | LessThan | NoMoreThan | MoreThan | NoLessThan | CompatibleWith | In | NotIn

  // ------------------------------------------------------------------------ comparing

  function Variables(target: Target): seq<(string, string)> {
    [ ("python_version", target.pythonVersion),
      ("python_full_version", target.pythonFullVersion),
      ("sys_platform", target.sysPlatform),
      ("os_name", target.osName),
      ("platform_system", target.platformSystem),
      ("implementation_name", target.implementation),
      ("platform_python_implementation", "CPython"),
      ("implementation_version", target.pythonFullVersion),
      ("extra", "") ]
  }

  function Lookup<V>(table: seq<(string, V)>, name: string): Option<V> {
    if table == [] then None
    else if table[0].0 == name then Some(table[0].1)
    else Lookup(table[1..], name)
  }

  function VariableValue(name: string, target: Target): Option<string> {
    Lookup(Variables(target), name)
  }

  predicate VersionVariable(name: string) {
    name == "python_version" || name == "python_full_version" || name == "implementation_version"
  }

  /** Versions are compared only if a version variable is involved and both sides are
      versions; otherwise texts are. */
  function ValueOrder(parse: Parser, left: string, right: string, versions: bool): int {
    if versions && parse(left).Some? && parse(right).Some? then Order(parse(left).value, parse(right).value)
    else StringCompare(left, right)
  }

  predicate Holds(parse: Parser, left: string, right: string, op: Comparison, versions: bool)
    requires GoodParser(parse)
  {
    var order := ValueOrder(parse, left, right, versions);
    match op
    case In => Contains(right, left)
    case NotIn => !Contains(right, left)
    case SameText => order == 0
    case EqualTo => order == 0
    case NotEqualTo => order != 0
    case LessThan => order < 0
    case NoMoreThan => order <= 0
    case MoreThan => order > 0
    case NoLessThan => order >= 0
    case CompatibleWith =>
      && parse(left).Some? && parse(right).Some?
      && Order(parse(left).value, parse(right).value) >= 0
      && CompatiblePrefix(parse(left).value, parse(right).value)
  }

  method CompareMarkerValues(
    parse: Parser, left: string, right: string, op: Comparison, leftVariable: string, rightVariable: string)
    returns (holds: bool)
    requires GoodParser(parse)
    ensures holds <==> Holds(parse, left, right, op, VersionVariable(leftVariable) || VersionVariable(rightVariable))
  {
    if op == In {
      return Contains(right, left);
    }
    if op == NotIn {
      return !Contains(right, left);
    }
    var compared := StringCompare(left, right);
    var leftVersion, rightVersion := parse(left), parse(right);
    if VersionVariable(leftVariable) || VersionVariable(rightVariable) {
      if leftVersion.Some? && rightVersion.Some? {
        compared := Compare(leftVersion.value, rightVersion.value);
      }
    }
    if op == SameText || op == EqualTo {
      return compared == 0;
    }
    if op == NotEqualTo {
      return compared != 0;
    }
    if op == LessThan {
      return compared < 0;
    }
    if op == NoMoreThan {
      return compared <= 0;
    }
    if op == MoreThan {
      return compared > 0;
    }
    if op == NoLessThan {
      return compared >= 0;
    }
    if leftVersion.None? || rightVersion.None? {
      return false;
    }
    var order := Compare(leftVersion.value, rightVersion.value);
    var compatible := CheckCompatible(leftVersion.value, rightVersion.value);
    return order >= 0 && compatible;
  }

  // ------------------------------------------------------- what the parser computes

  /** What the parser needs of its tokens: the end mark is the last one. */
  predicate Ended(ts: seq<Token>) {
    |ts| >= 1 && ts[|ts| - 1] == EOF && forall i :: 0 <= i < |ts| - 1 ==> ts[i].kind != Eof
  }

  /** A value and the position after it, or an error. */
  datatype Outcome<T> = Good(value: T, next: nat) | Bad(error: MarkerError)

  /** Where a value ends: after its first token and before the end mark. */
  predicate Advances<T>(out: Outcome<T>, ts: seq<Token>, i: nat) {
    out.Good? ==> i < out.next < |ts|
  }

  /** Only the text of a token is looked at, so a quoted keyword is one too. */
  predicate Keyword(t: Token, word: string) {
    EqualFold(t.value, word)
  }

  /** The end mark is no keyword. */
  lemma NotLast(ts: seq<Token>, i: nat, word: string)
    requires Ended(ts) && i < |ts| && word != "" && Keyword(ts[i], word)
    ensures i + 1 < |ts|
  {
  }

  function Symbols(): seq<(string, Comparison)> {
    [ ("==", EqualTo), ("!=", NotEqualTo), ("<", LessThan), ("<=", NoMoreThan),
      (">", MoreThan), (">=", NoLessThan), ("~=", CompatibleWith), ("===", SameText) ]
  }

  function SymbolOperator(text: string): Option<Comparison> {
    Lookup(Symbols(), text)
  }

  function OperandAt(target: Target, ts: seq<Token>, i: nat): (out: Outcome<(string, string)>)
    requires Ended(ts) && i < |ts|
    ensures Advances(out, ts, i)
  {
    var t := ts[i];
    if t.kind != Word && t.kind != Quoted then Bad(ExpectedOperand)
    else if t.kind == Quoted then Good((t.value, ""), i + 1)
    else
      match VariableValue(t.value, target)
      case None => Bad(UnknownVariable)
      case Some(value) => Good((value, t.value), i + 1)
  }

  function OperatorAt(ts: seq<Token>, i: nat): (out: Outcome<Comparison>)
    requires Ended(ts) && i < |ts|
    ensures Advances(out, ts, i)
  {
    var t := ts[i];
    if t.kind == Symbol then
      match SymbolOperator(t.value)
      case None => Bad(UnknownOperator)
      case Some(op) => Good(op, i + 1)
    else if Keyword(t, "in") then Good(In, i + 1)
    else if Keyword(t, "not") && i + 1 < |ts| && Keyword(ts[i + 1], "in") then Good(NotIn, i + 2)
    else Bad(ExpectedOperator)
  }

  function ComparisonAt(parse: Parser, target: Target, ts: seq<Token>, i: nat): (out: Outcome<bool>)
    requires GoodParser(parse) && Ended(ts) && i < |ts|
    ensures Advances(out, ts, i)
  {
    match OperandAt(target, ts, i)
    case Bad(e) => Bad(e)
    case Good((left, leftVariable), j) =>
      match OperatorAt(ts, j)
      case Bad(e) => Bad(e)
      case Good(op, k) =>
        match OperandAt(target, ts, k)
        case Bad(e) => Bad(e)
        case Good((right, rightVariable), n) =>
          Good(Holds(parse, left, right, op, VersionVariable(leftVariable) || VersionVariable(rightVariable)), n)
  }

  function TermAt(parse: Parser, target: Target, ts: seq<Token>, i: nat): (out: Outcome<bool>)
    requires GoodParser(parse) && Ended(ts) && i < |ts|
    ensures Advances(out, ts, i)
    decreases |ts| - i, 1
  {
    UnitAt(parse, target, ts, i)
  }

  /** A parenthesised marker or a comparison. */
  function UnitAt(parse: Parser, target: Target, ts: seq<Token>, i: nat): (out: Outcome<bool>)
    requires GoodParser(parse) && Ended(ts) && i < |ts|
    ensures Advances(out, ts, i)
    decreases |ts| - i, 0
  {
    if ts[i].kind == Left then
      match OrAt(parse, target, ts, i + 1)
      case Bad(e) => Bad(e)
      case Good(value, j) => if ts[j].kind == Right then Good(value, j + 1) else Bad(MissingParenthesis)
    else ComparisonAt(parse, target, ts, i)
  }

  function AndAt(parse: Parser, target: Target, ts: seq<Token>, i: nat): (out: Outcome<bool>)
    requires GoodParser(parse) && Ended(ts) && i < |ts|
    ensures Advances(out, ts, i)
    decreases |ts| - i, 2
  {
    match TermAt(parse, target, ts, i)
    case Bad(e) => Bad(e)
    case Good(left, j) => AndFrom(parse, target, ts, left, j)
  }

  /** The rest of a conjunction, after a left part with the given value. */
  function AndFrom(parse: Parser, target: Target, ts: seq<Token>, left: bool, i: nat): (out: Outcome<bool>)
    requires GoodParser(parse) && Ended(ts) && i < |ts|
    ensures out.Good? ==> i <= out.next < |ts|
    decreases |ts| - i, 2
  {
    if !Keyword(ts[i], "and") then Good(left, i)
    else
      match TermAt(parse, target, ts, i + 1)
      case Bad(e) => Bad(e)
      case Good(right, j) => AndFrom(parse, target, ts, left && right, j)
  }

  function OrAt(parse: Parser, target: Target, ts: seq<Token>, i: nat): (out: Outcome<bool>)
    requires GoodParser(parse) && Ended(ts) && i < |ts|
    ensures Advances(out, ts, i)
    decreases |ts| - i, 3
  {
    match AndAt(parse, target, ts, i)
    case Bad(e) => Bad(e)
    case Good(left, j) => OrFrom(parse, target, ts, left, j)
  }

  function OrFrom(parse: Parser, target: Target, ts: seq<Token>, left: bool, i: nat): (out: Outcome<bool>)
    requires GoodParser(parse) && Ended(ts) && i < |ts|
    ensures out.Good? ==> i <= out.next < |ts|
    decreases |ts| - i, 3
  {
    if !Keyword(ts[i], "or") then Good(left, i)
    else
      match AndAt(parse, target, ts, i + 1)
      case Bad(e) => Bad(e)
      case Good(right, j) => OrFrom(parse, target, ts, left || right, j)
  }

  /** The value of a whole token list. */
  function ValueOf(parse: Parser, target: Target, ts: seq<Token>): Result<bool, MarkerError>
    requires GoodParser(parse) && Ended(ts)
  {
    match OrAt(parse, target, ts, 0)
    case Bad(e) => Err(e)
    case Good(value, j) => if ts[j].kind == Eof then Ok(value) else Err(Trailing)
  }

  function Evaluate(parse: Parser, target: Target, text: string): Result<bool, MarkerError>
    requires GoodParser(parse)
  {
    match Tokenize(text)
    case Err(e) => Err(e)
    case Ok(ts) => TokensAreLexed(text); ValueOf(parse, target, ts)
  }

  // ------------------------------------------------------------------------ the parser

  class MarkerParser {
    const parse: Parser
    const target: Target
    const tokens: seq<Token>
    var index: nat

    ghost predicate Valid() reads this {
      GoodParser(parse) && Ended(tokens) && index < |tokens|
    }

    /** The parser has moved as the outcome says; after an error it is still inside. */
    ghost predicate Reached<T>(out: Result<T, MarkerError>, expected: Outcome<T>) reads this {
      match expected
      case Bad(e) => out == Err(e)
      case Good(value, next) => out == Ok(value) && index == next
    }

    constructor (parse: Parser, target: Target, tokens: seq<Token>)
      requires GoodParser(parse) && Ended(tokens)
      ensures Valid() && index == 0
      ensures this.parse == parse && this.target == target && this.tokens == tokens
    {
      this.parse, this.target, this.tokens, this.index := parse, target, tokens, 0;
    }

    method ParseOr() returns (out: Result<bool, MarkerError>)
      requires Valid()
      modifies this`index
      ensures Valid() && Reached(out, OrAt(parse, target, tokens, old(index)))
      decreases |tokens| - index, 2
    {
      out := ParseAnd();
      if out.Err? {
        return;
      }
      var left := out.value;
      while Keyword(tokens[index], "or")
        invariant Valid() && index > old(index)
        invariant OrAt(parse, target, tokens, old(index)) == OrFrom(parse, target, tokens, left, index)
        decreases |tokens| - index
      {
        NotLast(tokens, index, "or");
        index := index + 1;
        var right := ParseAnd();
        if right.Err? {
          return right;
        }
        left := left || right.value;
      }
      return Ok(left);
    }

    method ParseAnd() returns (out: Result<bool, MarkerError>)
      requires Valid()
      modifies this`index
      ensures Valid() && Reached(out, AndAt(parse, target, tokens, old(index)))
      decreases |tokens| - index, 1
    {
      out := ParseTerm();
      if out.Err? {
        return;
      }
      var left := out.value;
      while Keyword(tokens[index], "and")
        invariant Valid() && index > old(index)
        invariant AndAt(parse, target, tokens, old(index)) == AndFrom(parse, target, tokens, left, index)
        decreases |tokens| - index
      {
        NotLast(tokens, index, "and");
        index := index + 1;
        var right := ParseTerm();
        if right.Err? {
          return right;
        }
        left := left && right.value;
      }
      return Ok(left);
    }

    method ParseTerm() returns (out: Result<bool, MarkerError>)
      requires Valid()
      modifies this`index
      ensures Valid() && Reached(out, TermAt(parse, target, tokens, old(index)))
      decreases |tokens| - index, 0
    {
      if tokens[index].kind == Left {
        index := index + 1;
        out := ParseOr();
        if out.Err? {
          return;
        }
        if tokens[index].kind != Right {
          return Err(MissingParenthesis);
        }
        index := index + 1;
        return;
      }
      var left := ParseOperand();
      if left.Err? {
        return Err(left.error);
      }
      var op := ParseOperator();
      if op.Err? {
        return Err(op.error);
      }
      var right := ParseOperand();
      if right.Err? {
        return Err(right.error);
      }
      var holds := CompareMarkerValues(parse, left.value.0, right.value.0, op.value, left.value.1, right.value.1);
      return Ok(holds);
    }

    method ParseOperand() returns (out: Result<(string, string), MarkerError>)
      requires Valid()
      modifies this`index
      ensures Valid() && Reached(out, OperandAt(target, tokens, old(index)))
    {
      var token := tokens[index];
      if token.kind != Word && token.kind != Quoted {
        return Err(ExpectedOperand);
      }
      index := index + 1;
      if token.kind == Quoted {
        return Ok((token.value, ""));
      }
      var value := VariableValue(token.value, target);
      if value.None? {
        return Err(UnknownVariable);
      }
      return Ok((value.value, token.value));
    }

    method ParseOperator() returns (out: Result<Comparison, MarkerError>)
      requires Valid()
      modifies this`index
      ensures Valid() && Reached(out, OperatorAt(tokens, old(index)))
    {
      var token := tokens[index];
      if token.kind == Symbol {
        index := index + 1;
        var op := SymbolOperator(token.value);
        return if op.Some? then Ok(op.value) else Err(UnknownOperator);
      }
      if EqualFold(token.value, "in") {
        index := index + 1;
        return Ok(In);
      }
      var peeked := if index + 1 >= |tokens| then EOF else tokens[index + 1];
      if EqualFold(token.value, "not") && EqualFold(peeked.value, "in") {
        index := index + 2;
        return Ok(NotIn);
      }
      return Err(ExpectedOperator);
    }
  }

  /** EvaluateMarker. */
  method EvaluateMarker(parse: Parser, target: Target, text: string) returns (out: Result<bool, MarkerError>)
    requires GoodParser(parse)
    ensures out == Evaluate(parse, target, text)
  {
    var tokens := TokenizeMarker(text);
    if tokens.Err? {
      return Err(tokens.error);
    }
    TokensAreLexed(text);
    var parser := new MarkerParser(parse, target, tokens.value);
    out := parser.ParseOr();
    if out.Err? {
      return;
    }
    if parser.tokens[parser.index].kind != Eof {
      return Err(Trailing);
    }
  }
}
