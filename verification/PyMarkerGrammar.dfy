/** The grammar of environment markers, and the evaluator against it. */
module PyMarkerGrammar {
  import opened Common
  import opened Text
  import opened PyConstraint
  import opened PyMarkerText
  import opened PyMarker

  datatype Operand = Variable(name: string) | Literal(text: string)

  datatype Marker =
    | Compared(left: Operand, op: Comparison, right: Operand)
    | Both(first: Marker, second: Marker)
    | Either(first: Marker, second: Marker)
    | Group(inner: Marker)

  // -------------------------------------------------------------------------- meaning

  predicate Supported(o: Operand, target: Target) {
    o.Variable? ==> VariableValue(o.name, target).Some?
  }

  /** The value of an operand and the variable it came from, if any. */
  function OperandValue(o: Operand, target: Target): (string, string)
    requires Supported(o, target)
  {
    match o
    case Variable(name) => (VariableValue(name, target).value, name)
    case Literal(text) => (text, "")
  }

  predicate AllSupported(e: Marker, target: Target) {
    match e
    case Compared(a, _, b) => Supported(a, target) && Supported(b, target)
    case Both(l, r) => AllSupported(l, target) && AllSupported(r, target)
    case Either(l, r) => AllSupported(l, target) && AllSupported(r, target)
    case Group(b) => AllSupported(b, target)
  }

  /** The truth value of a syntax tree. */
  predicate Eval(parse: Parser, target: Target, e: Marker)
    requires GoodParser(parse) && AllSupported(e, target)
  {
    match e
    case Compared(a, op, b) =>
      var (left, leftVariable) := OperandValue(a, target);
      var (right, rightVariable) := OperandValue(b, target);
      Holds(parse, left, right, op, VersionVariable(leftVariable) || VersionVariable(rightVariable))
    case Both(l, r) => Eval(parse, target, l) && Eval(parse, target, r)
    case Either(l, r) => Eval(parse, target, l) || Eval(parse, target, r)
    case Group(b) => Eval(parse, target, b)
  }

  // ------------------------------------------------------------------------- grammar

  predicate OperandIs(o: Operand, t: Token) {
    match o
    case Variable(name) => t == Token(Word, name)
    case Literal(text) => t == Token(Quoted, text)
  }

  function OperatorLength(op: Comparison): nat {
    if op == NotIn then 2 else 1
  }

  /** A keyword of the grammar: any token with that text in any letter case, as the parser
      has it, or, read strictly, only the lower-case word. */
  predicate Connects(strict: bool, t: Token, word: string) {
    (strict ==> t == Token(Word, word)) && Keyword(t, word)
  }

  predicate OperatorIs(strict: bool, op: Comparison, ts: seq<Token>, i: nat)
    requires i + OperatorLength(op) <= |ts|
  {
    match op
    case In => ts[i].kind != Symbol && Connects(strict, ts[i], "in")
    case NotIn => ts[i].kind != Symbol && Connects(strict, ts[i], "not") && Connects(strict, ts[i + 1], "in")
    case _ => ts[i].kind == Symbol && SymbolOperator(ts[i].value) == Some(op)
  }

  /** The tokens from i up to j spell the tree. At level 0 anything may stand, at level 1
      no bare disjunction, at level 2 only a comparison or a parenthesised marker; both
      connectives group to the left. */
  ghost predicate Spells(strict: bool, e: Marker, level: nat, ts: seq<Token>, i: nat, j: nat)
    requires i <= j <= |ts|
    decreases e, 1
  {
    match e
    case Compared(_, _, _) => SpellsUnit(strict, e, ts, i, j)
    case Group(_) => SpellsUnit(strict, e, ts, i, j)
    case Both(_, _) => level <= 1 && exists k: nat :: SplitsAt(strict, e, ts, i, k, j)
    case Either(_, _) => level == 0 && exists k: nat :: SplitsAt(strict, e, ts, i, k, j)
  }

  ghost predicate SpellsUnit(strict: bool, e: Marker, ts: seq<Token>, i: nat, j: nat)
    requires i <= j <= |ts| && (e.Compared? || e.Group?)
    decreases e, 0
  {
    match e
    case Compared(a, op, b) =>
      && j == i + 2 + OperatorLength(op)
      && OperandIs(a, ts[i]) && OperatorIs(strict, op, ts, i + 1) && OperandIs(b, ts[j - 1])
    case Group(b) =>
      i + 2 <= j && ts[i].kind == Left && ts[j - 1].kind == Right && Spells(strict, b, 0, ts, i + 1, j - 1)
  }

  /** The level of the first part; the second part is one level up. */
  function FirstLevel(e: Marker): nat {
    if e.Both? then 1 else 0
  }

  /** The connective of the tree is the token at k. */
  ghost predicate SplitsAt(strict: bool, e: Marker, ts: seq<Token>, i: nat, k: nat, j: nat)
    requires j <= |ts| && (e.Both? || e.Either?)
    decreases e, 0
  {
    && i <= k < j && Connects(strict, ts[k], if e.Both? then "and" else "or")
    && Spells(strict, e.first, FirstLevel(e), ts, i, k) && Spells(strict, e.second, FirstLevel(e) + 1, ts, k + 1, j)
  }

  /** What the grammar needs of the scanner: a closing parenthesis is no keyword. */
  ghost predicate Bracketed(ts: seq<Token>) {
    Ended(ts) && forall i :: 0 <= i < |ts| && ts[i].kind == Right ==> ts[i].value == ")"
  }

  lemma LexedEnds(ts: seq<Token>)
    requires Lexed(ts)
    ensures Bracketed(ts)
  {
  }

  // ---------------------------------------------------------------- the parser accepts

  lemma OperandAccepted(target: Target, o: Operand, ts: seq<Token>, i: nat)
    requires Ended(ts) && i < |ts| && Supported(o, target) && OperandIs(o, ts[i])
    ensures ts[i].kind != Left && OperandAt(target, ts, i) == Good(OperandValue(o, target), i + 1)
  {
  }

  lemma OperatorAccepted(op: Comparison, ts: seq<Token>, i: nat)
    requires Ended(ts) && i + OperatorLength(op) <= |ts| && OperatorIs(false, op, ts, i)
    ensures OperatorAt(ts, i) == Good(op, i + OperatorLength(op))
  {
  }

  lemma ComparisonAccepted(parse: Parser, target: Target, e: Marker, ts: seq<Token>, i: nat, j: nat)
    requires GoodParser(parse) && Ended(ts) && i <= j < |ts| && e.Compared? && AllSupported(e, target)
    requires SpellsUnit(false, e, ts, i, j)
    ensures ts[i].kind != Left && ComparisonAt(parse, target, ts, i) == Good(Eval(parse, target, e), j)
  {
    OperandAccepted(target, e.left, ts, i);
    OperatorAccepted(e.op, ts, i + 1);
    assert i + 1 + OperatorLength(e.op) == j - 1;
    OperandAccepted(target, e.right, ts, j - 1);
  }

  lemma NotBoth(t: Token)
    ensures !(Keyword(t, "and") && Keyword(t, "or"))
    ensures t.value == ")" || t.value == "" ==> !Keyword(t, "and") && !Keyword(t, "or")
  {
  }

  lemma {:induction false} TermAccepted(parse: Parser, target: Target, e: Marker, ts: seq<Token>, i: nat, j: nat)
    requires GoodParser(parse) && Bracketed(ts) && i <= j < |ts| && AllSupported(e, target)
    requires Spells(false, e, 2, ts, i, j)
    ensures TermAt(parse, target, ts, i) == Good(Eval(parse, target, e), j)
    decreases e, 0
  {
    if e.Compared? {
      ComparisonAccepted(parse, target, e, ts, i, j);
    } else {
      assert SpellsUnit(false, e, ts, i, j);
      NotBoth(ts[j - 1]);
      OrAccepted(parse, target, e.inner, ts, i + 1, j - 1);
    }
  }

  lemma AndStep(parse: Parser, target: Target, ts: seq<Token>, left: bool, k: nat)
    requires GoodParser(parse) && Ended(ts) && k + 1 < |ts| && Keyword(ts[k], "and")
    requires TermAt(parse, target, ts, k + 1).Good?
    ensures var right := TermAt(parse, target, ts, k + 1);
            AndFrom(parse, target, ts, left, k) == AndFrom(parse, target, ts, left && right.value, right.next)
  {
  }

  lemma {:induction false} AndAccepted(parse: Parser, target: Target, e: Marker, ts: seq<Token>, i: nat, j: nat)
    requires GoodParser(parse) && Bracketed(ts) && i <= j < |ts| && AllSupported(e, target)
    requires Spells(false, e, 1, ts, i, j)
    ensures AndAt(parse, target, ts, i) == AndFrom(parse, target, ts, Eval(parse, target, e), j)
    decreases e, 1
  {
    if e.Both? {
      var k: nat :| SplitsAt(false, e, ts, i, k, j);
      AndAccepted(parse, target, e.first, ts, i, k);
      TermAccepted(parse, target, e.second, ts, k + 1, j);
      AndStep(parse, target, ts, Eval(parse, target, e.first), k);
    } else {
      TermAccepted(parse, target, e, ts, i, j);
    }
  }

  lemma {:induction false} OrAccepted(parse: Parser, target: Target, e: Marker, ts: seq<Token>, i: nat, j: nat)
    requires GoodParser(parse) && Bracketed(ts) && i <= j < |ts| && AllSupported(e, target)
    requires Spells(false, e, 0, ts, i, j)
    requires !Keyword(ts[j], "and")
    ensures OrAt(parse, target, ts, i) == OrFrom(parse, target, ts, Eval(parse, target, e), j)
    decreases e, 2
  {
    if e.Either? {
      var k: nat :| SplitsAt(false, e, ts, i, k, j);
      NotBoth(ts[k]);
      OrAccepted(parse, target, e.first, ts, i, k);
      AndAccepted(parse, target, e.second, ts, k + 1, j);
    } else {
      AndAccepted(parse, target, e, ts, i, j);
    }
  }

  // --------------------------------------------------------- the parser accepts no more

  lemma OperatorFound(ts: seq<Token>, i: nat)
    requires Ended(ts) && i < |ts| && OperatorAt(ts, i).Good?
    ensures var out := OperatorAt(ts, i);
            out.next == i + OperatorLength(out.value) && OperatorIs(false, out.value, ts, i)
  {
    SymbolsAreSymbols(ts[i].value);
  }

  lemma OperandFound(target: Target, ts: seq<Token>, i: nat)
    requires Ended(ts) && i < |ts| && OperandAt(target, ts, i).Good?
    ensures var o := OperandOf(ts[i]);
            Supported(o, target) && OperandIs(o, ts[i]) &&
            OperandAt(target, ts, i) == Good(OperandValue(o, target), i + 1)
  {
  }

  lemma ComparisonFound(parse: Parser, target: Target, ts: seq<Token>, i: nat) returns (e: Marker)
    requires GoodParser(parse) && Ended(ts) && i < |ts| && ComparisonAt(parse, target, ts, i).Good?
    ensures var out := ComparisonAt(parse, target, ts, i);
            AllSupported(e, target) && Spells(false, e, 2, ts, i, out.next) && Eval(parse, target, e) == out.value
  {
    var j;
    e, j := ComparisonTree(target, ts, i);
    ComparisonAccepted(parse, target, e, ts, i, j);
  }

  lemma ComparisonTree(target: Target, ts: seq<Token>, i: nat) returns (e: Marker, j: nat)
    requires Ended(ts) && i < |ts| && OperandAt(target, ts, i).Good? && OperatorAt(ts, i + 1).Good?
    requires OperandAt(target, ts, OperatorAt(ts, i + 1).next).Good?
    ensures i <= j < |ts| && e.Compared? && AllSupported(e, target) && SpellsUnit(false, e, ts, i, j)
  {
    OperandFound(target, ts, i);
    OperatorFound(ts, i + 1);
    var op := OperatorAt(ts, i + 1);
    OperandFound(target, ts, op.next);
    e, j := Compared(OperandOf(ts[i]), op.value, OperandOf(ts[op.next])), op.next + 1;
  }

  function OperandOf(t: Token): Operand {
    if t.kind == Quoted then Literal(t.value) else Variable(t.value)
  }

  lemma {:induction false} LookupFinds<V>(table: seq<(string, V)>, name: string)
    requires Lookup(table, name).Some?
    ensures exists i :: 0 <= i < |table| && table[i] == (name, Lookup(table, name).value)
    decreases |table|
  {
    if table[0].0 == name {
      assert table[0] == (name, table[0].1);
    } else {
      LookupFinds(table[1..], name);
      var i :| 0 <= i < |table| - 1 && table[1..][i] == (name, Lookup(table, name).value);
      assert table[i + 1] == table[1..][i];
    }
  }

  lemma SymbolsAreSymbols(text: string)
    ensures SymbolOperator(text) != Some(In) && SymbolOperator(text) != Some(NotIn)
  {
    if SymbolOperator(text).Some? {
      LookupFinds(Symbols(), text);
    }
  }

  lemma {:induction false} TermFound(parse: Parser, target: Target, ts: seq<Token>, i: nat) returns (e: Marker)
    requires GoodParser(parse) && Ended(ts) && i < |ts| && TermAt(parse, target, ts, i).Good?
    ensures var out := TermAt(parse, target, ts, i);
            AllSupported(e, target) && Spells(false, e, 2, ts, i, out.next) && Eval(parse, target, e) == out.value
    decreases |ts| - i, 0
  {
    if ts[i].kind == Left {
      var inner := OrFound(parse, target, ts, i + 1);
      e := Group(inner);
      assert SpellsUnit(false, e, ts, i, TermAt(parse, target, ts, i).next);
    } else {
      e := ComparisonFound(parse, target, ts, i);
    }
  }

  lemma {:induction false} SpellsLower(e: Marker, ts: seq<Token>, i: nat, j: nat)
    requires i <= j <= |ts|
    ensures Spells(false, e, 2, ts, i, j) ==> Spells(false, e, 1, ts, i, j)
    ensures Spells(false, e, 1, ts, i, j) ==> Spells(false, e, 0, ts, i, j)
  {
  }

  lemma {:induction false} AndFound(parse: Parser, target: Target, ts: seq<Token>, i: nat) returns (e: Marker)
    requires GoodParser(parse) && Ended(ts) && i < |ts| && AndAt(parse, target, ts, i).Good?
    ensures var out := AndAt(parse, target, ts, i);
            AllSupported(e, target) && Spells(false, e, 1, ts, i, out.next) && Eval(parse, target, e) == out.value
    decreases |ts| - i, 1
  {
    var first := TermFound(parse, target, ts, i);
    var k := TermAt(parse, target, ts, i).next;
    SpellsLower(first, ts, i, k);
    e := MoreAnd(parse, target, ts, i, k, first);
  }

  lemma {:induction false} MoreAnd(
    parse: Parser, target: Target, ts: seq<Token>, i: nat, k: nat, first: Marker)
    returns (e: Marker)
    requires GoodParser(parse) && Ended(ts) && i < k < |ts| && AllSupported(first, target)
    requires Spells(false, first, 1, ts, i, k)
    requires AndFrom(parse, target, ts, Eval(parse, target, first), k).Good?
    ensures var out := AndFrom(parse, target, ts, Eval(parse, target, first), k);
            AllSupported(e, target) && Spells(false, e, 1, ts, i, out.next) && Eval(parse, target, e) == out.value
    decreases |ts| - k, 1
  {
    e := first;
    if Keyword(ts[k], "and") {
      var second := TermFound(parse, target, ts, k + 1);
      var j := TermAt(parse, target, ts, k + 1).next;
      assert SplitsAt(false, Both(first, second), ts, i, k, j);
      e := MoreAnd(parse, target, ts, i, j, Both(first, second));
    }
  }

  lemma {:induction false} OrFound(parse: Parser, target: Target, ts: seq<Token>, i: nat) returns (e: Marker)
    requires GoodParser(parse) && Ended(ts) && i < |ts| && OrAt(parse, target, ts, i).Good?
    ensures var out := OrAt(parse, target, ts, i);
            AllSupported(e, target) && Spells(false, e, 0, ts, i, out.next) && Eval(parse, target, e) == out.value
    decreases |ts| - i, 2
  {
    var first := AndFound(parse, target, ts, i);
    var k := AndAt(parse, target, ts, i).next;
    SpellsLower(first, ts, i, k);
    e := MoreOr(parse, target, ts, i, k, first);
  }

  lemma {:induction false} MoreOr(
    parse: Parser, target: Target, ts: seq<Token>, i: nat, k: nat, first: Marker)
    returns (e: Marker)
    requires GoodParser(parse) && Ended(ts) && i < k < |ts| && AllSupported(first, target)
    requires Spells(false, first, 0, ts, i, k)
    requires OrFrom(parse, target, ts, Eval(parse, target, first), k).Good?
    ensures var out := OrFrom(parse, target, ts, Eval(parse, target, first), k);
            AllSupported(e, target) && Spells(false, e, 0, ts, i, out.next) && Eval(parse, target, e) == out.value
    decreases |ts| - k, 2
  {
    e := first;
    if Keyword(ts[k], "or") {
      var second := AndFound(parse, target, ts, k + 1);
      var j := AndAt(parse, target, ts, k + 1).next;
      assert SplitsAt(false, Either(first, second), ts, i, k, j);
      e := MoreOr(parse, target, ts, i, j, Either(first, second));
    }
  }

  // -------------------------------------------------------------------------- theorems

  /** The tokens spell a tree over supported variables. */
  ghost predicate Derives(strict: bool, e: Marker, target: Target, ts: seq<Token>)
    requires |ts| >= 1
  {
    AllSupported(e, target) && Spells(strict, e, 0, ts, 0, |ts| - 1)
  }

  /** A token list evaluates to a value exactly when it spells a tree with that value. */
  lemma EvaluatesExactly(parse: Parser, target: Target, ts: seq<Token>, value: bool)
    requires GoodParser(parse) && Lexed(ts)
    ensures Ended(ts)
    ensures ValueOf(parse, target, ts) == Ok(value) <==>
            exists e :: Derives(false, e, target, ts) && Eval(parse, target, e) == value
  {
    LexedEnds(ts);
    if ValueOf(parse, target, ts) == Ok(value) {
      var e := OrFound(parse, target, ts, 0);
      var j := OrAt(parse, target, ts, 0).next;
      assert j == |ts| - 1;
      assert Derives(false, e, target, ts);
    }
    if e :| Derives(false, e, target, ts) && Eval(parse, target, e) == value {
      NotBoth(EOF);
      OrAccepted(parse, target, e, ts, 0, |ts| - 1);
    }
  }

  /** All trees that a token list spells have the same value. */
  lemma GrammarIsUnambiguous(parse: Parser, target: Target, ts: seq<Token>, d: Marker, e: Marker)
    requires GoodParser(parse) && Lexed(ts) && Derives(false, d, target, ts) && Derives(false, e, target, ts)
    ensures Eval(parse, target, d) == Eval(parse, target, e)
  {
    EvaluatesExactly(parse, target, ts, Eval(parse, target, d));
    EvaluatesExactly(parse, target, ts, Eval(parse, target, e));
  }

  /** Any text that writes out the tokens of a tree, with any blanks, evaluates to the value
      of the tree. */
  lemma TextEvaluates(parse: Parser, target: Target, e: Marker, ts: seq<Token>, gaps: seq<string>)
    requires GoodParser(parse) && (forall t <- ts :: WellFormed(t)) && GapsFit(ts, gaps)
    requires Derives(false, e, target, ts + [EOF])
    ensures Evaluate(parse, target, Spell(ts, gaps)) == Ok(Eval(parse, target, e))
  {
    SpellingScans(ts, gaps);
    var all := ts + [EOF];
    forall i | 0 <= i < |all| - 1 ensures WellFormed(all[i]) {
      assert all[i] == ts[i] && ts[i] in ts;
    }
    EvaluatesExactly(parse, target, all, Eval(parse, target, e));
  }

  // -------------------------------------------------------------------------- printing

  function OperandToken(o: Operand): Token {
    match o
    case Variable(name) => Token(Word, name)
    case Literal(text) => Token(Quoted, text)
  }

  function OperatorTokens(op: Comparison): seq<Token> {
    match op
    case In => [Token(Word, "in")]
    case NotIn => [Token(Word, "not"), Token(Word, "in")]
    case SameText => [Token(Symbol, "===")]
    case EqualTo => [Token(Symbol, "==")]
    case NotEqualTo => [Token(Symbol, "!=")]
    case LessThan => [Token(Symbol, "<")]
    case NoMoreThan => [Token(Symbol, "<=")]
    case MoreThan => [Token(Symbol, ">")]
    case NoLessThan => [Token(Symbol, ">=")]
    case CompatibleWith => [Token(Symbol, "~=")]
  }

  /** The tree with the parentheses that the level calls for. */
  function Dress(e: Marker, level: nat): Marker
    decreases e
  {
    match e
    case Compared(_, _, _) => e
    case Group(b) => Group(Dress(b, 0))
    case Both(l, r) =>
      var bare := Both(Dress(l, 1), Dress(r, 2));
      if level <= 1 then bare else Group(bare)
    case Either(l, r) =>
      var bare := Either(Dress(l, 0), Dress(r, 1));
      if level == 0 then bare else Group(bare)
  }

  function Tokens(e: Marker): seq<Token> {
    match e
    case Compared(a, op, b) => [OperandToken(a)] + OperatorTokens(op) + [OperandToken(b)]
    case Group(b) => [Token(Left, "(")] + Tokens(b) + [Token(Right, ")")]
    case Both(l, r) => Tokens(l) + [Token(Word, "and")] + Tokens(r)
    case Either(l, r) => Tokens(l) + [Token(Word, "or")] + Tokens(r)
  }

  /** Literals can be quoted, and no comparison is the `===` that the scanner splits. */
  predicate Printable(e: Marker) {
    match e
    case Compared(a, op, b) => Quotable(a) && Quotable(b) && op != SameText
    case Both(l, r) => Printable(l) && Printable(r)
    case Either(l, r) => Printable(l) && Printable(r)
    case Group(b) => Printable(b)
  }

  predicate Quotable(o: Operand) {
    o.Literal? ==> '\'' !in o.text || '"' !in o.text
  }

  lemma {:induction false} DressKeepsValue(parse: Parser, target: Target, e: Marker, level: nat)
    requires GoodParser(parse) && AllSupported(e, target)
    ensures AllSupported(Dress(e, level), target) && Eval(parse, target, Dress(e, level)) == Eval(parse, target, e)
    decreases e
  {
    match e
    case Compared(_, _, _) =>
    case Group(b) => DressKeepsValue(parse, target, b, 0);
    case Both(l, r) =>
      DressKeepsValue(parse, target, l, 1);
      DressKeepsValue(parse, target, r, 2);
    case Either(l, r) =>
      DressKeepsValue(parse, target, l, 0);
      DressKeepsValue(parse, target, r, 1);
  }

  /** The tokens from i up to j stand in the other list from `at` on. */
  ghost predicate SameTokens(ts: seq<Token>, i: nat, j: nat, us: seq<Token>, at: nat) {
    i <= j <= |ts| && at + (j - i) <= |us| && forall k :: i <= k < j ==> ts[k] == us[at + (k - i)]
  }

  lemma ComparedShift(e: Marker, level: nat, ts: seq<Token>, i: nat, j: nat, us: seq<Token>, at: nat)
    requires e.Compared? && SameTokens(ts, i, j, us, at) && Spells(false, e, level, ts, i, j)
    ensures Spells(false, e, level, us, at, at + (j - i))
  {
    assert SpellsUnit(false, e, ts, i, j);
    assert ts[i] == us[at] && ts[i + 1] == us[at + 1] && ts[i + 2] == us[at + 2] && ts[j - 1] == us[at + (j - 1 - i)];
    assert SpellsUnit(false, e, us, at, at + (j - i));
  }

  /** Spelling depends only on the tokens between the two positions. */
  lemma {:induction false} SpellsShift(e: Marker, level: nat, ts: seq<Token>, i: nat, j: nat, us: seq<Token>, at: nat)
    requires SameTokens(ts, i, j, us, at) && Spells(false, e, level, ts, i, j)
    ensures Spells(false, e, level, us, at, at + (j - i))
    decreases e
  {
    match e
    case Compared(_, _, _) => ComparedShift(e, level, ts, i, j, us, at);
    case Group(b) =>
      assert SpellsUnit(false, e, ts, i, j);
      assert ts[i] == us[at] && ts[j - 1] == us[at + (j - 1 - i)];
      SpellsShift(b, 0, ts, i + 1, j - 1, us, at + 1);
      assert SpellsUnit(false, e, us, at, at + (j - i));
    case Both(l, r) =>
      var k: nat :| SplitsAt(false, e, ts, i, k, j);
      assert ts[k] == us[at + (k - i)];
      SpellsShift(l, 1, ts, i, k, us, at);
      SpellsShift(r, 2, ts, k + 1, j, us, at + (k - i) + 1);
      assert SplitsAt(false, e, us, at, at + (k - i), at + (j - i));
    case Either(l, r) =>
      var k: nat :| SplitsAt(false, e, ts, i, k, j);
      assert ts[k] == us[at + (k - i)];
      SpellsShift(l, 0, ts, i, k, us, at);
      SpellsShift(r, 1, ts, k + 1, j, us, at + (k - i) + 1);
      assert SplitsAt(false, e, us, at, at + (k - i), at + (j - i));
  }

  lemma ComparedTokens(a: Operand, op: Comparison, b: Operand, level: nat)
    ensures var e := Compared(a, op, b); Spells(false, e, level, Tokens(e), 0, |Tokens(e)|)
  {
    var ts := Tokens(Compared(a, op, b));
    assert |OperatorTokens(op)| == OperatorLength(op);
    assert ts[0] == OperandToken(a) && ts[|ts| - 1] == OperandToken(b);
    assert ts[1] == OperatorTokens(op)[0];
    OperatorPrinted(op);
    if op == NotIn {
      assert ts[2] == OperatorTokens(op)[1];
    }
    assert SpellsUnit(false, Compared(a, op, b), ts, 0, |ts|);
  }

  lemma OperatorPrinted(op: Comparison)
    ensures |OperatorTokens(op)| == OperatorLength(op) && OperatorIs(false, op, OperatorTokens(op), 0)
  {
    if op != In && op != NotIn {
      var text := OperatorTokens(op)[0].value;
      var n := if op == EqualTo then 0 else if op == NotEqualTo then 1 else if op == LessThan then 2
        else if op == NoMoreThan then 3 else if op == MoreThan then 4 else if op == NoLessThan then 5
        else if op == CompatibleWith then 6 else 7;
      LookupAt(Symbols(), n);
    }
  }

  lemma {:induction false} LookupAt<V>(table: seq<(string, V)>, n: nat)
    requires n < |table| && forall i :: 0 <= i < n ==> table[i].0 != table[n].0
    ensures Lookup(table, table[n].0) == Some(table[n].1)
    decreases n
  {
    if n > 0 {
      assert table[0].0 != table[n].0 && table[1..][n - 1] == table[n];
      LookupAt(table[1..], n - 1);
    }
  }

  lemma {:induction false} FoldsToItself(word: string)
    ensures EqualFold(word, word)
    decreases |word|
  {
    if word != "" {
      FoldsToItself(word[1..]);
    }
  }

  lemma GroupTokens(b: Marker, level: nat)
    requires Spells(false, b, 0, Tokens(b), 0, |Tokens(b)|)
    ensures var e := Group(b); Spells(false, e, level, Tokens(e), 0, |Tokens(e)|)
  {
    BetweenParentheses(b, Tokens(b), Tokens(Group(b)));
  }

  lemma BetweenParentheses(b: Marker, x: seq<Token>, ts: seq<Token>)
    requires Spells(false, b, 0, x, 0, |x|) && ts == [Token(Left, "(")] + x + [Token(Right, ")")]
    ensures SpellsUnit(false, Group(b), ts, 0, |ts|)
  {
    var tail := x + [Token(Right, ")")];
    LeftPart(b, 0, x, [Token(Right, ")")]);
    assert ts == [Token(Left, "(")] + tail;
    RightPart(b, 0, [Token(Left, "(")], tail, |x|, ts);
  }

  lemma LeftTokens(x: seq<Token>, y: seq<Token>)
    ensures SameTokens(x, 0, |x|, x + y, 0)
  {
  }

  lemma RightTokens(x: seq<Token>, y: seq<Token>, n: nat, us: seq<Token>)
    requires n <= |y| && us == x + y
    ensures SameTokens(y, 0, n, us, |x|)
  {
  }

  lemma PlacedAt(e: Marker, level: nat, y: seq<Token>, n: nat, us: seq<Token>, at: nat)
    requires n <= |y| && SameTokens(y, 0, n, us, at) && Spells(false, e, level, y, 0, n)
    ensures Spells(false, e, level, us, at, at + n)
  {
    SpellsShift(e, level, y, 0, n, us, at);
  }

  lemma LeftPart(e: Marker, level: nat, x: seq<Token>, y: seq<Token>)
    requires Spells(false, e, level, x, 0, |x|)
    ensures Spells(false, e, level, x + y, 0, |x|)
  {
    LeftTokens(x, y);
    PlacedAt(e, level, x, |x|, x + y, 0);
  }

  lemma RightPart(e: Marker, level: nat, x: seq<Token>, y: seq<Token>, n: nat, us: seq<Token>)
    requires n <= |y| && us == x + y && Spells(false, e, level, y, 0, n)
    ensures Spells(false, e, level, us, |x|, |x| + n)
  {
    RightTokens(x, y, n, us);
    PlacedAt(e, level, y, n, us, |x|);
  }

  lemma JoinSpells(e: Marker, ts: seq<Token>, k: nat)
    requires (e.Both? || e.Either?) && k < |ts| && Keyword(ts[k], if e.Both? then "and" else "or")
    requires Spells(false, e.first, FirstLevel(e), ts, 0, k)
    requires Spells(false, e.second, FirstLevel(e) + 1, ts, k + 1, |ts|)
    ensures Spells(false, e, FirstLevel(e), ts, 0, |ts|)
  {
    assert SplitsAt(false, e, ts, 0, k, |ts|);
  }

  lemma JoinTokens(l: Marker, r: Marker, level: nat, x: seq<Token>, c: Token, y: seq<Token>, ts: seq<Token>)
    requires ts == x + [c] + y && Spells(false, l, level, x, 0, |x|) && Spells(false, r, level + 1, y, 0, |y|)
    ensures |x| < |ts| && ts[|x|] == c && Spells(false, l, level, ts, 0, |x|)
    ensures Spells(false, r, level + 1, ts, |x| + 1, |ts|)
  {
    LeftPart(l, level, x, [c] + y);
    RightPart(r, level + 1, x + [c], y, |y|, ts);
    assert x + ([c] + y) == ts;
  }

  lemma BothTokens(l: Marker, r: Marker)
    requires Spells(false, l, 1, Tokens(l), 0, |Tokens(l)|) && Spells(false, r, 2, Tokens(r), 0, |Tokens(r)|)
    ensures var e := Both(l, r); Spells(false, e, 1, Tokens(e), 0, |Tokens(e)|)
  {
    var x, y, ts := Tokens(l), Tokens(r), Tokens(Both(l, r));
    JoinTokens(l, r, 1, x, Token(Word, "and"), y, ts);
    FoldsToItself("and");
    JoinSpells(Both(l, r), ts, |x|);
  }

  lemma EitherTokens(l: Marker, r: Marker)
    requires Spells(false, l, 0, Tokens(l), 0, |Tokens(l)|) && Spells(false, r, 1, Tokens(r), 0, |Tokens(r)|)
    ensures var e := Either(l, r); Spells(false, e, 0, Tokens(e), 0, |Tokens(e)|)
  {
    var x, y, ts := Tokens(l), Tokens(r), Tokens(Either(l, r));
    JoinTokens(l, r, 0, x, Token(Word, "or"), y, ts);
    FoldsToItself("or");
    JoinSpells(Either(l, r), ts, |x|);
  }

  /** The tokens of a dressed tree spell it. */
  lemma {:induction false} DressedSpells(e: Marker, level: nat)
    ensures var d := Dress(e, level); Spells(false, d, level, Tokens(d), 0, |Tokens(d)|)
    decreases e
  {
    match e
    case Compared(a, op, b) => ComparedTokens(a, op, b, level);
    case Group(b) =>
      DressedSpells(b, 0);
      GroupTokens(Dress(b, 0), level);
    case Both(l, r) =>
      DressedSpells(l, 1);
      DressedSpells(r, 2);
      BothTokens(Dress(l, 1), Dress(r, 2));
      var bare := Both(Dress(l, 1), Dress(r, 2));
      SpellsLower(bare, Tokens(bare), 0, |Tokens(bare)|);
      if level > 1 {
        GroupTokens(Both(Dress(l, 1), Dress(r, 2)), level);
      }
    case Either(l, r) =>
      DressedSpells(l, 0);
      DressedSpells(r, 1);
      EitherTokens(Dress(l, 0), Dress(r, 1));
      if level > 0 {
        GroupTokens(Either(Dress(l, 0), Dress(r, 1)), level);
      }
  }

  lemma {:induction false} TokensWellFormed(target: Target, e: Marker)
    requires Printable(e) && AllSupported(e, target)
    ensures forall t <- Tokens(e) :: WellFormed(t)
  {
    match e
    case Compared(a, op, b) =>
      OperandWellFormed(target, a);
      OperandWellFormed(target, b);
      OperatorWellFormed(op);
    case Group(b) => TokensWellFormed(target, b);
    case Both(l, r) =>
      WordsAreWords();
      TokensWellFormed(target, l);
      TokensWellFormed(target, r);
    case Either(l, r) =>
      WordsAreWords();
      TokensWellFormed(target, l);
      TokensWellFormed(target, r);
  }

  lemma WordsAreWords()
    ensures WellFormed(Token(Word, "and")) && WellFormed(Token(Word, "or"))
    ensures WellFormed(Token(Word, "not")) && WellFormed(Token(Word, "in"))
  {
  }

  lemma OperatorWellFormed(op: Comparison)
    requires op != SameText
    ensures forall t <- OperatorTokens(op) :: WellFormed(t)
  {
    WordsAreWords();
  }

  lemma OperandWellFormed(target: Target, o: Operand)
    requires Supported(o, target) && Quotable(o)
    ensures WellFormed(OperandToken(o))
  {
    if o.Variable? {
      LookupFinds(Variables(target), o.name);
      VariablesAreWords(target);
    }
  }

  predicate Plain(s: string) {
    forall i :: 0 <= i < |s| ==> 'a' <= s[i] <= 'z' || s[i] == '_'
  }

  lemma PlainIsWord(s: string)
    requires Plain(s) && s != ""
    ensures WellFormed(Token(Word, s))
  {
    forall c <- s ensures !EndsWord(c) {
      var i :| 0 <= i < |s| && s[i] == c;
    }
  }

  lemma PlainPlatformNames()
    ensures Plain("sys_platform") && Plain("os_name") && Plain("platform_system")
    ensures Plain("platform_python_implementation") && Plain("extra")
  {
  }

  lemma PlainVersionNames()
    ensures Plain("python_version") && Plain("python_full_version")
    ensures Plain("implementation_name") && Plain("implementation_version")
  {
  }

  lemma VariablesAreWords(target: Target)
    ensures forall i :: 0 <= i < |Variables(target)| ==> WellFormed(Token(Word, Variables(target)[i].0))
  {
    var table := Variables(target);
    forall i | 0 <= i < |table| ensures WellFormed(Token(Word, table[i].0)) {
      PlainPlatformNames();
      PlainVersionNames();
      PlainIsWord(table[i].0);
    }
  }

  lemma {:induction false} DressKeepsPrintable(e: Marker, level: nat)
    requires Printable(e)
    ensures Printable(Dress(e, level))
    decreases e
  {
    match e
    case Compared(_, _, _) =>
    case Group(b) => DressKeepsPrintable(b, 0);
    case Both(l, r) =>
      DressKeepsPrintable(l, 1);
      DressKeepsPrintable(r, 2);
    case Either(l, r) =>
      DressKeepsPrintable(l, 0);
      DressKeepsPrintable(r, 1);
  }

  /** Printing any tree with the parentheses it needs and then evaluating the text gives
      the value of the tree: conjunction binds tighter than disjunction. */
  lemma PrintThenEvaluate(parse: Parser, target: Target, e: Marker, gaps: seq<string>)
    requires GoodParser(parse) && AllSupported(e, target) && Printable(e) && GapsFit(Tokens(Dress(e, 0)), gaps)
    ensures Evaluate(parse, target, Spell(Tokens(Dress(e, 0)), gaps)) == Ok(Eval(parse, target, e))
  {
    var d := Dress(e, 0);
    var ts := Tokens(d);
    DressKeepsValue(parse, target, e, 0);
    DressKeepsPrintable(e, 0);
    TokensWellFormed(target, d);
    DressedSpells(e, 0);
    LeftPart(d, 0, ts, [EOF]);
    assert Derives(false, d, target, ts + [EOF]);
    TextEvaluates(parse, target, d, ts, gaps);
  }
}
