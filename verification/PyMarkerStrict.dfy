/** Where the marker evaluator departs from the grammar of PEP 508 in its keywords, which
    there are lower-case words, and in the operator `===`. */
module PyMarkerStrict {
  import opened Common
  import opened Text
  import opened PyConstraint
  import opened PyMarkerText
  import opened PyMarker
  import opened PyMarkerGrammar

  // ------------------------------------------------------------------ written keywords

  /** What a reader of the tokens expects next. */
  datatype Spot = AtOperand | AtOperator | AfterNot | AtSecond | AfterTerm

  /** A token that may read as a keyword but is not a lower-case one. */
  predicate NotLowerCase(t: Token) {
    t.kind == Quoted || (t.kind == Word && t.value !in {"and", "or", "in", "not"})
  }

  /** Such a token stands where only a keyword or a symbol may stand. */
  predicate Miswritten(ts: seq<Token>, i: nat, spot: Spot)
    decreases |ts| - i
  {
    i < |ts| &&
    match spot
    case AtOperand => Miswritten(ts, i + 1, if ts[i].kind == Left then AtOperand else AtOperator)
    case AtOperator =>
      NotLowerCase(ts[i]) ||
      Miswritten(ts, i + 1, if ts[i].kind != Symbol && Keyword(ts[i], "not") then AfterNot else AtSecond)
    case AfterNot => NotLowerCase(ts[i]) || Miswritten(ts, i + 1, AtSecond)
    case AtSecond => Miswritten(ts, i + 1, AfterTerm)
    case AfterTerm =>
      NotLowerCase(ts[i]) ||
      (ts[i].kind != Eof && Miswritten(ts, i + 1, if ts[i].kind == Right then AfterTerm else AtOperand))
  }

  /** Only words and quoted texts can read as keywords. */
  ghost predicate KeywordsAreTexts(ts: seq<Token>) {
    forall i :: 0 <= i < |ts| && ts[i].kind != Word && ts[i].kind != Quoted ==> NoKeyword(ts[i])
  }

  predicate NoKeyword(t: Token) {
    !Keyword(t, "and") && !Keyword(t, "or") && !Keyword(t, "in") && !Keyword(t, "not")
  }

  lemma LexedKeywords(ts: seq<Token>)
    requires Lexed(ts)
    ensures KeywordsAreTexts(ts)
  {
    forall i | 0 <= i < |ts| && ts[i].kind != Word && ts[i].kind != Quoted ensures NoKeyword(ts[i]) {
      if i < |ts| - 1 {
        assert WellFormed(ts[i]);
        MarkIsNoKeyword(ts[i]);
      }
    }
  }

  lemma MarkIsNoKeyword(t: Token)
    requires WellFormed(t) && t.kind != Word && t.kind != Quoted
    ensures NoKeyword(t)
  {
  }

  lemma NotIsNotIn(t: Token)
    ensures !(Keyword(t, "in") && Keyword(t, "not"))
  {
  }

  lemma ComparedIsClean(e: Marker, ts: seq<Token>, i: nat, j: nat)
    requires i <= j <= |ts| && e.Compared? && SpellsUnit(true, e, ts, i, j)
    ensures Miswritten(ts, i, AtOperand) == Miswritten(ts, j, AfterTerm)
  {
    assert ts[i].kind != Left;
    assert Miswritten(ts, i, AtOperand) == Miswritten(ts, i + 1, AtOperator);
    NotIsNotIn(ts[i + 1]);
    if e.op == NotIn {
      assert Miswritten(ts, i + 1, AtOperator) == Miswritten(ts, i + 2, AfterNot);
      assert Miswritten(ts, i + 2, AfterNot) == Miswritten(ts, i + 3, AtSecond);
    } else {
      assert Miswritten(ts, i + 1, AtOperator) == Miswritten(ts, i + 2, AtSecond);
    }
    assert Miswritten(ts, j - 1, AtSecond) == Miswritten(ts, j, AfterTerm);
  }

  /** A strict reading meets only lower-case keywords. */
  lemma {:induction false} StrictIsClean(e: Marker, level: nat, ts: seq<Token>, i: nat, j: nat)
    requires i <= j <= |ts| && Spells(true, e, level, ts, i, j)
    ensures Miswritten(ts, i, AtOperand) == Miswritten(ts, j, AfterTerm)
    decreases e
  {
    match e
    case Compared(_, _, _) => ComparedIsClean(e, ts, i, j);
    case Group(b) =>
      assert SpellsUnit(true, e, ts, i, j);
      StrictIsClean(b, 0, ts, i + 1, j - 1);
    case _ =>
      var k: nat :| SplitsAt(true, e, ts, i, k, j);
      StrictIsClean(e.first, FirstLevel(e), ts, i, k);
      StrictIsClean(e.second, FirstLevel(e) + 1, ts, k + 1, j);
  }

  lemma CleanComparison(e: Marker, ts: seq<Token>, i: nat, j: nat)
    requires i <= j <= |ts| && KeywordsAreTexts(ts) && e.Compared? && SpellsUnit(false, e, ts, i, j)
    requires !Miswritten(ts, i, AtOperand)
    ensures SpellsUnit(true, e, ts, i, j) && !Miswritten(ts, j, AfterTerm)
  {
    assert ts[i].kind != Left;
    assert !Miswritten(ts, i + 1, AtOperator);
    NotIsNotIn(ts[i + 1]);
    if e.op == NotIn {
      assert ts[i + 1].kind == Word;
      assert !Miswritten(ts, i + 2, AfterNot);
      assert ts[i + 2].kind == Word;
    } else if e.op == In {
      assert ts[i + 1].kind == Word;
    }
    assert SpellsUnit(true, e, ts, i, j);
    ComparedIsClean(e, ts, i, j);
  }

  lemma CleanConnective(e: Marker, ts: seq<Token>, k: nat)
    requires k < |ts| && KeywordsAreTexts(ts) && (e.Both? || e.Either?)
    requires Connects(false, ts[k], if e.Both? then "and" else "or") && !Miswritten(ts, k, AfterTerm)
    ensures Connects(true, ts[k], if e.Both? then "and" else "or") && !Miswritten(ts, k + 1, AtOperand)
  {
  }

  /** Where every keyword is a lower-case word, the parser's reading is a strict one. */
  lemma {:induction false} CleanIsStrict(e: Marker, level: nat, ts: seq<Token>, i: nat, j: nat)
    requires i <= j <= |ts| && KeywordsAreTexts(ts) && Spells(false, e, level, ts, i, j)
    requires !Miswritten(ts, i, AtOperand)
    ensures Spells(true, e, level, ts, i, j) && !Miswritten(ts, j, AfterTerm)
    decreases e
  {
    match e
    case Compared(_, _, _) => CleanComparison(e, ts, i, j);
    case Group(b) =>
      assert SpellsUnit(false, e, ts, i, j);
      CleanIsStrict(b, 0, ts, i + 1, j - 1);
      assert SpellsUnit(true, e, ts, i, j);
    case _ =>
      var k: nat :| SplitsAt(false, e, ts, i, k, j);
      CleanIsStrict(e.first, FirstLevel(e), ts, i, k);
      CleanConnective(e, ts, k);
      CleanIsStrict(e.second, FirstLevel(e) + 1, ts, k + 1, j);
      assert SplitsAt(true, e, ts, i, k, j);
  }

  /** A strict reading is one that the parser accepts. */
  lemma {:induction false} StrictIsAccepted(e: Marker, level: nat, ts: seq<Token>, i: nat, j: nat)
    requires i <= j <= |ts| && Spells(true, e, level, ts, i, j)
    ensures Spells(false, e, level, ts, i, j)
    decreases e
  {
    match e
    case Compared(_, _, _) => assert SpellsUnit(false, e, ts, i, j);
    case Group(b) =>
      assert SpellsUnit(true, e, ts, i, j);
      StrictIsAccepted(b, 0, ts, i + 1, j - 1);
      assert SpellsUnit(false, e, ts, i, j);
    case _ =>
      var k: nat :| SplitsAt(true, e, ts, i, k, j);
      StrictIsAccepted(e.first, FirstLevel(e), ts, i, k);
      StrictIsAccepted(e.second, FirstLevel(e) + 1, ts, k + 1, j);
      assert SplitsAt(false, e, ts, i, k, j);
  }

  /** The grammar whose keywords are lower-case words gives a token list a value exactly when
      the evaluator does and nothing else stands in the place of a keyword. */
  lemma StrictExactly(parse: Parser, target: Target, ts: seq<Token>, value: bool)
    requires GoodParser(parse) && Lexed(ts)
    ensures Ended(ts)
    ensures (exists e :: Derives(true, e, target, ts) && Eval(parse, target, e) == value) <==>
            ValueOf(parse, target, ts) == Ok(value) && !Miswritten(ts, 0, AtOperand)
  {
    LexedKeywords(ts);
    EvaluatesExactly(parse, target, ts, value);
    if e :| Derives(true, e, target, ts) && Eval(parse, target, e) == value {
      StrictIsAccepted(e, 0, ts, 0, |ts| - 1);
      StrictIsClean(e, 0, ts, 0, |ts| - 1);
      assert Derives(false, e, target, ts);
    }
    if ValueOf(parse, target, ts) == Ok(value) && !Miswritten(ts, 0, AtOperand) {
      var e :| Derives(false, e, target, ts) && Eval(parse, target, e) == value;
      CleanIsStrict(e, 0, ts, 0, |ts| - 1);
      assert Derives(true, e, target, ts);
    }
  }

  // ---------------------------------------------------------------- other ways to write `or`

  /** A token that the parser takes for `or` although it is not the lower-case word. */
  predicate OtherOr(c: Token) {
    WellFormed(c) && Keyword(c, "or") && c != Token(Word, "or")
  }

  /** Quoted, and in capitals. */
  lemma OtherOrs()
    ensures OtherOr(Token(Quoted, "or")) && OtherOr(Token(Word, "OR"))
  {
    FoldsToItself("or");
    assert forall c <- "OR" :: c == 'O' || c == 'R';
    assert EqualFold("R", "r") && EqualFold("OR"[1..], "or"[1..]);
  }

  lemma OtherOrIsMiswritten(c: Token)
    requires OtherOr(c)
    ensures NotLowerCase(c) && c.kind != Eof
  {
    if c.kind != Word && c.kind != Quoted {
      MarkIsNoKeyword(c);
    }
    NotBoth(c);
  }

  /** Two comparisons with a token between them. */
  function Between(l: Marker, c: Token, r: Marker): seq<Token> {
    Tokens(l) + [c] + Tokens(r)
  }

  lemma BetweenSpells(l: Marker, c: Token, r: Marker)
    requires l.Compared? && r.Compared? && Keyword(c, "or")
    ensures var ts := Between(l, c, r); Spells(false, Either(l, r), 0, ts, 0, |ts|)
  {
    var ts := Between(l, c, r);
    ComparedTokens(l.left, l.op, l.right, 0);
    ComparedTokens(r.left, r.op, r.right, 1);
    JoinTokens(l, r, 0, Tokens(l), c, Tokens(r), ts);
    JoinSpells(Either(l, r), ts, |Tokens(l)|);
  }

  /** After a comparison the next token is in the place of a keyword. */
  lemma AfterComparison(l: Marker, rest: seq<Token>)
    requires l.Compared? && rest != [] && NotLowerCase(rest[0])
    ensures Miswritten(Tokens(l) + rest, 0, AtOperand)
  {
    var x := Tokens(l);
    ComparedTokens(l.left, l.op, l.right, 2);
    LeftPart(l, 2, x, rest);
    var all := x + rest;
    assert SpellsUnit(false, l, all, 0, |x|);
    AnyComparison(l, all, |x|);
  }

  lemma AnyComparison(l: Marker, ts: seq<Token>, j: nat)
    requires l.Compared? && j < |ts| && SpellsUnit(false, l, ts, 0, j) && NotLowerCase(ts[j])
    ensures Miswritten(ts, 0, AtOperand)
  {
    assert ts[0].kind != Left;
    assert Miswritten(ts, j, AfterTerm);
    assert Miswritten(ts, j - 1, AtSecond);
    NotIsNotIn(ts[1]);
    if l.op == NotIn {
      assert Miswritten(ts, 2, AfterNot);
    }
    assert Miswritten(ts, 1, AtOperator);
  }

  lemma NothingStrict(target: Target, l: Marker, rest: seq<Token>)
    requires l.Compared? && rest != [] && NotLowerCase(rest[0]) && rest[|rest| - 1] == EOF
    ensures forall e :: !Derives(true, e, target, Tokens(l) + rest)
  {
    var all := Tokens(l) + rest;
    AfterComparison(l, rest);
    assert all[|all| - 1] == EOF;
    forall e ensures !Derives(true, e, target, all) {
      if Derives(true, e, target, all) {
        StrictIsClean(e, 0, all, 0, |all| - 1);
      }
    }
  }

  lemma BetweenWellFormed(target: Target, l: Marker, c: Token, r: Marker)
    requires Printable(l) && Printable(r) && AllSupported(l, target) && AllSupported(r, target) && WellFormed(c)
    ensures forall t <- Between(l, c, r) :: WellFormed(t)
  {
    TokensWellFormed(target, l);
    TokensWellFormed(target, r);
  }

  /** Any two comparisons joined by an `or` in capitals or in quotes evaluate to their
      disjunction. */
  lemma OtherOrEvaluates(parse: Parser, target: Target, l: Marker, c: Token, r: Marker, gaps: seq<string>)
    requires GoodParser(parse) && l.Compared? && r.Compared? && Printable(l) && Printable(r) && OtherOr(c)
    requires AllSupported(l, target) && AllSupported(r, target) && GapsFit(Between(l, c, r), gaps)
    ensures Evaluate(parse, target, Spell(Between(l, c, r), gaps)) ==
            Ok(Eval(parse, target, l) || Eval(parse, target, r))
  {
    BetweenWellFormed(target, l, c, r);
    EitherDerives(target, l, c, r);
    TextEvaluates(parse, target, Either(l, r), Between(l, c, r), gaps);
    EitherValue(parse, target, l, r);
  }

  lemma EitherValue(parse: Parser, target: Target, l: Marker, r: Marker)
    requires GoodParser(parse) && AllSupported(l, target) && AllSupported(r, target)
    ensures Eval(parse, target, Either(l, r)) <==> Eval(parse, target, l) || Eval(parse, target, r)
  {
  }

  /** Yet no strict reading of those tokens exists. */
  lemma OtherOrIsNotStrict(target: Target, l: Marker, c: Token, r: Marker)
    requires l.Compared? && r.Compared? && OtherOr(c)
    ensures forall e :: !Derives(true, e, target, Between(l, c, r) + [EOF])
  {
    var rest := [c] + Tokens(r) + [EOF];
    OtherOrIsMiswritten(c);
    NothingStrict(target, l, rest);
    assert Between(l, c, r) + [EOF] == Tokens(l) + rest;
  }

  lemma EitherDerives(target: Target, l: Marker, c: Token, r: Marker)
    requires l.Compared? && r.Compared? && AllSupported(l, target) && AllSupported(r, target) && Keyword(c, "or")
    ensures Derives(false, Either(l, r), target, Between(l, c, r) + [EOF])
  {
    BetweenSpells(l, c, r);
    LeftPart(Either(l, r), 0, Between(l, c, r), [EOF]);
  }

  // ------------------------------------------------------------------- triple equality

  /** No comparison of the tree is a `===`. */
  predicate LacksSameText(e: Marker) {
    match e
    case Compared(_, op, _) => op != SameText
    case Both(l, r) => LacksSameText(l) && LacksSameText(r)
    case Either(l, r) => LacksSameText(l) && LacksSameText(r)
    case Group(b) => LacksSameText(b)
  }

  lemma SameTextIsLong(text: string)
    requires SymbolOperator(text) == Some(SameText)
    ensures |text| == 3
  {
    LookupFinds(Symbols(), text);
  }

  lemma {:induction false} LexedLacksSameText(e: Marker, level: nat, ts: seq<Token>, i: nat, j: nat)
    requires Lexed(ts) && i <= j < |ts| && Spells(false, e, level, ts, i, j)
    ensures LacksSameText(e)
    decreases e
  {
    match e
    case Compared(_, op, _) =>
      assert SpellsUnit(false, e, ts, i, j);
      assert WellFormed(ts[i + 1]);
      if op == SameText {
        SameTextIsLong(ts[i + 1].value);
      }
    case Group(b) =>
      assert SpellsUnit(false, e, ts, i, j);
      LexedLacksSameText(b, 0, ts, i + 1, j - 1);
    case _ =>
      var k: nat :| SplitsAt(false, e, ts, i, k, j);
      LexedLacksSameText(e.first, FirstLevel(e), ts, i, k);
      LexedLacksSameText(e.second, FirstLevel(e) + 1, ts, k + 1, j);
  }

  /** No text is ever read as a comparison by `===`. */
  lemma TripleEqualityIsNeverRead(target: Target, text: string, e: Marker)
    requires Tokenize(text).Ok? && |Tokenize(text).value| >= 1 && Derives(false, e, target, Tokenize(text).value)
    ensures LacksSameText(e)
  {
    TokensAreLexed(text);
    var ts := Tokenize(text).value;
    LexedLacksSameText(e, 0, ts, 0, |ts| - 1);
  }
}
