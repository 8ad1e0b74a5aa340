/** What a comparison in a marker means: the variables by name, the operators by their text,
    versions by the rules of PEP 440 and texts as in a dictionary. */
module PyMarkerMeaning {
  import opened Common
  import opened Orders
  import opened Text
  import opened PyVersion
  import opened PyOrder
  import opened PyConstraint
  import opened PyMarkerText
  import opened PyMarker
  import opened PyMarkerGrammar

  // ------------------------------------------------------------------------ variables

  /** Each variable gives the field of the target that it is named after; two of them a
      fixed text; no other name is a variable. */
  lemma VariablesByName(name: string, target: Target)
    ensures VariableValue("python_version", target) == Some(target.pythonVersion)
    ensures VariableValue("python_full_version", target) == Some(target.pythonFullVersion)
    ensures VariableValue("implementation_version", target) == Some(target.pythonFullVersion)
    ensures VariableValue("sys_platform", target) == Some(target.sysPlatform)
    ensures VariableValue("os_name", target) == Some(target.osName)
    ensures VariableValue("platform_system", target) == Some(target.platformSystem)
    ensures VariableValue("implementation_name", target) == Some(target.implementation)
    ensures VariableValue("platform_python_implementation", target) == Some("CPython")
    ensures VariableValue("extra", target) == Some("")
    ensures VariableValue(name, target).Some? <==>
            name in {"python_version", "python_full_version", "implementation_version", "sys_platform", "os_name",
                     "platform_system", "implementation_name", "platform_python_implementation", "extra"}
  {
    var table := Variables(target);
    Found(table, 0);
    Found(table, 1);
    Found(table, 2);
    Found(table, 3);
    Found(table, 4);
    Found(table, 5);
    Found(table, 6);
    Found(table, 7);
    Found(table, 8);
    FoundOnly(table, name);
  }

  predicate Different<V>(table: seq<(string, V)>) {
    forall i, j :: 0 <= i < j < |table| ==> table[i].0 != table[j].0
  }

  lemma {:induction false} Found<V>(table: seq<(string, V)>, i: nat)
    requires i < |table| && Different(table)
    ensures Lookup(table, table[i].0) == Some(table[i].1)
    decreases i
  {
    if i > 0 {
      Found(table[1..], i - 1);
    }
  }

  lemma {:induction false} FoundOnly<V>(table: seq<(string, V)>, name: string)
    ensures Lookup(table, name).Some? <==> exists i :: 0 <= i < |table| && table[i].0 == name
    decreases |table|
  {
    if table != [] && table[0].0 != name {
      FoundOnly(table[1..], name);
      if i :| 0 <= i < |table| && table[i].0 == name {
        assert table[1..][i - 1].0 == name;
      }
    }
  }

  // ------------------------------------------------------------------------ operators

  const OPERATORS := {"==", "!=", "<", "<=", ">", ">=", "~=", "in", "not in"}

  ghost predicate BothVersions(parse: Parser, a: string, b: string) {
    parse(a).Some? && parse(b).Some?
  }

  /** As versions if a version variable is involved and both sides are versions, as texts
      otherwise. */
  ghost predicate ComesBefore(parse: Parser, a: string, b: string, versions: bool) {
    if versions && BothVersions(parse, a, b) then Earlier(parse(a).value, parse(b).value) else TextPrecedes(a, b)
  }

  ghost predicate Equals(parse: Parser, a: string, b: string, versions: bool) {
    if versions && BothVersions(parse, a, b) then Equivalent(parse(a).value, parse(b).value) else a == b
  }

  predicate OccursAt(a: string, b: string, i: nat) {
    i + |a| <= |b| && b[i..i + |a|] == a
  }

  ghost predicate OccursIn(a: string, b: string) {
    exists i: nat :: OccursAt(a, b, i)
  }

  /** At least the version `b`, and the same in all but the last release number of it. */
  ghost predicate CompatibleTo(parse: Parser, a: string, b: string) {
    BothVersions(parse, a, b) &&
    var v, w := parse(a).value, parse(b).value;
    var shared := if |w.release| <= 1 then 1 else |w.release| - 1;
    && !Earlier(v, w) && v.epoch == w.epoch
    && shared <= |v.release| && shared <= |w.release| && v.release[..shared] == w.release[..shared]
  }

  ghost predicate Means(parse: Parser, a: string, op: string, b: string, versions: bool)
    requires op in OPERATORS
  {
    if op == "==" then Equals(parse, a, b, versions)
    else if op == "!=" then !Equals(parse, a, b, versions)
    else if op == "<" then ComesBefore(parse, a, b, versions)
    else if op == "<=" then !ComesBefore(parse, b, a, versions)
    else if op == ">" then ComesBefore(parse, b, a, versions)
    else if op == ">=" then !ComesBefore(parse, a, b, versions)
    else if op == "in" then OccursIn(a, b)
    else if op == "not in" then !OccursIn(a, b)
    else CompatibleTo(parse, a, b)
  }

  function OperatorOf(op: string): Comparison
    requires op in OPERATORS
  {
    if op == "==" then EqualTo
    else if op == "!=" then NotEqualTo
    else if op == "<" then LessThan
    else if op == "<=" then NoMoreThan
    else if op == ">" then MoreThan
    else if op == ">=" then NoLessThan
    else if op == "in" then In
    else if op == "not in" then NotIn
    else CompatibleWith
  }

  lemma {:induction false} ContainsMeans(s: string, sub: string)
    ensures Contains(s, sub) <==> OccursIn(sub, s)
    decreases |s|
  {
    if sub <= s {
      assert OccursAt(sub, s, 0);
    } else if s != "" {
      ContainsMeans(s[1..], sub);
      if i: nat :| OccursAt(sub, s[1..], i) {
        assert s[i + 1..i + 1 + |sub|] == s[1..][i..i + |sub|];
        assert OccursAt(sub, s, i + 1);
      }
      if i: nat :| OccursAt(sub, s, i) {
        assert i > 0;
        assert s[1..][i - 1..i - 1 + |sub|] == s[i..i + |sub|];
        assert OccursAt(sub, s[1..], i - 1);
      }
    } else {
      assert forall i: nat :: !OccursAt(sub, s, i);
    }
  }

  lemma OrderMeansBefore(parse: Parser, a: string, b: string, versions: bool)
    ensures ValueOrder(parse, a, b, versions) < 0 <==> ComesBefore(parse, a, b, versions)
    ensures ValueOrder(parse, a, b, versions) == 0 <==> Equals(parse, a, b, versions)
    ensures ValueOrder(parse, a, b, versions) > 0 <==> ComesBefore(parse, b, a, versions)
  {
    StringCompareMeans(a, b);
    StringOrder(a, b);
    if BothVersions(parse, a, b) {
      OrderIsPep440(parse(a).value, parse(b).value);
    }
  }

  lemma CompatibleMeans(parse: Parser, a: string, b: string, versions: bool)
    requires GoodParser(parse)
    ensures Holds(parse, a, b, CompatibleWith, versions) <==> CompatibleTo(parse, a, b)
  {
    if BothVersions(parse, a, b) {
      OrderIsPep440(parse(a).value, parse(b).value);
      SharedPrefix(parse(a).value, parse(b).value);
    }
  }

  lemma SharedPrefix(v: Version, w: Version)
    requires |w.release| >= 1
    ensures var shared := if |w.release| <= 1 then 1 else |w.release| - 1;
            CompatiblePrefix(v, w) <==>
            v.epoch == w.epoch && shared <= |v.release| && v.release[..shared] == w.release[..shared]
  {
    var shared := if |w.release| <= 1 then 1 else |w.release| - 1;
    if shared <= |v.release| {
      assert forall i :: 0 <= i < shared ==> v.release[..shared][i] == v.release[i];
      assert forall i :: 0 <= i < shared ==> w.release[..shared][i] == w.release[i];
    }
  }

  lemma HoldsMeans(parse: Parser, a: string, op: string, b: string, versions: bool)
    requires GoodParser(parse) && op in OPERATORS
    ensures Holds(parse, a, b, OperatorOf(op), versions) <==> Means(parse, a, op, b, versions)
  {
    OrderMeansBefore(parse, a, b, versions);
    ContainsMeans(b, a);
    CompatibleMeans(parse, a, b, versions);
  }

  // ---------------------------------------------------------------------- whole texts

  /** A comparison as it is written. */
  datatype Atom = Atom(left: Operand, op: string, right: Operand)

  /** The operands are variables, or texts that lack one of the quotes. */
  predicate Writable(x: Atom, target: Target) {
    && x.op in OPERATORS && Supported(x.left, target) && Supported(x.right, target)
    && Quotable(x.left) && Quotable(x.right)
  }

  predicate OfVersions(o: Operand) {
    o == Variable("python_version") || o == Variable("python_full_version") || o == Variable("implementation_version")
  }

  ghost predicate AtomHolds(parse: Parser, target: Target, x: Atom)
    requires Writable(x, target)
  {
    Means(parse, OperandValue(x.left, target).0, x.op, OperandValue(x.right, target).0,
          OfVersions(x.left) || OfVersions(x.right))
  }

  function AtomTokens(x: Atom): seq<Token> {
    [OperandToken(x.left)] +
    (if x.op == "in" then [Token(Word, "in")]
     else if x.op == "not in" then [Token(Word, "not"), Token(Word, "in")]
     else [Token(Symbol, x.op)]) +
    [OperandToken(x.right)]
  }

  /** Whatever the blanks, the text of the tokens evaluates to the value. */
  ghost predicate Reads(parse: Parser, target: Target, ts: seq<Token>, value: bool)
    requires GoodParser(parse)
  {
    forall gaps :: GapsFit(ts, gaps) ==> Evaluate(parse, target, Spell(ts, gaps)) == Ok(value)
  }

  function TreeOf(x: Atom): Marker
    requires x.op in OPERATORS
  {
    Compared(x.left, OperatorOf(x.op), x.right)
  }

  lemma AtomIsPrinted(target: Target, x: Atom)
    requires Writable(x, target)
    ensures Tokens(TreeOf(x)) == AtomTokens(x) && Printable(TreeOf(x)) && AllSupported(TreeOf(x), target)
  {
  }

  lemma AtomValue(parse: Parser, target: Target, x: Atom)
    requires GoodParser(parse) && Writable(x, target)
    ensures AllSupported(TreeOf(x), target)
    ensures Eval(parse, target, TreeOf(x)) <==> AtomHolds(parse, target, x)
  {
    HoldsMeans(parse, OperandValue(x.left, target).0, x.op, OperandValue(x.right, target).0,
               OfVersions(x.left) || OfVersions(x.right));
  }

  lemma AtomTree(parse: Parser, target: Target, x: Atom)
    requires GoodParser(parse) && Writable(x, target)
    ensures Tokens(TreeOf(x)) == AtomTokens(x) && Printable(TreeOf(x)) && AllSupported(TreeOf(x), target)
    ensures Eval(parse, target, TreeOf(x)) <==> AtomHolds(parse, target, x)
  {
    AtomIsPrinted(target, x);
    AtomValue(parse, target, x);
  }

  lemma TreeReads(parse: Parser, target: Target, e: Marker, ts: seq<Token>, value: bool)
    requires GoodParser(parse) && AllSupported(e, target) && Printable(e)
    requires ts == Tokens(Dress(e, 0)) && Eval(parse, target, e) == value
    ensures Reads(parse, target, ts, value)
  {
    forall gaps | GapsFit(ts, gaps) ensures Evaluate(parse, target, Spell(ts, gaps)) == Ok(value) {
      PrintThenEvaluate(parse, target, e, gaps);
    }
  }

  /** A comparison evaluates to what its operator means of the values of its operands. */
  lemma ComparisonMeans(parse: Parser, target: Target, x: Atom)
    requires GoodParser(parse) && Writable(x, target)
    ensures Reads(parse, target, AtomTokens(x), AtomHolds(parse, target, x))
  {
    AtomTree(parse, target, x);
    TreeReads(parse, target, TreeOf(x), AtomTokens(x), AtomHolds(parse, target, x));
  }

  const AND := [Token(Word, "and")]
  const OR := [Token(Word, "or")]
  const OPEN := [Token(Left, "(")]
  const CLOSE := [Token(Right, ")")]

  lemma PairTokens(e: Marker, f: Marker)
    requires e.Compared? && f.Compared?
    ensures Tokens(Dress(Both(e, f), 0)) == Tokens(e) + AND + Tokens(f)
    ensures Tokens(Dress(Either(e, f), 0)) == Tokens(e) + OR + Tokens(f)
  {
  }

  lemma TripleTokens(e: Marker, f: Marker, g: Marker)
    requires e.Compared? && f.Compared? && g.Compared?
    ensures Tokens(Dress(Either(e, Both(f, g)), 0)) == Tokens(e) + OR + (Tokens(f) + AND + Tokens(g))
    ensures Tokens(Dress(Either(Both(e, f), g), 0)) == Tokens(e) + AND + Tokens(f) + OR + Tokens(g)
  {
    BareTokens(f, g, 1);
    BareTokens(e, f, 0);
    JoinedTokens(e, Both(f, g));
    JoinedTokens(Both(e, f), g);
  }

  lemma GroupTokens(e: Marker, f: Marker, g: Marker)
    requires e.Compared? && f.Compared? && g.Compared?
    ensures Tokens(Dress(Both(Either(e, f), g), 0)) == OPEN + (Tokens(e) + OR + Tokens(f)) + CLOSE + AND + Tokens(g)
  {
    var group := Dress(Either(e, f), 1);
    Undressed(e, 0);
    Undressed(f, 1);
    Undressed(g, 2);
    assert group == Group(Either(e, f));
    assert Tokens(group) == OPEN + (Tokens(e) + OR + Tokens(f)) + CLOSE;
    assert Dress(Both(Either(e, f), g), 0) == Both(group, g);
  }

  lemma Undressed(e: Marker, level: nat)
    requires e.Compared?
    ensures Dress(e, level) == e
  {
  }

  lemma BareTokens(e: Marker, f: Marker, level: nat)
    requires e.Compared? && f.Compared? && level <= 1
    ensures Dress(Both(e, f), level) == Both(e, f) && Tokens(Both(e, f)) == Tokens(e) + AND + Tokens(f)
  {
  }

  lemma JoinedTokens(e: Marker, f: Marker)
    requires Dress(e, 0) == e && Dress(f, 1) == f
    ensures Tokens(Dress(Either(e, f), 0)) == Tokens(e) + OR + Tokens(f)
  {
    assert Dress(Either(e, f), 0) == Either(e, f);
  }

  ghost predicate Usual(target: Target, e: Marker) {
    AllSupported(e, target) && Printable(e)
  }

  lemma ConnectedValues(parse: Parser, target: Target, e: Marker, f: Marker)
    requires GoodParser(parse) && Usual(target, e) && Usual(target, f)
    ensures Usual(target, Both(e, f)) && Usual(target, Either(e, f))
    ensures Eval(parse, target, Both(e, f)) <==> Eval(parse, target, e) && Eval(parse, target, f)
    ensures Eval(parse, target, Either(e, f)) <==> Eval(parse, target, e) || Eval(parse, target, f)
  {
  }

  /** `and` is conjunction and `or` is disjunction. */
  lemma ConnectivesMean(parse: Parser, target: Target, x: Atom, y: Atom)
    requires GoodParser(parse) && Writable(x, target) && Writable(y, target)
    ensures Reads(parse, target, AtomTokens(x) + AND + AtomTokens(y),
                  AtomHolds(parse, target, x) && AtomHolds(parse, target, y))
    ensures Reads(parse, target, AtomTokens(x) + OR + AtomTokens(y),
                  AtomHolds(parse, target, x) || AtomHolds(parse, target, y))
  {
    var (e, f) := (TreeOf(x), TreeOf(y));
    AtomTree(parse, target, x);
    AtomTree(parse, target, y);
    PairTokens(e, f);
    ConnectedValues(parse, target, e, f);
    TreeReads(parse, target, Both(e, f), AtomTokens(x) + AND + AtomTokens(y),
              AtomHolds(parse, target, x) && AtomHolds(parse, target, y));
    TreeReads(parse, target, Either(e, f), AtomTokens(x) + OR + AtomTokens(y),
              AtomHolds(parse, target, x) || AtomHolds(parse, target, y));
  }

  /** Without parentheses `and` binds tighter than `or`; parentheses group. */
  lemma GroupingMeans(parse: Parser, target: Target, x: Atom, y: Atom, z: Atom)
    requires GoodParser(parse) && Writable(x, target) && Writable(y, target) && Writable(z, target)
    ensures Reads(parse, target, AtomTokens(x) + OR + (AtomTokens(y) + AND + AtomTokens(z)),
                  AtomHolds(parse, target, x) || (AtomHolds(parse, target, y) && AtomHolds(parse, target, z)))
    ensures Reads(parse, target, AtomTokens(x) + AND + AtomTokens(y) + OR + AtomTokens(z),
                  (AtomHolds(parse, target, x) && AtomHolds(parse, target, y)) || AtomHolds(parse, target, z))
    ensures Reads(parse, target, OPEN + (AtomTokens(x) + OR + AtomTokens(y)) + CLOSE + AND + AtomTokens(z),
                  (AtomHolds(parse, target, x) || AtomHolds(parse, target, y)) && AtomHolds(parse, target, z))
  {
    var (e, f, g) := (TreeOf(x), TreeOf(y), TreeOf(z));
    AtomTree(parse, target, x);
    AtomTree(parse, target, y);
    AtomTree(parse, target, z);
    ThreeRead(parse, target, e, f, g);
  }

  lemma ThreeRead(parse: Parser, target: Target, e: Marker, f: Marker, g: Marker)
    requires GoodParser(parse) && Usual(target, e) && Usual(target, f) && Usual(target, g)
    requires e.Compared? && f.Compared? && g.Compared?
    ensures Reads(parse, target, Tokens(e) + OR + (Tokens(f) + AND + Tokens(g)),
                  Eval(parse, target, e) || (Eval(parse, target, f) && Eval(parse, target, g)))
    ensures Reads(parse, target, Tokens(e) + AND + Tokens(f) + OR + Tokens(g),
                  (Eval(parse, target, e) && Eval(parse, target, f)) || Eval(parse, target, g))
    ensures Reads(parse, target, OPEN + (Tokens(e) + OR + Tokens(f)) + CLOSE + AND + Tokens(g),
                  (Eval(parse, target, e) || Eval(parse, target, f)) && Eval(parse, target, g))
  {
    TripleTokens(e, f, g);
    GroupTokens(e, f, g);
    ConnectedValues(parse, target, e, f);
    ConnectedValues(parse, target, f, g);
    Connected(parse, target, e, Both(f, g));
    Connected(parse, target, Both(e, f), g);
    Connected(parse, target, Either(e, f), g);
  }

  lemma Connected(parse: Parser, target: Target, e: Marker, f: Marker)
    requires GoodParser(parse) && Usual(target, e) && Usual(target, f)
    ensures Reads(parse, target, Tokens(Dress(Both(e, f), 0)), Eval(parse, target, e) && Eval(parse, target, f))
    ensures Reads(parse, target, Tokens(Dress(Either(e, f), 0)), Eval(parse, target, e) || Eval(parse, target, f))
  {
    ConnectedValues(parse, target, e, f);
    TreeReads(parse, target, Both(e, f), Tokens(Dress(Both(e, f), 0)),
              Eval(parse, target, e) && Eval(parse, target, f));
    TreeReads(parse, target, Either(e, f), Tokens(Dress(Either(e, f), 0)),
              Eval(parse, target, e) || Eval(parse, target, f));
  }
}
