/** PEP 440 constraints: parsing, normalisation and matching. ParseVersion is a parameter. */
module PyConstraint {
  import opened Common
  import opened Orders
  import opened Text
  import opened PyVersion

  type Parser = string -> Option<Version>

  /** What the parsers rely on: a version has release numbers and starts with none of
      the characters that operators are made of. */
  ghost predicate GoodParser(parse: Parser) {
    forall s :: parse(s).Some? ==> s != "" && s[0] != '=' && |parse(s).value.release| >= 1
  }

  datatype Operator = Arbitrary | Compatible | Equal | NotEqual | AtMost | AtLeast | Below | Above

  function Symbol(op: Operator): string {
    match op
    case Arbitrary => "==="
    case Compatible => "~="
    case Equal => "=="
    case NotEqual => "!="
    case AtMost => "<="
    case AtLeast => ">="
    case Below => "<"
    case Above => ">"
  }

  /** `version` is meaningful for plain clauses, `prefix` for wildcard clauses. */
  datatype Clause = Clause(op: Operator, value: string, version: Version, prefixEpoch: int, prefix: seq<int>)

  const NO_VERSION := Version("", 0, [], false, 0, 0, false, 0, false, 0, [])

  datatype ConstraintError =
    | MissingVersion | TooFewSegments | ArbitraryCombined | WildcardOperator | InvalidWildcard | InvalidVersion
    | NoMatch

  // -------------------------------------------------------------------------- parsing

  /** The first operator in the order the code tries them, or an implicit `==`. */
  function SplitOperator(part: string): (Operator, string) {
    if HasPrefix(part, "===") then (Arbitrary, Trim(part[3..]))
    else if HasPrefix(part, "~=") then (Compatible, Trim(part[2..]))
    else if HasPrefix(part, "==") then (Equal, Trim(part[2..]))
    else if HasPrefix(part, "!=") then (NotEqual, Trim(part[2..]))
    else if HasPrefix(part, "<=") then (AtMost, Trim(part[2..]))
    else if HasPrefix(part, ">=") then (AtLeast, Trim(part[2..]))
    else if HasPrefix(part, "<") then (Below, Trim(part[1..]))
    else if HasPrefix(part, ">") then (Above, Trim(part[1..]))
    else (Equal, part)
  }

  /** The text before the first `+`, and of that the text before the first `-`, has a dot. */
  predicate TwoSegments(value: string) {
    '.' in Split(Split(value, '+')[0], '-')[0]
  }

  function Numbers(items: seq<string>): Option<seq<int>> {
    if items == [] then Some([])
    else
      match (Atoi(items[0]), Numbers(items[1..]))
      case (Some(n), Some(rest)) => Some([n] + rest)
      case _ => None
  }

  function ParseWildcard(op: Operator, value: string): Result<Clause, ConstraintError>
    requires HasSuffix(value, ".*")
  {
    if op != Equal && op != NotEqual then Err(WildcardOperator)
    else
      var text := value[..|value| - 2];
      var pieces := Split(text, '!');
      if |pieces| > 2 then Err(InvalidWildcard)
      else
        var epoch := if |pieces| == 2 then Atoi(pieces[0]) else Some(0);
        var numbers := Numbers(Split(if |pieces| == 2 then pieces[1] else text, '.'));
        if epoch.None? || numbers.None? then Err(InvalidWildcard)
        else Ok(Clause(op, value, NO_VERSION, epoch.value, numbers.value))
  }

  /** One comma-separated part; `alone` says whether there is no other. */
  function ParseClause(parse: Parser, part: string, alone: bool): Result<Clause, ConstraintError> {
    var (op, value) := SplitOperator(Trim(part));
    if value == "" then Err(MissingVersion)
    else if op == Compatible && !TwoSegments(value) then Err(TooFewSegments)
    else if op == Arbitrary then
      if alone then Ok(Clause(op, value, NO_VERSION, 0, [])) else Err(ArbitraryCombined)
    else if HasSuffix(value, ".*") then ParseWildcard(op, value)
    else
      match parse(value)
      case None => Err(InvalidVersion)
      case Some(v) => Ok(Clause(op, value, v, 0, []))
  }

  function ParseParts(parse: Parser, parts: seq<string>, alone: bool): Result<seq<Clause>, ConstraintError> {
    if parts == [] then Ok([])
    else
      match ParseClause(parse, parts[0], alone)
      case Err(e) => Err(e)
      case Ok(c) =>
        match ParseParts(parse, parts[1..], alone)
        case Err(e) => Err(e)
        case Ok(rest) => Ok([c] + rest)
  }

  function ParseConstraint(parse: Parser, raw: string): Result<seq<Clause>, ConstraintError> {
    var text := Trim(raw);
    if text == "" || text == "*" then Ok([])
    else ParseParts(parse, Split(text, ','), |Split(text, ',')| == 1)
  }

  /** A clause names a prerelease. */
  predicate PermitsPrerelease(clauses: seq<Clause>) {
    exists c <- clauses :: c.version.hasPre || c.version.hasDev
  }

  /** The clauses read so far, followed by what the rest of the text parses to. */
  function Prepend(
    clauses: seq<Clause>, rest: Result<seq<Clause>, ConstraintError>): Result<seq<Clause>, ConstraintError> {
    match rest
    case Err(e) => Err(e)
    case Ok(more) => Ok(clauses + more)
  }

  lemma PrependStep(parse: Parser, parts: seq<string>, i: nat, clauses: seq<Clause>, alone: bool)
    requires i < |parts|
    ensures var c := ParseClause(parse, parts[i], alone);
            Prepend(clauses, ParseParts(parse, parts[i..], alone)) ==
            if c.Err? then Err(c.error) else Prepend(clauses + [c.value], ParseParts(parse, parts[i + 1..], alone))
  {
    assert parts[i..][0] == parts[i] && parts[i..][1..] == parts[i + 1..];
    var rest := ParseParts(parse, parts[i + 1..], alone);
    var c := ParseClause(parse, parts[i], alone);
    if c.Ok? && rest.Ok? {
      assert clauses + ([c.value] + rest.value) == clauses + [c.value] + rest.value;
    }
  }

  lemma PermitsAppend(clauses: seq<Clause>, c: Clause)
    ensures PermitsPrerelease(clauses + [c]) <==> PermitsPrerelease(clauses) || c.version.hasPre || c.version.hasDev
  {
    assert c in clauses + [c];
    assert forall d <- clauses :: d in clauses + [c];
  }

  /** The loop of parseConstraint. */
  method Parse(parse: Parser, raw: string) returns (out: Result<(seq<Clause>, bool), ConstraintError>)
    ensures out == match ParseConstraint(parse, raw)
                   case Err(e) => Err(e)
                   case Ok(clauses) => Ok((clauses, PermitsPrerelease(clauses)))
  {
    var text := Trim(raw);
    if text == "" || text == "*" {
      return Ok(([], false));
    }
    var parts := Split(text, ',');
    var clauses: seq<Clause> := [];
    var permits := false;
    var i := 0;
    ghost var alone := |parts| == 1;
    ghost var all := ParseParts(parse, parts, alone);
    assert parts[0..] == parts;
    assert all.Ok? ==> [] + all.value == all.value;
    while i < |parts|
      invariant 0 <= i <= |parts|
      invariant permits <==> PermitsPrerelease(clauses)
      invariant all == Prepend(clauses, ParseParts(parse, parts[i..], alone))
    {
      PrependStep(parse, parts, i, clauses, alone);
      var clause := ParseClause(parse, parts[i], |parts| == 1);
      if clause.Err? {
        return Err(clause.error);
      }
      PermitsAppend(clauses, clause.value);
      clauses := clauses + [clause.value];
      permits := permits || clause.value.version.hasPre || clause.value.version.hasDev;
      i := i + 1;
    }
    assert clauses + [] == clauses;
    return Ok((clauses, permits));
  }

  // -------------------------------------------------------------------- normalisation

  function Render(c: Clause): string {
    Symbol(c.op) + c.value
  }

  function RenderAll(clauses: seq<Clause>): seq<string> {
    if clauses == [] then [] else [Render(clauses[0])] + RenderAll(clauses[1..])
  }

  function Normalize(parse: Parser, raw: string): Result<string, ConstraintError> {
    match ParseConstraint(parse, raw)
    case Err(e) => Err(e)
    case Ok(clauses) => Ok(Join(RenderAll(clauses), ','))
  }

  /** A clause as the parser produces it: rendering it and parsing the text gives it back. */
  ghost predicate Parsed(parse: Parser, c: Clause, alone: bool) {
    && c.value != "" && Trimmed(c.value) && ',' !in c.value
    && (c.op == Equal || c.op == Below || c.op == Above ==> c.value[0] != '=')
    && ParseClause(parse, Render(c), alone) == Ok(c)
  }

  lemma SplitRendered(op: Operator, value: string)
    requires value != "" && Trimmed(value) && (op == Equal || op == Below || op == Above ==> value[0] != '=')
    ensures Trimmed(Symbol(op) + value) && SplitOperator(Symbol(op) + value) == (op, value)
  {
    TrimKeepsTrimmed(value);
    var s := Symbol(op) + value;
    assert s[|Symbol(op)|..] == value;
    assert s[0] == Symbol(op)[0];
    if |Symbol(op)| == 1 {
      assert s[1] == value[0];
    } else {
      assert s[1] == Symbol(op)[1];
      if |Symbol(op)| == 2 {
        assert s[2] == value[0];
      }
    }
  }

  lemma SplitOperatorValue(part: string)
    requires Trimmed(part) && ',' !in part
    ensures Trimmed(SplitOperator(part).1) && ',' !in SplitOperator(part).1
  {
    forall n: nat | n <= |part| ensures Trimmed(Trim(part[n..])) && ',' !in Trim(part[n..]) {
      TrimIsTrimmed(part[n..]);
    }
  }

  lemma AtoiStart(s: string)
    requires s != "" && s[0] == '='
    ensures Atoi(s).None?
  {
    assert s[0] in s && !IsDigit(s[0]);
  }

  /** A wildcard that starts with an equals sign does not parse. */
  lemma WildcardStart(op: Operator, value: string)
    requires HasSuffix(value, ".*") && value[0] == '='
    ensures ParseWildcard(op, value).Err?
  {
    var text := value[..|value| - 2];
    assert value[|value| - 2] == value[|value| - 2..][0] == '.';
    assert text[0] == '=';
    SplitStart(text, '!');
    var pieces := Split(text, '!');
    if |pieces| == 2 {
      AtoiStart(pieces[0]);
    } else {
      SplitStart(text, '.');
      AtoiStart(Split(text, '.')[0]);
    }
  }

  lemma ClauseIsParsed(parse: Parser, part: string, alone: bool)
    requires GoodParser(parse) && ',' !in part && ParseClause(parse, part, alone).Ok?
    ensures Parsed(parse, ParseClause(parse, part, alone).value, alone)
  {
    TrimIsTrimmed(part);
    SplitOperatorValue(Trim(part));
    var (op, value) := SplitOperator(Trim(part));
    var c := ParseClause(parse, part, alone).value;
    if op != Arbitrary && HasSuffix(value, ".*") && value[0] == '=' {
      WildcardStart(op, value);
    }
    SplitRendered(op, value);
    TrimKeepsTrimmed(Render(c));
  }

  ghost predicate AllParsed(parse: Parser, clauses: seq<Clause>, alone: bool) {
    forall c <- clauses :: Parsed(parse, c, alone)
  }

  lemma {:induction false} PartsAreParsed(parse: Parser, parts: seq<string>, alone: bool)
    requires GoodParser(parse) && (forall p <- parts :: ',' !in p) && ParseParts(parse, parts, alone).Ok?
    ensures AllParsed(parse, ParseParts(parse, parts, alone).value, alone)
    ensures |ParseParts(parse, parts, alone).value| == |parts|
    decreases |parts|
  {
    if parts != [] {
      assert parts[0] in parts;
      ClauseIsParsed(parse, parts[0], alone);
      PartsAreParsed(parse, parts[1..], alone);
    }
  }

  lemma {:induction false} RenderedParts(parse: Parser, clauses: seq<Clause>, alone: bool)
    requires AllParsed(parse, clauses, alone)
    ensures ParseParts(parse, RenderAll(clauses), alone) == Ok(clauses) && |RenderAll(clauses)| == |clauses|
    ensures forall p <- RenderAll(clauses) :: ',' !in p && p != "" && Trimmed(p) && p != "*"
    decreases |clauses|
  {
    if clauses != [] {
      var c := clauses[0];
      assert c in clauses && Parsed(parse, c, alone);
      RenderedParts(parse, clauses[1..], alone);
      SplitRendered(c.op, c.value);
      RenderedText(c);
      assert clauses == [c] + clauses[1..];
      assert RenderAll(clauses)[1..] == RenderAll(clauses[1..]);
    }
  }

  lemma RenderedText(c: Clause)
    requires ',' !in c.value
    ensures ',' !in Render(c) && Render(c) != "" && Render(c)[0] != '*' && !IsSpace(Render(c)[0])
  {
    assert Render(c)[0] == Symbol(c.op)[0];
    assert ',' !in Symbol(c.op);
  }

  lemma {:induction false} JoinTrimmed(parts: seq<string>)
    requires parts != [] && forall p <- parts :: p != "" && Trimmed(p)
    ensures parts[0] != "" && Join(parts, ',') != ""
    ensures var s := Join(parts, ','); Trimmed(s) && s[0] == parts[0][0] && (|parts| > 1 ==> |s| > 1)
    decreases |parts|
  {
    assert parts[0] in parts;
    if |parts| > 1 {
      forall p <- parts[1..] ensures p != "" && Trimmed(p) {
        assert p in parts;
      }
      JoinTrimmed(parts[1..]);
      var s, rest := Join(parts, ','), Join(parts[1..], ',');
      assert s[|s| - 1] == rest[|rest| - 1];
    }
  }

  /** The text of parsed clauses parses to those clauses. */
  lemma RenderedParses(parse: Parser, clauses: seq<Clause>)
    requires clauses != [] && AllParsed(parse, clauses, |clauses| == 1)
    ensures ParseConstraint(parse, Join(RenderAll(clauses), ',')) == Ok(clauses)
  {
    var alone := |clauses| == 1;
    RenderedParts(parse, clauses, alone);
    var parts := RenderAll(clauses);
    JoinTrimmed(parts);
    var text := Join(parts, ',');
    TrimKeepsTrimmed(text);
    assert parts[0] in parts;
    SplitJoin(parts, ',');
    RenderedText(clauses[0]);
    assert clauses[0] in clauses;
  }

  lemma ParsedConstraint(parse: Parser, raw: string)
    requires GoodParser(parse) && ParseConstraint(parse, raw).Ok?
    ensures var clauses := ParseConstraint(parse, raw).value; AllParsed(parse, clauses, |clauses| == 1)
  {
    var text := Trim(raw);
    if text != "" && text != "*" {
      PiecesLackSeparator(text, ',');
      PartsAreParsed(parse, Split(text, ','), |Split(text, ',')| == 1);
    }
  }

  /** Normalising loses nothing: the result parses to the same clauses, with the same
      prerelease permission, and is unchanged by normalising again. */
  lemma NormalizeRoundTrip(parse: Parser, raw: string)
    requires GoodParser(parse) && Normalize(parse, raw).Ok?
    ensures var text := Normalize(parse, raw).value;
            && ParseConstraint(parse, text) == ParseConstraint(parse, raw)
            && Normalize(parse, text) == Ok(text)
  {
    var clauses := ParseConstraint(parse, raw).value;
    ParsedConstraint(parse, raw);
    if clauses != [] {
      RenderedParses(parse, clauses);
    }
  }

  // ------------------------------------------------------------------------- matching

  /** The given prefix of the release, without padding. */
  predicate PrefixMatches(v: Version, epoch: int, prefix: seq<int>) {
    v.epoch == epoch && |prefix| <= |v.release| && forall i :: 0 <= i < |prefix| ==> v.release[i] == prefix[i]
  }

  function Max1(n: int): int {
    if n < 1 then 1 else n
  }

  /** The candidate shares all but the last release number of the minimum. */
  predicate CompatiblePrefix(candidate: Version, minimum: Version)
    requires |minimum.release| >= 1
  {
    var n := Max1(|minimum.release| - 1);
    candidate.epoch == minimum.epoch && n <= |candidate.release| &&
    forall i :: 0 <= i < n ==> candidate.release[i] == minimum.release[i]
  }

  /** A local version label counts only if the constraint has one. */
  function SpecifierOrder(candidate: Version, specified: Version): int {
    Order(if specified.local == [] then candidate.(local := []) else candidate, specified)
  }

  predicate SameRelease(a: Version, b: Version) {
    a.epoch == b.epoch && Strip(a.release) == Strip(b.release)
  }

  predicate Usable(c: Clause) {
    c.op == Compatible && c.prefix == [] ==> |c.version.release| >= 1
  }

  predicate Satisfies(v: Version, raw: string, c: Clause)
    requires Usable(c)
  {
    if c.op == Arbitrary then raw == c.value
    else if c.prefix != [] then (c.op == Equal) == PrefixMatches(v, c.prefixEpoch, c.prefix)
    else
      var order := SpecifierOrder(v, c.version);
      match c.op
      case Equal => order == 0
      case NotEqual => order != 0
      case Below => order < 0 && !(!c.version.hasPre && SameRelease(v, c.version) && (v.hasPre || v.hasDev))
      case AtMost => order <= 0
      case Above => order > 0 && !(!c.version.hasPost && SameRelease(v, c.version) && v.hasPost)
      case AtLeast => order >= 0
      case Compatible => order >= 0 && CompatiblePrefix(v, c.version)
      case Arbitrary => true
  }

  predicate SatisfiesAll(v: Version, raw: string, clauses: seq<Clause>)
    requires forall c <- clauses :: Usable(c)
  {
    forall c <- clauses :: Satisfies(v, raw, c)
  }

  lemma {:induction false} PartsUsable(parse: Parser, parts: seq<string>, alone: bool)
    requires GoodParser(parse) && ParseParts(parse, parts, alone).Ok?
    ensures forall c <- ParseParts(parse, parts, alone).value :: Usable(c)
    decreases |parts|
  {
    if parts != [] {
      PartsUsable(parse, parts[1..], alone);
      var clauses := ParseParts(parse, parts, alone).value;
      assert clauses[0] == ParseClause(parse, parts[0], alone).value && Usable(clauses[0]);
      assert clauses[1..] == ParseParts(parse, parts[1..], alone).value;
      forall c <- clauses ensures Usable(c) {
        assert c == clauses[0] || c in clauses[1..];
      }
    }
  }

  lemma ConstraintUsable(parse: Parser, raw: string)
    requires GoodParser(parse) && ParseConstraint(parse, raw).Ok?
    ensures forall c <- ParseConstraint(parse, raw).value :: Usable(c)
  {
    var text := Trim(raw);
    if text != "" && text != "*" {
      PartsUsable(parse, Split(text, ','), |Split(text, ',')| == 1);
    }
  }

  method MatchesPrefix(v: Version, c: Clause) returns (matches: bool)
    ensures matches <==> PrefixMatches(v, c.prefixEpoch, c.prefix)
  {
    matches := v.epoch == c.prefixEpoch && |v.release| >= |c.prefix|;
    var i := 0;
    while i < |c.prefix|
      invariant 0 <= i <= |c.prefix|
      invariant matches <==> v.epoch == c.prefixEpoch && |v.release| >= |c.prefix| &&
                             forall k :: 0 <= k < i ==> v.release[k] == c.prefix[k]
    {
      matches := matches && v.release[i] == c.prefix[i];
      i := i + 1;
    }
  }

  method CheckCompatible(candidate: Version, minimum: Version) returns (ok: bool)
    requires |minimum.release| >= 1
    ensures ok <==> CompatiblePrefix(candidate, minimum)
  {
    if candidate.epoch != minimum.epoch {
      return false;
    }
    var n := |minimum.release| - 1;
    if n < 1 {
      n := 1;
    }
    if |candidate.release| < n {
      return false;
    }
    var i := 0;
    while i < n
      invariant 0 <= i <= n
      invariant forall k :: 0 <= k < i ==> candidate.release[k] == minimum.release[k]
    {
      if candidate.release[i] != minimum.release[i] {
        return false;
      }
      i := i + 1;
    }
    return true;
  }

  method CheckSameRelease(a: Version, b: Version) returns (same: bool)
    ensures same <==> SameRelease(a, b)
  {
    if a.epoch != b.epoch {
      return false;
    }
    var c := CompareRelease(a.release, b.release);
    LexZero(Strip(a.release), Strip(b.release));
    return c == 0;
  }

  method CheckClause(v: Version, raw: string, c: Clause) returns (ok: bool)
    requires Usable(c)
    ensures ok <==> Satisfies(v, raw, c)
  {
    if c.op == Arbitrary {
      return raw == c.value;
    }
    if |c.prefix| > 0 {
      var matches := MatchesPrefix(v, c);
      return (c.op == Equal) == matches;
    }
    var order := Compare(if |c.version.local| == 0 then v.(local := []) else v, c.version);
    var same := CheckSameRelease(v, c.version);
    match c.op {
      case Equal => return order == 0;
      case NotEqual => return order != 0;
      case Below => return !(order >= 0 || (!c.version.hasPre && same && (v.hasPre || v.hasDev)));
      case AtMost => return order <= 0;
      case Above => return !(order <= 0 || (!c.version.hasPost && same && v.hasPost));
      case AtLeast => return order >= 0;
      case _ =>
        var compatible := CheckCompatible(v, c.version);
        return order >= 0 && compatible;
    }
  }

  method MatchesClauses(v: Version, raw: string, clauses: seq<Clause>) returns (ok: bool)
    requires forall c <- clauses :: Usable(c)
    ensures ok <==> SatisfiesAll(v, raw, clauses)
  {
    var i := 0;
    while i < |clauses|
      invariant 0 <= i <= |clauses|
      invariant forall k :: 0 <= k < i ==> clauses[k] in clauses && Satisfies(v, raw, clauses[k])
    {
      assert clauses[i] in clauses;
      var good := CheckClause(v, raw, clauses[i]);
      if !good {
        return false;
      }
      i := i + 1;
    }
    return true;
  }
}
