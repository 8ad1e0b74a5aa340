/** The tokens of PEP 508 environment markers. A marker is a string of bytes. */
module PyMarkerText {
  import opened Common
  import opened Text

  datatype Kind = Eof | Word | Quoted | Symbol | Left | Right

  datatype Token = Token(kind: Kind, value: string)

  datatype MarkerError =
    | Unterminated | MissingParenthesis | ExpectedOperand | UnknownVariable | UnknownOperator | ExpectedOperator
    | Trailing

  const EOF := Token(Eof, "")

  predicate IsSymbol(c: char) {
    c == '<' || c == '>' || c == '=' || c == '!' || c == '~'
  }

  predicate IsQuote(c: char) {
    c == '\'' || c == '"'
  }

  /** The bytes that end a word. */
  predicate EndsWord(c: char) {
    IsSpace(c) || c == '(' || c == ')' || IsSymbol(c) || IsQuote(c)
  }

  /** How many bytes precede the first quote of the given kind. */
  function UntilQuote(s: string, quote: char): (n: nat)
    ensures n <= |s|
  {
    if s == "" || s[0] == quote then 0 else 1 + UntilQuote(s[1..], quote)
  }

  function WordLength(s: string): (n: nat)
    ensures n <= |s|
  {
    if s == "" || EndsWord(s[0]) then 0 else 1 + WordLength(s[1..])
  }

  function Cons(t: Token, rest: Result<seq<Token>, MarkerError>): Result<seq<Token>, MarkerError> {
    match rest
    case Err(e) => Err(e)
    case Ok(ts) => Ok([t] + ts)
  }

  /** The first token of a text that does not start with a space, and its length. */
  function First(s: string): (out: Result<(Token, nat), MarkerError>)
    requires s != "" && !IsSpace(s[0])
    ensures out.Ok? ==> 0 < out.value.1 <= |s|
  {
    if s[0] == '(' then Ok((Token(Left, "("), 1))
    else if s[0] == ')' then Ok((Token(Right, ")"), 1))
    else if IsQuote(s[0]) then
      var n := UntilQuote(s[1..], s[0]);
      if n == |s| - 1 then Err(Unterminated) else Ok((Token(Quoted, s[1..1 + n]), n + 2))
    else
      var n := if !IsSymbol(s[0]) then WordLength(s) else if |s| > 1 && s[1] == '=' then 2 else 1;
      Ok((Token(if IsSymbol(s[0]) then Symbol else Word, s[..n]), n))
  }

  function Tokenize(s: string): Result<seq<Token>, MarkerError>
    decreases |s|
  {
    if s == "" then Ok([EOF])
    else if IsSpace(s[0]) then Tokenize(s[1..])
    else
      match First(s)
      case Err(e) => Err(e)
      case Ok((t, n)) => Cons(t, Tokenize(s[n..]))
  }

  // ---------------------------------------------------------------------- the scanner

  function PrependTokens(ts: seq<Token>, rest: Result<seq<Token>, MarkerError>): Result<seq<Token>, MarkerError> {
    match rest
    case Err(e) => Err(e)
    case Ok(more) => Ok(ts + more)
  }

  lemma PrependCons(ts: seq<Token>, t: Token, rest: Result<seq<Token>, MarkerError>)
    ensures PrependTokens(ts, Cons(t, rest)) == PrependTokens(ts + [t], rest)
  {
    if rest.Ok? {
      assert ts + ([t] + rest.value) == ts + [t] + rest.value;
    }
  }

  lemma {:induction false} UntilQuoteStep(s: string, n: nat, quote: char)
    requires n <= |s| && quote !in s[..n]
    ensures UntilQuote(s, quote) == n + UntilQuote(s[n..], quote)
    decreases n
  {
    if n == 0 {
      assert s[0..] == s;
    } else {
      assert s[0] == s[..n][0] && s[0] != quote;
      assert s[1..][..n - 1] == s[..n][1..] && s[1..][n - 1..] == s[n..];
      UntilQuoteStep(s[1..], n - 1, quote);
    }
  }

  lemma {:induction false} WordLengthStep(s: string, n: nat)
    requires n <= |s| && forall c <- s[..n] :: !EndsWord(c)
    ensures WordLength(s) == n + WordLength(s[n..])
    decreases n
  {
    if n == 0 {
      assert s[0..] == s;
    } else {
      assert s[0] == s[..n][0] && s[0] in s[..n];
      assert s[1..][..n - 1] == s[..n][1..] && s[1..][n - 1..] == s[n..];
      WordLengthStep(s[1..], n - 1);
    }
  }

  method ScanQuoted(input: string, start: nat, quote: char) returns (index: nat)
    requires start <= |input|
    ensures index == start + UntilQuote(input[start..], quote)
  {
    index := start;
    while index < |input| && input[index] != quote
      invariant start <= index <= |input|
      invariant start + UntilQuote(input[start..], quote) == index + UntilQuote(input[index..], quote)
    {
      assert input[index..][1..] == input[index + 1..];
      index := index + 1;
    }
  }

  method ScanWord(input: string, start: nat) returns (index: nat)
    requires start <= |input|
    ensures index == start + WordLength(input[start..])
  {
    index := start;
    while index < |input| && !EndsWord(input[index])
      invariant start <= index <= |input|
      invariant start + WordLength(input[start..]) == index + WordLength(input[index..])
    {
      assert input[index..][1..] == input[index + 1..];
      index := index + 1;
    }
  }

  /** One token, from a position where no space is. */
  method ScanToken(input: string, start: nat) returns (out: Result<(Token, nat), MarkerError>)
    requires start < |input| && !IsSpace(input[start])
    ensures out == First(input[start..])
  {
    ghost var rest := input[start..];
    var c := input[start];
    if c == '(' {
      return Ok((Token(Left, "("), 1));
    }
    if c == ')' {
      return Ok((Token(Right, ")"), 1));
    }
    if IsQuote(c) {
      var index := ScanQuoted(input, start + 1, c);
      assert rest[1..] == input[start + 1..];
      if index >= |input| {
        return Err(Unterminated);
      }
      assert rest[1..index - start] == input[start + 1..index];
      return Ok((Token(Quoted, input[start + 1..index]), index + 1 - start));
    }
    var index := start + 1;
    if IsSymbol(c) {
      if index < |input| && input[index] == '=' {
        index := index + 1;
      }
      assert rest[..index - start] == input[start..index];
      return Ok((Token(Symbol, input[start..index]), index - start));
    }
    index := ScanWord(input, start);
    assert rest[..index - start] == input[start..index];
    return Ok((Token(Word, input[start..index]), index - start));
  }

  method NextToken(input: string, index: nat) returns (out: Result<(Token, nat), MarkerError>)
    requires index < |input| && !IsSpace(input[index])
    ensures out.Err? ==> Tokenize(input[index..]) == Err(out.error)
    ensures out.Ok? ==> index < out.value.1 <= |input|
    ensures out.Ok? ==> Tokenize(input[index..]) == Cons(out.value.0, Tokenize(input[out.value.1..]))
  {
    var scanned := ScanToken(input, index);
    if scanned.Err? {
      return Err(scanned.error);
    }
    var (t, n) := scanned.value;
    assert input[index..][n..] == input[index + n..];
    return Ok((t, index + n));
  }

  /** tokenizeMarker. */
  method TokenizeMarker(input: string) returns (out: Result<seq<Token>, MarkerError>)
    ensures out == Tokenize(input)
  {
    var tokens: seq<Token> := [];
    var index := 0;
    ghost var all := Tokenize(input);
    assert input[0..] == input;
    assert all.Ok? ==> [] + all.value == all.value;
    while index < |input|
      invariant 0 <= index <= |input|
      invariant all == PrependTokens(tokens, Tokenize(input[index..]))
    {
      if IsSpace(input[index]) {
        assert input[index..][1..] == input[index + 1..];
        index := index + 1;
      } else {
        var next := NextToken(input, index);
        if next.Err? {
          return Err(next.error);
        }
        PrependCons(tokens, next.value.0, Tokenize(input[next.value.1..]));
        tokens := tokens + [next.value.0];
        index := next.value.1;
      }
    }
    return Ok(tokens + [EOF]);
  }

  // ------------------------------------------------------------ what tokens look like

  /** A token as the scanner produces it, other than the end mark. */
  predicate WellFormed(t: Token) {
    match t.kind
    case Eof => false
    case Word => t.value != "" && forall c <- t.value :: !EndsWord(c)
    case Quoted => '\'' !in t.value || '"' !in t.value
    case Symbol => 1 <= |t.value| <= 2 && IsSymbol(t.value[0]) && (|t.value| == 2 ==> t.value[1] == '=')
    case Left => t.value == "("
    case Right => t.value == ")"
  }

  /** Tokens that end with the only end mark. */
  predicate Lexed(ts: seq<Token>) {
    && |ts| >= 1 && ts[|ts| - 1] == EOF
    && forall i :: 0 <= i < |ts| - 1 ==> WellFormed(ts[i])
  }

  lemma {:induction false} UntilQuoteLacks(s: string, quote: char)
    ensures quote !in s[..UntilQuote(s, quote)]
  {
    if s != "" && s[0] != quote {
      UntilQuoteLacks(s[1..], quote);
      var n := UntilQuote(s, quote);
      assert s[..n] == [s[0]] + s[1..][..n - 1];
    }
  }

  lemma {:induction false} WordLacks(s: string)
    ensures forall c <- s[..WordLength(s)] :: !EndsWord(c)
  {
    if s != "" && !EndsWord(s[0]) {
      WordLacks(s[1..]);
      var n := WordLength(s);
      assert s[..n] == [s[0]] + s[1..][..n - 1];
    }
  }

  lemma ConsLexed(t: Token, ts: seq<Token>)
    requires WellFormed(t) && Lexed(ts)
    ensures Lexed([t] + ts)
  {
  }

  lemma FirstIsWellFormed(s: string)
    requires s != "" && !IsSpace(s[0]) && First(s).Ok?
    ensures WellFormed(First(s).value.0)
  {
    if IsQuote(s[0]) {
      var n := UntilQuote(s[1..], s[0]);
      UntilQuoteLacks(s[1..], s[0]);
      assert s[1..1 + n] == s[1..][..n];
    } else {
      WordLacks(s);
    }
  }

  /** Whatever the input, the scanner's tokens are well formed and end with the end mark. */
  lemma {:induction false} TokensAreLexed(s: string)
    requires Tokenize(s).Ok?
    ensures Lexed(Tokenize(s).value)
    decreases |s|
  {
    if s == "" {
    } else if IsSpace(s[0]) {
      TokensAreLexed(s[1..]);
    } else {
      var (t, n) := First(s).value;
      FirstIsWellFormed(s);
      TokensAreLexed(s[n..]);
      ConsLexed(t, Tokenize(s[n..]).value);
    }
  }

  // ------------------------------------------------------------------- spelling tokens

  function TokenText(t: Token): string {
    if t.kind == Quoted then
      var quote := if '\'' !in t.value then '\'' else '"';
      [quote] + t.value + [quote]
    else t.value
  }

  /** Two words, or two symbols, need a space between them. */
  predicate NeedsGap(t: Token, u: Token) {
    t.kind == u.kind && (t.kind == Word || t.kind == Symbol)
  }

  predicate AllSpace(s: string) {
    forall c <- s :: IsSpace(c)
  }

  /** Blanks before each token and after the last one. */
  predicate GapsFit(ts: seq<Token>, gaps: seq<string>) {
    && |gaps| == |ts| + 1 && (forall g <- gaps :: AllSpace(g))
    && forall i :: 0 <= i < |ts| - 1 && NeedsGap(ts[i], ts[i + 1]) ==> gaps[i + 1] != ""
  }

  function Spell(ts: seq<Token>, gaps: seq<string>): string
    requires |gaps| == |ts| + 1
  {
    if ts == [] then gaps[0] else gaps[0] + (TokenText(ts[0]) + Spell(ts[1..], gaps[1..]))
  }

  lemma {:induction false} SkipGap(gap: string, s: string)
    requires AllSpace(gap)
    ensures Tokenize(gap + s) == Tokenize(s)
    decreases |gap|
  {
    if gap == "" {
      assert gap + s == s;
    } else {
      assert gap[0] in gap && (gap + s)[0] == gap[0] && (gap + s)[1..] == gap[1..] + s;
      SkipGap(gap[1..], s);
    }
  }

  lemma FirstQuoted(value: string, quote: char, rest: string)
    requires IsQuote(quote) && quote !in value
    ensures First([quote] + value + [quote] + rest) == Ok((Token(Quoted, value), |value| + 2))
  {
    var s := [quote] + value + [quote] + rest;
    var tail := s[1..];
    assert tail == value + [quote] + rest;
    assert tail[..|value|] == value;
    UntilQuoteStep(tail, |value|, quote);
    assert tail[|value|..] == [quote] + rest;
    assert s[1..1 + |value|] == value;
  }

  lemma FirstWord(value: string, rest: string)
    requires value != "" && (forall c <- value :: !EndsWord(c)) && (rest == "" || EndsWord(rest[0]))
    ensures !IsSpace((value + rest)[0]) && First(value + rest) == Ok((Token(Word, value), |value|))
  {
    var s := value + rest;
    assert s[0] == value[0] && value[0] in value;
    assert s[..|value|] == value && s[|value|..] == rest;
    WordLengthStep(s, |value|);
  }

  /** The text of a token followed by text that does not run on from it. */
  lemma OneToken(t: Token, rest: string)
    requires WellFormed(t)
    requires t.kind == Word ==> rest == "" || EndsWord(rest[0])
    requires t.kind == Symbol ==> rest == "" || rest[0] != '='
    ensures var s := TokenText(t) + rest;
            s != "" && !IsSpace(s[0]) && First(s) == Ok((t, |TokenText(t)|))
  {
    var s := TokenText(t) + rest;
    match t.kind
    case Word => FirstWord(t.value, rest);
    case Quoted =>
      var quote := if '\'' !in t.value then '\'' else '"';
      FirstQuoted(t.value, quote, rest);
    case Symbol =>
      assert s[0] == t.value[0] && s[..|t.value|] == t.value;
      assert |t.value| == 1 && |s| > 1 ==> s[1] == rest[0];
      assert |t.value| == 2 ==> s[1] == t.value[1];
    case Left =>
    case Right =>
  }

  lemma SpellStart(ts: seq<Token>, gaps: seq<string>, t: Token)
    requires GapsFit([t] + ts, [""] + gaps) && WellFormed(t) && (forall u <- ts :: WellFormed(u))
    ensures var s := Spell(ts, gaps);
            && (t.kind == Word ==> s == "" || EndsWord(s[0]))
            && (t.kind == Symbol ==> s == "" || s[0] != '=')
  {
    var s := Spell(ts, gaps);
    assert gaps[0] in [""] + gaps;
    if gaps[0] != "" {
      assert s[0] == gaps[0][0] && gaps[0][0] in gaps[0];
    } else if ts != [] {
      var u := ts[0];
      assert u in ts && ([t] + ts)[0] == t && ([t] + ts)[1] == u && ([""] + gaps)[1] == "";
      assert !NeedsGap(t, u);
      TextStart(u);
      assert s[0] == TokenText(u)[0];
    }
  }

  lemma TextStart(u: Token)
    requires WellFormed(u)
    ensures TokenText(u) != ""
    ensures u.kind != Word ==> EndsWord(TokenText(u)[0])
    ensures u.kind != Symbol ==> TokenText(u)[0] != '='
  {
    if u.kind == Word {
      assert u.value[0] in u.value;
    }
  }

  /** Scanning the spelling of tokens gives them back, whatever the blanks. */
  lemma {:induction false} SpellingScans(ts: seq<Token>, gaps: seq<string>)
    requires GapsFit(ts, gaps) && forall t <- ts :: WellFormed(t)
    ensures Tokenize(Spell(ts, gaps)) == Ok(ts + [EOF])
    decreases |ts|
  {
    assert gaps[0] in gaps;
    if ts == [] {
      assert gaps[0] + "" == gaps[0];
      SkipGap(gaps[0], "");
      assert ts + [EOF] == [EOF];
    } else {
      var t, rest, blanks := ts[0], ts[1..], gaps[1..];
      assert t in ts;
      assert GapsFit(rest, blanks) by { RestFits(ts, gaps); }
      SpellingScans(rest, blanks);
      assert GapsFit([t] + rest, [""] + blanks) by { FirstBlank(ts, gaps); }
      SpellStart(rest, blanks, t);
      OneToken(t, Spell(rest, blanks));
      assert (TokenText(t) + Spell(rest, blanks))[|TokenText(t)|..] == Spell(rest, blanks);
      SkipGap(gaps[0], TokenText(t) + Spell(rest, blanks));
      assert [t] + (rest + [EOF]) == ts + [EOF];
    }
  }

  lemma RestFits(ts: seq<Token>, gaps: seq<string>)
    requires GapsFit(ts, gaps) && ts != []
    ensures GapsFit(ts[1..], gaps[1..])
  {
    forall i | 0 <= i < |ts| - 2 && NeedsGap(ts[1..][i], ts[1..][i + 1]) ensures gaps[1..][i + 1] != "" {
      assert NeedsGap(ts[i + 1], ts[i + 2]);
    }
  }

  lemma FirstBlank(ts: seq<Token>, gaps: seq<string>)
    requires GapsFit(ts, gaps) && ts != []
    ensures GapsFit([ts[0]] + ts[1..], [""] + gaps[1..])
  {
    assert [ts[0]] + ts[1..] == ts;
    var blanks := [""] + gaps[1..];
    forall g <- blanks ensures AllSpace(g) {
      assert g == "" || g in gaps;
    }
    forall i | 0 <= i < |ts| - 1 && NeedsGap(ts[i], ts[i + 1]) ensures blanks[i + 1] != "" {
      assert blanks[i + 1] == gaps[i + 1];
    }
  }
}
