/** Tokenizer and parser of the text of a marker. */
module PyMarkerParser {
  import opened Wrappers
  import opened PyResolve
  import opened PyMarkers

  // ----- Lexical rules -----

  /** unicode.IsSpace on a single byte. */
  predicate IsSpace(c: char) { c in {'\t', '\n', '\U{0B}', '\U{0C}', '\r', ' ', '\U{85}', '\U{A0}'} }

  predicate IsQuote(c: char) { c == '\'' || c == '"' }
  predicate IsOperatorChar(c: char) { c in {'<', '>', '=', '!', '~'} }
  predicate IsWordChar(c: char) { !IsSpace(c) && c != '(' && c != ')' && !IsOperatorChar(c) && !IsQuote(c) }

  ghost predicate All(p: char -> bool, s: string) { forall i :: 0 <= i < |s| ==> p(s[i]) }

  ghost predicate QuotedWith(q: char, value: string, lexeme: string) {
    IsQuote(q) && q !in value && lexeme == [q] + value + [q]
  }

  /** The first n characters spell the token, and the token could not be longer. */
  ghost predicate IsLexeme(text: string, n: nat, t: Token) {
    && 0 < n <= |text|
    && match t.kind
       case EndOfInput => false
       case LeftParen => t == OPEN && text[..n] == "("
       case RightParen => t == CLOSE && text[..n] == ")"
       case Quoted => exists q :: QuotedWith(q, t.value, text[..n])
       case Operator =>
         && t.value == text[..n] && IsOperatorChar(text[0])
         && (if n == 1 then |text| == 1 || text[1] != '=' else n == 2 && text[1] == '=')
       case Word => t.value == text[..n] && All(IsWordChar, text[..n]) && (n == |text| || !IsWordChar(text[n]))
  }

  /** A text spells tokens when it is their lexemes in order, with blanks anywhere between. */
  ghost predicate Spells(text: string, ts: seq<Token>)
    decreases |ts|
  {
    if |ts| <= 1 then ts == [END] && All(IsSpace, text)
    else exists i: nat, n: nat {:trigger SpellsFrom(text, i, n, ts)} :: SpellsFrom(text, i, n, ts)
  }

  ghost predicate SpellsFrom(text: string, i: nat, n: nat, ts: seq<Token>)
    decreases |ts|, 0
  {
    && |ts| > 1 && i + n <= |text| && All(IsSpace, text[..i]) && IsLexeme(text[i..], n, ts[0])
    && Spells(text[i + n..], ts[1..])
  }

  // ----- What the tokenizer computes -----

  /** How many leading characters come before the first that fails the test. */
  function Span(p: char -> bool, s: string): (n: nat)
    ensures n <= |s| && (forall i :: 0 <= i < n ==> p(s[i])) && (n < |s| ==> !p(s[n]))
  {
    if s != [] && p(s[0]) then 1 + Span(p, s[1..]) else 0
  }

  /** The first token and its length; nothing when a string is not closed. */
  function Lexeme(text: string): (r: Option<(Token, nat)>)
    requires text != [] && !IsSpace(text[0])
    ensures r.Some? ==> IsLexeme(text, r.value.1, r.value.0)
  {
    if text[0] == '(' then Some((OPEN, 1))
    else if text[0] == ')' then Some((CLOSE, 1))
    else if IsQuote(text[0]) then
      var n := Span(c => c != text[0], text[1..]);
      if 1 + n >= |text| then None
      else
        assert QuotedWith(text[0], text[1..1 + n], text[..n + 2]);
        Some((Token(Quoted, text[1..1 + n]), n + 2))
    else if IsOperatorChar(text[0]) then
      var n := if |text| > 1 && text[1] == '=' then 2 else 1;
      Some((Token(Operator, text[..n]), n))
    else
      var n := Span(IsWordChar, text);
      Some((Token(Word, text[..n]), n))
  }

  function Prepend(ts: seq<Token>, r: Result<seq<Token>, MarkerError>): Result<seq<Token>, MarkerError> {
    if r.Err? then r else Ok(ts + r.value)
  }

  function Scan(text: string): (r: Result<seq<Token>, MarkerError>)
    ensures r.Ok? ==> TokensOk(r.value)
  {
    if text == [] then Ok([END])
    else if IsSpace(text[0]) then Scan(text[1..])
    else
      var first := Lexeme(text);
      if first.None? then Err(UnterminatedString)
      else
        var rest := Scan(text[first.value.1..]);
        assert rest.Ok? ==> ConsOk(first.value.0, rest.value) by {
          if rest.Ok? {
            ConsKeepsOk(text, first.value.1, first.value.0, rest.value);
          }
        }
        Prepend([first.value.0], rest)
  }

  ghost predicate ConsOk(t: Token, ts: seq<Token>) { TokensOk([t] + ts) }

  lemma ConsKeepsOk(text: string, n: nat, t: Token, ts: seq<Token>)
    requires IsLexeme(text, n, t) && TokensOk(ts)
    ensures ConsOk(t, ts)
  {
    var all := [t] + ts;
    forall i {:trigger TokenOk(all, i)} | 0 <= i < |all| ensures TokenOk(all, i) {
      if i > 0 {
        assert TokenOk(ts, i - 1);
      }
    }
  }

  // ----- The tokenizer accepts exactly the spellings -----

  /** A text starts with at most one lexeme. */
  lemma LexemeUnique(text: string, n: nat, t: Token)
    requires IsLexeme(text, n, t)
    ensures !IsSpace(text[0]) && Lexeme(text) == Some((t, n))
  {
    assert text[..n][0] == text[0];
    if t.kind.Quoted? {
      var q :| QuotedWith(q, t.value, text[..n]);
      var m := Span(c => c != q, text[1..]);
      assert text[..n] == [q] + t.value + [q];
      forall i | 0 <= i < n - 2 ensures text[1..][i] == t.value[i] && text[1..][i] != q {
        assert text[1..][i] == text[..n][i + 1];
      }
      assert text[1..][n - 2] == text[..n][n - 1] == q;
      assert m == n - 2;
      assert text[1..1 + m] == t.value;
    } else if t.kind.Word? {
      var m := Span(IsWordChar, text);
      forall i | 0 <= i < n ensures IsWordChar(text[i]) {
        assert text[i] == text[..n][i];
      }
      assert m == n;
    }
  }

  lemma {:induction false} BlanksSkipped(text: string, i: nat)
    requires i <= |text| && All(IsSpace, text[..i])
    ensures Scan(text) == Scan(text[i..])
  {
    if i > 0 {
      assert text[0] == text[..i][0];
      assert text[1..][..i - 1] == text[..i][1..];
      BlanksSkipped(text[1..], i - 1);
      assert text[1..][i - 1..] == text[i..];
    } else {
      assert text[0..] == text;
    }
  }

  lemma LexemeScans(text: string, i: nat, n: nat, t: Token, rest: seq<Token>)
    requires i + n <= |text| && All(IsSpace, text[..i]) && IsLexeme(text[i..], n, t) && Scan(text[i + n..]) == Ok(rest)
    ensures Scan(text) == Ok([t] + rest)
  {
    BlanksSkipped(text, i);
    LexemeUnique(text[i..], n, t);
    assert text[i..][n..] == text[i + n..];
  }

  lemma {:induction false} SpellingScans(text: string, ts: seq<Token>)
    requires Spells(text, ts)
    ensures Scan(text) == Ok(ts)
    decreases |ts|
  {
    if |ts| <= 1 {
      assert text[..|text|] == text;
      BlanksSkipped(text, |text|);
    } else {
      var i: nat, n: nat :| SpellsFrom(text, i, n, ts);
      SpellingScans(text[i + n..], ts[1..]);
      LexemeScans(text, i, n, ts[0], ts[1..]);
      assert ts == [ts[0]] + ts[1..];
    }
  }

  lemma BlankBefore(text: string, ts: seq<Token>)
    requires text != [] && IsSpace(text[0]) && Spells(text[1..], ts)
    ensures Spells(text, ts)
  {
    if |ts| > 1 {
      var i: nat, n: nat :| SpellsFrom(text[1..], i, n, ts);
      assert text[1..][i..] == text[i + 1..] && text[1..][i + n..] == text[i + 1 + n..];
      assert text[..i + 1] == [text[0]] + text[1..][..i];
      assert SpellsFrom(text, i + 1, n, ts);
    } else {
      assert text == [text[0]] + text[1..];
    }
  }

  lemma {:induction false} ScannedIsSpelling(text: string, ts: seq<Token>)
    requires Scan(text) == Ok(ts)
    ensures Spells(text, ts)
    decreases |text|
  {
    if text == [] {
    } else if IsSpace(text[0]) {
      ScannedIsSpelling(text[1..], ts);
      BlankBefore(text, ts);
    } else {
      var first := Lexeme(text).value;
      var rest := Scan(text[first.1..]).value;
      ScannedIsSpelling(text[first.1..], rest);
      assert ts[1..] == rest && text[0..] == text && text[..0] == [];
      assert SpellsFrom(text, 0, first.1, ts);
    }
  }

  /** The tokenizer returns a token list exactly when the text spells it. */
  lemma ScansExactlySpellings(text: string, ts: seq<Token>)
    ensures Scan(text) == Ok(ts) <==> Spells(text, ts)
  {
    if Spells(text, ts) {
      SpellingScans(text, ts);
    }
    if Scan(text) == Ok(ts) {
      ScannedIsSpelling(text, ts);
    }
  }

  function EvaluateText(env: Env, text: string): Result<bool, MarkerError> {
    var ts := Scan(text);
    if ts.Err? then Err(ts.error) else Evaluate(env, ts.value)
  }

  ghost predicate IsMarkerText(env: Env, text: string, v: bool) {
    exists m :: WellFormed(env, m) && Spells(text, Print(m) + [END]) && Meaning(env, m) == v
  }

  /** A text evaluates to a value exactly when it spells a marker with that meaning; every other text is an error. */
  lemma TextEvaluatesExactlyMarkers(env: Env, text: string, v: bool)
    ensures EvaluateText(env, text) == Ok(v) <==> IsMarkerText(env, text, v)
  {
    if EvaluateText(env, text) == Ok(v) {
      var ts := Scan(text).value;
      EvaluatesExactlyMarkers(env, ts, v);
      ScansExactlySpellings(text, ts);
    }
    if IsMarkerText(env, text, v) {
      var m :| WellFormed(env, m) && Spells(text, Print(m) + [END]) && Meaning(env, m) == v;
      ScansExactlySpellings(text, Print(m) + [END]);
      EvaluatesExactlyMarkers(env, Print(m) + [END], v);
    }
  }

  // ----- The tokenizer loop -----

  lemma SpanStep(p: char -> bool, s: string, from: nat, i: nat)
    requires from <= i <= |s| && Span(p, s[from..]) >= i - from
    ensures i < |s| && p(s[i]) ==> Span(p, s[from..]) >= i + 1 - from
    ensures i == |s| || !p(s[i]) ==> Span(p, s[from..]) == i - from
  {
    assert i < |s| ==> s[from..][i - from] == s[i];
  }

  /** The tokens so far, and then whatever the rest scans to. */
  ghost predicate ScannedTo(text: string, ts: seq<Token>, i: nat) {
    i <= |text| && Scan(text) == Prepend(ts, Scan(text[i..]))
  }

  lemma ScanStarts(text: string)
    ensures ScannedTo(text, [], 0)
  {
    assert text[0..] == text;
    var r := Scan(text);
    assert r.Ok? ==> [] + r.value == r.value;
  }

  lemma ScanSkips(text: string, ts: seq<Token>, i: nat)
    requires ScannedTo(text, ts, i) && i < |text| && IsSpace(text[i])
    ensures ScannedTo(text, ts, i + 1)
  {
    assert text[i..][1..] == text[i + 1..];
  }

  lemma ScanStep(text: string, ts: seq<Token>, i: nat, t: Token, j: nat)
    requires ScannedTo(text, ts, i) && ReadsTo(text, i, t, j)
    ensures ScannedTo(text, ts + [t], j)
  {
    assert text[i..][j - i..] == text[j..];
    var rest := Scan(text[j..]);
    assert rest.Ok? ==> ts + ([t] + rest.value) == (ts + [t]) + rest.value;
  }

  /** One token that starts at begin and ends before index. */
  ghost predicate ReadsTo(input: string, begin: nat, token: Token, index: nat) {
    && begin < index <= |input| && !IsSpace(input[begin])
    && Lexeme(input[begin..]) == Some((token, index - begin))
  }

  method ReadQuoted(input: string, begin: nat) returns (token: Option<Token>, index: nat)
    requires begin < |input| && IsQuote(input[begin])
    ensures token.None? ==> Lexeme(input[begin..]).None?
    ensures token.Some? ==> ReadsTo(input, begin, token.value, index)
  {
    ghost var text := input[begin..];
    ghost var inside := (c: char) => c != text[0];
    var start := begin + 1;
    index := start;
    while index < |input| && input[index] != input[begin]
      invariant start <= index <= |input|
      invariant Span(inside, input[start..]) >= index - start
    {
      SpanStep(inside, input, start, index);
      index := index + 1;
    }
    SpanStep(inside, input, start, index);
    assert text[1..] == input[start..];
    if index >= |input| {
      return None, index;
    }
    token := Some(Token(Quoted, input[start..index]));
    assert input[start..index] == text[1..index - begin];
    index := index + 1;
  }

  method ReadOperator(input: string, begin: nat) returns (token: Token, index: nat)
    requires begin < |input| && IsOperatorChar(input[begin])
    ensures ReadsTo(input, begin, token, index)
  {
    index := begin + 1;
    if index < |input| && input[index] == '=' {
      index := index + 1;
    }
    token := Token(Operator, input[begin..index]);
    assert input[begin..index] == input[begin..][..index - begin];
  }

  /** A word has at least one character, so the unexpected-character error is never reported. */
  method ReadWord(input: string, begin: nat) returns (token: Token, index: nat)
    requires begin < |input| && IsWordChar(input[begin])
    ensures ReadsTo(input, begin, token, index)
  {
    index := begin;
    while index < |input| && IsWordChar(input[index])
      invariant begin <= index <= |input|
      invariant Span(IsWordChar, input[begin..]) >= index - begin
    {
      SpanStep(IsWordChar, input, begin, index);
      index := index + 1;
    }
    SpanStep(IsWordChar, input, begin, index);
    token := Token(Word, input[begin..index]);
    assert input[begin..index] == input[begin..][..index - begin];
  }

  /** The body of the tokenizer loop after blanks: one token from the index on. */
  method ReadToken(input: string, begin: nat) returns (token: Option<Token>, index: nat)
    requires begin < |input| && !IsSpace(input[begin])
    ensures token.None? ==> Lexeme(input[begin..]).None?
    ensures token.Some? ==> ReadsTo(input, begin, token.value, index)
  {
    if input[begin] == '(' {
      return Some(OPEN), begin + 1;
    } else if input[begin] == ')' {
      return Some(CLOSE), begin + 1;
    } else if IsQuote(input[begin]) {
      token, index := ReadQuoted(input, begin);
    } else if IsOperatorChar(input[begin]) {
      var operator, end := ReadOperator(input, begin);
      return Some(operator), end;
    } else {
      var word, end := ReadWord(input, begin);
      return Some(word), end;
    }
  }

  method Tokenize(input: string) returns (r: Result<seq<Token>, MarkerError>)
    ensures r == Scan(input)
    ensures r.Ok? ==> TokensOk(r.value)
  {
    var tokens: seq<Token> := [];
    var index := 0;
    ScanStarts(input);
    while index < |input|
      invariant ScannedTo(input, tokens, index)
      decreases |input| - index
    {
      if IsSpace(input[index]) {
        ScanSkips(input, tokens, index);
        index := index + 1;
        continue;
      }
      var token, next := ReadToken(input, index);
      if token.None? {
        return Err(UnterminatedString);
      }
      ScanStep(input, tokens, index, token.value, next);
      tokens, index := tokens + [token.value], next;
    }
    r := Ok(tokens + [END]);
  }

  // ----- The parser object -----

  ghost predicate Agrees<T>(spec: Result<(T, nat), MarkerError>, r: Result<T, MarkerError>, index: nat) {
    if spec.Err? then r == Err(spec.error) else r == Ok(spec.value.0) && index == spec.value.1
  }

  class MarkerParser {
    const tokens: Tokens
    const env: Env
    var index: nat

    /** The index never passes the end marker. */
    ghost predicate Valid()
      reads this
    {
      index < |tokens|
    }

    constructor (tokens: Tokens, env: Env)
      ensures Valid() && index == 0 && this.tokens == tokens && this.env == env
    {
      this.tokens, this.env, index := tokens, env, 0;
    }

    method ParseOr() returns (r: Result<bool, MarkerError>)
      requires Valid()
      modifies this
      ensures Valid() && old(index) <= index && Agrees(PyMarkers.ParseOr(env, tokens, old(index)), r, index)
      decreases |tokens| - index, 2
    {
      ghost var spec := PyMarkers.ParseOr(env, tokens, index);
      r := ParseAnd();
      assert spec == OrStep(env, tokens, old(index), false);
      while r.Ok? && IsOr(tokens[index])
        invariant Valid() && old(index) <= index
        invariant if r.Ok? then old(index) < index && spec == OrRest(env, tokens, index, r.value)
                  else spec == Err(r.error)
        decreases r.Ok?, |tokens| - index
      {
        index := index + 1;
        var right := ParseAnd();
        r := if right.Err? then right else Ok(r.value || right.value);
      }
    }

    method ParseAnd() returns (r: Result<bool, MarkerError>)
      requires Valid()
      modifies this
      ensures Valid() && old(index) <= index && Agrees(PyMarkers.ParseAnd(env, tokens, old(index)), r, index)
      decreases |tokens| - index, 1
    {
      ghost var spec := PyMarkers.ParseAnd(env, tokens, index);
      r := ParseTerm();
      assert spec == AndStep(env, tokens, old(index), true);
      while r.Ok? && IsAnd(tokens[index])
        invariant Valid() && old(index) <= index
        invariant if r.Ok? then old(index) < index && spec == AndRest(env, tokens, index, r.value)
                  else spec == Err(r.error)
        decreases r.Ok?, |tokens| - index
      {
        index := index + 1;
        var right := ParseTerm();
        r := if right.Err? then right else Ok(r.value && right.value);
      }
    }

    method ParseTerm() returns (r: Result<bool, MarkerError>)
      requires Valid()
      modifies this
      ensures Valid() && old(index) <= index && Agrees(PyMarkers.ParseTerm(env, tokens, old(index)), r, index)
      decreases |tokens| - index, 0
    {
      if tokens[index].kind.LeftParen? {
        index := index + 1;
        r := ParseOr();
        if r.Err? {
          return;
        }
        if !tokens[index].kind.RightParen? {
          return Err(MissingParenthesis);
        }
        index := index + 1;
      } else {
        var left := ParseOperand();
        if left.Err? {
          return Err(left.error);
        }
        var op := ParseOperator();
        if op.Err? {
          return Err(op.error);
        }
        var right := ParseOperand();
        if right.Err? {
          return Err(right.error);
        }
        r := Ok(env.holds(left.value, op.value, right.value));
      }
    }

    method ParseOperand() returns (r: Result<Operand, MarkerError>)
      requires Valid()
      modifies this
      ensures Valid() && old(index) <= index && Agrees(PyMarkers.ParseOperand(env, tokens, old(index)), r, index)
    {
      var token := tokens[index];
      if !token.kind.Word? && !token.kind.Quoted? {
        return Err(ExpectedOperand);
      }
      index := index + 1;
      if token.kind.Quoted? {
        return Ok(Operand(token.value, ""));
      }
      var value := env.value(token.value);
      r := if value.None? then Err(UnsupportedVariable) else Ok(Operand(value.value, token.value));
    }

    method ParseOperator() returns (r: Result<string, MarkerError>)
      requires Valid()
      modifies this
      ensures Valid() && old(index) <= index && Agrees(PyMarkers.ParseOperator(tokens, old(index)), r, index)
    {
      var token := tokens[index];
      if token.kind.Operator? {
        index := index + 1;
        return if token.value in COMPARISONS then Ok(token.value) else Err(UnsupportedOperator);
      }
      if EqualFold(token.value, "in") {
        index := index + 1;
        return Ok("in");
      }
      if EqualFold(token.value, "not") && index + 1 < |tokens| && EqualFold(tokens[index + 1].value, "in") {
        index := index + 2;
        return Ok("not in");
      }
      r := Err(ExpectedOperator);
    }
  }

  method EvaluateMarker(expression: string, target: Target, parse: Parser) returns (r: Result<bool, MarkerError>)
    ensures r == EvaluateText(EnvOf(target, parse), expression)
    ensures forall v :: r == Ok(v) <==> IsMarkerText(EnvOf(target, parse), expression, v)
  {
    var env := EnvOf(target, parse);
    var tokens := Tokenize(expression);
    if tokens.Err? {
      r := Err(tokens.error);
    } else {
      var parser := new MarkerParser(tokens.value, env);
      r := parser.ParseOr();
      if r.Ok? && !parser.tokens[parser.index].kind.EndOfInput? {
        r := Err(UnexpectedToken);
      }
    }
    forall v ensures r == Ok(v) <==> IsMarkerText(env, expression, v) {
      TextEvaluatesExactlyMarkers(env, expression, v);
    }
  }
}
