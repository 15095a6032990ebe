/** PEP 508 markers: grammar and evaluator. */
module PyMarkers {
  import opened Wrappers
  import opened Ordering
  import opened PyVersions
  import opened PyResolve

  datatype Kind = EndOfInput | Word | Quoted | Operator | LeftParen | RightParen

  datatype Token = Token(kind: Kind, value: string)

  const END := Token(EndOfInput, "")
  const OPEN := Token(LeftParen, "(")
  const CLOSE := Token(RightParen, ")")

  datatype Target = Target(
    pythonVersion: string, pythonFullVersion: string, sysPlatform: string, osName: string,
    platformSystem: string, implementation: string)

  /** An operand's text, and the variable it came from or the empty string. */
  datatype Operand = Operand(text: string, variable: string)

  /** What the evaluator asks of its environment: the values of variables, and whether a comparison holds. */
  datatype Env = Env(value: string -> Option<string>, holds: (Operand, string, Operand) -> bool)

  datatype MarkerError =
    | UnterminatedString | UnexpectedToken | MissingParenthesis | ExpectedOperand
    | UnsupportedVariable | UnsupportedOperator | ExpectedOperator

  // ----- Values and comparisons -----

  function Lower(c: char): char {
    if 'A' <= c <= 'Z' then (c as int + 32) as char else c
  }

  predicate EqualFold(a: string, b: string) {
    |a| == |b| && forall i :: 0 <= i < |a| ==> Lower(a[i]) == Lower(b[i])
  }

  predicate OccursAt(text: string, part: string, i: nat) {
    i + |part| <= |text| && text[i..i + |part|] == part
  }

  predicate Contains(text: string, part: string) {
    exists i :: 0 <= i <= |text| && OccursAt(text, part, i)
  }

  function VariableValue(name: string, target: Target): Option<string> {
    if name == "python_version" then Some(target.pythonVersion)
    else if name == "python_full_version" then Some(target.pythonFullVersion)
    else if name == "sys_platform" then Some(target.sysPlatform)
    else if name == "os_name" then Some(target.osName)
    else if name == "platform_system" then Some(target.platformSystem)
    else if name == "implementation_name" then Some(target.implementation)
    else if name == "platform_python_implementation" then Some("CPython")
    else if name == "implementation_version" then Some(target.pythonFullVersion)
    else if name == "extra" then Some("")
    else None
  }

  /** Each variable is one field of the target, or the fixed text of a CPython without extras. */
  lemma Variables(target: Target, name: string)
    ensures VariableValue(name, target).None? <==>
            name !in {"python_version", "python_full_version", "sys_platform", "os_name", "platform_system",
                      "implementation_name", "platform_python_implementation", "implementation_version", "extra"}
    ensures name == "python_version" ==> VariableValue(name, target) == Some(target.pythonVersion)
    ensures name in {"python_full_version", "implementation_version"} ==>
            VariableValue(name, target) == Some(target.pythonFullVersion)
    ensures name == "sys_platform" ==> VariableValue(name, target) == Some(target.sysPlatform)
    ensures name == "os_name" ==> VariableValue(name, target) == Some(target.osName)
    ensures name == "platform_system" ==> VariableValue(name, target) == Some(target.platformSystem)
    ensures name == "implementation_name" ==> VariableValue(name, target) == Some(target.implementation)
    ensures name == "platform_python_implementation" ==> VariableValue(name, target) == Some("CPython")
    ensures name == "extra" ==> VariableValue(name, target) == Some("")
  {
  }

  predicate IsVersionVariable(name: string) {
    name in {"python_version", "python_full_version", "implementation_version"}
  }

  /** Versions compare as versions where a version variable is involved and both sides parse, and as text otherwise. */
  function CompareOperands(parse: Parser, left: Operand, right: Operand): int {
    var versions := IsVersionVariable(left.variable) || IsVersionVariable(right.variable);
    if versions && parse(left.text).Some? && parse(right.text).Some?
    then CompareVersions(parse(left.text).value, parse(right.text).value)
    else CompareText(left.text, right.text)
  }

  predicate Holds(parse: Parser, left: Operand, op: string, right: Operand) {
    if op == "in" then Contains(right.text, left.text)
    else if op == "not in" then !Contains(right.text, left.text)
    else
      var compared := CompareOperands(parse, left, right);
      if op == "==" || op == "===" then compared == 0
      else if op == "!=" then compared != 0
      else if op == "<" then compared < 0
      else if op == "<=" then compared <= 0
      else if op == ">" then compared > 0
      else if op == ">=" then compared >= 0
      else if op == "~=" then
        && parse(left.text).Some? && parse(right.text).Some?
        && CompareVersions(parse(left.text).value, parse(right.text).value) >= 0
        && IsCompatible(parse(left.text).value, parse(right.text).value)
      else false
  }

  /** What a comparison compares: versions if one side is a version variable and both parse, else texts. */
  ghost predicate ComesBefore(parse: Parser, left: Operand, right: Operand) {
    if (IsVersionVariable(left.variable) || IsVersionVariable(right.variable))
       && parse(left.text).Some? && parse(right.text).Some?
    then Precedes(parse(left.text).value, parse(right.text).value)
    else InDictionaryOrder(left.text, right.text)
  }

  lemma ComparedByMeaning(parse: Parser, left: Operand, right: Operand)
    ensures CompareOperands(parse, left, right) < 0 <==> ComesBefore(parse, left, right)
    ensures CompareOperands(parse, left, right) > 0 <==> ComesBefore(parse, right, left)
  {
    if parse(left.text).Some? && parse(right.text).Some? {
      ComparesByPrecedence(parse(left.text).value, parse(right.text).value);
    }
    TextIsDictionary(left.text, right.text);
    TextIsDictionary(right.text, left.text);
    TextIsTotalOrder();
    assert CompareText(left.text, right.text) > 0 <==> CompareText(right.text, left.text) < 0;
  }

  /** Each ordering operator in terms of which side comes before; exactly one of <, == and > holds. */
  lemma OrderingOperators(parse: Parser, left: Operand, right: Operand)
    ensures Holds(parse, left, "<", right) <==> ComesBefore(parse, left, right)
    ensures Holds(parse, left, ">", right) <==> ComesBefore(parse, right, left)
    ensures Holds(parse, left, "==", right) <==> !ComesBefore(parse, left, right) && !ComesBefore(parse, right, left)
    ensures Holds(parse, left, "===", right) <==> Holds(parse, left, "==", right)
    ensures Holds(parse, left, "!=", right) <==> !Holds(parse, left, "==", right)
    ensures Holds(parse, left, "<=", right) <==> Holds(parse, left, "<", right) || Holds(parse, left, "==", right)
    ensures Holds(parse, left, ">=", right) <==> Holds(parse, left, ">", right) || Holds(parse, left, "==", right)
    ensures !(Holds(parse, left, "<", right) && Holds(parse, left, ">", right))
  {
    ComparedByMeaning(parse, left, right);
  }

  /** The other operators: containment of the left text in the right one, and the compatible release. */
  lemma OtherOperators(parse: Parser, left: Operand, right: Operand)
    ensures Holds(parse, left, "in", right) <==> exists before, after :: right.text == before + left.text + after
    ensures Holds(parse, left, "not in", right) <==> !Holds(parse, left, "in", right)
    ensures Holds(parse, left, "~=", right) <==>
            && parse(left.text).Some? && parse(right.text).Some?
            && !Precedes(parse(left.text).value, parse(right.text).value)
            && IsCompatible(parse(left.text).value, parse(right.text).value)
  {
    if parse(left.text).Some? && parse(right.text).Some? {
      ComparesByPrecedence(parse(left.text).value, parse(right.text).value);
    }
    ContainsIsInfix(right.text, left.text);
  }

  lemma ContainsIsInfix(text: string, part: string)
    ensures Contains(text, part) <==> exists before, after :: text == before + part + after
  {
    if Contains(text, part) {
      var i :| 0 <= i <= |text| && OccursAt(text, part, i);
      assert text == text[..i] + part + text[i + |part|..];
    }
    if before, after :| text == before + part + after {
      assert OccursAt(text, part, |before|);
    }
  }

  /** The environment of a target; version parsing is a given function. */
  function EnvOf(target: Target, parse: Parser): Env {
    Env(name => VariableValue(name, target), (left, op, right) => Holds(parse, left, op, right))
  }

  const COMPARISONS := {"==", "!=", "<", "<=", ">", ">=", "~=", "==="}

  // ----- The grammar -----

  predicate IsAnd(t: Token) { EqualFold(t.value, "and") }
  predicate IsOr(t: Token) { EqualFold(t.value, "or") }

  /** The keywords in any case, and nothing else. */
  lemma KeywordsInAnyCase(t: Token)
    ensures IsAnd(t) <==>
            |t.value| == 3 && t.value[0] in {'a', 'A'} && t.value[1] in {'n', 'N'} && t.value[2] in {'d', 'D'}
    ensures IsOr(t) <==> |t.value| == 2 && t.value[0] in {'o', 'O'} && t.value[1] in {'r', 'R'}
  {
    forall c: char ensures (Lower(c) == 'a' <==> c in {'a', 'A'}) && (Lower(c) == 'n' <==> c in {'n', 'N'})
      && (Lower(c) == 'd' <==> c in {'d', 'D'}) && (Lower(c) == 'o' <==> c in {'o', 'O'})
      && (Lower(c) == 'r' <==> c in {'r', 'R'})
    {
    }
  }

  /** A comparison, a parenthesised marker, or two markers joined by a keyword. */
  datatype Marker =
    | Comparison(left: Token, op: seq<Token>, right: Token)
    | Group(inner: Marker)
    | And(first: Marker, keyword: Token, second: Marker)
    | Or(first: Marker, keyword: Token, second: Marker)

  function OperandOf(env: Env, t: Token): Option<Operand> {
    if t.kind.Quoted? then Some(Operand(t.value, ""))
    else if t.kind.Word? && env.value(t.value).Some? then Some(Operand(env.value(t.value).value, t.value))
    else None
  }

  /** One operator token, or the keywords in and not in. */
  function OperatorOf(op: seq<Token>): Option<string> {
    if |op| == 1 && op[0].kind.Operator? then (if op[0].value in COMPARISONS then Some(op[0].value) else None)
    else if |op| == 1 && EqualFold(op[0].value, "in") then Some("in")
    else if |op| == 2 && !op[0].kind.Operator? && EqualFold(op[0].value, "not") && EqualFold(op[1].value, "in")
      then Some("not in")
    else None
  }

  predicate IsTerm(m: Marker) { m.Comparison? || m.Group? }

  /** "and" binds tighter than "or": an "or" under an "and" needs parentheses. */
  predicate WellFormed(env: Env, m: Marker) {
    match m
    case Comparison(left, op, right) => OperandOf(env, left).Some? && OperatorOf(op).Some?
      && OperandOf(env, right).Some?
    case Group(inner) => WellFormed(env, inner)
    case And(first, keyword, second) => WellFormed(env, first) && WellFormed(env, second) && IsAnd(keyword)
      && !first.Or? && !second.Or?
    case Or(first, keyword, second) => WellFormed(env, first) && WellFormed(env, second) && IsOr(keyword)
  }

  function Print(m: Marker): seq<Token> {
    match m
    case Comparison(left, op, right) => [left] + op + [right]
    case Group(inner) => [OPEN] + Print(inner) + [CLOSE]
    case And(first, keyword, second) => Print(first) + [keyword] + Print(second)
    case Or(first, keyword, second) => Print(first) + [keyword] + Print(second)
  }

  predicate Meaning(env: Env, m: Marker)
    requires WellFormed(env, m)
  {
    match m
    case Comparison(left, op, right) => env.holds(OperandOf(env, left).value, OperatorOf(op).value,
      OperandOf(env, right).value)
    case Group(inner) => Meaning(env, inner)
    case And(first, _, second) => Meaning(env, first) && Meaning(env, second)
    case Or(first, _, second) => Meaning(env, first) || Meaning(env, second)
  }

  // ----- What the evaluator computes -----

  /** Token lists as the tokenizer makes them: one end marker, at the end, and plain parentheses. */
  ghost predicate TokensOk(ts: seq<Token>) {
    && |ts| > 0 && ts[|ts| - 1] == END
    && (forall i {:trigger TokenOk(ts, i)} :: 0 <= i < |ts| ==> TokenOk(ts, i))
  }

  predicate TokenOk(ts: seq<Token>, i: nat)
    requires i < |ts|
  {
    && (ts[i].kind.EndOfInput? <==> i == |ts| - 1)
    && (ts[i].kind.LeftParen? ==> ts[i] == OPEN)
    && (ts[i].kind.RightParen? ==> ts[i] == CLOSE)
  }

  type Tokens = ts: seq<Token> | TokensOk(ts) ghost witness [END]

  type Parsed = Result<(bool, nat), MarkerError>

  ghost predicate Advances(ts: seq<Token>, i: nat, r: Parsed) {
    r.Ok? ==> i < r.value.1 < |ts|
  }

  function ParseOperand(env: Env, ts: Tokens, i: nat): (r: Result<(Operand, nat), MarkerError>)
    requires i < |ts|
    ensures r.Ok? ==> r.value.1 == i + 1 < |ts|
  {
    if !ts[i].kind.Word? && !ts[i].kind.Quoted? then Err(ExpectedOperand)
    else if OperandOf(env, ts[i]).None? then Err(UnsupportedVariable)
    else Ok((OperandOf(env, ts[i]).value, i + 1))
  }

  function ParseOperator(ts: Tokens, i: nat): (r: Result<(string, nat), MarkerError>)
    requires i < |ts|
    ensures r.Ok? ==> i < r.value.1 < |ts|
  {
    if ts[i].kind.Operator? then
      if ts[i].value in COMPARISONS then Ok((ts[i].value, i + 1)) else Err(UnsupportedOperator)
    else if EqualFold(ts[i].value, "in") then Ok(("in", i + 1))
    else if EqualFold(ts[i].value, "not") && i + 1 < |ts| && EqualFold(ts[i + 1].value, "in") then Ok(("not in", i + 2))
    else Err(ExpectedOperator)
  }

  function ParseTerm(env: Env, ts: Tokens, i: nat): (r: Parsed)
    requires i < |ts|
    ensures Advances(ts, i, r)
    decreases |ts| - i, 0
  {
    if ts[i].kind.LeftParen? then
      var inner := ParseOr(env, ts, i + 1);
      if inner.Err? then inner
      else if !ts[inner.value.1].kind.RightParen? then Err(MissingParenthesis)
      else Ok((inner.value.0, inner.value.1 + 1))
    else
      var left := ParseOperand(env, ts, i);
      if left.Err? then Err(left.error) else
      var op := ParseOperator(ts, left.value.1);
      if op.Err? then Err(op.error) else
      var right := ParseOperand(env, ts, op.value.1);
      if right.Err? then Err(right.error)
      else Ok((env.holds(left.value.0, op.value.0, right.value.0), right.value.1))
  }

  /** One more term of a conjunction, and what follows it. */
  function AndStep(env: Env, ts: Tokens, i: nat, left: bool): (r: Parsed)
    requires i < |ts|
    ensures Advances(ts, i, r)
    decreases |ts| - i, 1
  {
    var term := ParseTerm(env, ts, i);
    if term.Err? then term else AndRest(env, ts, term.value.1, left && term.value.0)
  }

  function AndRest(env: Env, ts: Tokens, i: nat, left: bool): (r: Parsed)
    requires i < |ts|
    ensures r.Ok? ==> i <= r.value.1 < |ts|
    decreases |ts| - i, 2
  {
    if IsAnd(ts[i]) then AndStep(env, ts, i + 1, left) else Ok((left, i))
  }

  function ParseAnd(env: Env, ts: Tokens, i: nat): (r: Parsed)
    requires i < |ts|
    ensures Advances(ts, i, r)
    decreases |ts| - i, 2
  {
    AndStep(env, ts, i, true)
  }

  function OrStep(env: Env, ts: Tokens, i: nat, left: bool): (r: Parsed)
    requires i < |ts|
    ensures Advances(ts, i, r)
    decreases |ts| - i, 3
  {
    var conjunction := ParseAnd(env, ts, i);
    if conjunction.Err? then conjunction else OrRest(env, ts, conjunction.value.1, left || conjunction.value.0)
  }

  function OrRest(env: Env, ts: Tokens, i: nat, left: bool): (r: Parsed)
    requires i < |ts|
    ensures r.Ok? ==> i <= r.value.1 < |ts|
    decreases |ts| - i, 4
  {
    if IsOr(ts[i]) then OrStep(env, ts, i + 1, left) else Ok((left, i))
  }

  function ParseOr(env: Env, ts: Tokens, i: nat): (r: Parsed)
    requires i < |ts|
    ensures Advances(ts, i, r)
    decreases |ts| - i, 4
  {
    OrStep(env, ts, i, false)
  }

  function Evaluate(env: Env, ts: Tokens): Result<bool, MarkerError>
  {
    var r := ParseOr(env, ts, 0);
    if r.Err? then Err(r.error)
    else if !ts[r.value.1].kind.EndOfInput? then Err(UnexpectedToken)
    else Ok(r.value.0)
  }

  // ----- Every marker is evaluated to its meaning -----

  /** The tokens from i on begin with the given ones. */
  ghost predicate StandsAt(ts: seq<Token>, i: nat, part: seq<Token>) {
    i + |part| <= |ts| && forall k {:trigger part[k]} :: 0 <= k < |part| ==> ts[i + k] == part[k]
  }

  lemma WrapStands(ts: seq<Token>, i: nat, whole: seq<Token>, a: Token, inner: seq<Token>, b: Token)
    requires StandsAt(ts, i, whole) && whole == [a] + inner + [b]
    ensures ts[i] == a && StandsAt(ts, i + 1, inner) && ts[i + 1 + |inner|] == b
  {
    assert whole[0] == a && whole[1 + |inner|] == b;
    forall k {:trigger inner[k]} | 0 <= k < |inner| ensures ts[i + 1 + k] == inner[k] {
      assert whole[1 + k] == inner[k];
    }
  }

  lemma JoinStands(ts: seq<Token>, i: nat, whole: seq<Token>, a: seq<Token>, t: Token, b: seq<Token>)
    requires StandsAt(ts, i, whole) && whole == a + [t] + b
    ensures StandsAt(ts, i, a) && ts[i + |a|] == t && StandsAt(ts, i + |a| + 1, b)
  {
    assert whole[|a|] == t;
    forall k {:trigger a[k]} | 0 <= k < |a| ensures ts[i + k] == a[k] {
      assert whole[k] == a[k];
    }
    forall k {:trigger b[k]} | 0 <= k < |b| ensures ts[i + |a| + 1 + k] == b[k] {
      assert whole[|a| + 1 + k] == b[k];
    }
  }

  /** How many tokens a marker takes. */
  function Width(m: Marker): (n: nat)
    ensures n == |Print(m)|
  {
    match m
    case Comparison(_, op, _) => |op| + 2
    case Group(inner) => Width(inner) + 2
    case And(first, _, second) => Width(first) + 1 + Width(second)
    case Or(first, _, second) => Width(first) + 1 + Width(second)
  }

  /** The marker's tokens stand at i, part by part, with at least one token after them. */
  ghost predicate Placed(ts: seq<Token>, i: nat, m: Marker)
    decreases m, 1
  {
    && i + Width(m) < |ts|
    && match m
       case Comparison(left, op, right) => ts[i] == left && StandsAt(ts, i + 1, op) && ts[i + 1 + |op|] == right
       case Group(inner) => ts[i] == OPEN && Placed(ts, i + 1, inner) && ts[i + 1 + Width(inner)] == CLOSE
       case _ => PartsPlaced(ts, i, m)
  }

  ghost predicate PartsPlaced(ts: seq<Token>, i: nat, m: Marker)
    requires i + Width(m) < |ts| && (m.And? || m.Or?)
    decreases m, 0
  {
    var k := i + Width(m.first);
    Placed(ts, i, m.first) && ts[k] == m.keyword && Placed(ts, k + 1, m.second)
  }

  lemma ComparisonPlaced(ts: seq<Token>, i: nat, m: Marker)
    requires m.Comparison? && i + Width(m) < |ts| && StandsAt(ts, i, Print(m))
    ensures Placed(ts, i, m)
  {
    WrapStands(ts, i, Print(m), m.left, m.op, m.right);
  }

  lemma GroupStands(ts: seq<Token>, i: nat, m: Marker)
    requires m.Group? && i + Width(m) < |ts| && StandsAt(ts, i, Print(m))
    ensures ts[i] == OPEN && StandsAt(ts, i + 1, Print(m.inner)) && ts[i + 1 + Width(m.inner)] == CLOSE
  {
    WrapStands(ts, i, Print(m), OPEN, Print(m.inner), CLOSE);
  }

  lemma PartsStand(ts: seq<Token>, i: nat, m: Marker)
    requires (m.And? || m.Or?) && i + Width(m) < |ts| && StandsAt(ts, i, Print(m))
    ensures var k := i + Width(m.first);
            StandsAt(ts, i, Print(m.first)) && ts[k] == m.keyword && StandsAt(ts, k + 1, Print(m.second))
  {
    JoinStands(ts, i, Print(m), Print(m.first), m.keyword, Print(m.second));
  }

  lemma {:induction false} PrintedIsPlaced(ts: seq<Token>, i: nat, m: Marker)
    requires i + Width(m) < |ts| && StandsAt(ts, i, Print(m))
    ensures Placed(ts, i, m)
    decreases m
  {
    if m.Comparison? {
      ComparisonPlaced(ts, i, m);
    } else if m.Group? {
      GroupStands(ts, i, m);
      PrintedIsPlaced(ts, i + 1, m.inner);
    } else {
      PartsStand(ts, i, m);
      PrintedIsPlaced(ts, i, m.first);
      PrintedIsPlaced(ts, i + Width(m.first) + 1, m.second);
    }
  }

  /** Evaluating a term at i gives v and leaves the rest at j. */
  ghost predicate TermGives(env: Env, ts: Tokens, i: nat, j: nat, v: bool) {
    i < j < |ts| && ParseTerm(env, ts, i) == Ok((v, j))
  }

  lemma ComparisonParses(env: Env, ts: Tokens, i: nat, m: Marker)
    requires WellFormed(env, m) && m.Comparison? && Placed(ts, i, m)
    ensures TermGives(env, ts, i, i + Width(m), Meaning(env, m))
  {
    var n := |m.op|;
    assert ts[i + 1] == m.op[0];
    assert n == 2 ==> ts[i + 2] == m.op[1];
  }

  ghost predicate OrGives(env: Env, ts: Tokens, i: nat, j: nat, v: bool) {
    i < j < |ts| && ParseOr(env, ts, i) == Ok((v, j))
  }

  /** Evaluating a conjunct at i with the value so far gets to j with a new value. */
  ghost predicate AndGets(env: Env, ts: Tokens, i: nat, left: bool, j: nat, v: bool) {
    i < |ts| && j < |ts| && AndStep(env, ts, i, left) == AndRest(env, ts, j, v)
  }

  ghost predicate OrGets(env: Env, ts: Tokens, i: nat, left: bool, j: nat, v: bool) {
    i < |ts| && j < |ts| && OrStep(env, ts, i, left) == OrRest(env, ts, j, v)
  }

  lemma AndGetsOn(env: Env, ts: Tokens, i: nat, left: bool, k: nat, v: bool, j: nat, w: bool)
    requires AndGets(env, ts, i, left, k, v) && IsAnd(ts[k]) && AndGets(env, ts, k + 1, v, j, w)
    ensures AndGets(env, ts, i, left, j, w)
  {
  }

  lemma OrGetsOn(env: Env, ts: Tokens, i: nat, left: bool, k: nat, v: bool, j: nat, w: bool)
    requires OrGets(env, ts, i, left, k, v) && IsOr(ts[k]) && OrGets(env, ts, k + 1, v, j, w)
    ensures OrGets(env, ts, i, left, j, w)
  {
  }

  lemma TermGets(env: Env, ts: Tokens, i: nat, left: bool, j: nat, v: bool)
    requires TermGives(env, ts, i, j, v)
    ensures AndGets(env, ts, i, left, j, left && v)
  {
  }

  lemma ConjunctionGets(env: Env, ts: Tokens, i: nat, left: bool, j: nat, v: bool)
    requires AndGets(env, ts, i, true, j, v) && !IsAnd(ts[j])
    ensures OrGets(env, ts, i, left, j, left || v)
  {
  }

  lemma OrIsNotAnd(t: Token)
    requires IsOr(t)
    ensures !IsAnd(t)
  {
  }

  lemma {:induction false} TermParses(env: Env, ts: Tokens, i: nat, m: Marker)
    requires WellFormed(env, m) && IsTerm(m) && Placed(ts, i, m)
    ensures TermGives(env, ts, i, i + Width(m), Meaning(env, m))
    decreases m, 0
  {
    if m.Comparison? {
      ComparisonParses(env, ts, i, m);
    } else {
      DisjunctionParses(env, ts, i + 1, m.inner);
    }
  }

  lemma AndTermParses(env: Env, ts: Tokens, i: nat, m: Marker, left: bool)
    requires WellFormed(env, m) && IsTerm(m) && Placed(ts, i, m)
    ensures AndGets(env, ts, i, left, i + Width(m), left && Meaning(env, m))
    decreases m, 1
  {
    TermParses(env, ts, i, m);
    TermGets(env, ts, i, left, i + Width(m), Meaning(env, m));
  }

  lemma {:induction false} AndParses(env: Env, ts: Tokens, i: nat, m: Marker, left: bool)
    requires WellFormed(env, m) && !m.Or? && Placed(ts, i, m)
    ensures AndGets(env, ts, i, left, i + Width(m), left && Meaning(env, m))
    decreases m, 2
  {
    if m.And? {
      var k, v, w := i + Width(m.first), left && Meaning(env, m.first), left && Meaning(env, m);
      assert w == (v && Meaning(env, m.second)) && IsAnd(ts[k]);
      AndParses(env, ts, i, m.first, left);
      AndParses(env, ts, k + 1, m.second, v);
      AndGetsOn(env, ts, i, left, k, v, i + Width(m), w);
    } else {
      AndTermParses(env, ts, i, m, left);
    }
  }

  lemma OrTermParses(env: Env, ts: Tokens, i: nat, m: Marker, left: bool)
    requires WellFormed(env, m) && !m.Or? && Placed(ts, i, m) && !IsAnd(ts[i + Width(m)])
    ensures OrGets(env, ts, i, left, i + Width(m), left || Meaning(env, m))
    decreases m, 3
  {
    AndParses(env, ts, i, m, true);
    ConjunctionGets(env, ts, i, left, i + Width(m), Meaning(env, m));
  }

  /** Where the halves of a disjunction stand. */
  lemma OrPlaced(env: Env, ts: Tokens, i: nat, m: Marker, k: nat)
    requires m.Or? && WellFormed(env, m) && Placed(ts, i, m) && k == i + Width(m.first)
    ensures WellFormed(env, m.first) && WellFormed(env, m.second)
    ensures Placed(ts, i, m.first) && Placed(ts, k + 1, m.second)
    ensures IsOr(ts[k]) && !IsAnd(ts[k]) && i + Width(m) == k + 1 + Width(m.second)
  {
    OrIsNotAnd(ts[k]);
  }

  lemma {:induction false} OrParses(env: Env, ts: Tokens, i: nat, j: nat, m: Marker, left: bool)
    requires WellFormed(env, m) && Placed(ts, i, m) && j == i + Width(m) && !IsAnd(ts[j])
    ensures OrGets(env, ts, i, left, j, left || Meaning(env, m))
    decreases m, 4
  {
    if m.Or? {
      var k, v, w := i + Width(m.first), left || Meaning(env, m.first), left || Meaning(env, m);
      OrPlaced(env, ts, i, m, k);
      OrParses(env, ts, i, k, m.first, left);
      OrParses(env, ts, k + 1, j, m.second, v);
      assert w == (v || Meaning(env, m.second));
      OrGetsOn(env, ts, i, left, k, v, j, w);
    } else {
      OrTermParses(env, ts, i, m, left);
    }
  }

  lemma DisjunctionParses(env: Env, ts: Tokens, i: nat, m: Marker)
    requires WellFormed(env, m) && Placed(ts, i, m)
    requires !IsAnd(ts[i + Width(m)]) && !IsOr(ts[i + Width(m)])
    ensures OrGives(env, ts, i, i + Width(m), Meaning(env, m))
    decreases m, 5
  {
    OrParses(env, ts, i, i + Width(m), m, false);
  }

  // ----- And whatever is evaluated is a marker -----

  /** A marker printed between two positions, with the given meaning. */
  ghost predicate Reads(env: Env, ts: seq<Token>, i: nat, j: nat, v: bool, m: Marker) {
    i <= j < |ts| && WellFormed(env, m) && ts[i..j] == Print(m) && Meaning(env, m) == v
  }

  lemma JoinReads(env: Env, ts: seq<Token>, i: nat, k: nat, j: nat, a: Marker, b: Marker)
    requires i <= k < j < |ts| && WellFormed(env, a) && WellFormed(env, b)
    requires ts[i..k] == Print(a) && ts[k + 1..j] == Print(b)
    ensures ts[i..j] == Print(a) + [ts[k]] + Print(b)
  {
  }

  lemma EndsApart(ts: seq<Token>, i: nat, j: nat)
    requires i < j < |ts|
    ensures ts[i..j + 1] == [ts[i]] + ts[i + 1..j] + [ts[j]]
  {
  }

  lemma OperatorReads(ts: Tokens, i: nat)
    requires i < |ts| && ParseOperator(ts, i).Ok?
    ensures var r := ParseOperator(ts, i).value; OperatorOf(ts[i..r.1]) == Some(r.0)
  {
  }

  lemma ComparisonReads(env: Env, ts: Tokens, i: nat) returns (m: Marker)
    requires i < |ts| && ParseTerm(env, ts, i).Ok? && !ts[i].kind.LeftParen?
    ensures var r := ParseTerm(env, ts, i).value; Reads(env, ts, i, r.1, r.0, m) && IsTerm(m)
  {
    var op := ParseOperator(ts, i + 1).value;
    var j := op.1;
    m := Comparison(ts[i], ts[i + 1..j], ts[j]);
    OperatorReads(ts, i + 1);
    EndsApart(ts, i, j);
  }

  lemma {:induction false} TermReads(env: Env, ts: Tokens, i: nat) returns (m: Marker)
    requires i < |ts| && ParseTerm(env, ts, i).Ok?
    ensures var r := ParseTerm(env, ts, i).value; Reads(env, ts, i, r.1, r.0, m) && IsTerm(m)
    decreases |ts| - i, 0
  {
    if ts[i].kind.LeftParen? {
      var inner := OrReads(env, ts, i + 1);
      var j := ParseOr(env, ts, i + 1).value.1;
      m := Group(inner);
      assert TokenOk(ts, i) && TokenOk(ts, j);
      EndsApart(ts, i, j);
    } else {
      m := ComparisonReads(env, ts, i);
    }
  }

  lemma {:induction false} AndRestReads(env: Env, ts: Tokens, start: nat, i: nat, left: bool, read: Marker)
      returns (m: Marker)
    requires i < |ts| && Reads(env, ts, start, i, left, read) && !read.Or?
    requires AndRest(env, ts, i, left).Ok?
    ensures var r := AndRest(env, ts, i, left).value; Reads(env, ts, start, r.1, r.0, m) && !m.Or? && !IsAnd(ts[r.1])
    decreases |ts| - i, 2
  {
    if IsAnd(ts[i]) {
      var term := TermReads(env, ts, i + 1);
      var t := ParseTerm(env, ts, i + 1).value;
      var both := And(read, ts[i], term);
      JoinReads(env, ts, start, i, t.1, read, term);
      m := AndRestReads(env, ts, start, t.1, left && t.0, both);
    } else {
      m := read;
    }
  }

  lemma {:induction false} AndReads(env: Env, ts: Tokens, i: nat) returns (m: Marker)
    requires i < |ts| && ParseAnd(env, ts, i).Ok?
    ensures var r := ParseAnd(env, ts, i).value; Reads(env, ts, i, r.1, r.0, m) && !m.Or? && !IsAnd(ts[r.1])
    decreases |ts| - i, 3
  {
    var term := TermReads(env, ts, i);
    var t := ParseTerm(env, ts, i).value;
    m := AndRestReads(env, ts, i, t.1, t.0, term);
  }

  lemma {:induction false} OrRestReads(env: Env, ts: Tokens, start: nat, i: nat, left: bool, read: Marker)
      returns (m: Marker)
    requires i < |ts| && Reads(env, ts, start, i, left, read) && OrRest(env, ts, i, left).Ok?
    ensures var r := OrRest(env, ts, i, left).value; Reads(env, ts, start, r.1, r.0, m)
    decreases |ts| - i, 4
  {
    if IsOr(ts[i]) {
      var conjunction := AndReads(env, ts, i + 1);
      var c := ParseAnd(env, ts, i + 1).value;
      var both := Or(read, ts[i], conjunction);
      JoinReads(env, ts, start, i, c.1, read, conjunction);
      m := OrRestReads(env, ts, start, c.1, left || c.0, both);
    } else {
      m := read;
    }
  }

  lemma {:induction false} OrReads(env: Env, ts: Tokens, i: nat) returns (m: Marker)
    requires i < |ts| && ParseOr(env, ts, i).Ok?
    ensures var r := ParseOr(env, ts, i).value; Reads(env, ts, i, r.1, r.0, m)
    decreases |ts| - i, 5
  {
    var conjunction := AndReads(env, ts, i);
    var c := ParseAnd(env, ts, i).value;
    m := OrRestReads(env, ts, i, c.1, c.0, conjunction);
  }

  ghost predicate IsMarker(env: Env, ts: seq<Token>, v: bool) {
    exists m :: WellFormed(env, m) && ts == Print(m) + [END] && Meaning(env, m) == v
  }

  lemma MarkersEvaluate(env: Env, ts: Tokens, m: Marker)
    requires WellFormed(env, m) && ts == Print(m) + [END]
    ensures Evaluate(env, ts) == Ok(Meaning(env, m))
  {
    assert StandsAt(ts, 0, Print(m)) && ts[Width(m)] == END;
    PrintedIsPlaced(ts, 0, m);
    DisjunctionParses(env, ts, 0, m);
  }

  lemma EvaluatedIsMarker(env: Env, ts: Tokens, v: bool)
    requires Evaluate(env, ts) == Ok(v)
    ensures IsMarker(env, ts, v)
  {
    var m := OrReads(env, ts, 0);
    var j := ParseOr(env, ts, 0).value.1;
    assert TokenOk(ts, j);
    assert ts == ts[0..j] + [ts[j]];
  }

  /**
   A token list evaluates to a value exactly when it prints a marker of that meaning; every other
   list is an error.
   */
  lemma EvaluatesExactlyMarkers(env: Env, ts: Tokens, v: bool)
    ensures Evaluate(env, ts) == Ok(v) <==> IsMarker(env, ts, v)
  {
    if Evaluate(env, ts) == Ok(v) {
      EvaluatedIsMarker(env, ts, v);
    }
    if IsMarker(env, ts, v) {
      var m :| WellFormed(env, m) && ts == Print(m) + [END] && Meaning(env, m) == v;
      MarkersEvaluate(env, ts, m);
    }
  }
}
