/** Expanding `${NAME}` and `${NAME:-fallback}` in configured paths by rewriting
    the last opening until none is left. */
module TemplateExpansion {
  import opened Wrappers
  import opened Text

  type Env = string -> Option<string>

  const OPEN: string := "${"
  const DEFAULT: string := ":-"

  // ------------------------------------------------------------------ one rewrite

  /** Where the last `${` is. */
  function LastOpen(s: string): (r: Option<nat>)
    ensures r.Some? ==> OccursAt(s, OPEN, r.value) && forall j: nat | j > r.value :: !OccursAt(s, OPEN, j)
    ensures r.None? ==> forall j: nat :: !OccursAt(s, OPEN, j)
  {
    LastOpenUpTo(s, |s|)
  }

  function LastOpenUpTo(s: string, n: nat): (r: Option<nat>)
    requires n <= |s|
    ensures r.Some? ==> r.value < n && OccursAt(s, OPEN, r.value) && forall j | r.value < j < n :: !OccursAt(s, OPEN, j)
    ensures r.None? ==> forall j: nat | j < n :: !OccursAt(s, OPEN, j)
  {
    if n == 0 then None
    else if OccursAt(s, OPEN, n - 1) then Some(n - 1)
    else LastOpenUpTo(s, n - 1)
  }

  /** What an expression stands for: a variable, or a default when the variable
      is unset or empty. */
  function ExpandExpr(env: Env, expr: string): string {
    match Find(expr, DEFAULT)
    case Some(k) =>
      var value, fallback := env(expr[..k]), expr[k + 2..];
      if value.Some? && value.value != "" then value.value else fallback
    case None =>
      match env(expr) case Some(value) => value case None => ""
  }

  datatype Rewrite = Finished | Unterminated | Next(text: string)

  function Step(env: Env, s: string): Rewrite {
    match LastOpen(s)
    case None => Finished
    case Some(start) =>
      var end := start + IndexOf(s[start..], '}');
      if end == |s| then Unterminated
      else
        OpenBraces(s, start);
        Next(s[..start] + ExpandExpr(env, s[start + 2..end]) + s[end + 1..])
  }

  /** The text after exactly `n` rewrites, when there are that many. */
  function After(env: Env, s: string, n: nat): Option<string> {
    if n == 0 then Some(s)
    else
      match After(env, s, n - 1)
      case None => None
      case Some(u) => match Step(env, u) case Next(v) => Some(v) case _ => None
  }

  ghost predicate StopsAfter(env: Env, s: string, n: nat) {
    After(env, s, n).Some? && !Step(env, After(env, s, n).value).Next?
  }

  ghost predicate Halts(env: Env, s: string) {
    exists n: nat :: StopsAfter(env, s, n)
  }

  /** The outcome of rewriting until nothing is left to rewrite. */
  ghost predicate Yields(env: Env, s: string, r: Option<string>) {
    exists n: nat :: StopsAfter(env, s, n) &&
      var u := After(env, s, n).value;
      r == if Step(env, u).Finished? then Some(u) else None
  }

  lemma {:induction false} AfterStops(env: Env, s: string, n: nat, m: nat)
    requires StopsAfter(env, s, n) && m > n
    ensures After(env, s, m).None?
    decreases m
  {
    hide Step;
    if m > n + 1 { AfterStops(env, s, n, m - 1); }
  }

  /** There is at most one outcome. */
  lemma YieldsUnique(env: Env, s: string, a: Option<string>, b: Option<string>)
    requires Yields(env, s, a) && Yields(env, s, b)
    ensures a == b
  {
    hide Step;
    var n: nat :| StopsAfter(env, s, n) && a == if Step(env, After(env, s, n).value).Finished? then After(env, s, n) else None;
    var m: nat :| StopsAfter(env, s, m) && b == if Step(env, After(env, s, m).value).Finished? then After(env, s, m) else None;
    if n < m { AfterStops(env, s, n, m); }
    if m < n { AfterStops(env, s, m, n); }
  }

  /** The loop.  Where the rewriting never stops there is no result to speak of,
      so the contract covers the inputs on which it does; `None` is the error
      for an opening without an end. */
  method ExpandVars(input: string, env: Env) returns (r: Option<string>)
    requires Halts(env, input)
    ensures Yields(env, input, r)
    ensures r.Some? ==> !Contains(r.value, OPEN)
  {
    hide After, ExpandExpr, LastOpen, Contains;
    ghost var total: nat :| StopsAfter(env, input, total);
    ghost var n: nat := 0;
    var output := input;
    AfterZero(env, input);
    while LastOpen(output).Some?
      invariant n <= total && After(env, input, n) == Some(output)
      decreases total - n
    {
      var start := LastOpen(output).value;
      OpenBraces(output, start);
      var relativeEnd := IndexOf(output[start..], '}');
      if start + relativeEnd == |output| {
        assert StopsAfter(env, input, n);
        return None;
      }
      var end := start + relativeEnd;
      var value := ExpandExpr(env, output[start + 2..end]);
      var next := output[..start] + value + output[end + 1..];
      assert Step(env, output) == Next(next);
      assert n != total;
      AfterNext(env, input, n, output, next);
      output := next;
      n := n + 1;
    }
    assert StopsAfter(env, input, n);
    NoOpen(output);
    return Some(output);
  }

  lemma AfterZero(env: Env, s: string)
    ensures After(env, s, 0) == Some(s)
  {
  }

  lemma AfterNext(env: Env, s: string, n: nat, u: string, v: string)
    requires After(env, s, n) == Some(u) && Step(env, u) == Next(v)
    ensures After(env, s, n + 1) == Some(v)
  {
  }

  /** An opening is two characters, so the end found after it lies past them. */
  lemma OpenBraces(s: string, start: nat)
    requires OccursAt(s, OPEN, start)
    ensures 2 <= IndexOf(s[start..], '}')
  {
  }

  lemma NoOpen(s: string)
    requires LastOpen(s).None?
    ensures !Contains(s, OPEN)
  {
  }

  // ------------------------------------------------------------------ termination

  ghost predicate ValuesOver(env: Env, sigma: set<char>) {
    forall name | env(name).Some? :: forall c | c in env(name).value :: c in sigma
  }

  ghost predicate ValuesLack(env: Env, c: char) {
    forall name | env(name).Some? :: c !in env(name).value
  }

  function Count(s: string, c: char): nat {
    multiset(s)[c]
  }

  lemma ExprCount(env: Env, expr: string, c: char)
    requires ValuesLack(env, c)
    ensures Count(ExpandExpr(env, expr), c) <= Count(expr, c)
  {
    var found := Find(expr, DEFAULT);
    if found.Some? {
      assert expr == expr[..found.value + 2] + expr[found.value + 2..];
    }
  }

  /** The whole text, taken apart at the last opening. */
  lemma StepParts(env: Env, s: string)
    requires Step(env, s).Next?
    ensures var start := LastOpen(s).value;
            var end := start + IndexOf(s[start..], '}');
            && start + 2 <= end < |s|
            && s == s[..start] + OPEN + s[start + 2..end] + "}" + s[end + 1..]
            && Step(env, s).text == s[..start] + ExpandExpr(env, s[start + 2..end]) + s[end + 1..]
  {
    hide ExpandExpr;
    var start := LastOpen(s).value;
    OpenBraces(s, start);
    var end := start + IndexOf(s[start..], '}');
    assert s[start..][end - start] == '}';
    assert s[start..start + 2] == OPEN;
  }

  /** Every rewrite uses up one of each of the three characters and brings in
      none that the values lack. */
  lemma StepDrops(env: Env, s: string, c: char)
    requires Step(env, s).Next? && ValuesLack(env, c) && c in "${}"
    ensures Count(Step(env, s).text, c) < Count(s, c)
  {
    StepParts(env, s);
    hide Step, ExpandExpr, ValuesLack;
    var start := LastOpen(s).value;
    var end := start + IndexOf(s[start..], '}');
    var a, expr, b := s[..start], s[start + 2..end], s[end + 1..];
    ExprCount(env, expr, c);
    assert multiset(s) == multiset(a) + multiset(OPEN) + multiset(expr) + multiset("}") + multiset(b);
    assert multiset(Step(env, s).text) == multiset(a) + multiset(ExpandExpr(env, expr)) + multiset(b);
    assert OPEN == ['$', '{'] && "}" == ['}'];
  }

  lemma {:induction false} AfterShift(env: Env, s: string, n: nat)
    requires Step(env, s).Next?
    ensures After(env, s, n + 1) == After(env, Step(env, s).text, n)
    decreases n
  {
    hide Step;
    if n > 0 { AfterShift(env, s, n - 1); } else { assert After(env, s, 0) == Some(s); }
  }

  /** If some character of `${}` occurs in no value, the loop ends within as many
      rewrites as the input has of that character. */
  lemma {:induction false} Terminates(env: Env, s: string, c: char) returns (n: nat)
    requires ValuesLack(env, c) && c in "${}"
    ensures StopsAfter(env, s, n) && n <= Count(s, c)
    decreases Count(s, c)
  {
    hide Step, ValuesLack, Count;
    n := 0;
    if Step(env, s).Next? {
      StepDrops(env, s, c);
      var v := Step(env, s).text;
      var m := Terminates(env, v, c);
      AfterShift(env, s, m);
      n := m + 1;
    }
  }

  lemma {:induction false} StaysPut(env: Env, s: string, n: nat)
    requires Step(env, s) == Next(s)
    ensures After(env, s, n) == Some(s)
    decreases n
  {
    hide Step;
    if n > 0 { StaysPut(env, s, n - 1); }
  }

  lemma LastOpenIs(s: string, k: nat)
    requires OccursAt(s, OPEN, k) && '$' !in s[k + 1..]
    ensures LastOpen(s) == Some(k)
  {
    forall j: nat | j > k ensures !OccursAt(s, OPEN, j) {
      OccursStart(s, OPEN, j);
      assert j < |s| ==> s[j] in s[k + 1..];
    }
  }

  /** A rewrite of the last opening, spelled out. */
  lemma StepAt(env: Env, a: string, expr: string, b: string)
    requires '$' !in expr && '$' !in b && '}' !in expr
    ensures Step(env, a + OPEN + expr + "}" + b) == Next(a + ExpandExpr(env, expr) + b)
  {
    hide ExpandExpr;
    var s := a + OPEN + expr + "}" + b;
    assert s[|a|..|a| + 2] == OPEN;
    assert s[|a| + 1..] == ['{'] + expr + "}" + b;
    LastOpenIs(s, |a|);
    var tail := OPEN + expr + "}" + b;
    assert s[|a|..] == tail;
    assert tail[..|expr| + 2] == OPEN + expr && tail[|expr| + 2] == '}';
    IndexOfUnique(tail, '}', |expr| + 2);
    assert s[|a| + 2..|a| + 2 + |expr|] == expr && s[|a| + |expr| + 3..] == b && s[..|a|] == a;
  }

  lemma StepAlone(env: Env, expr: string)
    requires '$' !in expr && '}' !in expr
    ensures Step(env, OPEN + expr + "}") == Next(ExpandExpr(env, expr))
  {
    hide Step, ExpandExpr;
    StepAt(env, "", expr, "");
    assert "" + OPEN + expr + "}" + "" == OPEN + expr + "}";
    assert "" + ExpandExpr(env, expr) + "" == ExpandExpr(env, expr);
  }

  /** A variable whose value refers to itself is rewritten forever. */
  lemma SelfReference(env: Env, name: string)
    requires '$' !in name && '}' !in name && !Contains(name, DEFAULT)
    requires env(name) == Some(OPEN + name + "}")
    ensures !Halts(env, OPEN + name + "}")
  {
    var s := OPEN + name + "}";
    assert ExpandExpr(env, name) == s;
    hide ExpandExpr, Contains, Step, After;
    StepAlone(env, name);
    forall n: nat ensures !StopsAfter(env, s, n) {
      StaysPut(env, s, n);
    }
  }

  /** Expansion ends for every input and every environment over an alphabet of
      values exactly when the alphabet lacks one of `$`, `{` and `}`. */
  lemma TerminatesIff(sigma: set<char>)
    ensures (forall env: Env, s | ValuesOver(env, sigma) :: Halts(env, s)) <==>
            '$' !in sigma || '{' !in sigma || '}' !in sigma
  {
    if '$' !in sigma || '{' !in sigma || '}' !in sigma {
      var c := if '$' !in sigma then '$' else if '{' !in sigma then '{' else '}';
      forall env: Env, s | ValuesOver(env, sigma) ensures Halts(env, s) {
        assert ValuesLack(env, c);
        var n := Terminates(env, s, c);
      }
    } else {
      var value := OPEN + "{" + "}";
      var env: Env := name => if name == "{" then Some(value) else None;
      assert ValuesOver(env, sigma);
      NoDefault("{");
      SelfReference(env, "{");
    }
  }

  lemma NoDefault(name: string)
    requires ':' !in name
    ensures !Contains(name, DEFAULT)
  {
    forall j: nat ensures !OccursAt(name, DEFAULT, j) { OccursStart(name, DEFAULT, j); }
  }

  // --------------------------------------------------------------------- meaning

  /** Nested templates, as a list of parts. */
  datatype Template =
    | End
    | Literal(text: string, rest: Template)
    | Variable(name: string, rest: Template)
    | WithDefault(name: string, fallback: Template, rest: Template)

  function Printed(t: Template): string {
    match t
    case End => ""
    case Literal(text, rest) => text + Printed(rest)
    case Variable(name, rest) => OPEN + name + "}" + Printed(rest)
    case WithDefault(name, fallback, rest) => OPEN + (name + DEFAULT + Printed(fallback)) + "}" + Printed(rest)
  }

  /** The value of a template, by recursion on its structure. */
  function Eval(env: Env, t: Template): string {
    match t
    case End => ""
    case Literal(text, rest) => text + Eval(env, rest)
    case Variable(name, rest) => (match env(name) case Some(v) => v case None => "") + Eval(env, rest)
    case WithDefault(name, fallback, rest) =>
      (if env(name).Some? && env(name).value != "" then env(name).value else Eval(env, fallback)) + Eval(env, rest)
  }

  predicate Plain(s: string) {
    '$' !in s && '{' !in s && '}' !in s
  }

  predicate PlainName(s: string) {
    Plain(s) && ':' !in s
  }

  predicate WellFormed(t: Template) {
    match t
    case End => true
    case Literal(text, rest) => Plain(text) && WellFormed(rest)
    case Variable(name, rest) => PlainName(name) && WellFormed(rest)
    case WithDefault(name, fallback, rest) => PlainName(name) && WellFormed(fallback) && WellFormed(rest)
  }

  ghost predicate PlainValues(env: Env) {
    forall name | env(name).Some? :: Plain(env(name).value)
  }

  lemma {:induction false} EvalPlain(env: Env, t: Template)
    requires PlainValues(env) && WellFormed(t)
    ensures Plain(Eval(env, t))
  {
    match t
    case End =>
    case Literal(_, rest) => EvalPlain(env, rest);
    case Variable(_, rest) => EvalPlain(env, rest);
    case WithDefault(_, fallback, rest) => EvalPlain(env, fallback); EvalPlain(env, rest);
  }

  lemma DefaultExpr(env: Env, name: string, fallback: string)
    requires PlainName(name)
    ensures ExpandExpr(env, name + DEFAULT + fallback) ==
            if env(name).Some? && env(name).value != "" then env(name).value else fallback
    ensures ExpandExpr(env, name) == match env(name) case Some(v) => v case None => ""
  {
    var expr := name + DEFAULT + fallback;
    OccursInside(name, DEFAULT, fallback);
    forall j: nat | j < |name| ensures !OccursAt(expr, DEFAULT, j) {
      OccursStart(expr, DEFAULT, j);
      assert expr[j] == name[j];
    }
    assert expr[..|name|] == name && expr[|name| + 2..] == fallback;
    NoDefault(name);
  }

  lemma {:induction false} AfterAdd(env: Env, s: string, n: nat, u: string, m: nat)
    requires After(env, s, n) == Some(u)
    ensures After(env, s, n + m) == After(env, u, m)
    decreases m
  {
    hide Step;
    if m > 0 { AfterAdd(env, s, n, u, m - 1); }
  }

  lemma AfterThen(env: Env, s: string, n: nat, u: string, m: nat, v: string)
    requires After(env, s, n) == Some(u) && After(env, u, m) == Some(v)
    ensures After(env, s, n + m) == Some(v)
  {
    AfterAdd(env, s, n, u, m);
  }

  /** Rewriting turns a printed template into its value wherever it stands with
      no `$` after it: the rest first, then a fallback, then the opening. */
  lemma {:induction false} RewritesToValue(env: Env, a: string, t: Template, b: string) returns (n: nat)
    requires PlainValues(env) && WellFormed(t) && '$' !in b
    ensures After(env, a + Printed(t) + b, n) == Some(a + Eval(env, t) + b)
    decreases t, 1
  {
    hide *;
    match t
    case End => n := RewritesEnd(env, a, b);
    case Literal(_, _) => n := RewritesLiteral(env, a, t, b);
    case Variable(_, _) => n := RewritesVariable(env, a, t, b);
    case WithDefault(_, _, _) => n := RewritesDefault(env, a, t, b);
  }

  lemma RewritesEnd(env: Env, a: string, b: string) returns (n: nat)
    ensures After(env, a + Printed(End) + b, n) == Some(a + Eval(env, End) + b)
  {
    n := 0;
    AfterZero(env, a + Printed(End) + b);
  }

  lemma {:induction false} RewritesLiteral(env: Env, a: string, t: Template, b: string) returns (n: nat)
    requires PlainValues(env) && WellFormed(t) && '$' !in b && t.Literal?
    ensures After(env, a + Printed(t) + b, n) == Some(a + Eval(env, t) + b)
    decreases t, 0
  {
    hide After, Step;
    n := RewritesToValue(env, a + t.text, t.rest, b);
    assert a + Printed(t) + b == a + t.text + Printed(t.rest) + b;
    assert a + Eval(env, t) + b == a + t.text + Eval(env, t.rest) + b;
  }

  /** One rewrite at the last opening, once what follows is a value. */
  lemma RewritesOpening(env: Env, s: string, k: nat, a: string, expr: string, value: string, b: string)
    requires Plain(expr) && Plain(value) && '$' !in b
    requires After(env, s, k) == Some(a + OPEN + expr + "}" + value + b)
    ensures After(env, s, k + 1) == Some(a + (ExpandExpr(env, expr) + value) + b)
  {
    hide After, Step, ExpandExpr;
    assert a + OPEN + expr + "}" + value + b == a + OPEN + expr + "}" + (value + b);
    StepAt(env, a, expr, value + b);
    assert a + (ExpandExpr(env, expr) + value) + b == a + ExpandExpr(env, expr) + (value + b);
    AfterNext(env, s, k, a + OPEN + expr + "}" + value + b, a + (ExpandExpr(env, expr) + value) + b);
  }

  lemma {:induction false} RewritesVariable(env: Env, a: string, t: Template, b: string) returns (n: nat)
    requires PlainValues(env) && WellFormed(t) && '$' !in b && t.Variable?
    ensures After(env, a + Printed(t) + b, n) == Some(a + Eval(env, t) + b)
    decreases t, 0
  {
    hide After, Step, ExpandExpr;
    EvalPlain(env, t.rest);
    var k := RewritesToValue(env, a + OPEN + t.name + "}", t.rest, b);
    var s := a + OPEN + t.name + "}" + Printed(t.rest) + b;
    RewritesOpening(env, s, k, a, t.name, Eval(env, t.rest), b);
    assert a + Printed(t) + b == s;
    DefaultExpr(env, t.name, "");
    n := k + 1;
  }

  lemma {:induction false} RewritesDefault(env: Env, a: string, t: Template, b: string) returns (n: nat)
    requires PlainValues(env) && WellFormed(t) && '$' !in b && t.WithDefault?
    ensures After(env, a + Printed(t) + b, n) == Some(a + Eval(env, t) + b)
    decreases t, 0
  {
    hide After, Step, ExpandExpr, Printed, Eval, PlainValues, Plain;
    var name, value, inner := t.name + DEFAULT, Eval(env, t.rest), Eval(env, t.fallback);
    EvalPlain(env, t.rest);
    EvalPlain(env, t.fallback);
    PlainTail(value, b);
    PlainExpr(t.name, inner);
    var tail := "}" + value + b;
    var k := RewritesToValue(env, a + OPEN + (name + Printed(t.fallback)) + "}", t.rest, b);
    var m := RewritesToValue(env, a + OPEN + name, t.fallback, tail);
    DefaultShape(env, a, t, b);
    hide WellFormed;
    var s := a + Printed(t) + b;
    Regroup(a, name, Printed(t.fallback), value, b);
    Regroup(a, name, inner, value, b);
    AfterThen(env, s, k, a + OPEN + name + Printed(t.fallback) + tail, m, a + OPEN + name + inner + tail);
    RewritesOpening(env, s, k + m, a, name + inner, value, b);
    n := k + m + 1;
  }

  lemma PlainTail(value: string, b: string)
    requires Plain(value) && '$' !in b
    ensures '$' !in "}" + value + b
  {
  }

  lemma PlainExpr(name: string, inner: string)
    requires PlainName(name) && Plain(inner)
    ensures Plain(name + DEFAULT + inner)
  {
  }

  lemma DefaultShape(env: Env, a: string, t: Template, b: string)
    requires t.WithDefault? && PlainName(t.name)
    ensures a + Printed(t) + b == a + OPEN + (t.name + DEFAULT + Printed(t.fallback)) + "}" + Printed(t.rest) + b
    ensures Eval(env, t) == ExpandExpr(env, t.name + DEFAULT + Eval(env, t.fallback)) + Eval(env, t.rest)
  {
    DefaultExpr(env, t.name, Eval(env, t.fallback));
    hide ExpandExpr;
  }

  lemma Regroup(a: string, x: string, y: string, value: string, b: string)
    ensures a + OPEN + (x + y) + "}" + value + b == a + OPEN + x + y + ("}" + value + b)
  {
  }

  /** Expanding a printed template yields its value. */
  lemma MeaningPreserved(env: Env, t: Template)
    requires PlainValues(env) && WellFormed(t)
    ensures Halts(env, Printed(t)) && Yields(env, Printed(t), Some(Eval(env, t)))
  {
    var n := RewritesToValue(env, "", t, "");
    assert "" + Printed(t) + "" == Printed(t) && "" + Eval(env, t) + "" == Eval(env, t);
    EvalPlain(env, t);
    NoOpenInPlain(Eval(env, t));
    assert StopsAfter(env, Printed(t), n);
  }

  lemma NoOpenInPlain(s: string)
    requires '$' !in s
    ensures LastOpen(s).None?
  {
    forall j: nat ensures !OccursAt(s, OPEN, j) { OccursStart(s, OPEN, j); }
  }
}
