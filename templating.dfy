/**
 * The part of Jinja the scaffolder relies on: `{{ name }}` placeholders in
 * literal text, looked up in a context map.  A template string is first
 * compiled into tokens (where Jinja reports syntax errors) and the tokens
 * are then evaluated against the context (where an unbound name fails
 * under the strict policy).
 */
module Templating {
  import opened Results

  type Context = map<string, string>

  datatype Token = Lit(c: char) | Var(name: string)

  datatype RenderError = SyntaxError | UndefinedVariable(name: string)

  /** What an unbound name renders as: Jinja's default `Undefined` prints nothing, `StrictUndefined` raises. */
  datatype UndefinedPolicy = Lenient | Strict

  /** The options of a Jinja `Environment` that change what rendering produces. */
  datatype Environment = Environment(undefined: UndefinedPolicy, keepTrailingNewline: bool)

  /** Jinja's defaults: lenient undefined names, one trailing newline dropped. */
  const DefaultEnvironment := Environment(Lenient, false)

  predicate IsBlank(c: char) {
    c == ' ' || c == '\t' || c == '\n' || c == '\r'
  }

  function TrimStart(s: string): string {
    if |s| > 0 && IsBlank(s[0]) then TrimStart(s[1..]) else s
  }

  function TrimEnd(s: string): string {
    if |s| > 0 && IsBlank(s[|s| - 1]) then TrimEnd(s[..|s| - 1]) else s
  }

  function Trim(s: string): string {
    TrimEnd(TrimStart(s))
  }

  predicate IsNameStart(c: char) {
    ('a' <= c <= 'z') || ('A' <= c <= 'Z') || c == '_'
  }

  predicate IsNameChar(c: char) {
    IsNameStart(c) || ('0' <= c <= '9')
  }

  /** A variable name as Jinja accepts it inside `{{ }}`. */
  predicate IsName(s: string) {
    |s| > 0 && IsNameStart(s[0]) && forall i :: 1 <= i < |s| ==> IsNameChar(s[i])
  }

  predicate OpensAt(s: string, k: int) {
    0 <= k && k + 1 < |s| && s[k] == '{' && s[k + 1] == '{'
  }

  predicate ClosesAt(s: string, k: int) {
    0 <= k && k + 1 < |s| && s[k] == '}' && s[k + 1] == '}'
  }

  /** The first `}}` at or after `from`. */
  function FindClose(s: string, from: nat): (r: Option<nat>)
    decreases |s| - from
    ensures r.Some? ==> from <= r.value && ClosesAt(s, r.value)
    ensures r.Some? ==> forall k :: from <= k < r.value ==> !ClosesAt(s, k)
    ensures r.None? ==> forall k :: from <= k ==> !ClosesAt(s, k)
  {
    if from + 1 >= |s| then None
    else if ClosesAt(s, from) then Some(from)
    else FindClose(s, from + 1)
  }

  /** Split a template into literal characters and placeholders; the only error is a syntax error. */
  function Lex(s: string): (r: Result<seq<Token>, RenderError>)
    decreases |s|
    ensures r.Failure? ==> r.error == SyntaxError
  {
    if |s| == 0 then Success([])
    else if OpensAt(s, 0) then
      match FindClose(s, 2)
      case None => Failure(SyntaxError)
      case Some(j) =>
        var name := Trim(s[2..j]);
        if !IsName(name) then Failure(SyntaxError)
        else
          match Lex(s[j + 2..])
          case Failure(e) => Failure(e)
          case Success(rest) => Success([Var(name)] + rest)
    else
      match Lex(s[1..])
      case Failure(e) => Failure(e)
      case Success(rest) => Success([Lit(s[0])] + rest)
  }

  /** The character a text starts with, after line-break normalisation. */
  function Head(s: string): char
    requires |s| > 0
  {
    if s[0] == '\r' then '\n' else s[0]
  }

  /** How many characters the first character or line break of a text takes. */
  function BreakLength(s: string): (n: nat)
    requires |s| > 0
    ensures 1 <= n <= |s|
  {
    if s[0] == '\r' && |s| > 1 && s[1] == '\n' then 2 else 1
  }

  /**
   * Jinja's lexer reads `\r\n`, `\r` and `\n` alike as one line break and
   * writes it as `\n`.
   */
  function NormalizeNewlines(s: string): (r: string)
    ensures '\r' !in r
    ensures |r| <= |s|
    decreases |s|
  {
    if |s| == 0 then "" else [Head(s)] + NormalizeNewlines(s[BreakLength(s)..])
  }

  /** Text without a carriage return is already normalised. */
  lemma {:induction false} NormalizeWithoutCR(s: string)
    requires '\r' !in s
    ensures NormalizeNewlines(s) == s
  {
    if |s| > 0 {
      assert '\r' !in s[1..] by {
        forall k | 0 <= k < |s| - 1 ensures s[1..][k] != '\r' {
          assert s[1..][k] == s[k + 1];
        }
      }
      NormalizeWithoutCR(s[1..]);
      assert [s[0]] + s[1..] == s;
    }
  }

  /**
   * Normalising a concatenation normalises the parts, when the second part
   * holds no carriage return and does not complete a `\r\n` begun by the
   * first.
   */
  lemma {:induction false} NormalizeAppend(s: string, t: string)
    requires '\r' !in t
    requires |s| > 0 && s[|s| - 1] == '\r' ==> |t| == 0 || t[0] != '\n'
    ensures NormalizeNewlines(s + t) == NormalizeNewlines(s) + t
    decreases |s|
  {
    if |s| == 0 {
      assert s + t == t;
      NormalizeWithoutCR(t);
    } else {
      var k := BreakLength(s);
      assert BreakLength(s + t) == k && Head(s + t) == Head(s) by {
        if |s| == 1 && |t| > 0 {
          assert (s + t)[1] == t[0];
        }
      }
      assert (s + t)[k..] == s[k..] + t;
      NormalizeAppend(s[k..], t);
      assert [Head(s)] + (NormalizeNewlines(s[k..]) + t) == ([Head(s)] + NormalizeNewlines(s[k..])) + t;
    }
  }

  /**
   * Loading a template: line breaks are normalised, a final one is dropped
   * unless the environment keeps it, and the text is lexed.  Only a syntax
   * error can occur, and text without carriage returns is lexed as it is
   * under `keep_trailing_newline`.
   */
  function Compile(env: Environment, s: string): (r: Result<seq<Token>, RenderError>)
    ensures r.Failure? ==> r.error == SyntaxError
    ensures env.keepTrailingNewline && '\r' !in s ==> r == Lex(s)
  {
    var lines := NormalizeNewlines(s);
    assert '\r' !in s ==> lines == s by {
      if '\r' !in s { NormalizeWithoutCR(s); }
    }
    var source := if !env.keepTrailingNewline && |lines| > 0 && lines[|lines| - 1] == '\n' then lines[..|lines| - 1] else lines;
    Lex(source)
  }

  /** The variable names a token sequence refers to. */
  function Vars(ts: seq<Token>): set<string> {
    if |ts| == 0 then {}
    else (if ts[0].Var? then {ts[0].name} else {}) + Vars(ts[1..])
  }

  /**
   * Rendering compiled tokens: literals are copied, bound names replaced
   * verbatim by their value.  It can only fail under the strict policy, on
   * an unbound name.
   */
  function Eval(ts: seq<Token>, ctx: Context, policy: UndefinedPolicy): (r: Result<string, RenderError>)
    ensures r.Failure? ==> policy == Strict && r.error.UndefinedVariable? && r.error.name !in ctx
  {
    if |ts| == 0 then Success("")
    else
      var head: Result<string, RenderError> :=
        match ts[0]
        case Lit(c) => Success([c])
        case Var(n) =>
          if n in ctx then Success(ctx[n])
          else if policy == Strict then Failure(UndefinedVariable(n))
          else Success("");
      match head
      case Failure(e) => Failure(e)
      case Success(h) =>
        match Eval(ts[1..], ctx, policy)
        case Failure(e) => Failure(e)
        case Success(t) => Success(h + t)
  }

  /**
   * `env.from_string(s).render(**ctx)`: it fails with a syntax error, or
   * under the strict policy with an unbound name.
   */
  function Render(env: Environment, s: string, ctx: Context): (r: Result<string, RenderError>)
    ensures r.Failure? ==>
      r.error == SyntaxError || (env.undefined == Strict && r.error.UndefinedVariable? && r.error.name !in ctx)
  {
    match Compile(env, s)
    case Failure(e) => Failure(e)
    case Success(ts) => Eval(ts, ctx, env.undefined)
  }

  /** Every name the template refers to is bound: what a strict render needs. */
  predicate FullyBound(env: Environment, s: string, ctx: Context) {
    Compile(env, s).Success? && Vars(Compile(env, s).value) <= ctx.Keys
  }

  /**
   * Strict evaluation succeeds exactly when every referenced name is bound,
   * and a failure names a referenced, unbound variable.
   */
  lemma {:induction false} StrictEvalIff(ts: seq<Token>, ctx: Context)
    ensures Eval(ts, ctx, Strict).Success? <==> Vars(ts) <= ctx.Keys
    ensures Eval(ts, ctx, Strict).Failure? ==>
      Eval(ts, ctx, Strict).error.UndefinedVariable? &&
      Eval(ts, ctx, Strict).error.name in Vars(ts) &&
      Eval(ts, ctx, Strict).error.name !in ctx
  {
    if |ts| > 0 {
      StrictEvalIff(ts[1..], ctx);
    }
  }

  /** Under the strict policy a template renders exactly when it is well formed and fully bound. */
  lemma StrictRenderIff(env: Environment, s: string, ctx: Context)
    requires env.undefined == Strict
    ensures Render(env, s, ctx).Success? <==> FullyBound(env, s, ctx)
    ensures Compile(env, s).Success? && Render(env, s, ctx).Failure? ==>
      Render(env, s, ctx).error.UndefinedVariable? && Render(env, s, ctx).error.name !in ctx
  {
    if Compile(env, s).Success? {
      StrictEvalIff(Compile(env, s).value, ctx);
    }
  }

  /** Lenient evaluation never fails on a name. */
  lemma {:induction false} LenientEvalSucceeds(ts: seq<Token>, ctx: Context)
    ensures Eval(ts, ctx, Lenient).Success?
  {
    if |ts| > 0 {
      LenientEvalSucceeds(ts[1..], ctx);
    }
  }

  /** Only the referenced names matter: contexts that agree on them render alike. */
  lemma {:induction false} EvalReadsOnlyVars(ts: seq<Token>, c1: Context, c2: Context, policy: UndefinedPolicy)
    requires forall n :: n in Vars(ts) ==> (n in c1 <==> n in c2)
    requires forall n :: n in Vars(ts) && n in c1 ==> c1[n] == c2[n]
    ensures Eval(ts, c1, policy) == Eval(ts, c2, policy)
  {
    if |ts| > 0 {
      EvalReadsOnlyVars(ts[1..], c1, c2, policy);
    }
  }

  lemma {:induction false} EvalAppend(t1: seq<Token>, t2: seq<Token>, ctx: Context, policy: UndefinedPolicy)
    ensures Eval(t1 + t2, ctx, policy) ==
      match Eval(t1, ctx, policy)
      case Failure(e) => Failure(e)
      case Success(a) =>
        match Eval(t2, ctx, policy)
        case Failure(e) => Failure(e)
        case Success(b) => Success(a + b)
  {
    if |t1| == 0 {
      assert t1 + t2 == t2;
      match Eval(t2, ctx, policy)
      case Failure(e) =>
      case Success(b) => assert "" + b == b;
    } else {
      assert (t1 + t2)[1..] == t1[1..] + t2;
      EvalAppend(t1[1..], t2, ctx, policy);
      match Eval(t1[1..], ctx, policy)
      case Failure(e) =>
      case Success(a) =>
        match Eval(t2, ctx, policy)
        case Failure(e) =>
        case Success(b) =>
          match t1[0]
          case Lit(c) => assert [c] + (a + b) == ([c] + a) + b;
          case Var(n) =>
            if n in ctx {
              assert ctx[n] + (a + b) == (ctx[n] + a) + b;
            } else {
              assert "" + (a + b) == ("" + a) + b;
            }
    }
  }

  /** One literal token per character. */
  function Lits(t: string): (r: seq<Token>)
    ensures |r| == |t|
  {
    if |t| == 0 then [] else [Lit(t[0])] + Lits(t[1..])
  }

  lemma {:induction false} LexPlainText(t: string)
    requires forall k :: !OpensAt(t, k)
    ensures Lex(t) == Success(Lits(t))
  {
    if |t| > 0 {
      assert forall k :: OpensAt(t[1..], k) ==> OpensAt(t, k + 1);
      LexPlainText(t[1..]);
    }
  }

  lemma {:induction false} EvalLits(t: string, ctx: Context, policy: UndefinedPolicy)
    ensures Eval(Lits(t), ctx, policy) == Success(t)
  {
    if |t| > 0 {
      EvalLits(t[1..], ctx, policy);
      assert Lits(t)[1..] == Lits(t[1..]);
      assert [t[0]] + t[1..] == t;
    }
  }

  /** Text with no `{{` and no carriage return comes out of rendering unchanged, whatever the context. */
  lemma PlainTextRendersToItself(s: string, ctx: Context, policy: UndefinedPolicy)
    requires forall k :: !OpensAt(s, k)
    requires '\r' !in s
    ensures Render(Environment(policy, true), s, ctx) == Success(s)
  {
    LexPlainText(s);
    EvalLits(s, ctx, policy);
  }

  lemma {:induction false} FindCloseExtends(s: string, t: string, from: nat)
    requires FindClose(s, from).Some?
    ensures FindClose(s + t, from) == FindClose(s, from)
    decreases |s| - from
  {
    if !ClosesAt(s, from) {
      FindCloseExtends(s, t, from + 1);
    }
  }

  lemma {:induction false} LexAppendText(s: string, t: string)
    requires Lex(s).Success?
    requires '{' !in t
    ensures Lex(s + t) == Success(Lex(s).value + Lits(t))
    decreases |s|
  {
    if |s| == 0 {
      assert s + t == t;
      LexPlainText(t);
      assert Lex(s).value + Lits(t) == Lits(t);
    } else if OpensAt(s, 0) {
      var j := FindClose(s, 2).value;
      FindCloseExtends(s, t, 2);
      assert (s + t)[2..j] == s[2..j];
      assert (s + t)[j + 2..] == s[j + 2..] + t;
      LexAppendText(s[j + 2..], t);
      var name := Trim(s[2..j]);
      assert OpensAt(s + t, 0);
      var rest := Lex(s[j + 2..]).value;
      assert Lex(s).value == [Var(name)] + rest;
      assert [Var(name)] + (rest + Lits(t)) == ([Var(name)] + rest) + Lits(t);
    } else {
      assert !OpensAt(s + t, 0) by {
        if |s| == 1 && |t| > 0 {
          assert (s + t)[1] == t[0];
        }
      }
      assert (s + t)[1..] == s[1..] + t;
      LexAppendText(s[1..], t);
      var rest := Lex(s[1..]).value;
      assert Lex(s).value == [Lit(s[0])] + rest;
      assert [Lit(s[0])] + (rest + Lits(t)) == ([Lit(s[0])] + rest) + Lits(t);
    }
  }

  /**
   * Literal text after a template (a trailing newline, say) is kept in the
   * output when the environment keeps trailing newlines.
   */
  lemma RenderKeepsAppendedText(policy: UndefinedPolicy, s: string, t: string, ctx: Context)
    requires Render(Environment(policy, true), s, ctx).Success?
    requires '{' !in t && '\r' !in t
    requires |s| > 0 && s[|s| - 1] == '\r' ==> |t| == 0 || t[0] != '\n'
    ensures Render(Environment(policy, true), s + t, ctx) == Success(Render(Environment(policy, true), s, ctx).value + t)
  {
    var n := NormalizeNewlines(s);
    NormalizeAppend(s, t);
    LexAppendText(n, t);
    EvalAppend(Lex(n).value, Lits(t), ctx, policy);
    EvalLits(t, ctx, policy);
  }

  lemma TrimName(n: string)
    requires IsName(n)
    ensures Trim(n) == n
  {
    assert TrimStart(n) == n;
  }

  /** `{{n}}` lexes to one placeholder. */
  lemma PlaceholderLex(n: string)
    requires IsName(n)
    ensures Lex("{{" + n + "}}") == Success([Var(n)])
  {
    var s := "{{" + n + "}}";
    var j := |n| + 2;
    assert forall k :: 2 <= k < j ==> !ClosesAt(s, k) by {
      forall k | 2 <= k < j ensures !ClosesAt(s, k) {
        assert s[k] == n[k - 2];
        assert n[k - 2] != '}' by { if k == 2 {} else { assert IsNameChar(n[k - 2]); } }
      }
    }
    assert ClosesAt(s, j);
    FindCloseFirst(s, 2, j);
    assert s[2..j] == n;
    TrimName(n);
    assert s[j + 2..] == "";
    assert OpensAt(s, 0);
    assert Lex(s[j + 2..]) == Success([]);
    assert [Var(n)] + [] == [Var(n)];
  }

  /** `{{n}}` compiles to one placeholder under any environment. */
  lemma PlaceholderCompiles(env: Environment, n: string)
    requires IsName(n)
    ensures Compile(env, "{{" + n + "}}") == Success([Var(n)])
  {
    var s := "{{" + n + "}}";
    PlaceholderIsNormal(n);
    PlaceholderLex(n);
    assert s[|s| - 1] == '}';
  }

  /**
   * A placeholder is replaced by the bound value, unescaped; an unbound
   * name fails under the strict policy and prints nothing under the
   * lenient one.
   */
  lemma PlaceholderRender(env: Environment, n: string, ctx: Context)
    requires IsName(n)
    ensures Render(env, "{{" + n + "}}", ctx) ==
      if n in ctx then Success(ctx[n])
      else if env.undefined == Strict then Failure(UndefinedVariable(n))
      else Success("")
  {
    PlaceholderCompiles(env, n);
    assert [Var(n)][1..] == [];
    assert Eval([Var(n)][1..], ctx, env.undefined) == Success("");
    if n in ctx {
      assert ctx[n] + "" == ctx[n];
    } else {
      assert "" + "" == "";
    }
  }

  /** A placeholder holds no carriage return, so loading leaves it as it is. */
  lemma PlaceholderIsNormal(n: string)
    requires IsName(n)
    ensures NormalizeNewlines("{{" + n + "}}") == "{{" + n + "}}"
  {
    var s := "{{" + n + "}}";
    forall k | 0 <= k < |s| ensures s[k] != '\r' {
      if 2 <= k < |n| + 2 {
        assert s[k] == n[k - 2];
        if k > 2 { assert IsNameChar(n[k - 2]); }
      }
    }
    NormalizeWithoutCR(s);
  }

  lemma {:induction false} FindCloseFirst(s: string, from: nat, j: nat)
    requires from <= j && ClosesAt(s, j)
    requires forall k :: from <= k < j ==> !ClosesAt(s, k)
    ensures FindClose(s, from) == Some(j)
    decreases j - from
  {
    if from < j {
      FindCloseFirst(s, from + 1, j);
    }
  }

  /** The renderer's strict option is what turns an unbound name from empty text into an error. */
  lemma StrictnessMatters(n: string, ctx: Context)
    requires IsName(n) && n !in ctx
    ensures Render(DefaultEnvironment, "{{" + n + "}}", ctx) == Success("")
    ensures Render(Environment(Strict, true), "{{" + n + "}}", ctx) == Failure(UndefinedVariable(n))
  {
    PlaceholderRender(DefaultEnvironment, n, ctx);
    PlaceholderRender(Environment(Strict, true), n, ctx);
  }
}
