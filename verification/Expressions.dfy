/** Arithmetic expressions: the shift-reduce parser with its precedences, and the printer. */
module Expressions {
  import opened Options

  datatype Token = VALUE(v: int) | ID(name: string) | DOT | ADD | SUB | STAR | DIV | LBRACE | RBRACE

  /** The attribute after an optional table name; a star stands for all attributes. */
  datatype Column = Named(name: string) | AllColumns

  datatype Node =
    | Binary(op: Token, l: Ast, r: Ast)
    | Negation(r: Ast)
    | Constant(v: int)
    | Attribute(relation: Option<string>, column: Column)

  /** A node and the braces around it. */
  datatype Ast = Ast(node: Node, lBrace: nat, rBrace: nat)

  predicate IsOperator(t: Token) {
    t == ADD || t == SUB || t == STAR || t == DIV
  }

  /** `%left ADD SUB` is declared before, hence below, `%left STAR DIV`; 0 is for tokens that
      are no operators. */
  function Precedence(t: Token): nat {
    match t
    case ADD => 1
    case SUB => 1
    case STAR => 2
    case DIV => 2
    case _ => 0
  }

  // ---- printing ---------------------------------------------------------------------------------

  function Repeat(t: Token, n: nat): (r: seq<Token>)
    ensures |r| == n && forall i :: 0 <= i < n ==> r[i] == t
  {
    seq(n, _ => t)
  }

  function NodeTokens(n: Node): seq<Token> {
    match n
    case Binary(op, l, r) => Tokens(l) + [op] + Tokens(r)
    case Negation(r) => [SUB] + Tokens(r)
    case Constant(v) => [VALUE(v)]
    case Attribute(relation, column) =>
      (if relation.Some? then [ID(relation.value), DOT] else [])
      + [if column.Named? then ID(column.name) else STAR]
  }

  /** What AstUtil::Print writes, token by token. */
  function Tokens(a: Ast): seq<Token> {
    Repeat(LBRACE, a.lBrace) + NodeTokens(a.node) + Repeat(RBRACE, a.rBrace)
  }

  /** The printer appends an expression to what it has written. */
  method Print(text: seq<Token>, a: Ast) returns (r: seq<Token>)
    ensures r == text + Tokens(a)
    decreases a
  {
    r := text;
    for i := 0 to a.lBrace
      invariant r == text + Repeat(LBRACE, i)
    {
      r := r + [LBRACE];
    }
    match a.node {
      case Binary(op, left, right) =>
        r := Print(r, left);
        r := r + [op];
        r := Print(r, right);
      case Negation(right) =>
        r := r + [SUB];
        r := Print(r, right);
      case Constant(v) =>
        r := r + [VALUE(v)];
      case Attribute(relation, column) =>
        if relation.Some? {
          r := r + [ID(relation.value), DOT];
        }
        r := r + [if column.Named? then ID(column.name) else STAR];
    }
    assert r == text + Repeat(LBRACE, a.lBrace) + NodeTokens(a.node);
    for i := 0 to a.rBrace
      invariant r == text + Repeat(LBRACE, a.lBrace) + NodeTokens(a.node) + Repeat(RBRACE, i)
    {
      r := r + [RBRACE];
    }
  }

  // ---- parsing ------------------------------------------------------------------------------------

  /** What is on the parser's stack: tokens that have been shifted, and expressions. */
  datatype Symbol = T(token: Token) | E(exp: Ast)

  datatype Config = Config(stack: seq<Symbol>, rest: seq<Token>)

  datatype Action = Shift | ShiftOperand(exp: Ast, length: nat) | ReduceBinary | ReduceNegation | ReduceBraces | Accept | Error

  function Leaf(n: Node): Ast { Ast(n, 0, 0) }

  /** The next token; at the end there is none, and any that is no operator will do. */
  function Lookahead(rest: seq<Token>): Token {
    if rest == [] then RBRACE else rest[0]
  }

  /** An expression is on top of the stack: it is reduced with what stands before it unless the
      next token binds more strongly. */
  function ActionAfterExp(c: Config): Action
    requires c.stack != [] && c.stack[|c.stack| - 1].E?
  {
    var n, la := |c.stack|, Lookahead(c.rest);
    if n >= 3 && c.stack[n - 2].T? && IsOperator(c.stack[n - 2].token) && c.stack[n - 3].E? then
      if Precedence(la) > Precedence(c.stack[n - 2].token) then Shift else ReduceBinary
    else if n >= 2 && c.stack[n - 2] == T(SUB) then
      if Precedence(la) > Precedence(SUB) then Shift else ReduceNegation
    else if n >= 2 && c.stack[n - 2] == T(LBRACE) then
      if c.rest == [] then Error else if la == RBRACE then ReduceBraces else if IsOperator(la) then Shift else Error
    else if n == 1 then
      if c.rest == [] then Accept else if IsOperator(la) then Shift else Error
    else Error
  }

  /** An operand is to come. */
  function ActionBeforeExp(c: Config): Action {
    if c.rest == [] then Error
    else match c.rest[0]
      case VALUE(v) => ShiftOperand(Leaf(Constant(v)), 1)
      case ID(name) =>
        if |c.rest| >= 2 && c.rest[1] == DOT then
          if |c.rest| >= 3 && c.rest[2].ID? then ShiftOperand(Leaf(Attribute(Some(name), Named(c.rest[2].name))), 3)
          else if |c.rest| >= 3 && c.rest[2] == STAR then ShiftOperand(Leaf(Attribute(Some(name), AllColumns)), 3)
          else Error
        else ShiftOperand(Leaf(Attribute(None, Named(name))), 1)
      case SUB => Shift
      case LBRACE => Shift
      case _ => Error
  }

  function ActionOf(c: Config): (a: Action)
    ensures a.Shift? ==> c.rest != []
    ensures a.ShiftOperand? ==> 1 <= a.length <= |c.rest|
    ensures a.ReduceBinary? ==> |c.stack| >= 3 && c.stack[|c.stack| - 1].E? && c.stack[|c.stack| - 2].T? && c.stack[|c.stack| - 3].E?
    ensures a.ReduceNegation? ==> |c.stack| >= 2 && c.stack[|c.stack| - 1].E?
    ensures a.ReduceBraces? ==> |c.stack| >= 2 && c.stack[|c.stack| - 1].E? && c.rest != []
    ensures a.Accept? ==> |c.stack| == 1 && c.stack[0].E?
  {
    if c.stack != [] && c.stack[|c.stack| - 1].E? then ActionAfterExp(c) else ActionBeforeExp(c)
  }

  /** One more pair of braces around an expression. */
  function Brace(a: Ast): Ast {
    Ast(a.node, a.lBrace + 1, a.rBrace + 1)
  }

  function Step(c: Config): Config
    requires !ActionOf(c).Accept? && !ActionOf(c).Error?
  {
    var s, n := c.stack, |c.stack|;
    match ActionOf(c)
    case Shift => Config(s + [T(c.rest[0])], c.rest[1..])
    case ShiftOperand(e, length) => Config(s + [E(e)], c.rest[length..])
    case ReduceBinary => Config(s[..n - 3] + [E(Leaf(Binary(s[n - 2].token, s[n - 3].exp, s[n - 1].exp)))], c.rest)
    case ReduceNegation => Config(s[..n - 2] + [E(Leaf(Negation(s[n - 1].exp)))], c.rest)
    case ReduceBraces => Config(s[..n - 2] + [E(Brace(s[n - 1].exp))], c.rest[1..])
  }

  /** The parser from a configuration on. */
  function Run(c: Config): Option<Ast>
    decreases 2 * |c.rest| + |c.stack|
  {
    match ActionOf(c)
    case Accept => Some(c.stack[0].exp)
    case Error => None
    case _ => Run(Step(c))
  }

  function Parse(ts: seq<Token>): Option<Ast> {
    Run(Config([], ts))
  }

  /** The loop of the parser over its stack. */
  method RunParser(ts: seq<Token>) returns (r: Option<Ast>)
    ensures r == Parse(ts)
  {
    var stack: seq<Symbol>, rest := [], ts;
    var action := ActionOf(Config(stack, rest));
    while !action.Accept? && !action.Error?
      invariant action == ActionOf(Config(stack, rest)) && Run(Config(stack, rest)) == Parse(ts)
      decreases 2 * |rest| + |stack|
    {
      var n := |stack|;
      match action {
        case Shift =>
          stack, rest := stack + [T(rest[0])], rest[1..];
        case ShiftOperand(e, length) =>
          stack, rest := stack + [E(e)], rest[length..];
        case ReduceBinary =>
          stack := stack[..n - 3] + [E(Leaf(Binary(stack[n - 2].token, stack[n - 3].exp, stack[n - 1].exp)))];
        case ReduceNegation =>
          stack := stack[..n - 2] + [E(Leaf(Negation(stack[n - 1].exp)))];
        case ReduceBraces =>
          stack, rest := stack[..n - 2] + [E(Brace(stack[n - 1].exp))], rest[1..];
      }
      action := ActionOf(Config(stack, rest));
    }
    r := if action.Accept? then Some(stack[0].exp) else None;
  }

  // ---- which trees are parsed ----------------------------------------------------------------------

  predicate Braced(a: Ast) { a.lBrace > 0 }

  /** Where an operator of precedence `p` stands before the expression, the expression does not
      begin with a part that the operator would have taken. */
  predicate FitsAfter(a: Ast, p: nat) {
    Braced(a) || (a.node.Binary? ==> Precedence(a.node.op) > p && FitsAfter(a.node.l, p))
  }

  /** Where an operator of precedence `p` stands behind the expression, the expression does not
      end in a part that would have taken the operator. */
  predicate FitsBefore(a: Ast, p: nat) {
    Braced(a)
    || match a.node
       case Binary(op, _, r) => p <= Precedence(op) && FitsBefore(r, p)
       case Negation(r) => p <= Precedence(SUB) && FitsBefore(r, p)
       case _ => true
  }

  /** Braces come in pairs, and every operator has the operands that its precedence gives it:
      binary operators associate to the left, `*` and `/` bind more strongly than `+` and `-`,
      and a minus sign is as strong as a binary minus. */
  predicate WellFormed(a: Ast) {
    && a.lBrace == a.rBrace
    && match a.node
       case Binary(op, l, r) =>
         IsOperator(op) && WellFormed(l) && WellFormed(r) && FitsBefore(l, Precedence(op)) && FitsAfter(r, Precedence(op))
       case Negation(r) => WellFormed(r) && FitsAfter(r, Precedence(SUB))
       case Attribute(relation, column) => relation.Some? || column.Named?
       case _ => true
  }

  // ---- what is parsed is well formed, and is what was written ------------------------------------

  function StackTokens(stack: seq<Symbol>): seq<Token> {
    if stack == [] then []
    else
      var last := stack[|stack| - 1];
      StackTokens(stack[..|stack| - 1]) + (if last.T? then [last.token] else Tokens(last.exp))
  }

  /** The precedence of the operator before place `k` of the stack. */
  function Level(stack: seq<Symbol>, k: nat): nat
    requires k <= |stack|
  {
    if k > 0 && stack[k - 1].T? then Precedence(stack[k - 1].token) else 0
  }

  /** Place `k` of the stack agrees with its neighbours. */
  predicate SymbolOk(stack: seq<Symbol>, k: nat)
    requires k < |stack|
  {
    match stack[k]
    case T(t) => (if k > 0 && stack[k - 1].E? then IsOperator(t) else t == SUB || t == LBRACE)
    case E(e) =>
      && (k > 0 ==> stack[k - 1].T?)
      && WellFormed(e) && FitsAfter(e, Level(stack, k))
      && (k + 1 < |stack| ==>
            && stack[k + 1].T? && Precedence(stack[k + 1].token) > Level(stack, k)
            && FitsBefore(e, Precedence(stack[k + 1].token)))
  }

  predicate StackOk(c: Config) {
    && (forall k :: 0 <= k < |c.stack| ==> SymbolOk(c.stack, k))
    && (c.stack != [] && c.stack[|c.stack| - 1].E? ==>
          FitsBefore(c.stack[|c.stack| - 1].exp, Precedence(Lookahead(c.rest))))
  }

  lemma StepKeepsStack(c: Config)
    requires StackOk(c) && !ActionOf(c).Accept? && !ActionOf(c).Error?
    ensures StackOk(Step(c))
  {
    match ActionOf(c)
    case Shift => ShiftKeepsStack(c);
    case ShiftOperand(_, _) => OperandKeepsStack(c);
    case _ => ReduceKeepsStack(c);
  }

  lemma ShiftKeepsStack(c: Config)
    requires StackOk(c) && ActionOf(c).Shift?
    ensures StackOk(Step(c))
  {
    hide WellFormed, FitsAfter, FitsBefore;
    var s, n, d := c.stack, |c.stack|, Step(c);
    assert n > 0 ==> SymbolOk(s, n - 1);
    assert n > 1 ==> SymbolOk(s, n - 2);
    forall k | 0 <= k < |d.stack| ensures SymbolOk(d.stack, k) {
      if k < n { assert SymbolOk(s, k); }
    }
  }

  lemma OperandKeepsStack(c: Config)
    requires StackOk(c) && ActionOf(c).ShiftOperand?
    ensures StackOk(Step(c))
  {
    var s, n, d := c.stack, |c.stack|, Step(c);
    assert n > 0 ==> SymbolOk(s, n - 1);
    forall k | 0 <= k < |d.stack| ensures SymbolOk(d.stack, k) {
      if k < n { assert SymbolOk(s, k); }
    }
  }

  lemma ReduceKeepsStack(c: Config)
    requires StackOk(c) && (ActionOf(c).ReduceBinary? || ActionOf(c).ReduceNegation? || ActionOf(c).ReduceBraces?)
    ensures StackOk(Step(c))
  {
    var s, n, d := c.stack, |c.stack|, Step(c);
    assert SymbolOk(s, n - 1);
    assert SymbolOk(s, n - 2);
    assert n > 2 ==> SymbolOk(s, n - 3);
    forall k | 0 <= k < |d.stack| ensures SymbolOk(d.stack, k) {
      if k < |d.stack| - 1 { assert SymbolOk(s, k); }
    }
  }

  lemma StackSnoc(stack: seq<Symbol>, x: Symbol)
    ensures StackTokens(stack + [x]) == StackTokens(stack) + if x.T? then [x.token] else Tokens(x.exp)
  {
    assert (stack + [x])[..|stack|] == stack;
  }

  lemma StackTop(stack: seq<Symbol>)
    requires stack != []
    ensures var n := |stack|; var x := stack[n - 1];
      StackTokens(stack) == StackTokens(stack[..n - 1]) + if x.T? then [x.token] else Tokens(x.exp)
  {
  }

  lemma BraceTokens(a: Ast)
    ensures Tokens(Brace(a)) == [LBRACE] + Tokens(a) + [RBRACE]
  {
    assert Repeat(LBRACE, a.lBrace + 1) == [LBRACE] + Repeat(LBRACE, a.lBrace);
    assert Repeat(RBRACE, a.rBrace + 1) == Repeat(RBRACE, a.rBrace) + [RBRACE];
  }

  lemma LeafTokens(n: Node)
    ensures Tokens(Leaf(n)) == NodeTokens(n)
  {
  }

  /** No step gains or loses a token. */
  lemma StepKeepsTokens(c: Config)
    requires StackOk(c) && !ActionOf(c).Accept? && !ActionOf(c).Error?
    ensures StackTokens(Step(c).stack) + Step(c).rest == StackTokens(c.stack) + c.rest
  {
    hide StackOk, SymbolOk, StackTokens, Tokens, NodeTokens;
    var s, n := c.stack, |c.stack|;
    match ActionOf(c)
    case Shift =>
      StackSnoc(s, T(c.rest[0]));
    case ShiftOperand(e, length) =>
      StackSnoc(s, E(e));
      OperandTokens(c);
    case _ =>
      ReduceKeepsTokens(c);
  }

  lemma ReduceKeepsTokens(c: Config)
    requires StackOk(c) && (ActionOf(c).ReduceBinary? || ActionOf(c).ReduceNegation? || ActionOf(c).ReduceBraces?)
    ensures StackTokens(Step(c).stack) + Step(c).rest == StackTokens(c.stack) + c.rest
  {
    hide StackOk, SymbolOk, StackTokens, Tokens, NodeTokens;
    var s, n := c.stack, |c.stack|;
    if ActionOf(c).ReduceBinary? {
      TopThree(s);
      StackSnoc(s[..n - 3], E(Leaf(Binary(s[n - 2].token, s[n - 3].exp, s[n - 1].exp))));
      BinaryTokens(s[n - 2].token, s[n - 3].exp, s[n - 1].exp);
    } else {
      TopTwo(s);
      if ActionOf(c).ReduceNegation? {
        StackSnoc(s[..n - 2], E(Leaf(Negation(s[n - 1].exp))));
        NegationTokens(s[n - 1].exp);
      } else {
        StackSnoc(s[..n - 2], E(Brace(s[n - 1].exp)));
        BraceTokens(s[n - 1].exp);
      }
    }
  }

  lemma BinaryTokens(op: Token, l: Ast, r: Ast)
    ensures Tokens(Leaf(Binary(op, l, r))) == Tokens(l) + [op] + Tokens(r)
  {
    LeafTokens(Binary(op, l, r));
  }

  lemma NegationTokens(r: Ast)
    ensures Tokens(Leaf(Negation(r))) == [SUB] + Tokens(r)
  {
    LeafTokens(Negation(r));
  }

  lemma OperandTokens(c: Config)
    requires ActionOf(c).ShiftOperand?
    ensures Tokens(ActionOf(c).exp) + c.rest[ActionOf(c).length..] == c.rest
  {
  }

  lemma TopTwo(s: seq<Symbol>)
    requires |s| >= 2 && s[|s| - 1].E? && s[|s| - 2].T?
    ensures StackTokens(s) == StackTokens(s[..|s| - 2]) + [s[|s| - 2].token] + Tokens(s[|s| - 1].exp)
  {
    StackTop(s);
    StackTop(s[..|s| - 1]);
    assert s[..|s| - 1][..|s| - 2] == s[..|s| - 2];
  }

  lemma TopThree(s: seq<Symbol>)
    requires |s| >= 3 && s[|s| - 1].E? && s[|s| - 2].T? && s[|s| - 3].E?
    ensures StackTokens(s) == StackTokens(s[..|s| - 3]) + Tokens(s[|s| - 3].exp) + [s[|s| - 2].token] + Tokens(s[|s| - 1].exp)
  {
    TopTwo(s);
    StackTop(s[..|s| - 2]);
    assert s[..|s| - 2][..|s| - 3] == s[..|s| - 3];
  }

  lemma {:induction false} RunIsSound(c: Config)
    requires StackOk(c) && Run(c).Some?
    ensures WellFormed(Run(c).value) && Tokens(Run(c).value) == StackTokens(c.stack) + c.rest
    decreases 2 * |c.rest| + |c.stack|
  {
    if ActionOf(c).Accept? {
      assert SymbolOk(c.stack, 0);
      StackTop(c.stack);
      assert StackTokens(c.stack[..0]) == [] && c.rest == [];
    } else {
      StepKeepsStack(c);
      StepKeepsTokens(c);
      RunIsSound(Step(c));
    }
  }

  // ---- every well-formed tree is parsed --------------------------------------------------------------

  /** An expression comes next, after the stack. */
  predicate Ready(stack: seq<Symbol>) {
    stack == [] || (stack[|stack| - 1].T? && (stack[|stack| - 1].token == LBRACE || IsOperator(stack[|stack| - 1].token)))
  }

  /** The operator on top of the stack, if any, has its left operand, or is a minus sign. */
  predicate Begun(stack: seq<Symbol>) {
    Ready(stack) &&
    (stack != [] && stack[|stack| - 1].token != LBRACE && stack[|stack| - 1].token != SUB ==>
      |stack| >= 2 && stack[|stack| - 2].E?)
  }

  lemma {:induction false} FitsAnywhere(a: Ast)
    requires WellFormed(a)
    ensures FitsAfter(a, 0) && FitsBefore(a, 0)
  {
    match a.node
    case Binary(op, l, r) =>
      FitsAnywhere(l);
      FitsAnywhere(r);
    case Negation(r) =>
      FitsAnywhere(r);
    case _ =>
  }

  lemma RunSteps(c: Config)
    requires !ActionOf(c).Accept? && !ActionOf(c).Error?
    ensures Run(c) == Run(Step(c))
  {
  }

  /** Once an expression is written down after a stack that waits for one, the parser gets to where
      the expression is on the stack, provided that its neighbours do not claim a part of it. */
  lemma {:induction false} ReadsExpression(a: Ast, stack: seq<Symbol>, rest: seq<Token>)
    requires WellFormed(a) && Begun(stack)
    requires FitsAfter(a, Level(stack, |stack|)) && FitsBefore(a, Precedence(Lookahead(rest)))
    requires rest == [] || rest[0] != DOT
    ensures Run(Config(stack, Tokens(a) + rest)) == Run(Config(stack + [E(a)], rest))
    decreases a.node, a.lBrace
  {
    hide FitsAfter, FitsBefore, WellFormed;
    if Braced(a) {
      ReadsBraces(a, stack, rest);
    } else {
      Unbraced(a);
      match a.node
      case Binary(op, l, r) => ReadsBinary(a, stack, rest);
      case Negation(r) => ReadsNegation(a, stack, rest);
      case _ => ReadsOperand(a, stack, rest);
    }
  }

  lemma Unbraced(a: Ast)
    requires WellFormed(a) && !Braced(a)
    ensures a == Leaf(a.node)
  {
  }

  lemma {:induction false} ReadsBraces(a: Ast, stack: seq<Symbol>, rest: seq<Token>)
    requires WellFormed(a) && Begun(stack) && Braced(a)
    ensures Run(Config(stack, Tokens(a) + rest)) == Run(Config(stack + [E(a)], rest))
    decreases a.node, a.lBrace, 0
  {
    hide FitsAfter, FitsBefore, Tokens, Run;
    var b := Ast(a.node, a.lBrace - 1, a.rBrace - 1);
    assert WellFormed(b);
    FitsAnywhere(b);
    BraceTokens(b);
    var after := [RBRACE] + rest;
    assert Tokens(a) + rest == [LBRACE] + (Tokens(b) + after);
    var inside := stack + [T(LBRACE)];
    var c := Config(stack, [LBRACE] + (Tokens(b) + after));
    assert ActionOf(c) == Shift && Step(c) == Config(inside, Tokens(b) + after);
    RunSteps(c);
    ReadsExpression(b, inside, after);
    var d := Config(inside + [E(b)], after);
    assert ActionOf(d) == ReduceBraces;
    RunSteps(d);
    assert d.stack[..|d.stack| - 2] == stack;
    assert Step(d) == Config(stack + [E(a)], rest);
  }

  lemma {:induction false} ReadsBinary(a: Ast, stack: seq<Symbol>, rest: seq<Token>)
    requires WellFormed(a) && Begun(stack) && a == Leaf(a.node) && a.node.Binary?
    requires FitsAfter(a, Level(stack, |stack|)) && FitsBefore(a, Precedence(Lookahead(rest)))
    requires rest == [] || rest[0] != DOT
    ensures Run(Config(stack, Tokens(a) + rest)) == Run(Config(stack + [E(a)], rest))
    decreases a.node, a.lBrace, 0
  {
    hide Tokens, Run;
    var op, l, r := a.node.op, a.node.l, a.node.r;
    BinaryTokens(op, l, r);
    var later := Tokens(r) + rest;
    assert Tokens(a) + rest == Tokens(l) + ([op] + later);
    ReadsExpression(l, stack, [op] + later);
    ShiftsOperator(stack, l, op, later);
    var mid := stack + [E(l), T(op)];
    ReadsExpression(r, mid, rest);
    var d := Config(mid + [E(r)], rest);
    assert ActionOf(d) == ReduceBinary;
    RunSteps(d);
    assert d.stack[..|d.stack| - 3] == stack;
    assert Step(d) == Config(stack + [E(a)], rest);
  }

  /** The operator behind a left operand is shifted if it binds more strongly than what stands
      before the operand. */
  lemma ShiftsOperator(stack: seq<Symbol>, l: Ast, op: Token, later: seq<Token>)
    requires Begun(stack) && IsOperator(op) && Precedence(op) > Level(stack, |stack|)
    ensures Run(Config(stack + [E(l)], [op] + later)) == Run(Config(stack + [E(l), T(op)], later))
  {
    hide Run;
    var c := Config(stack + [E(l)], [op] + later);
    assert ActionOf(c) == Shift;
    RunSteps(c);
    assert c.stack + [T(op)] == stack + [E(l), T(op)];
    assert Step(c) == Config(stack + [E(l), T(op)], later);
  }

  lemma NegationParts(a: Ast, p: nat)
    requires WellFormed(a) && a == Leaf(a.node) && a.node.Negation? && FitsBefore(a, p)
    ensures WellFormed(a.node.r) && FitsAfter(a.node.r, Precedence(SUB)) && FitsBefore(a.node.r, p) && p <= Precedence(SUB)
  {
  }

  lemma {:induction false} ReadsNegation(a: Ast, stack: seq<Symbol>, rest: seq<Token>)
    requires WellFormed(a) && Begun(stack) && a == Leaf(a.node) && a.node.Negation?
    requires FitsBefore(a, Precedence(Lookahead(rest)))
    requires rest == [] || rest[0] != DOT
    ensures Run(Config(stack, Tokens(a) + rest)) == Run(Config(stack + [E(a)], rest))
    decreases a.node, a.lBrace, 0
  {
    hide Tokens, Run, FitsAfter, FitsBefore, WellFormed;
    var r := a.node.r;
    NegationParts(a, Precedence(Lookahead(rest)));
    NegationTokens(r);
    var c := Config(stack, [SUB] + (Tokens(r) + rest));
    assert Tokens(a) + rest == c.rest;
    var mid := stack + [T(SUB)];
    assert ActionOf(c) == Shift && Step(c) == Config(mid, Tokens(r) + rest);
    RunSteps(c);
    ReadsExpression(r, mid, rest);
    var d := Config(mid + [E(r)], rest);
    assert ActionOf(d) == ReduceNegation;
    RunSteps(d);
    assert d.stack[..|d.stack| - 2] == stack;
    assert Step(d) == Config(stack + [E(a)], rest);
  }

  lemma ReadsOperand(a: Ast, stack: seq<Symbol>, rest: seq<Token>)
    requires WellFormed(a) && Begun(stack) && a == Leaf(a.node) && (a.node.Constant? || a.node.Attribute?)
    requires rest == [] || rest[0] != DOT
    ensures Run(Config(stack, Tokens(a) + rest)) == Run(Config(stack + [E(a)], rest))
  {
    hide Run;
    var c := Config(stack, Tokens(a) + rest);
    LeafTokens(a.node);
    assert ActionOf(c) == ShiftOperand(a, |NodeTokens(a.node)|);
    assert Step(c) == Config(stack + [E(a)], rest);
    RunSteps(c);
  }

  lemma ParsesWhatIsPrinted(a: Ast)
    requires WellFormed(a)
    ensures Parse(Tokens(a)) == Some(a)
  {
    hide WellFormed, FitsAfter, FitsBefore, Tokens;
    FitsAnywhere(a);
    ReadsExpression(a, [], []);
    assert Tokens(a) + [] == Tokens(a);
    var c := Config([E(a)], []);
    assert [] + [E(a)] == c.stack;
    assert ActionOf(c) == Accept;
  }

  /** The parser accepts exactly the printed forms of well-formed trees, and gives back the tree. */
  lemma ParsesExactlyWhatIsPrinted(ts: seq<Token>, a: Ast)
    ensures Parse(ts) == Some(a) <==> WellFormed(a) && Tokens(a) == ts
  {
    hide WellFormed, Tokens, Run;
    if Parse(ts) == Some(a) {
      RunIsSound(Config([], ts));
      assert Tokens(a) == [] + ts;
    }
    if WellFormed(a) && Tokens(a) == ts {
      ParsesWhatIsPrinted(a);
    }
  }

  /** Printing a parsed expression gives the tokens that were parsed, and parsing them again gives
      the same tree. */
  lemma PrintThenParse(ts: seq<Token>)
    requires Parse(ts).Some?
    ensures Tokens(Parse(ts).value) == ts
    ensures Parse(Tokens(Parse(ts).value)) == Parse(ts)
  {
    ParsesExactlyWhatIsPrinted(ts, Parse(ts).value);
  }

  /** The grammar with its precedences is unambiguous: no two trees are printed alike. */
  lemma PrintedOnce(a: Ast, b: Ast)
    requires WellFormed(a) && WellFormed(b) && Tokens(a) == Tokens(b)
    ensures a == b
  {
    ParsesExactlyWhatIsPrinted(Tokens(a), a);
    ParsesExactlyWhatIsPrinted(Tokens(a), b);
  }
}
