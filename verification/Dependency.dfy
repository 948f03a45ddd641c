/**
  Dependency and protect expressions of the API registry (tools/vkex/parse_dependency.py): a grammar whose
  parse actions emit a postfix stack, three recursive readers of that stack, and the C condition printed
  for a protect expression.
 */
module Dependency {
  import opened Wrappers

  datatype Op = And | Or

  /** `+` and `,` bind equally and group to the left; parentheses are the only other structure. */
  datatype Expr = Expr(first: Atom, rest: seq<Link>)
  datatype Atom = Ident(name: string) | Group(expr: Expr)
  datatype Link = Link(op: Op, atom: Atom)

  datatype Token = Name(name: string) | Operator(op: Op)

  datatype Error = EmptyStack | InvalidOp(name: string)
  datatype Result<+T> = Ok(value: T) | Err(error: Error)

  function Apply(op: Op, a: bool, b: bool): bool {
    if op.And? then a && b else a || b
  }

  predicate IsAlpha(c: char) {
    'a' <= c <= 'z' || 'A' <= c <= 'Z'
  }

  /** The leaves evaluateStack accepts. */
  predicate IsName(s: string) {
    s != "" && IsAlpha(s[0])
  }

  /** The leaves evalDependencyLanguage accepts: a name, optionally negated. */
  predicate IsMacro(s: string) {
    IsName(s) || (|s| > 1 && s[0] == '!' && IsAlpha(s[1]))
  }

  // ---------------------------------------------------------------- meaning, straight from the text

  function AtomValue(a: Atom, supported: string -> bool): bool
    decreases a, 0
  {
    match a
    case Ident(name) => supported(name)
    case Group(e) => Value(e, |e.rest|, supported)
  }

  /** The value after the first `n` operators, read left to right. */
  function Value(e: Expr, n: nat, supported: string -> bool): bool
    requires n <= |e.rest|
    decreases e, n
  {
    if n == 0 then AtomValue(e.first, supported)
    else Apply(e.rest[n - 1].op, Value(e, n - 1, supported), AtomValue(e.rest[n - 1].atom, supported))
  }

  function Meaning(e: Expr, supported: string -> bool): bool {
    Value(e, |e.rest|, supported)
  }

  // ---------------------------------------------------------------- the emitted stack

  function EmitAtom(a: Atom): seq<Token>
    decreases a, 0
  {
    match a
    case Ident(name) => [Name(name)]
    case Group(e) => Emit(e, |e.rest|)
  }

  /** An identifier is pushed when it is parsed, an operator after its right operand. */
  function Emit(e: Expr, n: nat): seq<Token>
    requires n <= |e.rest|
    decreases e, n
  {
    if n == 0 then EmitAtom(e.first)
    else Emit(e, n - 1) + EmitAtom(e.rest[n - 1].atom) + [Operator(e.rest[n - 1].op)]
  }

  function Stack(e: Expr): seq<Token> {
    Emit(e, |e.rest|)
  }

  /** The binary tree behind a stack. */
  datatype Tree = Leaf(name: string) | Node(op: Op, left: Tree, right: Tree)

  function AtomTree(a: Atom): Tree
    decreases a, 0
  {
    match a
    case Ident(name) => Leaf(name)
    case Group(e) => TreeOf(e, |e.rest|)
  }

  function TreeOf(e: Expr, n: nat): Tree
    requires n <= |e.rest|
    decreases e, n
  {
    if n == 0 then AtomTree(e.first)
    else Node(e.rest[n - 1].op, TreeOf(e, n - 1), AtomTree(e.rest[n - 1].atom))
  }

  function Postfix(t: Tree): seq<Token> {
    match t
    case Leaf(name) => [Name(name)]
    case Node(op, l, r) => Postfix(l) + Postfix(r) + [Operator(op)]
  }

  function TreeValue(t: Tree, supported: string -> bool): bool {
    match t
    case Leaf(name) => supported(name)
    case Node(op, l, r) => Apply(op, TreeValue(l, supported), TreeValue(r, supported))
  }

  lemma {:induction false} AtomIsTree(a: Atom, supported: string -> bool)
    ensures EmitAtom(a) == Postfix(AtomTree(a)) && AtomValue(a, supported) == TreeValue(AtomTree(a), supported)
    decreases a, 0
  {
    if a.Group? { ExprIsTree(a.expr, |a.expr.rest|, supported); }
  }

  lemma {:induction false} ExprIsTree(e: Expr, n: nat, supported: string -> bool)
    requires n <= |e.rest|
    ensures Emit(e, n) == Postfix(TreeOf(e, n)) && Value(e, n, supported) == TreeValue(TreeOf(e, n), supported)
    decreases e, n
  {
    if n == 0 {
      AtomIsTree(e.first, supported);
    } else {
      ExprIsTree(e, n - 1, supported);
      AtomIsTree(e.rest[n - 1].atom, supported);
    }
  }

  /** The top of a stack that ends with a tree, and what lies below it. */
  lemma {:induction false} PostfixTop(below: seq<Token>, t: Tree)
    ensures var stack := below + Postfix(t);
            && stack != []
            && stack[|stack| - 1] == (if t.Leaf? then Name(t.name) else Operator(t.op))
            && stack[..|stack| - 1] == if t.Leaf? then below else below + Postfix(t.left) + Postfix(t.right)
  {
    var stack := below + Postfix(t);
    if t.Node? {
      assert stack == below + Postfix(t.left) + Postfix(t.right) + [Operator(t.op)];
    }
  }

  // ---------------------------------------------------------------- evaluation

  /** evaluateStack: the value of the topmost expression and the stack below it. */
  function Evaluate(stack: seq<Token>, supported: string -> bool): (r: Result<(bool, seq<Token>)>)
    ensures r.Ok? ==> |r.value.1| < |stack|
    decreases |stack|
  {
    if stack == [] then Err(EmptyStack)
    else
      var top, below := stack[|stack| - 1], stack[..|stack| - 1];
      match top
      case Operator(op) =>
        var right := Evaluate(below, supported);
        if right.Err? then right
        else
          var left := Evaluate(right.value.1, supported);
          if left.Err? then left else Ok((Apply(op, left.value.0, right.value.0), left.value.1))
      case Name(name) => if IsName(name) then Ok((supported(name), below)) else Err(InvalidOp(name))
  }

  ghost predicate AllLeaves(t: Tree, ok: string -> bool) {
    match t
    case Leaf(name) => ok(name)
    case Node(_, l, r) => AllLeaves(l, ok) && AllLeaves(r, ok)
  }

  lemma {:induction false} EvaluateTree(below: seq<Token>, t: Tree, supported: string -> bool)
    ensures var r := Evaluate(below + Postfix(t), supported);
            if AllLeaves(t, IsName) then r == Ok((TreeValue(t, supported), below)) else r.Err?
    decreases t
  {
    PostfixTop(below, t);
    if t.Node? {
      EvaluateTree(below + Postfix(t.left), t.right, supported);
      EvaluateTree(below, t.left, supported);
    }
  }

  /**
    The stack emitted for any expression evaluates to its left-to-right meaning and consumes exactly its own
    part of the stack; it fails exactly when some leaf does not start with a letter.
   */
  lemma EvaluationIsMeaning(below: seq<Token>, e: Expr, supported: string -> bool)
    ensures var r := Evaluate(below + Stack(e), supported);
            if AllLeaves(TreeOf(e, |e.rest|), IsName) then r == Ok((Meaning(e, supported), below)) else r.Err?
  {
    ExprIsTree(e, |e.rest|, supported);
    EvaluateTree(below, TreeOf(e, |e.rest|), supported);
  }

  lemma {:induction false} TreeMonotone(t: Tree, a: string -> bool, b: string -> bool)
    requires forall s :: a(s) ==> b(s)
    ensures TreeValue(t, a) ==> TreeValue(t, b)
  {
    if t.Node? {
      TreeMonotone(t.left, a, b);
      TreeMonotone(t.right, a, b);
    }
  }

  /** Supporting more names never makes a satisfied dependency fail. */
  lemma MeaningMonotone(e: Expr, a: string -> bool, b: string -> bool)
    requires forall s :: a(s) ==> b(s)
    ensures Meaning(e, a) ==> Meaning(e, b)
  {
    ExprIsTree(e, |e.rest|, a);
    ExprIsTree(e, |e.rest|, b);
    TreeMonotone(TreeOf(e, |e.rest|), a, b);
  }

  // ---------------------------------------------------------------- names

  /** evalDependencyNames. */
  function NamesIn(stack: seq<Token>): (r: Result<(set<string>, seq<Token>)>)
    ensures r.Ok? ==> |r.value.1| < |stack|
    decreases |stack|
  {
    if stack == [] then Err(EmptyStack)
    else
      var top, below := stack[|stack| - 1], stack[..|stack| - 1];
      match top
      case Operator(op) =>
        var right := NamesIn(below);
        if right.Err? then right
        else
          var left := NamesIn(right.value.1);
          if left.Err? then left else Ok((right.value.0 + left.value.0, left.value.1))
      case Name(name) => if IsName(name) then Ok(({name}, below)) else Err(InvalidOp(name))
  }

  function Leaves(t: Tree): set<string> {
    match t
    case Leaf(name) => {name}
    case Node(_, l, r) => Leaves(l) + Leaves(r)
  }

  lemma {:induction false} NamesOfTree(below: seq<Token>, t: Tree)
    requires AllLeaves(t, IsName)
    ensures NamesIn(below + Postfix(t)) == Ok((Leaves(t), below))
    decreases t
  {
    PostfixTop(below, t);
    if t.Node? {
      NamesOfTree(below + Postfix(t.left), t.right);
      NamesOfTree(below, t.left);
      assert Leaves(t.right) + Leaves(t.left) == Leaves(t);
    }
  }

  lemma {:induction false} TreeDependsOnLeaves(t: Tree, a: string -> bool, b: string -> bool)
    requires forall s :: s in Leaves(t) ==> a(s) == b(s)
    ensures TreeValue(t, a) == TreeValue(t, b)
  {
    if t.Node? {
      TreeDependsOnLeaves(t.left, a, b);
      TreeDependsOnLeaves(t.right, a, b);
    }
  }

  /** The reported names are all an expression's value depends on. */
  lemma NamesDecideMeaning(e: Expr, a: string -> bool, b: string -> bool)
    requires AllLeaves(TreeOf(e, |e.rest|), IsName)
    requires NamesIn(Stack(e)).Ok? ==> forall s :: s in NamesIn(Stack(e)).value.0 ==> a(s) == b(s)
    ensures NamesIn(Stack(e)).Ok? && NamesIn(Stack(e)).value.1 == [] && Meaning(e, a) == Meaning(e, b)
  {
    var t := TreeOf(e, |e.rest|);
    ExprIsTree(e, |e.rest|, a);
    ExprIsTree(e, |e.rest|, b);
    NamesOfTree([], t);
    assert [] + Postfix(t) == Postfix(t);
    TreeDependsOnLeaves(t, a, b);
  }

  lemma {:induction false} LeavesAreTokens(t: Tree, name: string)
    ensures name in Leaves(t) <==> Name(name) in Postfix(t)
  {
    if t.Node? {
      LeavesAreTokens(t.left, name);
      LeavesAreTokens(t.right, name);
    }
  }

  /** The names reported are exactly those that were pushed. */
  lemma {:induction false} NamesAreReported(e: Expr, name: string)
    requires AllLeaves(TreeOf(e, |e.rest|), IsName)
    ensures NamesIn(Stack(e)).Ok? && (name in NamesIn(Stack(e)).value.0 <==> Name(name) in Stack(e))
  {
    var t := TreeOf(e, |e.rest|);
    ExprIsTree(e, |e.rest|, _ => true);
    NamesOfTree([], t);
    assert [] + Postfix(t) == Postfix(t);
    LeavesAreTokens(t, name);
  }

  // ---------------------------------------------------------------- printing C conditions

  datatype CToken = Defined(name: string) | NotDefined(name: string) | AndAnd | OrOr | LParen | RParen

  function LeafMarkup(name: string): CToken
    requires name != ""
  {
    if name[0] == '!' then NotDefined(name[1..]) else Defined(name)
  }

  function OpMarkup(op: Op): CToken {
    if op.And? then AndAnd else OrOr
  }

  /** evalDependencyLanguage as protectLanguageC calls it; `parent` is absent at the root only. */
  function Language(stack: seq<Token>, parent: Option<Op>): (r: Result<(seq<CToken>, seq<Token>)>)
    ensures r.Ok? ==> |r.value.1| < |stack|
    decreases |stack|
  {
    if stack == [] then Err(EmptyStack)
    else
      var top, below := stack[|stack| - 1], stack[..|stack| - 1];
      match top
      case Operator(op) =>
        var rhs := Language(below, Some(op));
        if rhs.Err? then rhs
        else
          var lhs := Language(rhs.value.1, Some(op));
          if lhs.Err? then lhs
          else
            var text := lhs.value.0 + [OpMarkup(op)] + rhs.value.0;
            Ok((if parent.Some? && parent.value != op then [LParen] + text + [RParen] else text, lhs.value.1))
      case Name(name) => if IsMacro(name) then Ok(([LeafMarkup(name)], below)) else Err(InvalidOp(name))
  }

  function Print(t: Tree, parent: Option<Op>): seq<CToken>
    requires AllLeaves(t, IsMacro)
  {
    match t
    case Leaf(name) => [LeafMarkup(name)]
    case Node(op, l, r) =>
      var text := Print(l, Some(op)) + [OpMarkup(op)] + Print(r, Some(op));
      if parent.Some? && parent.value != op then [LParen] + text + [RParen] else text
  }

  lemma {:induction false} LanguageOfTree(below: seq<Token>, t: Tree, parent: Option<Op>)
    ensures var r := Language(below + Postfix(t), parent);
            if AllLeaves(t, IsMacro) then r == Ok((Print(t, parent), below)) else r.Err?
    decreases t
  {
    PostfixTop(below, t);
    if t.Node? {
      LanguageOfTree(below + Postfix(t.left), t.right, Some(t.op));
      if AllLeaves(t.right, IsMacro) { LanguageOfTree(below, t.left, Some(t.op)); }
    }
  }

  // ---------------------------------------------------------------- reading C conditions

  datatype CExpr =
    | CDefined(name: string)
    | CNotDefined(name: string)
    | CAnd(l: CExpr, r: CExpr)
    | COr(l: CExpr, r: CExpr)

  function CValue(c: CExpr, defined: string -> bool): bool {
    match c
    case CDefined(name) => defined(name)
    case CNotDefined(name) => !defined(name)
    case CAnd(l, r) => CValue(l, defined) && CValue(r, defined)
    case COr(l, r) => CValue(l, defined) || CValue(r, defined)
  }

  datatype Parsed = Parsed(expr: CExpr, rest: seq<CToken>)

  /** primary := defined(X) | !defined(X) | ( or ) */
  function ParsePrimary(ts: seq<CToken>): (r: Option<Parsed>)
    ensures r.Some? ==> |r.value.rest| < |ts|
    decreases |ts|, 0
  {
    if ts == [] then None
    else match ts[0]
         case Defined(name) => Some(Parsed(CDefined(name), ts[1..]))
         case NotDefined(name) => Some(Parsed(CNotDefined(name), ts[1..]))
         case LParen =>
           var inner := ParseOr(ts[1..]);
           if inner.Some? && inner.value.rest != [] && inner.value.rest[0] == RParen
           then Some(Parsed(inner.value.expr, inner.value.rest[1..])) else None
         case _ => None
  }

  /** and := primary { && primary } */
  function ParseAnd(ts: seq<CToken>): (r: Option<Parsed>)
    ensures r.Some? ==> |r.value.rest| < |ts|
    decreases |ts|, 2
  {
    var p := ParsePrimary(ts);
    if p.None? then None else AndTail(p.value.expr, p.value.rest)
  }

  function AndTail(acc: CExpr, ts: seq<CToken>): (r: Option<Parsed>)
    ensures r.Some? ==> |r.value.rest| <= |ts|
    decreases |ts|, 1
  {
    if ts != [] && ts[0] == AndAnd then
      var p := ParsePrimary(ts[1..]);
      if p.None? then None else AndTail(CAnd(acc, p.value.expr), p.value.rest)
    else Some(Parsed(acc, ts))
  }

  /** or := and { || and } */
  function ParseOr(ts: seq<CToken>): (r: Option<Parsed>)
    ensures r.Some? ==> |r.value.rest| < |ts|
    decreases |ts|, 4
  {
    var p := ParseAnd(ts);
    if p.None? then None else OrTail(p.value.expr, p.value.rest)
  }

  function OrTail(acc: CExpr, ts: seq<CToken>): (r: Option<Parsed>)
    ensures r.Some? ==> |r.value.rest| <= |ts|
    decreases |ts|, 3
  {
    if ts != [] && ts[0] == OrOr then
      var p := ParseAnd(ts[1..]);
      if p.None? then None else OrTail(COr(acc, p.value.expr), p.value.rest)
    else Some(Parsed(acc, ts))
  }

  // ---------------------------------------------------------------- printing, then reading

  /** The truth of a protect leaf under a set of defined macros. */
  function MacroTrue(defined: string -> bool): string -> bool {
    s => if s != "" && s[0] == '!' then !defined(s[1..]) else defined(s)
  }

  predicate Ends(rest: seq<CToken>) {
    rest == [] || rest[0] == RParen
  }

  /** Printed under a parent, a subtree is one primary unless it has the parent's own operator. */
  predicate Tight(t: Tree, op: Op) {
    t.Leaf? || t.op != op
  }

  lemma {:induction false} ReadPrimary(t: Tree, op: Op, rest: seq<CToken>, defined: string -> bool) returns (c: CExpr)
    requires AllLeaves(t, IsMacro) && Tight(t, op)
    ensures ParsePrimary(Print(t, Some(op)) + rest) == Some(Parsed(c, rest))
    ensures CValue(c, defined) == TreeValue(t, MacroTrue(defined))
    decreases t, 1
  {
    var ts := Print(t, Some(op)) + rest;
    if t.Leaf? {
      assert ts[1..] == rest;
      c := if t.name[0] == '!' then CNotDefined(t.name[1..]) else CDefined(t.name);
    } else {
      assert ts[1..] == Print(t, None) + ([RParen] + rest);
      c := ReadTop(t, [RParen] + rest, defined);
      assert ([RParen] + rest)[1..] == rest;
    }
  }

  /** `&& t` continues a conjunction. */
  lemma {:induction false} ReadAndTail(
      acc: CExpr, t: Tree, rest: seq<CToken>, defined: string -> bool)
    returns (c: CExpr)
    requires AllLeaves(t, IsMacro)
    ensures AndTail(acc, [AndAnd] + Print(t, Some(And)) + rest) == AndTail(c, rest)
    ensures CValue(c, defined) == (CValue(acc, defined) && TreeValue(t, MacroTrue(defined)))
    decreases t, 2
  {
    var ts := [AndAnd] + Print(t, Some(And)) + rest;
    if Tight(t, And) {
      var p := ReadPrimary(t, And, rest, defined);
      assert ts[1..] == Print(t, Some(And)) + rest;
      c := CAnd(acc, p);
    } else {
      var after := [AndAnd] + Print(t.right, Some(And)) + rest;
      assert ts == [AndAnd] + Print(t.left, Some(And)) + after;
      var c1 := ReadAndTail(acc, t.left, after, defined);
      c := ReadAndTail(c1, t.right, rest, defined);
    }
  }

  lemma {:induction false} ReadAnd(t: Tree, rest: seq<CToken>, defined: string -> bool) returns (c: CExpr)
    requires AllLeaves(t, IsMacro)
    ensures ParseAnd(Print(t, Some(And)) + rest) == AndTail(c, rest)
    ensures CValue(c, defined) == TreeValue(t, MacroTrue(defined))
    decreases t, 3
  {
    if Tight(t, And) {
      c := ReadPrimary(t, And, rest, defined);
    } else {
      var after := [AndAnd] + Print(t.right, Some(And)) + rest;
      assert Print(t, Some(And)) + rest == Print(t.left, Some(And)) + after;
      var c1 := ReadAnd(t.left, after, defined);
      c := ReadAndTail(c1, t.right, rest, defined);
    }
  }

  /** A primary followed by no `&&` is a whole conjunction. */
  lemma {:induction false} ReadOperand(t: Tree, rest: seq<CToken>, defined: string -> bool) returns (c: CExpr)
    requires AllLeaves(t, IsMacro) && Tight(t, Or) && (rest == [] || rest[0] != AndAnd)
    ensures ParseAnd(Print(t, Some(Or)) + rest) == Some(Parsed(c, rest))
    ensures CValue(c, defined) == TreeValue(t, MacroTrue(defined))
    decreases t, 2
  {
    c := ReadPrimary(t, Or, rest, defined);
  }

  lemma {:induction false} ReadOrTail(
      acc: CExpr, t: Tree, rest: seq<CToken>, defined: string -> bool)
    returns (c: CExpr)
    requires AllLeaves(t, IsMacro) && (rest == [] || rest[0] != AndAnd)
    ensures OrTail(acc, [OrOr] + Print(t, Some(Or)) + rest) == OrTail(c, rest)
    ensures CValue(c, defined) == (CValue(acc, defined) || TreeValue(t, MacroTrue(defined)))
    decreases t, 3
  {
    if Tight(t, Or) {
      var p := ReadOperand(t, rest, defined);
      c := COr(acc, p);
      assert [OrOr] + Print(t, Some(Or)) + rest == [OrOr] + (Print(t, Some(Or)) + rest);
    } else {
      var after := [OrOr] + Print(t.right, Some(Or)) + rest;
      assert after[0] == OrOr;
      SplitOr(t, rest);
      var c1 := ReadOrTail(acc, t.left, after, defined);
      c := ReadOrTail(c1, t.right, rest, defined);
    }
  }

  lemma {:induction false} SplitOr(t: Tree, rest: seq<CToken>)
    requires AllLeaves(t, IsMacro) && !Tight(t, Or)
    ensures Print(t, Some(Or)) + rest == Print(t.left, Some(Or)) + ([OrOr] + Print(t.right, Some(Or)) + rest)
    ensures [OrOr] + Print(t, Some(Or)) + rest == [OrOr] + Print(t.left, Some(Or)) +
              ([OrOr] + Print(t.right, Some(Or)) + rest)
  {
  }

  lemma {:induction false} ReadOr(t: Tree, rest: seq<CToken>, defined: string -> bool) returns (c: CExpr)
    requires AllLeaves(t, IsMacro) && (rest == [] || rest[0] != AndAnd)
    ensures ParseOr(Print(t, Some(Or)) + rest) == OrTail(c, rest)
    ensures CValue(c, defined) == TreeValue(t, MacroTrue(defined))
    decreases t, 3
  {
    if Tight(t, Or) {
      c := ReadOperand(t, rest, defined);
    } else {
      var after := [OrOr] + Print(t.right, Some(Or)) + rest;
      SplitOr(t, rest);
      assert after[0] == OrOr;
      var c1 := ReadOr(t.left, after, defined);
      c := ReadOrTail(c1, t.right, rest, defined);
    }
  }

  /** What is printed at the root, or between parentheses, is read back whole. */
  lemma {:induction false} ReadTop(t: Tree, rest: seq<CToken>, defined: string -> bool) returns (c: CExpr)
    requires AllLeaves(t, IsMacro) && Ends(rest)
    ensures ParseOr(Print(t, None) + rest) == Some(Parsed(c, rest))
    ensures CValue(c, defined) == TreeValue(t, MacroTrue(defined))
    decreases t, 0
  {
    var ts := Print(t, None) + rest;
    match t
    case Leaf(name) =>
      assert ts[1..] == rest;
      c := if name[0] == '!' then CNotDefined(name[1..]) else CDefined(name);
      assert ParsePrimary(ts) == Some(Parsed(c, rest));
      assert AndTail(c, rest) == Some(Parsed(c, rest)) && OrTail(c, rest) == Some(Parsed(c, rest));
      assert ParseAnd(ts) == Some(Parsed(c, rest));
    case Node(op, l, r) =>
      var after := [OpMarkup(op)] + Print(r, Some(op)) + rest;
      assert ts == Print(l, Some(op)) + after;
      if op.And? {
        var c1 := ReadAnd(l, after, defined);
        c := ReadAndTail(c1, r, rest, defined);
        assert AndTail(c, rest) == Some(Parsed(c, rest)) && OrTail(c, rest) == Some(Parsed(c, rest));
        assert ParseAnd(ts) == Some(Parsed(c, rest));
      } else {
        assert after[0] == OrOr;
        var c1 := ReadOr(l, after, defined);
        c := ReadOrTail(c1, r, rest, defined);
        assert OrTail(c, rest) == Some(Parsed(c, rest));
      }
  }

  /**
    protectLanguageC prints a condition that C, with && binding tighter than ||, reads back to the same truth
    value under every set of defined macros; it fails exactly when some leaf is not a macro name.
   */
  lemma ProtectConditionKeepsMeaning(e: Expr, defined: string -> bool)
    ensures Language(Stack(e), None).Ok? <==> AllLeaves(TreeOf(e, |e.rest|), IsMacro)
    ensures Language(Stack(e), None).Ok? ==>
              && Language(Stack(e), None).value.1 == []
              && var parsed := ParseOr(Language(Stack(e), None).value.0);
                 && parsed.Some? && parsed.value.rest == []
                 && CValue(parsed.value.expr, defined) == Meaning(e, MacroTrue(defined))
  {
    var t := TreeOf(e, |e.rest|);
    ExprIsTree(e, |e.rest|, MacroTrue(defined));
    LanguageOfTree([], t, None);
    assert [] + Postfix(t) == Postfix(t);
    if AllLeaves(t, IsMacro) {
      var c := ReadTop(t, [], defined);
      assert Print(t, None) + [] == Print(t, None);
    }
  }

  // ---------------------------------------------------------------- the shared stack

  /** The global stack that parse actions push to and the readers pop from. */
  class ExprStack {
    var stack: seq<Token>

    constructor ()
      ensures stack == []
    {
      stack := [];
    }

    method ParseAtom(a: Atom)
      modifies this
      ensures stack == old(stack) + EmitAtom(a)
      decreases a, 0
    {
      match a
      case Ident(name) => stack := stack + [Name(name)];
      case Group(e) => Parse(e);
    }

    /** The pushes of the parse actions, in the order the grammar triggers them. */
    method Parse(e: Expr)
      modifies this
      ensures stack == old(stack) + Stack(e)
      decreases e, |e.rest| + 1
    {
      ParseAtom(e.first);
      var n := 0;
      while n < |e.rest|
        invariant 0 <= n <= |e.rest|
        invariant stack == old(stack) + Emit(e, n)
      {
        ParseAtom(e.rest[n].atom);
        stack := stack + [Operator(e.rest[n].op)];
        n := n + 1;
      }
    }

    method EvaluateStack(supported: string -> bool) returns (r: Result<bool>)
      modifies this
      ensures match Evaluate(old(stack), supported)
              case Ok(v) => r == Ok(v.0) && stack == v.1
              case Err(e) => r == Err(e)
      decreases |stack|
    {
      if stack == [] {
        return Err(EmptyStack);
      }
      var top := stack[|stack| - 1];
      stack := stack[..|stack| - 1];
      match top
      case Operator(op) =>
        var op2 := EvaluateStack(supported);
        if op2.Err? {
          return op2;
        }
        var op1 := EvaluateStack(supported);
        if op1.Err? {
          return op1;
        }
        return Ok(Apply(op, op1.value, op2.value));
      case Name(name) =>
        return if IsName(name) then Ok(supported(name)) else Err(InvalidOp(name));
    }

    method EvalDependencyLanguage(parent: Option<Op>) returns (r: Result<seq<CToken>>)
      modifies this
      ensures match Language(old(stack), parent)
              case Ok(v) => r == Ok(v.0) && stack == v.1
              case Err(e) => r == Err(e)
      decreases |stack|
    {
      if stack == [] {
        return Err(EmptyStack);
      }
      var top := stack[|stack| - 1];
      stack := stack[..|stack| - 1];
      match top
      case Operator(op) =>
        var rhs := EvalDependencyLanguage(Some(op));
        if rhs.Err? {
          return rhs;
        }
        var lhs := EvalDependencyLanguage(Some(op));
        if lhs.Err? {
          return lhs;
        }
        var text := lhs.value + [OpMarkup(op)] + rhs.value;
        return Ok(if parent.Some? && parent.value != op then [LParen] + text + [RParen] else text);
      case Name(name) =>
        return if IsMacro(name) then Ok([LeafMarkup(name)]) else Err(InvalidOp(name));
    }

    /** evaluateDependency: parse, then evaluate. */
    method EvaluateDependency(e: Expr, supported: string -> bool) returns (r: Result<bool>)
      modifies this
      ensures if AllLeaves(TreeOf(e, |e.rest|), IsName) then r == Ok(Meaning(e, supported)) else r.Err?
    {
      stack := [];
      Parse(e);
      EvaluationIsMeaning([], e, supported);
      r := EvaluateStack(supported);
    }
  }

  // ---------------------------------------------------------------- which leaves are names

  /** The characters of identifiers in the grammar: letters, digits, underscore and colon. */
  predicate IsIdent(s: string) {
    s != "" && forall i :: 0 <= i < |s| ==>
      || 'a' <= s[i] <= 'z' || 'A' <= s[i] <= 'Z' || '0' <= s[i] <= '9' || s[i] == '_' || s[i] == ':'
  }

  /** Of the identifiers the grammar knows, exactly those that start with no digit, underscore or colon are names. */
  lemma {:induction false} IdentIsName(s: string)
    requires IsIdent(s)
    ensures IsName(s) <==> s[0] !in "0123456789_:"
  {
    var c := s[0];
    assert c in "0123456789_:" <==> '0' <= c <= '9' || c == '_' || c == ':' by {
      var digits := "0123456789_:";
      assert digits[0] == '0' && digits[1] == '1' && digits[2] == '2' && digits[3] == '3' && digits[4] == '4';
      assert digits[5] == '5' && digits[6] == '6' && digits[7] == '7' && digits[8] == '8' && digits[9] == '9';
      assert digits[10] == '_' && digits[11] == ':';
    }
  }

  /** A single name is satisfied exactly if it is supported, whatever case its letters have. */
  lemma {:induction false} NameAlone(name: string, supported: string -> bool)
    requires IsIdent(name) && name[0] !in "0123456789_:"
    ensures Evaluate(Stack(Expr(Ident(name), [])), supported) == Ok((supported(name), []))
  {
    var e := Expr(Ident(name), []);
    IdentIsName(name);
    assert Emit(e, 0) == EmitAtom(e.first) == [Name(name)];
    assert Stack(e) == Emit(e, |e.rest|);
    assert Evaluate([] + [Name(name)], supported) == Ok((supported(name), []));
  }

  /** `e + a` needs both of its sides, `e , a` either: whatever came before is one operand of the last operator. */
  lemma {:induction false} LastOperator(e: Expr, link: Link, supported: string -> bool)
    requires AllLeaves(TreeOf(e, |e.rest|), IsName) && AllLeaves(AtomTree(link.atom), IsName)
    ensures var all := Evaluate(Stack(Expr(e.first, e.rest + [link])), supported);
            var left, right := Evaluate(Stack(e), supported), Evaluate(EmitAtom(link.atom), supported);
            && all.Ok? && left.Ok? && right.Ok?
            && all.value.0 == if link.op == And then left.value.0 && right.value.0 else left.value.0 || right.value.0
  {
    var l, r := TreeOf(e, |e.rest|), AtomTree(link.atom);
    StackExtends(e, link);
    ExprIsTree(e, |e.rest|, supported);
    AtomIsTree(link.atom, supported);
    EvaluateAlone(l, supported);
    EvaluateAlone(r, supported);
    EvaluateAlone(Node(link.op, l, r), supported);
    assert Postfix(Node(link.op, l, r)) == Stack(e) + EmitAtom(link.atom) + [Operator(link.op)];
  }

  lemma {:induction false} EvaluateAlone(t: Tree, supported: string -> bool)
    requires AllLeaves(t, IsName)
    ensures Evaluate(Postfix(t), supported) == Ok((TreeValue(t, supported), []))
  {
    EvaluateTree([], t, supported);
    assert [] + Postfix(t) == Postfix(t);
  }

  lemma {:induction false} StackExtends(e: Expr, link: Link)
    ensures Stack(Expr(e.first, e.rest + [link])) == Stack(e) + EmitAtom(link.atom) + [Operator(link.op)]
  {
    SameBefore(e, link, |e.rest|);
  }

  lemma {:induction false} SameBefore(e: Expr, link: Link, n: nat)
    requires n <= |e.rest|
    ensures Emit(Expr(e.first, e.rest + [link]), n) == Emit(e, n)
  {
    if n > 0 { SameBefore(e, link, n - 1); }
  }
}
