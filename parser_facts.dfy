/** What the grammar of module Parser guarantees about the trees it builds
    (Honyac/NodeMap.cs): every node only carries the fields its builder sets
    and only refers to the local table it was read against; operator chains
    associate to the left and assignment to the right; `>` and `>=` swap
    their operands; `-p`, `a[e]` and `sizeof` are rewritten; a name that is
    not in the table is an error. */
module ParserFacts {
  import opened Wrappers
  import opened SynTokens
  import Types
  import opened Ast
  import Symbols
  import Parser

  /** The parameter tokens are exactly those before the first `)`. */
  lemma {:induction false} ParamTokensSpan(ts: seq<SynToken>, pos: nat)
    requires pos <= |ts|
    ensures var r := Parser.ParamTokensFrom(ts, pos);
      r.Ok? ==> && r.value.value == ts[pos..r.value.next - 1]
                && AtOp(ts, r.value.next - 1, ")")
                && forall k | pos <= k < r.value.next - 1 :: !AtOp(ts, k, ")")
    decreases |ts| - pos
  {
    if !AtOp(ts, pos, ")") && pos < |ts| {
      ParamTokensSpan(ts, pos + 1);
      var rest := Parser.ParamTokensFrom(ts, pos + 1);
      if rest.Ok? {
        assert [ts[pos]] + ts[pos + 1..rest.value.next - 1] == ts[pos..rest.value.next - 1];
      }
    }
  }

  /** Running out of tokens before the `)` of a parameter list is an error. */
  lemma {:induction false} ParamTokensNeedClose(ts: seq<SynToken>, pos: nat)
    requires pos <= |ts|
    requires forall k | pos <= k < |ts| :: !AtOp(ts, k, ")")
    ensures Parser.ParamTokensFrom(ts, pos).Err?
    decreases |ts| - pos
  {
    if pos < |ts| {
      ParamTokensNeedClose(ts, pos + 1);
    }
  }

  // ---------------------------------------------------------------------
  // Shapes of operator chains

  /** `*` reads as `Mul` and `/` as `Div`. */
  predicate MulOpAt(ts: seq<SynToken>, pos: nat, kind: NodeKind) {
    (kind == Ast.Mul && AtOp(ts, pos, "*")) || (kind == Div && AtOp(ts, pos, "/"))
  }

  predicate AddOpAt(ts: seq<SynToken>, pos: nat, kind: NodeKind) {
    (kind == Ast.Add && AtOp(ts, pos, "+")) || (kind == Sub && AtOp(ts, pos, "-"))
  }

  predicate EqOpAt(ts: seq<SynToken>, pos: nat, kind: NodeKind) {
    (kind == Eq && AtOp(ts, pos, "==")) || (kind == Ne && AtOp(ts, pos, "!="))
  }

  predicate RelOpAt(ts: seq<SynToken>, pos: nat) {
    AtOp(ts, pos, "<") || AtOp(ts, pos, ">") || AtOp(ts, pos, "<=") || AtOp(ts, pos, ">=")
  }

  // The lemmas below unfold one step of an operator chain. They state
  // their facts as implications, so that a proof calling several of them
  // has no preconditions to discharge, and they cover the failing reads
  // as well as the successful ones.

  /** The operator `*` or `/` at `pos` and the operand after it. */
  lemma MulRestStep(ts: seq<SynToken>, lv: seq<LVar>, lhs: Node, pos: nat, k: NodeKind)
    ensures MulOpAt(ts, pos, k) ==>
      var u := Parser.Unary(ts, lv, pos + 1);
      Parser.MulRest(ts, lv, lhs, pos)
      == if u.Ok? then Parser.MulRest(ts, lv, NewNode(k, lhs, Some(u.value.node)), u.value.next) else Err
  {
    if MulOpAt(ts, pos, k) && k != Ast.Mul {
      assert !AtOp(ts, pos, "*") && AtOp(ts, pos, "/");
    }
  }

  /** The first operand of the chain. */
  lemma MulStart(ts: seq<SynToken>, lv: seq<LVar>, pos: nat)
    ensures pos <= |ts| ==>
      var u := Parser.Unary(ts, lv, pos);
      Parser.Mul(ts, lv, pos) == if u.Ok? then Parser.MulRest(ts, lv, u.value.node, u.value.next) else Err
  {
  }

  /** No operator at `pos`: the chain ends there. */
  lemma MulStop(ts: seq<SynToken>, lv: seq<LVar>, lhs: Node, pos: nat)
    ensures pos <= |ts| && !MulOpAt(ts, pos, Ast.Mul) && !MulOpAt(ts, pos, Div) ==>
      Parser.MulRest(ts, lv, lhs, pos) == Ok(Parser.Parsed(lhs, pos))
  {
  }

  /** The operator `+` or `-` at `pos` and the operand after it. */
  lemma AddRestStep(ts: seq<SynToken>, lv: seq<LVar>, lhs: Node, pos: nat, k: NodeKind)
    ensures AddOpAt(ts, pos, k) ==>
      var m := Parser.Mul(ts, lv, pos + 1);
      Parser.AddRest(ts, lv, lhs, pos)
      == if m.Ok? then Parser.AddRest(ts, lv, NewNode(k, lhs, Some(m.value.node)), m.value.next) else Err
  {
    if AddOpAt(ts, pos, k) && k != Ast.Add {
      assert !AtOp(ts, pos, "+") && AtOp(ts, pos, "-");
    }
  }

  /** The first operand of the chain. */
  lemma AddStart(ts: seq<SynToken>, lv: seq<LVar>, pos: nat)
    ensures pos <= |ts| ==>
      var m := Parser.Mul(ts, lv, pos);
      Parser.Add(ts, lv, pos) == if m.Ok? then Parser.AddRest(ts, lv, m.value.node, m.value.next) else Err
  {
  }

  /** No operator at `pos`: the chain ends there. */
  lemma AddStop(ts: seq<SynToken>, lv: seq<LVar>, lhs: Node, pos: nat)
    ensures pos <= |ts| && !AddOpAt(ts, pos, Ast.Add) && !AddOpAt(ts, pos, Sub) ==>
      Parser.AddRest(ts, lv, lhs, pos) == Ok(Parser.Parsed(lhs, pos))
  {
  }

  /** The operator `==` or `!=` at `pos` and the operand after it. */
  lemma EqualityRestStep(ts: seq<SynToken>, lv: seq<LVar>, lhs: Node, pos: nat, k: NodeKind)
    ensures EqOpAt(ts, pos, k) ==>
      var r := Parser.Relational(ts, lv, pos + 1);
      Parser.EqualityRest(ts, lv, lhs, pos)
      == if r.Ok? then Parser.EqualityRest(ts, lv, NewNode(k, lhs, Some(r.value.node)), r.value.next) else Err
  {
    if EqOpAt(ts, pos, k) && k != Eq {
      assert !AtOp(ts, pos, "==") && AtOp(ts, pos, "!=");
    }
  }

  /** The first operand of the chain. */
  lemma EqualityStart(ts: seq<SynToken>, lv: seq<LVar>, pos: nat)
    ensures pos <= |ts| ==>
      var r := Parser.Relational(ts, lv, pos);
      Parser.Equality(ts, lv, pos) == if r.Ok? then Parser.EqualityRest(ts, lv, r.value.node, r.value.next) else Err
  {
  }

  /** No operator at `pos`: the chain ends there. */
  lemma EqualityStop(ts: seq<SynToken>, lv: seq<LVar>, lhs: Node, pos: nat)
    ensures pos <= |ts| && !EqOpAt(ts, pos, Eq) && !EqOpAt(ts, pos, Ne) ==>
      Parser.EqualityRest(ts, lv, lhs, pos) == Ok(Parser.Parsed(lhs, pos))
  {
  }

  /** The comparison at `pos` builds a `kind` node, with its operands
      swapped when `swap` holds: `<` is `Lt`, `>` is `Lt` swapped, `<=` is
      `Le` and `>=` is `Le` swapped. */
  predicate RelOpIs(ts: seq<SynToken>, pos: nat, kind: NodeKind, swap: bool) {
    || (kind == Lt && !swap && AtOp(ts, pos, "<"))
    || (kind == Lt && swap && AtOp(ts, pos, ">"))
    || (kind == Le && !swap && AtOp(ts, pos, "<="))
    || (kind == Le && swap && AtOp(ts, pos, ">="))
  }

  /** The node a comparison builds over the tree read so far and the
      operand after the operator. */
  function Compare(kind: NodeKind, swap: bool, lhs: Node, operand: Node): Node {
    if swap then NewNode(kind, operand, Some(lhs)) else NewNode(kind, lhs, Some(operand))
  }

  /** One step of `Relational`'s loop. */
  lemma RelationalRestStep(ts: seq<SynToken>, lv: seq<LVar>, lhs: Node, pos: nat, kind: NodeKind, swap: bool)
    ensures RelOpIs(ts, pos, kind, swap) ==>
      var a := Parser.Add(ts, lv, pos + 1);
      Parser.RelationalRest(ts, lv, lhs, pos)
      == if a.Ok? then Parser.RelationalRest(ts, lv, Compare(kind, swap, lhs, a.value.node), a.value.next) else Err
  {
    if RelOpIs(ts, pos, kind, swap) {
      if kind == Lt && swap {
        assert !AtOp(ts, pos, "<");
      } else if kind == Le && !swap {
        assert !AtOp(ts, pos, "<") && !AtOp(ts, pos, ">");
      } else if kind == Le && swap {
        assert !AtOp(ts, pos, "<") && !AtOp(ts, pos, ">") && !AtOp(ts, pos, "<=");
      }
    }
  }

  lemma RelationalStart(ts: seq<SynToken>, lv: seq<LVar>, pos: nat)
    ensures pos <= |ts| ==>
      var a := Parser.Add(ts, lv, pos);
      Parser.Relational(ts, lv, pos) == if a.Ok? then Parser.RelationalRest(ts, lv, a.value.node, a.value.next) else Err
  {
  }

  lemma RelationalStop(ts: seq<SynToken>, lv: seq<LVar>, lhs: Node, pos: nat)
    ensures pos <= |ts| && !RelOpAt(ts, pos) ==>
      Parser.RelationalRest(ts, lv, lhs, pos) == Ok(Parser.Parsed(lhs, pos))
  {
  }

  /** `+p` is `p`. */
  lemma UnaryPlus(ts: seq<SynToken>, lv: seq<LVar>, pos: nat)
    requires pos <= |ts| && AtOp(ts, pos, "+")
    ensures Parser.Unary(ts, lv, pos) == Parser.Primary(ts, lv, pos + 1)
  {
  }

  /** `-p` is `0 - p`. */
  lemma UnaryMinus(ts: seq<SynToken>, lv: seq<LVar>, pos: nat)
    requires pos <= |ts| && AtOp(ts, pos, "-")
    ensures var p := Parser.Primary(ts, lv, pos + 1);
      Parser.Unary(ts, lv, pos)
      == if p.Ok? then Ok(Parser.Parsed(NewNode(Sub, NewNodeNum(0), Some(p.value.node)), p.value.next)) else Err
  {
  }

  /** A unary expression that starts with `&` or `*` wraps the unary after it. */
  lemma UnaryPrefix(ts: seq<SynToken>, lv: seq<LVar>, pos: nat, op: string, kind: NodeKind)
    requires pos <= |ts| && !AtOp(ts, pos, "+") && !AtOp(ts, pos, "-")
    requires (op == "&" && kind == Addr) || (op == "*" && kind == DeRef && !AtOp(ts, pos, "&"))
    requires AtOp(ts, pos, op)
    ensures var u := Parser.Unary(ts, lv, pos + 1);
      Parser.Unary(ts, lv, pos)
      == if u.Ok? then Ok(Parser.Parsed(NewNode(kind, u.value.node, None), u.value.next)) else Err
  {
  }

  /** A unary expression that starts with `sizeof` is its folded operand. */
  lemma UnarySizeof(ts: seq<SynToken>, lv: seq<LVar>, pos: nat)
    requires pos <= |ts| && !AtOp(ts, pos, "+") && !AtOp(ts, pos, "-") && !AtOp(ts, pos, "&") && !AtOp(ts, pos, "*")
    requires AtKind(ts, pos, Sizeof)
    ensures Parser.Unary(ts, lv, pos) == Parser.SizeofOperand(ts, lv, pos + 1)
  {
  }

  /** Any other unary expression is a primary. */
  lemma UnaryPrimary(ts: seq<SynToken>, lv: seq<LVar>, pos: nat)
    requires pos <= |ts| && !AtOp(ts, pos, "+") && !AtOp(ts, pos, "-") && !AtOp(ts, pos, "&") && !AtOp(ts, pos, "*")
    requires !AtKind(ts, pos, Sizeof)
    ensures Parser.Unary(ts, lv, pos) == Parser.Primary(ts, lv, pos)
  {
  }

  /** The statement forms, chosen by the first token. */
  lemma StmtForms(ts: seq<SynToken>, lv: seq<LVar>, pos: nat)
    requires pos <= |ts|
    ensures AtOp(ts, pos, "{") ==>
      var b := Parser.Block(ts, lv, pos + 1);
      Parser.Stmt(ts, lv, pos)
      == if b.Ok? then Ok(Parser.Parsed(Blank(Ast.Block).(bodies := b.value.value), b.value.next)) else Err
    ensures !AtOp(ts, pos, "{") && AtKind(ts, pos, SynKind.If) ==> Parser.Stmt(ts, lv, pos) == Parser.IfStmt(ts, lv, pos + 1)
    ensures !AtOp(ts, pos, "{") && !AtKind(ts, pos, SynKind.If) && AtKind(ts, pos, SynKind.While) ==>
      Parser.Stmt(ts, lv, pos) == Parser.WhileStmt(ts, lv, pos + 1)
    ensures !AtOp(ts, pos, "{") && !AtKind(ts, pos, SynKind.If) && !AtKind(ts, pos, SynKind.While) && AtKind(ts, pos, SynKind.For) ==>
      Parser.Stmt(ts, lv, pos) == Parser.ForStmt(ts, lv, pos + 1)
    ensures !AtOp(ts, pos, "{") && !AtKind(ts, pos, SynKind.If) && !AtKind(ts, pos, SynKind.While) && !AtKind(ts, pos, SynKind.For)
            && AtKind(ts, pos, SynKind.Return) ==>
      Parser.Stmt(ts, lv, pos) == Parser.ReturnStmt(ts, lv, pos + 1)
    ensures !AtOp(ts, pos, "{") && !AtKind(ts, pos, SynKind.If) && !AtKind(ts, pos, SynKind.While) && !AtKind(ts, pos, SynKind.For)
            && !AtKind(ts, pos, SynKind.Return) && AtKind(ts, pos, SynKind.Type) ==>
      Parser.Stmt(ts, lv, pos) == Parser.Declaration(ts, lv, pos + 1)
    ensures !AtOp(ts, pos, "{") && !AtKind(ts, pos, SynKind.If) && !AtKind(ts, pos, SynKind.While) && !AtKind(ts, pos, SynKind.For)
            && !AtKind(ts, pos, SynKind.Return) && !AtKind(ts, pos, SynKind.Type) ==>
      Parser.Stmt(ts, lv, pos) == Parser.ExprStmt(ts, lv, pos)
  {
  }

  /** An identifier followed by `(` is a call. */
  lemma CallForm(ts: seq<SynToken>, lv: seq<LVar>, pos: nat)
    requires pos < |ts| && AtKind(ts, pos, Ident) && AtOp(ts, pos + 1, "(")
    ensures var args := Parser.Args(ts, lv, pos + 2);
      Parser.Identifier(ts, lv, pos)
      == if args.Ok? then Ok(Parser.Parsed(Blank(FuncCall).(funcName := Some(ts[pos].str), arguments := args.value.value), args.value.next))
         else Err
  {
  }

  /** An identifier followed by `[` is an element of that variable. */
  lemma ElementForm(ts: seq<SynToken>, lv: seq<LVar>, pos: nat)
    requires pos < |ts| && AtKind(ts, pos, Ident) && !AtOp(ts, pos + 1, "(") && AtOp(ts, pos + 1, "[")
    ensures var v := Parser.FindVar(lv, ts[pos].str);
      Parser.Identifier(ts, lv, pos) == if v.Ok? then Parser.Element(ts, lv, v.value, pos + 2) else Err
  {
  }

  /** Any other identifier is a variable of the table. */
  lemma VariableForm(ts: seq<SynToken>, lv: seq<LVar>, pos: nat)
    requires pos < |ts| && AtKind(ts, pos, Ident) && !AtOp(ts, pos + 1, "(") && !AtOp(ts, pos + 1, "[")
    ensures var v := Parser.FindVar(lv, ts[pos].str);
      Parser.Identifier(ts, lv, pos) == if v.Ok? then Ok(Parser.Parsed(NewNodeIdent(v.value), pos + 1)) else Err
  {
  }

  /** `a * b / c` is `(a * b) / c`: the loop of `Mul` combines each new
      operand with the tree read so far. */
  lemma MulAssociatesLeft(ts: seq<SynToken>, lv: seq<LVar>, pos: nat,
                          a: Parser.Parsed, k1: NodeKind, b: Parser.Parsed, k2: NodeKind, c: Parser.Parsed)
    requires pos <= |ts| && Parser.Unary(ts, lv, pos) == Ok(a)
    requires MulOpAt(ts, a.next, k1) && Parser.Unary(ts, lv, a.next + 1) == Ok(b)
    requires MulOpAt(ts, b.next, k2) && Parser.Unary(ts, lv, b.next + 1) == Ok(c)
    requires !MulOpAt(ts, c.next, Ast.Mul) && !MulOpAt(ts, c.next, Div)
    ensures Parser.Mul(ts, lv, pos)
         == Ok(Parser.Parsed(NewNode(k2, NewNode(k1, a.node, Some(b.node)), Some(c.node)), c.next))
  {
    var x := NewNode(k1, a.node, Some(b.node));
    MulStart(ts, lv, pos);
    MulRestStep(ts, lv, a.node, a.next, k1);
    MulRestStep(ts, lv, x, b.next, k2);
    MulStop(ts, lv, NewNode(k2, x, Some(c.node)), c.next);
  }

  /** `a + b - c` is `(a + b) - c`. */
  lemma AddAssociatesLeft(ts: seq<SynToken>, lv: seq<LVar>, pos: nat,
                          a: Parser.Parsed, k1: NodeKind, b: Parser.Parsed, k2: NodeKind, c: Parser.Parsed)
    requires pos <= |ts| && Parser.Mul(ts, lv, pos) == Ok(a)
    requires AddOpAt(ts, a.next, k1) && Parser.Mul(ts, lv, a.next + 1) == Ok(b)
    requires AddOpAt(ts, b.next, k2) && Parser.Mul(ts, lv, b.next + 1) == Ok(c)
    requires !AddOpAt(ts, c.next, Ast.Add) && !AddOpAt(ts, c.next, Sub)
    ensures Parser.Add(ts, lv, pos)
         == Ok(Parser.Parsed(NewNode(k2, NewNode(k1, a.node, Some(b.node)), Some(c.node)), c.next))
  {
    var x := NewNode(k1, a.node, Some(b.node));
    AddStart(ts, lv, pos);
    AddRestStep(ts, lv, a.node, a.next, k1);
    AddRestStep(ts, lv, x, b.next, k2);
    AddStop(ts, lv, NewNode(k2, x, Some(c.node)), c.next);
  }

  /** `a == b != c` is `(a == b) != c`. */
  lemma EqualityAssociatesLeft(ts: seq<SynToken>, lv: seq<LVar>, pos: nat,
                               a: Parser.Parsed, k1: NodeKind, b: Parser.Parsed, k2: NodeKind, c: Parser.Parsed)
    requires pos <= |ts| && Parser.Relational(ts, lv, pos) == Ok(a)
    requires EqOpAt(ts, a.next, k1) && Parser.Relational(ts, lv, a.next + 1) == Ok(b)
    requires EqOpAt(ts, b.next, k2) && Parser.Relational(ts, lv, b.next + 1) == Ok(c)
    requires !EqOpAt(ts, c.next, Eq) && !EqOpAt(ts, c.next, Ne)
    ensures Parser.Equality(ts, lv, pos)
         == Ok(Parser.Parsed(NewNode(k2, NewNode(k1, a.node, Some(b.node)), Some(c.node)), c.next))
  {
    var x := NewNode(k1, a.node, Some(b.node));
    EqualityStart(ts, lv, pos);
    EqualityRestStep(ts, lv, a.node, a.next, k1);
    EqualityRestStep(ts, lv, x, b.next, k2);
    EqualityStop(ts, lv, NewNode(k2, x, Some(c.node)), c.next);
  }

  /** Two comparisons group to the left, whichever of `<`, `<=`, `>` and
      `>=` they are: `a > b <= c` is `(b < a) <= c`, the tree read so far
      taking the place of the left operand, swapped for `>` and `>=`. */
  lemma RelationalAssociatesLeft(ts: seq<SynToken>, lv: seq<LVar>, pos: nat,
                                 a: Parser.Parsed, k1: NodeKind, s1: bool, b: Parser.Parsed,
                                 k2: NodeKind, s2: bool, c: Parser.Parsed)
    requires pos <= |ts| && Parser.Add(ts, lv, pos) == Ok(a)
    requires RelOpIs(ts, a.next, k1, s1) && Parser.Add(ts, lv, a.next + 1) == Ok(b)
    requires RelOpIs(ts, b.next, k2, s2) && Parser.Add(ts, lv, b.next + 1) == Ok(c)
    requires !RelOpAt(ts, c.next)
    ensures Parser.Relational(ts, lv, pos)
         == Ok(Parser.Parsed(Compare(k2, s2, Compare(k1, s1, a.node, b.node), c.node), c.next))
  {
    var x := Compare(k1, s1, a.node, b.node);
    RelationalStart(ts, lv, pos);
    RelationalRestStep(ts, lv, a.node, a.next, k1, s1);
    RelationalRestStep(ts, lv, x, b.next, k2, s2);
    RelationalStop(ts, lv, Compare(k2, s2, x, c.node), c.next);
  }

  /** `a > b` is read as `b < a` and `a >= b` as `b <= a`; `<` and `<=`
      keep their operands in order. */
  lemma ComparisonOperands(ts: seq<SynToken>, lv: seq<LVar>, pos: nat, a: Parser.Parsed, b: Parser.Parsed)
    requires pos <= |ts| && Parser.Add(ts, lv, pos) == Ok(a)
    requires RelOpAt(ts, a.next) && Parser.Add(ts, lv, a.next + 1) == Ok(b)
    requires !RelOpAt(ts, b.next)
    ensures AtOp(ts, a.next, "<") ==>
      Parser.Relational(ts, lv, pos) == Ok(Parser.Parsed(NewNode(Lt, a.node, Some(b.node)), b.next))
    ensures AtOp(ts, a.next, ">") ==>
      Parser.Relational(ts, lv, pos) == Ok(Parser.Parsed(NewNode(Lt, b.node, Some(a.node)), b.next))
    ensures AtOp(ts, a.next, "<=") ==>
      Parser.Relational(ts, lv, pos) == Ok(Parser.Parsed(NewNode(Le, a.node, Some(b.node)), b.next))
    ensures AtOp(ts, a.next, ">=") ==>
      Parser.Relational(ts, lv, pos) == Ok(Parser.Parsed(NewNode(Le, b.node, Some(a.node)), b.next))
  {
    RelationalRestStep(ts, lv, a.node, a.next, Lt, false);
    RelationalRestStep(ts, lv, a.node, a.next, Lt, true);
    RelationalRestStep(ts, lv, a.node, a.next, Le, false);
    RelationalRestStep(ts, lv, a.node, a.next, Le, true);
    RelationalStop(ts, lv, Compare(Lt, false, a.node, b.node), b.next);
    RelationalStop(ts, lv, Compare(Lt, true, a.node, b.node), b.next);
    RelationalStop(ts, lv, Compare(Le, false, a.node, b.node), b.next);
    RelationalStop(ts, lv, Compare(Le, true, a.node, b.node), b.next);
  }

  /** `assign` with a further `=`: the right operand is itself an `assign`. */
  lemma AssignMore(ts: seq<SynToken>, lv: seq<LVar>, pos: int, e: Parser.Parsed, a: Parser.Parsed)
    ensures 0 <= pos <= |ts| && Parser.Equality(ts, lv, pos) == Ok(e) && AtOp(ts, e.next, "=") &&
            Parser.Assign(ts, lv, e.next + 1) == Ok(a) ==>
      Parser.Assign(ts, lv, pos) == Ok(Parser.Parsed(NewNode(Ast.Assign, e.node, Some(a.node)), a.next))
  {
  }

  /** `assign` without a further `=` is its `equality`. */
  lemma AssignLast(ts: seq<SynToken>, lv: seq<LVar>, pos: int, e: Parser.Parsed)
    ensures 0 <= pos <= |ts| && Parser.Equality(ts, lv, pos) == Ok(e) && !AtOp(ts, e.next, "=") ==>
      Parser.Assign(ts, lv, pos) == Ok(e)
  {
  }

  /** `a = b = c` is `a = (b = c)`. */
  lemma AssignAssociatesRight(ts: seq<SynToken>, lv: seq<LVar>, pos: nat,
                              a: Parser.Parsed, b: Parser.Parsed, c: Parser.Parsed)
    requires pos <= |ts| && Parser.Equality(ts, lv, pos) == Ok(a)
    requires AtOp(ts, a.next, "=") && Parser.Equality(ts, lv, a.next + 1) == Ok(b)
    requires AtOp(ts, b.next, "=") && Parser.Equality(ts, lv, b.next + 1) == Ok(c)
    requires !AtOp(ts, c.next, "=")
    ensures Parser.Assign(ts, lv, pos)
         == Ok(Parser.Parsed(NewNode(Ast.Assign, a.node, Some(NewNode(Ast.Assign, b.node, Some(c.node)))), c.next))
  {
    var bc := Parser.Parsed(NewNode(Ast.Assign, b.node, Some(c.node)), c.next);
    AssignLast(ts, lv, b.next + 1, c);
    AssignMore(ts, lv, a.next + 1, b, c);
    AssignMore(ts, lv, pos, a, bc);
  }

  // ---------------------------------------------------------------------
  // Rewrites of unary and postfix forms

  /** `a[e]` is `*(a + e)`, with `a` a variable of the table. */
  lemma IndexIsDeref(ts: seq<SynToken>, lv: seq<LVar>, pos: nat, v: LVar, e: Parser.Parsed)
    requires pos + 1 < |ts| && AtKind(ts, pos, Ident) && AtOp(ts, pos + 1, "[")
    requires Parser.FindVar(lv, ts[pos].str) == Ok(v) && Parser.Expr(ts, lv, pos + 2) == Ok(e)
    requires AtOp(ts, e.next, "]")
    ensures Parser.Primary(ts, lv, pos)
         == Ok(Parser.Parsed(NewNode(DeRef, NewNode(Ast.Add, NewNodeIdent(v), Some(e.node)), None), e.next + 1))
  {
    assert Parser.Primary(ts, lv, pos) == Parser.Identifier(ts, lv, pos);
    assert Parser.Identifier(ts, lv, pos) == Parser.Element(ts, lv, v, pos + 2);
  }

  /** A name that is not in the table is an error, as a variable, as an
      indexed variable or in a declaration; only the name of a called
      function is exempt. */
  lemma UnknownNameRejected(ts: seq<SynToken>, lv: seq<LVar>, pos: nat)
    requires pos < |ts| && AtKind(ts, pos, Ident) && !Symbols.Declared(lv, ts[pos].str)
    ensures !AtOp(ts, pos + 1, "(") ==> Parser.Primary(ts, lv, pos).Err?
    ensures pos > 0 && AtKind(ts, pos - 1, SynKind.Type) ==> Parser.Stmt(ts, lv, pos - 1).Err?
  {
  }

  /** `sizeof u` folds to the number 8 when `u` is a pointer or array
      variable, a variable of type `int` or a number, and is an error for
      anything else. */
  lemma SizeofFolds(ts: seq<SynToken>, lv: seq<LVar>, pos: nat, u: Parser.Parsed)
    requires pos < |ts| && AtKind(ts, pos, Sizeof) && Parser.Unary(ts, lv, pos + 1) == Ok(u)
    ensures var n := u.node;
      var sized := (n.kind == Lvar && n.lvar.Some? && (n.lvar.value.pointerCount > 0 || n.lvar.value.kind == Types.Int))
                   || n.kind == NodeKind.Num;
      Parser.Unary(ts, lv, pos) == if sized then Ok(Parser.Parsed(NewNodeNum(8), u.next)) else Err
  {
    assert !AtOp(ts, pos, "+") && !AtOp(ts, pos, "-") && !AtOp(ts, pos, "&") && !AtOp(ts, pos, "*");
  }
}
