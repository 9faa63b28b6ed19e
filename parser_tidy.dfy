/** Every tree the grammar of module Parser builds is tidy over the local
    table it was read against (Honyac/NodeMap.cs:181-204): a number is the
    only node with a value, a variable reference the only node with an
    offset, which is that of its variable, and every variable a node refers
    to is an entry of the table. The lemmas follow the grammar functions one
    for one, with the same termination measure. */
module ParserTidy {
  import opened Wrappers
  import opened SynTokens
  import Ast
  import Parser
  import Symbols
  import ParserFacts

  /** The clauses of a `for` header are tidy. */
  predicate ForHeadTidy(h: Parser.ForHead, lv: seq<Ast.LVar>) {
    && (h.initialize.Some? ==> Ast.Tidy(h.initialize.value, lv))
    && (h.condition.Some? ==> Ast.Tidy(h.condition.value, lv))
    && (h.loop.Some? ==> Ast.Tidy(h.loop.value, lv))
  }

  /** A function node carries its local table, and its body is tidy over
      that table. */
  predicate IsFunctionNode(n: Ast.Node) {
    n.kind == Ast.Function && n.funcName.Some? && n.lhs.Some? && n.lvars.Some? && Ast.Tidy(n, n.lvars.value)
  }

  // ---------------------------------------------------------------------
  // Expressions

  lemma {:induction false} PrimaryTidy(ts: seq<SynToken>, lv: seq<Ast.LVar>, pos: nat)
    requires pos <= |ts|
    ensures var r := Parser.Primary(ts, lv, pos); r.Ok? ==> Ast.Tidy(r.value.node, lv)
    decreases |ts| - pos, 1
  {
    var r := Parser.Primary(ts, lv, pos);
    if r.Ok? {
      if AtOp(ts, pos, "(") {
        var e := Parser.Expr(ts, lv, pos + 1).value;
        ExprTidy(ts, lv, pos + 1);
        assert r.value.node == e.node;
      } else if AtKind(ts, pos, Ident) {
        IdentifierTidy(ts, lv, pos);
        assert r == Parser.Identifier(ts, lv, pos);
      } else {
        var n := ExpectNumber(ts, pos).value;
        assert r.value.node == Ast.NewNodeNum(n.value);
        Ast.NewNodeNumTidy(n.value, lv);
      }
    }
  }

  lemma {:induction false} IdentifierTidy(ts: seq<SynToken>, lv: seq<Ast.LVar>, pos: nat)
    requires pos < |ts| && AtKind(ts, pos, Ident)
    ensures var r := Parser.Identifier(ts, lv, pos); r.Ok? ==> Ast.Tidy(r.value.node, lv)
    decreases |ts| - pos, 0
  {
    var r := Parser.Identifier(ts, lv, pos);
    if r.Ok? {
      var name := ts[pos].str;
      if AtOp(ts, pos + 1, "(") {
        var args := Parser.Args(ts, lv, pos + 2).value;
        ArgsTidy(ts, lv, pos + 2);
        assert r.value.node == Ast.Blank(Ast.FuncCall).(funcName := Some(name), arguments := args.value);
        Ast.CallTidy(name, args.value, lv);
      } else {
        var v := Parser.FindVar(lv, name).value;
        if AtOp(ts, pos + 1, "[") {
          ElementTidy(ts, lv, v, pos + 2);
          assert r == Parser.Element(ts, lv, v, pos + 2);
        } else {
          assert r.value.node == Ast.NewNodeIdent(v);
          Ast.NewNodeIdentTidy(v, lv);
        }
      }
    }
  }

  lemma {:induction false} ElementTidy(ts: seq<SynToken>, lv: seq<Ast.LVar>, v: Ast.LVar, pos: nat)
    requires pos <= |ts|
    ensures var r := Parser.Element(ts, lv, v, pos);
      r.Ok? && v in lv ==> Ast.Tidy(r.value.node, lv)
    decreases |ts| - pos, 9
  {
    var e := Parser.Expr(ts, lv, pos);
    ExprTidy(ts, lv, pos);
    if e.Ok? {
      ElementNodeTidy(v, e.value.node, lv);
    }
  }

  /** `*(v + e)` is tidy when `v` is in the table and `e` is tidy. */
  lemma ElementNodeTidy(v: Ast.LVar, e: Ast.Node, lv: seq<Ast.LVar>)
    ensures v in lv && Ast.Tidy(e, lv) ==>
      Ast.Tidy(Ast.NewNode(Ast.DeRef, Ast.NewNode(Ast.Add, Ast.NewNodeIdent(v), Some(e)), None), lv)
  {
    Ast.NewNodeIdentTidy(v, lv);
    Ast.NewNodeTidy(Ast.Add, Ast.NewNodeIdent(v), Some(e), lv);
    Ast.NewNodeTidy(Ast.DeRef, Ast.NewNode(Ast.Add, Ast.NewNodeIdent(v), Some(e)), None, lv);
  }

  lemma {:induction false} ArgsTidy(ts: seq<SynToken>, lv: seq<Ast.LVar>, pos: nat)
    requires pos <= |ts|
    ensures var r := Parser.Args(ts, lv, pos);
      r.Ok? ==> Ast.AllTidy(r.value.value, lv)
    decreases |ts| - pos, 9
  {
    var r := Parser.Args(ts, lv, pos);
    if r.Ok? && !AtOp(ts, pos, ")") {
      var e := Parser.Expr(ts, lv, pos).value;
      ExprTidy(ts, lv, pos);
      var p := if AtOp(ts, e.next, ",") then e.next + 1 else e.next;
      var rest := Parser.Args(ts, lv, p).value;
      ArgsTidy(ts, lv, p);
      assert r.value.value == [e.node] + rest.value;
      Ast.AllTidyCons(e.node, rest.value, lv);
    }
  }

  lemma {:induction false} UnaryTidy(ts: seq<SynToken>, lv: seq<Ast.LVar>, pos: nat)
    requires pos <= |ts|
    ensures var r := Parser.Unary(ts, lv, pos); r.Ok? ==> Ast.Tidy(r.value.node, lv)
    decreases |ts| - pos, 2
  {
    var r := Parser.Unary(ts, lv, pos);
    if r.Ok? {
      if AtOp(ts, pos, "+") {
        PrimaryTidy(ts, lv, pos + 1);
        assert r == Parser.Primary(ts, lv, pos + 1);
      } else if AtOp(ts, pos, "-") {
        var p := Parser.Primary(ts, lv, pos + 1).value;
        PrimaryTidy(ts, lv, pos + 1);
        assert r.value.node == Ast.NewNode(Ast.Sub, Ast.NewNodeNum(0), Some(p.node));
        Ast.NewNodeNumTidy(0, lv);
        Ast.NewNodeTidy(Ast.Sub, Ast.NewNodeNum(0), Some(p.node), lv);
      } else if AtOp(ts, pos, "&") || AtOp(ts, pos, "*") {
        var k := if AtOp(ts, pos, "&") then Ast.Addr else Ast.DeRef;
        var u := Parser.Unary(ts, lv, pos + 1).value;
        UnaryTidy(ts, lv, pos + 1);
        assert r.value.node == Ast.NewNode(k, u.node, None);
        Ast.NewNodeTidy(k, u.node, None, lv);
      } else if AtKind(ts, pos, Sizeof) {
        assert Parser.SizeofOperand(ts, lv, pos + 1).Ok?;
        var u := Parser.Unary(ts, lv, pos + 1).value;
        assert r.value.node == Ast.NewNodeNum(Parser.SizeOf(u.node).value);
        Ast.NewNodeNumTidy(Parser.SizeOf(u.node).value, lv);
      } else {
        PrimaryTidy(ts, lv, pos);
        assert r == Parser.Primary(ts, lv, pos);
      }
    }
  }

  lemma {:induction false} MulTidy(ts: seq<SynToken>, lv: seq<Ast.LVar>, pos: nat)
    requires pos <= |ts|
    ensures var r := Parser.Mul(ts, lv, pos); r.Ok? ==> Ast.Tidy(r.value.node, lv)
    decreases |ts| - pos, 3
  {
    UnaryTidy(ts, lv, pos);
    var u := Parser.Unary(ts, lv, pos);
    if u.Ok? {
      MulRestTidy(ts, lv, u.value.node, u.value.next);
    }
  }

  lemma {:induction false} MulRestTidy(ts: seq<SynToken>, lv: seq<Ast.LVar>, lhs: Ast.Node, pos: nat)
    requires pos <= |ts|
    ensures var r := Parser.MulRest(ts, lv, lhs, pos);
      r.Ok? && Ast.Tidy(lhs, lv) ==> Ast.Tidy(r.value.node, lv)
    decreases |ts| - pos, 3
  {
    if AtOp(ts, pos, "*") {
      MulStepTidy(ts, lv, lhs, pos, Ast.Mul);
    } else if AtOp(ts, pos, "/") {
      MulStepTidy(ts, lv, lhs, pos, Ast.Div);
    }
  }

  lemma {:induction false} MulStepTidy(ts: seq<SynToken>, lv: seq<Ast.LVar>, lhs: Ast.Node, pos: nat, kind: Ast.NodeKind)
    requires pos <= |ts| && ParserFacts.MulOpAt(ts, pos, kind)
    ensures var r := Parser.MulRest(ts, lv, lhs, pos);
      r.Ok? && Ast.Tidy(lhs, lv) ==> Ast.Tidy(r.value.node, lv)
    decreases |ts| - pos, 2
  {
    ParserFacts.MulRestStep(ts, lv, lhs, pos, kind);
    var a := Parser.Unary(ts, lv, pos + 1);
    if a.Ok? && Ast.Tidy(lhs, lv) {
      UnaryTidy(ts, lv, pos + 1);
      Ast.NewNodeTidy(kind, lhs, Some(a.value.node), lv);
      MulRestTidy(ts, lv, Ast.NewNode(kind, lhs, Some(a.value.node)), a.value.next);
    }
  }

  lemma {:induction false} AddTidy(ts: seq<SynToken>, lv: seq<Ast.LVar>, pos: nat)
    requires pos <= |ts|
    ensures var r := Parser.Add(ts, lv, pos); r.Ok? ==> Ast.Tidy(r.value.node, lv)
    decreases |ts| - pos, 4
  {
    MulTidy(ts, lv, pos);
    var m := Parser.Mul(ts, lv, pos);
    if m.Ok? {
      AddRestTidy(ts, lv, m.value.node, m.value.next);
    }
  }

  lemma {:induction false} AddRestTidy(ts: seq<SynToken>, lv: seq<Ast.LVar>, lhs: Ast.Node, pos: nat)
    requires pos <= |ts|
    ensures var r := Parser.AddRest(ts, lv, lhs, pos);
      r.Ok? && Ast.Tidy(lhs, lv) ==> Ast.Tidy(r.value.node, lv)
    decreases |ts| - pos, 4
  {
    if AtOp(ts, pos, "+") {
      AddStepTidy(ts, lv, lhs, pos, Ast.Add);
    } else if AtOp(ts, pos, "-") {
      AddStepTidy(ts, lv, lhs, pos, Ast.Sub);
    }
  }

  lemma {:induction false} AddStepTidy(ts: seq<SynToken>, lv: seq<Ast.LVar>, lhs: Ast.Node, pos: nat, kind: Ast.NodeKind)
    requires pos <= |ts| && ParserFacts.AddOpAt(ts, pos, kind)
    ensures var r := Parser.AddRest(ts, lv, lhs, pos);
      r.Ok? && Ast.Tidy(lhs, lv) ==> Ast.Tidy(r.value.node, lv)
    decreases |ts| - pos, 3
  {
    ParserFacts.AddRestStep(ts, lv, lhs, pos, kind);
    var a := Parser.Mul(ts, lv, pos + 1);
    if a.Ok? && Ast.Tidy(lhs, lv) {
      MulTidy(ts, lv, pos + 1);
      Ast.NewNodeTidy(kind, lhs, Some(a.value.node), lv);
      AddRestTidy(ts, lv, Ast.NewNode(kind, lhs, Some(a.value.node)), a.value.next);
    }
  }

  lemma {:induction false} RelationalTidy(ts: seq<SynToken>, lv: seq<Ast.LVar>, pos: nat)
    requires pos <= |ts|
    ensures var r := Parser.Relational(ts, lv, pos); r.Ok? ==> Ast.Tidy(r.value.node, lv)
    decreases |ts| - pos, 5
  {
    AddTidy(ts, lv, pos);
    var a := Parser.Add(ts, lv, pos);
    if a.Ok? {
      RelationalRestTidy(ts, lv, a.value.node, a.value.next);
    }
  }

  lemma {:induction false} RelationalRestTidy(ts: seq<SynToken>, lv: seq<Ast.LVar>, lhs: Ast.Node, pos: nat)
    requires pos <= |ts|
    ensures var r := Parser.RelationalRest(ts, lv, lhs, pos);
      r.Ok? && Ast.Tidy(lhs, lv) ==> Ast.Tidy(r.value.node, lv)
    decreases |ts| - pos, 5
  {
    if AtOp(ts, pos, "<") {
      CompareStepTidy(ts, lv, lhs, pos, Ast.Lt, false);
    } else if AtOp(ts, pos, ">") {
      CompareStepTidy(ts, lv, lhs, pos, Ast.Lt, true);
    } else if AtOp(ts, pos, "<=") {
      CompareStepTidy(ts, lv, lhs, pos, Ast.Le, false);
    } else if AtOp(ts, pos, ">=") {
      CompareStepTidy(ts, lv, lhs, pos, Ast.Le, true);
    }
  }

  /** One comparison of the chain keeps the tree tidy. */
  lemma {:induction false} CompareStepTidy(ts: seq<SynToken>, lv: seq<Ast.LVar>, lhs: Ast.Node, pos: nat,
                                           kind: Ast.NodeKind, swap: bool)
    requires pos <= |ts| && ParserFacts.RelOpIs(ts, pos, kind, swap)
    ensures var r := Parser.RelationalRest(ts, lv, lhs, pos);
      r.Ok? && Ast.Tidy(lhs, lv) ==> Ast.Tidy(r.value.node, lv)
    decreases |ts| - pos, 4
  {
    ParserFacts.RelationalRestStep(ts, lv, lhs, pos, kind, swap);
    var a := Parser.Add(ts, lv, pos + 1);
    if a.Ok? && Ast.Tidy(lhs, lv) {
      AddTidy(ts, lv, pos + 1);
      CompareTidy(kind, swap, lhs, a.value.node, lv);
      RelationalRestTidy(ts, lv, ParserFacts.Compare(kind, swap, lhs, a.value.node), a.value.next);
    }
  }

  /** A comparison over tidy operands is tidy. */
  lemma CompareTidy(kind: Ast.NodeKind, swap: bool, lhs: Ast.Node, operand: Ast.Node, lv: seq<Ast.LVar>)
    ensures kind in {Ast.Lt, Ast.Le} && Ast.Tidy(lhs, lv) && Ast.Tidy(operand, lv) ==>
      Ast.Tidy(ParserFacts.Compare(kind, swap, lhs, operand), lv)
  {
    Ast.NewNodeTidy(kind, operand, Some(lhs), lv);
    Ast.NewNodeTidy(kind, lhs, Some(operand), lv);
  }

  lemma {:induction false} EqualityTidy(ts: seq<SynToken>, lv: seq<Ast.LVar>, pos: nat)
    requires pos <= |ts|
    ensures var r := Parser.Equality(ts, lv, pos); r.Ok? ==> Ast.Tidy(r.value.node, lv)
    decreases |ts| - pos, 6
  {
    RelationalTidy(ts, lv, pos);
    var a := Parser.Relational(ts, lv, pos);
    if a.Ok? {
      EqualityRestTidy(ts, lv, a.value.node, a.value.next);
    }
  }

  lemma {:induction false} EqualityRestTidy(ts: seq<SynToken>, lv: seq<Ast.LVar>, lhs: Ast.Node, pos: nat)
    requires pos <= |ts|
    ensures var r := Parser.EqualityRest(ts, lv, lhs, pos);
      r.Ok? && Ast.Tidy(lhs, lv) ==> Ast.Tidy(r.value.node, lv)
    decreases |ts| - pos, 6
  {
    if AtOp(ts, pos, "==") {
      EqualityStepTidy(ts, lv, lhs, pos, Ast.Eq);
    } else if AtOp(ts, pos, "!=") {
      EqualityStepTidy(ts, lv, lhs, pos, Ast.Ne);
    }
  }

  lemma {:induction false} EqualityStepTidy(ts: seq<SynToken>, lv: seq<Ast.LVar>, lhs: Ast.Node, pos: nat, kind: Ast.NodeKind)
    requires pos <= |ts| && ParserFacts.EqOpAt(ts, pos, kind)
    ensures var r := Parser.EqualityRest(ts, lv, lhs, pos);
      r.Ok? && Ast.Tidy(lhs, lv) ==> Ast.Tidy(r.value.node, lv)
    decreases |ts| - pos, 5
  {
    ParserFacts.EqualityRestStep(ts, lv, lhs, pos, kind);
    var a := Parser.Relational(ts, lv, pos + 1);
    if a.Ok? && Ast.Tidy(lhs, lv) {
      RelationalTidy(ts, lv, pos + 1);
      Ast.NewNodeTidy(kind, lhs, Some(a.value.node), lv);
      EqualityRestTidy(ts, lv, Ast.NewNode(kind, lhs, Some(a.value.node)), a.value.next);
    }
  }

  lemma {:induction false} AssignTidy(ts: seq<SynToken>, lv: seq<Ast.LVar>, pos: nat)
    requires pos <= |ts|
    ensures var r := Parser.Assign(ts, lv, pos); r.Ok? ==> Ast.Tidy(r.value.node, lv)
    decreases |ts| - pos, 7
  {
    var r := Parser.Assign(ts, lv, pos);
    if r.Ok? {
      var e := Parser.Equality(ts, lv, pos).value;
      EqualityTidy(ts, lv, pos);
      if AtOp(ts, e.next, "=") {
        var a := Parser.Assign(ts, lv, e.next + 1).value;
        AssignTidy(ts, lv, e.next + 1);
        assert r.value.node == Ast.NewNode(Ast.Assign, e.node, Some(a.node));
        Ast.NewNodeTidy(Ast.Assign, e.node, Some(a.node), lv);
      } else {
        assert r.value.node == e.node;
      }
    }
  }

  lemma {:induction false} ExprTidy(ts: seq<SynToken>, lv: seq<Ast.LVar>, pos: nat)
    requires pos <= |ts|
    ensures var r := Parser.Expr(ts, lv, pos); r.Ok? ==> Ast.Tidy(r.value.node, lv)
    decreases |ts| - pos, 8
  {
    AssignTidy(ts, lv, pos);
  }

  // ---------------------------------------------------------------------
  // Statements

  lemma {:induction false} ForClauseTidy(ts: seq<SynToken>, lv: seq<Ast.LVar>, pos: nat, close: string)
    requires pos <= |ts|
    ensures var r := Parser.ForClause(ts, lv, pos, close);
      r.Ok? && r.value.value.Some? ==> Ast.Tidy(r.value.value.value, lv)
    decreases |ts| - pos, 9
  {
    if !AtOp(ts, pos, close) {
      ExprTidy(ts, lv, pos);
    }
  }

  lemma {:induction false} ForClausesTidy(ts: seq<SynToken>, lv: seq<Ast.LVar>, pos: nat)
    requires pos <= |ts|
    ensures var r := Parser.ForClauses(ts, lv, pos); r.Ok? ==> ForHeadTidy(r.value.value, lv)
    decreases |ts| - pos, 10
  {
    ForClauseTidy(ts, lv, pos, ";");
    var init := Parser.ForClause(ts, lv, pos, ";");
    if init.Ok? {
      ForClauseTidy(ts, lv, init.value.next, ";");
      var cond := Parser.ForClause(ts, lv, init.value.next, ";");
      if cond.Ok? {
        ForClauseTidy(ts, lv, cond.value.next, ")");
      }
    }
  }

  lemma {:induction false} ConditionTidy(ts: seq<SynToken>, lv: seq<Ast.LVar>, pos: nat)
    requires pos <= |ts|
    ensures var r := Parser.Condition(ts, lv, pos); r.Ok? ==> Ast.Tidy(r.value.node, lv)
    decreases |ts| - pos, 9
  {
    var p := Expect(ts, pos, "(");
    if p.Ok? {
      ExprTidy(ts, lv, p.value);
    }
  }

  lemma {:induction false} StmtTidy(ts: seq<SynToken>, lv: seq<Ast.LVar>, pos: nat)
    requires pos <= |ts|
    ensures var r := Parser.Stmt(ts, lv, pos); r.Ok? ==> Ast.Tidy(r.value.node, lv)
    decreases |ts| - pos, 11
  {
    var r := Parser.Stmt(ts, lv, pos);
    if r.Ok? {
      if AtOp(ts, pos, "{") {
        var b := Parser.Block(ts, lv, pos + 1).value;
        BlockTidy(ts, lv, pos + 1);
        assert r.value.node == Ast.Blank(Ast.Block).(bodies := b.value);
        Ast.BlockNodeTidy(b.value, lv);
      } else if AtKind(ts, pos, If) {
        IfStmtTidy(ts, lv, pos + 1);
        assert r == Parser.IfStmt(ts, lv, pos + 1);
      } else if AtKind(ts, pos, While) {
        WhileStmtTidy(ts, lv, pos + 1);
        assert r == Parser.WhileStmt(ts, lv, pos + 1);
      } else if AtKind(ts, pos, For) {
        ForStmtTidy(ts, lv, pos + 1);
        assert r == Parser.ForStmt(ts, lv, pos + 1);
      } else if AtKind(ts, pos, Return) {
        ReturnStmtTidy(ts, lv, pos + 1);
        assert r == Parser.ReturnStmt(ts, lv, pos + 1);
      } else if AtKind(ts, pos, Type) {
        DeclarationTidy(ts, lv, pos + 1);
        assert r == Parser.Declaration(ts, lv, pos + 1);
      } else {
        ExprStmtTidy(ts, lv, pos);
        assert r == Parser.ExprStmt(ts, lv, pos);
      }
    }
  }

  /** A declaration node refers to the table's entry for its name. */
  lemma DeclarationTidy(ts: seq<SynToken>, lv: seq<Ast.LVar>, pos: nat)
    requires pos <= |ts|
    ensures var r := Parser.Declaration(ts, lv, pos); r.Ok? ==> Ast.Tidy(r.value.node, lv)
  {
  }

  lemma {:induction false} IfStmtTidy(ts: seq<SynToken>, lv: seq<Ast.LVar>, pos: nat)
    requires pos <= |ts|
    ensures var r := Parser.IfStmt(ts, lv, pos); r.Ok? ==> Ast.Tidy(r.value.node, lv)
    decreases |ts| - pos, 10
  {
    ConditionTidy(ts, lv, pos);
    var c := Parser.Condition(ts, lv, pos);
    if c.Ok? {
      IfArmsTidy(ts, lv, c.value.node, c.value.next);
    }
  }

  lemma {:induction false} IfArmsTidy(ts: seq<SynToken>, lv: seq<Ast.LVar>, cond: Ast.Node, pos: nat)
    requires pos <= |ts|
    ensures var r := Parser.IfArms(ts, lv, cond, pos);
      r.Ok? && Ast.Tidy(cond, lv) ==> Ast.Tidy(r.value.node, lv)
    decreases |ts| - pos, 12
  {
    var r := Parser.IfArms(ts, lv, cond, pos);
    if r.Ok? && Ast.Tidy(cond, lv) {
      var t := Parser.Stmt(ts, lv, pos).value;
      StmtTidy(ts, lv, pos);
      if AtKind(ts, t.next, Else) {
        var e := Parser.Stmt(ts, lv, t.next + 1).value;
        StmtTidy(ts, lv, t.next + 1);
        assert r.value.node == Ast.Blank(Ast.If).(condition := Some(cond), lhs := Some(t.node), rhs := Some(e.node));
        Ast.IfTidy(cond, t.node, Some(e.node), lv);
      } else {
        assert r.value.node == Ast.Blank(Ast.If).(condition := Some(cond), lhs := Some(t.node), rhs := None);
        Ast.IfTidy(cond, t.node, None, lv);
      }
    }
  }

  lemma {:induction false} WhileStmtTidy(ts: seq<SynToken>, lv: seq<Ast.LVar>, pos: nat)
    requires pos <= |ts|
    ensures var r := Parser.WhileStmt(ts, lv, pos); r.Ok? ==> Ast.Tidy(r.value.node, lv)
    decreases |ts| - pos, 10
  {
    ConditionTidy(ts, lv, pos);
    var c := Parser.Condition(ts, lv, pos);
    if c.Ok? {
      StmtTidy(ts, lv, c.value.next);
    }
  }

  lemma {:induction false} ForStmtTidy(ts: seq<SynToken>, lv: seq<Ast.LVar>, pos: nat)
    requires pos <= |ts|
    ensures var r := Parser.ForStmt(ts, lv, pos); r.Ok? ==> Ast.Tidy(r.value.node, lv)
    decreases |ts| - pos, 11
  {
    var p := Expect(ts, pos, "(");
    if p.Ok? {
      ForClausesTidy(ts, lv, p.value);
      var h := Parser.ForClauses(ts, lv, p.value);
      if h.Ok? {
        StmtTidy(ts, lv, h.value.next);
      }
    }
  }

  lemma {:induction false} ReturnStmtTidy(ts: seq<SynToken>, lv: seq<Ast.LVar>, pos: nat)
    requires pos <= |ts|
    ensures var r := Parser.ReturnStmt(ts, lv, pos); r.Ok? ==> Ast.Tidy(r.value.node, lv)
    decreases |ts| - pos, 10
  {
    ExprTidy(ts, lv, pos);
    var e := Parser.Expr(ts, lv, pos);
    if e.Ok? {
      Ast.NewNodeTidy(Ast.Return, e.value.node, None, lv);
    }
  }

  lemma {:induction false} ExprStmtTidy(ts: seq<SynToken>, lv: seq<Ast.LVar>, pos: nat)
    requires pos <= |ts|
    ensures var r := Parser.ExprStmt(ts, lv, pos); r.Ok? ==> Ast.Tidy(r.value.node, lv)
    decreases |ts| - pos, 10
  {
    ExprTidy(ts, lv, pos);
  }

  lemma {:induction false} BlockTidy(ts: seq<SynToken>, lv: seq<Ast.LVar>, pos: nat)
    requires pos <= |ts|
    ensures var r := Parser.Block(ts, lv, pos);
      r.Ok? ==> Ast.AllTidy(r.value.value, lv)
    decreases |ts| - pos, 12
  {
    var r := Parser.Block(ts, lv, pos);
    if r.Ok? && !AtOp(ts, pos, "}") {
      var s := Parser.Stmt(ts, lv, pos).value;
      StmtTidy(ts, lv, pos);
      var rest := Parser.Block(ts, lv, s.next).value;
      BlockTidy(ts, lv, s.next);
      assert r.value.value == [s.node] + rest.value;
      Ast.AllTidyCons(s.node, rest.value, lv);
    }
  }

  // ---------------------------------------------------------------------
  // Functions and the program

  /** A function node over a tidy body is a function node. */
  lemma FunctionNodeTidy(name: string, body: Ast.Node, lv: seq<Ast.LVar>)
    ensures Ast.Tidy(body, lv) ==>
      IsFunctionNode(Ast.Blank(Ast.Function).(funcName := Some(name), lhs := Some(body), lvars := Some(lv)))
  {
  }

  lemma FunctionTidy(ts: seq<SynToken>, pos: nat)
    requires pos <= |ts|
    ensures var r := Parser.Function(ts, pos); r.Ok? ==> IsFunctionNode(r.value.node)
  {
    var r := Parser.Function(ts, pos);
    if r.Ok? {
      var head := Parser.FunctionHeader(ts, pos).value;
      var args := Parser.ParamTokensFrom(ts, head.next).value;
      var lv := Symbols.LocalTable(Symbols.BodyWindow(ts, args.next), args.value).value;
      var body := Parser.Stmt(ts, lv, args.next).value;
      StmtTidy(ts, lv, args.next);
      assert r.value.node == Ast.Blank(Ast.Function).(funcName := Some(head.value), lhs := Some(body.node), lvars := Some(lv));
      FunctionNodeTidy(head.value, body.node, lv);
    }
  }

  /** Every node of a program is a function node. */
  predicate AllFunctionNodes(ns: seq<Ast.Node>) {
    forall i | 0 <= i < |ns| :: IsFunctionNode(ns[i])
  }

  lemma AllFunctionNodesCons(n: Ast.Node, ns: seq<Ast.Node>)
    ensures IsFunctionNode(n) && AllFunctionNodes(ns) ==> AllFunctionNodes([n] + ns)
  {
    if IsFunctionNode(n) && AllFunctionNodes(ns) {
      forall i | 0 <= i < |[n] + ns|
        ensures IsFunctionNode(([n] + ns)[i])
      {
        if i > 0 {
          assert ([n] + ns)[i] == ns[i - 1];
        }
      }
    }
  }

  /** Every function the program reads carries its name, its body and its
      table, and each body refers only to variables of its own table. */
  lemma {:induction false} ProgramTidy(ts: seq<SynToken>, pos: nat)
    requires pos <= |ts|
    ensures var r := Parser.Program(ts, pos); r.Ok? ==> AllFunctionNodes(r.value)
    decreases |ts| - pos
  {
    var r := Parser.Program(ts, pos);
    if r.Ok? && pos < |ts| {
      var f := Parser.Function(ts, pos).value;
      FunctionTidy(ts, pos);
      var rest := Parser.Program(ts, f.next).value;
      ProgramTidy(ts, f.next);
      assert r.value == [f.node] + rest;
      AllFunctionNodesCons(f.node, rest);
    }
  }
}
