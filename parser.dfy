/** The recursive-descent grammar of Honyac/NodeMap.cs as functions from a
    token position to the node read and the position after it. Every
    function fails exactly where the source throws and never reads past the
    last token; module ParserTidy shows that the trees only carry the
    fields their builders set and only refer to the local table. */
module Parser {
  import opened Wrappers
  import opened SynTokens
  import Types
  import Ast
  import Symbols

  /** A node read from the tokens and the cursor after it. */
  datatype Parsed = Parsed(node: Ast.Node, next: nat)

  /** `LVars.FirstOrDefault(lv => lv.Name == name)`: the first entry of the
      table with this name; a name that is not in the table is an error. */
  function FindVar(lv: seq<Ast.LVar>, name: string): (r: Result<Ast.LVar>)
    ensures r.Ok? <==> Symbols.Declared(lv, name)
    ensures r.Ok? ==> r.value in lv
    ensures r.Ok? ==> exists k | 0 <= k < |lv| ::
      (lv[k] == r.value && r.value.name == name && forall m | 0 <= m < k :: lv[m].name != name)
  {
    FindVarFrom(lv, name, 0)
  }

  function FindVarFrom(lv: seq<Ast.LVar>, name: string, k: nat): (r: Result<Ast.LVar>)
    requires k <= |lv|
    requires forall m | 0 <= m < k :: lv[m].name != name
    ensures r.Ok? <==> Symbols.Declared(lv, name)
    ensures r.Ok? ==> exists j | k <= j < |lv| ::
      (lv[j] == r.value && r.value.name == name && forall m | 0 <= m < j :: lv[m].name != name)
    decreases |lv| - k
  {
    if k == |lv| then Err
    else if lv[k].name == name then Ok(lv[k])
    else FindVarFrom(lv, name, k + 1)
  }

  /** The operand of `sizeof`: 8 for a pointer or array variable, the size
      registered for the type of any other variable, the size of `int` for a
      number literal; any other operand is an error. */
  function SizeOf(n: Ast.Node): (r: Result<int>)
    ensures r.Ok? <==> (n.kind == Ast.Lvar && n.lvar.Some? && (n.lvar.value.pointerCount > 0 || n.lvar.value.kind == Types.Int))
                       || n.kind == Ast.Num
    ensures r.Ok? ==> r.value == 8
  {
    match n.kind
    case Lvar =>
      if n.lvar.None? then Err
      else if n.lvar.value.pointerCount > 0 then Ok(8)
      else
        var t :- Types.LookupType(n.lvar.value.kind);
        Ok(t.size)
    case Num =>
      Ok(Types.TypeDic[Types.Int].size)
    case _ => Err
  }

  // ---------------------------------------------------------------------
  // Expressions. The second component of each `decreases` ranks the
  // functions that call one another without consuming a token.

  /** `primary = "(" expr ")" | ident "(" args ")" | ident "[" expr "]" | ident | num` */
  function Primary(ts: seq<SynToken>, lv: seq<Ast.LVar>, pos: nat): (r: Result<Parsed>)
    requires pos <= |ts|
    ensures r.Ok? ==> pos < r.value.next <= |ts|
    decreases |ts| - pos, 1
  {
    if AtOp(ts, pos, "(") then
      var e :- Expr(ts, lv, pos + 1);
      var p :- Expect(ts, e.next, ")");
      Ok(Parsed(e.node, p))
    else if AtKind(ts, pos, Ident) then
      Identifier(ts, lv, pos)
    else
      var n :- ExpectNumber(ts, pos);
      Ok(Parsed(Ast.NewNodeNum(n.value), n.next))
  }

  /** The forms of `primary` that start with an identifier: a call, an
      element `a[e]`, read as `*(a + e)`, or a variable. A name that is not in
      the local table is an error, except as the name of a called function. */
  function Identifier(ts: seq<SynToken>, lv: seq<Ast.LVar>, pos: nat): (r: Result<Parsed>)
    requires pos < |ts| && AtKind(ts, pos, Ident)
    ensures r.Ok? ==> pos < r.value.next <= |ts|
    decreases |ts| - pos, 0
  {
    var name := ts[pos].str;
    if AtOp(ts, pos + 1, "(") then
      var args :- Args(ts, lv, pos + 2);
      Ok(Parsed(Ast.Blank(Ast.FuncCall).(funcName := Some(name), arguments := args.value), args.next))
    else if AtOp(ts, pos + 1, "[") then
      var v :- FindVar(lv, name);
      Element(ts, lv, v, pos + 2)
    else
      var v :- FindVar(lv, name);
      Ok(Parsed(Ast.NewNodeIdent(v), pos + 1))
  }

  /** `expr "]"` after `v[`: the element, read as `*(v + e)`. */
  function Element(ts: seq<SynToken>, lv: seq<Ast.LVar>, v: Ast.LVar, pos: nat): (r: Result<Parsed>)
    requires pos <= |ts|
    ensures r.Ok? ==> pos < r.value.next <= |ts|
    decreases |ts| - pos, 9
  {
    var e :- Expr(ts, lv, pos);
    var p :- Expect(ts, e.next, "]");
    Ok(Parsed(Ast.NewNode(Ast.DeRef, Ast.NewNode(Ast.Add, Ast.NewNodeIdent(v), Some(e.node)), None), p))
  }

  /** The arguments of a call, up to and including the closing `)`: each
      argument may be followed by a `,`, which is skipped when present. */
  function Args(ts: seq<SynToken>, lv: seq<Ast.LVar>, pos: nat): (r: Result<Read<seq<Ast.Node>>>)
    requires pos <= |ts|
    ensures r.Ok? ==> pos < r.value.next <= |ts|
    decreases |ts| - pos, 9
  {
    if AtOp(ts, pos, ")") then
      Ok(Read([], pos + 1))
    else
      var e :- Expr(ts, lv, pos);
      var p := if AtOp(ts, e.next, ",") then e.next + 1 else e.next;
      var rest :- Args(ts, lv, p);
      Ok(Read([e.node] + rest.value, rest.next))
  }

  /** `unary = "+" primary | "-" primary | "&" unary | "*" unary | "sizeof" unary | primary`;
      `-p` is read as `0 - p` and `sizeof` is folded to a number. */
  function Unary(ts: seq<SynToken>, lv: seq<Ast.LVar>, pos: nat): (r: Result<Parsed>)
    requires pos <= |ts|
    ensures r.Ok? ==> pos < r.value.next <= |ts|
    decreases |ts| - pos, 2
  {
    if AtOp(ts, pos, "+") then
      Primary(ts, lv, pos + 1)
    else if AtOp(ts, pos, "-") then
      var p :- Primary(ts, lv, pos + 1);
      Ok(Parsed(Ast.NewNode(Ast.Sub, Ast.NewNodeNum(0), Some(p.node)), p.next))
    else if AtOp(ts, pos, "&") then
      var u :- Unary(ts, lv, pos + 1);
      Ok(Parsed(Ast.NewNode(Ast.Addr, u.node, None), u.next))
    else if AtOp(ts, pos, "*") then
      var u :- Unary(ts, lv, pos + 1);
      Ok(Parsed(Ast.NewNode(Ast.DeRef, u.node, None), u.next))
    else if AtKind(ts, pos, Sizeof) then
      SizeofOperand(ts, lv, pos + 1)
    else
      Primary(ts, lv, pos)
  }

  /** The operand of `sizeof`, folded to the number node of its size. */
  function SizeofOperand(ts: seq<SynToken>, lv: seq<Ast.LVar>, pos: nat): (r: Result<Parsed>)
    requires pos <= |ts|
    ensures r.Ok? ==> pos < r.value.next <= |ts|
    decreases |ts| - pos, 3
  {
    var u :- Unary(ts, lv, pos);
    var size :- SizeOf(u.node);
    Ok(Parsed(Ast.NewNodeNum(size), u.next))
  }

  /** `mul = unary ("*" unary | "/" unary)*` */
  function Mul(ts: seq<SynToken>, lv: seq<Ast.LVar>, pos: nat): (r: Result<Parsed>)
    requires pos <= |ts|
    ensures r.Ok? ==> pos < r.value.next <= |ts|
    decreases |ts| - pos, 3
  {
    var u :- Unary(ts, lv, pos);
    MulRest(ts, lv, u.node, u.next)
  }

  /** The loop of `Mul` after its first operand `lhs`, with the cursor at `pos`. */
  function MulRest(ts: seq<SynToken>, lv: seq<Ast.LVar>, lhs: Ast.Node, pos: nat): (r: Result<Parsed>)
    requires pos <= |ts|
    ensures r.Ok? ==> pos <= r.value.next <= |ts|
    decreases |ts| - pos, 3
  {
    if AtOp(ts, pos, "*") then
      var u :- Unary(ts, lv, pos + 1);
      MulRest(ts, lv, Ast.NewNode(Ast.Mul, lhs, Some(u.node)), u.next)
    else if AtOp(ts, pos, "/") then
      var u :- Unary(ts, lv, pos + 1);
      MulRest(ts, lv, Ast.NewNode(Ast.Div, lhs, Some(u.node)), u.next)
    else
      Ok(Parsed(lhs, pos))
  }

  /** `add = mul ("+" mul | "-" mul)*` */
  function Add(ts: seq<SynToken>, lv: seq<Ast.LVar>, pos: nat): (r: Result<Parsed>)
    requires pos <= |ts|
    ensures r.Ok? ==> pos < r.value.next <= |ts|
    decreases |ts| - pos, 4
  {
    var m :- Mul(ts, lv, pos);
    AddRest(ts, lv, m.node, m.next)
  }

  function AddRest(ts: seq<SynToken>, lv: seq<Ast.LVar>, lhs: Ast.Node, pos: nat): (r: Result<Parsed>)
    requires pos <= |ts|
    ensures r.Ok? ==> pos <= r.value.next <= |ts|
    decreases |ts| - pos, 4
  {
    if AtOp(ts, pos, "+") then
      var m :- Mul(ts, lv, pos + 1);
      AddRest(ts, lv, Ast.NewNode(Ast.Add, lhs, Some(m.node)), m.next)
    else if AtOp(ts, pos, "-") then
      var m :- Mul(ts, lv, pos + 1);
      AddRest(ts, lv, Ast.NewNode(Ast.Sub, lhs, Some(m.node)), m.next)
    else
      Ok(Parsed(lhs, pos))
  }

  /** `relational = add ("<" add | "<=" add | ">" add | ">=" add)*`; `a > b`
      is read as `b < a` and `a >= b` as `b <= a`. */
  function Relational(ts: seq<SynToken>, lv: seq<Ast.LVar>, pos: nat): (r: Result<Parsed>)
    requires pos <= |ts|
    ensures r.Ok? ==> pos < r.value.next <= |ts|
    decreases |ts| - pos, 5
  {
    var a :- Add(ts, lv, pos);
    RelationalRest(ts, lv, a.node, a.next)
  }

  function RelationalRest(ts: seq<SynToken>, lv: seq<Ast.LVar>, lhs: Ast.Node, pos: nat): (r: Result<Parsed>)
    requires pos <= |ts|
    ensures r.Ok? ==> pos <= r.value.next <= |ts|
    decreases |ts| - pos, 5
  {
    if AtOp(ts, pos, "<") then
      var a :- Add(ts, lv, pos + 1);
      RelationalRest(ts, lv, Ast.NewNode(Ast.Lt, lhs, Some(a.node)), a.next)
    else if AtOp(ts, pos, ">") then
      var a :- Add(ts, lv, pos + 1);
      RelationalRest(ts, lv, Ast.NewNode(Ast.Lt, a.node, Some(lhs)), a.next)
    else if AtOp(ts, pos, "<=") then
      var a :- Add(ts, lv, pos + 1);
      RelationalRest(ts, lv, Ast.NewNode(Ast.Le, lhs, Some(a.node)), a.next)
    else if AtOp(ts, pos, ">=") then
      var a :- Add(ts, lv, pos + 1);
      RelationalRest(ts, lv, Ast.NewNode(Ast.Le, a.node, Some(lhs)), a.next)
    else
      Ok(Parsed(lhs, pos))
  }

  /** `equality = relational ("==" relational | "!=" relational)*` */
  function Equality(ts: seq<SynToken>, lv: seq<Ast.LVar>, pos: nat): (r: Result<Parsed>)
    requires pos <= |ts|
    ensures r.Ok? ==> pos < r.value.next <= |ts|
    decreases |ts| - pos, 6
  {
    var a :- Relational(ts, lv, pos);
    EqualityRest(ts, lv, a.node, a.next)
  }

  function EqualityRest(ts: seq<SynToken>, lv: seq<Ast.LVar>, lhs: Ast.Node, pos: nat): (r: Result<Parsed>)
    requires pos <= |ts|
    ensures r.Ok? ==> pos <= r.value.next <= |ts|
    decreases |ts| - pos, 6
  {
    if AtOp(ts, pos, "==") then
      var a :- Relational(ts, lv, pos + 1);
      EqualityRest(ts, lv, Ast.NewNode(Ast.Eq, lhs, Some(a.node)), a.next)
    else if AtOp(ts, pos, "!=") then
      var a :- Relational(ts, lv, pos + 1);
      EqualityRest(ts, lv, Ast.NewNode(Ast.Ne, lhs, Some(a.node)), a.next)
    else
      Ok(Parsed(lhs, pos))
  }

  /** `assign = equality ("=" assign)?` */
  function Assign(ts: seq<SynToken>, lv: seq<Ast.LVar>, pos: nat): (r: Result<Parsed>)
    requires pos <= |ts|
    ensures r.Ok? ==> pos < r.value.next <= |ts|
    decreases |ts| - pos, 7
  {
    var e :- Equality(ts, lv, pos);
    if AtOp(ts, e.next, "=") then
      var a :- Assign(ts, lv, e.next + 1);
      Ok(Parsed(Ast.NewNode(Ast.Assign, e.node, Some(a.node)), a.next))
    else
      Ok(e)
  }

  /** `expr = assign` */
  function Expr(ts: seq<SynToken>, lv: seq<Ast.LVar>, pos: nat): (r: Result<Parsed>)
    requires pos <= |ts|
    ensures r.Ok? ==> pos < r.value.next <= |ts|
    decreases |ts| - pos, 8
  {
    Assign(ts, lv, pos)
  }

  // ---------------------------------------------------------------------
  // Statements

  /** One of the three clauses of a `for` header: nothing, or an expression,
      and then the token `close` that ends the clause. */
  function ForClause(ts: seq<SynToken>, lv: seq<Ast.LVar>, pos: nat, close: string): (r: Result<Read<Option<Ast.Node>>>)
    requires pos <= |ts|
    ensures r.Ok? ==> pos < r.value.next <= |ts|
    decreases |ts| - pos, 9
  {
    if AtOp(ts, pos, close) then
      Ok(Read(None, pos + 1))
    else
      var e :- Expr(ts, lv, pos);
      var p :- Expect(ts, e.next, close);
      Ok(Read(Some(e.node), p))
  }

  /** The declaration statement `type "*"* ident ("[" num "]")? ";"`, from
      the position after the type: it reads no expression and yields a
      `Type` node bound to the table's entry for the name. */
  function Declaration(ts: seq<SynToken>, lv: seq<Ast.LVar>, pos: nat): (r: Result<Parsed>)
    requires pos <= |ts|
    ensures r.Ok? ==> pos < r.value.next <= |ts|
  {
    var id :- ExpectIdent(ts, SkipStars(ts, pos));
    var p :- if AtOp(ts, id.next, "[") then
        var n :- ExpectNumber(ts, id.next + 1);
        Expect(ts, n.next, "]")
      else
        Ok(id.next);
    var v :- FindVar(lv, id.value);
    var q :- Expect(ts, p, ";");
    Ok(Parsed(Ast.Blank(Ast.Type).(lvar := Some(v)), q))
  }

  /** `stmt`: a block, `if`, `while`, `for`, `return`, a declaration, or an
      expression followed by `;`, chosen by the first token. */
  function Stmt(ts: seq<SynToken>, lv: seq<Ast.LVar>, pos: nat): (r: Result<Parsed>)
    requires pos <= |ts|
    ensures r.Ok? ==> pos < r.value.next <= |ts|
    decreases |ts| - pos, 11
  {
    if AtOp(ts, pos, "{") then
      var b :- Block(ts, lv, pos + 1);
      Ok(Parsed(Ast.Blank(Ast.Block).(bodies := b.value), b.next))
    else if AtKind(ts, pos, If) then
      IfStmt(ts, lv, pos + 1)
    else if AtKind(ts, pos, While) then
      WhileStmt(ts, lv, pos + 1)
    else if AtKind(ts, pos, For) then
      ForStmt(ts, lv, pos + 1)
    else if AtKind(ts, pos, Return) then
      ReturnStmt(ts, lv, pos + 1)
    else if AtKind(ts, pos, Type) then
      Declaration(ts, lv, pos + 1)
    else
      ExprStmt(ts, lv, pos)
  }

  /** `"(" expr ")"`: the condition of an `if` or a `while`. */
  function Condition(ts: seq<SynToken>, lv: seq<Ast.LVar>, pos: nat): (r: Result<Parsed>)
    requires pos <= |ts|
    ensures r.Ok? ==> pos < r.value.next <= |ts|
    decreases |ts| - pos, 9
  {
    var p :- Expect(ts, pos, "(");
    var c :- Expr(ts, lv, p);
    var q :- Expect(ts, c.next, ")");
    Ok(Parsed(c.node, q))
  }

  /** `"(" expr ")" stmt ("else" stmt)?`, after the `if`. */
  function IfStmt(ts: seq<SynToken>, lv: seq<Ast.LVar>, pos: nat): (r: Result<Parsed>)
    requires pos <= |ts|
    ensures r.Ok? ==> pos < r.value.next <= |ts|
    decreases |ts| - pos, 10
  {
    var c :- Condition(ts, lv, pos);
    IfArms(ts, lv, c.node, c.next)
  }

  /** `stmt ("else" stmt)?`: the branches of an `if` whose condition has
      been read. */
  function IfArms(ts: seq<SynToken>, lv: seq<Ast.LVar>, cond: Ast.Node, pos: nat): (r: Result<Parsed>)
    requires pos <= |ts|
    ensures r.Ok? ==> pos < r.value.next <= |ts|
    decreases |ts| - pos, 12
  {
    var t :- Stmt(ts, lv, pos);
    if AtKind(ts, t.next, Else) then
      var e :- Stmt(ts, lv, t.next + 1);
      Ok(Parsed(Ast.Blank(Ast.If).(condition := Some(cond), lhs := Some(t.node), rhs := Some(e.node)), e.next))
    else
      Ok(Parsed(Ast.Blank(Ast.If).(condition := Some(cond), lhs := Some(t.node)), t.next))
  }

  /** `"(" expr ")" stmt`, after the `while`. */
  function WhileStmt(ts: seq<SynToken>, lv: seq<Ast.LVar>, pos: nat): (r: Result<Parsed>)
    requires pos <= |ts|
    ensures r.Ok? ==> pos < r.value.next <= |ts|
    decreases |ts| - pos, 10
  {
    var c :- Condition(ts, lv, pos);
    var b :- Stmt(ts, lv, c.next);
    Ok(Parsed(Ast.Blank(Ast.While).(condition := Some(c.node), lhs := Some(b.node)), b.next))
  }

  /** The three optional clauses of a `for` header. */
  datatype ForHead = ForHead(initialize: Option<Ast.Node>, condition: Option<Ast.Node>, loop: Option<Ast.Node>)

  /** `expr? ";" expr? ";" expr? ")"`: the header of a `for` after its `(`. */
  function ForClauses(ts: seq<SynToken>, lv: seq<Ast.LVar>, pos: nat): (r: Result<Read<ForHead>>)
    requires pos <= |ts|
    ensures r.Ok? ==> pos < r.value.next <= |ts|
    decreases |ts| - pos, 10
  {
    var init :- ForClause(ts, lv, pos, ";");
    var cond :- ForClause(ts, lv, init.next, ";");
    var loop :- ForClause(ts, lv, cond.next, ")");
    Ok(Read(ForHead(init.value, cond.value, loop.value), loop.next))
  }

  /** `"(" expr? ";" expr? ";" expr? ")" stmt`, after the `for`. */
  function ForStmt(ts: seq<SynToken>, lv: seq<Ast.LVar>, pos: nat): (r: Result<Parsed>)
    requires pos <= |ts|
    ensures r.Ok? ==> pos < r.value.next <= |ts|
    decreases |ts| - pos, 11
  {
    var p :- Expect(ts, pos, "(");
    var h :- ForClauses(ts, lv, p);
    var b :- Stmt(ts, lv, h.next);
    Ok(Parsed(Ast.Blank(Ast.For).(initialize := h.value.initialize, condition := h.value.condition,
                                  loop := h.value.loop, lhs := Some(b.node)), b.next))
  }

  /** `expr ";"`, after the `return`. */
  function ReturnStmt(ts: seq<SynToken>, lv: seq<Ast.LVar>, pos: nat): (r: Result<Parsed>)
    requires pos <= |ts|
    ensures r.Ok? ==> pos < r.value.next <= |ts|
    decreases |ts| - pos, 10
  {
    var e :- Expr(ts, lv, pos);
    var q :- Expect(ts, e.next, ";");
    Ok(Parsed(Ast.NewNode(Ast.Return, e.node, None), q))
  }

  /** `expr ";"`: an expression statement. */
  function ExprStmt(ts: seq<SynToken>, lv: seq<Ast.LVar>, pos: nat): (r: Result<Parsed>)
    requires pos <= |ts|
    ensures r.Ok? ==> pos < r.value.next <= |ts|
    decreases |ts| - pos, 10
  {
    var e :- Expr(ts, lv, pos);
    var q :- Expect(ts, e.next, ";");
    Ok(Parsed(e.node, q))
  }

  /** The statements of a block, up to and including the closing `}`. */
  function Block(ts: seq<SynToken>, lv: seq<Ast.LVar>, pos: nat): (r: Result<Read<seq<Ast.Node>>>)
    requires pos <= |ts|
    ensures r.Ok? ==> pos < r.value.next <= |ts|
    decreases |ts| - pos, 12
  {
    if AtOp(ts, pos, "}") then
      Ok(Read([], pos + 1))
    else
      var s :- Stmt(ts, lv, pos);
      var rest :- Block(ts, lv, s.next);
      Ok(Read([s.node] + rest.value, rest.next))
  }

  // ---------------------------------------------------------------------
  // Functions and the program

  /** The tokens between the parentheses of a parameter list, up to and
      including the `)`; running out of tokens first is an error. */
  function ParamTokensFrom(ts: seq<SynToken>, pos: nat): (r: Result<Read<seq<SynToken>>>)
    requires pos <= |ts|
    ensures r.Ok? ==> pos < r.value.next <= |ts|
    decreases |ts| - pos
  {
    if AtOp(ts, pos, ")") then
      Ok(Read([], pos + 1))
    else
      var t :- ConsumeAny(ts, pos);
      var rest :- ParamTokensFrom(ts, t.next);
      Ok(Read([t.value] + rest.value, rest.next))
  }

  /** `function = type "*"* ident "(" params ")" stmt`: the local table is
      built from the parameter tokens and the body's brace window before the
      body is parsed against it. */
  function Function(ts: seq<SynToken>, pos: nat): (r: Result<Parsed>)
    requires pos <= |ts|
    ensures r.Ok? ==> pos < r.value.next <= |ts|
  {
    var head :- FunctionHeader(ts, pos);
    var args :- ParamTokensFrom(ts, head.next);
    var lv :- Symbols.LocalTable(Symbols.BodyWindow(ts, args.next), args.value);
    var body :- Stmt(ts, lv, args.next);
    Ok(Parsed(Ast.Blank(Ast.Function).(funcName := Some(head.value), lhs := Some(body.node), lvars := Some(lv)),
              body.next))
  }

  /** `type "*"* ident "("`: the function's name. */
  function FunctionHeader(ts: seq<SynToken>, pos: nat): (r: Result<Read<string>>)
    requires pos <= |ts|
    ensures r.Ok? ==> pos < r.value.next <= |ts|
  {
    var p :- ExpectKind(ts, pos, Type);
    var id :- ExpectIdent(ts, SkipStars(ts, p));
    var q :- Expect(ts, id.next, "(");
    Ok(Read(id.value, q))
  }

  /** `program = function*`: functions until the last token. */
  function Program(ts: seq<SynToken>, pos: nat): (r: Result<seq<Ast.Node>>)
    requires pos <= |ts|
    decreases |ts| - pos
  {
    if pos == |ts| then
      Ok([])
    else
      var f :- Function(ts, pos);
      var rest :- Program(ts, f.next);
      Ok([f.node] + rest)
  }
}
