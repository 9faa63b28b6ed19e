/** The parser of Honyac/NodeMap.cs as the source writes it: a `NodeMap`
    object that reads the shared token cursor, keeps the current function's
    local table in a field and collects one node per function. Each method
    is proved to return what the grammar functions of module `Parser` return
    from the cursor position it started at, and to leave the cursor where
    they stop; on an error the source throws, and the cursor is then of no
    further use. */
module NodeMaps {
  import opened Wrappers
  import opened SynTokens
  import Ast
  import Symbols
  import Parser
  import ParserFacts

  /** A method's result `r` and final cursor `index` are those of `spec`. */
  predicate Matches(r: Result<Ast.Node>, spec: Result<Parser.Parsed>, index: nat) {
    && (r.Ok? <==> spec.Ok?)
    && (r.Ok? ==> r.value == spec.value.node && index == spec.value.next)
  }

  /** The nodes `prefix` read before a list whose rest reads as `r`. */
  function PrependNodes(prefix: seq<Ast.Node>, r: Result<Read<seq<Ast.Node>>>): Result<Read<seq<Ast.Node>>> {
    if r.Ok? then Ok(Read(prefix + r.value.value, r.value.next)) else Err
  }

  lemma PrependNode(prefix: seq<Ast.Node>, n: Ast.Node, rest: Read<seq<Ast.Node>>)
    ensures PrependNodes(prefix, Ok(Read([n] + rest.value, rest.next)))
         == PrependNodes(prefix + [n], Ok(rest))
  {
    assert prefix + ([n] + rest.value) == (prefix + [n]) + rest.value;
  }

  function PrependTokens(prefix: seq<SynToken>, r: Result<Read<seq<SynToken>>>): Result<Read<seq<SynToken>>> {
    if r.Ok? then Ok(Read(prefix + r.value.value, r.value.next)) else Err
  }

  lemma PrependToken(prefix: seq<SynToken>, t: SynToken, rest: Read<seq<SynToken>>)
    ensures PrependTokens(prefix, Ok(Read([t] + rest.value, rest.next)))
         == PrependTokens(prefix + [t], Ok(rest))
  {
    assert prefix + ([t] + rest.value) == (prefix + [t]) + rest.value;
  }

  lemma PrependNothing(r: Result<Read<seq<Ast.Node>>>)
    ensures PrependNodes([], r) == r
  {
    if r.Ok? {
      assert [] + r.value.value == r.value.value;
    }
  }

  lemma PrependNoTokens(r: Result<Read<seq<SynToken>>>)
    ensures PrependTokens([], r) == r
  {
    if r.Ok? {
      assert [] + r.value.value == r.value.value;
    }
  }

  /** The functions `prefix` read before a program whose rest reads as `r`. */
  function PrependFunctions(prefix: seq<Ast.Node>, r: Result<seq<Ast.Node>>): Result<seq<Ast.Node>> {
    if r.Ok? then Ok(prefix + r.value) else Err
  }

  lemma PrependNoFunctions(r: Result<seq<Ast.Node>>)
    ensures PrependFunctions([], r) == r
  {
    if r.Ok? {
      assert [] + r.value == r.value;
    }
  }

  lemma PrependFunction(prefix: seq<Ast.Node>, f: Ast.Node, rest: Result<seq<Ast.Node>>)
    ensures PrependFunctions(prefix, if rest.Ok? then Ok([f] + rest.value) else Err)
         == PrependFunctions(prefix + [f], rest)
  {
    if rest.Ok? {
      assert prefix + ([f] + rest.value) == (prefix + [f]) + rest.value;
    }
  }

  class NodeMap {
    const tokenList: TokenCursor
    /** The nodes read so far, one per function. */
    var nodes: seq<Ast.Node>
    /** The local table of the function being read. */
    var lVars: seq<Ast.LVar>

    constructor (tokenList: TokenCursor)
      ensures this.tokenList == tokenList && nodes == [] && lVars == []
    {
      this.tokenList := tokenList;
      nodes := [];
      lVars := [];
    }

    /** `Create`: a map over `tokenList` that has read the whole program. */
    static method Create(tokenList: TokenCursor) returns (r: Result<NodeMap>)
      requires tokenList.Valid()
      modifies tokenList
      ensures r.Ok? <==> Parser.Program(tokenList.tokens, old(tokenList.index)).Ok?
      ensures r.Ok? ==> fresh(r.value) && r.value.tokenList == tokenList
      ensures r.Ok? ==> r.value.nodes == Parser.Program(tokenList.tokens, old(tokenList.index)).value
    {
      var nodeMap := new NodeMap(tokenList);
      var ok := nodeMap.Program();
      if ok {
        r := Ok(nodeMap);
      } else {
        r := Err;
      }
    }

    /** `Program`: functions until the end of the tokens. */
    method Program() returns (ok: bool)
      requires tokenList.Valid()
      modifies this, tokenList
      ensures ok <==> Parser.Program(tokenList.tokens, old(tokenList.index)).Ok?
      ensures ok ==> nodes == old(nodes) + Parser.Program(tokenList.tokens, old(tokenList.index)).value
    {
      ghost var ts, start := tokenList.tokens, tokenList.index;
      ghost var done: seq<Ast.Node> := [];
      PrependNoFunctions(Parser.Program(ts, start));
      while true
        invariant tokenList.Valid() && nodes == old(nodes) + done
        invariant Parser.Program(ts, start) == PrependFunctions(done, Parser.Program(ts, tokenList.index))
        decreases |ts| - tokenList.index
      {
        var eof := tokenList.IsEof();
        if eof {
          assert done + [] == done;
          return true;
        }
        var f := Function();
        if f.Err? {
          return false;
        }
        nodes := nodes + [f.value];
        ghost var rest := Parser.Program(ts, tokenList.index);
        PrependFunction(done, f.value, rest);
        done := done + [f.value];
      }
    }

    /** The return type, name and `(` of a function. */
    method FunctionHeader() returns (r: Result<string>)
      requires tokenList.Valid()
      modifies tokenList
      ensures tokenList.Valid() && lVars == old(lVars)
      ensures var spec := Parser.FunctionHeader(tokenList.tokens, old(tokenList.index));
        && (r.Ok? <==> spec.Ok?)
        && (r.Ok? ==> r.value == spec.value.value && tokenList.index == spec.value.next)
    {
      var ok := tokenList.ExpectKind(Type);
      if !ok {
        return Err;
      }
      ConsumeStars();
      var identToken := tokenList.ExpectIdent();
      if identToken.Err? {
        return Err;
      }
      ok := tokenList.Expect("(");
      if !ok {
        return Err;
      }
      r := Ok(identToken.value.str);
    }

    /** `while (Consume('*'));`: steps over a run of `*` tokens. */
    method ConsumeStars()
      requires tokenList.Valid()
      modifies tokenList
      ensures tokenList.Valid() && lVars == old(lVars)
      ensures tokenList.index == SkipStars(tokenList.tokens, old(tokenList.index))
    {
      ghost var ts, start := tokenList.tokens, tokenList.index;
      var star := tokenList.Consume("*");
      while star
        invariant tokenList.Valid() && start <= tokenList.index
        invariant SkipStars(ts, start) == if star then SkipStars(ts, tokenList.index) else tokenList.index
        decreases |ts| - tokenList.index, if star then 1 else 0
      {
        star := tokenList.Consume("*");
      }
    }

    /** The parameter tokens of a function, after its `(`: every token up to
        the first `)`, which is stepped over. */
    method ParamTokens() returns (r: Result<seq<SynToken>>)
      requires tokenList.Valid()
      modifies tokenList
      ensures tokenList.Valid() && lVars == old(lVars)
      ensures var spec := Parser.ParamTokensFrom(tokenList.tokens, old(tokenList.index));
        && (r.Ok? <==> spec.Ok?)
        && (r.Ok? ==> r.value == spec.value.value && tokenList.index == spec.value.next)
    {
      ghost var ts, start := tokenList.tokens, tokenList.index;
      var argumentTokens: seq<SynToken> := [];
      PrependNoTokens(Parser.ParamTokensFrom(ts, start));
      while true
        invariant tokenList.Valid() && start <= tokenList.index
        invariant Parser.ParamTokensFrom(ts, start)
               == PrependTokens(argumentTokens, Parser.ParamTokensFrom(ts, tokenList.index))
        decreases |ts| - tokenList.index
      {
        var close := tokenList.Consume(")");
        if close {
          assert argumentTokens + [] == argumentTokens;
          return Ok(argumentTokens);
        }
        var token := tokenList.ConsumeAny();
        if token.Err? {
          return Err;
        }
        ghost var rest := Parser.ParamTokensFrom(ts, tokenList.index);
        if rest.Ok? {
          PrependToken(argumentTokens, token.value, rest.value);
        }
        argumentTokens := argumentTokens + [token.value];
      }
    }

    /** `Function`: the header, the parameter tokens, the local table built
        from them and the body's brace window, and then the body, read
        against that table, which stays in `lVars`. */
    method Function() returns (r: Result<Ast.Node>)
      requires tokenList.Valid()
      modifies this`lVars, tokenList
      ensures tokenList.Valid()
      ensures Matches(r, Parser.Function(tokenList.tokens, old(tokenList.index)), tokenList.index)
      ensures r.Ok? ==> Some(lVars) == r.value.lvars
    {
      var name := FunctionHeader();
      if name.Err? {
        return Err;
      }
      var argumentTokens := ParamTokens();
      if argumentTokens.Err? {
        return Err;
      }
      var tokens := Symbols.CutWindow(tokenList.tokens, tokenList.index);
      var table := Symbols.CreateLVars(tokens, argumentTokens.value);
      if table.Err? {
        return Err;
      }
      lVars := table.value;
      var body := Stmt();
      if body.Err? {
        return Err;
      }
      return Ok(Ast.Blank(Ast.Function).(funcName := Some(name.value), lhs := Some(body.value),
                                        lvars := Some(lVars)));
    }

    // -------------------------------------------------------------------
    // Statements

    /** `Stmt`: steps over the first token when it opens a block or is a
        keyword, and reads the rest of that kind of statement. */
    method Stmt() returns (r: Result<Ast.Node>)
      requires tokenList.Valid()
      modifies tokenList
      ensures tokenList.Valid() && lVars == old(lVars)
      ensures Matches(r, Parser.Stmt(tokenList.tokens, lVars, old(tokenList.index)), tokenList.index)
      decreases |tokenList.tokens| - tokenList.index, 11
    {
      ParserFacts.StmtForms(tokenList.tokens, lVars, tokenList.index);
      var b := tokenList.Consume("{");
      if b {
        r := Block();
        return;
      }
      b := tokenList.ConsumeKind(If);
      if b {
        r := IfStmt();
        return;
      }
      b := tokenList.ConsumeKind(While);
      if b {
        r := WhileStmt();
        return;
      }
      b := tokenList.ConsumeKind(For);
      if b {
        r := ForStmt();
        return;
      }
      b := tokenList.ConsumeKind(Return);
      if b {
        r := ReturnStmt();
        return;
      }
      b := tokenList.ConsumeKind(Type);
      if b {
        r := Declaration();
        return;
      }
      r := ExprStmt();
    }

    /** An expression statement: an expression and its `;`. */
    method ExprStmt() returns (r: Result<Ast.Node>)
      requires tokenList.Valid()
      modifies tokenList
      ensures tokenList.Valid() && lVars == old(lVars)
      ensures Matches(r, Parser.ExprStmt(tokenList.tokens, lVars, old(tokenList.index)), tokenList.index)
      decreases |tokenList.tokens| - tokenList.index, 10
    {
      var node := Expr();
      if node.Err? {
        return Err;
      }
      var ok := tokenList.Expect(";");
      if !ok {
        return Err;
      }
      r := node;
    }

    /** Statements until a `}`, after the `{`. */
    method Block() returns (r: Result<Ast.Node>)
      requires tokenList.Valid()
      modifies tokenList
      ensures tokenList.Valid() && lVars == old(lVars)
      ensures var spec := Parser.Block(tokenList.tokens, lVars, old(tokenList.index));
        && (r.Ok? <==> spec.Ok?)
        && (r.Ok? ==> r.value == Ast.Blank(Ast.Block).(bodies := spec.value.value)
                      && tokenList.index == spec.value.next)
      decreases |tokenList.tokens| - tokenList.index, 12
    {
      ghost var ts, start := tokenList.tokens, tokenList.index;
      var bodies: seq<Ast.Node> := [];
      PrependNothing(Parser.Block(ts, lVars, start));
      while true
        invariant tokenList.Valid() && start <= tokenList.index
        invariant Parser.Block(ts, lVars, start)
               == PrependNodes(bodies, Parser.Block(ts, lVars, tokenList.index))
        decreases |ts| - tokenList.index
      {
        var close := tokenList.Consume("}");
        if close {
          assert bodies + [] == bodies;
          break;
        }
        var s := Stmt();
        if s.Err? {
          return Err;
        }
        ghost var rest := Parser.Block(ts, lVars, tokenList.index);
        if rest.Ok? {
          PrependNode(bodies, s.value, rest.value);
        }
        bodies := bodies + [s.value];
      }
      r := Ok(Ast.Blank(Ast.Block).(bodies := bodies));
    }

    /** `Expect('('); Expr(); Expect(')')`: the condition of an `if` or a
        `while`. */
    method Condition() returns (r: Result<Ast.Node>)
      requires tokenList.Valid()
      modifies tokenList
      ensures tokenList.Valid() && lVars == old(lVars)
      ensures Matches(r, Parser.Condition(tokenList.tokens, lVars, old(tokenList.index)), tokenList.index)
      decreases |tokenList.tokens| - tokenList.index, 9
    {
      var ok := tokenList.Expect("(");
      if !ok {
        return Err;
      }
      var condition := Expr();
      if condition.Err? {
        return Err;
      }
      ok := tokenList.Expect(")");
      if !ok {
        return Err;
      }
      r := condition;
    }

    /** `"(" expr ")" stmt ("else" stmt)?`, after the `if`. */
    method IfStmt() returns (r: Result<Ast.Node>)
      requires tokenList.Valid()
      modifies tokenList
      ensures tokenList.Valid() && lVars == old(lVars)
      ensures Matches(r, Parser.IfStmt(tokenList.tokens, lVars, old(tokenList.index)), tokenList.index)
      decreases |tokenList.tokens| - tokenList.index, 10
    {
      var condition := Condition();
      if condition.Err? {
        return Err;
      }
      r := IfArms(condition.value);
    }

    /** The branches of an `if` whose condition is `condition`. */
    method IfArms(condition: Ast.Node) returns (r: Result<Ast.Node>)
      requires tokenList.Valid()
      modifies tokenList
      ensures tokenList.Valid() && lVars == old(lVars)
      ensures Matches(r, Parser.IfArms(tokenList.tokens, lVars, condition, old(tokenList.index)), tokenList.index)
      decreases |tokenList.tokens| - tokenList.index, 12
    {
      var thenNode := Stmt();
      if thenNode.Err? {
        return Err;
      }
      var hasElse := tokenList.ConsumeKind(Else);
      if hasElse {
        var elseNode := Stmt();
        if elseNode.Err? {
          return Err;
        }
        return Ok(Ast.Blank(Ast.If).(condition := Some(condition), lhs := Some(thenNode.value),
                                     rhs := Some(elseNode.value)));
      }
      r := Ok(Ast.Blank(Ast.If).(condition := Some(condition), lhs := Some(thenNode.value)));
    }

    /** `"(" expr ")" stmt`, after the `while`. */
    method WhileStmt() returns (r: Result<Ast.Node>)
      requires tokenList.Valid()
      modifies tokenList
      ensures tokenList.Valid() && lVars == old(lVars)
      ensures Matches(r, Parser.WhileStmt(tokenList.tokens, lVars, old(tokenList.index)), tokenList.index)
      decreases |tokenList.tokens| - tokenList.index, 10
    {
      var condition := Condition();
      if condition.Err? {
        return Err;
      }
      var body := Stmt();
      if body.Err? {
        return Err;
      }
      r := Ok(Ast.Blank(Ast.While).(condition := Some(condition.value), lhs := Some(body.value)));
    }

    /** One clause of a `for` header: `close` alone, or an expression and
        then `close`. */
    method ForClause(close: string) returns (r: Result<Option<Ast.Node>>)
      requires tokenList.Valid()
      modifies tokenList
      ensures tokenList.Valid() && lVars == old(lVars)
      ensures var spec := Parser.ForClause(tokenList.tokens, lVars, old(tokenList.index), close);
        && (r.Ok? <==> spec.Ok?)
        && (r.Ok? ==> r.value == spec.value.value && tokenList.index == spec.value.next)
      decreases |tokenList.tokens| - tokenList.index, 9
    {
      var empty := tokenList.Consume(close);
      if empty {
        return Ok(None);
      }
      var e := Expr();
      if e.Err? {
        return Err;
      }
      var ok := tokenList.Expect(close);
      if !ok {
        return Err;
      }
      r := Ok(Some(e.value));
    }

    /** The initializer, condition and step of a `for`, after its `(`. */
    method ForClauses() returns (r: Result<Parser.ForHead>)
      requires tokenList.Valid()
      modifies tokenList
      ensures tokenList.Valid() && lVars == old(lVars)
      ensures var spec := Parser.ForClauses(tokenList.tokens, lVars, old(tokenList.index));
        && (r.Ok? <==> spec.Ok?)
        && (r.Ok? ==> r.value == spec.value.value && tokenList.index == spec.value.next)
      decreases |tokenList.tokens| - tokenList.index, 10
    {
      var initialize := ForClause(";");
      if initialize.Err? {
        return Err;
      }
      var condition := ForClause(";");
      if condition.Err? {
        return Err;
      }
      var loop := ForClause(")");
      if loop.Err? {
        return Err;
      }
      r := Ok(Parser.ForHead(initialize.value, condition.value, loop.value));
    }

    /** `"(" expr? ";" expr? ";" expr? ")" stmt`, after the `for`. */
    method ForStmt() returns (r: Result<Ast.Node>)
      requires tokenList.Valid()
      modifies tokenList
      ensures tokenList.Valid() && lVars == old(lVars)
      ensures Matches(r, Parser.ForStmt(tokenList.tokens, lVars, old(tokenList.index)), tokenList.index)
      decreases |tokenList.tokens| - tokenList.index, 11
    {
      var ok := tokenList.Expect("(");
      if !ok {
        return Err;
      }
      var head := ForClauses();
      if head.Err? {
        return Err;
      }
      var body := Stmt();
      if body.Err? {
        return Err;
      }
      r := Ok(Ast.Blank(Ast.For).(initialize := head.value.initialize, condition := head.value.condition,
                                  loop := head.value.loop, lhs := Some(body.value)));
    }

    /** `expr ";"`, after the `return`. */
    method ReturnStmt() returns (r: Result<Ast.Node>)
      requires tokenList.Valid()
      modifies tokenList
      ensures tokenList.Valid() && lVars == old(lVars)
      ensures Matches(r, Parser.ReturnStmt(tokenList.tokens, lVars, old(tokenList.index)), tokenList.index)
      decreases |tokenList.tokens| - tokenList.index, 10
    {
      var e := Expr();
      if e.Err? {
        return Err;
      }
      var ok := tokenList.Expect(";");
      if !ok {
        return Err;
      }
      r := Ok(Ast.NewNode(Ast.Return, e.value, None));
    }

    /** `"*"* ident ("[" num "]")? ";"`, after the type: a `Type` node bound
        to the table's entry for the name. */
    method Declaration() returns (r: Result<Ast.Node>)
      requires tokenList.Valid()
      modifies tokenList
      ensures tokenList.Valid() && lVars == old(lVars)
      ensures Matches(r, Parser.Declaration(tokenList.tokens, lVars, old(tokenList.index)), tokenList.index)
    {
      ConsumeStars();
      var identToken := tokenList.ExpectIdent();
      if identToken.Err? {
        return Err;
      }
      var isArray := tokenList.Consume("[");
      if isArray {
        var size := tokenList.ExpectNumber();
        if size.Err? {
          return Err;
        }
        var ok := tokenList.Expect("]");
        if !ok {
          return Err;
        }
      }
      var lvar := Parser.FindVar(lVars, identToken.value.str);
      if lvar.Err? {
        return Err;
      }
      var ok := tokenList.Expect(";");
      if !ok {
        return Err;
      }
      r := Ok(Ast.Blank(Ast.Type).(lvar := Some(lvar.value)));
    }

    // -------------------------------------------------------------------
    // Expressions

    method Expr() returns (r: Result<Ast.Node>)
      requires tokenList.Valid()
      modifies tokenList
      ensures tokenList.Valid() && lVars == old(lVars)
      ensures Matches(r, Parser.Expr(tokenList.tokens, lVars, old(tokenList.index)), tokenList.index)
      decreases |tokenList.tokens| - tokenList.index, 8
    {
      r := Assign();
    }

    method Assign() returns (r: Result<Ast.Node>)
      requires tokenList.Valid()
      modifies tokenList
      ensures tokenList.Valid() && lVars == old(lVars)
      ensures Matches(r, Parser.Assign(tokenList.tokens, lVars, old(tokenList.index)), tokenList.index)
      decreases |tokenList.tokens| - tokenList.index, 7
    {
      var node := Equality();
      if node.Err? {
        return Err;
      }
      var b := tokenList.Consume("=");
      if b {
        var rhs := Assign();
        if rhs.Err? {
          return Err;
        }
        node := Ok(Ast.NewNode(Ast.Assign, node.value, Some(rhs.value)));
      }
      r := node;
    }

    method Equality() returns (r: Result<Ast.Node>)
      requires tokenList.Valid()
      modifies tokenList
      ensures tokenList.Valid() && lVars == old(lVars)
      ensures Matches(r, Parser.Equality(tokenList.tokens, lVars, old(tokenList.index)), tokenList.index)
      decreases |tokenList.tokens| - tokenList.index, 6
    {
      ghost var ts, pos, lv := tokenList.tokens, tokenList.index, lVars;
      ParserFacts.EqualityStart(ts, lv, pos);
      var first := Relational();
      if first.Err? {
        return Err;
      }
      var node := first.value;
      while true
        invariant tokenList.Valid() && pos < tokenList.index && lVars == lv
        invariant Parser.Equality(ts, lv, pos) == Parser.EqualityRest(ts, lv, node, tokenList.index)
        decreases |ts| - tokenList.index
      {
        var step := EqualityStep(node);
        match step
        case Err => return Err;
        case Ok(None) => return Ok(node);
        case Ok(Some(combined)) => node := combined;
      }
    }

    /** One turn of the loop of `Equality`: an `==` or `!=` and the operand after it combine with `lhs`; any other token ends the chain. */
    method EqualityStep(lhs: Ast.Node) returns (r: Result<Option<Ast.Node>>)
      requires tokenList.Valid()
      modifies tokenList
      ensures tokenList.Valid() && lVars == old(lVars)
      ensures var spec := Parser.EqualityRest(tokenList.tokens, lVars, lhs, old(tokenList.index));
        && (r.Err? ==> spec.Err?)
        && (r == Ok(None) ==> spec == Ok(Parser.Parsed(lhs, tokenList.index)))
        && (r.Ok? && r.value.Some? ==>
              old(tokenList.index) < tokenList.index
              && spec == Parser.EqualityRest(tokenList.tokens, lVars, r.value.value, tokenList.index))
      decreases |tokenList.tokens| - tokenList.index, 5
    {
      ghost var ts, at, lv := tokenList.tokens, tokenList.index, lVars;
      ParserFacts.EqualityStop(ts, lv, lhs, at);
      var kind := Ast.Eq;
      var b := tokenList.Consume("==");
      if !b {
        b := tokenList.Consume("!=");
        if !b {
          return Ok(None);
        }
        kind := Ast.Ne;
      }
      var rhs := Relational();
      ParserFacts.EqualityRestStep(ts, lv, lhs, at, kind);
      if rhs.Err? {
        return Err;
      }
      r := Ok(Some(Ast.NewNode(kind, lhs, Some(rhs.value))));
    }

    method Relational() returns (r: Result<Ast.Node>)
      requires tokenList.Valid()
      modifies tokenList
      ensures tokenList.Valid() && lVars == old(lVars)
      ensures Matches(r, Parser.Relational(tokenList.tokens, lVars, old(tokenList.index)), tokenList.index)
      decreases |tokenList.tokens| - tokenList.index, 5
    {
      ghost var ts, pos, lv := tokenList.tokens, tokenList.index, lVars;
      ParserFacts.RelationalStart(ts, lv, pos);
      var first := Add();
      if first.Err? {
        return Err;
      }
      var node := first.value;
      while true
        invariant tokenList.Valid() && pos < tokenList.index && lVars == lv
        invariant Parser.Relational(ts, lv, pos) == Parser.RelationalRest(ts, lv, node, tokenList.index)
        decreases |ts| - tokenList.index
      {
        var step := RelationalStep(node);
        match step
        case Err => return Err;
        case Ok(None) => return Ok(node);
        case Ok(Some(combined)) => node := combined;
      }
    }

    /** One turn of the loop of `Relational`: a comparison and the operand after it combine with `lhs`, `>` and `>=` with the operands swapped; any other token ends the chain. */
    method RelationalStep(lhs: Ast.Node) returns (r: Result<Option<Ast.Node>>)
      requires tokenList.Valid()
      modifies tokenList
      ensures tokenList.Valid() && lVars == old(lVars)
      ensures var spec := Parser.RelationalRest(tokenList.tokens, lVars, lhs, old(tokenList.index));
        && (r.Err? ==> spec.Err?)
        && (r == Ok(None) ==> spec == Ok(Parser.Parsed(lhs, tokenList.index)))
        && (r.Ok? && r.value.Some? ==>
              old(tokenList.index) < tokenList.index
              && spec == Parser.RelationalRest(tokenList.tokens, lVars, r.value.value, tokenList.index))
      decreases |tokenList.tokens| - tokenList.index, 4
    {
      ghost var ts, at, lv := tokenList.tokens, tokenList.index, lVars;
      ParserFacts.RelationalStop(ts, lv, lhs, at);
      var op := ComparisonOperator();
      if op.None? {
        return Ok(None);
      }
      var (kind, swap) := op.value;
      var operand := Add();
      ParserFacts.RelationalRestStep(ts, lv, lhs, at, kind, swap);
      if operand.Err? {
        return Err;
      }
      r := Ok(Some(ParserFacts.Compare(kind, swap, lhs, operand.value)));
    }

    /** The `if` chain of `Relational` that tries `<`, `>`, `<=` and `>=`
        in turn: the node kind the operator builds and whether it swaps the
        operands, or nothing, with the cursor left in place. */
    method ComparisonOperator() returns (op: Option<(Ast.NodeKind, bool)>)
      requires tokenList.Valid()
      modifies tokenList
      ensures tokenList.Valid()
      ensures op.None? <==> !ParserFacts.RelOpAt(tokenList.tokens, old(tokenList.index))
      ensures op.None? ==> tokenList.index == old(tokenList.index)
      ensures op.Some? ==> ParserFacts.RelOpIs(tokenList.tokens, old(tokenList.index), op.value.0, op.value.1)
                           && tokenList.index == old(tokenList.index) + 1
    {
      var b := tokenList.Consume("<");
      if b {
        return Some((Ast.Lt, false));
      }
      b := tokenList.Consume(">");
      if b {
        return Some((Ast.Lt, true));
      }
      b := tokenList.Consume("<=");
      if b {
        return Some((Ast.Le, false));
      }
      b := tokenList.Consume(">=");
      if b {
        return Some((Ast.Le, true));
      }
      op := None;
    }

    method Add() returns (r: Result<Ast.Node>)
      requires tokenList.Valid()
      modifies tokenList
      ensures tokenList.Valid() && lVars == old(lVars)
      ensures Matches(r, Parser.Add(tokenList.tokens, lVars, old(tokenList.index)), tokenList.index)
      decreases |tokenList.tokens| - tokenList.index, 4
    {
      ghost var ts, pos, lv := tokenList.tokens, tokenList.index, lVars;
      ParserFacts.AddStart(ts, lv, pos);
      var first := Mul();
      if first.Err? {
        return Err;
      }
      var node := first.value;
      while true
        invariant tokenList.Valid() && pos < tokenList.index && lVars == lv
        invariant Parser.Add(ts, lv, pos) == Parser.AddRest(ts, lv, node, tokenList.index)
        decreases |ts| - tokenList.index
      {
        var step := AddStep(node);
        match step
        case Err => return Err;
        case Ok(None) => return Ok(node);
        case Ok(Some(combined)) => node := combined;
      }
    }

    /** One turn of the loop of `Add`: a `+` or `-` and the operand after it combine with `lhs`; any other token ends the chain. */
    method AddStep(lhs: Ast.Node) returns (r: Result<Option<Ast.Node>>)
      requires tokenList.Valid()
      modifies tokenList
      ensures tokenList.Valid() && lVars == old(lVars)
      ensures var spec := Parser.AddRest(tokenList.tokens, lVars, lhs, old(tokenList.index));
        && (r.Err? ==> spec.Err?)
        && (r == Ok(None) ==> spec == Ok(Parser.Parsed(lhs, tokenList.index)))
        && (r.Ok? && r.value.Some? ==>
              old(tokenList.index) < tokenList.index
              && spec == Parser.AddRest(tokenList.tokens, lVars, r.value.value, tokenList.index))
      decreases |tokenList.tokens| - tokenList.index, 3
    {
      ghost var ts, at, lv := tokenList.tokens, tokenList.index, lVars;
      ParserFacts.AddStop(ts, lv, lhs, at);
      var kind := Ast.Add;
      var b := tokenList.Consume("+");
      if !b {
        b := tokenList.Consume("-");
        if !b {
          return Ok(None);
        }
        kind := Ast.Sub;
      }
      var rhs := Mul();
      ParserFacts.AddRestStep(ts, lv, lhs, at, kind);
      if rhs.Err? {
        return Err;
      }
      r := Ok(Some(Ast.NewNode(kind, lhs, Some(rhs.value))));
    }

    method Mul() returns (r: Result<Ast.Node>)
      requires tokenList.Valid()
      modifies tokenList
      ensures tokenList.Valid() && lVars == old(lVars)
      ensures Matches(r, Parser.Mul(tokenList.tokens, lVars, old(tokenList.index)), tokenList.index)
      decreases |tokenList.tokens| - tokenList.index, 3
    {
      ghost var ts, pos, lv := tokenList.tokens, tokenList.index, lVars;
      ParserFacts.MulStart(ts, lv, pos);
      var first := Unary();
      if first.Err? {
        return Err;
      }
      var node := first.value;
      while true
        invariant tokenList.Valid() && pos < tokenList.index && lVars == lv
        invariant Parser.Mul(ts, lv, pos) == Parser.MulRest(ts, lv, node, tokenList.index)
        decreases |ts| - tokenList.index
      {
        var step := MulStep(node);
        match step
        case Err => return Err;
        case Ok(None) => return Ok(node);
        case Ok(Some(combined)) => node := combined;
      }
    }

    /** One turn of the loop of `Mul`: a `*` or `/` and the operand after it combine with `lhs`; any other token ends the chain. */
    method MulStep(lhs: Ast.Node) returns (r: Result<Option<Ast.Node>>)
      requires tokenList.Valid()
      modifies tokenList
      ensures tokenList.Valid() && lVars == old(lVars)
      ensures var spec := Parser.MulRest(tokenList.tokens, lVars, lhs, old(tokenList.index));
        && (r.Err? ==> spec.Err?)
        && (r == Ok(None) ==> spec == Ok(Parser.Parsed(lhs, tokenList.index)))
        && (r.Ok? && r.value.Some? ==>
              old(tokenList.index) < tokenList.index
              && spec == Parser.MulRest(tokenList.tokens, lVars, r.value.value, tokenList.index))
      decreases |tokenList.tokens| - tokenList.index, 2
    {
      ghost var ts, at, lv := tokenList.tokens, tokenList.index, lVars;
      ParserFacts.MulStop(ts, lv, lhs, at);
      var kind := Ast.Mul;
      var b := tokenList.Consume("*");
      if !b {
        b := tokenList.Consume("/");
        if !b {
          return Ok(None);
        }
        kind := Ast.Div;
      }
      var rhs := Unary();
      ParserFacts.MulRestStep(ts, lv, lhs, at, kind);
      if rhs.Err? {
        return Err;
      }
      r := Ok(Some(Ast.NewNode(kind, lhs, Some(rhs.value))));
    }

    method Unary() returns (r: Result<Ast.Node>)
      requires tokenList.Valid()
      modifies tokenList
      ensures tokenList.Valid() && lVars == old(lVars)
      ensures Matches(r, Parser.Unary(tokenList.tokens, lVars, old(tokenList.index)), tokenList.index)
      decreases |tokenList.tokens| - tokenList.index, 2
    {
      ghost var start := tokenList.index;
      var b := tokenList.Consume("+");
      if b {
        ParserFacts.UnaryPlus(tokenList.tokens, lVars, start);
        r := Primary();
        return;
      }
      b := tokenList.Consume("-");
      if b {
        ParserFacts.UnaryMinus(tokenList.tokens, lVars, start);
        r := Negated();
        return;
      }
      b := tokenList.Consume("&");
      if b {
        ParserFacts.UnaryPrefix(tokenList.tokens, lVars, start, "&", Ast.Addr);
        r := PrefixOperand(Ast.Addr);
        return;
      }
      b := tokenList.Consume("*");
      if b {
        ParserFacts.UnaryPrefix(tokenList.tokens, lVars, start, "*", Ast.DeRef);
        r := PrefixOperand(Ast.DeRef);
        return;
      }
      b := tokenList.ConsumeKind(Sizeof);
      if b {
        ParserFacts.UnarySizeof(tokenList.tokens, lVars, start);
        r := SizeofOperand();
        return;
      }
      ParserFacts.UnaryPrimary(tokenList.tokens, lVars, start);
      r := Primary();
    }

    /** The operand of a prefix `-`, read as `0 - operand`. */
    method Negated() returns (r: Result<Ast.Node>)
      requires tokenList.Valid()
      modifies tokenList
      ensures tokenList.Valid() && lVars == old(lVars)
      ensures var spec := Parser.Primary(tokenList.tokens, lVars, old(tokenList.index));
        && (r.Ok? <==> spec.Ok?)
        && (r.Ok? ==> r.value == Ast.NewNode(Ast.Sub, Ast.NewNodeNum(0), Some(spec.value.node))
                      && tokenList.index == spec.value.next)
      decreases |tokenList.tokens| - tokenList.index, 2
    {
      var p := Primary();
      if p.Err? {
        return Err;
      }
      r := Ok(Ast.NewNode(Ast.Sub, Ast.NewNodeNum(0), Some(p.value)));
    }

    /** The operand of a prefix `&` or `*`, under a `kind` node. */
    method PrefixOperand(kind: Ast.NodeKind) returns (r: Result<Ast.Node>)
      requires tokenList.Valid()
      modifies tokenList
      ensures tokenList.Valid() && lVars == old(lVars)
      ensures var spec := Parser.Unary(tokenList.tokens, lVars, old(tokenList.index));
        && (r.Ok? <==> spec.Ok?)
        && (r.Ok? ==> r.value == Ast.NewNode(kind, spec.value.node, None) && tokenList.index == spec.value.next)
      decreases |tokenList.tokens| - tokenList.index, 3
    {
      var u := Unary();
      if u.Err? {
        return Err;
      }
      r := Ok(Ast.NewNode(kind, u.value, None));
    }

    /** The operand of `sizeof`, folded to the number of its size. */
    method SizeofOperand() returns (r: Result<Ast.Node>)
      requires tokenList.Valid()
      modifies tokenList
      ensures tokenList.Valid() && lVars == old(lVars)
      ensures Matches(r, Parser.SizeofOperand(tokenList.tokens, lVars, old(tokenList.index)), tokenList.index)
      decreases |tokenList.tokens| - tokenList.index, 3
    {
      var node := Unary();
      if node.Err? {
        return Err;
      }
      var size := Parser.SizeOf(node.value);
      if size.Err? {
        return Err;
      }
      r := Ok(Ast.NewNodeNum(size.value));
    }

    method Primary() returns (r: Result<Ast.Node>)
      requires tokenList.Valid()
      modifies tokenList
      ensures tokenList.Valid() && lVars == old(lVars)
      ensures Matches(r, Parser.Primary(tokenList.tokens, lVars, old(tokenList.index)), tokenList.index)
      decreases |tokenList.tokens| - tokenList.index, 1
    {
      var b := tokenList.Consume("(");
      if b {
        var node := Expr();
        if node.Err? {
          return Err;
        }
        var ok := tokenList.Expect(")");
        if !ok {
          return Err;
        }
        return node;
      }
      var identToken := tokenList.ConsumeIdent();
      if identToken.Some? {
        r := Identifier(identToken.value.str);
        return;
      }
      var value := tokenList.ExpectNumber();
      if value.Err? {
        return Err;
      }
      r := Ok(Ast.NewNodeNum(value.value));
    }

    /** The forms of a primary expression that start with the identifier
        `name`, from the token after it: a call, an element `a[e]` or a
        variable. */
    method Identifier(name: string) returns (r: Result<Ast.Node>)
      requires tokenList.Valid() && 0 < tokenList.index
      requires AtKind(tokenList.tokens, tokenList.index - 1, Ident)
      requires name == tokenList.tokens[tokenList.index - 1].str
      modifies tokenList
      ensures tokenList.Valid() && lVars == old(lVars)
      ensures Matches(r, Parser.Identifier(tokenList.tokens, lVars, old(tokenList.index) - 1), tokenList.index)
      decreases |tokenList.tokens| - tokenList.index, 0
    {
      var b := tokenList.Consume("(");
      if b {
        ParserFacts.CallForm(tokenList.tokens, lVars, tokenList.index - 2);
        r := Call(name);
        return;
      }
      b := tokenList.Consume("[");
      if b {
        ParserFacts.ElementForm(tokenList.tokens, lVars, tokenList.index - 2);
        var lvar := Parser.FindVar(lVars, name);
        if lvar.Err? {
          return Err;
        }
        r := Element(lvar.value);
        return;
      }
      ParserFacts.VariableForm(tokenList.tokens, lVars, tokenList.index - 1);
      var lvar := Parser.FindVar(lVars, name);
      if lvar.Err? {
        return Err;
      }
      return Ok(Ast.NewNodeIdent(lvar.value));
    }

    /** The index of the element `v[e]`, from after its `[`, read as
        `*(v + e)`. */
    method Element(v: Ast.LVar) returns (r: Result<Ast.Node>)
      requires tokenList.Valid()
      modifies tokenList
      ensures tokenList.Valid() && lVars == old(lVars)
      ensures Matches(r, Parser.Element(tokenList.tokens, lVars, v, old(tokenList.index)), tokenList.index)
      decreases |tokenList.tokens| - tokenList.index, 9
    {
      var identNode := Ast.NewNodeIdent(v);
      var exprNode := Expr();
      if exprNode.Err? {
        return Err;
      }
      var ok := tokenList.Expect("]");
      if !ok {
        return Err;
      }
      var addNode := Ast.NewNode(Ast.Add, identNode, Some(exprNode.value));
      r := Ok(Ast.NewNode(Ast.DeRef, addNode, None));
    }

    /** The arguments of a call to `name`, from after its `(`: expressions,
        each optionally followed by `,`, until a `)`. */
    method Call(name: string) returns (r: Result<Ast.Node>)
      requires tokenList.Valid()
      modifies tokenList
      ensures tokenList.Valid() && lVars == old(lVars)
      ensures var spec := Parser.Args(tokenList.tokens, lVars, old(tokenList.index));
        && (r.Ok? <==> spec.Ok?)
        && (r.Ok? ==> r.value == Ast.Blank(Ast.FuncCall).(funcName := Some(name), arguments := spec.value.value)
                      && tokenList.index == spec.value.next)
      decreases |tokenList.tokens| - tokenList.index, 10
    {
      ghost var ts, start := tokenList.tokens, tokenList.index;
      var arguments: seq<Ast.Node> := [];
      PrependNothing(Parser.Args(ts, lVars, start));
      while true
        invariant tokenList.Valid() && start <= tokenList.index
        invariant Parser.Args(ts, lVars, start)
               == PrependNodes(arguments, Parser.Args(ts, lVars, tokenList.index))
        decreases |ts| - tokenList.index
      {
        var close := tokenList.Consume(")");
        if close {
          assert arguments + [] == arguments;
          break;
        }
        var argNode := Expr();
        if argNode.Err? {
          return Err;
        }
        var _ := tokenList.Consume(",");
        ghost var rest := Parser.Args(ts, lVars, tokenList.index);
        if rest.Ok? {
          PrependNode(arguments, argNode.value, rest.value);
        }
        arguments := arguments + [argNode.value];
      }
      r := Ok(Ast.Blank(Ast.FuncCall).(funcName := Some(name), arguments := arguments));
    }
  }
}
