/** The local-variable table of a function (Honyac/NodeMap.cs): the window
    of tokens that makes up a function body, and `CreateLVars`, which lays out
    the parameters and then the body's declarations in 8-byte stack slots. */
module Symbols {
  import opened Wrappers
  import opened SynTokens
  import Types
  import Ast
  import Int32

  // ---------------------------------------------------------------------
  // The body window

  /** How a token changes the brace depth: `{` opens, `}` closes. */
  function Delta(t: SynToken): int {
    if t.str == "{" then 1 else if t.str == "}" then -1 else 0
  }

  /** The brace depth after the tokens `ts[pos..k]`. */
  function Depth(ts: seq<SynToken>, pos: nat, k: nat): int
    requires pos <= k <= |ts|
    decreases k
  {
    if k == pos then 0 else Depth(ts, pos, k - 1) + Delta(ts[k - 1])
  }

  /** The end of the function body that starts at `pos`: the shortest
      non-empty stretch `ts[pos..e]` whose braces balance, or the whole rest
      of the stream when there is none. A body that does not start with `{`
      is a single token. */
  function WindowEnd(ts: seq<SynToken>, pos: nat, i: nat): (e: nat)
    requires pos <= i <= |ts|
    requires forall k | pos < k <= i :: Depth(ts, pos, k) != 0
    ensures i <= e <= |ts|
    ensures e == |ts| || (pos < e && Depth(ts, pos, e) == 0)
    ensures forall k | pos < k < e :: Depth(ts, pos, k) != 0
    decreases |ts| - i
  {
    if i == |ts| then i
    else if Depth(ts, pos, i + 1) == 0 then i + 1
    else WindowEnd(ts, pos, i + 1)
  }

  function BodyWindow(ts: seq<SynToken>, pos: nat): seq<SynToken>
    requires pos <= |ts|
  {
    ts[pos..WindowEnd(ts, pos, pos)]
  }

  /** The loop of `Function` that copies the body's tokens, counting brace
      depth and stopping after the token that brings it back to 0. */
  method CutWindow(ts: seq<SynToken>, pos: nat) returns (w: seq<SynToken>)
    requires pos <= |ts|
    ensures w == BodyWindow(ts, pos)
  {
    w := [];
    var depth := 0;
    var i := pos;
    while i < |ts|
      invariant pos <= i <= |ts|
      invariant w == ts[pos..i] && depth == Depth(ts, pos, i)
      invariant forall k | pos < k <= i :: Depth(ts, pos, k) != 0
      invariant WindowEnd(ts, pos, pos) == WindowEnd(ts, pos, i)
      decreases |ts| - i
    {
      if ts[i].str == "{" {
        depth := depth + 1;
      } else if ts[i].str == "}" {
        depth := depth - 1;
      }
      w := w + [ts[i]];
      i := i + 1;
      assert w == ts[pos..i];
      if depth == 0 {
        break;
      }
    }
  }

  // ---------------------------------------------------------------------
  // The table

  /** The table built so far and the running frame offset, a C# `int`. */
  datatype Locals = Locals(vars: seq<Ast.LVar>, offset: int)

  /** The first index at or after `i` whose token is not spelled `*`. */
  function StarRunEnd(ts: seq<SynToken>, i: nat): (j: nat)
    requires i <= |ts|
    ensures i <= j <= |ts| && (j < |ts| ==> ts[j].str != "*")
    ensures forall k | i <= k < j :: ts[k].str == "*"
    decreases |ts| - i
  {
    if i < |ts| && ts[i].str == "*" then StarRunEnd(ts, i + 1) else i
  }

  /** Some entry of the table has this name (`lVars.Exists`). */
  predicate Declared(vars: seq<Ast.LVar>, name: string) {
    exists k | 0 <= k < |vars| :: vars[k].name == name
  }

  /** The parameter loop of `CreateLVars`, from argument token `i` on. Each
      parameter is a type, a run of `*` and a name, and parameters are
      separated by `,`. A token read beyond the end, a parameter that does not
      start with a type and a separator other than `,` are errors; the name
      token is not checked, and neither are repeated names. */
  function ParamsFrom(args: seq<SynToken>, i: nat, argIndex: int, acc: Locals): Result<Locals>
    requires i <= |args|
    decreases |args| - i
  {
    if i == |args| then
      Ok(acc)
    else if args[i].kind != Type then
      Err
    else
      var j := StarRunEnd(args, i + 1);
      if j == |args| then
        Err
      else
        var offset := Int32.Wrap(acc.offset + 8);
        var v := Ast.LVar(args[j].str, args[i].typeKind, offset, j - (i + 1), 0, argIndex);
        var acc' := Locals(acc.vars + [v], offset);
        if j + 1 == |args| then Ok(acc')
        else if args[j + 1].str != "," then Err
        else ParamsFrom(args, j + 2, argIndex + 1, acc')
  }

  /** The declaration loop of `CreateLVars`, from window token `i` on. Every
      token of kind `Type` starts a declaration: a run of `*`, a name, and
      then `(` (a function, which is skipped), `[` n `]` (an array of n
      elements, one more pointer level, and n extra slots before its own),
      or any other token. A token read beyond the end, a missing `]` and a
      name already in the table, parameters included, are errors. The
      offset moves by `8 * arraySize` and then by 8 in unchecked `int`
      arithmetic; the three wrapping steps leave what one wrap of the exact
      sum leaves (`Int32.WrapAdd`). */
  function BodyFrom(ts: seq<SynToken>, i: nat, acc: Locals): Result<Locals>
    requires i <= |ts|
    decreases |ts| - i
  {
    if i == |ts| then
      Ok(acc)
    else if ts[i].kind != Type then
      BodyFrom(ts, i + 1, acc)
    else
      var j := StarRunEnd(ts, i + 1);
      if j + 1 >= |ts| then
        Err
      else if ts[j + 1].str == "(" then
        BodyFrom(ts, j + 2, acc)
      else
        var isArray := ts[j + 1].str == "[";
        if isArray && (j + 3 >= |ts| || ts[j + 3].str != "]") then
          Err
        else if Declared(acc.vars, ts[j].str) then
          Err
        else
          var arraySize := if isArray then ts[j + 2].value else 0;
          var pointerCount := if isArray then j - (i + 1) + 1 else j - (i + 1);
          var offset := Int32.Wrap(acc.offset + 8 * arraySize + 8);
          var v := Ast.LVar(ts[j].str, ts[i].typeKind, offset, pointerCount, arraySize, -1);
          BodyFrom(ts, if isArray then j + 4 else j + 2, Locals(acc.vars + [v], offset))
  }

  /** The table `CreateLVars` builds from a body window and the tokens
      between the parameter list's parentheses. */
  function LocalTable(window: seq<SynToken>, args: seq<SynToken>): Result<seq<Ast.LVar>> {
    var params :- ParamsFrom(args, 0, 0, Locals([], 0));
    var all :- BodyFrom(window, 0, params);
    Ok(all.vars)
  }

  /** `CreateLVars`: the parameters first, then the body's declarations,
      which continue from the last parameter's offset. */
  method CreateLVars(tokenList: seq<SynToken>, argumentTokens: seq<SynToken>)
    returns (r: Result<seq<Ast.LVar>>)
    ensures r == LocalTable(tokenList, argumentTokens)
  {
    var params := CreateParams(argumentTokens);
    if params.Err? {
      return Err;
    }
    var all := CreateDecls(tokenList, params.value);
    if all.Err? {
      return Err;
    }
    return Ok(all.value.vars);
  }

  /** The first loop of `CreateLVars`, over the parameter tokens. */
  method CreateParams(argumentTokens: seq<SynToken>) returns (r: Result<Locals>)
    ensures r == ParamsFrom(argumentTokens, 0, 0, Locals([], 0))
  {
    var lVars: seq<Ast.LVar> := [];
    var offset := 0;
    var argIndex := 0;
    var i := 0;
    while i < |argumentTokens|
      invariant i <= |argumentTokens|
      invariant ParamsFrom(argumentTokens, 0, 0, Locals([], 0))
             == ParamsFrom(argumentTokens, i, argIndex, Locals(lVars, offset))
      decreases |argumentTokens| - i
    {
      ghost var start := i;
      ghost var acc := Locals(lVars, offset);
      var typeToken := argumentTokens[i];
      if typeToken.kind != Type {
        return Err;
      }
      i := i + 1;
      var pointerCount := 0;
      while i + pointerCount < |argumentTokens| && argumentTokens[i + pointerCount].str == "*"
        invariant i + pointerCount <= |argumentTokens|
        invariant StarRunEnd(argumentTokens, i) == StarRunEnd(argumentTokens, i + pointerCount)
        decreases |argumentTokens| - i - pointerCount
      {
        pointerCount := pointerCount + 1;
      }
      if i + pointerCount == |argumentTokens| {
        return Err;
      }
      i := i + pointerCount;
      var identToken := argumentTokens[i];
      i := i + 1;
      offset := Int32.Wrap(offset + 8);
      lVars := lVars + [Ast.LVar(identToken.str, typeToken.typeKind, offset, pointerCount, 0, argIndex)];
      argIndex := argIndex + 1;
      ParamStep(argumentTokens, start, argIndex - 1, acc, i - 1, Locals(lVars, offset));
      if i == |argumentTokens| {
        break;
      }
      if argumentTokens[i].str != "," {
        return Err;
      }
      i := i + 1;
    }
    return Ok(Locals(lVars, offset));
  }

  /** The second loop of `CreateLVars`, over the body window, starting from
      the table and offset the parameters left. */
  method CreateDecls(tokenList: seq<SynToken>, params: Locals) returns (r: Result<Locals>)
    ensures r == BodyFrom(tokenList, 0, params)
  {
    var lVars := params.vars;
    var offset := params.offset;
    var i := 0;
    while i < |tokenList|
      invariant i <= |tokenList|
      invariant BodyFrom(tokenList, 0, params) == BodyFrom(tokenList, i, Locals(lVars, offset))
      decreases |tokenList| - i
    {
      ghost var start := i;
      ghost var acc := Locals(lVars, offset);
      var typeToken := tokenList[i];
      i := i + 1;
      if typeToken.kind != Type {
        continue;
      }
      var pointerCount := 0;
      while i + pointerCount < |tokenList| && tokenList[i + pointerCount].str == "*"
        invariant i + pointerCount <= |tokenList|
        invariant StarRunEnd(tokenList, i) == StarRunEnd(tokenList, i + pointerCount)
        decreases |tokenList| - i - pointerCount
      {
        pointerCount := pointerCount + 1;
      }
      if i + pointerCount + 1 >= |tokenList| {
        return Err;
      }
      i := i + pointerCount;
      ghost var j := i;
      var identToken := tokenList[i];
      i := i + 1;
      var nextToken := tokenList[i];
      i := i + 1;
      if nextToken.str == "(" {
        continue;
      }
      var arraySize := 0;
      if nextToken.str == "[" {
        if i + 1 >= |tokenList| {
          return Err;
        }
        var numToken := tokenList[i];
        i := i + 1;
        arraySize := numToken.value;
        pointerCount := pointerCount + 1;
        if tokenList[i].str != "]" {
          return Err;
        }
        i := i + 1;
      }
      if Declared(lVars, identToken.str) {
        DeclStep(tokenList, start, acc, j, i);
        return Err;
      }
      offset := Int32.Wrap(offset + Int32.Wrap(8 * arraySize));
      offset := Int32.Wrap(offset + 8);
      OffsetStep(acc.offset, arraySize);
      lVars := lVars + [Ast.LVar(identToken.str, typeToken.typeKind, offset, pointerCount, arraySize, -1)];
      DeclStep(tokenList, start, acc, j, i);
    }
    return Ok(Locals(lVars, offset));
  }

  /** What one turn of the parameter loop does to `ParamsFrom`, for a
      parameter whose name is at `j` and which extends the table to `acc'`. */
  lemma ParamStep(args: seq<SynToken>, i: nat, argIndex: int, acc: Locals, j: nat, acc': Locals)
    requires i < |args| && args[i].kind == Type && j == StarRunEnd(args, i + 1) < |args|
    requires var offset := Int32.Wrap(acc.offset + 8);
      acc' == Locals(acc.vars + [Ast.LVar(args[j].str, args[i].typeKind, offset, j - (i + 1), 0, argIndex)], offset)
    ensures ParamsFrom(args, i, argIndex, acc) ==
      if j + 1 == |args| then Ok(acc')
      else if args[j + 1].str != "," then Err
      else ParamsFrom(args, j + 2, argIndex + 1, acc')
  {
  }

  /** The two unchecked additions that move the offset past a declaration
      land where one exact addition, wrapped once, does. */
  lemma OffsetStep(offset: int, arraySize: int)
    ensures Int32.Wrap(Int32.Wrap(offset + Int32.Wrap(8 * arraySize)) + 8) == Int32.Wrap(offset + 8 * arraySize + 8)
  {
    Int32.WrapAdd(offset + Int32.Wrap(8 * arraySize), 8);
    Int32.WrapAdd(8 * arraySize, offset + 8);
  }

  /** What one declaration of the body, from its type at `i` through its
      name at `j` to `next`, does to `BodyFrom`. */
  lemma DeclStep(ts: seq<SynToken>, i: nat, acc: Locals, j: nat, next: nat)
    requires i < |ts| && ts[i].kind == Type && j == StarRunEnd(ts, i + 1) && j + 1 < |ts|
    requires ts[j + 1].str != "("
    requires next == if ts[j + 1].str == "[" then j + 4 else j + 2
    requires ts[j + 1].str == "[" ==> j + 3 < |ts| && ts[j + 3].str == "]"
    ensures BodyFrom(ts, i, acc) ==
      if Declared(acc.vars, ts[j].str) then Err
      else
        var isArray := ts[j + 1].str == "[";
        var arraySize := if isArray then ts[j + 2].value else 0;
        var offset := Int32.Wrap(acc.offset + 8 * arraySize + 8);
        BodyFrom(ts, next, Locals(acc.vars + [Ast.LVar(ts[j].str, ts[i].typeKind, offset,
          if isArray then j - (i + 1) + 1 else j - (i + 1), arraySize, -1)], offset))
  {
  }
}
