/** Properties of the local-variable table built by `Symbols.LocalTable`:
    the parameter layout, the layout of body declarations, distinct names,
    increasing offsets, and what a well-formed parameter list produces. */
module SymbolsFacts {
  import opened Wrappers
  import opened SynTokens
  import opened Symbols
  import Types
  import Ast
  import Int32
  import Decimal

  // ---------------------------------------------------------------------
  // Layout

  /** Parameters in order: the k-th (from 0) gets offset 8 * (k + 1), as a
      C# `int`, and argument index k, and is not an array. */
  predicate ParamLayout(vars: seq<Ast.LVar>) {
    forall k | 0 <= k < |vars| ::
      vars[k].offset == Int32.Wrap(8 * (k + 1)) && vars[k].argIndex == k && vars[k].arraySize == 0
  }

  lemma {:induction false} ParamsFromLayout(args: seq<SynToken>, i: nat, argIndex: int, acc: Locals)
    requires i <= |args| && ParamsFrom(args, i, argIndex, acc).Ok?
    requires ParamLayout(acc.vars) && acc.offset == Int32.Wrap(8 * |acc.vars|) && argIndex == |acc.vars|
    ensures var res := ParamsFrom(args, i, argIndex, acc).value;
      && acc.vars <= res.vars && ParamLayout(res.vars) && res.offset == Int32.Wrap(8 * |res.vars|)
    decreases |args| - i
  {
    if i < |args| {
      var j := StarRunEnd(args, i + 1);
      var offset := Int32.Wrap(acc.offset + 8);
      var v := Ast.LVar(args[j].str, args[i].typeKind, offset, j - (i + 1), 0, argIndex);
      var acc' := Locals(acc.vars + [v], offset);
      ParamCons(acc, v);
      if j + 1 < |args| {
        ParamsFromLayout(args, j + 2, argIndex + 1, acc');
      }
    }
  }

  /** The next parameter, placed 8 bytes further down the frame, keeps the
      layout. */
  lemma ParamCons(acc: Locals, v: Ast.LVar)
    requires ParamLayout(acc.vars) && acc.offset == Int32.Wrap(8 * |acc.vars|)
    requires v.offset == Int32.Wrap(acc.offset + 8) && v.argIndex == |acc.vars| && v.arraySize == 0
    ensures ParamLayout(acc.vars + [v]) && v.offset == Int32.Wrap(8 * |acc.vars + [v]|)
  {
    Int32.WrapAdd(8 * |acc.vars|, 8);
    assert ParamLayout(acc.vars + [v]);
  }

  /** Entry `m` of `vars` is a body declaration placed after the entry before
      it (or after `baseOffset` if it is the first one, at `base`): argument
      index -1, 8 * (arraySize + 1) bytes further down the frame in C# `int`
      arithmetic, and a name that no earlier entry has. */
  predicate BodyEntry(vars: seq<Ast.LVar>, base: nat, baseOffset: int, m: nat)
    requires base <= m < |vars|
  {
    var prev := if m == base then baseOffset else vars[m - 1].offset;
    && vars[m].argIndex == -1
    && vars[m].offset == Int32.Wrap(prev + 8 * (vars[m].arraySize + 1))
    && forall j | 0 <= j < m :: vars[j].name != vars[m].name
  }

  predicate NonNegativeValues(ts: seq<SynToken>) {
    forall k | 0 <= k < |ts| :: ts[k].value >= 0
  }

  /** `res` extends `acc` by body declarations, each placed after the one
      before it as `BodyEntry` says, and its offset is that of its last
      entry (`acc`'s own when there is none). */
  predicate LaidOut(ts: seq<SynToken>, acc: Locals, res: Locals) {
    && acc.vars <= res.vars
    && (forall m | |acc.vars| <= m < |res.vars| :: BodyEntry(res.vars, |acc.vars|, acc.offset, m))
    && res.offset == (if |res.vars| == |acc.vars| then acc.offset else res.vars[|res.vars| - 1].offset)
    && (NonNegativeValues(ts) ==> forall m | |acc.vars| <= m < |res.vars| :: res.vars[m].arraySize >= 0)
  }

  lemma {:induction false} BodyFromLayout(ts: seq<SynToken>, i: nat, acc: Locals)
    requires i <= |ts| && BodyFrom(ts, i, acc).Ok?
    ensures LaidOut(ts, acc, BodyFrom(ts, i, acc).value)
    decreases |ts| - i
  {
    if i < |ts| {
      if ts[i].kind != Type {
        BodyFromLayout(ts, i + 1, acc);
      } else {
        var j := StarRunEnd(ts, i + 1);
        if ts[j + 1].str == "(" {
          BodyFromLayout(ts, j + 2, acc);
        } else {
          var isArray := ts[j + 1].str == "[";
          var arraySize := if isArray then ts[j + 2].value else 0;
          var pointerCount := if isArray then j - (i + 1) + 1 else j - (i + 1);
          var offset := Int32.Wrap(acc.offset + 8 * arraySize + 8);
          var v := Ast.LVar(ts[j].str, ts[i].typeKind, offset, pointerCount, arraySize, -1);
          var acc' := Locals(acc.vars + [v], offset);
          var next := if isArray then j + 4 else j + 2;
          BodyFromLayout(ts, next, acc');
          assert BodyFrom(ts, i, acc) == BodyFrom(ts, next, acc');
          assert NonNegativeValues(ts) ==> arraySize >= 0;
          LaidOutCons(ts, acc, v, BodyFrom(ts, next, acc').value);
        }
      }
    }
  }

  /** A declaration placed right after `acc`, followed by a layout from
      there, is a layout from `acc`. */
  lemma LaidOutCons(ts: seq<SynToken>, acc: Locals, v: Ast.LVar, res: Locals)
    requires LaidOut(ts, Locals(acc.vars + [v], v.offset), res)
    requires v.argIndex == -1 && v.offset == Int32.Wrap(acc.offset + 8 * v.arraySize + 8)
    requires !Declared(acc.vars, v.name) && (NonNegativeValues(ts) ==> v.arraySize >= 0)
    ensures LaidOut(ts, acc, res)
  {
    var acc' := Locals(acc.vars + [v], v.offset);
    assert res.vars[|acc.vars|] == v;
    forall m | |acc.vars| <= m < |res.vars|
      ensures BodyEntry(res.vars, |acc.vars|, acc.offset, m)
    {
      if m == |acc.vars| {
        forall j' | 0 <= j' < m
          ensures res.vars[j'].name != v.name
        {
          assert res.vars[j'] == acc.vars[j'];
        }
      } else {
        assert BodyEntry(res.vars, |acc'.vars|, acc'.offset, m);
      }
    }
  }

  /** The table `CreateLVars` returns: first the parameters, laid out as
      `ParamLayout` says, then the body's declarations, each placed after
      the one before it, the first one after the last parameter, each with
      a name no earlier entry has. */
  lemma LocalTableLayout(window: seq<SynToken>, args: seq<SynToken>)
    requires LocalTable(window, args).Ok?
    ensures ParamsFrom(args, 0, 0, Locals([], 0)).Ok?
    ensures var vars := LocalTable(window, args).value;
      var p := |ParamsFrom(args, 0, 0, Locals([], 0)).value.vars|;
      && p <= |vars|
      && ParamLayout(vars[..p])
      && (forall m | p <= m < |vars| :: BodyEntry(vars, p, Int32.Wrap(8 * p), m))
      && (NonNegativeValues(window) ==> forall m | p <= m < |vars| :: vars[m].arraySize >= 0)
  {
    var params := ParamsFrom(args, 0, 0, Locals([], 0)).value;
    ParamsFromLayout(args, 0, 0, Locals([], 0));
    BodyFromLayout(window, 0, params);
    var vars := LocalTable(window, args).value;
    assert vars[..|params.vars|] == params.vars;
  }

  // ---------------------------------------------------------------------
  // Distinct slots

  /** The bytes of stack frame the entries reserve: 8 per variable and 8
      per array element. */
  function FrameSize(vars: seq<Ast.LVar>): int {
    if vars == [] then 0 else FrameSize(vars[..|vars| - 1]) + 8 * (vars[|vars| - 1].arraySize + 1)
  }

  /** Every entry lies its own size further down the frame than the entry
      before it, the first one its own size below the frame pointer, in
      C# `int` arithmetic. */
  predicate Chained(vars: seq<Ast.LVar>) {
    forall m | 0 <= m < |vars| :: Link(vars, m)
  }

  predicate Link(vars: seq<Ast.LVar>, m: nat)
    requires m < |vars|
  {
    vars[m].offset == Int32.Wrap((if m == 0 then 0 else vars[m - 1].offset) + 8 * (vars[m].arraySize + 1))
  }

  /** Parameters in slot order followed by body entries laid out after
      them form a chain. */
  lemma LayoutChained(vars: seq<Ast.LVar>, p: nat)
    requires p <= |vars| && ParamLayout(vars[..p])
    requires forall m | p <= m < |vars| :: BodyEntry(vars, p, Int32.Wrap(8 * p), m)
    ensures Chained(vars)
    ensures forall m | 0 <= m < p :: vars[m].arraySize == 0
  {
    forall m | 0 <= m < |vars|
      ensures Link(vars, m)
    {
      if m < p {
        ParamChained(vars, p, m);
      } else {
        assert BodyEntry(vars, p, Int32.Wrap(8 * p), m);
        if m == p && 0 < p {
          assert vars[p - 1] == vars[..p][p - 1];
        }
      }
    }
    forall m | 0 <= m < p
      ensures vars[m].arraySize == 0
    {
      assert vars[m] == vars[..p][m];
    }
  }

  lemma ParamChained(vars: seq<Ast.LVar>, p: nat, m: nat)
    requires m < p <= |vars| && ParamLayout(vars[..p])
    ensures Link(vars, m)
  {
    assert vars[m] == vars[..p][m];
    Int32.WrapAdd(8 * m, 8);
    if 0 < m {
      assert vars[m - 1] == vars[..p][m - 1];
    }
  }

  /** The whole table, parameters and body declarations alike, is chained. */
  lemma LocalTableChained(window: seq<SynToken>, args: seq<SynToken>)
    requires LocalTable(window, args).Ok?
    ensures var vars := LocalTable(window, args).value;
      && Chained(vars)
      && (NonNegativeValues(window) ==> forall m | 0 <= m < |vars| :: vars[m].arraySize >= 0)
  {
    LocalTableLayout(window, args);
    var vars := LocalTable(window, args).value;
    var p := |ParamsFrom(args, 0, 0, Locals([], 0)).value.vars|;
    LayoutChained(vars, p);
  }

  /** While the frame fits an `int`, no offset wraps: each is the size of
      the frame up to and including its entry. */
  lemma {:induction false} ChainedOffsets(vars: seq<Ast.LVar>)
    requires Chained(vars) && forall m | 0 <= m < |vars| :: vars[m].arraySize >= 0
    requires FrameSize(vars) <= Int32.Max
    ensures FrameSize(vars) >= 8 * |vars|
    ensures forall m | 0 <= m < |vars| :: vars[m].offset == FrameSize(vars[..m + 1])
  {
    if vars != [] {
      var n := |vars| - 1;
      var init := vars[..n];
      assert forall m | 0 <= m < n :: init[m] == vars[m];
      assert Chained(init) by {
        forall m | 0 <= m < n
          ensures Link(init, m)
        {
          assert Link(vars, m);
        }
      }
      assert FrameSize(vars) == FrameSize(init) + 8 * (vars[n].arraySize + 1);
      ChainedOffsets(init);
      forall m | 0 <= m < |vars|
        ensures vars[m].offset == FrameSize(vars[..m + 1])
      {
        if m < n {
          assert vars[..m + 1] == init[..m + 1];
        } else {
          assert vars[..m + 1] == vars;
          assert Link(vars, m);
          if 0 < m {
            assert init[..m] == init;
          }
        }
      }
    }
  }

  /** In a chain of entries whose frame fits an `int`, offsets are positive
      and strictly increase. */
  lemma ChainedIncrease(vars: seq<Ast.LVar>)
    requires Chained(vars) && forall m | 0 <= m < |vars| :: vars[m].arraySize >= 0
    requires FrameSize(vars) <= Int32.Max
    ensures forall j, k | 0 <= j < k < |vars| :: 0 < vars[j].offset < vars[k].offset
  {
    ChainedOffsets(vars);
    forall k | 0 < k < |vars|
      ensures vars[k - 1].offset < vars[k].offset
    {
      FrameStep(vars, k);
    }
    if 0 < |vars| {
      FrameStep(vars, 0);
    }
    Increasing(vars);
  }

  /** Extending a prefix by one entry grows the frame by that entry's size. */
  lemma FrameStep(vars: seq<Ast.LVar>, k: nat)
    requires k < |vars|
    ensures FrameSize(vars[..k + 1]) == FrameSize(vars[..k]) + 8 * (vars[k].arraySize + 1)
  {
    assert vars[..k + 1][..k] == vars[..k];
  }

  /** When every number in the window is non-negative (as every number the
      lexer produces is) and the frame is smaller than 2^31 bytes, frame
      offsets strictly increase in declaration order, so no two entries
      share a slot. A larger frame wraps; `FrameWraps` shows two entries
      sharing a slot. */
  lemma OffsetsIncrease(window: seq<SynToken>, args: seq<SynToken>)
    requires LocalTable(window, args).Ok? && NonNegativeValues(window)
    requires FrameSize(LocalTable(window, args).value) <= Int32.Max
    ensures var vars := LocalTable(window, args).value;
      forall j, k | 0 <= j < k < |vars| :: 0 < vars[j].offset < vars[k].offset
  {
    LocalTableChained(window, args);
    ChainedIncrease(LocalTable(window, args).value);
  }

  /** The body `int x; int a[536870911];`. */
  const WrapWindow: seq<SynToken> := [
    SynToken(Type, 0, "int", Types.Int), SynToken(Ident, 0, "x", Types.None),
    SynToken(Reserved, 0, ";", Types.None),
    SynToken(Type, 0, "int", Types.Int), SynToken(Ident, 0, "a", Types.None),
    SynToken(Reserved, 0, "[", Types.None), SynToken(Num, 536870911, "536870911", Types.None),
    SynToken(Reserved, 0, "]", Types.None), SynToken(Reserved, 0, ";", Types.None)]

  /** Past 2^31 bytes the offsets wrap: in the body `int x; int a[536870911];`
      the array's offset, 8 + 8 * 536870911 + 8, comes back to 8, the
      offset of `x`. */
  lemma FrameWraps()
    ensures var r := LocalTable(WrapWindow, []);
      && r.Ok? && |r.value| == 2 && r.value[0].name == "x" && r.value[1].name == "a"
      && r.value[0].offset == r.value[1].offset == 8
      && FrameSize(r.value) > Int32.Max
  {
    var ts := WrapWindow;
    var x := Ast.LVar("x", Types.Int, 8, 0, 0, -1);
    var a := Ast.LVar("a", Types.Int, 8, 1, 536870911, -1);
    assert StarRunEnd(ts, 1) == 1 && StarRunEnd(ts, 4) == 4;
    assert BodyFrom(ts, 8, Locals([x, a], 8)) == Ok(Locals([x, a], 8));
    assert ts[5].str == "[" && ts[7].str == "]" && ts[6].value == 536870911;
    assert !Declared([x], "a") by {
      assert [x][0].name == "x" != "a";
    }
    assert Int32.Wrap(8 + 8 * 536870911 + 8) == 8;
    assert [x] + [a] == [x, a];
    assert BodyFrom(ts, 3, Locals([x], 8)) == Ok(Locals([x, a], 8));
    assert Int32.Wrap(0 + 8 * 0 + 8) == 8;
    assert [] + [x] == [x];
    assert BodyFrom(ts, 0, Locals([], 0)) == Ok(Locals([x, a], 8));
    assert [x, a][..1] == [x];
  }

  lemma {:induction false} Increasing(vars: seq<Ast.LVar>)
    requires 0 < |vars| ==> 0 < vars[0].offset
    requires forall k | 0 < k < |vars| :: vars[k - 1].offset < vars[k].offset
    ensures forall j, k | 0 <= j < k < |vars| :: 0 < vars[j].offset < vars[k].offset
  {
    if 1 < |vars| {
      var init := vars[..|vars| - 1];
      assert forall k | 0 < k < |init| :: init[k - 1].offset < init[k].offset by {
        forall k | 0 < k < |init|
          ensures init[k - 1].offset < init[k].offset
        {
          assert init[k - 1] == vars[k - 1] && init[k] == vars[k];
        }
      }
      Increasing(init);
      forall j, k | 0 <= j < k < |vars|
        ensures 0 < vars[j].offset < vars[k].offset
      {
        if k < |vars| - 1 {
          assert vars[j] == init[j] && vars[k] == init[k];
        } else if j < k - 1 {
          assert vars[j] == init[j] && vars[k - 1] == init[k - 1];
        } else if 0 < j {
          assert vars[j - 1] == init[j - 1] && vars[j] == init[j];
        }
      }
    }
  }

  // ---------------------------------------------------------------------
  // A well-formed parameter list

  /** A parameter as written: a type, `stars` asterisks, a name. */
  datatype Param = Param(kind: Types.TypeKind, stars: nat, name: string)

  function StarTokens(n: nat): (r: seq<SynToken>)
    ensures |r| == n && forall k | 0 <= k < n :: r[k] == SynToken(Reserved, 0, "*", Types.None)
  {
    if n == 0 then [] else [SynToken(Reserved, 0, "*", Types.None)] + StarTokens(n - 1)
  }

  function ParamTokens(p: Param): seq<SynToken> {
    [SynToken(Type, 0, "int", p.kind)] + StarTokens(p.stars) + [SynToken(Ident, 0, p.name, Types.None)]
  }

  /** The tokens of a parameter list, separated by commas. */
  function ParamList(ps: seq<Param>): seq<SynToken> {
    if ps == [] then []
    else if |ps| == 1 then ParamTokens(ps[0])
    else ParamTokens(ps[0]) + [SynToken(Reserved, 0, ",", Types.None)] + ParamList(ps[1..])
  }

  lemma {:induction false} StarRunEndAt(ts: seq<SynToken>, i: nat, e: nat)
    requires i <= e <= |ts| && (forall k | i <= k < e :: ts[k].str == "*")
    requires e < |ts| ==> ts[e].str != "*"
    ensures StarRunEnd(ts, i) == e
    decreases e - i
  {
    if i < e {
      StarRunEndAt(ts, i + 1, e);
    }
  }

  /** Reading one written parameter that starts at `i`. */
  lemma {:induction false} ParamAt(args: seq<SynToken>, i: nat, p: Param)
    requires i + |ParamTokens(p)| <= |args| && args[i..i + |ParamTokens(p)|] == ParamTokens(p)
    requires p.name != "*"
    ensures args[i].kind == Type && args[i].typeKind == p.kind
    ensures StarRunEnd(args, i + 1) == i + 1 + p.stars
    ensures args[i + 1 + p.stars].str == p.name
  {
    var s := args[i..i + |ParamTokens(p)|];
    var j := i + 1 + p.stars;
    assert args[i] == s[0];
    assert forall k | i + 1 <= k < j :: args[k] == s[k - i] == StarTokens(p.stars)[k - i - 1];
    assert args[j] == s[j - i];
    StarRunEndAt(args, i + 1, j);
  }

  /** The entries of written parameters, the first at argument index
      `argIndex`, one slot after `offset`. */
  function ParamVars(ps: seq<Param>, argIndex: int, offset: int): (vars: seq<Ast.LVar>)
    ensures |vars| == |ps|
  {
    if ps == [] then []
    else [Ast.LVar(ps[0].name, ps[0].kind, Int32.Wrap(offset + 8), ps[0].stars, 0, argIndex)]
         + ParamVars(ps[1..], argIndex + 1, Int32.Wrap(offset + 8))
  }

  lemma {:induction false} ParamVarsAt(ps: seq<Param>, argIndex: int, offset: int, m: nat)
    requires m < |ps|
    ensures ParamVars(ps, argIndex, offset)[m] ==
      Ast.LVar(ps[m].name, ps[m].kind, Int32.Wrap(offset + 8 * (m + 1)), ps[m].stars, 0, argIndex + m)
    decreases m
  {
    if m > 0 {
      ParamVarsAt(ps[1..], argIndex + 1, Int32.Wrap(offset + 8), m - 1);
      Int32.WrapAdd(offset + 8, 8 * m);
    }
  }

  lemma {:induction false} ParamListSplit(args: seq<SynToken>, i: nat, ps: seq<Param>)
    requires i <= |args| && args[i..] == ParamList(ps) && |ps| > 1
    ensures var n := |ParamTokens(ps[0])|;
      && i + n + 1 <= |args|
      && args[i..i + n] == ParamTokens(ps[0])
      && args[i + n] == SynToken(Reserved, 0, ",", Types.None)
      && args[i + n + 1..] == ParamList(ps[1..])
  {
    var n := |ParamTokens(ps[0])|;
    var comma := SynToken(Reserved, 0, ",", Types.None);
    assert args[i..] == ParamTokens(ps[0]) + [comma] + ParamList(ps[1..]);
    assert args[i..i + n] == args[i..][..n];
    assert args[i + n] == args[i..][n];
    assert args[i + n + 1..] == args[i..][n + 1..];
  }

  /** A single written parameter is read, and the scan ends. */
  lemma {:induction false} ParamsFromLast(args: seq<SynToken>, i: nat, argIndex: int, acc: Locals, ps: seq<Param>)
    requires i <= |args| && args[i..] == ParamList(ps)
    requires |ps| == 1 && ps[0].name != "*"
    ensures var offset := Int32.Wrap(acc.offset + 8);
      ParamsFrom(args, i, argIndex, acc) ==
      Ok(Locals(acc.vars + [Ast.LVar(ps[0].name, ps[0].kind, offset, ps[0].stars, 0, argIndex)], offset))
  {
    var p := ps[0];
    assert args[i..] == ParamTokens(p);
    assert args[i..i + |ParamTokens(p)|] == ParamTokens(p);
    ParamAt(args, i, p);
  }

  /** Reading one more parameter first and the rest afterwards lays out
      the same entries as reading them all. */
  lemma {:induction false} ParamVarsStep(acc: Locals, ps: seq<Param>, argIndex: int, acc': Locals)
    requires |ps| > 0
    requires acc' == Locals(acc.vars + [Ast.LVar(ps[0].name, ps[0].kind, Int32.Wrap(acc.offset + 8), ps[0].stars, 0, argIndex)], Int32.Wrap(acc.offset + 8))
    ensures Locals(acc'.vars + ParamVars(ps[1..], argIndex + 1, acc'.offset), Int32.Wrap(acc'.offset + 8 * |ps[1..]|))
      == Locals(acc.vars + ParamVars(ps, argIndex, acc.offset), Int32.Wrap(acc.offset + 8 * |ps|))
  {
    var v := Ast.LVar(ps[0].name, ps[0].kind, Int32.Wrap(acc.offset + 8), ps[0].stars, 0, argIndex);
    Int32.WrapAdd(acc.offset + 8, 8 * (|ps| - 1));
    assert acc.vars + [v] + ParamVars(ps[1..], argIndex + 1, Int32.Wrap(acc.offset + 8)) == acc.vars + ParamVars(ps, argIndex, acc.offset);
  }

  /** No parameter is named `*`. */
  predicate NoStar(ps: seq<Param>) {
    forall m | 0 <= m < |ps| :: ps[m].name != "*"
  }

  lemma NoStarTail(ps: seq<Param>)
    requires ps != [] && NoStar(ps)
    ensures NoStar(ps[1..])
  {
    forall m | 0 <= m < |ps| - 1
      ensures ps[1..][m].name != "*"
    {
      assert ps[1..][m] == ps[m + 1];
    }
  }

  /** `args` holds the written list `ps` from `i` to its end, no parameter
      is named `*`, and the offset is a C# `int`. */
  predicate ListAt(args: seq<SynToken>, i: nat, ps: seq<Param>, acc: Locals) {
    i <= |args| && args[i..] == ParamList(ps) && NoStar(ps) && Int32.InRange(acc.offset)
  }

  /** What reading the rest of a list after its first parameter needs. */
  lemma RestAt(args: seq<SynToken>, next: nat, ps: seq<Param>, acc': Locals)
    requires ps != [] && NoStar(ps) && Int32.InRange(acc'.offset)
    requires next <= |args| && args[next..] == ParamList(ps[1..])
    ensures ListAt(args, next, ps[1..], acc')
  {
    NoStarTail(ps);
  }

  lemma {:induction false} ParamsFromList(args: seq<SynToken>, i: nat, argIndex: int, acc: Locals, ps: seq<Param>)
    requires ListAt(args, i, ps, acc)
    ensures ParamsFrom(args, i, argIndex, acc) ==
      Ok(Locals(acc.vars + ParamVars(ps, argIndex, acc.offset), Int32.Wrap(acc.offset + 8 * |ps|)))
    decreases ps, 2
  {
    if ps == [] {
      assert |args[i..]| == 0;
      assert acc.vars + [] == acc.vars;
    } else if |ps| == 1 {
      ParamsFromLast(args, i, argIndex, acc, ps);
      assert ParamVars(ps, argIndex, acc.offset) ==
        [Ast.LVar(ps[0].name, ps[0].kind, Int32.Wrap(acc.offset + 8), ps[0].stars, 0, argIndex)];
    } else {
      ParamListSplit(args, i, ps);
      ParamsFromCons(args, i, argIndex, acc, ps);
    }
  }

  /** The inductive step of `ParamsFromList`: the first parameter, its
      comma, and the rest of the list. */
  lemma {:induction false} ParamsFromCons(args: seq<SynToken>, i: nat, argIndex: int, acc: Locals, ps: seq<Param>)
    requires |ps| > 1 && NoStar(ps)
    requires Int32.InRange(acc.offset)
    requires var n := |ParamTokens(ps[0])|;
      && i + n + 1 <= |args|
      && args[i..i + n] == ParamTokens(ps[0])
      && args[i + n] == SynToken(Reserved, 0, ",", Types.None)
      && args[i + n + 1..] == ParamList(ps[1..])
    ensures ParamsFrom(args, i, argIndex, acc) ==
      Ok(Locals(acc.vars + ParamVars(ps, argIndex, acc.offset), Int32.Wrap(acc.offset + 8 * |ps|)))
    decreases ps, 1
  {
    var v := Ast.LVar(ps[0].name, ps[0].kind, Int32.Wrap(acc.offset + 8), ps[0].stars, 0, argIndex);
    var acc' := Locals(acc.vars + [v], Int32.Wrap(acc.offset + 8));
    var next := i + |ParamTokens(ps[0])| + 1;
    ParamsFromHead(args, i, argIndex, acc, ps[0], next, acc');
    ParamsFromRest(args, next, argIndex, acc, acc', ps);
  }

  /** After the first parameter, the rest of the list is read into the
      remaining entries. */
  lemma {:induction false} ParamsFromRest(args: seq<SynToken>, next: nat, argIndex: int, acc: Locals, acc': Locals,
                                          ps: seq<Param>)
    requires |ps| > 1 && NoStar(ps)
    requires Int32.InRange(acc.offset)
    requires next <= |args| && args[next..] == ParamList(ps[1..])
    requires acc' == Locals(acc.vars + [Ast.LVar(ps[0].name, ps[0].kind, Int32.Wrap(acc.offset + 8), ps[0].stars, 0, argIndex)], Int32.Wrap(acc.offset + 8))
    ensures ParamsFrom(args, next, argIndex + 1, acc') ==
      Ok(Locals(acc.vars + ParamVars(ps, argIndex, acc.offset), Int32.Wrap(acc.offset + 8 * |ps|)))
    decreases ps, 0
  {
    RestAt(args, next, ps, acc');
    ParamsFromList(args, next, argIndex + 1, acc', ps[1..]);
    ParamVarsStep(acc, ps, argIndex, acc');
  }

  /** A written parameter followed by a comma is read, and the scan resumes
      after the comma. */
  lemma {:induction false} ParamsFromHead(args: seq<SynToken>, i: nat, argIndex: int, acc: Locals, p: Param,
                                          next: nat, acc': Locals)
    requires p.name != "*"
    requires next == i + |ParamTokens(p)| + 1 <= |args|
    requires args[i..next - 1] == ParamTokens(p) && args[next - 1] == SynToken(Reserved, 0, ",", Types.None)
    requires acc' == Locals(acc.vars + [Ast.LVar(p.name, p.kind, Int32.Wrap(acc.offset + 8), p.stars, 0, argIndex)], Int32.Wrap(acc.offset + 8))
    ensures ParamsFrom(args, i, argIndex, acc) == ParamsFrom(args, next, argIndex + 1, acc')
  {
    var j := i + 1 + p.stars;
    ParamAt(args, i, p);
    assert j + 2 == next && args[j + 1].str == ",";
  }

  /** A parameter list written as types, asterisks and names separated by
      commas gives one entry per parameter: the k-th has the k-th name and
      type, offset 8 * (k + 1) as a C# `int`, as many pointer levels as asterisks, array
      size 0 and argument index k. */
  lemma ParamsOfList(ps: seq<Param>)
    requires forall m | 0 <= m < |ps| :: ps[m].name != "*"
    ensures var r := ParamsFrom(ParamList(ps), 0, 0, Locals([], 0));
      && r.Ok? && |r.value.vars| == |ps|
      && forall k | 0 <= k < |ps| :: r.value.vars[k] ==
           Ast.LVar(ps[k].name, ps[k].kind, Int32.Wrap(8 * (k + 1)), ps[k].stars, 0, k)
  {
    var args := ParamList(ps);
    assert args[0..] == args;
    ParamsFromList(args, 0, 0, Locals([], 0), ps);
    assert [] + ParamVars(ps, 0, 0) == ParamVars(ps, 0, 0);
    forall k | 0 <= k < |ps|
      ensures ParamVars(ps, 0, 0)[k] == Ast.LVar(ps[k].name, ps[k].kind, Int32.Wrap(8 * (k + 1)), ps[k].stars, 0, k)
    {
      ParamVarsFirst(ps, k);
    }
  }

  lemma ParamVarsFirst(ps: seq<Param>, k: nat)
    requires k < |ps|
    ensures ParamVars(ps, 0, 0)[k] == Ast.LVar(ps[k].name, ps[k].kind, Int32.Wrap(8 * (k + 1)), ps[k].stars, 0, k)
  {
    ParamVarsAt(ps, 0, 0, k);
    assert 0 + 8 * (k + 1) == 8 * (k + 1);
  }

  // ---------------------------------------------------------------------
  // Written declarations

  /** A body declaration as written: a type, `stars` asterisks, a name,
      `[ n ]` for an array of n elements, and `;`. */
  datatype Decl = Decl(kind: Types.TypeKind, stars: nat, name: string, size: Option<int>)

  function ArraySize(d: Decl): int {
    if d.size.Some? then d.size.value else 0
  }

  /** The bytes a declaration reserves: its own slot and one per element. */
  function Slots(d: Decl): int {
    8 * (ArraySize(d) + 1)
  }

  function DeclTokens(d: Decl): seq<SynToken> {
    [SynToken(Type, 0, "int", d.kind)] + StarTokens(d.stars) + [SynToken(Ident, 0, d.name, Types.None)]
    + (if d.size.Some? then
         [SynToken(Reserved, 0, "[", Types.None),
          SynToken(Num, d.size.value, Decimal.IntToString(d.size.value), Types.None),
          SynToken(Reserved, 0, "]", Types.None)]
       else [])
    + [SynToken(Reserved, 0, ";", Types.None)]
  }

  /** The tokens of a run of declarations. */
  function DeclList(ds: seq<Decl>): seq<SynToken> {
    if ds == [] then [] else DeclTokens(ds[0]) + DeclList(ds[1..])
  }

  /** The bytes the first `n` declarations reserve. */
  function PrefixBytes(ds: seq<Decl>, n: nat): int
    requires n <= |ds|
  {
    if n == 0 then 0 else PrefixBytes(ds, n - 1) + Slots(ds[n - 1])
  }

  /** The entry of a declaration read while the frame offset is `offset`:
      an array is one pointer level more than its asterisks say. */
  function DeclEntry(d: Decl, offset: int): Ast.LVar {
    Ast.LVar(d.name, d.kind, Int32.Wrap(offset + Slots(d)),
             if d.size.Some? then d.stars + 1 else d.stars, ArraySize(d), -1)
  }

  /** The entries of a run of declarations, the first read at `offset`. */
  function DeclVars(ds: seq<Decl>, offset: int): (vars: seq<Ast.LVar>)
    ensures |vars| == |ds|
  {
    if ds == [] then []
    else [DeclEntry(ds[0], offset)] + DeclVars(ds[1..], Int32.Wrap(offset + Slots(ds[0])))
  }

  /** The frame offset after a run of declarations read from `offset`. */
  /** The frame offset after reading `ds`: the offset of the last entry,
      since each entry sits at the offset reached after reading it. */
  function DeclEnd(ds: seq<Decl>, offset: int): int {
    if ds == [] then offset else DeclVars(ds, offset)[|ds| - 1].offset
  }

  /** No name of `ds` is in `vars`, and no two declarations share a name. */
  predicate FreshNames(vars: seq<Ast.LVar>, ds: seq<Decl>) {
    && (forall k | 0 <= k < |ds| :: !Declared(vars, ds[k].name))
    && (forall k, l | 0 <= k < l < |ds| :: ds[k].name != ds[l].name)
  }

  /** Reading `ds` from the table `vars` at `offset` never meets a name
      the table holds: the step-by-step form of `FreshNames`. */
  predicate ReadsFresh(vars: seq<Ast.LVar>, ds: seq<Decl>, offset: int)
    decreases ds
  {
    ds == [] ||
      (!Declared(vars, ds[0].name) &&
       ReadsFresh(vars + [DeclEntry(ds[0], offset)], ds[1..], Int32.Wrap(offset + Slots(ds[0]))))
  }

  /** Names fresh for the table and distinct from each other stay fresh
      as the table grows. */
  lemma {:induction false} ReadsFreshOf(vars: seq<Ast.LVar>, ds: seq<Decl>, offset: int)
    requires FreshNames(vars, ds)
    ensures ReadsFresh(vars, ds, offset)
    decreases ds
  {
    if ds != [] {
      var e := DeclEntry(ds[0], offset);
      FreshTail(vars, ds, e);
      ReadsFreshOf(vars + [e], ds[1..], Int32.Wrap(offset + Slots(ds[0])));
    }
  }

  /** The tokens of a written declaration, as the declaration loop sees them. */
  lemma DeclTokensAt(ts: seq<SynToken>, i: nat, d: Decl)
    requires i + |DeclTokens(d)| <= |ts| && ts[i..i + |DeclTokens(d)|] == DeclTokens(d)
    requires d.name != "*"
    ensures var j := i + 1 + d.stars;
      && |DeclTokens(d)| == (if d.size.Some? then j - i + 5 else j - i + 2)
      && ts[i].kind == Type && ts[i].typeKind == d.kind
      && StarRunEnd(ts, i + 1) == j && ts[j].str == d.name
      && (d.size.None? ==> ts[j + 1].str == ";")
      && (d.size.Some? ==> ts[j + 1].str == "[" && ts[j + 2].value == d.size.value
                           && ts[j + 3].str == "]" && ts[j + 4].kind == Reserved)
  {
    var j := i + 1 + d.stars;
    DeclTokensShape(d);
    SliceAt(ts, i, DeclTokens(d));
    StarRunEndAt(ts, i + 1, j);
  }

  /** The tokens of a declaration, position by position. */
  lemma DeclTokensShape(d: Decl)
    ensures var t := DeclTokens(d); var j := 1 + d.stars;
      && |t| == (if d.size.Some? then j + 5 else j + 2)
      && t[0].kind == Type && t[0].typeKind == d.kind
      && (forall k | 1 <= k < j :: t[k].str == "*")
      && t[j].str == d.name
      && (d.size.None? ==> t[j + 1].str == ";")
      && (d.size.Some? ==> t[j + 1].str == "[" && t[j + 2].value == d.size.value
                           && t[j + 3].str == "]" && t[j + 4].kind == Reserved)
  {
    var stars := StarTokens(d.stars);
    var head := [SynToken(Type, 0, "int", d.kind)] + stars + [SynToken(Ident, 0, d.name, Types.None)];
    var t := DeclTokens(d);
    var j := 1 + d.stars;
    assert t[..j + 1] == head;
    forall k | 1 <= k < j
      ensures t[k].str == "*"
    {
      assert t[k] == head[k] == stars[k - 1];
    }
  }

  /** Token `k` of `ts` is token `k - i` of a run `toks` written from `i` on. */
  lemma SliceAt(ts: seq<SynToken>, i: nat, toks: seq<SynToken>)
    requires i + |toks| <= |ts| && ts[i..i + |toks|] == toks
    ensures forall k | i <= k < i + |toks| :: ts[k] == toks[k - i]
  {
    forall k | i <= k < i + |toks|
      ensures ts[k] == toks[k - i]
    {
      assert ts[i..i + |toks|][k - i] == ts[k];
    }
  }

  /** Reading one written declaration: an error when its name is already
      in the table, parameters included; otherwise its entry is appended,
      the offset moves past it, and the scan resumes after its `;`. */
  lemma DeclAt(ts: seq<SynToken>, i: nat, d: Decl, acc: Locals)
    requires i + |DeclTokens(d)| <= |ts| && ts[i..i + |DeclTokens(d)|] == DeclTokens(d)
    requires d.name != "*"
    ensures BodyFrom(ts, i, acc) ==
      if Declared(acc.vars, d.name) then Err
      else BodyFrom(ts, i + |DeclTokens(d)|, Locals(acc.vars + [DeclEntry(d, acc.offset)], Int32.Wrap(acc.offset + Slots(d))))
  {
    if d.size.Some? {
      ArrayDeclAt(ts, i, d, acc);
    } else {
      ScalarDeclAt(ts, i, d, acc);
    }
  }

  /** `DeclAt` for a declaration without a size. */
  lemma ScalarDeclAt(ts: seq<SynToken>, i: nat, d: Decl, acc: Locals)
    requires i + |DeclTokens(d)| <= |ts| && ts[i..i + |DeclTokens(d)|] == DeclTokens(d)
    requires d.name != "*" && d.size.None?
    ensures BodyFrom(ts, i, acc) ==
      if Declared(acc.vars, d.name) then Err
      else BodyFrom(ts, i + |DeclTokens(d)|, Locals(acc.vars + [DeclEntry(d, acc.offset)], Int32.Wrap(acc.offset + Slots(d))))
  {
    var j := i + 1 + d.stars;
    DeclTokensAt(ts, i, d);
    DeclStep(ts, i, acc, j, j + 2);
    EntryOf(ts, i, j, d, acc);
  }

  /** `DeclAt` for an array declaration: its closing `]` is stepped over
      as a token that starts no declaration. */
  lemma ArrayDeclAt(ts: seq<SynToken>, i: nat, d: Decl, acc: Locals)
    requires i + |DeclTokens(d)| <= |ts| && ts[i..i + |DeclTokens(d)|] == DeclTokens(d)
    requires d.name != "*" && d.size.Some?
    ensures BodyFrom(ts, i, acc) ==
      if Declared(acc.vars, d.name) then Err
      else BodyFrom(ts, i + |DeclTokens(d)|, Locals(acc.vars + [DeclEntry(d, acc.offset)], Int32.Wrap(acc.offset + Slots(d))))
  {
    var j := i + 1 + d.stars;
    DeclTokensAt(ts, i, d);
    DeclStep(ts, i, acc, j, j + 4);
    EntryOf(ts, i, j, d, acc);
    SkipOther(ts, j + 4, Locals(acc.vars + [DeclEntry(d, acc.offset)], Int32.Wrap(acc.offset + Slots(d))));
  }

  /** The entry `DeclStep` builds from a written declaration's tokens is
      `DeclEntry` of that declaration, and the offset is the same. */
  lemma EntryOf(ts: seq<SynToken>, i: nat, j: nat, d: Decl, acc: Locals)
    requires i < j && j + 1 < |ts| && j == i + 1 + d.stars
    requires ts[i].typeKind == d.kind && ts[j].str == d.name
    requires d.size.None? ==> ts[j + 1].str == ";"
    requires d.size.Some? ==> j + 2 < |ts| && ts[j + 1].str == "[" && ts[j + 2].value == d.size.value
    ensures var isArray := ts[j + 1].str == "[";
      var arraySize := if isArray then ts[j + 2].value else 0;
      var offset := Int32.Wrap(acc.offset + 8 * arraySize + 8);
      Locals(acc.vars + [Ast.LVar(ts[j].str, ts[i].typeKind, offset,
        if isArray then j - (i + 1) + 1 else j - (i + 1), arraySize, -1)], offset)
      == Locals(acc.vars + [DeclEntry(d, acc.offset)], Int32.Wrap(acc.offset + Slots(d)))
  {
    assert (ts[j + 1].str == "[") == d.size.Some?;
  }

  /** `DeclAt` for a name the table does not hold yet. */
  lemma DeclFresh(ts: seq<SynToken>, i: nat, d: Decl, acc: Locals, n: nat)
    requires n == |DeclTokens(d)| && TokensAt(ts, i, DeclTokens(d))
    requires d.name != "*" && !Declared(acc.vars, d.name)
    ensures BodyFrom(ts, i, acc) ==
      BodyFrom(ts, i + n, Locals(acc.vars + [DeclEntry(d, acc.offset)], Int32.Wrap(acc.offset + Slots(d))))
  {
    DeclAt(ts, i, d, acc);
  }

  /** A token that does not start a declaration is stepped over. */
  lemma SkipOther(ts: seq<SynToken>, k: nat, acc: Locals)
    requires k < |ts| && ts[k].kind != Type
    ensures BodyFrom(ts, k, acc) == BodyFrom(ts, k + 1, acc)
  {
  }

  /** A declaration of a name the table already holds, parameters
      included, makes the whole table an error. */
  lemma DuplicateRejected(ts: seq<SynToken>, i: nat, d: Decl, acc: Locals)
    requires i + |DeclTokens(d)| <= |ts| && ts[i..i + |DeclTokens(d)|] == DeclTokens(d)
    requires d.name != "*" && Declared(acc.vars, d.name)
    ensures BodyFrom(ts, i, acc) == Err
  {
    DeclAt(ts, i, d, acc);
  }

  /** `ts` holds the tokens `toks` from position `i` on. */
  predicate TokensAt(ts: seq<SynToken>, i: nat, toks: seq<SynToken>) {
    i + |toks| <= |ts| && ts[i..i + |toks|] == toks
  }

  /** `ts` holds, from position `i` on, the `n` tokens of the first of
      `ds` and then the `m` tokens of the rest. */
  predicate SplitAt(ts: seq<SynToken>, i: nat, ds: seq<Decl>, n: nat, m: nat) {
    && ds != [] && n == |DeclTokens(ds[0])| && m == |DeclList(ds[1..])|
    && TokensAt(ts, i, DeclTokens(ds[0])) && TokensAt(ts, i + n, DeclList(ds[1..]))
  }

  predicate Unstarred(ds: seq<Decl>) {
    forall k | 0 <= k < |ds| :: ds[k].name != "*"
  }

  /** `ts` holds the declarations `ds` from position `i` on, none named
      `*`, and reading them from `acc` meets no name twice. */
  predicate RunReady(ts: seq<SynToken>, i: nat, ds: seq<Decl>, acc: Locals) {
    TokensAt(ts, i, DeclList(ds)) && Unstarred(ds) && ReadsFresh(acc.vars, ds, acc.offset)
  }

  /** `RunReady` for a non-empty run, split at its first declaration. */
  predicate ConsFacts(ts: seq<SynToken>, i: nat, ds: seq<Decl>, acc: Locals, n: nat, m: nat) {
    && SplitAt(ts, i, ds, n, m) && |DeclList(ds)| == n + m && i + n + m <= |ts|
    && ds[0].name != "*" && !Declared(acc.vars, ds[0].name)
    && Unstarred(ds) && ReadsFresh(acc.vars, ds, acc.offset)
  }

  lemma DeclListSplit(ts: seq<SynToken>, i: nat, ds: seq<Decl>)
    requires ds != [] && TokensAt(ts, i, DeclList(ds))
    ensures |DeclList(ds)| == |DeclTokens(ds[0])| + |DeclList(ds[1..])|
    ensures TokensAt(ts, i, DeclTokens(ds[0]))
    ensures TokensAt(ts, i + |DeclTokens(ds[0])|, DeclList(ds[1..]))
  {
    DeclListCons(ds);
    SliceSplit(ts, i, DeclTokens(ds[0]), DeclList(ds[1..]));
  }

  lemma DeclListCons(ds: seq<Decl>)
    requires ds != []
    ensures DeclList(ds) == DeclTokens(ds[0]) + DeclList(ds[1..])
  {
  }

  lemma SliceSplit(ts: seq<SynToken>, i: nat, a: seq<SynToken>, b: seq<SynToken>)
    requires i + |a| + |b| <= |ts| && ts[i..i + |a| + |b|] == a + b
    ensures ts[i..i + |a|] == a && ts[i + |a|..i + |a| + |b|] == b
  {
    var w := ts[i..i + |a| + |b|];
    assert ts[i..i + |a|] == w[..|a|];
    assert ts[i + |a|..i + |a| + |b|] == w[|a|..];
  }

  /** Reading a run of written declarations with fresh names appends their
      entries and moves the offset past all of them. */
  lemma DeclsRead(ts: seq<SynToken>, i: nat, ds: seq<Decl>, acc: Locals)
    requires RunReady(ts, i, ds, acc)
    ensures BodyFrom(ts, i, acc) ==
      BodyFrom(ts, i + |DeclList(ds)|, Locals(acc.vars + DeclVars(ds, acc.offset), DeclEnd(ds, acc.offset)))
  {
    DeclsReadTo(ts, i, ds, acc, i + |DeclList(ds)|, Locals(acc.vars + DeclVars(ds, acc.offset), DeclEnd(ds, acc.offset)));
  }

  /** The run `ds` is ready to read at `i` from `acc`, it ends at `e`,
      and `fin` is the state it leaves. */
  predicate ReadTo(ts: seq<SynToken>, i: nat, ds: seq<Decl>, acc: Locals, e: nat, fin: Locals) {
    && RunReady(ts, i, ds, acc) && e == i + |DeclList(ds)|
    && fin == Locals(acc.vars + DeclVars(ds, acc.offset), DeclEnd(ds, acc.offset))
  }

  /** `DeclsRead` with the end position `e` and the final state `fin`
      named, so that each step of the induction meets them verbatim. */
  lemma {:induction false} DeclsReadTo(ts: seq<SynToken>, i: nat, ds: seq<Decl>, acc: Locals, e: nat, fin: Locals)
    requires ReadTo(ts, i, ds, acc, e, fin)
    ensures e <= |ts| && BodyFrom(ts, i, acc) == BodyFrom(ts, e, fin)
    decreases ds, 2
  {
    if ds == [] {
      assert acc.vars + [] == acc.vars;
    } else {
      var n, m := |DeclTokens(ds[0])|, |DeclList(ds[1..])|;
      ConsReady(ts, i, ds, acc);
      DeclsTail(ts, i, ds, acc, n, m, e, fin);
      DeclsReadCons(ts, i, ds, acc, n, m, e, fin);
    }
  }

  /** What the two halves of the inductive step of `DeclsReadTo` need. */
  lemma ConsReady(ts: seq<SynToken>, i: nat, ds: seq<Decl>, acc: Locals)
    requires ds != [] && RunReady(ts, i, ds, acc)
    ensures ConsFacts(ts, i, ds, acc, |DeclTokens(ds[0])|, |DeclList(ds[1..])|)
  {
    DeclListSplit(ts, i, ds);
  }

  /** The inductive step of `DeclsReadTo`: the first declaration, then the
      rest of the run, which `DeclsTail` reads. */
  lemma DeclsReadCons(ts: seq<SynToken>, i: nat, ds: seq<Decl>, acc: Locals, n: nat, m: nat, e: nat, fin: Locals)
    requires ConsFacts(ts, i, ds, acc, n, m) && e == i + n + m
    requires BodyFrom(ts, i + n, Locals(acc.vars + [DeclEntry(ds[0], acc.offset)], Int32.Wrap(acc.offset + Slots(ds[0])))) ==
      BodyFrom(ts, e, fin)
    ensures BodyFrom(ts, i, acc) == BodyFrom(ts, e, fin)
  {
    DeclFresh(ts, i, ds[0], acc, n);
  }

  /** The declarations after the first, read from the state the first
      one leaves, end where the whole run ends. */
  lemma {:induction false} DeclsTail(ts: seq<SynToken>, i: nat, ds: seq<Decl>, acc: Locals, n: nat, m: nat, e: nat, fin: Locals)
    requires ConsFacts(ts, i, ds, acc, n, m) && e == i + n + m
    requires fin == Locals(acc.vars + DeclVars(ds, acc.offset), DeclEnd(ds, acc.offset))
    ensures BodyFrom(ts, i + n, Locals(acc.vars + [DeclEntry(ds[0], acc.offset)], Int32.Wrap(acc.offset + Slots(ds[0])))) ==
      BodyFrom(ts, e, fin)
    decreases ds, 1
  {
    var acc' := Locals(acc.vars + [DeclEntry(ds[0], acc.offset)], Int32.Wrap(acc.offset + Slots(ds[0])));
    TailReady(ts, i, ds, acc, n, m, e, fin);
    DeclsReadTo(ts, i + n, ds[1..], acc', e, fin);
  }

  /** After the first declaration the rest of the run is ready to read. */
  lemma TailReady(ts: seq<SynToken>, i: nat, ds: seq<Decl>, acc: Locals, n: nat, m: nat, e: nat, fin: Locals)
    requires ConsFacts(ts, i, ds, acc, n, m) && e == i + n + m
    requires fin == Locals(acc.vars + DeclVars(ds, acc.offset), DeclEnd(ds, acc.offset))
    ensures ReadTo(ts, i + n, ds[1..],
      Locals(acc.vars + [DeclEntry(ds[0], acc.offset)], Int32.Wrap(acc.offset + Slots(ds[0]))), e, fin)
  {
    LocalsCons(acc, ds);
    assert Unstarred(ds[1..]) by {
      forall k | 0 <= k < |ds| - 1 ensures ds[1..][k].name != "*" {
        assert ds[1..][k] == ds[k + 1];
      }
    }
  }

  /** Appending the first entry and then the rest appends them all. */
  lemma LocalsCons(acc: Locals, ds: seq<Decl>)
    requires ds != []
    ensures var acc' := Locals(acc.vars + [DeclEntry(ds[0], acc.offset)], Int32.Wrap(acc.offset + Slots(ds[0])));
      Locals(acc'.vars + DeclVars(ds[1..], acc'.offset), DeclEnd(ds[1..], acc'.offset))
      == Locals(acc.vars + DeclVars(ds, acc.offset), DeclEnd(ds, acc.offset))
  {
    var e := DeclEntry(ds[0], acc.offset);
    var o := Int32.Wrap(acc.offset + Slots(ds[0]));
    DeclVarsCons(ds, acc.offset);
    LocalsJoin(acc.vars, e, DeclVars(ds[1..], o), DeclVars(ds, acc.offset), DeclEnd(ds[1..], o), DeclEnd(ds, acc.offset));
  }

  lemma LocalsJoin(vars: seq<Ast.LVar>, e: Ast.LVar, rest: seq<Ast.LVar>, all: seq<Ast.LVar>, end: int, end': int)
    requires all == [e] + rest && end == end'
    ensures Locals(vars + [e] + rest, end) == Locals(vars + all, end')
  {
    assert vars + [e] + rest == vars + ([e] + rest);
  }

  /** `DeclVars` and `DeclEnd` read the first declaration, then the rest. */
  lemma DeclVarsCons(ds: seq<Decl>, offset: int)
    requires ds != []
    ensures var next := Int32.Wrap(offset + Slots(ds[0]));
      && DeclVars(ds, offset) == [DeclEntry(ds[0], offset)] + DeclVars(ds[1..], next)
      && DeclEnd(ds, offset) == DeclEnd(ds[1..], next)
  {
    var next := Int32.Wrap(offset + Slots(ds[0]));
    assert DeclVars(ds, offset) == [DeclEntry(ds[0], offset)] + DeclVars(ds[1..], next);
    if |ds| > 1 {
      assert DeclVars(ds, offset)[|ds| - 1] == DeclVars(ds[1..], next)[|ds| - 2];
    }
  }

  /** Once the first declaration is read, the rest are still fresh. */
  lemma FreshTail(vars: seq<Ast.LVar>, ds: seq<Decl>, v: Ast.LVar)
    requires ds != [] && FreshNames(vars, ds) && v.name == ds[0].name
    ensures FreshNames(vars + [v], ds[1..])
  {
    var tail := ds[1..];
    forall k | 0 <= k < |tail|
      ensures !Declared(vars + [v], tail[k].name)
    {
      assert tail[k] == ds[k + 1];
      assert !Declared(vars, ds[k + 1].name);
      assert ds[0].name != ds[k + 1].name;
      forall m | 0 <= m < |vars| + 1
        ensures (vars + [v])[m].name != tail[k].name
      {
        if m < |vars| {
          assert (vars + [v])[m] == vars[m];
        }
      }
    }
    forall k, l | 0 <= k < l < |tail|
      ensures tail[k].name != tail[l].name
    {
      assert tail[k] == ds[k + 1] && tail[l] == ds[l + 1];
    }
  }

  /** The k-th entry of a run of declarations read from `offset` lies the
      bytes of the first k + 1 declarations past `offset`. */
  lemma {:induction false} DeclVarsAt(ds: seq<Decl>, offset: int, k: nat)
    requires k < |ds|
    ensures DeclVars(ds, offset)[k] ==
      Ast.LVar(ds[k].name, ds[k].kind, Int32.Wrap(offset + PrefixBytes(ds, k + 1)),
               if ds[k].size.Some? then ds[k].stars + 1 else ds[k].stars, ArraySize(ds[k]), -1)
    decreases k
  {
    if k > 0 {
      var offset' := Int32.Wrap(offset + Slots(ds[0]));
      DeclVarsAt(ds[1..], offset', k - 1);
      PrefixShift(ds, k);
      Int32.WrapAdd(offset + Slots(ds[0]), PrefixBytes(ds[1..], k));
    }
  }

  /** Counting from the second declaration leaves out the first one's bytes. */
  lemma {:induction false} PrefixShift(ds: seq<Decl>, k: nat)
    requires 0 < k < |ds|
    ensures PrefixBytes(ds, k + 1) == Slots(ds[0]) + PrefixBytes(ds[1..], k)
    decreases k
  {
    assert PrefixBytes(ds, k + 1) == PrefixBytes(ds, k) + Slots(ds[k]);
    assert PrefixBytes(ds[1..], k) == PrefixBytes(ds[1..], k - 1) + Slots(ds[1..][k - 1]);
    assert ds[1..][k - 1] == ds[k];
    if k > 1 {
      PrefixShift(ds, k - 1);
    } else {
      assert PrefixBytes(ds, 1) == Slots(ds[0]);
    }
  }

  /** The names of the parameter entries are the written names. */
  lemma ParamNames(ps: seq<Param>, name: string)
    requires forall m | 0 <= m < |ps| :: ps[m].name != "*"
    ensures Declared(ParamVars(ps, 0, 0), name) <==> exists m | 0 <= m < |ps| :: ps[m].name == name
  {
    forall m | 0 <= m < |ps|
      ensures ParamVars(ps, 0, 0)[m].name == ps[m].name
    {
      ParamVarsFirst(ps, m);
    }
  }

  /** The parameters of a written list, read as `CreateLVars` does. */
  lemma ParamsRead(ps: seq<Param>)
    requires forall m | 0 <= m < |ps| :: ps[m].name != "*"
    ensures ParamsFrom(ParamList(ps), 0, 0, Locals([], 0)) == Ok(Locals(ParamVars(ps, 0, 0), Int32.Wrap(8 * |ps|)))
  {
    var args := ParamList(ps);
    assert args[0..] == args;
    ParamsFromList(args, 0, 0, Locals([], 0), ps);
    assert [] + ParamVars(ps, 0, 0) == ParamVars(ps, 0, 0);
  }

  /** A function whose parameters are written `ps` and whose body is the
      declarations `ds`, with names distinct from each other and from every
      parameter, gets one entry per parameter and then one per declaration:
      the k-th declaration has its own name and type, pointer levels from
      its asterisks plus one for an array, its array size, argument index
      -1, and the offset 8 bytes per parameter plus the bytes of the
      declarations up to and including it, as a C# `int`. */
  lemma DeclsOfList(ps: seq<Param>, ds: seq<Decl>)
    requires forall m | 0 <= m < |ps| :: ps[m].name != "*"
    requires forall k | 0 <= k < |ds| :: ds[k].name != "*"
    requires forall k, l | 0 <= k < l < |ds| :: ds[k].name != ds[l].name
    requires forall k, m | 0 <= k < |ds| && 0 <= m < |ps| :: ds[k].name != ps[m].name
    ensures var r := LocalTable(DeclList(ds), ParamList(ps));
      && r.Ok? && |r.value| == |ps| + |ds|
      && (forall m | 0 <= m < |ps| :: r.value[m] ==
            Ast.LVar(ps[m].name, ps[m].kind, Int32.Wrap(8 * (m + 1)), ps[m].stars, 0, m))
      && (forall k | 0 <= k < |ds| :: r.value[|ps| + k] ==
            Ast.LVar(ds[k].name, ds[k].kind, Int32.Wrap(8 * |ps| + PrefixBytes(ds, k + 1)),
                     if ds[k].size.Some? then ds[k].stars + 1 else ds[k].stars, ArraySize(ds[k]), -1))
  {
    DeclTable(ps, ds);
    var vars := ParamVars(ps, 0, 0) + DeclVars(ds, Int32.Wrap(8 * |ps|));
    forall m | 0 <= m < |ps|
      ensures vars[m] == Ast.LVar(ps[m].name, ps[m].kind, Int32.Wrap(8 * (m + 1)), ps[m].stars, 0, m)
    {
      ParamVarsFirst(ps, m);
    }
    forall k | 0 <= k < |ds|
      ensures vars[|ps| + k] ==
        Ast.LVar(ds[k].name, ds[k].kind, Int32.Wrap(8 * |ps| + PrefixBytes(ds, k + 1)),
                 if ds[k].size.Some? then ds[k].stars + 1 else ds[k].stars, ArraySize(ds[k]), -1)
    {
      DeclEntryAt(ps, ds, k);
    }
  }

  /** The table of such a function: the parameter entries, then the
      declaration entries read from the offset the parameters leave. */
  lemma DeclTable(ps: seq<Param>, ds: seq<Decl>)
    requires forall m | 0 <= m < |ps| :: ps[m].name != "*"
    requires forall k | 0 <= k < |ds| :: ds[k].name != "*"
    requires forall k, l | 0 <= k < l < |ds| :: ds[k].name != ds[l].name
    requires forall k, m | 0 <= k < |ds| && 0 <= m < |ps| :: ds[k].name != ps[m].name
    ensures LocalTable(DeclList(ds), ParamList(ps)) ==
      Ok(ParamVars(ps, 0, 0) + DeclVars(ds, Int32.Wrap(8 * |ps|)))
  {
    var window := DeclList(ds);
    var pv := ParamVars(ps, 0, 0);
    var base := Int32.Wrap(8 * |ps|);
    TableReady(ps, ds);
    DeclsRead(window, 0, ds, Locals(pv, base));
    var all := Locals(pv + DeclVars(ds, base), DeclEnd(ds, base));
    BodyEnd(window, all);
    TableOf(window, ParamList(ps), Locals(pv, base), all);
  }

  /** What `DeclTable` needs: the parameters are read, and the body's
      declarations are laid out and fresh. */
  lemma TableReady(ps: seq<Param>, ds: seq<Decl>)
    requires forall m | 0 <= m < |ps| :: ps[m].name != "*"
    requires forall k | 0 <= k < |ds| :: ds[k].name != "*"
    requires forall k, l | 0 <= k < l < |ds| :: ds[k].name != ds[l].name
    requires forall k, m | 0 <= k < |ds| && 0 <= m < |ps| :: ds[k].name != ps[m].name
    ensures ParamsFrom(ParamList(ps), 0, 0, Locals([], 0)) == Ok(Locals(ParamVars(ps, 0, 0), Int32.Wrap(8 * |ps|)))
    ensures RunReady(DeclList(ds), 0, ds, Locals(ParamVars(ps, 0, 0), Int32.Wrap(8 * |ps|)))
  {
    var window := DeclList(ds);
    ParamsRead(ps);
    ParamsFresh(ps, ds);
    assert window[0..|window|] == window;
  }

  /** At the end of the tokens the body scan returns its state. */
  lemma BodyEnd(ts: seq<SynToken>, acc: Locals)
    ensures BodyFrom(ts, |ts|, acc) == Ok(acc)
  {
  }

  /** Declaration names distinct from each other and from every
      parameter are read without meeting a name already in the table. */
  lemma ParamsFresh(ps: seq<Param>, ds: seq<Decl>)
    requires forall m | 0 <= m < |ps| :: ps[m].name != "*"
    requires forall k, l | 0 <= k < l < |ds| :: ds[k].name != ds[l].name
    requires forall k, m | 0 <= k < |ds| && 0 <= m < |ps| :: ds[k].name != ps[m].name
    ensures ReadsFresh(ParamVars(ps, 0, 0), ds, Int32.Wrap(8 * |ps|))
  {
    var pv := ParamVars(ps, 0, 0);
    assert FreshNames(pv, ds) by {
      forall k | 0 <= k < |ds|
        ensures !Declared(pv, ds[k].name)
      {
        ParamNames(ps, ds[k].name);
      }
    }
    ReadsFreshOf(pv, ds, Int32.Wrap(8 * |ps|));
  }

  /** The table is the entries the body leaves after the parameters. */
  lemma TableOf(window: seq<SynToken>, args: seq<SynToken>, params: Locals, all: Locals)
    requires ParamsFrom(args, 0, 0, Locals([], 0)) == Ok(params)
    requires BodyFrom(window, 0, params) == Ok(all)
    ensures LocalTable(window, args) == Ok(all.vars)
  {
  }

  lemma DeclEntryAt(ps: seq<Param>, ds: seq<Decl>, k: nat)
    requires k < |ds|
    ensures (ParamVars(ps, 0, 0) + DeclVars(ds, Int32.Wrap(8 * |ps|)))[|ps| + k] ==
      Ast.LVar(ds[k].name, ds[k].kind, Int32.Wrap(8 * |ps| + PrefixBytes(ds, k + 1)),
               if ds[k].size.Some? then ds[k].stars + 1 else ds[k].stars, ArraySize(ds[k]), -1)
  {
    DeclVarsAt(ds, Int32.Wrap(8 * |ps|), k);
    Int32.WrapAdd(8 * |ps|, PrefixBytes(ds, k + 1));
  }
}
