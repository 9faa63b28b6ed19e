/** What the code generator of module CodeGen guarantees: it only appends,
    it hands out one label number per `if`, `while` and `for`, it fails
    exactly on an assignment to something that is not a variable, the code
    of an expression leaves exactly one value on the stack, and no label is
    defined twice. */
module CodeGenFacts {
  import opened Wrappers
  import opened Ast
  import opened Decimal
  import opened CodeGen

  // ---------------------------------------------------------------------
  // Generation only appends

  /** The result `r` of generating into an empty buffer, generated after `pre` instead. */
  function Shift(pre: seq<string>, r: Result<Code>): Result<Code> {
    if r.Ok? then Ok(Code(pre + r.value.lines, r.value.next)) else Err
  }

  /** The code a node generates on its own, into an empty buffer. */
  function Emit(n: Node, c: nat): Result<Code>
    requires Generable(n)
  {
    Gen(n, c, [])
  }

  lemma TestShift(a: seq<string>, b: seq<string>, t: LabelTag, k: nat)
    ensures Test(a + b, t, k) == a + Test(b, t, k)
  {
  }

  lemma OperatorShift(kind: NodeKind, a: seq<string>, b: seq<string>)
    requires IsBinary(kind)
    ensures Operator(kind, a + b) == a + Operator(kind, b)
  {
  }

  lemma AppendAssoc(a: seq<string>, x: seq<string>, y: seq<string>)
    ensures (a + x) + y == a + (x + y)
  {
  }

  /** Two lines appended after `a + x` are two lines appended after `x`. */
  lemma Append2(a: seq<string>, x: seq<string>, p: string, q: string)
    ensures (a + x) + [p] + [q] == a + (x + [p] + [q])
  {
  }

  /** Generating after `a + b` is generating after `b`, with `a` in front. */
  lemma {:induction false} GenShift(n: Node, c: nat, a: seq<string>, b: seq<string>)
    requires Generable(n)
    ensures Gen(n, c, a + b) == Shift(a, Gen(n, c, b))
    decreases n, 1
  {
    match n.kind
    case Num =>
      assert (a + b) + ["  push " + IntToString(n.value)] == a + (b + ["  push " + IntToString(n.value)]);
    case Lvar =>
      var x := GenLval(n, b).value;
      assert GenLval(n, a + b).value == a + x;
      assert (a + x) + ["  pop rax"] + ["  mov rax, [rax]"] + ["  push rax"]
          == a + (x + ["  pop rax"] + ["  mov rax, [rax]"] + ["  push rax"]);
    case Assign => AssignShift(n, c, a, b);
    case If => IfShift(n, c, a, b);
    case While => WhileShift(n, c, a, b);
    case For => ForShift(n, c, a, b);
    case Return =>
      GenShift(n.lhs.value, c, a, b);
      var e := Gen(n.lhs.value, c, b);
      if e.Ok? {
        var x := e.value.lines;
        assert (a + x) + ["  pop rax"] + ["  mov rsp, rbp"] + ["  pop rbp"] + ["  ret"]
            == a + (x + ["  pop rax"] + ["  mov rsp, rbp"] + ["  pop rbp"] + ["  ret"]);
      }
    case Block => BodiesShift(n, 0, c, a, b);
    case _ => BinaryShift(n, c, a, b);
  }

  lemma {:induction false} OptShift(o: Option<Node>, c: nat, a: seq<string>, b: seq<string>)
    requires o.Some? ==> Generable(o.value)
    ensures GenOpt(o, c, a + b) == Shift(a, GenOpt(o, c, b))
    decreases o, 2
  {
    if o.Some? {
      GenShift(o.value, c, a, b);
    }
  }

  lemma {:induction false} AssignShift(n: Node, c: nat, a: seq<string>, b: seq<string>)
    requires n.kind == Assign && Generable(n)
    ensures GenAssign(n, c, a + b) == Shift(a, GenAssign(n, c, b))
    decreases n, 0
  {
    if n.lhs.value.kind == Lvar {
      var addr := GenLval(n.lhs.value, b).value;
      assert GenLval(n.lhs.value, a + b).value == a + addr;
      GenShift(n.rhs.value, c, a, addr);
      var v := Gen(n.rhs.value, c, addr);
      if v.Ok? {
        AssignEndShift(a, v.value.lines);
      }
    }
  }

  /** The store that ends an assignment follows whatever comes before it. */
  lemma AssignEndShift(a: seq<string>, x: seq<string>)
    ensures (a + x) + ["  pop rdi"] + ["  pop rax"] + ["  mov [rax], rdi"] + ["  push rdi"]
      == a + (x + ["  pop rdi"] + ["  pop rax"] + ["  mov [rax], rdi"] + ["  push rdi"])
  {
  }

  lemma {:induction false} IfShift(n: Node, c: nat, a: seq<string>, b: seq<string>)
    requires n.kind == If && Generable(n)
    ensures GenIf(n, c, a + b) == Shift(a, GenIf(n, c, b))
    decreases n, 0
  {
    GenShift(n.condition.value, c + 1, a, b);
    var cond := Gen(n.condition.value, c + 1, b);
    if cond.Ok? {
      TestShift(a, cond.value.lines, ElseTag, c);
      GenShift(n.lhs.value, cond.value.next, a, Test(cond.value.lines, ElseTag, c));
      var thn := Gen(n.lhs.value, cond.value.next, Test(cond.value.lines, ElseTag, c));
      if thn.Ok? {
        var mid := thn.value.lines + ["  jmp " + Label(EndTag, c)] + [LabelLine(ElseTag, c)];
        Append2(a, thn.value.lines, "  jmp " + Label(EndTag, c), LabelLine(ElseTag, c));
        OptShift(n.rhs, thn.value.next, a, mid);
        var els := GenOpt(n.rhs, thn.value.next, mid);
        if els.Ok? {
          AppendAssoc(a, els.value.lines, [LabelLine(EndTag, c)]);
        }
      }
    }
  }

  lemma {:induction false} WhileShift(n: Node, c: nat, a: seq<string>, b: seq<string>)
    requires n.kind == While && Generable(n)
    ensures GenWhile(n, c, a + b) == Shift(a, GenWhile(n, c, b))
    decreases n, 0
  {
    AppendAssoc(a, b, [LabelLine(WhileTag, c)]);
    GenShift(n.condition.value, c + 1, a, b + [LabelLine(WhileTag, c)]);
    var cond := Gen(n.condition.value, c + 1, b + [LabelLine(WhileTag, c)]);
    if cond.Ok? {
      TestShift(a, cond.value.lines, EndTag, c);
      GenShift(n.lhs.value, cond.value.next, a, Test(cond.value.lines, EndTag, c));
      var body := Gen(n.lhs.value, cond.value.next, Test(cond.value.lines, EndTag, c));
      if body.Ok? {
        Append2(a, body.value.lines, "  jmp " + Label(WhileTag, c), LabelLine(EndTag, c));
      }
    }
  }

  lemma {:induction false} ForShift(n: Node, c: nat, a: seq<string>, b: seq<string>)
    requires n.kind == For && Generable(n)
    ensures GenFor(n, c, a + b) == Shift(a, GenFor(n, c, b))
    decreases n, 0, 2
  {
    OptShift(n.initialize, c + 1, a, b);
    var init := GenOpt(n.initialize, c + 1, b);
    if init.Ok? {
      ForCondShift(n, c, a, init.value);
    }
  }

  /** What `GenFor` does once the initialisation is generated: the loop
      label, the condition, and then `ForTail`. */
  function ForCond(n: Node, c: nat, init: Code): Result<Code>
    requires n.kind == For && Generable(n)
  {
    var cond :- Gen(n.condition.value, init.next, init.lines + [LabelLine(ForTag, c)]);
    ForTail(n, c, cond)
  }

  lemma {:induction false} ForCondShift(n: Node, c: nat, a: seq<string>, init: Code)
    requires n.kind == For && Generable(n)
    ensures ForCond(n, c, Code(a + init.lines, init.next)) == Shift(a, ForCond(n, c, init))
    decreases n, 0, 1
  {
    var head := init.lines + [LabelLine(ForTag, c)];
    AppendAssoc(a, init.lines, [LabelLine(ForTag, c)]);
    GenShift(n.condition.value, init.next, a, head);
    var cond := Gen(n.condition.value, init.next, head);
    if cond.Ok? {
      ForTailShift(n, c, a, cond.value);
    }
  }

  /** What `GenFor` does once the condition is generated: the test, the
      body, the step, the jump back and the end label. */
  function ForTail(n: Node, c: nat, cond: Code): Result<Code>
    requires n.kind == For && Generable(n)
  {
    var body :- Gen(n.lhs.value, cond.next, Test(cond.lines, EndTag, c));
    var step :- GenOpt(n.loop, body.next, body.lines);
    Ok(Code(step.lines + ["  jmp " + Label(ForTag, c)] + [LabelLine(EndTag, c)], step.next))
  }

  lemma {:induction false} ForTailShift(n: Node, c: nat, a: seq<string>, cond: Code)
    requires n.kind == For && Generable(n)
    ensures ForTail(n, c, Code(a + cond.lines, cond.next)) == Shift(a, ForTail(n, c, cond))
    decreases n, 0, 0
  {
    TestShift(a, cond.lines, EndTag, c);
    GenShift(n.lhs.value, cond.next, a, Test(cond.lines, EndTag, c));
    var body := Gen(n.lhs.value, cond.next, Test(cond.lines, EndTag, c));
    if body.Ok? {
      OptShift(n.loop, body.value.next, a, body.value.lines);
      var step := GenOpt(n.loop, body.value.next, body.value.lines);
      if step.Ok? {
        Append2(a, step.value.lines, "  jmp " + Label(ForTag, c), LabelLine(EndTag, c));
      }
    }
  }

  lemma {:induction false} BodiesShift(n: Node, i: nat, c: nat, a: seq<string>, b: seq<string>)
    requires n.kind == Block && Generable(n) && i <= |n.bodies|
    ensures GenBodies(n, i, c, a + b) == Shift(a, GenBodies(n, i, c, b))
    decreases n, 0, |n.bodies| - i
  {
    if i < |n.bodies| {
      GenShift(n.bodies[i], c, a, b);
      var s := Gen(n.bodies[i], c, b);
      if s.Ok? {
        AppendAssoc(a, s.value.lines, ["  pop rax"]);
        BodiesShift(n, i + 1, s.value.next, a, s.value.lines + ["  pop rax"]);
      }
    }
  }

  lemma {:induction false} BinaryShift(n: Node, c: nat, a: seq<string>, b: seq<string>)
    requires IsBinary(n.kind) && Generable(n)
    ensures GenBinary(n, c, a + b) == Shift(a, GenBinary(n, c, b))
    decreases n, 0
  {
    GenShift(n.lhs.value, c, a, b);
    var l := Gen(n.lhs.value, c, b);
    if l.Ok? {
      GenShift(n.rhs.value, l.value.next, a, l.value.lines);
      var r := Gen(n.rhs.value, l.value.next, l.value.lines);
      if r.Ok? {
        var tail := r.value.lines + ["  pop rdi"] + ["  pop rax"];
        Append2(a, r.value.lines, "  pop rdi", "  pop rax");
        OperatorShift(n.kind, a, tail);
        var o := Operator(n.kind, tail);
        AppendAssoc(a, o, ["  push rax"]);
      }
    }
  }

  /** Generation only appends: what the buffer held before is kept, and the
      node's own code (the same whatever the buffer held) follows it. */
  lemma AppendOnly(n: Node, c: nat, out: seq<string>)
    requires Generable(n)
    ensures Gen(n, c, out) == Shift(out, Emit(n, c))
  {
    assert out + [] == out;
    GenShift(n, c, out, []);
  }

  // ---------------------------------------------------------------------
  // Label numbers and the one error

  /** The number of `if`, `while` and `for` statements the generator visits
      in `n` (a missing child counts as none). */
  function Controls(n: Node): nat
    decreases n, 1
  {
    match n.kind
    case Num => 0
    case Lvar => 0
    case Assign => OptControls(n.rhs)
    case If => 1 + OptControls(n.condition) + OptControls(n.lhs) + OptControls(n.rhs)
    case While => 1 + OptControls(n.condition) + OptControls(n.lhs)
    case For =>
      1 + OptControls(n.initialize) + OptControls(n.condition) + OptControls(n.lhs)
        + OptControls(n.loop)
    case Return => OptControls(n.lhs)
    case Block => BodiesControls(n, 0)
    case _ => OptControls(n.lhs) + OptControls(n.rhs)
  }

  function OptControls(o: Option<Node>): nat
    decreases o, 2
  {
    if o.Some? then Controls(o.value) else 0
  }

  function BodiesControls(n: Node, i: nat): nat
    requires i <= |n.bodies|
    decreases n, 0, |n.bodies| - i
  {
    if i == |n.bodies| then 0 else Controls(n.bodies[i]) + BodiesControls(n, i + 1)
  }

  /** Every assignment the generator visits in `n` stores to a variable. */
  predicate StoresToVars(n: Node)
    decreases n, 1
  {
    match n.kind
    case Num => true
    case Lvar => true
    case Assign => n.lhs.Some? && n.lhs.value.kind == Lvar && OptStoresToVars(n.rhs)
    case If => OptStoresToVars(n.condition) && OptStoresToVars(n.lhs) && OptStoresToVars(n.rhs)
    case While => OptStoresToVars(n.condition) && OptStoresToVars(n.lhs)
    case For =>
      && OptStoresToVars(n.initialize) && OptStoresToVars(n.condition)
      && OptStoresToVars(n.lhs) && OptStoresToVars(n.loop)
    case Return => OptStoresToVars(n.lhs)
    case Block => BodiesStoreToVars(n, 0)
    case _ => OptStoresToVars(n.lhs) && OptStoresToVars(n.rhs)
  }

  predicate OptStoresToVars(o: Option<Node>)
    decreases o, 2
  {
    o.Some? ==> StoresToVars(o.value)
  }

  predicate BodiesStoreToVars(n: Node, i: nat)
    requires i <= |n.bodies|
    decreases n, 0, |n.bodies| - i
  {
    i < |n.bodies| ==> StoresToVars(n.bodies[i]) && BodiesStoreToVars(n, i + 1)
  }

  /** The generator fails exactly when it meets an assignment to something
      that is not a variable; otherwise every `if`, `while` and `for` has
      taken one label number, so the counter has advanced by their number. */
  lemma {:induction false} GenCounter(n: Node, c: nat, out: seq<string>)
    requires Generable(n)
    ensures Gen(n, c, out).Ok? <==> StoresToVars(n)
    ensures Gen(n, c, out).Ok? ==> Gen(n, c, out).value.next == c + Controls(n)
    decreases n, 1
  {
    match n.kind
    case Num =>
    case Lvar =>
    case Assign => AssignCounter(n, c, out);
    case If => IfCounter(n, c, out);
    case While => WhileCounter(n, c, out);
    case For => ForCounter(n, c, out);
    case Return => GenCounter(n.lhs.value, c, out);
    case Block => BodiesCounter(n, 0, c, out);
    case _ => BinaryCounter(n, c, out);
  }

  lemma {:induction false} OptCounter(o: Option<Node>, c: nat, out: seq<string>)
    requires o.Some? ==> Generable(o.value)
    ensures GenOpt(o, c, out).Ok? <==> OptStoresToVars(o)
    ensures GenOpt(o, c, out).Ok? ==> GenOpt(o, c, out).value.next == c + OptControls(o)
    decreases o, 2
  {
    if o.Some? {
      GenCounter(o.value, c, out);
    }
  }

  lemma {:induction false} AssignCounter(n: Node, c: nat, out: seq<string>)
    requires n.kind == Assign && Generable(n)
    ensures GenAssign(n, c, out).Ok? <==> StoresToVars(n)
    ensures GenAssign(n, c, out).Ok? ==> GenAssign(n, c, out).value.next == c + Controls(n)
    decreases n, 0
  {
    if n.lhs.value.kind == Lvar {
      GenCounter(n.rhs.value, c, GenLval(n.lhs.value, out).value);
    }
  }

  lemma {:induction false} IfCounter(n: Node, c: nat, out: seq<string>)
    requires n.kind == If && Generable(n)
    ensures GenIf(n, c, out).Ok? <==> StoresToVars(n)
    ensures GenIf(n, c, out).Ok? ==> GenIf(n, c, out).value.next == c + Controls(n)
    decreases n, 0
  {
    GenCounter(n.condition.value, c + 1, out);
    var cond := Gen(n.condition.value, c + 1, out);
    if cond.Ok? {
      var o1 := Test(cond.value.lines, ElseTag, c);
      GenCounter(n.lhs.value, cond.value.next, o1);
      var thn := Gen(n.lhs.value, cond.value.next, o1);
      if thn.Ok? {
        OptCounter(n.rhs, thn.value.next, thn.value.lines + ["  jmp " + Label(EndTag, c)] + [LabelLine(ElseTag, c)]);
      }
    }
  }

  lemma {:induction false} WhileCounter(n: Node, c: nat, out: seq<string>)
    requires n.kind == While && Generable(n)
    ensures GenWhile(n, c, out).Ok? <==> StoresToVars(n)
    ensures GenWhile(n, c, out).Ok? ==> GenWhile(n, c, out).value.next == c + Controls(n)
    decreases n, 0
  {
    GenCounter(n.condition.value, c + 1, out + [LabelLine(WhileTag, c)]);
    var cond := Gen(n.condition.value, c + 1, out + [LabelLine(WhileTag, c)]);
    if cond.Ok? {
      GenCounter(n.lhs.value, cond.value.next, Test(cond.value.lines, EndTag, c));
    }
  }

  lemma {:induction false} ForCounter(n: Node, c: nat, out: seq<string>)
    requires n.kind == For && Generable(n)
    ensures GenFor(n, c, out).Ok? <==> StoresToVars(n)
    ensures GenFor(n, c, out).Ok? ==> GenFor(n, c, out).value.next == c + Controls(n)
    decreases n, 0
  {
    OptCounter(n.initialize, c + 1, out);
    var init := GenOpt(n.initialize, c + 1, out);
    if init.Ok? {
      var o1 := init.value.lines + [LabelLine(ForTag, c)];
      GenCounter(n.condition.value, init.value.next, o1);
      var cond := Gen(n.condition.value, init.value.next, o1);
      if cond.Ok? {
        var o2 := Test(cond.value.lines, EndTag, c);
        GenCounter(n.lhs.value, cond.value.next, o2);
        var body := Gen(n.lhs.value, cond.value.next, o2);
        if body.Ok? {
          OptCounter(n.loop, body.value.next, body.value.lines);
        }
      }
    }
  }

  lemma {:induction false} BodiesCounter(n: Node, i: nat, c: nat, out: seq<string>)
    requires n.kind == Block && Generable(n) && i <= |n.bodies|
    ensures GenBodies(n, i, c, out).Ok? <==> BodiesStoreToVars(n, i)
    ensures GenBodies(n, i, c, out).Ok? ==> GenBodies(n, i, c, out).value.next == c + BodiesControls(n, i)
    decreases n, 0, |n.bodies| - i
  {
    if i < |n.bodies| {
      GenCounter(n.bodies[i], c, out);
      var s := Gen(n.bodies[i], c, out);
      if s.Ok? {
        BodiesCounter(n, i + 1, s.value.next, s.value.lines + ["  pop rax"]);
      }
    }
  }

  lemma {:induction false} BinaryCounter(n: Node, c: nat, out: seq<string>)
    requires IsBinary(n.kind) && Generable(n)
    ensures GenBinary(n, c, out).Ok? <==> StoresToVars(n)
    ensures GenBinary(n, c, out).Ok? ==> GenBinary(n, c, out).value.next == c + Controls(n)
    decreases n, 0
  {
    GenCounter(n.lhs.value, c, out);
    var l := Gen(n.lhs.value, c, out);
    if l.Ok? {
      GenCounter(n.rhs.value, l.value.next, l.value.lines);
    }
  }

  // ---------------------------------------------------------------------
  // Stack balance

  predicate StartsWith(line: string, p: string) {
    |p| <= |line| && line[..|p|] == p
  }

  /** +1 for a line that pushes, -1 for one that pops, 0 for any other. */
  function Weight(line: string): int {
    if StartsWith(line, "  push") then 1 else if StartsWith(line, "  pop") then -1 else 0
  }

  /** Pushes minus pops in `lines`. */
  function Net(lines: seq<string>): int
    decreases |lines|
  {
    if lines == [] then 0 else Net(lines[..|lines| - 1]) + Weight(lines[|lines| - 1])
  }

  lemma NetSnoc(lines: seq<string>, line: string)
    ensures Net(lines + [line]) == Net(lines) + Weight(line)
  {
    assert (lines + [line])[..|lines|] == lines;
  }

  /** A line's weight is decided by its first six characters. */
  lemma PrefixWeight(p: string, s: string)
    requires |p| >= 6
    ensures Weight(p + s) == Weight(p)
  {
    assert (p + s)[..6] == p[..6];
    assert (p + s)[..5] == p[..5];
  }

  /** An expression: a number, a variable, an assignment of an expression,
      or a binary operator over two expressions. */
  predicate IsExpr(n: Node)
    decreases n
  {
    match n.kind
    case Num => true
    case Lvar => true
    case Assign => n.rhs.Some? && IsExpr(n.rhs.value)
    case _ =>
      && IsBinary(n.kind) && n.lhs.Some? && n.rhs.Some?
      && IsExpr(n.lhs.value) && IsExpr(n.rhs.value)
  }

  /** A line whose third character is not `p` neither pushes nor pops. */
  lemma Neutral(line: string)
    requires |line| > 2 && line[2] != 'p'
    ensures Weight(line) == 0
  {
    if |line| >= 6 {
      assert line[..6][2] == line[2];
    }
    if |line| >= 5 {
      assert line[..5][2] == line[2];
    }
  }

  lemma Pops(line: string)
    requires StartsWith(line, "  pop")
    ensures Weight(line) == -1
  {
    if |line| >= 6 {
      assert line[..6][3] == line[..5][3] == 'o';
    }
  }

  lemma Pushes(line: string)
    requires StartsWith(line, "  push")
    ensures Weight(line) == 1
  {
  }

  lemma OperatorBalanced(k: NodeKind, out: seq<string>)
    requires IsBinary(k)
    ensures Net(Operator(k, out)) == Net(out)
  {
    match k
    case Add =>
      Neutral("  add rax, rdi");
      NetSnoc(out, "  add rax, rdi");
    case Sub =>
      Neutral("  sub rax, rdi");
      NetSnoc(out, "  sub rax, rdi");
    case Mul =>
      Neutral("  imul rax, rdi");
      NetSnoc(out, "  imul rax, rdi");
    case Div =>
      Neutral("  cqo");
      Neutral("  idiv rdi");
      NetSnoc(out, "  cqo");
      NetSnoc(out + ["  cqo"], "  idiv rdi");
    case Eq => CompareBalanced(out, "  sete al");
    case Ne => CompareBalanced(out, "  setne al");
    case Lt => CompareBalanced(out, "  setl al");
    case Le => CompareBalanced(out, "  setle al");
  }

  lemma CompareBalanced(out: seq<string>, flag: string)
    requires |flag| > 2 && flag[2] == 's'
    ensures Net(out + ["  cmp rax, rdi"] + [flag] + ["  movzb rax, al"]) == Net(out)
  {
    Neutral("  cmp rax, rdi");
    Neutral(flag);
    Neutral("  movzb rax, al");
    NetSnoc(out, "  cmp rax, rdi");
    NetSnoc(out + ["  cmp rax, rdi"], flag);
    NetSnoc(out + ["  cmp rax, rdi"] + [flag], "  movzb rax, al");
  }

  /** The code of an expression pushes exactly one more value than it pops. */
  lemma {:induction false} ExprBalanced(n: Node, c: nat, out: seq<string>)
    requires Generable(n) && IsExpr(n) && Gen(n, c, out).Ok?
    ensures Net(Gen(n, c, out).value.lines) == Net(out) + 1
    decreases n, 1
  {
    match n.kind
    case Num => PushBalanced(out, IntToString(n.value));
    case Lvar =>
      var addr := LvalBalanced(n, out);
      LoadBalanced(addr);
    case Assign => AssignBalanced(n, c, out);
    case Add | Sub | Mul | Div | Eq | Ne | Lt | Le => BinaryBalanced(n, c, out);
    case _ => assert false;
  }

  lemma {:induction false} AssignBalanced(n: Node, c: nat, out: seq<string>)
    requires n.kind == Assign && Generable(n) && IsExpr(n) && GenAssign(n, c, out).Ok?
    ensures Net(GenAssign(n, c, out).value.lines) == Net(out) + 1
    decreases n, 0
  {
    var addr := LvalBalanced(n.lhs.value, out);
    ExprBalanced(n.rhs.value, c, addr);
    var x := Gen(n.rhs.value, c, addr).value.lines;
    StoreBalanced(x);
    assert GenAssign(n, c, out).value.lines
        == x + ["  pop rdi"] + ["  pop rax"] + ["  mov [rax], rdi"] + ["  push rdi"];
  }

  /** Pushing a constant adds one value. */
  lemma PushBalanced(out: seq<string>, v: string)
    ensures Net(out + ["  push " + v]) == Net(out) + 1
  {
    PrefixWeight("  push ", v);
    Pushes("  push ");
    NetSnoc(out, "  push " + v);
  }

  /** Loading through an address replaces it by the value stored there. */
  lemma LoadBalanced(addr: seq<string>)
    ensures Net(addr + ["  pop rax"] + ["  mov rax, [rax]"] + ["  push rax"]) == Net(addr)
  {
    Pops("  pop rax");
    Neutral("  mov rax, [rax]");
    Pushes("  push rax");
    NetSnoc(addr, "  pop rax");
    NetSnoc(addr + ["  pop rax"], "  mov rax, [rax]");
    NetSnoc(addr + ["  pop rax"] + ["  mov rax, [rax]"], "  push rax");
  }

  /** The store sequence pops an address and a value and pushes the value back. */
  lemma StoreBalanced(x: seq<string>)
    ensures Net(x + ["  pop rdi"] + ["  pop rax"] + ["  mov [rax], rdi"] + ["  push rdi"]) == Net(x) - 1
  {
    Pops("  pop rdi");
    Pops("  pop rax");
    Neutral("  mov [rax], rdi");
    Pushes("  push rdi");
    NetSnoc(x, "  pop rdi");
    NetSnoc(x + ["  pop rdi"], "  pop rax");
    NetSnoc(x + ["  pop rdi"] + ["  pop rax"], "  mov [rax], rdi");
    NetSnoc(x + ["  pop rdi"] + ["  pop rax"] + ["  mov [rax], rdi"], "  push rdi");
  }

  lemma {:induction false} BinaryBalanced(n: Node, c: nat, out: seq<string>)
    requires IsBinary(n.kind) && Generable(n) && IsExpr(n) && GenBinary(n, c, out).Ok?
    ensures Net(GenBinary(n, c, out).value.lines) == Net(out) + 1
    decreases n, 0
  {
    ExprBalanced(n.lhs.value, c, out);
    var l := Gen(n.lhs.value, c, out).value;
    ExprBalanced(n.rhs.value, l.next, l.lines);
    var x := Gen(n.rhs.value, l.next, l.lines).value.lines;
    Pops("  pop rdi");
    Pops("  pop rax");
    Pushes("  push rax");
    NetSnoc(x, "  pop rdi");
    NetSnoc(x + ["  pop rdi"], "  pop rax");
    OperatorBalanced(n.kind, x + ["  pop rdi"] + ["  pop rax"]);
    NetSnoc(Operator(n.kind, x + ["  pop rdi"] + ["  pop rax"]), "  push rax");
  }

  /** The address of a variable is one push. */
  lemma LvalBalanced(n: Node, out: seq<string>) returns (addr: seq<string>)
    requires n.kind == Lvar
    ensures addr == GenLval(n, out).value
    ensures Net(addr) == Net(out) + 1
  {
    addr := GenLval(n, out).value;
    Neutral("  mov rax, rbp");
    Neutral("  sub rax, ");
    PrefixWeight("  sub rax, ", IntToString(n.offset));
    Pushes("  push rax");
    NetSnoc(out, "  mov rax, rbp");
    NetSnoc(out + ["  mov rax, rbp"], "  sub rax, " + IntToString(n.offset));
    NetSnoc(out + ["  mov rax, rbp"] + ["  sub rax, " + IntToString(n.offset)], "  push rax");
  }

  /** A block of expression statements leaves the stack as it found it:
      each statement's value is dropped by the `pop rax` that follows it. */
  lemma {:induction false} BlockBalanced(n: Node, i: nat, c: nat, out: seq<string>)
    requires n.kind == Block && Generable(n) && i <= |n.bodies|
    requires forall j | i <= j < |n.bodies| :: IsExpr(n.bodies[j])
    requires GenBodies(n, i, c, out).Ok?
    ensures Net(GenBodies(n, i, c, out).value.lines) == Net(out)
    decreases |n.bodies| - i
  {
    if i < |n.bodies| {
      ExprBalanced(n.bodies[i], c, out);
      var s := Gen(n.bodies[i], c, out).value;
      Pops("  pop rax");
      NetSnoc(s.lines, "  pop rax");
      BlockBalanced(n, i + 1, s.next, s.lines + ["  pop rax"]);
    }
  }

  // ---------------------------------------------------------------------
  // Layout

  /** A block is its first statement's own code, then `pop rax`, then the
      code of the remaining statements. */
  lemma BlockStep(n: Node, i: nat, c: nat, out: seq<string>)
    requires n.kind == Block && Generable(n) && i < |n.bodies|
    requires GenBodies(n, i, c, out).Ok?
    ensures Emit(n.bodies[i], c).Ok?
    ensures var s := Emit(n.bodies[i], c).value;
      GenBodies(n, i, c, out) == Shift(out + s.lines + ["  pop rax"], GenBodies(n, i + 1, s.next, []))
  {
    AppendOnly(n.bodies[i], c, out);
    var s := Emit(n.bodies[i], c).value;
    assert out + s.lines + ["  pop rax"] + [] == out + s.lines + ["  pop rax"];
    BodiesShift(n, i + 1, s.next, out + s.lines + ["  pop rax"], []);
  }

  /** A binary operator evaluates its left operand, then its right operand,
      pops them into rdi (right) and rax (left), combines them and pushes
      the result. */
  lemma BinaryOrder(n: Node, c: nat, out: seq<string>)
    requires IsBinary(n.kind) && Generable(n) && Gen(n, c, out).Ok?
    ensures Emit(n.lhs.value, c).Ok?
    ensures Emit(n.rhs.value, Emit(n.lhs.value, c).value.next).Ok?
    ensures
      var l := Emit(n.lhs.value, c).value;
      var r := Emit(n.rhs.value, l.next).value;
      Gen(n, c, out).value.lines
        == Operator(n.kind, out + l.lines + r.lines + ["  pop rdi"] + ["  pop rax"]) + ["  push rax"]
  {
    AppendOnly(n.lhs.value, c, out);
    var l := Emit(n.lhs.value, c).value;
    AppendOnly(n.rhs.value, l.next, out + l.lines);
  }

  /** An `if` without `else` defines its else label right before its end
      label, at the very end of its code. */
  lemma IfWithoutElse(n: Node, c: nat, out: seq<string>)
    requires n.kind == If && Generable(n) && n.rhs.None? && Gen(n, c, out).Ok?
    ensures var lines := Gen(n, c, out).value.lines;
      |lines| >= 2 && lines[|lines| - 2..] == [LabelLine(ElseTag, c), LabelLine(EndTag, c)]
  {
    var cond := Gen(n.condition.value, c + 1, out).value;
    var thn := Gen(n.lhs.value, cond.next, Test(cond.lines, ElseTag, c)).value;
    var mid := thn.lines + ["  jmp " + Label(EndTag, c)] + [LabelLine(ElseTag, c)];
    assert GenOpt(n.rhs, thn.next, mid) == Ok(Code(mid, thn.next));
    assert Gen(n, c, out) == GenIf(n, c, out);
    assert Gen(n, c, out).value.lines == mid + [LabelLine(EndTag, c)];
  }

  /** `return` evaluates its expression, pops it into rax and leaves the
      function through the epilogue. */
  lemma ReturnEpilogue(n: Node, c: nat, out: seq<string>)
    requires n.kind == Return && Generable(n) && Gen(n, c, out).Ok?
    ensures Emit(n.lhs.value, c).Ok?
    ensures Gen(n, c, out).value.lines
      == out + Emit(n.lhs.value, c).value.lines + ["  pop rax", "  mov rsp, rbp", "  pop rbp", "  ret"]
  {
    AppendOnly(n.lhs.value, c, out);
  }

  // ---------------------------------------------------------------------
  // Labels

  /** A line that defines a label; every instruction line starts with two spaces. */
  predicate IsLabelDef(line: string) {
    |line| > 0 && line[0] == '.'
  }

  /** The label definitions among `lines`, in order. */
  function Defs(lines: seq<string>): seq<string>
    decreases |lines|
  {
    if lines == [] then []
    else
      var last := lines[|lines| - 1];
      Defs(lines[..|lines| - 1]) + (if IsLabelDef(last) then [last] else [])
  }

  lemma DefsSkip(lines: seq<string>, line: string)
    requires |line| > 0 && line[0] == ' '
    ensures Defs(lines + [line]) == Defs(lines)
  {
    assert (lines + [line])[..|lines|] == lines;
  }

  lemma DefsTest(out: seq<string>, t: LabelTag, k: nat)
    ensures Defs(Test(out, t, k)) == Defs(out)
  {
    DefsSkip(out, "  pop rax");
    DefsSkip(out + ["  pop rax"], "  cmp rax, 0");
    DefsSkip(out + ["  pop rax"] + ["  cmp rax, 0"], "  je " + Label(t, k));
  }

  lemma DefsOperator(k: NodeKind, out: seq<string>)
    requires IsBinary(k)
    ensures Defs(Operator(k, out)) == Defs(out)
  {
    match k
    case Add => DefsSkip(out, "  add rax, rdi");
    case Sub => DefsSkip(out, "  sub rax, rdi");
    case Mul => DefsSkip(out, "  imul rax, rdi");
    case Div =>
      DefsSkip(out, "  cqo");
      DefsSkip(out + ["  cqo"], "  idiv rdi");
    case Eq => DefsCompare(out, "  sete al");
    case Ne => DefsCompare(out, "  setne al");
    case Lt => DefsCompare(out, "  setl al");
    case Le => DefsCompare(out, "  setle al");
  }

  lemma DefsCompare(out: seq<string>, flag: string)
    requires |flag| > 0 && flag[0] == ' '
    ensures Defs(out + ["  cmp rax, rdi"] + [flag] + ["  movzb rax, al"]) == Defs(out)
  {
    DefsSkip(out, "  cmp rax, rdi");
    DefsSkip(out + ["  cmp rax, rdi"], flag);
    DefsSkip(out + ["  cmp rax, rdi"] + [flag], "  movzb rax, al");
  }

  lemma DefsLval(n: Node, out: seq<string>)
    requires n.kind == Lvar
    ensures Defs(GenLval(n, out).value) == Defs(out)
  {
    DefsSkip(out, "  mov rax, rbp");
    DefsSkip(out + ["  mov rax, rbp"], "  sub rax, " + IntToString(n.offset));
    DefsSkip(out + ["  mov rax, rbp"] + ["  sub rax, " + IntToString(n.offset)], "  push rax");
  }

  /** A label: its family and its number. */
  datatype LabelId = LabelId(tag: LabelTag, num: nat)

  /** The definition lines of the labels `ids`, in order. */
  function Render(ids: seq<LabelId>): seq<string> {
    if ids == [] then []
    else Render(ids[..|ids| - 1]) + [LabelLine(ids[|ids| - 1].tag, ids[|ids| - 1].num)]
  }

  lemma {:induction false} RenderAt(ids: seq<LabelId>, i: nat)
    requires i < |ids|
    ensures |Render(ids)| == |ids|
    ensures Render(ids)[i] == LabelLine(ids[i].tag, ids[i].num)
  {
    if i < |ids| - 1 {
      RenderAt(ids[..|ids| - 1], i);
    } else if |ids| > 1 {
      RenderAt(ids[..|ids| - 1], 0);
    }
  }

  lemma DefsLabel(lines: seq<string>, ids: seq<LabelId>, t: LabelTag, k: nat)
    requires Defs(lines) == Render(ids)
    ensures Defs(lines + [LabelLine(t, k)]) == Render(ids + [LabelId(t, k)])
  {
    assert (lines + [LabelLine(t, k)])[..|lines|] == lines;
    assert (ids + [LabelId(t, k)])[..|ids|] == ids;
  }

  /** `acc` followed by the labels of the `if`, `while` and `for` statements
      in `n`, in the order their definitions appear, when numbering starts at
      `c`: each statement takes the next number before its children are
      numbered, so a statement's children use the numbers after its own. */
  function Labels(n: Node, c: nat, acc: seq<LabelId>): seq<LabelId>
    decreases n, 1
  {
    match n.kind
    case Num => acc
    case Lvar => acc
    case Assign => OptLabels(n.rhs, c, acc)
    case If =>
      var k1 := c + 1 + OptControls(n.condition);
      var k2 := k1 + OptControls(n.lhs);
      var thn := OptLabels(n.lhs, k1, OptLabels(n.condition, c + 1, acc));
      OptLabels(n.rhs, k2, thn + [LabelId(ElseTag, c)]) + [LabelId(EndTag, c)]
    case While =>
      var cond := OptLabels(n.condition, c + 1, acc + [LabelId(WhileTag, c)]);
      OptLabels(n.lhs, c + 1 + OptControls(n.condition), cond) + [LabelId(EndTag, c)]
    case For =>
      var k1 := c + 1 + OptControls(n.initialize);
      var k2 := k1 + OptControls(n.condition);
      var k3 := k2 + OptControls(n.lhs);
      var init := OptLabels(n.initialize, c + 1, acc) + [LabelId(ForTag, c)];
      var body := OptLabels(n.lhs, k2, OptLabels(n.condition, k1, init));
      OptLabels(n.loop, k3, body) + [LabelId(EndTag, c)]
    case Return => OptLabels(n.lhs, c, acc)
    case Block => BodiesLabels(n, 0, c, acc)
    case _ => OptLabels(n.rhs, c + OptControls(n.lhs), OptLabels(n.lhs, c, acc))
  }

  function OptLabels(o: Option<Node>, c: nat, acc: seq<LabelId>): seq<LabelId>
    decreases o, 2
  {
    if o.Some? then Labels(o.value, c, acc) else acc
  }

  function BodiesLabels(n: Node, i: nat, c: nat, acc: seq<LabelId>): seq<LabelId>
    requires i <= |n.bodies|
    decreases n, 0, |n.bodies| - i
  {
    if i == |n.bodies| then acc
    else BodiesLabels(n, i + 1, c + Controls(n.bodies[i]), Labels(n.bodies[i], c, acc))
  }

  /** The label definitions the generator appends are exactly the labels
      of `Labels`, in that order. */
  lemma {:induction false} DefsGen(n: Node, c: nat, out: seq<string>, ids: seq<LabelId>)
    requires Generable(n) && Gen(n, c, out).Ok? && Defs(out) == Render(ids)
    ensures Defs(Gen(n, c, out).value.lines) == Render(Labels(n, c, ids))
    decreases n, 1
  {
    match n.kind
    case Num =>
      DefsSkip(out, "  push " + IntToString(n.value));
    case Lvar =>
      DefsLval(n, out);
      var x := GenLval(n, out).value;
      DefsSkip(x, "  pop rax");
      DefsSkip(x + ["  pop rax"], "  mov rax, [rax]");
      DefsSkip(x + ["  pop rax"] + ["  mov rax, [rax]"], "  push rax");
    case Assign =>
      DefsLval(n.lhs.value, out);
      var addr := GenLval(n.lhs.value, out).value;
      DefsGen(n.rhs.value, c, addr, ids);
      var x := Gen(n.rhs.value, c, addr).value.lines;
      DefsSkip(x, "  pop rdi");
      DefsSkip(x + ["  pop rdi"], "  pop rax");
      DefsSkip(x + ["  pop rdi"] + ["  pop rax"], "  mov [rax], rdi");
      DefsSkip(x + ["  pop rdi"] + ["  pop rax"] + ["  mov [rax], rdi"], "  push rdi");
    case If => IfDefs(n, c, out, ids);
    case While => WhileDefs(n, c, out, ids);
    case For => ForDefs(n, c, out, ids);
    case Return =>
      DefsGen(n.lhs.value, c, out, ids);
      var x := Gen(n.lhs.value, c, out).value.lines;
      DefsSkip(x, "  pop rax");
      DefsSkip(x + ["  pop rax"], "  mov rsp, rbp");
      DefsSkip(x + ["  pop rax"] + ["  mov rsp, rbp"], "  pop rbp");
      DefsSkip(x + ["  pop rax"] + ["  mov rsp, rbp"] + ["  pop rbp"], "  ret");
    case Block => BodiesDefs(n, 0, c, out, ids);
    case _ => BinaryDefs(n, c, out, ids);
  }

  lemma {:induction false} OptDefs(o: Option<Node>, c: nat, out: seq<string>, ids: seq<LabelId>)
    requires (o.Some? ==> Generable(o.value)) && GenOpt(o, c, out).Ok? && Defs(out) == Render(ids)
    ensures Defs(GenOpt(o, c, out).value.lines) == Render(OptLabels(o, c, ids))
    decreases o, 2
  {
    if o.Some? {
      DefsGen(o.value, c, out, ids);
    }
  }

  lemma {:induction false} IfDefs(n: Node, c: nat, out: seq<string>, ids: seq<LabelId>)
    requires n.kind == If && Generable(n) && GenIf(n, c, out).Ok? && Defs(out) == Render(ids)
    ensures Defs(GenIf(n, c, out).value.lines) == Render(Labels(n, c, ids))
    decreases n, 0
  {
    var cond := Gen(n.condition.value, c + 1, out).value;
    DefsGen(n.condition.value, c + 1, out, ids);
    GenCounter(n.condition.value, c + 1, out);
    var a := Labels(n.condition.value, c + 1, ids);
    var o1 := Test(cond.lines, ElseTag, c);
    DefsTest(cond.lines, ElseTag, c);
    var thn := Gen(n.lhs.value, cond.next, o1).value;
    DefsGen(n.lhs.value, cond.next, o1, a);
    GenCounter(n.lhs.value, cond.next, o1);
    var b := Labels(n.lhs.value, cond.next, a);
    var o2 := thn.lines + ["  jmp " + Label(EndTag, c)];
    DefsSkip(thn.lines, "  jmp " + Label(EndTag, c));
    DefsLabel(o2, b, ElseTag, c);
    var mid := o2 + [LabelLine(ElseTag, c)];
    OptDefs(n.rhs, thn.next, mid, b + [LabelId(ElseTag, c)]);
    var els := GenOpt(n.rhs, thn.next, mid).value;
    DefsLabel(els.lines, OptLabels(n.rhs, thn.next, b + [LabelId(ElseTag, c)]), EndTag, c);
    IfLabels(n, c, ids, cond.next, thn.next);
    assert GenIf(n, c, out).value.lines == els.lines + [LabelLine(EndTag, c)];
  }

  lemma {:induction false} WhileDefs(n: Node, c: nat, out: seq<string>, ids: seq<LabelId>)
    requires n.kind == While && Generable(n) && GenWhile(n, c, out).Ok? && Defs(out) == Render(ids)
    ensures Defs(GenWhile(n, c, out).value.lines) == Render(Labels(n, c, ids))
    decreases n, 0
  {
    var o0 := out + [LabelLine(WhileTag, c)];
    DefsLabel(out, ids, WhileTag, c);
    var a0 := ids + [LabelId(WhileTag, c)];
    var cond := Gen(n.condition.value, c + 1, o0).value;
    DefsGen(n.condition.value, c + 1, o0, a0);
    GenCounter(n.condition.value, c + 1, o0);
    var a := Labels(n.condition.value, c + 1, a0);
    var o1 := Test(cond.lines, EndTag, c);
    DefsTest(cond.lines, EndTag, c);
    var body := Gen(n.lhs.value, cond.next, o1).value;
    DefsGen(n.lhs.value, cond.next, o1, a);
    DefsSkip(body.lines, "  jmp " + Label(WhileTag, c));
    DefsLabel(body.lines + ["  jmp " + Label(WhileTag, c)], Labels(n.lhs.value, cond.next, a), EndTag, c);
    WhileLabels(n, c, ids, cond.next);
    assert GenWhile(n, c, out).value.lines
        == body.lines + ["  jmp " + Label(WhileTag, c)] + [LabelLine(EndTag, c)];
  }

  lemma {:induction false} ForDefs(n: Node, c: nat, out: seq<string>, ids: seq<LabelId>)
    requires n.kind == For && Generable(n) && GenFor(n, c, out).Ok? && Defs(out) == Render(ids)
    ensures Defs(GenFor(n, c, out).value.lines) == Render(Labels(n, c, ids))
    decreases n, 0
  {
    var init := GenOpt(n.initialize, c + 1, out).value;
    OptDefs(n.initialize, c + 1, out, ids);
    OptCounter(n.initialize, c + 1, out);
    var a0 := OptLabels(n.initialize, c + 1, ids);
    var o1 := init.lines + [LabelLine(ForTag, c)];
    DefsLabel(init.lines, a0, ForTag, c);
    var a1 := a0 + [LabelId(ForTag, c)];
    var cond := Gen(n.condition.value, init.next, o1).value;
    DefsGen(n.condition.value, init.next, o1, a1);
    GenCounter(n.condition.value, init.next, o1);
    var a2 := Labels(n.condition.value, init.next, a1);
    var o2 := Test(cond.lines, EndTag, c);
    DefsTest(cond.lines, EndTag, c);
    var body := Gen(n.lhs.value, cond.next, o2).value;
    DefsGen(n.lhs.value, cond.next, o2, a2);
    GenCounter(n.lhs.value, cond.next, o2);
    var a3 := Labels(n.lhs.value, cond.next, a2);
    var step := GenOpt(n.loop, body.next, body.lines).value;
    OptDefs(n.loop, body.next, body.lines, a3);
    DefsSkip(step.lines, "  jmp " + Label(ForTag, c));
    DefsLabel(step.lines + ["  jmp " + Label(ForTag, c)], OptLabels(n.loop, body.next, a3), EndTag, c);
    ForLabels(n, c, ids, init.next, cond.next, body.next);
    assert GenFor(n, c, out).value.lines
        == step.lines + ["  jmp " + Label(ForTag, c)] + [LabelLine(EndTag, c)];
  }

  lemma {:induction false} BodiesDefs(n: Node, i: nat, c: nat, out: seq<string>, ids: seq<LabelId>)
    requires n.kind == Block && Generable(n) && i <= |n.bodies| && GenBodies(n, i, c, out).Ok?
    requires Defs(out) == Render(ids)
    ensures Defs(GenBodies(n, i, c, out).value.lines) == Render(BodiesLabels(n, i, c, ids))
    decreases n, 0, |n.bodies| - i
  {
    if i < |n.bodies| {
      var s := Gen(n.bodies[i], c, out).value;
      DefsGen(n.bodies[i], c, out, ids);
      GenCounter(n.bodies[i], c, out);
      DefsSkip(s.lines, "  pop rax");
      BodiesDefs(n, i + 1, s.next, s.lines + ["  pop rax"], Labels(n.bodies[i], c, ids));
      BodiesLabelsStep(n, i, c, ids, s.next);
    }
  }

  lemma {:induction false} BinaryDefs(n: Node, c: nat, out: seq<string>, ids: seq<LabelId>)
    requires IsBinary(n.kind) && Generable(n) && GenBinary(n, c, out).Ok? && Defs(out) == Render(ids)
    ensures Defs(GenBinary(n, c, out).value.lines) == Render(Labels(n, c, ids))
    decreases n, 0
  {
    var l := Gen(n.lhs.value, c, out).value;
    DefsGen(n.lhs.value, c, out, ids);
    GenCounter(n.lhs.value, c, out);
    assert Gen(n.lhs.value, c, out).Ok?;
    assert l.next == c + Controls(n.lhs.value);
    var a := Labels(n.lhs.value, c, ids);
    DefsGen(n.rhs.value, l.next, l.lines, a);
    var x := Gen(n.rhs.value, l.next, l.lines).value.lines;
    var y := Operator(n.kind, x + ["  pop rdi"] + ["  pop rax"]) + ["  push rax"];
    DefsBinaryTail(n.kind, x);
    BinaryLabels(n, c, ids, l.next);
    assert GenBinary(n, c, out).value.lines == y;
  }

  lemma DefsBinaryTail(k: NodeKind, x: seq<string>)
    requires IsBinary(k)
    ensures Defs(Operator(k, x + ["  pop rdi"] + ["  pop rax"]) + ["  push rax"]) == Defs(x)
  {
    DefsSkip(x, "  pop rdi");
    DefsSkip(x + ["  pop rdi"], "  pop rax");
    DefsOperator(k, x + ["  pop rdi"] + ["  pop rax"]);
    DefsSkip(Operator(k, x + ["  pop rdi"] + ["  pop rax"]), "  push rax");
  }

  lemma BinaryLabels(n: Node, c: nat, acc: seq<LabelId>, k: nat)
    requires IsBinary(n.kind) && Generable(n) && k == c + Controls(n.lhs.value)
    ensures Labels(n, c, acc) == Labels(n.rhs.value, k, Labels(n.lhs.value, c, acc))
  {
  }

  lemma IfLabels(n: Node, c: nat, acc: seq<LabelId>, k1: nat, k2: nat)
    requires n.kind == If && Generable(n)
    requires k1 == c + 1 + Controls(n.condition.value) && k2 == k1 + Controls(n.lhs.value)
    ensures Labels(n, c, acc)
         == OptLabels(n.rhs, k2, Labels(n.lhs.value, k1, Labels(n.condition.value, c + 1, acc)) + [LabelId(ElseTag, c)])
            + [LabelId(EndTag, c)]
  {
  }

  lemma WhileLabels(n: Node, c: nat, acc: seq<LabelId>, k1: nat)
    requires n.kind == While && Generable(n) && k1 == c + 1 + Controls(n.condition.value)
    ensures Labels(n, c, acc)
         == Labels(n.lhs.value, k1, Labels(n.condition.value, c + 1, acc + [LabelId(WhileTag, c)]))
            + [LabelId(EndTag, c)]
  {
  }

  lemma ForLabels(n: Node, c: nat, acc: seq<LabelId>, k1: nat, k2: nat, k3: nat)
    requires n.kind == For && Generable(n)
    requires k1 == c + 1 + OptControls(n.initialize) && k2 == k1 + Controls(n.condition.value)
    requires k3 == k2 + Controls(n.lhs.value)
    ensures Labels(n, c, acc)
         == OptLabels(n.loop, k3, Labels(n.lhs.value, k2,
              Labels(n.condition.value, k1, OptLabels(n.initialize, c + 1, acc) + [LabelId(ForTag, c)])))
            + [LabelId(EndTag, c)]
  {
  }

  lemma BodiesLabelsStep(n: Node, i: nat, c: nat, acc: seq<LabelId>, k: nat)
    requires n.kind == Block && Generable(n) && i < |n.bodies| && k == c + Controls(n.bodies[i])
    ensures BodiesLabels(n, i, c, acc) == BodiesLabels(n, i + 1, k, Labels(n.bodies[i], c, acc))
  {
  }

  // ---------------------------------------------------------------------
  // No label is defined twice

  predicate Distinct(ids: seq<LabelId>) {
    forall i, j :: 0 <= i < j < |ids| ==> ids[i] != ids[j]
  }

  /** Every label of `ids` has a number below `hi`. */
  predicate Below(ids: seq<LabelId>, hi: nat) {
    forall i :: 0 <= i < |ids| ==> ids[i].num < hi
  }

  /** `x` does not occur in `ids`. */
  predicate Fresh(x: LabelId, ids: seq<LabelId>) {
    forall i :: 0 <= i < |ids| ==> ids[i] != x
  }

  /** `r` is `acc` followed by labels numbered in `[lo, hi)`. */
  predicate Extends(r: seq<LabelId>, acc: seq<LabelId>, lo: nat, hi: nat) {
    |acc| <= |r| && r[..|acc|] == acc && forall i :: |acc| <= i < |r| ==> lo <= r[i].num < hi
  }

  lemma ExtendsTrans(a: seq<LabelId>, b: seq<LabelId>, r: seq<LabelId>,
                     lo1: nat, hi1: nat, lo2: nat, hi2: nat, lo: nat, hi: nat)
    requires Extends(b, a, lo1, hi1) && Extends(r, b, lo2, hi2)
    requires lo <= lo1 && hi1 <= hi && lo <= lo2 && hi2 <= hi
    ensures Extends(r, a, lo, hi)
  {
    assert r[..|a|] == r[..|b|][..|a|];
    forall i | |a| <= i < |r|
      ensures lo <= r[i].num < hi
    {
      if i < |b| {
        assert r[i] == r[..|b|][i];
      }
    }
  }

  lemma ExtendsSnoc(a: seq<LabelId>, x: LabelId)
    ensures Extends(a + [x], a, x.num, x.num + 1)
  {
    assert (a + [x])[..|a|] == a;
  }

  lemma ExtendsNone(a: seq<LabelId>, lo: nat, hi: nat)
    ensures Extends(a, a, lo, hi)
  {
  }

  lemma ExtendsBelow(r: seq<LabelId>, acc: seq<LabelId>, lo: nat, hi: nat, k0: nat, k: nat)
    requires Extends(r, acc, lo, hi) && Below(acc, k0) && k0 <= k && hi <= k
    ensures Below(r, k)
  {
    forall i | 0 <= i < |acc|
      ensures r[i].num < k
    {
      assert r[i] == r[..|acc|][i];
    }
  }

  lemma ExtendsFresh(r: seq<LabelId>, acc: seq<LabelId>, lo: nat, hi: nat, x: LabelId)
    requires Extends(r, acc, lo, hi) && Fresh(x, acc) && !(lo <= x.num < hi)
    ensures Fresh(x, r)
  {
    forall i | 0 <= i < |acc|
      ensures r[i] != x
    {
      assert r[i] == r[..|acc|][i];
    }
  }

  lemma BelowWiden(ids: seq<LabelId>, k: nat, k2: nat)
    requires Below(ids, k) && k <= k2
    ensures Below(ids, k2)
  {
  }

  lemma FreshBelow(x: LabelId, ids: seq<LabelId>)
    requires Below(ids, x.num)
    ensures Fresh(x, ids)
  {
  }

  lemma FreshSnoc(x: LabelId, ids: seq<LabelId>, y: LabelId)
    requires Fresh(x, ids) && x != y
    ensures Fresh(x, ids + [y])
  {
  }

  /** Appending a label that is new to `acc` and outside `[lo, hi)` to an
      extension of `acc` keeps it repetition-free. */
  lemma Close(acc: seq<LabelId>, r: seq<LabelId>, x: LabelId, lo: nat, hi: nat, lo2: nat, hi2: nat)
    requires Distinct(r) && Extends(r, acc, lo, hi) && Fresh(x, acc) && !(lo <= x.num < hi)
    requires lo2 <= lo && lo2 <= x.num && hi <= hi2 && x.num < hi2
    ensures Distinct(r + [x]) && Extends(r + [x], acc, lo2, hi2)
  {
    ExtendsFresh(r, acc, lo, hi, x);
    DistinctSnoc(r, x);
    ExtendsSnoc(r, x);
    ExtendsTrans(acc, r, r + [x], lo, hi, x.num, x.num + 1, lo2, hi2);
  }

  lemma DistinctSnoc(ids: seq<LabelId>, x: LabelId)
    requires Distinct(ids) && Fresh(x, ids)
    ensures Distinct(ids + [x])
  {
  }

  /** Numbering `n` from `c` after `acc` adds labels numbered in
      `[c, c + Controls(n))` only, and none twice. */
  lemma {:induction false} LabelsFresh(n: Node, c: nat, acc: seq<LabelId>)
    requires Generable(n) && Distinct(acc) && Below(acc, c)
    ensures Distinct(Labels(n, c, acc)) && Extends(Labels(n, c, acc), acc, c, c + Controls(n))
    decreases n, 1
  {
    match n.kind
    case Num => ExtendsNone(acc, c, c);
    case Lvar => ExtendsNone(acc, c, c);
    case Assign => LabelsFresh(n.rhs.value, c, acc);
    case If => IfFresh(n, c, acc);
    case While => WhileFresh(n, c, acc);
    case For => ForFresh(n, c, acc);
    case Return => LabelsFresh(n.lhs.value, c, acc);
    case Block => BodiesFresh(n, 0, c, acc);
    case _ => BinaryFresh(n, c, acc);
  }

  lemma {:induction false} OptFresh(o: Option<Node>, c: nat, acc: seq<LabelId>)
    requires (o.Some? ==> Generable(o.value)) && Distinct(acc) && Below(acc, c)
    ensures Distinct(OptLabels(o, c, acc)) && Extends(OptLabels(o, c, acc), acc, c, c + OptControls(o))
    decreases o, 2
  {
    if o.Some? {
      LabelsFresh(o.value, c, acc);
    } else {
      ExtendsNone(acc, c, c);
    }
  }

  lemma {:induction false} BinaryFresh(n: Node, c: nat, acc: seq<LabelId>)
    requires IsBinary(n.kind) && Generable(n) && Distinct(acc) && Below(acc, c)
    ensures Distinct(Labels(n, c, acc)) && Extends(Labels(n, c, acc), acc, c, c + Controls(n))
    decreases n, 0
  {
    var k := c + Controls(n.lhs.value);
    var hi := k + Controls(n.rhs.value);
    BinaryControls(n, hi - c);
    LabelsFresh(n.lhs.value, c, acc);
    var a := Labels(n.lhs.value, c, acc);
    ExtendsBelow(a, acc, c, k, c, k);
    LabelsFresh(n.rhs.value, k, a);
    BinaryLabels(n, c, acc, k);
    ExtendsTrans(acc, a, Labels(n.rhs.value, k, a), c, k, k, hi, c, hi);
  }

  lemma BinaryControls(n: Node, total: nat)
    requires IsBinary(n.kind) && Generable(n) && total == Controls(n.lhs.value) + Controls(n.rhs.value)
    ensures Controls(n) == total
  {
  }

  lemma {:induction false} IfFresh(n: Node, c: nat, acc: seq<LabelId>)
    requires n.kind == If && Generable(n) && Distinct(acc) && Below(acc, c)
    ensures Distinct(Labels(n, c, acc)) && Extends(Labels(n, c, acc), acc, c, c + Controls(n))
    decreases n, 0
  {
    var k1 := c + 1 + Controls(n.condition.value);
    var k2 := k1 + Controls(n.lhs.value);
    var hi := k2 + OptControls(n.rhs);
    IfControls(n, hi - c);
    var e, f := LabelId(ElseTag, c), LabelId(EndTag, c);
    BelowWiden(acc, c, c + 1);
    LabelsFresh(n.condition.value, c + 1, acc);
    var a1 := Labels(n.condition.value, c + 1, acc);
    ExtendsBelow(a1, acc, c + 1, k1, c, k1);
    LabelsFresh(n.lhs.value, k1, a1);
    var a2 := Labels(n.lhs.value, k1, a1);
    ExtendsTrans(acc, a1, a2, c + 1, k1, k1, k2, c + 1, k2);
    FreshBelow(e, acc);
    Close(acc, a2, e, c + 1, k2, c, k2);
    var b := a2 + [e];
    ExtendsBelow(b, acc, c, k2, c, k2);
    OptFresh(n.rhs, k2, b);
    var a3 := OptLabels(n.rhs, k2, b);
    FreshBelow(f, acc);
    ExtendsFresh(a2, acc, c + 1, k2, f);
    FreshSnoc(f, a2, e);
    Close(b, a3, f, k2, hi, c, hi);
    ExtendsTrans(acc, b, a3 + [f], c, k2, c, hi, c, hi);
    IfLabels(n, c, acc, k1, k2);
  }

  lemma {:induction false} WhileFresh(n: Node, c: nat, acc: seq<LabelId>)
    requires n.kind == While && Generable(n) && Distinct(acc) && Below(acc, c)
    ensures Distinct(Labels(n, c, acc)) && Extends(Labels(n, c, acc), acc, c, c + Controls(n))
    decreases n, 0
  {
    var k1 := c + 1 + Controls(n.condition.value);
    var hi := k1 + Controls(n.lhs.value);
    WhileControls(n, hi - c);
    var w, f := LabelId(WhileTag, c), LabelId(EndTag, c);
    FreshBelow(w, acc);
    DistinctSnoc(acc, w);
    var a0 := acc + [w];
    ExtendsSnoc(acc, w);
    ExtendsBelow(a0, acc, c, c + 1, c, c + 1);
    LabelsFresh(n.condition.value, c + 1, a0);
    var a1 := Labels(n.condition.value, c + 1, a0);
    ExtendsBelow(a1, a0, c + 1, k1, c + 1, k1);
    LabelsFresh(n.lhs.value, k1, a1);
    var a2 := Labels(n.lhs.value, k1, a1);
    FreshBelow(f, acc);
    FreshSnoc(f, acc, w);
    ExtendsFresh(a1, a0, c + 1, k1, f);
    ExtendsFresh(a2, a1, k1, hi, f);
    DistinctSnoc(a2, f);
    ExtendsSnoc(a2, f);
    ExtendsTrans(acc, a0, a1, c, c + 1, c + 1, k1, c, k1);
    ExtendsTrans(acc, a1, a2, c, k1, k1, hi, c, hi);
    ExtendsTrans(acc, a2, a2 + [f], c, hi, c, c + 1, c, hi);
    WhileLabels(n, c, acc, k1);
  }

  lemma {:induction false} ForFresh(n: Node, c: nat, acc: seq<LabelId>)
    requires n.kind == For && Generable(n) && Distinct(acc) && Below(acc, c)
    ensures Distinct(Labels(n, c, acc)) && Extends(Labels(n, c, acc), acc, c, c + Controls(n))
    decreases n, 0
  {
    var k1 := c + 1 + OptControls(n.initialize);
    var k2 := k1 + Controls(n.condition.value);
    var k3 := k2 + Controls(n.lhs.value);
    var hi := k3 + OptControls(n.loop);
    ForControls(n, hi - c);
    var h, f := LabelId(ForTag, c), LabelId(EndTag, c);
    BelowWiden(acc, c, c + 1);
    OptFresh(n.initialize, c + 1, acc);
    var a0 := OptLabels(n.initialize, c + 1, acc);
    FreshBelow(h, acc);
    Close(acc, a0, h, c + 1, k1, c, k1);
    var a1 := a0 + [h];
    ExtendsBelow(a1, acc, c, k1, c, k1);
    LabelsFresh(n.condition.value, k1, a1);
    var a2 := Labels(n.condition.value, k1, a1);
    ExtendsBelow(a2, a1, k1, k2, k1, k2);
    LabelsFresh(n.lhs.value, k2, a2);
    var a3 := Labels(n.lhs.value, k2, a2);
    ExtendsBelow(a3, a2, k2, k3, k2, k3);
    OptFresh(n.loop, k3, a3);
    var a4 := OptLabels(n.loop, k3, a3);
    ExtendsTrans(a1, a2, a3, k1, k2, k2, k3, k1, k3);
    ExtendsTrans(a1, a3, a4, k1, k3, k3, hi, k1, hi);
    FreshBelow(f, acc);
    ExtendsFresh(a0, acc, c + 1, k1, f);
    FreshSnoc(f, a0, h);
    Close(a1, a4, f, k1, hi, c, hi);
    ExtendsTrans(acc, a1, a4 + [f], c, k1, c, hi, c, hi);
    ForLabels(n, c, acc, k1, k2, k3);
  }

  lemma {:induction false} BodiesFresh(n: Node, i: nat, c: nat, acc: seq<LabelId>)
    requires n.kind == Block && Generable(n) && i <= |n.bodies| && Distinct(acc) && Below(acc, c)
    ensures Distinct(BodiesLabels(n, i, c, acc))
    ensures Extends(BodiesLabels(n, i, c, acc), acc, c, c + BodiesControls(n, i))
    decreases n, 0, |n.bodies| - i
  {
    if i == |n.bodies| {
      ExtendsNone(acc, c, c);
    } else {
      var k := c + Controls(n.bodies[i]);
      var hi := k + BodiesControls(n, i + 1);
      LabelsFresh(n.bodies[i], c, acc);
      var a := Labels(n.bodies[i], c, acc);
      ExtendsBelow(a, acc, c, k, c, k);
      BodiesFresh(n, i + 1, k, a);
      BodiesLabelsStep(n, i, c, acc, k);
      ExtendsTrans(acc, a, BodiesLabels(n, i + 1, k, a), c, k, k, hi, c, hi);
    }
  }

  lemma IfControls(n: Node, total: nat)
    requires n.kind == If && Generable(n)
    requires total == 1 + Controls(n.condition.value) + Controls(n.lhs.value) + OptControls(n.rhs)
    ensures Controls(n) == total
  {
  }

  lemma WhileControls(n: Node, total: nat)
    requires n.kind == While && Generable(n)
    requires total == 1 + Controls(n.condition.value) + Controls(n.lhs.value)
    ensures Controls(n) == total
  {
  }

  lemma ForControls(n: Node, total: nat)
    requires n.kind == For && Generable(n)
    requires total == 1 + OptControls(n.initialize) + Controls(n.condition.value) + Controls(n.lhs.value)
      + OptControls(n.loop)
    ensures Controls(n) == total
  {
  }

  /** Two label definition lines are equal only for the same family and number. */
  lemma LabelLineInjective(t1: LabelTag, k1: nat, t2: LabelTag, k2: nat)
    requires LabelLine(t1, k1) == LabelLine(t2, k2)
    ensures t1 == t2 && k1 == k2
  {
    var p1, p2 := ".L." + TagName(t1) + ".", ".L." + TagName(t2) + ".";
    var s := LabelLine(t1, k1);
    assert s == p1 + NatToString(k1) + ":";
    assert s == p2 + NatToString(k2) + ":";
    assert s[3] == TagName(t1)[0] && s[4] == TagName(t1)[1];
    assert s[3] == TagName(t2)[0] && s[4] == TagName(t2)[1];
    assert t1 == t2;
    assert NatToString(k1) == s[|p1|..|s| - 1];
    NatToStringInjective(k1, k2);
  }

  /** In the code generated for `n` with the counter at `c`, no label is
      defined twice, and every label defined is numbered from `c` up to the
      counter's value afterwards. */
  lemma NoLabelTwice(n: Node, c: nat)
    requires Generable(n) && Emit(n, c).Ok?
    ensures var d := Defs(Emit(n, c).value.lines);
      forall i, j :: 0 <= i < j < |d| ==> d[i] != d[j]
    ensures var d := Defs(Emit(n, c).value.lines);
      d == Render(Labels(n, c, [])) && Below(Labels(n, c, []), Emit(n, c).value.next)
  {
    DefsGen(n, c, [], []);
    GenCounter(n, c, []);
    LabelsFresh(n, c, []);
    var ids := Labels(n, c, []);
    ExtendsBelow(ids, [], c, c + Controls(n), 0, c + Controls(n));
    RenderDistinct(ids);
  }

  /** Distinct labels have distinct definition lines. */
  lemma RenderDistinct(ids: seq<LabelId>)
    requires Distinct(ids)
    ensures forall i, j :: 0 <= i < j < |Render(ids)| ==> Render(ids)[i] != Render(ids)[j]
  {
    var d := Render(ids);
    forall i, j | 0 <= i < j < |d|
      ensures d[i] != d[j]
    {
      RenderLength(ids);
      RenderAt(ids, i);
      RenderAt(ids, j);
      if d[i] == d[j] {
        LabelLineInjective(ids[i].tag, ids[i].num, ids[j].tag, ids[j].num);
      }
    }
  }

  lemma {:induction false} RenderLength(ids: seq<LabelId>)
    ensures |Render(ids)| == |ids|
  {
    if ids != [] {
      RenderLength(ids[..|ids| - 1]);
    }
  }
}
