/** The code generator of Honyac/Generator.cs. `Gen` says, as a function of
    the tree and of the label counter, which lines of assembly the generator
    appends and where it leaves the counter; class `Generator` is the
    generator itself, appending to a `Buffer` (the source's StringBuilder),
    and is proved to do exactly what `Gen` says. */
module CodeGen {
  import opened Wrappers
  import opened Ast
  import opened Decimal

  /** The four label families: `.L.else.N`, `.L.end.N`, `.L.while.N`, `.L.for.N`. */
  datatype LabelTag = ElseTag | EndTag | WhileTag | ForTag

  function TagName(t: LabelTag): string {
    match t
    case ElseTag => "else"
    case EndTag => "end"
    case WhileTag => "while"
    case ForTag => "for"
  }

  /** The label `.L.<tag>.<k>`, as used by jumps. */
  function Label(t: LabelTag, k: nat): string {
    ".L." + TagName(t) + "." + NatToString(k)
  }

  /** The line that defines label `.L.<tag>.<k>`. */
  function LabelLine(t: LabelTag, k: nat): string {
    Label(t, k) + ":"
  }

  predicate IsBinary(k: NodeKind) {
    k == Add || k == Sub || k == Mul || k == Div || k == Eq || k == Ne || k == Lt || k == Le
  }

  /** The trees the generator handles: kinds it has a case for (or a
      binary operator), with every child it reads present. The left side of
      an assignment is only required to be present; that it is a variable is
      checked by the generator itself. */
  predicate Generable(n: Node)
    decreases n
  {
    match n.kind
    case Num => true
    case Lvar => true
    case Assign => n.lhs.Some? && n.rhs.Some? && Generable(n.rhs.value)
    case If =>
      && n.condition.Some? && Generable(n.condition.value)
      && n.lhs.Some? && Generable(n.lhs.value)
      && (n.rhs.Some? ==> Generable(n.rhs.value))
    case While =>
      && n.condition.Some? && Generable(n.condition.value)
      && n.lhs.Some? && Generable(n.lhs.value)
    case For =>
      && (n.initialize.Some? ==> Generable(n.initialize.value))
      && n.condition.Some? && Generable(n.condition.value)
      && n.lhs.Some? && Generable(n.lhs.value)
      && (n.loop.Some? ==> Generable(n.loop.value))
    case Return => n.lhs.Some? && Generable(n.lhs.value)
    case Block => forall i | 0 <= i < |n.bodies| :: Generable(n.bodies[i])
    case _ =>
      && IsBinary(n.kind)
      && n.lhs.Some? && Generable(n.lhs.value)
      && n.rhs.Some? && Generable(n.rhs.value)
  }

  /** The buffer after a call of the generator, and the counter after it. */
  datatype Code = Code(lines: seq<string>, next: nat)

  /** `out` with the lines that push the address of a variable; anything but
      a variable reference is rejected. */
  function GenLval(n: Node, out: seq<string>): (r: Result<seq<string>>)
    ensures r.Ok? <==> n.kind == Lvar
  {
    if n.kind != Lvar then Err
    else Ok(out + ["  mov rax, rbp"] + ["  sub rax, " + IntToString(n.offset)] + ["  push rax"])
  }

  /** `out` with the instructions that combine rax (left) and rdi (right) into rax. */
  function Operator(k: NodeKind, out: seq<string>): seq<string>
    requires IsBinary(k)
  {
    match k
    case Add => out + ["  add rax, rdi"]
    case Sub => out + ["  sub rax, rdi"]
    case Mul => out + ["  imul rax, rdi"]
    case Div => out + ["  cqo"] + ["  idiv rdi"]
    case Eq => out + ["  cmp rax, rdi"] + ["  sete al"] + ["  movzb rax, al"]
    case Ne => out + ["  cmp rax, rdi"] + ["  setne al"] + ["  movzb rax, al"]
    case Lt => out + ["  cmp rax, rdi"] + ["  setl al"] + ["  movzb rax, al"]
    case Le => out + ["  cmp rax, rdi"] + ["  setle al"] + ["  movzb rax, al"]
  }

  /** `out` with the test that jumps to `.L.<t>.<k>` when the value on top of
      the stack is 0. */
  function Test(out: seq<string>, t: LabelTag, k: nat): seq<string> {
    out + ["  pop rax"] + ["  cmp rax, 0"] + ["  je " + Label(t, k)]
  }

  /** The code for an optional child: nothing, and the counter unchanged,
      when the child is absent. */
  function GenOpt(o: Option<Node>, c: nat, out: seq<string>): (r: Result<Code>)
    requires o.Some? ==> Generable(o.value)
    decreases o, 2
  {
    match o
    case None => Ok(Code(out, c))
    case Some(n) => Gen(n, c, out)
  }

  /** The buffer `out` after `Generate` has run on node `n` with the counter
      at `c`, and the counter after it; `Err` when the generator throws. */
  function Gen(n: Node, c: nat, out: seq<string>): (r: Result<Code>)
    requires Generable(n)
    decreases n, 1
  {
    match n.kind
    case Num => Ok(Code(out + ["  push " + IntToString(n.value)], c))
    case Lvar =>
      var addr :- GenLval(n, out);
      Ok(Code(addr + ["  pop rax"] + ["  mov rax, [rax]"] + ["  push rax"], c))
    case Assign => GenAssign(n, c, out)
    case If => GenIf(n, c, out)
    case While => GenWhile(n, c, out)
    case For => GenFor(n, c, out)
    case Return =>
      var e :- Gen(n.lhs.value, c, out);
      Ok(Code(e.lines + ["  pop rax"] + ["  mov rsp, rbp"] + ["  pop rbp"] + ["  ret"], e.next))
    case Block => GenBodies(n, 0, c, out)
    case _ => GenBinary(n, c, out)
  }

  function GenAssign(n: Node, c: nat, out: seq<string>): (r: Result<Code>)
    requires n.kind == Assign && Generable(n)
    decreases n, 0
  {
    var addr :- GenLval(n.lhs.value, out);
    var v :- Gen(n.rhs.value, c, addr);
    Ok(Code(v.lines + ["  pop rdi"] + ["  pop rax"] + ["  mov [rax], rdi"] + ["  push rdi"], v.next))
  }

  /** An `if` takes label number `c` and generates its children from `c + 1`. */
  function GenIf(n: Node, c: nat, out: seq<string>): (r: Result<Code>)
    requires n.kind == If && Generable(n)
    decreases n, 0
  {
    var cond :- Gen(n.condition.value, c + 1, out);
    var thn :- Gen(n.lhs.value, cond.next, Test(cond.lines, ElseTag, c));
    var els :- GenOpt(n.rhs, thn.next, thn.lines + ["  jmp " + Label(EndTag, c)] + [LabelLine(ElseTag, c)]);
    Ok(Code(els.lines + [LabelLine(EndTag, c)], els.next))
  }

  function GenWhile(n: Node, c: nat, out: seq<string>): (r: Result<Code>)
    requires n.kind == While && Generable(n)
    decreases n, 0
  {
    var cond :- Gen(n.condition.value, c + 1, out + [LabelLine(WhileTag, c)]);
    var body :- Gen(n.lhs.value, cond.next, Test(cond.lines, EndTag, c));
    Ok(Code(body.lines + ["  jmp " + Label(WhileTag, c)] + [LabelLine(EndTag, c)], body.next))
  }

  function GenFor(n: Node, c: nat, out: seq<string>): (r: Result<Code>)
    requires n.kind == For && Generable(n)
    decreases n, 0
  {
    var init :- GenOpt(n.initialize, c + 1, out);
    var cond :- Gen(n.condition.value, init.next, init.lines + [LabelLine(ForTag, c)]);
    var body :- Gen(n.lhs.value, cond.next, Test(cond.lines, EndTag, c));
    var step :- GenOpt(n.loop, body.next, body.lines);
    Ok(Code(step.lines + ["  jmp " + Label(ForTag, c)] + [LabelLine(EndTag, c)], step.next))
  }

  /** The statements of a block from the `i`-th on, each followed by `pop rax`. */
  function GenBodies(n: Node, i: nat, c: nat, out: seq<string>): (r: Result<Code>)
    requires n.kind == Block && Generable(n) && i <= |n.bodies|
    decreases n, 0, |n.bodies| - i
  {
    if i == |n.bodies| then Ok(Code(out, c))
    else
      var s :- Gen(n.bodies[i], c, out);
      GenBodies(n, i + 1, s.next, s.lines + ["  pop rax"])
  }

  function GenBinary(n: Node, c: nat, out: seq<string>): (r: Result<Code>)
    requires IsBinary(n.kind) && Generable(n)
    decreases n, 0
  {
    var l :- Gen(n.lhs.value, c, out);
    var r :- Gen(n.rhs.value, l.next, l.lines);
    Ok(Code(Operator(n.kind, r.lines + ["  pop rdi"] + ["  pop rax"]) + ["  push rax"], r.next))
  }
}

/** The generator as an object: it appends to a buffer and keeps the label
    counter in a field, as Honyac/Generator.cs does. */
module Generators {
  import opened Wrappers
  import opened Ast
  import opened Decimal
  import opened CodeGen

  /** The output buffer (the source's StringBuilder), as the lines appended so far. */
  class Buffer {
    var lines: seq<string>

    constructor()
      ensures lines == []
    {
      lines := [];
    }

    method AppendLine(line: string)
      modifies this
      ensures lines == old(lines) + [line]
    {
      lines := lines + [line];
    }
  }

  /** A call that returned `ok` and left the buffer holding `after` and the
      counter at `counter` did what `spec` says. */
  predicate Emitted(spec: Result<Code>, ok: bool, after: seq<string>, counter: nat) {
    && ok == spec.Ok?
    && (ok ==> after == spec.value.lines && counter == spec.value.next)
  }

  class Generator {
    var counter: nat

    constructor()
      ensures counter == 1
    {
      counter := 1;
    }

    /** Hands out the current label number and advances the counter. */
    method Count() returns (k: nat)
      modifies this
      ensures k == old(counter) && counter == old(counter) + 1
    {
      k := counter;
      counter := counter + 1;
    }

    /** Pushes the address of a variable; fails on any other node. */
    method GenerateLval(sb: Buffer, node: Node) returns (ok: bool)
      modifies sb
      ensures ok == GenLval(node, old(sb.lines)).Ok?
      ensures ok ==> sb.lines == GenLval(node, old(sb.lines)).value
    {
      if node.kind != Lvar {
        return false;
      }
      sb.AppendLine("  mov rax, rbp");
      sb.AppendLine("  sub rax, " + IntToString(node.offset));
      sb.AppendLine("  push rax");
      ok := true;
    }

    method Generate(sb: Buffer, node: Node) returns (ok: bool)
      requires Generable(node)
      modifies this, sb
      ensures Emitted(Gen(node, old(counter), old(sb.lines)), ok, sb.lines, counter)
      decreases node, 1
    {
      match node.kind
      case Num =>
        sb.AppendLine("  push " + IntToString(node.value));
        ok := true;
      case Lvar =>
        ok := GenerateLval(sb, node);
        sb.AppendLine("  pop rax");
        sb.AppendLine("  mov rax, [rax]");
        sb.AppendLine("  push rax");
      case Assign =>
        ok := GenerateAssign(sb, node);
      case If =>
        ok := GenerateIf(sb, node);
      case While =>
        ok := GenerateWhile(sb, node);
      case For =>
        ok := GenerateFor(sb, node);
      case Return =>
        ok := Generate(sb, node.lhs.value);
        if !ok {
          return;
        }
        sb.AppendLine("  pop rax");
        sb.AppendLine("  mov rsp, rbp");
        sb.AppendLine("  pop rbp");
        sb.AppendLine("  ret");
      case Block =>
        ok := GenerateBlock(sb, node);
      case _ =>
        ok := GenerateBinary(sb, node);
    }

    method GenerateAssign(sb: Buffer, node: Node) returns (ok: bool)
      requires node.kind == Assign && Generable(node)
      modifies this, sb
      ensures Emitted(GenAssign(node, old(counter), old(sb.lines)), ok, sb.lines, counter)
      decreases node, 0
    {
      ok := GenerateLval(sb, node.lhs.value);
      if !ok {
        return;
      }
      ok := Generate(sb, node.rhs.value);
      if !ok {
        return;
      }
      sb.AppendLine("  pop rdi");
      sb.AppendLine("  pop rax");
      sb.AppendLine("  mov [rax], rdi");
      sb.AppendLine("  push rdi");
    }

    method GenerateIf(sb: Buffer, node: Node) returns (ok: bool)
      requires node.kind == If && Generable(node)
      modifies this, sb
      ensures Emitted(GenIf(node, old(counter), old(sb.lines)), ok, sb.lines, counter)
      decreases node, 0
    {
      var ifCnt := Count();
      ok := Generate(sb, node.condition.value);
      if !ok {
        return;
      }
      sb.AppendLine("  pop rax");
      sb.AppendLine("  cmp rax, 0");
      sb.AppendLine("  je " + Label(ElseTag, ifCnt));
      ok := Generate(sb, node.lhs.value);
      if !ok {
        return;
      }
      sb.AppendLine("  jmp " + Label(EndTag, ifCnt));
      sb.AppendLine(LabelLine(ElseTag, ifCnt));
      if node.rhs.Some? {
        ok := Generate(sb, node.rhs.value);
        if !ok {
          return;
        }
      }
      sb.AppendLine(LabelLine(EndTag, ifCnt));
    }

    method GenerateWhile(sb: Buffer, node: Node) returns (ok: bool)
      requires node.kind == While && Generable(node)
      modifies this, sb
      ensures Emitted(GenWhile(node, old(counter), old(sb.lines)), ok, sb.lines, counter)
      decreases node, 0
    {
      var whileCnt := Count();
      sb.AppendLine(LabelLine(WhileTag, whileCnt));
      ok := Generate(sb, node.condition.value);
      if !ok {
        return;
      }
      sb.AppendLine("  pop rax");
      sb.AppendLine("  cmp rax, 0");
      sb.AppendLine("  je " + Label(EndTag, whileCnt));
      ok := Generate(sb, node.lhs.value);
      if !ok {
        return;
      }
      sb.AppendLine("  jmp " + Label(WhileTag, whileCnt));
      sb.AppendLine(LabelLine(EndTag, whileCnt));
    }

    method GenerateFor(sb: Buffer, node: Node) returns (ok: bool)
      requires node.kind == For && Generable(node)
      modifies this, sb
      ensures Emitted(GenFor(node, old(counter), old(sb.lines)), ok, sb.lines, counter)
      decreases node, 0
    {
      var forCnt := Count();
      if node.initialize.Some? {
        ok := Generate(sb, node.initialize.value);
        if !ok {
          return;
        }
      }
      sb.AppendLine(LabelLine(ForTag, forCnt));
      ok := Generate(sb, node.condition.value);
      if !ok {
        return;
      }
      sb.AppendLine("  pop rax");
      sb.AppendLine("  cmp rax, 0");
      sb.AppendLine("  je " + Label(EndTag, forCnt));
      ok := Generate(sb, node.lhs.value);
      if !ok {
        return;
      }
      if node.loop.Some? {
        ok := Generate(sb, node.loop.value);
        if !ok {
          return;
        }
      }
      sb.AppendLine("  jmp " + Label(ForTag, forCnt));
      sb.AppendLine(LabelLine(EndTag, forCnt));
    }

    /** Every statement of the block, each followed by `pop rax` to drop the
        value it left on the stack. */
    method GenerateBlock(sb: Buffer, node: Node) returns (ok: bool)
      requires node.kind == Block && Generable(node)
      modifies this, sb
      ensures Emitted(GenBodies(node, 0, old(counter), old(sb.lines)), ok, sb.lines, counter)
      decreases node, 0
    {
      for i := 0 to |node.bodies|
        invariant GenBodies(node, 0, old(counter), old(sb.lines)) == GenBodies(node, i, counter, sb.lines)
      {
        ok := Generate(sb, node.bodies[i]);
        if !ok {
          return;
        }
        sb.AppendLine("  pop rax");
      }
      ok := true;
    }

    method GenerateBinary(sb: Buffer, node: Node) returns (ok: bool)
      requires IsBinary(node.kind) && Generable(node)
      modifies this, sb
      ensures Emitted(GenBinary(node, old(counter), old(sb.lines)), ok, sb.lines, counter)
      decreases node, 0
    {
      ok := Generate(sb, node.lhs.value);
      if !ok {
        return;
      }
      ok := Generate(sb, node.rhs.value);
      if !ok {
        return;
      }
      sb.AppendLine("  pop rdi");
      sb.AppendLine("  pop rax");
      AppendOperator(sb, node.kind);
      sb.AppendLine("  push rax");
    }

    /** The instructions of one binary operator. */
    static method AppendOperator(sb: Buffer, kind: NodeKind)
      requires IsBinary(kind)
      modifies sb
      ensures sb.lines == Operator(kind, old(sb.lines))
    {
      match kind {
        case Add =>
          sb.AppendLine("  add rax, rdi");
        case Sub =>
          sb.AppendLine("  sub rax, rdi");
        case Mul =>
          sb.AppendLine("  imul rax, rdi");
        case Div =>
          sb.AppendLine("  cqo");
          sb.AppendLine("  idiv rdi");
        case Eq =>
          sb.AppendLine("  cmp rax, rdi");
          sb.AppendLine("  sete al");
          sb.AppendLine("  movzb rax, al");
        case Ne =>
          sb.AppendLine("  cmp rax, rdi");
          sb.AppendLine("  setne al");
          sb.AppendLine("  movzb rax, al");
        case Lt =>
          sb.AppendLine("  cmp rax, rdi");
          sb.AppendLine("  setl al");
          sb.AppendLine("  movzb rax, al");
        case Le =>
          sb.AppendLine("  cmp rax, rdi");
          sb.AppendLine("  setle al");
          sb.AppendLine("  movzb rax, al");
      }
    }
  }
}
