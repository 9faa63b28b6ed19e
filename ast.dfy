/** The syntax tree of Honyac/NodeMap.cs: node kinds, local variables, the
    node record with all its optional fields, and the three node builders. */
module Ast {
  import opened Wrappers
  import Types

  datatype NodeKind =
    | Add | Sub | Mul | Div | Eq | Ne | Lt | Le | Assign
    | If | While | For | Return | Block | FuncCall | Function
    | Lvar | Addr | DeRef | Type | Num

  /** A local variable or parameter. `argIndex` is the parameter position,
      or -1 for a variable declared in the body. */
  datatype LVar = LVar(
    name: string,
    kind: Types.TypeKind,
    offset: int,
    pointerCount: int,
    arraySize: int,
    argIndex: int)

  /** A node. `lhs` and `rhs` are the two items of the source's `Nodes`
      pair, absent when the pair or the item is null. `bodies` (a block's
      statements) and `arguments` (a call's arguments, in the order they are
      pushed) are empty on every other kind of node. */
  datatype Node = Node(
    kind: NodeKind,
    lhs: Option<Node>,
    rhs: Option<Node>,
    value: int,
    offset: int,
    condition: Option<Node>,
    initialize: Option<Node>,
    loop: Option<Node>,
    bodies: seq<Node>,
    funcName: Option<string>,
    lvars: Option<seq<LVar>>,
    lvar: Option<LVar>,
    arguments: seq<Node>)

  /** `new Node()` with its kind set: every other field at its default. */
  function Blank(kind: NodeKind): Node {
    Node(kind, None, None, 0, 0, None, None, None, [], None, None, None, [])
  }

  /** A node of kind `kind` over its two children; it sets neither a value
      nor an offset. */
  function NewNode(kind: NodeKind, lhs: Node, rhs: Option<Node>): (n: Node)
    ensures n.kind == kind && n.lhs == Some(lhs) && n.rhs == rhs
    ensures n.value == 0 && n.offset == 0 && n.lvar.None?
  {
    Blank(kind).(lhs := Some(lhs), rhs := rhs)
  }

  /** A childless number node; the only builder that sets a value. */
  function NewNodeNum(value: int): (n: Node)
    ensures n.kind == Num && n.value == value && n.offset == 0
    ensures n.lhs.None? && n.rhs.None? && n.lvar.None?
  {
    Blank(Num).(value := value)
  }

  /** A childless reference to `v`; the only builder that sets an offset,
      which it copies from the variable. */
  function NewNodeIdent(v: LVar): (n: Node)
    ensures n.kind == Lvar && n.lvar == Some(v) && n.offset == v.offset && n.value == 0
    ensures n.lhs.None? && n.rhs.None?
  {
    Blank(Lvar).(offset := v.offset, lvar := Some(v))
  }

  /** The fields a node's own builder may set: `value` only on a number,
      `offset` only on a variable reference, where it is the offset of the
      variable it refers to, and that variable is in the local table. A
      declaration node (`Type`) refers to a variable of the table too, but
      keeps offset 0. */
  predicate LocallyTidy(n: Node, table: seq<LVar>) {
    && (n.kind != Num ==> n.value == 0)
    && (n.kind != Lvar ==> n.offset == 0)
    && (n.kind == Lvar || n.kind == Type ==> n.lvar.Some? && n.lvar.value in table)
    && (n.kind == Lvar ==> n.offset == n.lvar.value.offset)
  }

  /** `LocallyTidy` holds at every node of a statement or expression tree. */
  predicate Tidy(n: Node, table: seq<LVar>)
    decreases n
  {
    && LocallyTidy(n, table)
    && (n.lhs.Some? ==> Tidy(n.lhs.value, table))
    && (n.rhs.Some? ==> Tidy(n.rhs.value, table))
    && (n.condition.Some? ==> Tidy(n.condition.value, table))
    && (n.initialize.Some? ==> Tidy(n.initialize.value, table))
    && (n.loop.Some? ==> Tidy(n.loop.value, table))
    && (forall i | 0 <= i < |n.bodies| :: Tidy(n.bodies[i], table))
    && (forall i | 0 <= i < |n.arguments| :: Tidy(n.arguments[i], table))
  }

  // The builders keep tidiness. These facts are stated as implications so
  // that a caller has no preconditions to discharge.

  /** A node built by `NewNode` over tidy children is tidy, unless it is a
      variable reference or a declaration, which need a variable. */
  lemma NewNodeTidy(kind: NodeKind, lhs: Node, rhs: Option<Node>, table: seq<LVar>)
    ensures kind != Lvar && kind != Type && Tidy(lhs, table) && (rhs.Some? ==> Tidy(rhs.value, table)) ==>
      Tidy(NewNode(kind, lhs, rhs), table)
  {
  }

  lemma NewNodeNumTidy(value: int, table: seq<LVar>)
    ensures Tidy(NewNodeNum(value), table)
  {
  }

  lemma NewNodeIdentTidy(v: LVar, table: seq<LVar>)
    ensures v in table ==> Tidy(NewNodeIdent(v), table)
  {
  }

  /** A call is tidy when its arguments are. */
  lemma CallTidy(name: string, args: seq<Node>, table: seq<LVar>)
    ensures AllTidy(args, table) ==>
      Tidy(Blank(FuncCall).(funcName := Some(name), arguments := args), table)
  {
  }

  /** An `if` node is tidy when its condition and its branches are. */
  lemma IfTidy(cond: Node, thenArm: Node, otherwise: Option<Node>, table: seq<LVar>)
    ensures Tidy(cond, table) && Tidy(thenArm, table) && (otherwise.Some? ==> Tidy(otherwise.value, table)) ==>
      Tidy(Blank(If).(condition := Some(cond), lhs := Some(thenArm), rhs := otherwise), table)
  {
  }
  /** Every node of a statement or argument list is tidy. */
  predicate AllTidy(ns: seq<Node>, table: seq<LVar>) {
    forall i | 0 <= i < |ns| :: Tidy(ns[i], table)
  }

  /** A tidy node in front of a tidy list keeps the list tidy. */
  lemma AllTidyCons(n: Node, ns: seq<Node>, table: seq<LVar>)
    ensures Tidy(n, table) && AllTidy(ns, table) ==> AllTidy([n] + ns, table)
  {
    if Tidy(n, table) && AllTidy(ns, table) {
      forall i | 0 <= i < |[n] + ns|
        ensures Tidy(([n] + ns)[i], table)
      {
        if i > 0 {
          assert ([n] + ns)[i] == ns[i - 1];
        }
      }
    }
  }
  /** A block is tidy when its statements are. */
  lemma BlockNodeTidy(ns: seq<Node>, table: seq<LVar>)
    ensures AllTidy(ns, table) ==> Tidy(Blank(Block).(bodies := ns), table)
  {
  }
}
