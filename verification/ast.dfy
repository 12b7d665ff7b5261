/** The fragment of the Babel syntax tree that the helpers read and build. */
module Ast {
  import opened Wrappers

  /** An expression or statement node. Node kinds the helpers never look
      inside are `Other`, which keeps its children in Babel's visiting order.
      `OptionalMember` does not represent Babel's `optional` flag (which link
      of a chain carries `?.`), since no helper reads it. */
  datatype Node =
    | This                                          // ThisExpression
    | Ident(name: string)                           // Identifier
    | StringLit(text: string)                       // StringLiteral
    | NumericLit(number: int)                       // NumericLiteral
    | Member(obj: Node, prop: Node, computed: bool) // MemberExpression
    | OptionalMember(obj: Node, prop: Node, computed: bool) // OptionalMemberExpression, `a?.b`
    | ObjectLit(props: seq<Prop>)                   // ObjectExpression
    | Assign(op: string, left: Node, right: Node)   // AssignmentExpression
    | Call(callee: Node, args: seq<Node>)           // CallExpression
    | Other(kind: string, children: seq<Node>)      // any other node

  /** A member of an object literal: `key: value` (ObjectProperty) or `...arg`
      (SpreadElement, which has no `key`). */
  datatype Prop =
    | KeyValue(key: Node, value: Node, computed: bool)
    | Spread(arg: Node)

  /** A class declaration: its `id` (absent for `export default class {}`),
      its `superClass` and its body members. */
  datatype ClassDecl = ClassDecl(id: Option<string>, superClass: Option<Node>, members: seq<Node>)

  /** `node.name`, which only identifiers define. */
  function NameOf(n: Node): Option<string>
  {
    if n.Ident? then Some(n.name) else None
  }

  /** Does a ThisExpression occur anywhere in the tree? */
  predicate HasThis(n: Node)
  {
    match n
    case This => true
    case Member(o, p, _) => HasThis(o) || HasThis(p)
    case OptionalMember(o, p, _) => HasThis(o) || HasThis(p)
    case ObjectLit(props) => HasThisProps(props)
    case Assign(_, l, r) => HasThis(l) || HasThis(r)
    case Call(c, args) => HasThis(c) || HasThisSeq(args)
    case Other(_, cs) => HasThisSeq(cs)
    case _ => false
  }

  predicate HasThisSeq(ns: seq<Node>)
  {
    if ns == [] then false else HasThis(ns[0]) || HasThisSeq(ns[1..])
  }

  predicate HasThisProps(ps: seq<Prop>)
  {
    if ps == [] then false else HasThisProp(ps[0]) || HasThisProps(ps[1..])
  }

  predicate HasThisProp(p: Prop)
  {
    match p
    case KeyValue(k, v, _) => HasThis(k) || HasThis(v)
    case Spread(a) => HasThis(a)
  }

  /** Number of ThisExpression nodes in the tree. */
  function ThisCount(n: Node): nat
  {
    match n
    case This => 1
    case Member(o, p, _) => ThisCount(o) + ThisCount(p)
    case OptionalMember(o, p, _) => ThisCount(o) + ThisCount(p)
    case ObjectLit(props) => ThisCountProps(props)
    case Assign(_, l, r) => ThisCount(l) + ThisCount(r)
    case Call(c, args) => ThisCount(c) + ThisCountSeq(args)
    case Other(_, cs) => ThisCountSeq(cs)
    case _ => 0
  }

  function ThisCountSeq(ns: seq<Node>): nat
  {
    if ns == [] then 0 else ThisCount(ns[0]) + ThisCountSeq(ns[1..])
  }

  function ThisCountProps(ps: seq<Prop>): nat
  {
    if ps == [] then 0 else ThisCountProp(ps[0]) + ThisCountProps(ps[1..])
  }

  function ThisCountProp(p: Prop): nat
  {
    match p
    case KeyValue(k, v, _) => ThisCount(k) + ThisCount(v)
    case Spread(a) => ThisCount(a)
  }

  /** Number of nodes in the tree, object-literal members included. */
  function Size(n: Node): nat
  {
    match n
    case Member(o, p, _) => 1 + Size(o) + Size(p)
    case OptionalMember(o, p, _) => 1 + Size(o) + Size(p)
    case ObjectLit(props) => 1 + SizeProps(props)
    case Assign(_, l, r) => 1 + Size(l) + Size(r)
    case Call(c, args) => 1 + Size(c) + SizeSeq(args)
    case Other(_, cs) => 1 + SizeSeq(cs)
    case _ => 1
  }

  function SizeSeq(ns: seq<Node>): nat
  {
    if ns == [] then 0 else Size(ns[0]) + SizeSeq(ns[1..])
  }

  function SizeProps(ps: seq<Prop>): nat
  {
    if ps == [] then 0 else SizeProp(ps[0]) + SizeProps(ps[1..])
  }

  function SizeProp(p: Prop): nat
  {
    match p
    case KeyValue(k, v, _) => 1 + Size(k) + Size(v)
    case Spread(a) => 1 + Size(a)
  }

  /** The names of all identifiers in the tree. */
  function Names(n: Node): set<string>
  {
    match n
    case Ident(x) => {x}
    case Member(o, p, _) => Names(o) + Names(p)
    case OptionalMember(o, p, _) => Names(o) + Names(p)
    case ObjectLit(props) => NamesProps(props)
    case Assign(_, l, r) => Names(l) + Names(r)
    case Call(c, args) => Names(c) + NamesSeq(args)
    case Other(_, cs) => NamesSeq(cs)
    case _ => {}
  }

  function NamesSeq(ns: seq<Node>): set<string>
  {
    if ns == [] then {} else Names(ns[0]) + NamesSeq(ns[1..])
  }

  function NamesProps(ps: seq<Prop>): set<string>
  {
    if ps == [] then {} else NamesProp(ps[0]) + NamesProps(ps[1..])
  }

  function NamesProp(p: Prop): set<string>
  {
    match p
    case KeyValue(k, v, _) => Names(k) + Names(v)
    case Spread(a) => Names(a)
  }
}
