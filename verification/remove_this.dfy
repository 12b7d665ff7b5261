/** The rewrite of src/helpers/removeThisHelper.js: every `this.x` below a
    node becomes the bare identifier `x`. Babel's in-place `replaceWith` is
    modelled as a function returning the rewritten tree. */
module RemoveThis {
  import opened Ast

  /** The trees the visitor can rewrite without throwing. It reads
      `path.parent.property.name` unguarded, so every ThisExpression it visits
      must be the object of a member access (plain or optional) whose property
      is an identifier. `path.traverse` never visits the root itself, so a bare
      root `this` is allowed. */
  predicate ThisOnlyAsObject(n: Node)
  {
    match n
    case Member(o, p, _) =>
      (o.This? ==> p.Ident?) && !p.This? && ThisOnlyAsObject(o) && ThisOnlyAsObject(p)
    case OptionalMember(o, p, _) =>
      (o.This? ==> p.Ident?) && !p.This? && ThisOnlyAsObject(o) && ThisOnlyAsObject(p)
    case ObjectLit(props) => ThisOnlyAsObjectProps(props)
    case Assign(_, l, r) =>
      !l.This? && !r.This? && ThisOnlyAsObject(l) && ThisOnlyAsObject(r)
    case Call(c, args) => !c.This? && ThisOnlyAsObject(c) && ThisOnlyAsObjectSeq(args)
    case Other(_, cs) => ThisOnlyAsObjectSeq(cs)
    case _ => true
  }

  predicate ThisOnlyAsObjectSeq(ns: seq<Node>)
  {
    ns == [] || (!ns[0].This? && ThisOnlyAsObject(ns[0]) && ThisOnlyAsObjectSeq(ns[1..]))
  }

  predicate ThisOnlyAsObjectProps(ps: seq<Prop>)
  {
    ps == [] || (ThisOnlyAsObjectProp(ps[0]) && ThisOnlyAsObjectProps(ps[1..]))
  }

  predicate ThisOnlyAsObjectProp(p: Prop)
  {
    match p
    case KeyValue(k, v, _) => !k.This? && !v.This? && ThisOnlyAsObject(k) && ThisOnlyAsObject(v)
    case Spread(a) => !a.This? && ThisOnlyAsObject(a)
  }

  /** A site the visitor replaces: `this.x`, `this[x]`, `this?.x` or `this?.[x]`
      with an identifier `x`. */
  predicate IsThisAccess(n: Node)
  {
    (n.Member? || n.OptionalMember?) && n.obj.This? && n.prop.Ident?
  }

  /** `r` is `n` with every `this`-access site replaced by its property
      identifier: everywhere else `r` has the same node kind, operator, kind
      label, `computed` flag and children, in the same order. */
  predicate Stripped(n: Node, r: Node)
  {
    if IsThisAccess(n) then r == Ident(n.prop.name)
    else match n
      case Member(o, p, c) => r.Member? && r.computed == c && Stripped(o, r.obj) && Stripped(p, r.prop)
      case OptionalMember(o, p, c) =>
        r.OptionalMember? && r.computed == c && Stripped(o, r.obj) && Stripped(p, r.prop)
      case ObjectLit(props) => r.ObjectLit? && StrippedProps(props, r.props)
      case Assign(op, l, rhs) => r.Assign? && r.op == op && Stripped(l, r.left) && Stripped(rhs, r.right)
      case Call(c, args) => r.Call? && Stripped(c, r.callee) && StrippedSeq(args, r.args)
      case Other(k, cs) => r.Other? && r.kind == k && StrippedSeq(cs, r.children)
      case _ => r == n
  }

  predicate StrippedSeq(ns: seq<Node>, rs: seq<Node>)
  {
    |ns| == |rs| && (ns == [] || (Stripped(ns[0], rs[0]) && StrippedSeq(ns[1..], rs[1..])))
  }

  predicate StrippedProps(ps: seq<Prop>, rs: seq<Prop>)
  {
    |ps| == |rs| && (ps == [] || (StrippedProp(ps[0], rs[0]) && StrippedProps(ps[1..], rs[1..])))
  }

  predicate StrippedProp(p: Prop, r: Prop)
  {
    match p
    case KeyValue(k, v, c) => r.KeyValue? && r.computed == c && Stripped(k, r.key) && Stripped(v, r.value)
    case Spread(a) => r.Spread? && Stripped(a, r.arg)
  }

  /** `removeThisExpression` / `thisExpressionVisitor`: each `this.x` (and
      `this[x]`, `this?.x`, since neither `computed` nor the optional chain is
      consulted) is replaced in place by the identifier `x`, and every other
      node keeps its shape. Each replacement turns three nodes into one, and
      no identifier name is lost or invented. */
  function RemoveThisExpression(n: Node): (r: Node)
    requires ThisOnlyAsObject(n)
    decreases n, 1
    ensures Stripped(n, r)
    ensures !n.This? ==> !HasThis(r)
    ensures !HasThis(n) ==> r == n
    ensures Names(r) == Names(n)
    ensures !n.This? ==> Size(r) + 2 * ThisCount(n) == Size(n)
  {
    match n
    case Member(_, _, _) => RemoveThisAccess(n)
    case OptionalMember(_, _, _) => RemoveThisAccess(n)
    case ObjectLit(props) => ObjectLit(RemoveThisProps(props))
    case Assign(op, l, rhs) => Assign(op, RemoveThisExpression(l), RemoveThisExpression(rhs))
    case Call(callee, args) => Call(RemoveThisExpression(callee), RemoveThisSeq(args))
    case Other(kind, cs) => Other(kind, RemoveThisSeq(cs))
    case _ => n
  }

  /** A member access: `this.x` itself becomes `x`; any other access keeps its
      kind and flag and has both of its parts rewritten. */
  function RemoveThisAccess(n: Node): (r: Node)
    requires n.Member? || n.OptionalMember?
    requires ThisOnlyAsObject(n)
    decreases n, 0
    ensures Stripped(n, r)
    ensures !HasThis(r)
    ensures !HasThis(n) ==> r == n
    ensures Names(r) == Names(n)
    ensures Size(r) + 2 * ThisCount(n) == Size(n)
  {
    if IsThisAccess(n) then
      assert HasThis(n.obj);
      Ident(n.prop.name)
    else
      var o, p := RemoveThisExpression(n.obj), RemoveThisExpression(n.prop);
      if n.Member? then Member(o, p, n.computed) else OptionalMember(o, p, n.computed)
  }

  function RemoveThisSeq(ns: seq<Node>): (r: seq<Node>)
    requires ThisOnlyAsObjectSeq(ns)
    ensures StrippedSeq(ns, r)
    ensures !HasThisSeq(r)
    ensures !HasThisSeq(ns) ==> r == ns
    ensures NamesSeq(r) == NamesSeq(ns)
    ensures SizeSeq(r) + 2 * ThisCountSeq(ns) == SizeSeq(ns)
  {
    if ns == [] then []
    else
      var r := [RemoveThisExpression(ns[0])] + RemoveThisSeq(ns[1..]);
      assert r[1..] == RemoveThisSeq(ns[1..]);
      r
  }

  function RemoveThisProps(ps: seq<Prop>): (r: seq<Prop>)
    requires ThisOnlyAsObjectProps(ps)
    ensures StrippedProps(ps, r)
    ensures !HasThisProps(r)
    ensures !HasThisProps(ps) ==> r == ps
    ensures NamesProps(r) == NamesProps(ps)
    ensures SizeProps(r) + 2 * ThisCountProps(ps) == SizeProps(ps)
  {
    if ps == [] then []
    else
      var r := [RemoveThisProp(ps[0])] + RemoveThisProps(ps[1..]);
      assert r[1..] == RemoveThisProps(ps[1..]);
      r
  }

  function RemoveThisProp(p: Prop): (r: Prop)
    requires ThisOnlyAsObjectProp(p)
    ensures StrippedProp(p, r)
    ensures !HasThisProp(r)
    ensures !HasThisProp(p) ==> r == p
    ensures NamesProp(r) == NamesProp(p)
    ensures SizeProp(r) + 2 * ThisCountProp(p) == SizeProp(p)
  {
    match p
    case KeyValue(k, v, c) => KeyValue(RemoveThisExpression(k), RemoveThisExpression(v), c)
    case Spread(a) => Spread(RemoveThisExpression(a))
  }

  /** The relation pins the rewrite down: a tree has at most one stripped form. */
  lemma {:induction false} StrippedIsFunctional(n: Node, r1: Node, r2: Node)
    requires Stripped(n, r1) && Stripped(n, r2)
    ensures r1 == r2
  {
    if !IsThisAccess(n) {
      match n
      case Member(o, p, _) =>
        StrippedIsFunctional(o, r1.obj, r2.obj);
        StrippedIsFunctional(p, r1.prop, r2.prop);
      case OptionalMember(o, p, _) =>
        StrippedIsFunctional(o, r1.obj, r2.obj);
        StrippedIsFunctional(p, r1.prop, r2.prop);
      case ObjectLit(props) => StrippedPropsIsFunctional(props, r1.props, r2.props);
      case Assign(_, l, rhs) =>
        StrippedIsFunctional(l, r1.left, r2.left);
        StrippedIsFunctional(rhs, r1.right, r2.right);
      case Call(c, args) =>
        StrippedIsFunctional(c, r1.callee, r2.callee);
        StrippedSeqIsFunctional(args, r1.args, r2.args);
      case Other(_, cs) => StrippedSeqIsFunctional(cs, r1.children, r2.children);
      case _ =>
    }
  }

  lemma {:induction false} StrippedSeqIsFunctional(ns: seq<Node>, rs1: seq<Node>, rs2: seq<Node>)
    requires StrippedSeq(ns, rs1) && StrippedSeq(ns, rs2)
    ensures rs1 == rs2
  {
    if ns != [] {
      StrippedIsFunctional(ns[0], rs1[0], rs2[0]);
      StrippedSeqIsFunctional(ns[1..], rs1[1..], rs2[1..]);
      assert rs1 == [rs1[0]] + rs1[1..] && rs2 == [rs2[0]] + rs2[1..];
    }
  }

  lemma {:induction false} StrippedPropsIsFunctional(ps: seq<Prop>, rs1: seq<Prop>, rs2: seq<Prop>)
    requires StrippedProps(ps, rs1) && StrippedProps(ps, rs2)
    ensures rs1 == rs2
  {
    if ps != [] {
      StrippedPropIsFunctional(ps[0], rs1[0], rs2[0]);
      StrippedPropsIsFunctional(ps[1..], rs1[1..], rs2[1..]);
      assert rs1 == [rs1[0]] + rs1[1..] && rs2 == [rs2[0]] + rs2[1..];
    }
  }

  lemma {:induction false} StrippedPropIsFunctional(p: Prop, r1: Prop, r2: Prop)
    requires StrippedProp(p, r1) && StrippedProp(p, r2)
    ensures r1 == r2
  {
    match p
    case KeyValue(k, v, _) =>
      StrippedIsFunctional(k, r1.key, r2.key);
      StrippedIsFunctional(v, r1.value, r2.value);
    case Spread(a) => StrippedIsFunctional(a, r1.arg, r2.arg);
  }

  /** A tree without `this` is always accepted by the visitor. */
  lemma {:induction false} ThisFreeIsAccepted(n: Node)
    requires !HasThis(n)
    ensures ThisOnlyAsObject(n)
  {
    match n
    case Member(o, p, _) =>
      ThisFreeIsAccepted(o);
      ThisFreeIsAccepted(p);
    case OptionalMember(o, p, _) =>
      ThisFreeIsAccepted(o);
      ThisFreeIsAccepted(p);
    case ObjectLit(props) => ThisFreePropsAreAccepted(props);
    case Assign(_, l, r) =>
      ThisFreeIsAccepted(l);
      ThisFreeIsAccepted(r);
    case Call(c, args) =>
      ThisFreeIsAccepted(c);
      ThisFreeSeqIsAccepted(args);
    case Other(_, cs) => ThisFreeSeqIsAccepted(cs);
    case _ =>
  }

  lemma {:induction false} ThisFreeSeqIsAccepted(ns: seq<Node>)
    requires !HasThisSeq(ns)
    ensures ThisOnlyAsObjectSeq(ns)
  {
    if ns != [] {
      ThisFreeIsAccepted(ns[0]);
      ThisFreeSeqIsAccepted(ns[1..]);
    }
  }

  lemma {:induction false} ThisFreePropsAreAccepted(ps: seq<Prop>)
    requires !HasThisProps(ps)
    ensures ThisOnlyAsObjectProps(ps)
  {
    if ps != [] {
      ThisFreePropIsAccepted(ps[0]);
      ThisFreePropsAreAccepted(ps[1..]);
    }
  }

  lemma {:induction false} ThisFreePropIsAccepted(p: Prop)
    requires !HasThisProp(p)
    ensures ThisOnlyAsObjectProp(p)
  {
    match p
    case KeyValue(k, v, _) =>
      ThisFreeIsAccepted(k);
      ThisFreeIsAccepted(v);
    case Spread(a) => ThisFreeIsAccepted(a);
  }

  /** Running the rewrite a second time changes nothing. */
  lemma RemoveThisIdempotent(n: Node)
    requires ThisOnlyAsObject(n)
    ensures ThisOnlyAsObject(RemoveThisExpression(n))
    ensures RemoveThisExpression(RemoveThisExpression(n)) == RemoveThisExpression(n)
  {
    var r := RemoveThisExpression(n);
    if !n.This? {
      ThisFreeIsAccepted(r);
    }
  }

  /** The cases the unit tests pin down, plus `this.state.count` and the
      computed access `this[key]`, whose brackets are dropped, and the optional
      access `this?.foo`. */
  lemma RemoveThisExamples()
    ensures RemoveThisExpression(Member(This, Ident("foo"), false)) == Ident("foo")
    ensures RemoveThisExpression(Member(Member(This, Ident("foo"), false), Ident("bar"), false))
            == Member(Ident("foo"), Ident("bar"), false)
    ensures RemoveThisExpression(Member(Ident("foo"), Ident("bar"), false))
            == Member(Ident("foo"), Ident("bar"), false)
    ensures RemoveThisExpression(Member(Member(This, Ident("state"), false), Ident("count"), false))
            == Member(Ident("state"), Ident("count"), false)
    ensures RemoveThisExpression(Member(This, Ident("key"), true)) == Ident("key")
    ensures RemoveThisExpression(OptionalMember(This, Ident("foo"), false)) == Ident("foo")
  {
  }
}
