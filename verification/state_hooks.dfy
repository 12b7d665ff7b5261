/** Setter naming and the extraction of `this.state = {...}` assignments into
    state-hook declarations (src/helpers/stateHooksHelper.js). The template
    `const [GETTER, SETTER] = useState(DEFAULT_VALUE);` is represented by the
    `HookDecl` of its three substitutions. */
module StateHooks {
  import opened Wrappers
  import opened Ast

  /** One `const [getter, setter] = useState(init);` declaration: the names
      handed to `t.identifier` and the initial value, shared with the input
      tree. */
  datatype HookDecl = HookDecl(getter: string, setter: string, init: Node)

  /** `toUpperCase` on a single character, restricted to ASCII letters. */
  function ToUpper(c: char): char
  {
    if 'a' <= c <= 'z' then (c as int - 32) as char else c
  }

  /** The inverse of `ToUpper` on ASCII letters; used only to read a setter
      name back in `GetterFromSetter`. */
  function ToLower(c: char): char
  {
    if 'A' <= c <= 'Z' then (c as int + 32) as char else c
  }

  // ---------------------------------------------------------------------------
  // generateSetterName

  /** `generateSetterName`: `"set"` followed by the name with its first character
      upper-cased, or null for an absent or empty name. */
  function GenerateSetterName(propName: Option<string>): (r: Option<string>)
    ensures r.None? <==> propName.None? || |propName.value| == 0
    ensures r.Some? ==>
      && |r.value| == |propName.value| + 3
      && r.value[..3] == "set"
      && r.value[3] == ToUpper(propName.value[0])
      && r.value[4..] == propName.value[1..]
  {
    if propName.Some? && |propName.value| > 0 then
      var name := propName.value;
      var sliced := if |name| > 1 then name[1..] else "";
      Some("set" + [ToUpper(name[0])] + sliced)
    else
      None
  }

  /** Reads a setter name back as the state field it was derived from. */
  function GetterFromSetter(setter: string): (r: Option<string>)
    ensures r.Some? <==> |setter| >= 4 && setter[..3] == "set"
    ensures r.Some? ==> |r.value| + 3 == |setter|
  {
    if |setter| >= 4 && setter[..3] == "set" then Some([ToLower(setter[3])] + setter[4..])
    else None
  }

  /** For a field whose first character is not an upper-case letter, the setter
      name determines the field: deriving and reading back is the identity. */
  lemma SetterNameRoundTrip(name: string)
    requires |name| > 0 && !('A' <= name[0] <= 'Z')
    ensures GenerateSetterName(Some(name)).Some?
    ensures GetterFromSetter(GenerateSetterName(Some(name)).value) == Some(name)
  {
    var s := GenerateSetterName(Some(name)).value;
    assert ToLower(s[3]) == name[0];
    assert [ToLower(s[3])] + s[4..] == [name[0]] + name[1..] == name;
  }

  /** Two non-empty fields get the same setter exactly when they agree after
      the first character and their first characters upper-case alike. */
  lemma SetterNamesAgree(a: string, b: string)
    requires |a| > 0 && |b| > 0
    ensures GenerateSetterName(Some(a)) == GenerateSetterName(Some(b))
            <==> ToUpper(a[0]) == ToUpper(b[0]) && a[1..] == b[1..]
  {
  }

  /** The unit-tested cases, and a collision the derivation cannot avoid. */
  lemma SetterNameExamples()
    ensures GenerateSetterName(Some("name")) == Some("setName")
    ensures GenerateSetterName(Some("a")) == Some("setA")
    ensures GenerateSetterName(Some("")) == None
    ensures GenerateSetterName(None) == None
    ensures GenerateSetterName(Some("count")) == GenerateSetterName(Some("Count")) == Some("setCount")
  {
    assert ToUpper('n') == 'N' && ToUpper('a') == 'A' && ToUpper('c') == 'C' && ToUpper('C') == 'C';
    assert "set" + ['N'] + "ame" == "setName";
    assert "set" + ['A'] + "" == "setA";
    assert "set" + ['C'] + "ount" == "setCount";
  }

  // ---------------------------------------------------------------------------
  // memberExpressionIsState, isStateAssignmentExpression

  /** `memberExpressionIsState`: the node's `object` is `this` and its
      `property` is named `state`. Only member accesses, plain or optional,
      have those fields. The `computed` flag is never read, so `this[state]`
      is accepted as well as `this.state`. */
  function MemberExpressionIsState(m: Node): (r: bool)
    ensures r <==> || m == Member(This, Ident("state"), false)
                   || m == Member(This, Ident("state"), true)
                   || m == OptionalMember(This, Ident("state"), false)
                   || m == OptionalMember(This, Ident("state"), true)
  {
    var hasObjectAndProperty := m.Member? || m.OptionalMember?;
    var hasThisExpression := hasObjectAndProperty && m.obj.This?;
    var hasPropertyState := hasObjectAndProperty && NameOf(m.prop) == Some("state");
    hasThisExpression && hasPropertyState
  }

  /** `isStateAssignmentExpression`: plain `=` into `this.state`. */
  function IsStateAssignmentExpression(a: Node): (r: bool)
    requires a.Assign?
    ensures r <==> && a.op == "="
                   && (a.left.Member? || a.left.OptionalMember?)
                   && a.left.obj == This
                   && a.left.prop == Ident("state")
  {
    var isEqualOperator := a.op == "=";
    var leftIsState := MemberExpressionIsState(a.left);
    isEqualOperator && leftIsState
  }

  /** Compound operators and assignments to a field of the state are not state
      assignments; the computed `this[state]` is. */
  lemma StateAssignmentShapes(rhs: Node)
    ensures !IsStateAssignmentExpression(Assign("+=", Member(This, Ident("state"), false), rhs))
    ensures !IsStateAssignmentExpression(
      Assign("=", Member(Member(This, Ident("state"), false), Ident("foo"), false), rhs))
    ensures !IsStateAssignmentExpression(Assign("=", Member(Ident("self"), Ident("state"), false), rhs))
    ensures IsStateAssignmentExpression(Assign("=", Member(This, Ident("state"), true), rhs))
  {
  }

  // ---------------------------------------------------------------------------
  // generateStateHook, generateStateHooks

  /** The naming invariant every hook declaration should keep. */
  predicate WellPaired(h: HookDecl)
  {
    GenerateSetterName(Some(h.getter)) == Some(h.setter)
  }

  predicate AllWellPaired(hs: seq<HookDecl>)
  {
    forall i :: 0 <= i < |hs| ==> WellPaired(hs[i])
  }

  /** A well-paired declaration has a non-empty getter, and unless the getter
      starts with an upper-case letter its setter names it. */
  lemma WellPairedNames(h: HookDecl)
    requires WellPaired(h)
    ensures h.getter != ""
    ensures !('A' <= h.getter[0] <= 'Z') ==> GetterFromSetter(h.setter) == Some(h.getter)
  {
    if !('A' <= h.getter[0] <= 'Z') {
      SetterNameRoundTrip(h.getter);
    }
  }

  /** A property `generateStateHook` turns into a declaration: it has a `key`
      (a spread element does not), the key is an identifier, so
      `t.identifier` receives a string getter, and its name is non-empty, so
      the derived setter is a string rather than null. */
  predicate HasHookKey(p: Prop)
  {
    p.KeyValue? && p.key.Ident? && p.key.name != ""
  }

  /** `generateStateHook`: getter is the key's name, setter is derived from it,
      the initializer is the property's value. Reading `prop.key.name` of a
      spread element throws; a key that is not an identifier, or an empty
      name, makes `t.identifier` reject the undefined getter or the null
      setter. */
  function GenerateStateHook(prop: Prop): (r: Result<HookDecl>)
    ensures r.Success? <==> HasHookKey(prop)
    ensures prop.Spread? ==> r == Failure(MissingProperty("prop.key.name"))
    ensures prop.KeyValue? && !HasHookKey(prop) ==> r == Failure(NotAString("name"))
    ensures r.Success? ==>
      && WellPaired(r.value)
      && r.value.getter == prop.key.name
      && r.value.init == prop.value
  {
    match prop
    case Spread(_) => Failure(MissingProperty("prop.key.name"))
    case KeyValue(key, value, _) =>
      var getterName := NameOf(key);
      var setterName := GenerateSetterName(getterName);
      if getterName.None? || setterName.None? then Failure(NotAString("name"))
      else Success(HookDecl(getterName.value, setterName.value, value))
  }

  /** The tested declarations: string, numeric and object-literal values; and
      a string-literal key, which the identifier builder rejects. */
  lemma GenerateStateHookExamples()
    ensures GenerateStateHook(KeyValue(Ident("propName"), StringLit("propValue"), false))
            == Success(HookDecl("propName", "setPropName", StringLit("propValue")))
    ensures GenerateStateHook(KeyValue(Ident("propName"), NumericLit(0), false))
            == Success(HookDecl("propName", "setPropName", NumericLit(0)))
    ensures GenerateStateHook(KeyValue(Ident("propName"),
                                       ObjectLit([KeyValue(Ident("foo"), StringLit("bar"), false)]), false))
            == Success(HookDecl("propName", "setPropName",
                                ObjectLit([KeyValue(Ident("foo"), StringLit("bar"), false)])))
    ensures GenerateStateHook(KeyValue(StringLit("count"), NumericLit(0), false))
            == Failure(NotAString("name"))
  {
    assert ToUpper('p') == 'P';
    assert "set" + ['P'] + "ropName" == "setPropName";
  }

  /** `stateProps.map(generateStateHook)`: one declaration per property, in
      order; the first property without a usable key throws. */
  function GenerateHookList(props: seq<Prop>): (r: Result<seq<HookDecl>>)
    ensures r.Success? <==> forall i :: 0 <= i < |props| ==> HasHookKey(props[i])
    ensures r.Success? ==>
      && |r.value| == |props|
      && forall i :: 0 <= i < |props| ==> GenerateStateHook(props[i]) == Success(r.value[i])
  {
    if props == [] then Success([])
    else
      var first := GenerateStateHook(props[0]);
      if first.Failure? then Failure(first.error)
      else Append(Success([first.value]), GenerateHookList(props[1..]))
  }

  /** `(right || {}).properties || []`: the properties of an object-literal right
      side, and none for any other right side. */
  function StateProps(right: Node): seq<Prop>
  {
    if right.ObjectLit? then right.props else []
  }

  /** `generateStateHooks`: one declaration per property of the right-hand object
      literal, in literal order, each well paired; no declarations when the right
      side is not an object literal. */
  function GenerateStateHooks(a: Node): (r: Result<seq<HookDecl>>)
    requires a.Assign?
    ensures !a.right.ObjectLit? ==> r == Success([])
    ensures r.Success? <==> forall i :: 0 <= i < |StateProps(a.right)| ==> HasHookKey(StateProps(a.right)[i])
    ensures r.Success? ==>
      && |r.value| == |StateProps(a.right)|
      && AllWellPaired(r.value)
      && forall i :: 0 <= i < |r.value| ==>
           && HasHookKey(StateProps(a.right)[i])
           && r.value[i].getter == StateProps(a.right)[i].key.name
           && r.value[i].init == StateProps(a.right)[i].value
  {
    GenerateHookList(StateProps(a.right))
  }

  // ---------------------------------------------------------------------------
  // exportStateOutOfConstructor / constructorVisitor

  /** What the visitor pushes on entering `n`. */
  function HooksAt(n: Node): Result<seq<HookDecl>>
  {
    if n.Assign? && IsStateAssignmentExpression(n) then GenerateStateHooks(n) else Success([])
  }

  /** The pre-order traversal of `path.traverse`: the hooks of a node, then
      those of its children in Babel's visiting order. */
  function Visit(n: Node): (r: Result<seq<HookDecl>>)
    decreases n, 1
    ensures r.Success? ==> AllWellPaired(r.value)
  {
    Append(HooksAt(n), VisitChildren(n))
  }

  function VisitChildren(n: Node): (r: Result<seq<HookDecl>>)
    decreases n, 0
    ensures r.Success? ==> AllWellPaired(r.value)
  {
    match n
    case Member(o, p, _) => Append(Visit(o), Visit(p))
    case OptionalMember(o, p, _) => Append(Visit(o), Visit(p))
    case ObjectLit(props) => VisitProps(props)
    case Assign(_, l, rhs) => Append(Visit(l), Visit(rhs))
    case Call(c, args) => Append(Visit(c), VisitSeq(args))
    case Other(_, cs) => VisitSeq(cs)
    case _ => Success([])
  }

  function VisitSeq(ns: seq<Node>): (r: Result<seq<HookDecl>>)
    decreases ns
    ensures r.Success? ==> AllWellPaired(r.value)
  {
    if ns == [] then Success([]) else Append(Visit(ns[0]), VisitSeq(ns[1..]))
  }

  function VisitProps(ps: seq<Prop>): (r: Result<seq<HookDecl>>)
    decreases ps
    ensures r.Success? ==> AllWellPaired(r.value)
  {
    if ps == [] then Success([]) else Append(VisitProp(ps[0]), VisitProps(ps[1..]))
  }

  function VisitProp(p: Prop): (r: Result<seq<HookDecl>>)
    decreases p
    ensures r.Success? ==> AllWellPaired(r.value)
  {
    match p
    case KeyValue(k, v, _) => Append(Visit(k), Visit(v))
    case Spread(a) => Visit(a)
  }

  /** `exportStateOutOfConstructor`: the hooks of every state assignment below
      the constructor node (the node itself is not visited), in traversal
      order, every one well paired. */
  function ExportStateOutOfConstructor(ctor: Node): (r: Result<seq<HookDecl>>)
    ensures r.Success? ==> AllWellPaired(r.value)
  {
    VisitChildren(ctor)
  }

  // ---------------------------------------------------------------------------
  // Reference definition: list the state assignments first, then generate

  /** The state assignments of a tree, in the order `path.traverse` enters them. */
  function StateAssignments(n: Node): (r: seq<Node>)
    decreases n, 1
    ensures forall i :: 0 <= i < |r| ==> r[i].Assign? && IsStateAssignmentExpression(r[i])
  {
    (if n.Assign? && IsStateAssignmentExpression(n) then [n] else []) + StateAssignmentsBelow(n)
  }

  /** The state assignments strictly below `n`. */
  function StateAssignmentsBelow(n: Node): (r: seq<Node>)
    decreases n, 0
    ensures forall i :: 0 <= i < |r| ==> r[i].Assign? && IsStateAssignmentExpression(r[i])
  {
    match n
    case Member(o, p, _) => StateAssignments(o) + StateAssignments(p)
    case OptionalMember(o, p, _) => StateAssignments(o) + StateAssignments(p)
    case ObjectLit(props) => StateAssignmentsProps(props)
    case Assign(_, l, rhs) => StateAssignments(l) + StateAssignments(rhs)
    case Call(c, args) => StateAssignments(c) + StateAssignmentsSeq(args)
    case Other(_, cs) => StateAssignmentsSeq(cs)
    case _ => []
  }

  function StateAssignmentsSeq(ns: seq<Node>): (r: seq<Node>)
    decreases ns
    ensures forall i :: 0 <= i < |r| ==> r[i].Assign? && IsStateAssignmentExpression(r[i])
  {
    if ns == [] then [] else StateAssignments(ns[0]) + StateAssignmentsSeq(ns[1..])
  }

  function StateAssignmentsProps(ps: seq<Prop>): (r: seq<Node>)
    decreases ps
    ensures forall i :: 0 <= i < |r| ==> r[i].Assign? && IsStateAssignmentExpression(r[i])
  {
    if ps == [] then [] else StateAssignmentsProp(ps[0]) + StateAssignmentsProps(ps[1..])
  }

  function StateAssignmentsProp(p: Prop): (r: seq<Node>)
    decreases p
    ensures forall i :: 0 <= i < |r| ==> r[i].Assign? && IsStateAssignmentExpression(r[i])
  {
    match p
    case KeyValue(k, v, _) => StateAssignments(k) + StateAssignments(v)
    case Spread(a) => StateAssignments(a)
  }

  /** Total number of right-hand properties over a list of assignments. */
  function PropertyCount(assigns: seq<Node>): nat
    requires forall i :: 0 <= i < |assigns| ==> assigns[i].Assign?
  {
    if assigns == [] then 0 else |StateProps(assigns[0].right)| + PropertyCount(assigns[1..])
  }

  /** The hooks of each assignment, concatenated in order: this succeeds exactly
      when every assignment's hooks do, with one hook per right-hand property. */
  function HooksOfAll(assigns: seq<Node>): (r: Result<seq<HookDecl>>)
    requires forall i :: 0 <= i < |assigns| ==> assigns[i].Assign?
    ensures r.Success? <==> forall i :: 0 <= i < |assigns| ==> GenerateStateHooks(assigns[i]).Success?
    ensures r.Success? ==> |r.value| == PropertyCount(assigns)
  {
    if assigns == [] then Success([])
    else Append(GenerateStateHooks(assigns[0]), HooksOfAll(assigns[1..]))
  }

  lemma {:induction false} HooksOfAllAppend(a: seq<Node>, b: seq<Node>)
    requires forall i :: 0 <= i < |a| ==> a[i].Assign?
    requires forall i :: 0 <= i < |b| ==> b[i].Assign?
    ensures HooksOfAll(a + b) == Append(HooksOfAll(a), HooksOfAll(b))
  {
    if a == [] {
      assert a + b == b;
      AppendEmpty(HooksOfAll(b));
    } else {
      assert (a + b)[0] == a[0];
      assert (a + b)[1..] == a[1..] + b;
      HooksOfAllAppend(a[1..], b);
      AppendAssociative(GenerateStateHooks(a[0]), HooksOfAll(a[1..]), HooksOfAll(b));
    }
  }

  /** The traversal fold equals the reference: generating hooks while walking
      the tree gives the same outcome as collecting the state assignments in
      traversal order and concatenating their hooks. */
  lemma {:induction false} VisitMatchesReference(n: Node)
    decreases n, 2
    ensures Visit(n) == HooksOfAll(StateAssignments(n))
  {
    var own := if n.Assign? && IsStateAssignmentExpression(n) then [n] else [];
    VisitChildrenMatchesReference(n);
    HooksOfAllAppend(own, StateAssignmentsBelow(n));
    if own == [] {
      assert HooksOfAll(own) == Success([]) == HooksAt(n);
    } else {
      AppendEmpty(GenerateStateHooks(n));
      assert HooksOfAll(own) == Append(GenerateStateHooks(n), HooksOfAll([])) == HooksAt(n);
    }
  }

  lemma {:induction false} VisitChildrenMatchesReference(n: Node)
    decreases n, 1
    ensures VisitChildren(n) == HooksOfAll(StateAssignmentsBelow(n))
  {
    match n
    case Member(_, _, _) => AccessMatchesReference(n);
    case OptionalMember(_, _, _) => AccessMatchesReference(n);
    case ObjectLit(props) => VisitPropsMatchesReference(props);
    case Assign(_, _, _) => AssignMatchesReference(n);
    case Call(_, _) => CallMatchesReference(n);
    case Other(_, cs) => VisitSeqMatchesReference(cs);
    case _ =>
  }

  /** A member access: its object, then its property. */
  lemma {:induction false} AccessMatchesReference(n: Node)
    requires n.Member? || n.OptionalMember?
    decreases n, 0
    ensures VisitChildren(n) == HooksOfAll(StateAssignmentsBelow(n))
  {
    var a, b := StateAssignments(n.obj), StateAssignments(n.prop);
    assert VisitChildren(n) == Append(Visit(n.obj), Visit(n.prop));
    assert StateAssignmentsBelow(n) == a + b;
    VisitMatchesReference(n.obj);
    VisitMatchesReference(n.prop);
    HooksOfAllAppend(a, b);
  }

  /** An assignment: its left side, then its right side. */
  lemma {:induction false} AssignMatchesReference(n: Node)
    requires n.Assign?
    decreases n, 0
    ensures VisitChildren(n) == HooksOfAll(StateAssignmentsBelow(n))
  {
    var a, b := StateAssignments(n.left), StateAssignments(n.right);
    assert VisitChildren(n) == Append(Visit(n.left), Visit(n.right));
    assert StateAssignmentsBelow(n) == a + b;
    VisitMatchesReference(n.left);
    VisitMatchesReference(n.right);
    HooksOfAllAppend(a, b);
  }

  /** A call: its callee, then its arguments. */
  lemma {:induction false} CallMatchesReference(n: Node)
    requires n.Call?
    decreases n, 0
    ensures VisitChildren(n) == HooksOfAll(StateAssignmentsBelow(n))
  {
    var a, b := StateAssignments(n.callee), StateAssignmentsSeq(n.args);
    assert VisitChildren(n) == Append(Visit(n.callee), VisitSeq(n.args));
    assert StateAssignmentsBelow(n) == a + b;
    VisitMatchesReference(n.callee);
    VisitSeqMatchesReference(n.args);
    HooksOfAllAppend(a, b);
  }

  lemma {:induction false} VisitSeqMatchesReference(ns: seq<Node>)
    decreases ns
    ensures VisitSeq(ns) == HooksOfAll(StateAssignmentsSeq(ns))
  {
    if ns != [] {
      VisitMatchesReference(ns[0]);
      VisitSeqMatchesReference(ns[1..]);
      HooksOfAllAppend(StateAssignments(ns[0]), StateAssignmentsSeq(ns[1..]));
    }
  }

  lemma {:induction false} VisitPropsMatchesReference(ps: seq<Prop>)
    decreases ps
    ensures VisitProps(ps) == HooksOfAll(StateAssignmentsProps(ps))
  {
    if ps != [] {
      VisitPropMatchesReference(ps[0]);
      VisitPropsMatchesReference(ps[1..]);
      HooksOfAllAppend(StateAssignmentsProp(ps[0]), StateAssignmentsProps(ps[1..]));
    }
  }

  lemma {:induction false} VisitPropMatchesReference(p: Prop)
    decreases p
    ensures VisitProp(p) == HooksOfAll(StateAssignmentsProp(p))
  {
    match p
    case KeyValue(k, v, _) =>
      VisitMatchesReference(k);
      VisitMatchesReference(v);
      HooksOfAllAppend(StateAssignments(k), StateAssignments(v));
    case Spread(a) => VisitMatchesReference(a);
  }

  /** `exportStateOutOfConstructor` concatenates, in traversal order, the hooks
      of every state assignment below the constructor; it throws exactly when
      some property of those right-hand literals lacks a non-empty identifier
      key (`HasHookKey`), and otherwise yields one hook per right-hand property
      (duplicates kept). */
  lemma ExportStateMatchesReference(ctor: Node)
    ensures ExportStateOutOfConstructor(ctor) == HooksOfAll(StateAssignmentsBelow(ctor))
    ensures ExportStateOutOfConstructor(ctor).Success? <==>
            forall i :: 0 <= i < |StateAssignmentsBelow(ctor)| ==>
              GenerateStateHooks(StateAssignmentsBelow(ctor)[i]).Success?
    ensures ExportStateOutOfConstructor(ctor).Success? ==>
            |ExportStateOutOfConstructor(ctor).value| == PropertyCount(StateAssignmentsBelow(ctor))
  {
    VisitChildrenMatchesReference(ctor);
  }

  /** `constructor() { <body> }` as the visitor sees it. */
  function ConstructorOf(body: seq<Node>): Node
  {
    Other("ClassMethod", [Ident("constructor"), Other("BlockStatement", body)])
  }

  function Statement(e: Node): Node
  {
    Other("ExpressionStatement", [e])
  }

  lemma StateAssignmentsSingleton(x: Node)
    ensures StateAssignmentsSeq([x]) == StateAssignments(x)
  {
    assert [x][1..] == [];
    assert StateAssignments(x) + [] == StateAssignments(x);
  }

  lemma {:induction false} StateAssignmentsConcat(a: seq<Node>, b: seq<Node>)
    ensures StateAssignmentsSeq(a + b) == StateAssignmentsSeq(a) + StateAssignmentsSeq(b)
  {
    if a == [] {
      assert a + b == b;
    } else {
      assert (a + b)[0] == a[0];
      assert (a + b)[1..] == a[1..] + b;
      StateAssignmentsConcat(a[1..], b);
    }
  }

  /** Only the body statements of `ConstructorOf` can hold state assignments. */
  lemma ConstructorAssignments(body: seq<Node>)
    ensures StateAssignmentsBelow(ConstructorOf(body)) == StateAssignmentsSeq(body)
  {
    var block := Other("BlockStatement", body);
    StateAssignmentsSingleton(block);
    StateAssignmentsConcat([Ident("constructor")], [block]);
    StateAssignmentsSingleton(Ident("constructor"));
    assert [Ident("constructor")] + [block] == [Ident("constructor"), block];
  }

  /** An expression statement contributes the state assignments of its expression. */
  lemma StatementAssignments(e: Node)
    ensures StateAssignments(Statement(e)) == StateAssignments(e)
  {
    StateAssignmentsSingleton(e);
  }

  /** A constructor whose body is one bulk state assignment exports exactly
      that assignment's hooks. */
  lemma SingleBulkConstructor(a: Node)
    requires a.Assign? && a.left == Member(This, Ident("state"), false) && a.op == "="
    requires a.right.ObjectLit?
    requires forall i :: 0 <= i < |a.right.props| ==> StateAssignmentsProp(a.right.props[i]) == []
    ensures ExportStateOutOfConstructor(ConstructorOf([Statement(a)])) == GenerateStateHooks(a)
  {
    VisitChildrenMatchesReference(ConstructorOf([Statement(a)]));
    ConstructorAssignments([Statement(a)]);
    StateAssignmentsSingleton(Statement(a));
    StatementAssignments(a);
    OneBulkAssignment(a);
  }

  /** The two declarations of `{count: 0, name: "John"}`, in literal order. */
  lemma CountNameHooks()
    ensures GenerateHookList([KeyValue(Ident("count"), NumericLit(0), false),
                              KeyValue(Ident("name"), StringLit("John"), false)])
            == Success([HookDecl("count", "setCount", NumericLit(0)),
                        HookDecl("name", "setName", StringLit("John"))])
  {
    var p0 := KeyValue(Ident("count"), NumericLit(0), false);
    var p1 := KeyValue(Ident("name"), StringLit("John"), false);
    var h0 := HookDecl("count", "setCount", NumericLit(0));
    var h1 := HookDecl("name", "setName", StringLit("John"));
    assert GenerateStateHook(p0) == Success(h0) by { SetterNameExamples(); }
    assert GenerateStateHook(p1) == Success(h1) by { SetterNameExamples(); }
    assert [p0, p1][1..] == [p1];
    assert GenerateHookList([p1]) == Success([h1]) by {
      assert [p1][1..] == [];
      assert GenerateHookList([]) == Success([]);
      assert [h1] + [] == [h1];
      assert GenerateHookList([p1]) == Append(Success([h1]), GenerateHookList([]));
    }
    assert [h0] + [h1] == [h0, h1];
  }

  /** A bulk `this.state = {count: 0, name: "John"}` gives two hooks in literal order. */
  lemma ExportStateBulkExample()
    ensures
      var literal := ObjectLit([KeyValue(Ident("count"), NumericLit(0), false),
                                KeyValue(Ident("name"), StringLit("John"), false)]);
      ExportStateOutOfConstructor(ConstructorOf([Statement(Assign("=", Member(This, Ident("state"), false), literal))]))
      == Success([HookDecl("count", "setCount", NumericLit(0)),
                  HookDecl("name", "setName", StringLit("John"))])
  {
    var p0 := KeyValue(Ident("count"), NumericLit(0), false);
    var p1 := KeyValue(Ident("name"), StringLit("John"), false);
    var a := Assign("=", Member(This, Ident("state"), false), ObjectLit([p0, p1]));
    assert StateAssignmentsProp(p0) == [] by {
      assert StateAssignments(Ident("count")) == [] && StateAssignments(NumericLit(0)) == [];
    }
    assert StateAssignmentsProp(p1) == [] by {
      assert StateAssignments(Ident("name")) == [] && StateAssignments(StringLit("John")) == [];
    }
    SingleBulkConstructor(a);
    CountNameHooks();
  }

  /** A state assignment whose right side is a literal of plain values has no
      further state assignments inside it, and its hooks are the whole result. */
  lemma OneBulkAssignment(a: Node)
    requires a.Assign? && a.left == Member(This, Ident("state"), false) && a.op == "="
    requires a.right.ObjectLit?
    requires forall i :: 0 <= i < |a.right.props| ==> StateAssignmentsProp(a.right.props[i]) == []
    ensures StateAssignments(a) == [a]
    ensures HooksOfAll([a]) == GenerateStateHooks(a)
  {
    assert StateAssignments(a.left) == [] by {
      assert StateAssignments(This) == [] && StateAssignments(Ident("state")) == [];
    }
    NoAssignmentsInProps(a.right.props);
    assert StateAssignments(a.right) == [] by {
      assert StateAssignmentsBelow(a.right) == StateAssignmentsProps(a.right.props);
    }
    assert StateAssignmentsBelow(a) == [];
    AppendEmpty(GenerateStateHooks(a));
  }

  lemma {:induction false} NoAssignmentsInProps(ps: seq<Prop>)
    requires forall i :: 0 <= i < |ps| ==> StateAssignmentsProp(ps[i]) == []
    ensures StateAssignmentsProps(ps) == []
  {
    if ps != [] {
      NoAssignmentsInProps(ps[1..]);
    }
  }

  /** A constructor whose one statement holds no state assignment exports nothing. */
  lemma NoStateConstructor(e: Node)
    requires StateAssignments(e) == []
    ensures ExportStateOutOfConstructor(ConstructorOf([Statement(e)])) == Success([])
  {
    VisitChildrenMatchesReference(ConstructorOf([Statement(e)]));
    ConstructorAssignments([Statement(e)]);
    StateAssignmentsSingleton(Statement(e));
    StatementAssignments(e);
  }

  /** `this.state.foo = "bar"` gives no hook: its object is `this.state`, not `this`. */
  lemma ExportStateFieldExample()
    ensures
      var field := Member(Member(This, Ident("state"), false), Ident("foo"), false);
      ExportStateOutOfConstructor(ConstructorOf([Statement(Assign("=", field, StringLit("bar")))])) == Success([])
  {
    var inner := Member(This, Ident("state"), false);
    var field := Member(inner, Ident("foo"), false);
    var a := Assign("=", field, StringLit("bar"));
    assert !IsStateAssignmentExpression(a);
    assert StateAssignments(inner) == [] by {
      assert StateAssignments(This) == [] && StateAssignments(Ident("state")) == [];
    }
    assert StateAssignments(field) == [] by {
      assert StateAssignments(Ident("foo")) == [];
    }
    assert StateAssignments(a) == [] by {
      assert StateAssignments(StringLit("bar")) == [];
      assert StateAssignmentsBelow(a) == [];
    }
    NoStateConstructor(a);
  }

  /** Repeating a bulk state assignment repeats its hooks: nothing is
      deduplicated by field name. */
  lemma DuplicateAssignmentsKeepBoth(a: Node)
    requires a.Assign? && a.left == Member(This, Ident("state"), false) && a.op == "="
    requires a.right.ObjectLit?
    requires forall i :: 0 <= i < |a.right.props| ==> StateAssignmentsProp(a.right.props[i]) == []
    ensures ExportStateOutOfConstructor(ConstructorOf([Statement(a), Statement(a)]))
            == Append(GenerateStateHooks(a), GenerateStateHooks(a))
  {
    var s := Statement(a);
    VisitChildrenMatchesReference(ConstructorOf([s, s]));
    ConstructorAssignments([s, s]);
    StateAssignmentsConcat([s], [s]);
    assert [s] + [s] == [s, s];
    StateAssignmentsSingleton(s);
    StatementAssignments(a);
    OneBulkAssignment(a);
    HooksOfAllAppend([a], [a]);
    assert [a] + [a] == [a, a];
  }
}
