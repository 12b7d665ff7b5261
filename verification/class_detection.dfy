/** Whether a class declaration is a React component class
    (src/helpers/classExtendsReact.js). */
module ClassDetection {
  import opened Wrappers
  import opened Ast

  /** The base classes that mark a React component. */
  const ReactClasses: seq<string> := ["Component", "PureComponent"]

  /** `classExtendsReact`: the superclass is `Component`/`PureComponent`, either
      as a bare identifier or as the identifier property of a member access.
      The object of the member access is never looked at. */
  function ClassExtendsReact(cls: ClassDecl): (r: bool)
    ensures cls.superClass.None? ==> !r
    ensures cls.superClass.Some? && cls.superClass.value.Ident? ==>
              (r <==> cls.superClass.value.name == "Component" || cls.superClass.value.name == "PureComponent")
    ensures cls.superClass.Some? && cls.superClass.value.Member? ==>
              (r <==> (cls.superClass.value.prop == Ident("Component") ||
                       cls.superClass.value.prop == Ident("PureComponent")))
    ensures r ==> cls.superClass.Some? && (cls.superClass.value.Ident? || cls.superClass.value.Member?)
  {
    match cls.superClass
    case None => false
    case Some(sc) =>
      if sc.Ident? then sc.name in ReactClasses
      else if sc.Member? then
        var prop := sc.prop;
        if prop.Ident? then prop.name in ReactClasses else false
      else false
  }

  /** Detection depends on the superclass alone, and in a member access only on
      its property: any namespace (`Foo.Component`) and the `computed` flag are
      ignored. */
  lemma DetectionIgnoresNamespace(cls: ClassDecl, obj: Node, prop: Node, computed: bool, obj': Node, computed': bool)
    requires cls.superClass == Some(Member(obj, prop, computed))
    ensures ClassExtendsReact(cls) == ClassExtendsReact(cls.(superClass := Some(Member(obj', prop, computed'))))
    ensures ClassExtendsReact(cls) == ClassExtendsReact(ClassDecl(None, cls.superClass, []))
  {
  }

  /** The unit-tested cases, and three that the tests leave out: an optional
      member access is not a MemberExpression, so `React?.Component` is rejected. */
  lemma DetectionExamples()
    ensures !ClassExtendsReact(ClassDecl(Some("Test"), None, []))
    ensures ClassExtendsReact(ClassDecl(Some("Test"), Some(Ident("Component")), []))
    ensures ClassExtendsReact(ClassDecl(Some("Test"), Some(Ident("PureComponent")), []))
    ensures ClassExtendsReact(ClassDecl(Some("Test"), Some(Member(Ident("React"), Ident("Component"), false)), []))
    ensures ClassExtendsReact(ClassDecl(Some("Test"), Some(Member(Ident("React"), Ident("PureComponent"), false)), []))
    ensures ClassExtendsReact(ClassDecl(Some("Test"), Some(Member(Ident("Foo"), Ident("Component"), false)), []))
    ensures !ClassExtendsReact(ClassDecl(Some("Test"), Some(Member(Ident("React"), StringLit("Component"), true)), []))
    ensures !ClassExtendsReact(ClassDecl(Some("Test"), Some(OptionalMember(Ident("React"), Ident("Component"), false)), []))
  {
  }
}
