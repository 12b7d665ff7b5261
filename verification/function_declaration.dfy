/** The empty function shell built from a component class
    (src/helpers/functionDeclarationHelper.js). */
module FunctionDeclaration {
  import opened Wrappers
  import opened Ast

  /** A function declaration: its name, its parameters and its body statements. */
  datatype FunctionDecl = FunctionDecl(name: string, params: seq<Node>, body: seq<Node>)

  /** `buildFunctionFromClassDeclaration`: a function named like the class, with
      the single parameter `props` and an empty block. A class without an `id`
      makes `classDeclaration.id.name` throw. */
  function BuildFunctionFromClassDeclaration(cls: ClassDecl): (r: Result<FunctionDecl>)
    ensures r.Success? <==> cls.id.Some?
    ensures r.Success? ==>
      && r.value.name == cls.id.value
      && |r.value.params| == 1
      && r.value.params[0] == Ident("props")
      && r.value.body == []
  {
    match cls.id
    case None => Failure(MissingProperty("classDeclaration.id.name"))
    case Some(name) => Success(FunctionDecl(name, [Ident("props")], []))
  }

  /** The shell depends on the class name only: the superclass and the members
      are ignored. */
  lemma ShellDependsOnlyOnName(c1: ClassDecl, c2: ClassDecl)
    requires c1.id == c2.id
    ensures BuildFunctionFromClassDeclaration(c1) == BuildFunctionFromClassDeclaration(c2)
  {
  }
}
