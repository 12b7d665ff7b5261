# react-functionize helpers in Dafny

A model of the four syntax-tree helpers of `babel-plugin-react-functionize`, a
Babel plugin that turns React class components into function components:

- **Setter naming and state-hook extraction** (`src/helpers/stateHooksHelper.js`):
  `generateSetterName` turns a state field name into `set` + capitalised name.
  `isStateAssignmentExpression`/`memberExpressionIsState` recognise `this.state = …`.
  `generateStateHook(s)` turn each property of the right-hand object literal into a
  `const [getter, setter] = useState(init);` declaration. `exportStateOutOfConstructor`
  collects those declarations from every state assignment below a constructor, in
  traversal order.
- **Component-class detection** (`src/helpers/classExtendsReact.js`): a class is a
  component when its superclass is `Component` or `PureComponent`, bare or as
  the property of a member access.
- **`this` stripping** (`src/helpers/removeThisHelper.js`): every `this.x` below a node
  becomes the identifier `x`.
- **Function shell** (`src/helpers/functionDeclarationHelper.js`): a function with the
  class's name, the single parameter `props` and an empty body.

The Babel tree is the `Ast.Node` datatype: `This`, `Ident`, literals, `Member`,
`OptionalMember` (`a?.b`, without Babel's `optional` flag, which no helper reads), `ObjectLit`, `Assign` and `Call`. Every other node
kind is `Other`, which keeps its children in visiting order. The helpers only
walk through such nodes and never read their fields.

JavaScript's `null`/`undefined` is `Wrappers.Option`. A thrown TypeError is
`Wrappers.Result.Failure`. This covers the helpers' own reads of a property of
`undefined`, and the `@babel/types` builder `t.identifier` rejecting a name that
is not a string.

Babel's `path.traverse` is a pre-order recursive fold. `replaceWith` is a
function that returns the rewritten tree. The `useState` template is the `StateHooks.HookDecl`
of its three substitutions.

Two behaviours of the code worth noting:

- An assignment `this.state.foo = value` is not a state assignment, because
  `memberExpressionIsState` requires the object to be `this` itself. A constructor
  holding only such assignments exports no hooks (`StateHooks.ExportStateFieldExample`).
- Stripping `this.state.count` gives `state.count`, not `count`.

Behaviours the proofs make explicit:

- The `computed` flag is never read. `this[state] = {…}` counts as a state
  assignment, `this[key]` is stripped to `key`, and `Foo[Component]` is a
  component superclass.
- An optional access `this?.foo` is stripped to `foo` like `this.foo`. But
  `React?.Component` is not a component superclass, because an optional member
  access is not a MemberExpression.
- A state literal with a key that is not an identifier, such as
  `{"count": 0}`, makes hook generation throw.
- Field names that differ only in the case of their first letter (`count`,
  `Count`) get the same setter.

## Model

| member | source | states |
|---|---|---|
| StateHooks.GenerateSetterName | src/helpers/stateHooksHelper.js:84-90 | null exactly for an absent or empty name. Otherwise the result is 3 longer, starts with `set`, then has the upper-cased first character, then the rest of the name verbatim |
| StateHooks.SetterNameRoundTrip | src/helpers/stateHooksHelper.js:84-90 | if a field's first character is not an upper-case letter, reading its setter name back (drop `set`, lower-case the next character) gives the field |
| StateHooks.SetterNamesAgree | src/helpers/stateHooksHelper.js:84-90 | two non-empty fields share a setter if and only if their first characters upper-case alike and their tails are equal |
| StateHooks.SetterNameExamples | __tests__/stateHooksHelper.test.js:54-75 | `name`→`setName`, `a`→`setA`, empty and absent → null. Also `count` and `Count` both → `setCount` |
| StateHooks.MemberExpressionIsState | src/helpers/stateHooksHelper.js:41-47 | true exactly for `this.state`, `this[state]` and their optional forms `this?.state`, `this?.[state]`, and false for every other node |
| StateHooks.IsStateAssignmentExpression | src/helpers/stateHooksHelper.js:30-34 | true if and only if the operator is `=`, the left side is a member access whose object is `this` and whose property is the identifier `state` |
| StateHooks.StateAssignmentShapes | src/helpers/stateHooksHelper.js:30-47 | `+=`, `this.state.foo =` and `self.state =` are rejected, and the computed `this[state] =` is accepted |
| StateHooks.GenerateStateHook | src/helpers/stateHooksHelper.js:64-77 | succeeds if and only if the property has a non-empty identifier key. A spread element throws reading `prop.key.name`, and any other key makes `t.identifier` throw. On success: getter = key name, setter derived from it, initializer = the property value unchanged |
| StateHooks.WellPairedNames | src/helpers/stateHooksHelper.js:64-90 | a declaration whose setter is derived from its getter has a non-empty getter. Unless the getter starts with an upper-case letter, reading the setter back gives the getter |
| StateHooks.GenerateStateHookExamples | __tests__/stateHooksHelper.test.js:8-52 | string, numeric and object-literal values give `[propName, setPropName]` with that value. The string key `"count"` throws |
| StateHooks.GenerateHookList | src/helpers/stateHooksHelper.js:56 | succeeds if and only if every property has a non-empty identifier key. It then returns exactly one declaration per property, the i-th from the i-th property |
| StateHooks.GenerateStateHooks | src/helpers/stateHooksHelper.js:54-57 | succeeds if and only if every right-hand literal property has a non-empty identifier key. It then gives one well-paired declaration per property, in literal order, with getter and initializer taken from that property. It gives none when the right side is not an object literal |
| StateHooks.CountNameHooks | src/helpers/stateHooksHelper.js:54-57 | `{count: 0, name: "John"}` gives `[count, setCount](0)` then `[name, setName]("John")` |
| StateHooks.Visit | src/helpers/stateHooksHelper.js:15-23 | every declaration gathered by the pre-order visitor is well paired |
| StateHooks.ExportStateOutOfConstructor | src/helpers/stateHooksHelper.js:9-13 | every exported declaration is well paired |
| StateHooks.HooksOfAll | src/helpers/stateHooksHelper.js:18-20 | concatenating the hooks of a list of assignments succeeds if and only if each assignment's hooks do. It then yields one hook per right-hand property in total |
| StateHooks.VisitMatchesReference | src/helpers/stateHooksHelper.js:15-23 | the visitor fold equals first listing the state assignments in traversal order and then concatenating their hooks |
| StateHooks.ExportStateMatchesReference | src/helpers/stateHooksHelper.js:9-23 | export = the hooks of every state assignment below the constructor in traversal order. It fails if and only if one of them fails, and otherwise counts one hook per property |
| StateHooks.SingleBulkConstructor | src/helpers/stateHooksHelper.js:9-23 | a constructor holding one `this.state = {…}` exports exactly that literal's hooks |
| StateHooks.ExportStateBulkExample | src/helpers/stateHooksHelper.js:9-23 | `this.state = {count: 0, name: "John"}` in a constructor exports the two hooks in order |
| StateHooks.NoStateConstructor | src/helpers/stateHooksHelper.js:9-23 | a constructor whose statement holds no state assignment exports no hooks |
| StateHooks.ExportStateFieldExample | src/helpers/stateHooksHelper.js:41-47 | `this.state.foo = "bar"` in a constructor exports nothing |
| StateHooks.DuplicateAssignmentsKeepBoth | src/helpers/stateHooksHelper.js:15-23 | a repeated state assignment contributes its hooks twice, with no deduplication |
| ClassDetection.ClassExtendsReact | src/helpers/classExtendsReact.js:3-15 | absent superclass → false. Identifier → true if and only if it names `Component`/`PureComponent`. Member access → true if and only if its property is one of those identifiers. Any other shape → false |
| ClassDetection.DetectionIgnoresNamespace | src/helpers/classExtendsReact.js:9-11 | in a member access, the namespace object, the `computed` flag, the class name and its members do not affect detection |
| ClassDetection.DetectionExamples | __tests__/classExtendsReact.test.js:4-27 | null → false. `Component`, `PureComponent`, `React.Component` and `React.PureComponent` → true. `Foo.Component` → true, while `React["Component"]` and `React?.Component` → false |
| RemoveThis.RemoveThisExpression | src/helpers/removeThisHelper.js:3-13 | on a tree where every `this` is the object of a member access with an identifier property: the result is `Stripped` from the input. Each `this.x`/`this[x]`/`this?.x` site becomes `x` in place, and every other node keeps its kind, operator, label, `computed` flag and children in order. No `this` remains (unless the root is `this`), a `this`-free tree is unchanged, identifier names are preserved and the size drops by 2 per replaced `this` |
| RemoveThis.StrippedIsFunctional | src/helpers/removeThisHelper.js:8-13 | the relation pins the rewrite down: a tree has at most one stripped form, so `Stripped` fixes the output node for node |
| RemoveThis.RemoveThisIdempotent | src/helpers/removeThisHelper.js:8-13 | the result is again accepted, and rewriting it a second time changes nothing |
| RemoveThis.ThisFreeIsAccepted | src/helpers/removeThisHelper.js:8-13 | a tree without `this` never makes the visitor throw |
| RemoveThis.RemoveThisExamples | __tests__/removeThisHelper.test.js:7-16 | `this.foo`→`foo`, `this.foo.bar`→`foo.bar`, `foo.bar` unchanged. Also `this.state.count`→`state.count`, `this[key]`→`key` and `this?.foo`→`foo` |
| FunctionDeclaration.BuildFunctionFromClassDeclaration | src/helpers/functionDeclarationHelper.js:3-9 | fails exactly for a class without `id`. Otherwise the name is the class's, the only parameter is the identifier `props` and the body is empty |
| FunctionDeclaration.ShellDependsOnlyOnName | src/helpers/functionDeclarationHelper.js:3-9 | classes with the same name give the same shell, whatever their superclass and members |

## Left out

- src/index.js (plugin registration, `api.assertVersion(7)`, the `console.log` on a detected class) is host wiring with no logic to model. babel.config.js and sample/debug.js are configuration and sample input.
- `@babel/template`, `@babel/generator` and the `@babel/types` builders are not modelled. A hook declaration is the triple of template substitutions and is never printed to text. Of the builders' validation, the model keeps only `t.identifier` throwing on a name that is not a string.
- Object-literal methods (`{ foo() {} }`) are not among the property shapes. They have a key but no `value`, and how the template treats an undefined substitution is outside the modelled code.
- Babel's requeueing of a replaced node during traversal is not modelled. The requeued identifier contains no `this`, so it cannot change the result.
- `toUpperCase` is ASCII-only here. JavaScript maps other letters too, and can return more than one character (`ß` → `SS`).
- Numeric literals hold integers, not IEEE doubles. The helpers only copy them.
- RemoveThis.RemoveThisExpression: requires that every `this` below the root is the object of a member access (plain or optional) with an identifier property. On other trees the visitor throws, either reading `property` of a parent that has none or when `t.identifier` receives `undefined`. Neither path is modelled.
- State-mutation rewriting (`setState`, `this.state.x = …` outside the constructor), lifecycle-to-effect mapping and class-body assembly are not implemented by the helpers, so they are not modelled.
