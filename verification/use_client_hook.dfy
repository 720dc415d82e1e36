/**
 * The `use-client-hook` rule: a file that calls a React hook inside a
 * component needs `'use client'`. A call is considered when its callee is a
 * hook-named identifier or `React.<hook>` / `react.<hook>`; it records a cause
 * when one of its ancestors is a component definition: a function declaration
 * with a component name, or a variable declarator binding a component name to
 * an arrow function.
 */
module UseClientHook {
  import opened Wrappers
  import opened Estree
  import opened Names
  import opened RuleCore
  import Directives

  const HookTemplate: Template :=
    Template("This file contains client-side React Hooks \"", "\", but it lacks the required 'use client' directive")

  /** JavaScript truthiness of a `string | null`: present and not empty. */
  predicate Truthy(s: Option<string>) { s.Some? && s.value != "" }

  /** The display name of a callee: dotted for member chains, through calls and optional chains. */
  function GetFunctionName(callee: Node): Option<string>
  {
    match callee.kind
    case Super => Some("super")
    case Identifier(name) => Some(name)
    case MemberExpression(obj, property) =>
      var objectName := GetFunctionName(obj);
      var propertyName := if property.kind.Identifier? then Some(property.kind.name) else None;
      if Truthy(objectName) && Truthy(propertyName) then Some(objectName.value + "." + propertyName.value) else None
    case ChainExpression(expression) => GetFunctionName(expression)
    case CallExpression(inner) => GetFunctionName(inner)
    case ThisExpression => Some("this")
    case _ => None
  }

  /** `React` or `react`, the two namespaces a hook may be called through. */
  predicate IsReactNamespace(n: Node)
  {
    n.kind.Identifier? && (n.kind.name == "React" || n.kind.name == "react")
  }

  /** `isIdentifierTypeHook || isMemberExpressionTypeHook`. */
  predicate IsHookCallee(callee: Node)
  {
    || (callee.kind.Identifier? && IsHookName(callee.kind.name))
    || (&& callee.kind.MemberExpression?
        && IsReactNamespace(callee.kind.obj)
        && callee.kind.property.kind.Identifier?
        && IsHookName(callee.kind.property.kind.name))
  }

  /** `function MyComponent() {}` or `const MyComponent = () => {}`. */
  predicate IsComponentDefinition(a: Node)
  {
    || (&& a.kind.FunctionDeclaration?
        && a.kind.functionId.Some?
        && a.kind.functionId.value.kind.Identifier?
        && IsComponentName(a.kind.functionId.value.kind.name))
    || (&& a.kind.VariableDeclarator?
        && a.kind.id.kind.Identifier?
        && IsComponentName(a.kind.id.kind.name)
        && a.kind.init.Some?
        && a.kind.init.value.kind.ArrowFunctionExpression?)
  }

  /** Some ancestor defines a component. */
  predicate InsideComponent(ancestors: seq<Node>)
  {
    exists i :: 0 <= i < |ancestors| && IsComponentDefinition(ancestors[i])
  }

  /** The cause a recorded call adds: `getFunctionName(callee) || ''`. */
  function CauseName(callee: Node): string
  {
    var n := GetFunctionName(callee);
    if Truthy(n) then n.value else ""
  }

  /** One `CallExpression` visit: the call node and `getAncestors(call)`, root first. */
  datatype CallVisit = CallVisit(call: Node, ancestors: seq<Node>)

  /** The cause a call contributes when no directive is known. */
  function HookCause(v: CallVisit): Option<string>
  {
    match v.call.kind
    case CallExpression(callee) =>
      if IsHookCallee(callee) && InsideComponent(v.ancestors) then Some(CauseName(callee)) else None
    case _ => None
  }

  /**
   * The cause recorded for a hook callee is its own name, or `React.`/`react.`
   * followed by the hook name; it is never empty.
   */
  lemma CauseOfHookCallee(callee: Node)
    requires IsHookCallee(callee)
    ensures callee.kind.Identifier? ==> CauseName(callee) == callee.kind.name
    ensures callee.kind.MemberExpression? ==>
      CauseName(callee) == callee.kind.obj.kind.name + "." + callee.kind.property.kind.name
    ensures CauseName(callee) != ""
  {
    if callee.kind.MemberExpression? {
      var obj := callee.kind.obj;
      assert GetFunctionName(obj) == Some(obj.kind.name);
      assert obj.kind.name != "";
    }
  }

  /** A call records a cause exactly when its callee is hook-shaped and it lies inside a component definition. */
  lemma HookCauseIff(v: CallVisit)
    requires v.call.kind.CallExpression?
    ensures HookCause(v).Some? <==> IsHookCallee(v.call.kind.callee) && InsideComponent(v.ancestors)
    ensures HookCause(v).Some? ==> HookCause(v).value != ""
  {
    if IsHookCallee(v.call.kind.callee) {
      CauseOfHookCallee(v.call.kind.callee);
    }
  }

  /**
   * When a callee has a display name: `super`, `this` and identifiers always
   * do, calls and optional chains have their inner node's, and a member
   * expression has one when its property is an identifier with a non-empty
   * name and its object has a non-empty name. `top` is false for a member's
   * object, where an empty name does not count.
   */
  predicate Nameable(n: Node, top: bool)
  {
    match n.kind
    case Super => true
    case ThisExpression => true
    case Identifier(name) => top || name != ""
    case MemberExpression(obj, property) =>
      Nameable(obj, false) && property.kind.Identifier? && property.kind.name != ""
    case ChainExpression(expression) => Nameable(expression, top)
    case CallExpression(inner) => Nameable(inner, top)
    case _ => false
  }

  /** A callee has a name exactly when it is `Nameable`, and a non-empty one exactly when it is so as an object. */
  lemma {:induction false} GetFunctionNameDefined(n: Node)
    ensures GetFunctionName(n).Some? <==> Nameable(n, true)
    ensures Truthy(GetFunctionName(n)) <==> Nameable(n, false)
  {
    match n.kind
    case MemberExpression(obj, property) =>
      GetFunctionNameDefined(obj);
    case ChainExpression(expression) =>
      GetFunctionNameDefined(expression);
    case CallExpression(inner) =>
      GetFunctionNameDefined(inner);
    case _ =>
  }

  /** The innermost object of a callee: member objects, calls and optional chains are stripped. */
  function CalleeRoot(n: Node): (r: Node)
    ensures !(r.kind.MemberExpression? || r.kind.ChainExpression? || r.kind.CallExpression?)
  {
    match n.kind
    case MemberExpression(obj, _) => CalleeRoot(obj)
    case ChainExpression(expression) => CalleeRoot(expression)
    case CallExpression(inner) => CalleeRoot(inner)
    case _ => n
  }

  /** A resolved name starts with the name of its root, which is `super`, `this` or an identifier. */
  lemma {:induction false} GetFunctionNameStartsAtRoot(n: Node)
    requires GetFunctionName(n).Some?
    ensures CalleeRoot(n).kind.Super? || CalleeRoot(n).kind.ThisExpression? || CalleeRoot(n).kind.Identifier?
    ensures GetFunctionName(CalleeRoot(n)).Some? && GetFunctionName(CalleeRoot(n)).value <= GetFunctionName(n).value
  {
    match n.kind
    case MemberExpression(obj, property) =>
      GetFunctionNameStartsAtRoot(obj);
      var o := GetFunctionName(obj).value;
      assert o <= GetFunctionName(n).value by { assert GetFunctionName(n).value == o + ("." + property.kind.name); }
    case ChainExpression(expression) =>
      GetFunctionNameStartsAtRoot(expression);
    case CallExpression(inner) =>
      GetFunctionNameStartsAtRoot(inner);
    case _ =>
  }

  /**
   * The member chain `names[0].names[1]. ... .names[k]` over identifiers, with
   * distinct node ids counted from `base`.
   */
  function Dotted(names: seq<string>, base: NodeId): Node
    requires |names| >= 1
    decreases |names|
  {
    if |names| == 1 then Node(base, Identifier(names[0]))
    else
      var k := |names|;
      Node(base + 2 * k - 1, MemberExpression(Dotted(names[..k - 1], base), Node(base + 2 * k - 2, Identifier(names[k - 1]))))
  }

  /** A member chain of non-empty identifiers renders as its names joined with `.`. */
  lemma {:induction false} GetFunctionNameOfDottedPath(names: seq<string>, base: NodeId)
    requires |names| >= 1
    requires forall i :: 0 <= i < |names| ==> names[i] != ""
    ensures GetFunctionName(Dotted(names, base)) == Some(Join(names, "."))
    decreases |names|
  {
    var k := |names|;
    if k > 1 {
      var front := names[..k - 1];
      GetFunctionNameOfDottedPath(front, base);
      assert names == front + [names[k - 1]];
      JoinSnoc(front, names[k - 1], ".");
      if k - 1 > 1 {
        JoinSnoc(front[..k - 2], front[k - 2], ".");
        assert front == front[..k - 2] + [front[k - 2]];
      }
    }
  }

  /** `inner` under calls (`true`) and optional chains (`false`), innermost first, with ids counted from `base`. */
  function Wrapped(inner: Node, wraps: seq<bool>, base: NodeId): Node
    decreases |wraps|
  {
    if wraps == [] then inner
    else
      var k := |wraps|;
      var w := Wrapped(inner, wraps[..k - 1], base);
      Node(base + k - 1, if wraps[k - 1] then CallExpression(w) else ChainExpression(w))
  }

  /** Any stack of calls and optional chains around a callee leaves its name unchanged. */
  lemma {:induction false} GetFunctionNameThroughWrappers(inner: Node, wraps: seq<bool>, base: NodeId)
    ensures GetFunctionName(Wrapped(inner, wraps, base)) == GetFunctionName(inner)
    decreases |wraps|
  {
    if wraps != [] {
      GetFunctionNameThroughWrappers(inner, wraps[..|wraps| - 1], base);
    }
  }

  /** The rule's state for one file; the visitor methods are the source's visitor callbacks. */
  class HookRule {
    var hasUseClientDirective: bool
    var hasUseServerDirective: bool
    var hasHooks: bool
    var cause: seq<string>

    ghost function State(): RuleState
      reads this
    {
      RuleState(hasUseClientDirective, hasUseServerDirective, hasHooks, cause)
    }

    ghost predicate Valid()
      reads this
    {
      RuleCore.Valid(State())
    }

    /** `create(context)` for a file that is not ignored. */
    constructor ()
      ensures State() == Initial && Valid()
    {
      hasUseClientDirective, hasUseServerDirective, hasHooks := false, false, false;
      cause := [];
    }

    /** `Program`: scan the directives. */
    method EnterProgram(body: seq<Node>)
      requires State() == Initial
      modifies this
      ensures State() == AfterProgram(body) && Valid()
    {
      hasUseClientDirective, hasUseServerDirective := Directives.ScanDirectives(body);
    }

    /** `CallExpression`: record the callee when it is a hook called inside a component. */
    method VisitCallExpression(node: Node, ancestors: seq<Node>)
      requires Valid() && node.kind.CallExpression?
      modifies this
      ensures State() == Record(old(State()), HookCause(CallVisit(node, ancestors))) && Valid()
    {
      if hasUseClientDirective || hasUseServerDirective {
        return;
      }
      var callee := node.kind.callee;
      if !IsHookCallee(callee) {
        return;
      }
      var i := 0;
      while i < |ancestors|
        invariant 0 <= i <= |ancestors|
        invariant forall j :: 0 <= j < i ==> !IsComponentDefinition(ancestors[j])
      {
        if IsComponentDefinition(ancestors[i]) {
          cause := Add(cause, CauseName(callee));
          hasHooks := true;
          return;
        }
        i := i + 1;
      }
    }

    /** `Program:exit`: report when hooks were found and `'use client'` is missing. */
    method ExitProgram() returns (f: Option<Finding>)
      requires Valid()
      ensures f == Report(HookTemplate, State())
      ensures f.Some? <==> !State().DirectiveFound() && cause != []
    {
      ReportIff(HookTemplate, State());
      if hasHooks && !hasUseClientDirective && |cause| > 0 {
        f := Some(Finding(Message(HookTemplate, Join(cause, CauseSeparator)), UseClientLine));
      } else {
        f := None;
      }
    }
  }

  /**
   * The rule's life on one file as the host drives it: `create` (inert when
   * the file matches `ignorePath`), `Program`, one `CallExpression` visit per
   * call node in traversal order, `Program:exit`.
   */
  method Lint(ignored: bool, body: seq<Node>, visits: seq<CallVisit>) returns (f: Option<Finding>)
    requires forall i :: 0 <= i < |visits| ==> visits[i].call.kind.CallExpression?
    ensures f == Outcome(ignored, body, visits, HookCause, HookTemplate)
    ensures f.Some? <==>
      !ignored && Directives.Scan(body) == Directives.DirectiveState(false, false) && SomeCause(visits, HookCause)
  {
    OutcomeIff(ignored, body, visits, HookCause, HookTemplate);
    if ignored {
      return None;
    }
    var rule := new HookRule();
    rule.EnterProgram(body);
    var i := 0;
    while i < |visits|
      invariant 0 <= i <= |visits|
      invariant rule.Valid()
      invariant rule.State() == Fold(AfterProgram(body), visits[..i], HookCause)
    {
      assert visits[..i + 1][..i] == visits[..i];
      rule.VisitCallExpression(visits[i].call, visits[i].ancestors);
      i := i + 1;
    }
    assert visits[..i] == visits;
    f := rule.ExitProgram();
  }

  /** Hooks called inside `useCustomHook` (a hook, not a component) record nothing. */
  lemma HooksInCustomHookIgnored(ids: seq<NodeId>)
    requires |ids| == 6
    ensures var declarator := Node(ids[0], VariableDeclarator(Node(ids[1], Identifier("useCustomHook")),
                                                              Some(Node(ids[2], ArrowFunctionExpression))));
      var call := Node(ids[3], CallExpression(Node(ids[4], Identifier("useState"))));
      HookCause(CallVisit(call, [Node(ids[5], OtherNode("Program")), declarator])) == None
  {
    assert !IsComponentName("useCustomHook");
  }

  /** `React.useState` inside `function App` is recorded as `React.useState`. */
  lemma NamespacedHookRecorded(ids: seq<NodeId>)
    requires |ids| == 6
    ensures var component := Node(ids[0], FunctionDeclaration(Some(Node(ids[1], Identifier("App")))));
      var callee := Node(ids[2], MemberExpression(Node(ids[3], Identifier("React")), Node(ids[4], Identifier("useState"))));
      HookCause(CallVisit(Node(ids[5], CallExpression(callee)), [component])) == Some("React.useState")
  {
    var component := Node(ids[0], FunctionDeclaration(Some(Node(ids[1], Identifier("App")))));
    var callee := Node(ids[2], MemberExpression(Node(ids[3], Identifier("React")), Node(ids[4], Identifier("useState"))));
    assert IsComponentName("App") by { assert AllAlphaNum("pp"); }
    assert IsComponentDefinition(component);
    assert InsideComponent([component]) by { assert [component][0] == component; }
    assert IsHookCallee(callee) by { assert IsHookName("useState"); }
    assert GetFunctionName(callee) == Some("React" + "." + "useState");
    assert "React" + "." + "useState" == "React.useState";
    assert CauseName(callee) == "React.useState";
  }
}
