/**
 * The `event-handler` rule: a file that puts an `on<Event>` attribute on a
 * native element (a tag starting with a lower-case letter) needs
 * `'use client'`. Each element contributes at most one cause, its first
 * handler attribute, because the attribute scan stops at the first match.
 */
module EventHandler {
  import opened Wrappers
  import opened Estree
  import opened Names
  import opened RuleCore
  import Directives

  const EventHandlerTemplate: Template :=
    Template("This file contains HTML elements with event handler \"", "\", but it lacks the required 'use client' directive")

  /** `/^[a-z]/.test(tagName)`: a host element rather than a component. */
  predicate IsNativeTagName(s: string) { |s| >= 1 && IsLower(s[0]) }

  /** `/^on[A-Z]/.test(name)`. */
  predicate IsEventHandlerName(s: string) { |s| >= 3 && s[0] == 'o' && s[1] == 'n' && IsUpper(s[2]) }

  /** A `JSXAttribute` (not a spread) whose name is a `JSXIdentifier` of the form `on<Upper>…`. */
  predicate IsEventHandlerAttribute(attr: Node)
  {
    && attr.kind.JSXAttribute?
    && attr.kind.attributeName.kind.JSXIdentifier?
    && IsEventHandlerName(attr.kind.attributeName.kind.name)
  }

  /** The name of the first event-handler attribute, if any. */
  function FirstEventHandler(attributes: seq<Node>): (r: Option<string>)
    ensures r.Some? <==> exists i :: 0 <= i < |attributes| && IsEventHandlerAttribute(attributes[i])
    ensures r.Some? ==> exists i :: && 0 <= i < |attributes|
                                    && IsEventHandlerAttribute(attributes[i])
                                    && attributes[i].kind.attributeName.kind.name == r.value
                                    && forall j :: 0 <= j < i ==> !IsEventHandlerAttribute(attributes[j])
    ensures r.Some? ==> IsEventHandlerName(r.value)
  {
    if attributes == [] then None
    else if IsEventHandlerAttribute(attributes[0]) then Some(attributes[0].kind.attributeName.kind.name)
    else
      var r := FirstEventHandler(attributes[1..]);
      assert forall i :: 0 < i < |attributes| ==> attributes[i] == attributes[1..][i - 1];
      r
  }

  /** The tag name when the element name is a plain `JSXIdentifier`. */
  function TagName(element: Node): Option<string>
  {
    if element.kind.JSXOpeningElement? && element.kind.elementName.kind.JSXIdentifier?
    then Some(element.kind.elementName.kind.name)
    else None
  }

  /** The cause an opening element contributes when no directive is known. */
  function ElementCause(element: Node): Option<string>
  {
    match TagName(element)
    case Some(tagName) => if IsNativeTagName(tagName) then FirstEventHandler(element.kind.attributes) else None
    case None => None
  }

  /** A component tag (`<MyButton onClick={…}/>`) or a non-identifier tag name contributes nothing. */
  lemma ComponentTagIgnored(element: Node)
    requires element.kind.JSXOpeningElement?
    requires !element.kind.elementName.kind.JSXIdentifier? || !IsNativeTagName(element.kind.elementName.kind.name)
    ensures ElementCause(element) == None
  {
  }

  /** A spread attribute, or an attribute not named `on<Upper>…` (`onclick`, `data-on`), is skipped by the scan. */
  lemma NonHandlerAttributeSkipped(attr: Node, rest: seq<Node>)
    requires || attr.kind.JSXSpreadAttribute?
             || (attr.kind.JSXAttribute? && attr.kind.attributeName.kind.JSXIdentifier?
                 && !IsEventHandlerName(attr.kind.attributeName.kind.name))
    ensures FirstEventHandler([attr] + rest) == FirstEventHandler(rest)
  {
    assert ([attr] + rest)[1..] == rest;
  }

  /** `<button onClick={…}/>` contributes `onClick`; `<MyButton onClick={…}/>` contributes nothing. */
  lemma ButtonExamples(ids: seq<NodeId>)
    requires |ids| == 4
    ensures var onClick := Node(ids[0], JSXAttribute(Node(ids[1], JSXIdentifier("onClick"))));
      && ElementCause(Node(ids[2], JSXOpeningElement(Node(ids[3], JSXIdentifier("button")), [onClick]))) == Some("onClick")
      && ElementCause(Node(ids[2], JSXOpeningElement(Node(ids[3], JSXIdentifier("MyButton")), [onClick]))) == None
  {
  }

  /** The rule's state for one file; the visitor methods are the source's visitor callbacks. */
  class EventHandlerRule {
    var hasUseClientDirective: bool
    var hasUseServerDirective: bool
    var hasEventHandler: bool
    var cause: seq<string>

    ghost function State(): RuleState
      reads this
    {
      RuleState(hasUseClientDirective, hasUseServerDirective, hasEventHandler, cause)
    }

    ghost predicate Valid()
      reads this
    {
      RuleCore.Valid(State())
    }

    /** `create(context)` for a file that is not ignored. */
    constructor ()
      ensures State() == Initial && Valid()
    {
      hasUseClientDirective, hasUseServerDirective, hasEventHandler := false, false, false;
      cause := [];
    }

    /** `Program`: scan the directives. */
    method EnterProgram(body: seq<Node>)
      requires State() == Initial
      modifies this
      ensures State() == AfterProgram(body) && Valid()
    {
      hasUseClientDirective, hasUseServerDirective := Directives.ScanDirectives(body);
    }

    /**
     * `JSXOpeningElement`: on a native element, scan the attributes in order
     * and record the first event handler; the scan stops there.
     */
    method VisitJSXOpeningElement(node: Node)
      requires Valid() && node.kind.JSXOpeningElement?
      modifies this
      ensures State() == Record(old(State()), ElementCause(node)) && Valid()
    {
      if hasUseClientDirective || hasUseServerDirective {
        return;
      }
      var tagName := if node.kind.elementName.kind.JSXIdentifier? then Some(node.kind.elementName.kind.name) else None;
      if tagName.Some? && IsNativeTagName(tagName.value) {
        var attributes := node.kind.attributes;
        var currentStatus := false;
        var i := 0;
        while i < |attributes|
          invariant 0 <= i <= |attributes|
          invariant FirstEventHandler(attributes) == FirstEventHandler(attributes[i..])
          invariant !currentStatus && cause == old(cause)
        {
          var attr := attributes[i];
          assert attributes[i..][0] == attr && attributes[i..][1..] == attributes[i + 1..];
          var hasOnEventHandler := IsEventHandlerAttribute(attr);
          if hasOnEventHandler {
            cause := Add(cause, attr.kind.attributeName.kind.name);
            currentStatus := true;
            break;
          }
          i := i + 1;
        }
        hasEventHandler := hasEventHandler || currentStatus;
      }
    }

    /** `Program:exit`: report when a native element had a handler and `'use client'` is missing. */
    method ExitProgram() returns (f: Option<Finding>)
      requires Valid()
      ensures f == Report(EventHandlerTemplate, State())
      ensures f.Some? <==> !State().DirectiveFound() && cause != []
    {
      ReportIff(EventHandlerTemplate, State());
      if hasEventHandler && !hasUseClientDirective && |cause| > 0 {
        f := Some(Finding(Message(EventHandlerTemplate, Join(cause, CauseSeparator)), UseClientLine));
      } else {
        f := None;
      }
    }
  }

  /**
   * The rule's life on one file as the host drives it: `create` (inert when
   * the file matches `ignorePath`), `Program`, one `JSXOpeningElement` visit
   * per opening tag in traversal order, `Program:exit`.
   */
  method Lint(ignored: bool, body: seq<Node>, visits: seq<Node>) returns (f: Option<Finding>)
    requires forall i :: 0 <= i < |visits| ==> visits[i].kind.JSXOpeningElement?
    ensures f == Outcome(ignored, body, visits, ElementCause, EventHandlerTemplate)
    ensures f.Some? <==>
      !ignored && Directives.Scan(body) == Directives.DirectiveState(false, false) && SomeCause(visits, ElementCause)
  {
    OutcomeIff(ignored, body, visits, ElementCause, EventHandlerTemplate);
    if ignored {
      return None;
    }
    var rule := new EventHandlerRule();
    rule.EnterProgram(body);
    var i := 0;
    while i < |visits|
      invariant 0 <= i <= |visits|
      invariant rule.Valid()
      invariant rule.State() == Fold(AfterProgram(body), visits[..i], ElementCause)
    {
      assert visits[..i + 1][..i] == visits[..i];
      rule.VisitJSXOpeningElement(visits[i]);
      i := i + 1;
    }
    assert visits[..i] == visits;
    f := rule.ExitProgram();
  }
}
