/**
 * The `browser-api` rule: a file that reads a browser-only global needs
 * `'use client'`. An identifier records a cause when its name is in the
 * browser-global registry, the scope the host gives for it has no variable of
 * that name with a definition, and it stands in a read position.
 */
module BrowserApi {
  import opened Wrappers
  import opened Estree
  import opened RuleCore
  import Directives

  const BrowserTemplate: Template :=
    Template("This file contains browser api \"", "\", but it lacks the required 'use client' directive")

  /**
   * The identifier is read where it stands: the object of a member access,
   * the callee of a call, under an `Identifier` parent, or the initializer of
   * a declarator. Identity is the host's node identity.
   */
  function IsReadReference(node: Node, parent: Option<Node>): bool
  {
    match parent
    case None => false
    case Some(p) =>
      || (p.kind.MemberExpression? && p.kind.obj.nid == node.nid)
      || (p.kind.CallExpression? && p.kind.callee.nid == node.nid)
      || p.kind.Identifier?
      || (p.kind.VariableDeclarator? && p.kind.init.Some? && p.kind.init.value.nid == node.nid)
  }

  /**
   * `!variable || variable.defs.length === 0`, where `scopeSet` maps each
   * variable of the node's scope to the number of its definitions.
   */
  predicate IsGlobal(scopeSet: map<string, nat>, name: string)
  {
    name !in scopeSet || scopeSet[name] == 0
  }

  /** One `Identifier` visit: the node, its parent, and the variables of `getScope(node)`. */
  datatype IdentifierVisit = IdentifierVisit(node: Node, parent: Option<Node>, scopeSet: map<string, nat>)

  /** The cause an identifier contributes when no directive is known. */
  function BrowserCause(browserGlobals: set<string>, v: IdentifierVisit): Option<string>
  {
    if && v.node.kind.Identifier?
       && v.node.kind.name in browserGlobals
       && IsGlobal(v.scopeSet, v.node.kind.name)
       && IsReadReference(v.node, v.parent)
    then Some(v.node.kind.name)
    else None
  }

  /**
   * The property of a member access and the name a declarator binds are never
   * read references (the host gives distinct nodes distinct ids).
   */
  lemma NonReadPositions(node: Node, p: Node)
    requires || (p.kind.MemberExpression? && p.kind.property == node && p.kind.obj.nid != node.nid)
             || (p.kind.VariableDeclarator? && p.kind.id == node && (p.kind.init.Some? ==> p.kind.init.value.nid != node.nid))
    ensures !IsReadReference(node, Some(p))
  {
  }

  /** The rule's state for one file; the visitor methods are the source's visitor callbacks. */
  class BrowserApiRule {
    const browserGlobals: set<string>
    var hasUseClientDirective: bool
    var hasUseServerDirective: bool
    var hasBrowserAPI: bool
    var cause: seq<string>

    ghost function State(): RuleState
      reads this
    {
      RuleState(hasUseClientDirective, hasUseServerDirective, hasBrowserAPI, cause)
    }

    ghost predicate Valid()
      reads this
    {
      RuleCore.Valid(State())
    }

    /** `create(context)` for a file that is not ignored; `registry` is the browser-global list. */
    constructor (registry: set<string>)
      ensures State() == Initial && Valid() && browserGlobals == registry
    {
      browserGlobals := registry;
      hasUseClientDirective, hasUseServerDirective, hasBrowserAPI := false, false, false;
      cause := [];
    }

    /** `Program`: scan the directives. */
    method EnterProgram(body: seq<Node>)
      requires State() == Initial
      modifies this
      ensures State() == AfterProgram(body) && Valid()
    {
      hasUseClientDirective, hasUseServerDirective := Directives.ScanDirectives(body);
    }

    /** `Identifier`: record a read of an unshadowed browser global. */
    method VisitIdentifier(node: Node, parent: Option<Node>, scopeSet: map<string, nat>)
      requires Valid() && node.kind.Identifier?
      modifies this
      ensures State() == Record(old(State()), BrowserCause(browserGlobals, IdentifierVisit(node, parent, scopeSet))) && Valid()
    {
      if hasUseClientDirective || hasUseServerDirective {
        return;
      }
      var name := node.kind.name;
      if name in browserGlobals {
        var isGlobal := name !in scopeSet || scopeSet[name] == 0;
        var isRelevantUse := IsReadReference(node, parent);
        if isGlobal && isRelevantUse {
          hasBrowserAPI := true;
          cause := Add(cause, name);
        }
      }
    }

    /** `Program:exit`: report when browser globals were read and `'use client'` is missing. */
    method ExitProgram() returns (f: Option<Finding>)
      requires Valid()
      ensures f == Report(BrowserTemplate, State())
      ensures f.Some? <==> !State().DirectiveFound() && cause != []
    {
      ReportIff(BrowserTemplate, State());
      if !hasUseClientDirective && hasBrowserAPI && |cause| > 0 {
        f := Some(Finding(Message(BrowserTemplate, Join(cause, CauseSeparator)), UseClientLine));
      } else {
        f := None;
      }
    }
  }

  /**
   * The rule's life on one file as the host drives it: `create` (inert when
   * the file matches `ignorePath`), `Program`, one `Identifier` visit per
   * identifier node in traversal order, `Program:exit`.
   */
  method Lint(registry: set<string>, ignored: bool, body: seq<Node>, visits: seq<IdentifierVisit>) returns (f: Option<Finding>)
    requires forall i :: 0 <= i < |visits| ==> visits[i].node.kind.Identifier?
    ensures f == Outcome(ignored, body, visits, v => BrowserCause(registry, v), BrowserTemplate)
    ensures f.Some? <==>
      && !ignored
      && Directives.Scan(body) == Directives.DirectiveState(false, false)
      && SomeCause(visits, v => BrowserCause(registry, v))
  {
    var causeOf := v => BrowserCause(registry, v);
    OutcomeIff(ignored, body, visits, causeOf, BrowserTemplate);
    if ignored {
      return None;
    }
    var rule := new BrowserApiRule(registry);
    rule.EnterProgram(body);
    var i := 0;
    while i < |visits|
      invariant 0 <= i <= |visits|
      invariant rule.Valid() && rule.browserGlobals == registry
      invariant rule.State() == Fold(AfterProgram(body), visits[..i], causeOf)
    {
      assert visits[..i + 1][..i] == visits[..i];
      rule.VisitIdentifier(visits[i].node, visits[i].parent, visits[i].scopeSet);
      i := i + 1;
    }
    assert visits[..i] == visits;
    f := rule.ExitProgram();
  }

  /**
   * `window.location.href = …` with no local `window`: of the three
   * identifiers only `window` is read, so even with `location` in the registry
   * the finding names `window` alone.
   */
  lemma WindowLocationAssignment(registry: set<string>, body: seq<Node>, ids: seq<NodeId>)
    requires "window" in registry && "location" in registry
    requires Directives.Scan(body) == Directives.DirectiveState(false, false)
    requires |ids| == 5 && ids[0] != ids[1] && ids[2] != ids[3]
    ensures var window := Node(ids[0], Identifier("window"));
      var location := Node(ids[1], Identifier("location"));
      var inner := Node(ids[2], MemberExpression(window, location));
      var href := Node(ids[3], Identifier("href"));
      var outer := Node(ids[4], MemberExpression(inner, href));
      var visits := [IdentifierVisit(window, Some(inner), map[]),
                     IdentifierVisit(location, Some(inner), map[]),
                     IdentifierVisit(href, Some(outer), map[])];
      Outcome(false, body, visits, v => BrowserCause(registry, v), BrowserTemplate)
        == Some(Finding(Message(BrowserTemplate, "window"), UseClientLine))
  {
    var window := Node(ids[0], Identifier("window"));
    var location := Node(ids[1], Identifier("location"));
    var inner := Node(ids[2], MemberExpression(window, location));
    var href := Node(ids[3], Identifier("href"));
    var outer := Node(ids[4], MemberExpression(inner, href));
    var visits := [IdentifierVisit(window, Some(inner), map[]),
                   IdentifierVisit(location, Some(inner), map[]),
                   IdentifierVisit(href, Some(outer), map[])];
    var causeOf := v => BrowserCause(registry, v);
    assert causeOf(visits[0]) == Some("window");
    NonReadPositions(location, inner);
    NonReadPositions(href, outer);
    assert causeOf(visits[1]) == None;
    assert causeOf(visits[2]) == None;
    var s0 := AfterProgram(body);
    assert visits[..2][..1] == visits[..1] && visits[..1][..0] == [];
    assert Fold(s0, visits[..1], causeOf).cause == ["window"];
    assert Fold(s0, visits[..2], causeOf).cause == ["window"];
    assert visits[..3] == visits;
    assert Fold(s0, visits, causeOf).cause == ["window"];
  }

  /** A local variable named like a browser global shadows it: such an identifier records nothing. */
  lemma ShadowedGlobalIgnored(registry: set<string>, v: IdentifierVisit)
    requires v.node.kind.Identifier? && v.node.kind.name in v.scopeSet && v.scopeSet[v.node.kind.name] > 0
    ensures BrowserCause(registry, v) == None
  {
  }

  /** Visit `v` reads `x` as an unshadowed registry global. */
  predicate ReadsBrowserGlobal(registry: set<string>, v: IdentifierVisit, x: string)
  {
    && v.node.kind.Identifier?
    && v.node.kind.name == x
    && x in registry
    && IsGlobal(v.scopeSet, x)
    && IsReadReference(v.node, v.parent)
  }

  /** The names a run contributes are exactly those some visit reads as an unshadowed registry global. */
  lemma BrowserContributions(registry: set<string>, visits: seq<IdentifierVisit>)
    ensures var causes := FirstOccurrences(Contributions(visits, v => BrowserCause(registry, v)));
      forall x :: x in causes <==> exists i :: 0 <= i < |visits| && ReadsBrowserGlobal(registry, visits[i], x)
  {
    var causeOf := v => BrowserCause(registry, v);
    forall x
      ensures x in FirstOccurrences(Contributions(visits, causeOf)) <==>
        exists i :: 0 <= i < |visits| && ReadsBrowserGlobal(registry, visits[i], x)
    {
      assert forall i :: 0 <= i < |visits| ==> (causeOf(visits[i]) == Some(x) <==> ReadsBrowserGlobal(registry, visits[i], x));
    }
  }

  /**
   * Over a whole file: when there is a finding, its message lists, in order of
   * first occurrence and each once, exactly the names some visit reads as an
   * unshadowed registry global.
   */
  lemma BrowserFindingCauses(registry: set<string>, ignored: bool, body: seq<Node>, visits: seq<IdentifierVisit>)
    requires Outcome(ignored, body, visits, v => BrowserCause(registry, v), BrowserTemplate).Some?
    ensures var causes := FirstOccurrences(Contributions(visits, v => BrowserCause(registry, v)));
      && Outcome(ignored, body, visits, v => BrowserCause(registry, v), BrowserTemplate)
         == Some(Finding(Message(BrowserTemplate, Join(causes, CauseSeparator)), UseClientLine))
      && forall x :: x in causes <==> exists i :: 0 <= i < |visits| && ReadsBrowserGlobal(registry, visits[i], x)
  {
    OutcomeCauses(ignored, body, visits, v => BrowserCause(registry, v), BrowserTemplate);
    BrowserContributions(registry, visits);
  }
}
