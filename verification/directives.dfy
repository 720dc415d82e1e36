/**
 * The directive scan every rule runs when it enters `Program`: it walks all
 * top-level statements, skips everything that is not an expression statement
 * wrapping a literal, and stops at the first literal that is `'use client'`
 * or `'use server'`. Other literals (`'use strict'`) and other statements are
 * skipped, not treated as the end of the directive prologue.
 */
module Directives {
  import opened Estree

  const UseClient: string := "use client"
  const UseServer: string := "use server"

  datatype DirectiveState = DirectiveState(useClient: bool, useServer: bool)

  /** `stmt` is an `ExpressionStatement` whose expression is a `Literal` with string value `text`. */
  predicate IsDirective(stmt: Node, text: string)
  {
    && stmt.kind.ExpressionStatement?
    && stmt.kind.expression.kind.Literal?
    && stmt.kind.expression.kind.value == StringValue(text)
  }

  /** The statement the fix inserts, as the parser reads it back. */
  function UseClientStatement(stmtId: NodeId, literalId: NodeId): (stmt: Node)
    ensures IsDirective(stmt, UseClient)
  {
    Node(stmtId, ExpressionStatement(Node(literalId, Literal(StringValue(UseClient)))))
  }

  /** The directive flags the scan leaves behind, decided by the first directive statement. */
  function Scan(body: seq<Node>): (d: DirectiveState)
    ensures !(d.useClient && d.useServer)
  {
    if body == [] then DirectiveState(false, false)
    else if IsDirective(body[0], UseClient) then DirectiveState(true, false)
    else if IsDirective(body[0], UseServer) then DirectiveState(false, true)
    else Scan(body[1..])
  }

  /**
   * The scan loop of `Program`: iterate over all of `body`, look only at
   * literal expression statements, set the matching flag and stop once a
   * flag is set.
   */
  method ScanDirectives(body: seq<Node>) returns (hasUseClientDirective: bool, hasUseServerDirective: bool)
    ensures DirectiveState(hasUseClientDirective, hasUseServerDirective) == Scan(body)
  {
    hasUseClientDirective, hasUseServerDirective := false, false;
    var i := 0;
    while i < |body|
      invariant 0 <= i <= |body|
      invariant !hasUseClientDirective && !hasUseServerDirective
      invariant Scan(body) == Scan(body[i..])
    {
      var child := body[i];
      assert body[i..][0] == child && body[i..][1..] == body[i + 1..];
      if child.kind.ExpressionStatement? && child.kind.expression.kind.Literal? {
        if child.kind.expression.kind.value == StringValue(UseClient) {
          hasUseClientDirective := true;
        }
        if child.kind.expression.kind.value == StringValue(UseServer) {
          hasUseServerDirective := true;
        }
        if hasUseClientDirective || hasUseServerDirective {
          break;
        }
      }
      i := i + 1;
    }
  }

  /**
   * The scan finds `'use client'` exactly when some top-level statement is a
   * `'use client'` directive and no `'use server'` directive comes before it.
   */
  lemma {:induction false} ScanClientIff(body: seq<Node>)
    ensures Scan(body).useClient <==>
      exists i :: 0 <= i < |body| && IsDirective(body[i], UseClient) &&
        forall j :: 0 <= j < i ==> !IsDirective(body[j], UseServer)
  {
    if body != [] {
      ScanClientIff(body[1..]);
      if Scan(body).useClient {
        if !IsDirective(body[0], UseClient) {
          var i :| 0 <= i < |body| - 1 && IsDirective(body[1..][i], UseClient) &&
            forall j :: 0 <= j < i ==> !IsDirective(body[1..][j], UseServer);
          assert forall j :: 0 < j <= i + 1 ==> body[j] == body[1..][j - 1];
        }
      }
    }
  }

  /**
   * The scan finds `'use server'` exactly when some top-level statement is a
   * `'use server'` directive and no `'use client'` directive comes before it.
   */
  lemma {:induction false} ScanServerIff(body: seq<Node>)
    ensures Scan(body).useServer <==>
      exists i :: 0 <= i < |body| && IsDirective(body[i], UseServer) &&
        forall j :: 0 <= j < i ==> !IsDirective(body[j], UseClient)
  {
    if body != [] {
      ScanServerIff(body[1..]);
      if Scan(body).useServer {
        if !IsDirective(body[0], UseServer) {
          var i :| 0 <= i < |body| - 1 && IsDirective(body[1..][i], UseServer) &&
            forall j :: 0 <= j < i ==> !IsDirective(body[1..][j], UseClient);
          assert forall j :: 0 < j <= i + 1 ==> body[j] == body[1..][j - 1];
        }
      }
    }
  }

  /** A statement that is not one of the two directives (`'use strict'`, an import, a call) does not stop the scan. */
  lemma SkipsOtherStatements(stmt: Node, rest: seq<Node>)
    requires !IsDirective(stmt, UseClient) && !IsDirective(stmt, UseServer)
    ensures Scan([stmt] + rest) == Scan(rest)
  {
    assert ([stmt] + rest)[1..] == rest;
  }

  /** After the fix prepends `'use client'`, the scan finds it, whatever the rest of the file holds. */
  lemma FixedProgramHasClientDirective(stmtId: NodeId, literalId: NodeId, body: seq<Node>)
    ensures Scan([UseClientStatement(stmtId, literalId)] + body) == DirectiveState(true, false)
  {
  }
}
