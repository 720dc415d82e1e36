/**
 * What the three rules share: the per-file state each `create(context)` closes
 * over (two directive flags, a `has…` flag and the `cause` Set), how a visit
 * updates it, how `Program:exit` turns it into at most one report, and the
 * whole-file outcome of running one rule over a program.
 *
 * A JavaScript `Set<string>` is iterated in insertion order, and the report
 * message joins it in that order, so the cause set is a duplicate-free
 * sequence, oldest element first.
 */
module RuleCore {
  import opened Wrappers
  import opened Estree
  import Directives

  /** No element occurs twice. */
  predicate NoDuplicates(s: seq<string>)
  {
    forall i, j :: 0 <= i < j < |s| ==> s[i] != s[j]
  }

  /** `Set.prototype.add`: a new element goes to the end, a present one keeps its place. */
  function Add(cause: seq<string>, c: string): (r: seq<string>)
    ensures forall x :: x in r <==> x in cause || x == c
    ensures cause <= r && |r| <= |cause| + 1
    ensures NoDuplicates(cause) ==> NoDuplicates(r)
  {
    if c in cause then cause else cause + [c]
  }

  /** `Array.prototype.join(sep)` on an array of strings. */
  function Join(xs: seq<string>, sep: string): string
  {
    if |xs| == 0 then ""
    else if |xs| == 1 then xs[0]
    else xs[0] + sep + Join(xs[1..], sep)
  }

  /** Joining one more element appends the separator and that element. */
  lemma {:induction false} JoinSnoc(xs: seq<string>, x: string, sep: string)
    requires |xs| >= 1
    ensures Join(xs + [x], sep) == Join(xs, sep) + sep + x
    decreases |xs|
  {
    if |xs| > 1 {
      assert (xs + [x])[1..] == xs[1..] + [x];
      JoinSnoc(xs[1..], x, sep);
    }
  }

  /** Where the `k`-th element starts in `Join(xs, sep)`. */
  function JoinOffset(xs: seq<string>, sep: string, k: nat): nat
    requires k < |xs|
  {
    if k == 0 then 0 else |xs[0]| + |sep| + JoinOffset(xs[1..], sep, k - 1)
  }

  /** Every element of `xs` appears, unchanged, in the joined string, at its offset. */
  lemma {:induction false} JoinContains(xs: seq<string>, sep: string, k: nat)
    requires k < |xs|
    ensures JoinOffset(xs, sep, k) + |xs[k]| <= |Join(xs, sep)|
    ensures Join(xs, sep)[JoinOffset(xs, sep, k)..JoinOffset(xs, sep, k) + |xs[k]|] == xs[k]
  {
    if k > 0 {
      JoinContains(xs[1..], sep, k - 1);
      var rest := Join(xs[1..], sep);
      var head := xs[0] + sep;
      var o := JoinOffset(xs[1..], sep, k - 1);
      assert Join(xs, sep) == head + rest;
      assert (head + rest)[|head| + o..|head| + o + |xs[k]|] == rest[o..o + |xs[k]|];
    }
  }

  /** The separator the rules join causes with. */
  const CauseSeparator: string := ", "

  /** The text every fix inserts before the program. */
  const UseClientLine: string := "'use client'\n"

  /** A rule's message template: the joined causes go between `prefix` and `suffix`. */
  datatype Template = Template(prefix: string, suffix: string)

  function Message(t: Template, causes: string): string
  {
    t.prefix + causes + t.suffix
  }

  /** One `context.report` on the program node: its message and the text its fix inserts before the program. */
  datatype Finding = Finding(message: string, insertedText: string)

  /** The variables `create(context)` closes over. */
  datatype RuleState = RuleState(useClient: bool, useServer: bool, found: bool, cause: seq<string>)
  {
    predicate DirectiveFound() { useClient || useServer }
  }

  /** The state right after `create(context)`. */
  const Initial: RuleState := RuleState(false, false, false, [])

  /**
   * What stays true of a rule's state between visits: the cause set has no
   * duplicates, the `has…` flag is set exactly when a cause was recorded,
   * nothing is recorded once a directive is known, and at most one directive
   * flag is set.
   */
  ghost predicate Valid(s: RuleState)
  {
    && NoDuplicates(s.cause)
    && (s.found <==> s.cause != [])
    && (s.DirectiveFound() ==> s.cause == [])
    && !(s.useClient && s.useServer)
  }

  /** The state after the `Program` visitor ran on a fresh rule. */
  function AfterProgram(body: seq<Node>): (s: RuleState)
    ensures Valid(s) && s.cause == [] && !s.found
    ensures s.useClient == Directives.Scan(body).useClient && s.useServer == Directives.Scan(body).useServer
  {
    var d := Directives.Scan(body);
    RuleState(d.useClient, d.useServer, false, [])
  }

  /**
   * One node visit: a no-op once a directive is known; otherwise the cause
   * the node contributes, if any, is added and the `has…` flag is set.
   */
  function Record(s: RuleState, c: Option<string>): (r: RuleState)
    ensures Valid(s) ==> Valid(r)
    ensures r.useClient == s.useClient && r.useServer == s.useServer
    ensures s.cause <= r.cause && (s.found ==> r.found)
    ensures forall x :: x in r.cause <==> x in s.cause || (!s.DirectiveFound() && c == Some(x))
  {
    if s.DirectiveFound() then s
    else match c
      case None => s
      case Some(x) => s.(found := true, cause := Add(s.cause, x))
  }

  /** The visits of one traversal, in order, applied to `s`. */
  function Fold<V>(s: RuleState, visits: seq<V>, causeOf: V -> Option<string>): RuleState
    decreases |visits|
  {
    if visits == [] then s
    else Record(Fold(s, visits[..|visits| - 1], causeOf), causeOf(visits[|visits| - 1]))
  }

  /** Some visit contributes a cause. */
  ghost predicate SomeCause<V>(visits: seq<V>, causeOf: V -> Option<string>)
  {
    exists i :: 0 <= i < |visits| && causeOf(visits[i]).Some?
  }

  /** Visits keep the state valid, never change the directive flags, and only grow the cause set. */
  lemma {:induction false} FoldKeepsValid<V>(s: RuleState, visits: seq<V>, causeOf: V -> Option<string>)
    requires Valid(s)
    ensures Valid(Fold(s, visits, causeOf))
    ensures Fold(s, visits, causeOf).useClient == s.useClient && Fold(s, visits, causeOf).useServer == s.useServer
    ensures s.cause <= Fold(s, visits, causeOf).cause
    decreases |visits|
  {
    if visits != [] {
      FoldKeepsValid(s, visits[..|visits| - 1], causeOf);
    }
  }

  /** Once a directive is known, no visit changes anything. */
  lemma {:induction false} FoldUnderDirective<V>(s: RuleState, visits: seq<V>, causeOf: V -> Option<string>)
    requires s.DirectiveFound()
    ensures Fold(s, visits, causeOf) == s
    decreases |visits|
  {
    if visits != [] {
      FoldUnderDirective(s, visits[..|visits| - 1], causeOf);
    }
  }

  /** Without a directive, the causes recorded are exactly the ones some visit contributes. */
  lemma {:induction false} FoldCauses<V>(s: RuleState, visits: seq<V>, causeOf: V -> Option<string>)
    requires !s.DirectiveFound()
    ensures forall x :: x in Fold(s, visits, causeOf).cause <==>
      x in s.cause || exists i :: 0 <= i < |visits| && causeOf(visits[i]) == Some(x)
    decreases |visits|
  {
    if visits != [] {
      var front := visits[..|visits| - 1];
      FoldCauses(s, front, causeOf);
      FoldKeepsDirectives(s, front, causeOf);
      forall x
        ensures x in Fold(s, visits, causeOf).cause <==>
          x in s.cause || exists i :: 0 <= i < |visits| && causeOf(visits[i]) == Some(x)
      {
        if exists i :: 0 <= i < |visits| && causeOf(visits[i]) == Some(x) {
          var i :| 0 <= i < |visits| && causeOf(visits[i]) == Some(x);
          if i < |front| {
            assert front[i] == visits[i];
          }
        }
        if exists i :: 0 <= i < |front| && causeOf(front[i]) == Some(x) {
          var i :| 0 <= i < |front| && causeOf(front[i]) == Some(x);
          assert visits[i] == front[i];
        }
      }
    }
  }

  /** Visits never change the directive flags. */
  lemma {:induction false} FoldKeepsDirectives<V>(s: RuleState, visits: seq<V>, causeOf: V -> Option<string>)
    ensures Fold(s, visits, causeOf).useClient == s.useClient && Fold(s, visits, causeOf).useServer == s.useServer
    decreases |visits|
  {
    if visits != [] {
      FoldKeepsDirectives(s, visits[..|visits| - 1], causeOf);
    }
  }

  /**
   * `Program:exit`: report once when the `has…` flag is set, there is no
   * `'use client'` directive and the cause set is non-empty; the message lists
   * the causes in insertion order and the fix prepends `'use client'`.
   */
  function Report(t: Template, s: RuleState): Option<Finding>
  {
    if s.found && !s.useClient && |s.cause| > 0
    then Some(Finding(Message(t, Join(s.cause, CauseSeparator)), UseClientLine))
    else None
  }

  /** On a valid state the report is made exactly when no directive at all is present and some cause was recorded. */
  lemma ReportIff(t: Template, s: RuleState)
    requires Valid(s)
    ensures Report(t, s).Some? <==> !s.DirectiveFound() && s.cause != []
    ensures Report(t, s).Some? ==> Report(t, s).value.insertedText == UseClientLine
  {
  }

  /** A report names every recorded cause: the `k`-th cause stands in the message at its place in the joined list. */
  lemma ReportNamesCause(t: Template, s: RuleState, k: nat)
    requires k < |s.cause| && Report(t, s).Some?
    ensures var start := |t.prefix| + JoinOffset(s.cause, CauseSeparator, k);
      && start + |s.cause[k]| <= |Report(t, s).value.message|
      && Report(t, s).value.message[start..start + |s.cause[k]|] == s.cause[k]
  {
    JoinContains(s.cause, CauseSeparator, k);
    var j := Join(s.cause, CauseSeparator);
    var o := JoinOffset(s.cause, CauseSeparator, k);
    assert Report(t, s).value.message == t.prefix + j + t.suffix;
    assert (t.prefix + j + t.suffix)[|t.prefix| + o..|t.prefix| + o + |s.cause[k]|] == j[o..o + |s.cause[k]|];
  }

  /** The whole life of one rule on one file: `create`, `Program`, the visits in order, `Program:exit`. */
  function Outcome<V>(ignored: bool, body: seq<Node>, visits: seq<V>, causeOf: V -> Option<string>, t: Template): Option<Finding>
  {
    if ignored then None else Report(t, Fold(AfterProgram(body), visits, causeOf))
  }

  /** A file gets a finding exactly when it is not ignored, has neither directive, and some visit contributes a cause. */
  lemma OutcomeIff<V>(ignored: bool, body: seq<Node>, visits: seq<V>, causeOf: V -> Option<string>, t: Template)
    ensures Outcome(ignored, body, visits, causeOf, t).Some? <==>
      !ignored && Directives.Scan(body) == Directives.DirectiveState(false, false) && SomeCause(visits, causeOf)
  {
    var s0 := AfterProgram(body);
    var s := Fold(s0, visits, causeOf);
    FoldKeepsValid(s0, visits, causeOf);
    ReportIff(t, s);
    if s0.DirectiveFound() {
      FoldUnderDirective(s0, visits, causeOf);
    } else {
      FoldCauses(s0, visits, causeOf);
      if SomeCause(visits, causeOf) {
        var i :| 0 <= i < |visits| && causeOf(visits[i]).Some?;
        assert causeOf(visits[i]).value in s.cause;
        assert s.cause != [];
      } else {
        NonEmptyHasHead(s.cause);
      }
    }
  }

  lemma NonEmptyHasHead(xs: seq<string>)
    ensures xs != [] ==> xs[0] in xs
  {
  }

  /** The causes the visits contribute, in visit order, repetitions included. */
  function Contributions<V>(visits: seq<V>, causeOf: V -> Option<string>): (cs: seq<string>)
    ensures forall x :: x in cs <==> exists i :: 0 <= i < |visits| && causeOf(visits[i]) == Some(x)
    decreases |visits|
  {
    if visits == [] then []
    else
      var front := visits[..|visits| - 1];
      var last := causeOf(visits[|visits| - 1]);
      assert forall i :: 0 <= i < |front| ==> front[i] == visits[i];
      Contributions(front, causeOf) + (if last.Some? then [last.value] else [])
  }

  /** Keeps each element of `xs` whose value does not occur earlier in `xs`, in order. */
  function FirstOccurrences(xs: seq<string>): (r: seq<string>)
    ensures NoDuplicates(r)
    ensures forall x :: x in r <==> x in xs
    decreases |xs|
  {
    if xs == [] then []
    else
      var front := xs[..|xs| - 1];
      var last := xs[|xs| - 1];
      assert xs == front + [last];
      FirstOccurrences(front) + (if last in front then [] else [last])
  }

  /** A traversal only appends to the cause set: the set after any prefix of the visits is a prefix of the final one. */
  lemma {:induction false} FoldPrefix<V>(s: RuleState, visits: seq<V>, causeOf: V -> Option<string>, i: nat)
    requires i <= |visits|
    ensures Fold(s, visits[..i], causeOf).cause <= Fold(s, visits, causeOf).cause
    decreases |visits|
  {
    if i < |visits| {
      var front := visits[..|visits| - 1];
      assert front[..i] == visits[..i];
      FoldPrefix(s, front, causeOf, i);
    } else {
      assert visits[..i] == visits;
    }
  }

  /**
   * Starting from an empty cause set and no directive, the cause set after a
   * traversal is the contributed causes with repetitions dropped, in the order
   * each was first contributed.
   */
  lemma {:induction false} FoldOrder<V>(s: RuleState, visits: seq<V>, causeOf: V -> Option<string>)
    requires !s.DirectiveFound() && s.cause == []
    ensures Fold(s, visits, causeOf).cause == FirstOccurrences(Contributions(visits, causeOf))
    decreases |visits|
  {
    if visits != [] {
      var front := visits[..|visits| - 1];
      FoldOrder(s, front, causeOf);
      FoldKeepsDirectives(s, front, causeOf);
      var cs := Contributions(front, causeOf);
      var last := causeOf(visits[|visits| - 1]);
      if last.Some? {
        var all := cs + [last.value];
        assert Contributions(visits, causeOf) == all;
        assert all[..|all| - 1] == cs;
      } else {
        assert Contributions(visits, causeOf) == cs;
      }
    }
  }

  /**
   * A finding's message joins, with `", "`, the contributed causes with
   * repetitions dropped, in the order each was first contributed.
   */
  lemma OutcomeCauses<V>(ignored: bool, body: seq<Node>, visits: seq<V>, causeOf: V -> Option<string>, t: Template)
    requires Outcome(ignored, body, visits, causeOf, t).Some?
    ensures Outcome(ignored, body, visits, causeOf, t)
      == Some(Finding(Message(t, Join(FirstOccurrences(Contributions(visits, causeOf)), CauseSeparator)), UseClientLine))
  {
    var s0 := AfterProgram(body);
    FoldKeepsValid(s0, visits, causeOf);
    ReportIff(t, Fold(s0, visits, causeOf));
    FoldOrder(s0, visits, causeOf);
  }

  /**
   * Applying the fix makes the rule quiet: once `'use client'` is the first
   * statement, the same visits produce no finding.
   */
  lemma FixIsIdempotent<V>(stmtId: NodeId, literalId: NodeId, body: seq<Node>, visits: seq<V>, causeOf: V -> Option<string>, t: Template)
    ensures Outcome(false, [Directives.UseClientStatement(stmtId, literalId)] + body, visits, causeOf, t) == None
  {
    var fixed := [Directives.UseClientStatement(stmtId, literalId)] + body;
    Directives.FixedProgramHasClientDirective(stmtId, literalId, body);
    FoldUnderDirective(AfterProgram(fixed), visits, causeOf);
  }
}
