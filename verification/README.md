# eslint-plugin-use-client, modelled in Dafny

This project models the three lint rules of `eslint-plugin-use-client`.
Each rule decides whether a React source file needs a `'use client'` directive:

- `use-client-hook` fires on hook calls made inside a component.
- `browser-api` fires on reads of browser-only globals.
- `event-handler` fires on `on<Event>` attributes of native JSX elements.

Every rule follows the same lifecycle:

1. `Program` scans the top-level statements for `'use client'` / `'use server'`.
2. A per-node visitor adds causes to an insertion-ordered set.
3. `Program:exit` reports at most once. The report carries a message that lists the causes joined by `", "`, and a fix that inserts `'use client'\n` before the program.

Files:

- `names.dfy` (module `Names`): the name classifiers `isComponentName` and `isHookName`.
- `estree.dfy` (module `Estree`): the syntax-tree shapes the rules look at. Every node carries `nid`, the host's node identity, so a reference comparison (`parent.object === node`) becomes an id comparison.
- `directives.dfy` (module `Directives`): the directive scan. The three rules repeat the same loop, so it is written once, as the specification function `Scan` and the loop method `ScanDirectives`.
- `rule_core.dfy` (module `RuleCore`): what the rules share.
  - The cause set is a duplicate-free `seq<string>` (`Add`).
  - `Join` and the message `Template`.
  - The `Finding`.
  - The per-file `RuleState` with its invariant `Valid`.
  - `Record`, one visit.
  - `Fold`, a traversal.
  - `Report`, `Program:exit`.
  - `Outcome`, the whole life of a rule on one file.
- `use_client_hook.dfy`, `browser_api.dfy`, `event_handler.dfy`: one class per rule.
  - The class fields are the variables `create(context)` closes over.
  - The methods are the visitor callbacks; each method's postcondition ties the new state to `Record` of the old state.
  - `Lint` drives a rule over one file the way the host does and is proved equal to `Outcome`.
- `wrappers.dfy` (module `Wrappers`): `Option`, standing for `null`.

The host supplies some facts, which enter as inputs:

- The ancestors of a call (`getAncestors`).
- The parent of an identifier.
- The variables of the identifier's scope, as a map from name to number of definitions (`getScope(node).set`).
- The browser-global registry, as a `set<string>`.
- Whether the file matches `ignorePath`, as a boolean.

Four points where the code behaves differently from a quick reading:

- The directive scan does not stop at the first statement that is not a literal. It skips every statement except a `'use client'` / `'use server'` literal and stops at the first of those (`SkipsOtherStatements`).
- An element adds only its FIRST `on<Event>` attribute, not every matching one, because the scan is `Array.prototype.some`.
- Shadowing is judged only from the variables of the single scope `getScope` returns, not from every enclosing scope.
- The ancestor walk runs root-first and returns on the first match. Which ancestor matches does not change the cause, so the model states "some ancestor defines a component".

## Model

| member | source | states |
|---|---|---|
| `Names.AllAlphaNum` | src/utils/index.ts:2 | the `[a-zA-Z0-9]*$` part holds exactly when every character is a letter or a digit |
| `Names.IsComponentName` | src/utils/index.ts:1-3 | a component name is non-empty, starts with `A`–`Z`, and has only `[A-Za-z0-9]` after that; both directions |
| `Names.IsHookName` | src/utils/index.ts:5-7 | a hook name is `use`, or `use` followed by `A`–`Z` or `0`–`9`; every hook name starts with `use` |
| `Names.NotComponentName` | src/utils/index.ts:2 | the empty string is not a component name, and neither is a name starting with a lower-case letter or a digit |
| `Names.LowerAfterUseIsNotHook` | src/utils/index.ts:6 | `use` followed by a lower-case letter (`user`) is not a hook name |
| `Names.HookNameIsNotComponentName` | src/utils/index.ts:1-7 | no string is both a hook name and a component name |
| `Names.ComponentNameExamples` | src/utils/index.ts:1-3 | `Foo` and `F1oo2` are component names; `foo`, the empty string and `My-Component` are not |
| `Names.HookNameExamples` | src/utils/index.ts:5-7 | `use`, `useState` and `use3D` are hook names; `user`, `USE` and `us` are not |
| `Directives.Scan` | src/lib/rules/use-client-hook.ts:90-107 | the first `'use client'` / `'use server'` literal statement decides the flags; at most one flag is ever set |
| `Directives.ScanDirectives` | src/lib/rules/use-client-hook.ts:92-106 | the `for…of` loop with `break`, which the three rules share, computes exactly `Scan` |
| `Directives.ScanClientIff` | src/lib/rules/use-client-hook.ts:92-106 | `'use client'` is found exactly when a `'use client'` literal statement occurs with no `'use server'` literal statement before it |
| `Directives.ScanServerIff` | src/lib/rules/browser-api.ts:76-90 | `'use server'` is found exactly when a `'use server'` literal statement occurs with no `'use client'` literal statement before it |
| `Directives.SkipsOtherStatements` | src/lib/rules/event-handler.ts:54-68 | a statement that is neither directive, such as `'use strict'` or an import, is skipped and does not end the scan |
| `Directives.FixedProgramHasClientDirective` | src/lib/rules/use-client-hook.ts:158-160 | after the fix, the scan finds `'use client'` whatever follows |
| `RuleCore.Add` | src/lib/rules/use-client-hook.ts:147 | `Set.add` keeps the old elements in order and adds the element at most once; no duplicates are introduced |
| `RuleCore.JoinContains` | src/lib/rules/use-client-hook.ts:157 | every cause appears unchanged in the `", "`-joined list, at its computed offset |
| `RuleCore.AfterProgram` | src/lib/rules/use-client-hook.ts:83-107 | after `Program` the flags are the scan's, nothing is recorded, and the state invariant holds |
| `RuleCore.Record` | src/lib/rules/browser-api.ts:92-110 | a visit keeps the invariant, never touches the directive flags, only grows the cause set and the `has…` flag, and adds a cause only when no directive is known |
| `RuleCore.FoldKeepsValid` | src/lib/rules/use-client-hook.ts:145-150 | over a whole traversal, the `has…` flag is set exactly when the cause set is non-empty; the set stays duplicate-free and only grows |
| `RuleCore.FoldUnderDirective` | src/lib/rules/use-client-hook.ts:110-112 | once either directive is known, no visit changes the state |
| `RuleCore.FoldKeepsDirectives` | src/lib/rules/event-handler.ts:70-95 | visits never change the directive flags |
| `RuleCore.FoldCauses` | src/lib/rules/browser-api.ts:105-108 | without a directive, the recorded causes are exactly the causes some visit contributed |
| `RuleCore.ReportIff` | src/lib/rules/use-client-hook.ts:153-163 | on a valid state there is a report exactly when no directive is present and a cause was recorded; its fix inserts `'use client'\n` |
| `RuleCore.ReportNamesCause` | src/lib/rules/browser-api.ts:117 | the report message contains every recorded cause, at its place in the joined list |
| `RuleCore.OutcomeIff` | src/lib/rules/event-handler.ts:96-107 | a file gets a finding exactly when it is not ignored, has neither directive, and some visit contributes a cause |
| `RuleCore.Contributions` | src/lib/rules/use-client-hook.ts:147 | the causes the visits contribute, in visit order; a string is among them exactly when some visit contributes it |
| `RuleCore.FirstOccurrences` | src/lib/rules/use-client-hook.ts:87 | a JavaScript `Set` built by `add` in order: duplicate-free, with exactly the added elements |
| `RuleCore.FoldPrefix` | src/lib/rules/use-client-hook.ts:147 | a traversal only appends: the cause set after any prefix of the visits is a prefix of the final cause set |
| `RuleCore.FoldOrder` | src/lib/rules/use-client-hook.ts:87-157 | from a fresh state with no directive, the cause set equals the contributed causes with repeats dropped, in order of first contribution |
| `RuleCore.OutcomeCauses` | src/lib/rules/event-handler.ts:101 | a finding's message joins with `", "` the contributed causes, each once, in order of first contribution, between the template's parts |
| `RuleCore.FixIsIdempotent` | src/lib/rules/browser-api.ts:118-120 | once the fix's line is the first statement, the same visits give no finding |
| `UseClientHook.CauseOfHookCallee` | src/lib/rules/use-client-hook.ts:114-125 | the recorded cause of a hook-shaped callee is the identifier's name or `React.`/`react.` plus the hook name, and is never empty |
| `UseClientHook.HookCauseIff` | src/lib/rules/use-client-hook.ts:108-152 | a call records a cause exactly when its callee is hook-shaped and some ancestor defines a component |
| `UseClientHook.GetFunctionNameDefined` | src/lib/rules/use-client-hook.ts:13-47 | for every callee: it has a name exactly when it is `Nameable` (`super`, `this`, an identifier, or a member with a non-empty identifier property over an object with a non-empty name, through calls and optional chains), and a non-empty name exactly when it is `Nameable` as an object |
| `UseClientHook.CalleeRoot` | src/lib/rules/use-client-hook.ts:22-39 | the root a name is built from is never a member expression, a call or an optional chain |
| `UseClientHook.GetFunctionNameStartsAtRoot` | src/lib/rules/use-client-hook.ts:13-47 | every resolved name has a root that is `super`, `this` or an identifier, and starts with that root's name |
| `UseClientHook.GetFunctionNameOfDottedPath` | src/lib/rules/use-client-hook.ts:19-33 | for every member chain `a.b.….z` of non-empty identifiers, the name is the identifiers joined with `.` |
| `UseClientHook.GetFunctionNameThroughWrappers` | src/lib/rules/use-client-hook.ts:35-39 | any stack of calls and optional chains around a callee leaves its name unchanged |
| `UseClientHook.HookRule.constructor` | src/lib/rules/use-client-hook.ts:83-87 | a rule starts with both flags false, `hasHooks` false and an empty cause set |
| `UseClientHook.HookRule.EnterProgram` | src/lib/rules/use-client-hook.ts:90-107 | `Program` sets the directive flags to the scan's result |
| `UseClientHook.HookRule.VisitCallExpression` | src/lib/rules/use-client-hook.ts:108-152 | a `CallExpression` visit is `Record` of the call's cause; the ancestor loop finds a component ancestor if there is one |
| `UseClientHook.HookRule.ExitProgram` | src/lib/rules/use-client-hook.ts:153-163 | `Program:exit` reports exactly when no directive is present and hooks were recorded |
| `UseClientHook.Lint` | src/lib/rules/use-client-hook.ts:74-164 | running the rule over a file gives `Outcome`: a finding exactly when the file is not ignored, has no directive, and some call records a hook |
| `UseClientHook.HooksInCustomHookIgnored` | src/test/useClientHook/cases/case4.valid.tsx:3-11 | a hook called inside `useCustomHook` records nothing |
| `UseClientHook.NamespacedHookRecorded` | src/test/useClientHook/react.test.ts:86-91 | `React.useState` inside a component is recorded as `React.useState` |
| `BrowserApi.NonReadPositions` | src/lib/rules/browser-api.ts:19-24 | the property of a member access, and the name a declarator binds, are never read references |
| `BrowserApi.BrowserContributions` | src/lib/rules/browser-api.ts:92-110 | over a run, a name is contributed exactly when some visit reads it as an identifier that is in the registry, has no defined variable of that name in its scope, and stands in a read position |
| `BrowserApi.BrowserFindingCauses` | src/lib/rules/browser-api.ts:92-123 | a finding's message lists, each once and in order of first read, exactly the names some visit reads as unshadowed registry globals |
| `BrowserApi.ShadowedGlobalIgnored` | src/lib/rules/browser-api.ts:99-102 | a name with a defined variable in the node's scope records nothing |
| `BrowserApi.BrowserApiRule.constructor` | src/lib/rules/browser-api.ts:65-71 | a rule starts with both flags false, no cause, and the given registry |
| `BrowserApi.BrowserApiRule.EnterProgram` | src/lib/rules/browser-api.ts:74-91 | `Program` sets the directive flags to the scan's result |
| `BrowserApi.BrowserApiRule.VisitIdentifier` | src/lib/rules/browser-api.ts:92-110 | an `Identifier` visit is `Record` of the identifier's cause |
| `BrowserApi.BrowserApiRule.ExitProgram` | src/lib/rules/browser-api.ts:112-123 | `Program:exit` reports exactly when no directive is present and a browser global was recorded |
| `BrowserApi.Lint` | src/lib/rules/browser-api.ts:56-125 | running the rule over a file gives `Outcome`: a finding exactly when the file is not ignored, has no directive, and some identifier records a global |
| `BrowserApi.WindowLocationAssignment` | src/test/browserApi/cases/case1.invalid.tsx:5 | `window.location.href = …` gives one finding naming only `window`, even with `location` in the registry |
| `EventHandler.FirstEventHandler` | src/lib/rules/event-handler.ts:79-90 | the result is present exactly when some attribute is an `on<Upper>` handler; it is the name of the first such attribute |
| `EventHandler.ComponentTagIgnored` | src/lib/rules/event-handler.ts:75-78 | a tag that is not a lower-case `JSXIdentifier` contributes nothing |
| `EventHandler.NonHandlerAttributeSkipped` | src/lib/rules/event-handler.ts:80-83 | a spread attribute, or an attribute not named `on<Upper>…`, is skipped |
| `EventHandler.ButtonExamples` | src/test/eventHandler/react.test.ts:34-38 | `<button onClick>` contributes `onClick`; `<MyButton onClick>` contributes nothing |
| `EventHandler.EventHandlerRule.constructor` | src/lib/rules/event-handler.ts:45-49 | a rule starts with both flags false, `hasEventHandler` false and no cause |
| `EventHandler.EventHandlerRule.EnterProgram` | src/lib/rules/event-handler.ts:52-69 | `Program` sets the directive flags to the scan's result |
| `EventHandler.EventHandlerRule.VisitJSXOpeningElement` | src/lib/rules/event-handler.ts:70-95 | a `JSXOpeningElement` visit is `Record` of the element's cause; the attribute loop stops at the first handler, so at most one cause is added and `hasEventHandler` is never reset |
| `EventHandler.EventHandlerRule.ExitProgram` | src/lib/rules/event-handler.ts:96-107 | `Program:exit` reports exactly when no directive is present and a handler was recorded |
| `EventHandler.Lint` | src/lib/rules/event-handler.ts:36-109 | running the rule over a file gives `Outcome`: a finding exactly when the file is not ignored, has no directive, and some native element has a handler |

## Left out

- `ignorePath` matching (`path.relative`, `micromatch.isMatch`) is external. The model takes its result as the boolean `ignored`. When it is set, the rule has no visitors and reports nothing.
- The host supplies the following, and the model takes them as inputs: the scope manager, `getAncestors`, the parent link, node identity and the traversal order. Scope analysis itself is not modelled.
- The browser-global registry is generated offline by `src/utils/browserApi.js`, and the generated list is not part of this model. The registry is a parameter.
- Parsing is not modelled, and neither is applying the fix to source text. The fix is the inserted text `'use client'\n`. Idempotence is stated for a program whose body starts with the `'use client'` statement that the parser would read back.
- Directives.UseClientStatement: stands for the parser's reading of the inserted text `'use client'\n` as a directive statement. That reading fails when the file's first statement starts with `(`, `[` or a backtick. JavaScript then inserts no semicolon after the literal, so the fixed file begins with the expression `'use client'(…)`, `'use client'[…]` or a tagged template, and the next pass finds no directive. `FixIsIdempotent` does not cover that case.
- The rules' `meta` objects and option schemas are left out, as is the plugin entry point `src/index.ts`. They hold configuration only.
- `HookRule.EnterProgram`, `BrowserApiRule.EnterProgram` and `EventHandlerRule.EnterProgram` require the state that `create` leaves. This is because the host calls `Program` once, first, on a fresh rule instance. The behaviour of a second `Program` call is not modelled.
- Node types the rules never inspect are collapsed into `OtherNode`. The `computed` flag of member expressions is not represented, because no rule reads it.
