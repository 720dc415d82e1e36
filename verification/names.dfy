/**
 * The two name classifiers of the plugin: what counts as a React component
 * name and what counts as a hook name. Both are regular-expression tests in
 * the plugin; here they are total predicates over strings, with their
 * character-level meaning stated as postconditions.
 */
module Names {

  /** The character class `[A-Z]`. */
  predicate IsUpper(c: char) { 'A' <= c <= 'Z' }

  /** The character class `[a-z]`. */
  predicate IsLower(c: char) { 'a' <= c <= 'z' }

  /** The character class `[0-9]`. */
  predicate IsDigit(c: char) { '0' <= c <= '9' }

  /** The character class `[a-zA-Z0-9]`. */
  predicate IsAlphaNum(c: char) { IsUpper(c) || IsLower(c) || IsDigit(c) }

  /** Matches `[a-zA-Z0-9]*$` against the whole of `s`. */
  function AllAlphaNum(s: string): (b: bool)
    ensures b <==> forall i :: 0 <= i < |s| ==> IsAlphaNum(s[i])
  {
    if s == [] then true else IsAlphaNum(s[0]) && AllAlphaNum(s[1..])
  }

  /** `/^[A-Z][a-zA-Z0-9]*$/.test(s)`: PascalCase with alphanumerics only. */
  function IsComponentName(s: string): (b: bool)
    ensures b <==> |s| >= 1 && IsUpper(s[0]) && forall i :: 1 <= i < |s| ==> IsAlphaNum(s[i])
  {
    |s| >= 1 && IsUpper(s[0]) && AllAlphaNum(s[1..])
  }

  /** `s === 'use' || /^use[A-Z0-9]/.test(s)`. */
  function IsHookName(s: string): (b: bool)
    ensures b <==> s == "use" || (|s| >= 4 && s[..3] == "use" && (IsUpper(s[3]) || IsDigit(s[3])))
    ensures b ==> |s| >= 3 && s[0] == 'u' && s[1] == 's' && s[2] == 'e'
  {
    s == "use" || (|s| > 3 && s[0] == 'u' && s[1] == 's' && s[2] == 'e' && (IsUpper(s[3]) || IsDigit(s[3])))
  }

  /** The empty string, and any name that starts with a lower-case letter or a digit, is not a component name. */
  lemma NotComponentName(s: string)
    requires s == [] || IsLower(s[0]) || IsDigit(s[0])
    ensures !IsComponentName(s)
  {
  }

  /** `use` followed by a lower-case letter (`user`, `useless`) is not a hook name. */
  lemma LowerAfterUseIsNotHook(s: string)
    requires |s| >= 4 && s[..3] == "use" && IsLower(s[3])
    ensures !IsHookName(s)
  {
  }

  /** No string is both a hook name and a component name: a hook name starts with a lower-case `u`. */
  lemma HookNameIsNotComponentName(s: string)
    ensures !(IsHookName(s) && IsComponentName(s))
  {
    if IsHookName(s) {
      assert s[0] == 'u' && !IsUpper(s[0]);
    }
  }

  /** The worked examples for component names. */
  lemma ComponentNameExamples()
    ensures IsComponentName("Foo") && IsComponentName("F1oo2")
    ensures !IsComponentName("foo") && !IsComponentName("") && !IsComponentName("My-Component")
  {
    assert AllAlphaNum("oo");
    assert AllAlphaNum("1oo2");
    assert !IsAlphaNum("My-Component"[2]);
  }

  /** The worked examples for hook names. */
  lemma HookNameExamples()
    ensures IsHookName("use") && IsHookName("useState") && IsHookName("use3D")
    ensures !IsHookName("user") && !IsHookName("USE") && !IsHookName("us")
  {
  }
}
