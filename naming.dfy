/** The type namer `getActionType` (src/main.js:98-101, index.js:72-75) and
    the two variants of the design: src/main.js and index.js differ in the
    type template, the `defaultService` fallback, the handling of entries
    that are not records, the async creator's delivery and the store filter. */
module Naming {

  /** `CommonJs` is src/main.js (require/exports), `EsModule` is index.js
      (import/export). */
  datatype Variant = CommonJs | EsModule

  /** The canonical success type of an action key. */
  function SuccessType(variant: Variant, key: string): (t: string)
    ensures variant == CommonJs ==> t == "action_" + key
    ensures variant == EsModule ==> t == key + "_action"
  {
    match variant
    case CommonJs => "action_" + key
    case EsModule => key + "_action"
  }

  /** The canonical error type: the success type followed by "_error". */
  function ErrorType(variant: Variant, key: string): (t: string)
    ensures t == SuccessType(variant, key) + "_error"
  {
    SuccessType(variant, key) + "_error"
  }

  /** What `getActionType` returns: the success type alone, or the pair. */
  datatype ActionType = Single(successType: string) | Pair(successType: string, errorType: string)

  /** `getActionType(key, returnErrorType)`. */
  function GetActionType(variant: Variant, key: string, returnErrorType: bool): (r: ActionType)
    ensures r.Pair? <==> returnErrorType
    ensures r.successType == SuccessType(variant, key)
    ensures r.Pair? ==> r.errorType == r.successType + "_error"
  {
    var successType := SuccessType(variant, key);
    if returnErrorType then Pair(successType, successType + "_error") else Single(successType)
  }

  /** The key can be read back from its success type, so different keys
      never share a success type. */
  lemma SuccessTypeInjective(variant: Variant, k1: string, k2: string)
    requires SuccessType(variant, k1) == SuccessType(variant, k2)
    ensures k1 == k2
  {
    var t1, t2 := SuccessType(variant, k1), SuccessType(variant, k2);
    match variant
    case CommonJs =>
      assert t1[7..] == k1 && t2[7..] == k2;
    case EsModule =>
      assert t1[..|k1|] == k1 && t2[..|k2|] == k2;
  }

  /** Different keys never share an error type either. */
  lemma ErrorTypeInjective(variant: Variant, k1: string, k2: string)
    requires ErrorType(variant, k1) == ErrorType(variant, k2)
    ensures k1 == k2
  {
    var e1, e2 := ErrorType(variant, k1), ErrorType(variant, k2);
    var s1, s2 := SuccessType(variant, k1), SuccessType(variant, k2);
    assert e1[..|s1|] == s1 && e2[..|s2|] == s2;
    SuccessTypeInjective(variant, k1, k2);
  }

  /** index.js: an error type never equals any success type, since one ends
      in 'r' and the other in 'n'. */
  lemma EsModuleErrorTypeIsNoSuccessType(k1: string, k2: string)
    ensures ErrorType(EsModule, k1) != SuccessType(EsModule, k2)
  {
    var e, t := ErrorType(EsModule, k1), SuccessType(EsModule, k2);
    assert e[|e| - 1] == 'r';
    assert t[|t| - 1] == 'n';
  }

  /** src/main.js: the error type of `k` is the success type of the key
      `k + "_error"`, so the two templates are not disjoint there. */
  lemma CommonJsErrorTypeIsSuccessType(k: string)
    ensures ErrorType(CommonJs, k) == SuccessType(CommonJs, k + "_error")
  {
    assert "action_" + k + "_error" == "action_" + (k + "_error");
  }
}
