/** Failure-compatible results, the shared errors and limits, and the bounded counter type. */
module Wrappers {

  datatype Option<+T> = None | Some(value: T) {
    function UnwrapOr(default: T): T {
      if Some? then value else default
    }
  }

  /** The outcome of a fallible operation; `:-` propagates `Err`. */
  datatype Result<+T, +E> = Ok(value: T) | Err(error: E) {
    predicate IsFailure() {
      Err?
    }

    function PropagateFailure<U>(): Result<U, E>
      requires Err?
    {
      Err(error)
    }

    function Extract(): T
      requires Ok?
    {
      value
    }
  }

  // ---- 64-bit counters ----

  const U64_MAX: int := 0xFFFF_FFFF_FFFF_FFFF

  type u64 = n: int | 0 <= n <= U64_MAX

  /** Addition that sticks at the largest counter value. */
  function SaturatingAdd(a: u64, b: u64): u64 {
    if a + b > U64_MAX then U64_MAX else a + b
  }

  /** Addition that reports overflow instead of wrapping. */
  function CheckedAdd(a: u64, b: u64): Option<u64> {
    if a + b > U64_MAX then None else Some(a + b)
  }
}

/** The protocol errors and collection limits used by the modelled code. */
module Protocol {
  import opened Wrappers
  import opened Text

  datatype TrustGrantError =
    | EmptyStringField(field: string)
    | StringTooLong(field: string, maxBytes: nat)
    | CollectionTooLarge(field: string, maxItems: nat)
    | InvalidStringFieldCharacter(field: string, character: char)
    | EmptyAuthorityId
    | InvalidAuthorityIdCharacter(character: char)
    | InvalidAuthorityIdMissingScheme
    | InvalidSelectorExpressionSyntax
    | UnsupportedSelectorExpressionPredicate(value: string)
    | InvalidSelectorShape
    | InvalidScopeShape(scopeName: string)
    | DuplicateSelector
    | DuplicateAudienceAuthority
    | DuplicateOperationName
    | InvalidMintQuantity
    | MissingMutationIntentId
    | MissingTemplateId
    | InvalidMutationResourceBinding
    | MissingResourceTypeBinding
    | ResourceTypeBindingMismatch
    | MissingExpectedResourceVersion

  const MAX_RESOURCE_TYPES := 64
  const MAX_AUDIENCE_ENTRIES := 64
  const MAX_SELECTORS_PER_SCOPE := 32
  const MAX_SELECTOR_VALUES_PER_SELECTOR := 32
  const MAX_SELECTOR_EXPRESSIONS_PER_SELECTOR := 16
  const MAX_REQUEST_SELECTOR_KINDS := 32
  const MAX_REQUEST_VALUES_PER_KIND := 32
  const MAX_OPERATIONS_PER_SCOPE := 32
  const MAX_AUTHORITY_ID_BYTES := 1024
  const MAX_OPERATION_NAME_BYTES := 128
  const MAX_RESOURCE_TYPE_NAME_BYTES := 128
  const MAX_SELECTOR_KIND_BYTES := 128
  const MAX_SELECTOR_VALUE_BYTES := 256
  const MAX_SELECTOR_EXPRESSION_BYTES := 512
  const MAX_REQUEST_SELECTOR_VALUE_BYTES := 256

  function EnsureCollectionLimit(field: string, actualItems: nat, maxItems: nat): Result<(), TrustGrantError> {
    if actualItems > maxItems then Err(CollectionTooLarge(field, maxItems)) else Ok(())
  }

  function EnsureStringLimit(field: string, value: string, maxBytes: nat): Result<(), TrustGrantError> {
    if |Utf8(value)| > maxBytes then Err(StringTooLong(field, maxBytes)) else Ok(())
  }

  /** Trims a value, which must be non-empty and within the byte limit. */
  function NormalizeBounded(field: string, value: string, maxBytes: nat): Result<string, TrustGrantError> {
    var trimmed := Trim(value);
    if trimmed == [] then
      Err(EmptyStringField(field))
    else
      var _ :- EnsureStringLimit(field, trimmed, maxBytes);
      Ok(trimmed)
  }

  /** Index of the first whitespace or control character, or |value| when there is none. */
  function FirstForbidden(value: string): (i: nat)
    ensures i <= |value|
    ensures i < |value| ==> IsControl(value[i]) || IsWhitespace(value[i])
    ensures forall k :: 0 <= k < i ==> !IsControl(value[k]) && !IsWhitespace(value[k])
  {
    if value == [] then 0
    else if IsControl(value[0]) || IsWhitespace(value[0]) then 0
    else 1 + FirstForbidden(value[1..])
  }

  /** Like NormalizeBounded, and the trimmed value may hold no whitespace or control character. */
  function NormalizeToken(field: string, value: string, maxBytes: nat): Result<string, TrustGrantError> {
    var trimmed :- NormalizeBounded(field, value, maxBytes);
    var i := FirstForbidden(trimmed);
    if i < |trimmed| then Err(InvalidStringFieldCharacter(field, trimmed[i])) else Ok(trimmed)
  }
}
