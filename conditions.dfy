/** The conditions selectors test events against. */
module Conditions {
  import opened Wrappers
  import opened StringPointers
  import opened Names
  import opened Errors
  import opened Events

  /** `isText`. */
  function IsTextCondition(e: AnyContextualizedEvent): (r: bool)
    ensures r <==> e.event.Text?
  {
    IsText(e)
  }

  /**
   * `condition(_:isTrueForElementStart:)`: the user's condition is only
   * evaluated for an element start; for any other event the answer is false
   * and whatever the user's condition would have thrown cannot surface.
   * `user` is the outcome evaluating the user's condition would have.
   */
  function ConditionTrueForElementStart(user: Result<bool, Error>, e: AnyContextualizedEvent): (r: Result<bool, Error>)
    ensures r == Ok(true) ==> IsElementStart(e)
    ensures !IsElementStart(e) ==> r == Ok(false)
    ensures IsElementStart(e) ==> r == user
  {
    if !IsElementStart(e) then Ok(false) else user
  }

  /**
   * `event(_:startsElementMatchingUserGivenName:)`: only element starts
   * match; the namespace URIs are compared only when the user's name has
   * one, then the local names.
   */
  function StartsElementMatchingName(e: AnyContextualizedEvent, userGivenName: UnsafeName): (r: bool)
    requires ReadableEvent(e) && ReadableName(userGivenName)
    ensures r <==>
      IsElementStart(e) &&
      (HasNS(userGivenName) ==> AsName(e.event.start.name).ns == AsName(userGivenName).ns) &&
      AsName(e.event.start.name).localName == AsName(userGivenName).localName
  {
    match e.event
    case ElementStart(start) =>
      if userGivenName.unsafeNSURIString.Some? &&
         !(start.name.unsafeNSURIString.Some? &&
           EqualsPointer(start.name.unsafeNSURIString.value, userGivenName.unsafeNSURIString.value))
      then false
      else EqualsPointer(userGivenName.unsafeLocalNameString, start.name.unsafeLocalNameString)
    case _ => false
  }

  /**
   * With a namespace on the user's name the test is exact name equality;
   * without one, an element in any namespace (or none) with that local name
   * matches, unlike `UnsafeName.equals`.
   */
  lemma NameMatchingAgainstEquals(e: AnyContextualizedEvent, userGivenName: UnsafeName)
    requires ReadableEvent(e) && ReadableName(userGivenName) && IsElementStart(e)
    ensures HasNS(userGivenName) ==>
      (StartsElementMatchingName(e, userGivenName) <==> Equals(e.event.start.name, AsName(userGivenName)))
    ensures !HasNS(userGivenName) ==>
      (StartsElementMatchingName(e, userGivenName) <==> HasLocalName(e.event.start.name, AsName(userGivenName).localName))
  {
  }
}
