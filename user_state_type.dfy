/** The tag that identifies the Swift type of a node's user state. */
module UserStateTypes {
  /** A type tag: the identity of the user state's type. */
  datatype UserStateType = UserStateType(id: nat)

  /**
   * `check(against:)` passes exactly when the two tags carry the same
   * identity, and tags are nothing but that identity, so a tag that passes
   * means the stored state is of the very type asked for; otherwise it is a
   * precondition failure.
   */
  function SameType(stored: UserStateType, other: UserStateType): (b: bool)
    ensures b <==> stored == other
  {
    stored.id == other.id
  }
}
