/** The signed-in user as the pages see it: possibly not loaded yet (`null`). */
module Users {
  import opened Common

  datatype User = User(id: int, isTrainer: bool)

  /** `user?.id || -1`: the id the pages compare owners against. A missing user and the
      falsy id 0 both fall back to -1. */
  function EffectiveId(user: Option<User>): int {
    if user.Some? && user.value.id != 0 then user.value.id else -1
  }

  /** `user?.isTrainer`, read as a condition. */
  predicate IsTrainer(user: Option<User>) {
    user.Some? && user.value.isTrainer
  }

  /** The fallback id -1 is taken exactly when there is no user, or its id is 0 or -1 itself. */
  lemma EffectiveIdFallback(user: Option<User>)
    ensures EffectiveId(user) == -1 <==> user.None? || user.value.id == 0 || user.value.id == -1
    ensures user.Some? && user.value.id != 0 ==> EffectiveId(user) == user.value.id
  {
  }
}
