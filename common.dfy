/** Definitions shared by the game-side modules. */
module Common {

  datatype Option<T> = None | Some(value: T)

  /** A reference to a prototype in the game data; 0 is PrototypeId.Invalid. */
  type PrototypeId = nat

  const InvalidPrototype: PrototypeId := 0

  /**
   * A C# array that may be null: None stands for null. HasValue is the
   * negation of IsNullOrEmpty.
   */
  predicate HasValue<T>(a: Option<seq<T>>) {
    a.Some? && |a.value| > 0
  }
}
