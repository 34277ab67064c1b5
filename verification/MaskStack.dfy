/** The mask stack of a warp, whose entries are one lane's activity or a whole warp's mask. */
module MaskStack {
  import opened Words

  const MASK_STACK_DEPTH := 4

  /** A push on a full stack stops the core. */
  function PushMask<T>(stack: seq<T>, top: T): Option<seq<T>> {
    if |stack| < MASK_STACK_DEPTH then Some(stack + [top]) else None
  }

  /** The saved mask and what is left; a pop on an empty stack stops the core. */
  function PopMask<T>(stack: seq<T>): Option<(T, seq<T>)> {
    if stack == [] then None else Some((stack[|stack| - 1], stack[..|stack| - 1]))
  }
}
