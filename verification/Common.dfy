/** Types that several components share. */
module Common {

  datatype Option<+T> = None | Some(value: T)

  /** Sizes that the kernel fixes at compile time. */
  type Positive = n: nat | n > 0 witness 1
}
