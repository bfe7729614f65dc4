/** Optional values and results, standing for the nullable pointers,
    std::optional and std::expected of the compiler. */
module Wrappers {

  datatype Option<+T> = None | Some(value: T)

  datatype Result<+T, +E> = Ok(value: T) | Err(error: E)
}

/** The IR types the core distinguishes: integers of a given bit width,
    a floating-point tag without numeric meaning, and void. */
module IrTypes {

  datatype Type = Int(width: nat) | Float | Void | Other

  predicate IsInteger(t: Type) {
    t.Int?
  }
}

/** size_t: 64-bit unsigned arithmetic, which wraps around at 2^64. */
module SizeT {

  /** 2^64. */
  const SizeMod: nat := 0x1_0000_0000_0000_0000
}
