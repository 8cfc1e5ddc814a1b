/** Shared vocabulary: options, names and the two special path components. */
module Base {

  datatype Option<+T> = None | Some(value: T)

  type Byte = bv8

  /** A path component or a pattern, as the bytes both sides read. */
  type Name = seq<Byte>

  const SLASH: Byte := 47

  /** The component `*`; in the transition table it is the wildcard slot. */
  const STAR: Name := [42]

  const DOUBLE_STAR: Name := [42, 42]
}
