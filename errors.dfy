/** The exceptions the calculator raises; each one ends the run. */
module Errors {
  import opened Documents

  datatype Error =
      /** The parsed configuration is not a mapping (a ValueError in the source). */
    | FormatError
      /** float() could not convert the value of entry `name`. */
    | ConversionError(name: string)
      /** The coefficient of entry `name` lies outside [0, 1] (a ValueError). */
    | RangeError(name: string, value: Double)
      /** A dict lookup found no entry for `key` (a KeyError). */
    | LookupError(key: string)
      /** Sabine's formula was given a non-positive absorption area (a ValueError). */
    | DomainError(area: real)
}
