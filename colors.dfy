/** Cell colours and the failures the grid code can raise. */
module ColorModel {

  /** A cell colour: `Color.Empty` or `Color.FromArgb(argb)` for a 32-bit ARGB value.
      Equality is structural. `Empty` and `Argb(0)` are different values, because the
      two .NET colours compare unequal. */
  datatype Color = Empty | Argb(argb: int)

  /** The .NET exceptions the modelled code can throw, as values. */
  datatype Fault =
    | IndexOutOfRange      // an array or string index outside its bounds
    | ArgumentOutOfRange   // StringBuilder.Length set below zero
    | Format               // int.Parse on a token that is not an integer
    | Overflow             // int.Parse on an integer outside the 32-bit range

  /** A value, or the exception that replaced it. */
  datatype Result<+T> = Ok(value: T) | Err(fault: Fault)
}
