/** Values shared by the sheet layout and table models. */
module Common {

  datatype Option<T> = None | Some(value: T)

  datatype Result<T, E> = Ok(value: T) | Err(error: E) {
    predicate IsFailure() { Err? }

    function PropagateFailure<U>(): Result<U, E>
      requires Err?
    {
      Err(error)
    }

    function Extract(): T
      requires Ok?
    {
      value
    }
  }

  /** A cell of a worksheet or a field of a table row. */
  datatype Value =
    | Text(s: string)
    | Number(x: real)
    | Date(day: int)                   // a calendar date, as a day number
    | Missing                          // the NaN that concatenation fills in
    | Ratio(num: Value, den: Value)    // a floating-point quotient, not evaluated

  /** Python's str.lower, restricted to the ASCII letters. */
  function LowerChar(c: char): char
  {
    if 'A' <= c <= 'Z' then (c as int + 32) as char else c
  }

  function Lower(s: string): string
  {
    seq(|s|, i requires 0 <= i < |s| => LowerChar(s[i]))
  }
}
