/** The Some/None datatype used for every value that may be missing:
    a table that was never loaded or was discarded, a cell that holds NaN,
    a date that could not be parsed. */
module Options {

  datatype Option<+T> = None | Some(value: T)
}
