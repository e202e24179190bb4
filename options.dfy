/** The optional-value wrapper used for missing cells and failed lookups. */
module Options {

  /** `None` stands for Python's `None` and for pandas' missing value (NaN). */
  datatype Option<+T> = None | Some(value: T)

  /** A cell of a table read as text: a string, or `None` when missing. */
  type Cell = Option<string>
}
