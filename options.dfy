/** Python's optional values as the CSV formatter sees them: `Optional[str]`
    and `Optional[float]`, what an f-string prints for them, and truthiness. */
module Options {

  datatype Option<T> = None | Some(value: T)

  /** What `f"{x}"` prints for an `Optional[str]`: the text itself, or `None`. */
  function Render(o: Option<string>): string
  {
    match o
    case None => "None"
    case Some(s) => s
  }

  /** Python truthiness of an `Optional[str]`: `None` and `""` are falsy. */
  predicate Truthy(o: Option<string>)
  {
    o.Some? && o.value != ""
  }

  /** `x if x else "null"` for an `Optional[str]`. */
  function OrNull(o: Option<string>): string
  {
    if Truthy(o) then o.value else "null"
  }
}
