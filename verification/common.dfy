/** Small shared vocabulary: optional values, results, and the string
    predicates the converter relies on (`str.startswith`, `str.endswith`,
    Python truthiness of an optional string). */
module Common {

  /** An optional value; `None` stands for Python's `None`. */
  datatype Option<T> = None | Some(value: T)

  /** The outcome of an operation that can fail with a descriptive error. */
  datatype Result<T, E> = Success(value: T) | Failure(error: E)

  /** `s.startswith(prefix)` */
  predicate StartsWith(s: string, prefix: string)
  {
    |prefix| <= |s| && s[..|prefix|] == prefix
  }

  /** `s.endswith(suffix)` */
  predicate EndsWith(s: string, suffix: string)
  {
    |suffix| <= |s| && s[|s| - |suffix|..] == suffix
  }

  /** Python truthiness of an `Optional[str]`: both `None` and `""` are false. */
  predicate Truthy(o: Option<string>)
  {
    o.Some? && o.value != ""
  }
}
