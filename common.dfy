/** Types shared by the agenda pipeline and the video pipeline. */
module Common {

  /** Python's `None` or a value. */
  datatype Option<T> = None | Some(value: T)

  /** A regular-expression `findall` over a text: the matched spans, left to
      right. Both address patterns have no capturing group, so each element
      is the whole matched span. The patterns themselves are not modelled;
      every operation that uses one takes it as a parameter. */
  type Extractor = string -> seq<string>
}
