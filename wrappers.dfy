/** Small value wrappers shared by the model. */
module Wrappers {

  /** A Go pointer or error that may be nil. */
  datatype Option<+T> = None | Some(value: T)

  /**
   * What an external dictionary loader leaves behind: the freshly created
   * dictionary object (possibly only partly filled when loading failed) and
   * the error it returned (None for Go's nil).
   */
  datatype LoadResult<+D> = LoadResult(value: D, err: Option<string>)
}
