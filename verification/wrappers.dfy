/** A nullable cell: `None` stands for an SQL NULL or a pandas NaN. */
module Wrappers {

  datatype Option<+T> = None | Some(value: T) {

    /** The value, or `default` when the cell is empty (pandas' `fillna(default)` on one cell). */
    function GetOr(default: T): T {
      match this
      case Some(v) => v
      case None => default
    }
  }
}
