/** Optional values: `None` stands for the missing value (a pandas NaN or a Python None). */
module Wrappers {

  datatype Option<+T> = None | Some(value: T)

}
