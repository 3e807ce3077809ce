/** Optional values, used for the nullable attributes of the data model
    (a Translation's tri-state approval, a Key's index within its Section). */
module Wrappers {

  datatype Option<+T> = None | Some(value: T)
}
