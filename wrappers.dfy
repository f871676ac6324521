/** The optional value used for pd.cut's NaN and for a regex that finds no match */
module Wrappers {

  datatype Option<T> = None | Some(value: T)
}
