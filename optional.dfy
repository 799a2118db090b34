/** A present-or-missing value: how the model writes pandas' NaN / NaT cells. */
module Optional {

  datatype Option<+T> = None | Some(value: T)

}
