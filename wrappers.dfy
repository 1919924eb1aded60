/** The optional value used where the dashboard's Python code either yields a
    value or raises (a parse that fails) or holds a JSON null. */
module Wrappers {

  datatype Option<+T> = None | Some(value: T)

}
