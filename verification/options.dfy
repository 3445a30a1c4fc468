/** The usual Some/None datatype, used for lookups and parses that can fail
    and for the engine calls that return `null`. */
module Options {

  datatype Option<+T> = None | Some(value: T)

}
