/** The optional value used wherever the linker gets back a null reference:
    an unresolved type or method, or a search that found nothing. */
module Options {

  datatype Option<+T> = None | Some(value: T)

}
