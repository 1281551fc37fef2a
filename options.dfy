/** The optional value used for the component's nullable state (`Person | null`, `number | null`)
    and for the pending debounce slot. */
module Options {

  datatype Option<+T> = None | Some(value: T)
}
