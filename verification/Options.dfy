/** The usual optional value. The models use `None` for "the system halted": a
    failed REQUIRE or a FATAL_ERROR stops the kernel for good. */
module Options {
  datatype Option<+T> = None | Some(value: T)
}
