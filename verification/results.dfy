/** Failure-carrying values shared by every solver.

    The solvers abort on malformed input (`expect`, `unwrap`, `panic!`,
    `?` on an error). Here an abort is a value: `None` where the source
    only panics, `Err(reason)` where it returns or reports a message. */
module Results {

  datatype Option<T> = None | Some(value: T)

  datatype Result<T> = Ok(value: T) | Err(reason: string)
}
