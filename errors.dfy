/**
 * The ways a run of the aggregator aborts. The program never recovers from
 * any of them: each is a panic that ends the process before any output.
 */
module Errors {

  datatype Error =
    /** `&data[end..]` in `get_chunks` with `end` past the end of the buffer */
    | SliceOutOfBounds
    /** `memchr(b';', line).unwrap()` on a line that holds no `;` */
    | MalformedRecord
    /** `fast_float::parse(..).unwrap()` on value bytes that are not a number */
    | InvalidNumber
    /** `count += ..` on the `u32` field going past `u32::MAX` (overflow checks on) */
    | CountOverflow
}
