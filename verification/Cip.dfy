/** Status and service codes, and the outcome of a service call
    (pkg/cip/types.go).
 */
module Cip {
  import opened Bytes

  const GET_ATTRIBUTE_SINGLE: Byte := 0x0E
  const SET_ATTRIBUTE_SINGLE: Byte := 0x10

  const SUCCESS: Byte := 0x00
  const PATH_SEGMENT_ERROR: Byte := 0x04
  const SERVICE_NOT_SUPPORTED: Byte := 0x08
  const INVALID_ATTRIBUTE_VALUE: Byte := 0x09
  const ATTRIBUTE_NOT_SUPPORTED: Byte := 0x14
  const OBJECT_DOES_NOT_EXIST: Byte := 0x16

  /** A CIP error carries a status; any other error is just an error. */
  datatype Error = CipError(status: Byte, ext: seq<U16>) | Other

  datatype Result<+T> = Ok(value: T) | Err(error: Error)

  function Fail<T>(status: Byte): Result<T> {
    Err(CipError(status, []))
  }
}
