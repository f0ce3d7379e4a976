/**
 * Values shared by the allocator: optional arguments, results and the
 * reasons an operation is refused.
 */
module IpamTypes {
  import opened IpNetwork

  datatype Option<+T> = None | Some(value: T)

  /** An operation either yields a value or is refused with an error. */
  datatype Result<+T> = Ok(value: T) | Err(error: Error)

  /** An operation that yields nothing either passes or is refused. */
  datatype Outcome = Pass | Fail(error: Error)

  /**
   * An optional text argument after parsing: not passed (`None`), passed as
   * the empty string, or passed as a parsed value. The allocator treats the
   * empty string like a missing argument.
   */
  datatype Arg<+T> = Missing | Empty | Given(value: T)

  function Present<T>(a: Arg<T>): Option<T> {
    if a.Given? then Some(a.value) else None
  }

  /**
   * Why an operation is refused. The allocator raises one exception type,
   * `InputValidationException`, with a message per case; `MixedVersions` is
   * the library's `TypeError` from comparing networks of different families.
   */
  datatype Error =
    | SubPoolWithoutPool        // a sub-range was given without a range
    | VersionUnspecified        // a random range was asked for without a family
    | MixedVersions             // range and sub-range of different families
    | NotSubnet                 // the sub-range is not inside the range
    | VersionMismatch           // overlap test between an IPv4 and an IPv6 pool
    | NoFreeAddress             // both passes of the scan found nothing
    | NetworkAddress            // the range's network address was asked for
    | BroadcastAddress          // the IPv4 range's broadcast address was asked for
    | OutsidePool               // the address is not inside the range
    | AlreadyUsed(address: Address)
    | OverlapsPool(id: Net)     // an existing pool overlaps the new one
    | UnknownPool(id: Net)      // no pool under that identifier
}
