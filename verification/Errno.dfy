/** The kernel error codes the model uses (kern/include/kern/errno.h). */
module Errno {
  datatype Err = OK | EINVAL | ENAMETOOLONG | ENOMEM | ENOENT | EEXIST | EAGAIN | EBUSY | ENOSPC

  // The number that stands for a code
  function Number(e: Err): nat {
    match e
    case OK => 0
    case EINVAL => 1
    case ENAMETOOLONG => 3
    case ENOMEM => 4
    case ENOENT => 6
    case EEXIST => 9
    case EAGAIN => 11
    case EBUSY => 16
    case ENOSPC => 20
  }
}
