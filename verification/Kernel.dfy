/** Errno values and the shape of a system call result. */
module Kernel {
  const EPERM: int := 1
  const EINTR: int := 4
  const ECHILD: int := 10
  const EAGAIN: int := 11
  const ENOMEM: int := 12
  const EFAULT: int := 14

  datatype SysResult = Ok(n: nat) | Err(errno: int)
}
