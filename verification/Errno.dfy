/** Error numbers of src/errno.h; a failing call returns the negated number. */
module Errno {
  const ENOENT := 2
  const EIO := 5
  const EBADF := 9
  const EACCES := 13
  const EFAULT := 14
  const EEXIST := 17
  const ENOTDIR := 20
  const EISDIR := 21
  const EINVAL := 22
  const EMFILE := 24
  const ENOSPC := 28
  const ENAMETOOLONG := 36
  const ENOTEMPTY := 39
}
