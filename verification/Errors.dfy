/** The error codes of include/fs_vfs.h that the file system model returns. */
module Errors {
  const ENOENT: int := -2
  const ENOMEM: int := -3
  const EINVAL: int := -4
  const EACCES: int := -6
  const EEXIST: int := -7
  const EINTERR: int := -8
  const EBUSY: int := -11
}
