/** The numeric limits of src/ringl_internal.h and include/ringl/ringl.h that several modules share. */
module Limits {
  /** One context's budget for active charges plus cached staging blocks: 512 MiB. */
  const MAX_CPU_SHADOW_BYTES: nat := 512 * 1024 * 1024

  /** The budget all contexts share: 1 GiB. */
  const MAX_GLOBAL_CPU_ALLOCATION_BYTES: nat := 2 * MAX_CPU_SHADOW_BYTES

  const STAGING_CACHE_BLOCK_COUNT: nat := 4
  const STAGING_CACHE_MAX_BLOCK_BYTES: nat := 1024 * 1024
  const STAGING_CACHE_MAX_BYTES: nat := 4 * 1024 * 1024

  const OBJECT_SLOT_COUNT: nat := 1024
  const MAX_VERTEX_ATTRIBS: nat := 16
  const MAX_COLOR_ATTACHMENTS: nat := 4
  const MAX_TEXTURE_UNITS: nat := 8
  const MAX_TEXTURE_SIZE: nat := 4096
  const MAX_TEXTURE_MIP_LEVELS: nat := 13
  const CUBE_FACE_COUNT: nat := 6

  const UINT64_MAX: nat := 0xffff_ffff_ffff_ffff
}
