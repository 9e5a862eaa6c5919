/** World and chunk dimensions (Constants.cs). The world is a grid of
    WORLD_WIDTH x WORLD_HEIGHT x WORLD_DEPTH chunks; a chunk is a cube of
    CHUNK_SIZE voxels per side. */
module Constants {

  /** An unsigned 8-bit value (C# `byte`): voxel material ids and the
      declared type of the size constants. */
  newtype byte = b: int | 0 <= b < 256

  const WORLD_WIDTH: nat := 1
  const WORLD_HEIGHT: nat := 1
  const WORLD_DEPTH: nat := WORLD_WIDTH
  const WORLD_AREA: nat := WORLD_WIDTH * WORLD_DEPTH
  const WORLD_VOL: nat := WORLD_WIDTH * WORLD_DEPTH * WORLD_HEIGHT

  const CHUNK_SIZE: nat := 64
  const CHUNK_AREA: nat := CHUNK_SIZE * CHUNK_SIZE
  const CHUNK_VOL: nat := CHUNK_SIZE * CHUNK_SIZE * CHUNK_SIZE

  /** The derived sizes agree with the dimensions they are built from, and
      every dimension is non-zero. */
  lemma DerivedSizes()
    ensures WORLD_DEPTH == WORLD_WIDTH
    ensures WORLD_AREA == WORLD_WIDTH * WORLD_DEPTH
    ensures WORLD_VOL == WORLD_AREA * WORLD_HEIGHT
    ensures CHUNK_AREA == CHUNK_SIZE * CHUNK_SIZE
    ensures CHUNK_VOL == CHUNK_AREA * CHUNK_SIZE
    ensures 0 < WORLD_WIDTH && 0 < WORLD_HEIGHT && 0 < WORLD_DEPTH && 0 < CHUNK_SIZE
  {
  }

  /** The constants declared `byte` in the source fit in a byte, so a
      `byte` loop counter running up to CHUNK_SIZE never wraps around. */
  lemma ByteSizedConstants()
    ensures WORLD_WIDTH <= 255 && WORLD_HEIGHT <= 255 && WORLD_DEPTH <= 255
    ensures CHUNK_SIZE <= 255
  {
  }
}
