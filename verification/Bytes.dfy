/** Bytes, sectors and result codes shared by the file-system modules. */
module Bytes {
  type Byte = b: nat | b < 256

  const BLKSIZE: nat := 512

  type Sector = s: seq<Byte> | |s| == BLKSIZE witness seq(BLKSIZE, i => 0)

  /** The error numbers that the block layer and the file system return. */
  datatype Rc = Ok | NoDev | NoMem | Io | Inval | NoSpc | NoEnt

  /** `_fmemcpy` into the caller's buffer. */
  method Copy(dst: array<Byte>, at: nat, src: seq<Byte>)
    requires at + |src| <= dst.Length
    modifies dst
    ensures dst[..] == old(dst[..])[..at] + src + old(dst[..])[at + |src|..]
  {
    ghost var was := dst[..];
    forall i | 0 <= i < |src| {
      dst[at + i] := src[i];
    }
    assert dst[..] == was[..at] + src + was[at + |src|..];
  }
}
