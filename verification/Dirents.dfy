/** Directory entries (hosted/fat/fat.h:dirent_t): 32 bytes in a sector. */
module Dirents {
  import opened Bytes

  /** The little-endian number in n bytes from position i on. */
  function Number(s: seq<Byte>, i: nat, n: nat): nat
    requires i + n <= |s|
    decreases n
  {
    if n == 0 then 0 else (s[i] as nat) + 256 * Number(s, i + 1, n - 1)
  }

  /** The first cluster: two bytes at offset 26. */
  function DirCluster0(s: Sector, offs: nat): nat
    requires offs + 32 <= BLKSIZE
  {
    Number(s[offs..], 26, 2)
  }

  /** The size: four bytes at offset 28. */
  function DirSize(s: Sector, offs: nat): nat
    requires offs + 32 <= BLKSIZE
  {
    Number(s[offs..], 28, 4)
  }

  /** The entry at `offs` with a new first cluster and size. */
  function PutDirent(s: Sector, offs: nat, cluster0: nat, size: nat): Sector
    requires offs + 32 <= BLKSIZE
  {
    var s1 := s[offs + 28 := size % 256][offs + 29 := size / 256 % 256];
    var s2 := s1[offs + 30 := size / 65536 % 256][offs + 31 := size / 16777216 % 256];
    s2[offs + 26 := cluster0 % 256][offs + 27 := cluster0 / 256 % 256]
  }

  lemma {:induction false} Digits(n: nat)
    requires n < 0x1_0000_0000
    ensures n % 256 + 256 * (n / 256 % 256 + 256 * (n / 65536 % 256 + 256 * (n / 16777216 % 256))) == n
  {
    assert n / 65536 == n / 256 / 256;
    assert n / 16777216 == n / 65536 / 256;
  }

  /** What is stored reads back, and every other byte of the sector stays. */
  lemma {:induction false} PutDirentGets(s: Sector, offs: nat, cluster0: nat, size: nat)
    requires offs + 32 <= BLKSIZE && cluster0 < 0x10000 && size < 0x1_0000_0000
    ensures DirCluster0(PutDirent(s, offs, cluster0, size), offs) == cluster0
    ensures DirSize(PutDirent(s, offs, cluster0, size), offs) == size
    ensures forall i :: 0 <= i < BLKSIZE && !(offs + 26 <= i < offs + 32) ==>
              PutDirent(s, offs, cluster0, size)[i] == s[i]
  {
    Digits(size);
    assert cluster0 % 256 + 256 * (cluster0 / 256) == cluster0;
    var d := PutDirent(s, offs, cluster0, size)[offs..];
    assert Number(d, 28, 4) == d[28] as nat + 256 * (d[29] as nat + 256 * (d[30] as nat + 256 * d[31] as nat)) by {
      assert Number(d, 30, 2) == d[30] as nat + 256 * Number(d, 31, 1);
      assert Number(d, 31, 1) == d[31] as nat + 256 * Number(d, 32, 0);
    }
    assert Number(d, 26, 2) == d[26] as nat + 256 * d[27] as nat by {
      assert Number(d, 27, 1) == d[27] as nat + 256 * Number(d, 28, 0);
    }
  }
}
