/** What the store uses of SHA-256 and lz4. */
module Content {
  import opened Basics
  import Hex

  const SHA256_HEX_LENGTH: nat := 64

  /** The hash in hex, the lz4 writer, and what an lz4 reader delivers. */
  datatype Codec = Codec(sha256: Bytes -> string, compress: Bytes -> Bytes, decompress: Bytes -> Bytes)

  /** The hash a zeroed [sha256.Size]byte stands for. */
  function ZeroHash(): string {
    seq(SHA256_HEX_LENGTH, i => '0')
  }

  /** The assumptions on hash and codec, for the contents that are ever uploaded. */
  ghost predicate Sound(codec: Codec, contents: set<Bytes>) {
    && (forall c | c in contents ::
          && |codec.sha256(c)| == SHA256_HEX_LENGTH
          && Hex.AllLowerHex(codec.sha256(c))
          && codec.sha256(c) != ZeroHash())
    && (forall c, d | c in contents && d in contents && codec.sha256(c) == codec.sha256(d) :: c == d)
    && (forall c | c in contents :: codec.decompress(codec.compress(c)) == c)
  }

  /** It is the print of 32 zero bytes. */
  lemma ZeroHashIsPrinted()
    ensures ZeroHash() == Hex.Print(seq(32, i => 0 as Byte))
  {
    ZerosPrint(32);
  }

  lemma {:induction false} ZerosPrint(n: nat)
    ensures Hex.Print(seq(n, i => 0 as Byte)) == seq(2 * n, i => '0')
  {
    if n > 0 {
      ZerosPrint(n - 1);
      assert seq(n, i => 0 as Byte)[1..] == seq(n - 1, i => 0 as Byte);
    }
  }
}
