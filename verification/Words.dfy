/** The source's unsigned machine words. */
module Words {
  type Byte = n: nat | n < 256
  type U32 = n: nat | n < 0x1_0000_0000
  type U64 = n: nat | n < 0x1_0000_0000_0000_0000
}
