/**
 The three ErgoTree shapes the device knows.  Source: src/ergo/ergo_tree.c.
 */
module ErgoTree {
  import opened Bytes

  const P2PK_LEN: nat := 36
  const P2SH_LEN: nat := 44

  const P2PK_PREFIX: bytes := [0x00, 0x08, 0xcd]
  const P2SH_PREFIX: bytes := [
    0x00, 0xea, 0x02, 0xd1, 0x93, 0xb4, 0xcb, 0xe4, 0xe3,
    0x01, 0x0e, 0x04, 0x00, 0x04, 0x30, 0x0e, 0x18]
  const P2SH_SUFFIX: bytes := [0xd4, 0x08, 0x01]

  /** The miners' fee script; the network flag of the source is ignored. */
  const MINERS_FEE_TREE: bytes := [
    0x10, 0x05, 0x04, 0x00, 0x04, 0x00, 0x0e, 0x36, 0x10, 0x02, 0x04, 0xa0, 0x0b, 0x08, 0xcd,
    0x02, 0x79, 0xbe, 0x66, 0x7e, 0xf9, 0xdc, 0xbb, 0xac, 0x55, 0xa0, 0x62, 0x95, 0xce, 0x87,
    0x0b, 0x07, 0x02, 0x9b, 0xfc, 0xdb, 0x2d, 0xce, 0x28, 0xd9, 0x59, 0xf2, 0x81, 0x5b, 0x16,
    0xf8, 0x17, 0x98, 0xea, 0x02, 0xd1, 0x92, 0xa3, 0x9a, 0x8c, 0xc7, 0xa7, 0x01, 0x73, 0x00,
    0x73, 0x01, 0x10, 0x01, 0x02, 0x04, 0x02, 0xd1, 0x96, 0x83, 0x03, 0x01, 0x93, 0xa3, 0x8c,
    0xc7, 0xb2, 0xa5, 0x73, 0x00, 0x00, 0x01, 0x93, 0xc2, 0xb2, 0xa5, 0x73, 0x01, 0x00, 0x74,
    0x73, 0x02, 0x73, 0x03, 0x83, 0x01, 0x08, 0xcd, 0xee, 0xac, 0x93, 0xb1, 0xa5, 0x73, 0x04]

  type RawPublicKey = k: bytes | |k| == 65 witness seq(65, _ => 0)

  /** The compressed form of an uncompressed point: a byte with the parity of y, and the x coordinate. */
  function Compress(key: RawPublicKey): (c: bytes)
    ensures |c| == 33 && (c[0] == 2 || c[0] == 3) && c[0] % 2 == key[64] % 2 && c[1..] == key[1..33]
  {
    [if key[64] % 2 == 1 then 0x03 else 0x02] + key[1..33]
  }

  /** ergo_tree_generate_p2pk */
  function GenerateP2pk(key: RawPublicKey): (tree: bytes)
    ensures |tree| == P2PK_LEN
  {
    P2PK_PREFIX + Compress(key)
  }

  /** ergo_tree_parse_p2pk, with the length test its caller makes first. */
  function ParseP2pk(tree: bytes): Option<bytes> {
    if |tree| == P2PK_LEN && tree[..3] == P2PK_PREFIX && (tree[3] == 0x02 || tree[3] == 0x03)
    then Some(tree[3..]) else None
  }

  /** ergo_tree_parse_p2sh, with the length test its caller makes first. */
  function ParseP2sh(tree: bytes): Option<bytes> {
    if |tree| == P2SH_LEN && tree[..17] == P2SH_PREFIX && tree[41..] == P2SH_SUFFIX
    then Some(tree[17..41]) else None
  }

  /** The tree pays to this point: the x coordinate of the key behind the prefix and the parity of its y. */
  predicate PaysTo(tree: bytes, key: RawPublicKey) {
    && |tree| == 36 && tree[..3] == [0x00, 0x08, 0xcd] && tree[4..] == key[1..33]
    && (tree[3] == 2 || tree[3] == 3) && tree[3] % 2 == key[64] % 2
  }

  /** What the change-box generator writes pays to the key, and the classifier recognises it, key included. */
  lemma GenerateParse(key: RawPublicKey)
    ensures var tree := GenerateP2pk(key); PaysTo(tree, key) && ParseP2pk(tree) == Some(tree[3..])
  {
    var tree := GenerateP2pk(key);
    assert tree[..3] == P2PK_PREFIX && tree[3..] == Compress(key);
    assert tree[4..] == tree[3..][1..];
  }

  /** Only one tree pays to a key: two keys share it exactly if x and the parity of y are the same. */
  lemma PaysToOne(tree: bytes, other: bytes, key: RawPublicKey, key': RawPublicKey)
    requires PaysTo(tree, key) && PaysTo(other, key')
    ensures tree == other <==> key[1..33] == key'[1..33] && key[64] % 2 == key'[64] % 2
  {
    assert tree == tree[..3] + [tree[3]] + tree[4..];
    assert other == other[..3] + [other[3]] + other[4..];
  }

  /** A tree is recognised exactly if it is prefix, key or hash, and suffix, and then that key or hash comes out. */
  lemma ParseExact(tree: bytes, key: bytes, hash: bytes)
    ensures ParseP2pk(tree) == Some(key)
            <==> |key| == 33 && (key[0] == 0x02 || key[0] == 0x03) && tree == P2PK_PREFIX + key
    ensures ParseP2sh(tree) == Some(hash) <==> |hash| == 24 && tree == P2SH_PREFIX + hash + P2SH_SUFFIX
  {
    if ParseP2pk(tree) == Some(key) {
      assert tree == tree[..3] + tree[3..];
    }
    if |key| == 33 && tree == P2PK_PREFIX + key {
      assert tree[..3] == P2PK_PREFIX && tree[3..] == key;
    }
    if ParseP2sh(tree) == Some(hash) {
      assert tree == tree[..17] + tree[17..41] + tree[41..];
    }
    if |hash| == 24 && tree == P2SH_PREFIX + hash + P2SH_SUFFIX {
      assert tree[..17] == P2SH_PREFIX && tree[17..41] == hash && tree[41..] == P2SH_SUFFIX;
    }
  }
}
