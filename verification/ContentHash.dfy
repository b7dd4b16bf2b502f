/** The digest every root in the evaluation contract is built from.
    SHA-256 is not modelled: a `Hash` is any function from text to a 64-character digest,
    so each theorem below holds for every such function. A text stands for its UTF-8
    encoding, which is injective and respects concatenation; a byte prefix is then a
    character in front of the text.

    No hash is assumed injective (none with a fixed length is). A binding theorem instead
    names the finitely many texts the two computations really hash and finds two different
    ones with the same digest among them. */
module ContentHash {

  const DIGEST_LENGTH: nat := 64

  type Digest = s: string | |s| == DIGEST_LENGTH witness seq(DIGEST_LENGTH, _ => '0')

  type Hash = string -> Digest

  const GENESIS_TEXT: string := "deepthought/" + "evaluation-contract/chain-genesis/v1"

  lemma GenesisShape()
    ensures |GENESIS_TEXT| < DIGEST_LENGTH && GENESIS_TEXT != [] && GENESIS_TEXT[0] == 'd'
  {
  }

  function ChainGenesis(h: Hash): string { h(GENESIS_TEXT) }

  lemma GenesisMeaning(h: Hash)
    ensures ChainGenesis(h) == h("deepthought/" + "evaluation-contract/chain-genesis/v1")
  {
  }

  predicate Collides(h: Hash, x: string, y: string) {
    x != y && h(x) == h(y)
  }

  /** Two different texts, one hashed on each side, share a digest. */
  ghost predicate Collision(h: Hash, left: set<string>, right: set<string>) {
    exists x, y :: x in left && y in right && Collides(h, x, y)
  }
}
