/** Byte strings, results and the content-address types shared by the public-object modules. */
module Common {

  type Byte = x: int | 0 <= x < 256
  type Bytes = seq<Byte>

  /** The 64-bit unsigned integers of the source; CBOR heads carry nothing wider. */
  const TWO_TO_64: nat := 0x1_0000_0000_0000_0000

  datatype Option<+T> = None | Some(value: T)

  /** The sentinel errors of the public-object package. */
  datatype Error = MalformedObject | BadAddr | AddrMismatch | ManifestKeyPresent | ProofRange | ProofInvalid

  datatype Result<+T> = Ok(value: T) | Err(error: Error) {
    function GetOr(default: T): T {
      if Ok? then value else default
    }
  }

  const DIGEST_LEN: nat := 32
  const ADDR_LEN: nat := 33
  const HASH_PREFIX: Byte := 0x1e

  type Digest = d: Bytes | |d| == DIGEST_LEN witness seq(DIGEST_LEN, _ => 0)

  /** A content address: one prefix byte and a digest. The prefix is not constrained by the type. */
  type Addr = a: Bytes | |a| == ADDR_LEN witness seq(ADDR_LEN, _ => 0)

  /** Any hash function: every theorem holds for each of them, so none assumes a property of BLAKE3. */
  type Hash = Bytes -> Digest

  /** The content address of a byte string. */
  function HashBytes(h: Hash, b: Bytes): Addr {
    [HASH_PREFIX] + h(b)
  }

  /** A sequence without its i-th element. */
  function Without<T>(s: seq<T>, i: nat): seq<T>
    requires i < |s|
  {
    s[..i] + s[i + 1..]
  }

  lemma WithoutLength<T>(s: seq<T>, i: nat)
    requires i < |s|
    ensures |Without(s, i)| == |s| - 1
  {
  }

  lemma WithoutAt<T>(s: seq<T>, i: nat, j: nat)
    requires i < |s| && j < |s| - 1
    ensures |Without(s, i)| == |s| - 1 && Without(s, i)[j] == if j < i then s[j] else s[j + 1]
  {
  }

  lemma WithoutKeeps<T>(s: seq<T>, i: nat, j: nat)
    requires i < |s| && j < |s| && j != i
    ensures exists k :: 0 <= k < |Without(s, i)| && Without(s, i)[k] == s[j]
  {
    assert Without(s, i)[if j < i then j else j - 1] == s[j];
  }
}
