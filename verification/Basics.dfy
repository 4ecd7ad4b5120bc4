// Scalar and wrapper types shared by every module of the model.
module Basics {

  const TWO64: int := 0x1_0000_0000_0000_0000
  const TWO32: int := 0x1_0000_0000

  type byte = x: int | 0 <= x < 256
  type u64 = x: int | 0 <= x < TWO64

  type Bytes = seq<byte>

  // A content hash: exactly 32 bytes (sha256::Digest).
  type Digest = d: seq<byte> | |d| == 32 witness seq(32, i => 0)

  // The content hash of a byte string, left uninterpreted: every result holds for any such function.
  type HashFn = Bytes -> Digest

  datatype Option<+T> = None | Some(value: T)

  datatype Result<+T> = Ok(value: T) | Err

  const ZERO_DIGEST: Digest := [0, 0, 0, 0, 0, 0, 0, 0, 0, 0, 0, 0, 0, 0, 0, 0, 0, 0, 0, 0, 0, 0, 0, 0, 0, 0, 0, 0, 0, 0, 0, 0]

  // Wrapping once or at every addition comes to the same.
  lemma RemainderAdds(x: nat, y: nat)
    ensures (x % TWO64 + y) % TWO64 == (x + y) % TWO64
  {
  }

  lemma Distributes(p: int, x: int, y: int)
    ensures p * (x - y) == p * x - p * y
  {
  }

  lemma AtLeastOnce(p: nat, n: nat)
    requires n >= 1
    ensures p * n >= p
  {
  }

  // Quotient and remainder are determined.
  lemma DivModUnique(p: nat, q: int, r: nat, q': int, r': nat)
    requires r < p && r' < p && p * q + r == p * q' + r'
    ensures q == q' && r == r'
  {
    Distributes(p, q, q');
    Distributes(p, q', q);
    if q > q' {
      AtLeastOnce(p, q - q');
    } else if q' > q {
      AtLeastOnce(p, q' - q);
    }
  }

  function Pow2(k: nat): (p: nat)
    ensures p >= 1
  {
    if k == 0 then 1 else 2 * Pow2(k - 1)
  }
}
