/** What several components share. */
module Common {

  datatype Option<T> = None | Some(value: T)

  newtype byte = x: int | 0 <= x < 0x100

  type Bytes = seq<byte>

  function Elements<T(==)>(s: seq<T>): set<T> { set x | x in s }

  /** A stream cipher xors a key stream: applying it twice gives the text back. */
  ghost predicate LawfulStream(stream: (Bytes, Bytes, Bytes) -> Bytes)
  {
    && (forall key, nonce, text :: |stream(key, nonce, text)| == |text|)
    && (forall key, nonce, text :: stream(key, nonce, stream(key, nonce, text)) == text)
  }

  ghost predicate LawfulMac(mac: (Bytes, Bytes) -> Bytes, size: nat)
  {
    forall key, text :: |mac(key, text)| == size
  }

  /** The number of values that n bytes can hold. */
  function Pow256(n: nat): (r: nat)
    ensures r > 0
  {
    if n == 0 then 1 else 256 * Pow256(n - 1)
  }
}
