/** The perf protocol of docs/PROTOCOL.md as one specification, which each server is proved to refine. */
module Protocol {
  import opened Codec

  const HEADER_LEN: nat := 8

  function Zeros(n: nat): (z: seq<byte>)
    ensures |z| == n
    ensures forall i :: 0 <= i < n ==> z[i] == 0
  {
    seq(n, _ => 0)
  }

  lemma ZerosConcat(a: nat, b: nat)
    ensures Zeros(a) + Zeros(b) == Zeros(a + b)
  {
  }

  function Min(a: nat, b: nat): nat {
    if a <= b then a else b
  }

  /** The blob size a request asks for: only the leading 8 bytes are significant. */
  function Requested(input: seq<byte>): (n: nat)
    requires |input| >= HEADER_LEN
  {
    BigEndian(input[..HEADER_LEN])
  }

  /** More input after the header does not change what is asked for. */
  lemma RequestedStable(input: seq<byte>, more: seq<byte>)
    requires |input| >= HEADER_LEN
    ensures Requested(input + more) == Requested(input)
  {
    assert (input + more)[..HEADER_LEN] == input[..HEADER_LEN];
  }

  /** The header of a 64-bit size asks for that size. */
  lemma HeaderOf(n: nat)
    requires n < U64
    ensures Requested(ToBytes(n, HEADER_LEN)) == n
  {
    U64IsPow();
    DecodeEncode(n, HEADER_LEN);
    assert ToBytes(n, HEADER_LEN)[..HEADER_LEN] == ToBytes(n, HEADER_LEN);
  }

  /** What one stream has been given to send: the bytes, and whether FIN followed them. */
  datatype Output = Output(data: seq<byte>, fin: bool)

  /** The complete exchange: decode the first 8 bytes to N, send N zero bytes, then FIN. */
  predicate Served(input: seq<byte>, out: Output) {
    && |input| >= HEADER_LEN
    && out == Output(Zeros(Requested(input)), true)
  }

  /** Every moment of an exchange: a prefix of the complete one, with FIN only at its end. */
  predicate Serving(input: seq<byte>, out: Output) {
    if |input| < HEADER_LEN then
      out == Output([], false)
    else
      && |out.data| <= Requested(input)
      && out.data == Zeros(|out.data|)
      && (out.fin ==> |out.data| == Requested(input))
  }
}
