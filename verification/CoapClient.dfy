/** The message side of `coap_client.c`: tokens, matching a reply to the pending request, and ETags. */
module CoapClient {
  import opened Bytes

  const EMPTY := 0
  const CONTENT := 69 // 2.05
  const TOKEN_VALUES: nat := 0x1_0000_0000
  const ETAG_MAX := 8

  datatype Option<T> = None | Some(value: T)

  datatype MessageType = CON | NON | ACK | RST

  /** Block2 option of section 2.2 of RFC 7959: block number, more flag, size exponent. */
  datatype Block = Block(num: nat, more: bool, szx: nat)

  datatype Message = Message(
    kind: MessageType, code: nat, mid: nat, token: seq<Byte>,
    format: Option<int>, etag: Option<seq<Byte>>, block2: Option<Block>, payload: seq<Byte>)

  datatype ParseResult = ParseNone | ParseIgnored | ParseReset | ParseAck | ParseResponse | ParseConResponse

  /** The 4 token bytes of the 32-bit token; their order in memory does not matter for matching. */
  function TokenBytes(token: nat): (s: seq<Byte>) { ToBe(token, 4) }

  lemma TokenBytesInjective(a: nat, b: nat)
    requires a < TOKEN_VALUES && b < TOKEN_VALUES && TokenBytes(a) == TokenBytes(b)
    ensures a == b
  {
    assert Range(4) == TOKEN_VALUES by { assert Range(2) == 0x1_0000; }
    BeRoundTrip(a, 4);
    BeRoundTrip(b, 4);
  }

  /** `coap_client_match`. */
  function Match(msg: Message, mid: nat, token: nat): (r: ParseResult)
    ensures r in {ParseResponse, ParseConResponse} <==> msg.code != EMPTY && msg.token == TokenBytes(token)
    ensures r == ParseConResponse <==> msg.code != EMPTY && msg.token == TokenBytes(token) && msg.kind == CON
    ensures r == ParseAck <==> msg.code == EMPTY && msg.kind == ACK && msg.mid == mid
    ensures r == ParseIgnored <==> msg.code == EMPTY && (msg.kind == CON || (msg.kind == NON && msg.mid == mid))
    ensures r == ParseReset <==> msg.code == EMPTY && msg.kind == RST && msg.mid == mid
  {
    if msg.code == EMPTY then
      if msg.kind == CON then ParseIgnored
      else if mid == msg.mid then
        match msg.kind
        case ACK => ParseAck
        case RST => ParseReset
        case _ => ParseIgnored
      else ParseNone
    else if msg.token != TokenBytes(token) then ParseNone
    else if msg.kind == CON then ParseConResponse
    else ParseResponse
  }

  /** The 9-byte buffer an ETag is kept in: its length, its first 8 bytes, zeros. */
  function EtagBuffer(etag: seq<Byte>): (s: seq<Byte>)
    ensures |s| == ETAG_MAX + 1 && s[0] == Min(|etag|, ETAG_MAX)
    ensures forall j :: 1 <= j <= ETAG_MAX ==> s[j] == if j <= |etag| then etag[j - 1] else 0
  {
    var n := Min(|etag|, ETAG_MAX);
    [n] + etag[..n] + seq(ETAG_MAX - n, _ => 0)
  }

  /** Two ETags give the same buffer exactly when their first 8 bytes agree, so the comparison of
      buffers is exact for ETags of the 1 to 8 bytes that section 5.10.6 of RFC 7252 allows. */
  lemma EtagBuffersAgree(a: seq<Byte>, b: seq<Byte>)
    ensures EtagBuffer(a) == EtagBuffer(b) <==> a[..Min(|a|, ETAG_MAX)] == b[..Min(|b|, ETAG_MAX)]
  {
    if EtagBuffer(a) == EtagBuffer(b) {
      var n := Min(|a|, ETAG_MAX);
      assert EtagBuffer(a)[0] == n && EtagBuffer(b)[0] == Min(|b|, ETAG_MAX);
      assert EtagBuffer(a)[1..1 + n] == a[..n];
      assert EtagBuffer(b)[1..1 + n] == b[..n];
    }
  }

  /** `coap_client_decode_etag`: fills the buffer and returns the number of bytes kept. */
  method DecodeEtag(option: seq<Byte>, etag: array<Byte>) returns (len: nat)
    requires etag.Length == ETAG_MAX + 1
    modifies etag
    ensures len == Min(|option|, ETAG_MAX) && etag[..] == EtagBuffer(option)
  {
    for i := 0 to etag.Length
      invariant forall j :: 0 <= j < i ==> etag[j] == 0
    {
      etag[i] := 0;
    }
    len := |option|;
    if len == 0 {
      return;
    }
    if len > ETAG_MAX {
      len := ETAG_MAX;
    }
    etag[0] := len;
    for index := 0 to len
      invariant etag[0] == len
      invariant forall j :: 1 <= j <= ETAG_MAX ==> etag[j] == if j <= index then option[j - 1] else 0
    {
      etag[1 + index] := option[index];
    }
  }
}
