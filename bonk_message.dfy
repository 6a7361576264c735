/**
 * The Bonk wire types of nebula-common/src/net/bonk/message.rs: the message
 * enum, its payload records, the error kinds of the Bonk layer and the
 * 64-byte `Signature` with its byte-string (de)serialisation.
 */
module BonkMessage {
  import opened Wrappers

  /** An unsigned byte (Rust's `u8`). */
  newtype u8 = x: int | 0 <= x < 0x100

  /** A byte sequence of a fixed length, standing for Rust's `[u8; N]`. */
  type Bytes16 = s: seq<u8> | |s| == 16 witness seq(16, _ => 0)
  type Bytes32 = s: seq<u8> | |s| == 32 witness seq(32, _ => 0)
  type Bytes64 = s: seq<u8> | |s| == 64 witness seq(64, _ => 0)

  /** The error kinds of the Bonk layer (`BonkError`); the CBOR encoder's error is kept without its payload. */
  datatype BonkError = HandshakeIncomplete | MalformedFrame | WriterFailure | Serialization

  /** A directory entry: a peer's public key and its address. */
  datatype PeerInformation = PeerInformation(publicKey: Bytes32, address: string)

  /** A nonce and the ciphertext it was used for. */
  datatype EncryptedData = EncryptedData(nonce: Bytes32, ciphertext: seq<u8>)

  /** A raw 64-byte signature. */
  datatype Signature = Signature(bytes: Bytes64)

  /** A signed, encrypted point-to-point payload. */
  datatype Signal = Signal(
    signalId: Bytes16,
    sender: Bytes32,
    receiver: Bytes32,
    encryptedData: EncryptedData,
    signature: Signature)

  /** The messages exchanged between peers. */
  datatype Message =
    | Bonk                          // keep-alive
    | Handshake(publicKey: Bytes32) // x25519 key exchange
    | PublishPeer(info: PeerInformation)
    | RequestPeers
    | Broadcast(signal: Signal)

  /** The deserialiser's error: a byte string of the wrong length (serde's `invalid_length`). */
  datatype DeError = InvalidLength(length: nat)

  /** The byte string a `Signature` is serialised as: its 64 bytes, in order. */
  function SerializeSignature(sig: Signature): (bytes: seq<u8>)
    ensures |bytes| == 64
    ensures forall i :: 0 <= i < 64 ==> bytes[i] == sig.bytes[i]
  {
    sig.bytes
  }

  /**
   * Builds a `Signature` from a decoded byte vector: a vector of any length
   * but 64 is refused with its length; otherwise the bytes are copied into
   * a fresh 64-byte array.
   */
  method DeserializeSignature(bytes: seq<u8>) returns (res: Result<Signature, DeError>)
    ensures res.Success? <==> |bytes| == 64
    ensures res.Success? ==> res.value.bytes == bytes
    ensures res.Failure? ==> res.error == InvalidLength(|bytes|)
  {
    if |bytes| != 64 {
      return Failure(InvalidLength(|bytes|));
    }
    var arr := new u8[64];
    var i := 0;
    while i < 64
      invariant 0 <= i <= 64
      invariant forall k :: 0 <= k < i ==> arr[k] == bytes[k]
    {
      arr[i] := bytes[i];
      i := i + 1;
    }
    return Success(Signature(arr[..]));
  }

  /** Serialising a signature and deserialising the bytes gives the same signature back. */
  method SignatureRoundTrip(sig: Signature) returns (res: Result<Signature, DeError>)
    ensures res == Success(sig)
  {
    var bytes := SerializeSignature(sig);
    res := DeserializeSignature(bytes);
  }
}
