/** The part of the cipher library the transaction record calls into.
    Its types are fixed-size byte arrays; its operations (hashing, key
    derivation, signing, signature checks, hex display) are not
    reimplemented: a `Suite` value carries them as uninterpreted functions,
    and `Sound` states the one property the transaction code relies on. */
module Cipher {

  newtype byte = x: int | 0 <= x < 256

  /** A byte string of exactly `n` zero bytes: the zero value of a Go array. */
  function Zeros(n: nat): (s: seq<byte>)
    ensures |s| == n && forall i :: 0 <= i < n ==> s[i] == 0
  {
    seq(n, _ => 0)
  }

  type SHA256 = s: seq<byte> | |s| == 32 witness Zeros(32)
  type Ripemd160 = s: seq<byte> | |s| == 20 witness Zeros(20)
  type SecKey = s: seq<byte> | |s| == 32 witness Zeros(32)
  type PubKey = s: seq<byte> | |s| == 33 witness Zeros(33)
  type Sig = s: seq<byte> | |s| == 65 witness Zeros(65)

  /** An address: a version byte and the RIPEMD-160 digest of a public key. */
  datatype Address = Address(Version: byte, Key: Ripemd160)

  /** `cipher.Sig{}`, the all-zero signature. */
  function ZeroSig(): Sig
  {
    Zeros(65)
  }

  /** `cipher.SHA256{}`, the all-zero digest. */
  function ZeroSHA256(): SHA256
  {
    Zeros(32)
  }

  /** The cipher operations, as opaque functions. A `bool` stands for a Go
      `error` result: true exactly when the call returns nil. */
  datatype Suite = Suite(
    SumSHA256: seq<byte> -> SHA256,
    AddressFromSecKey: SecKey -> Address,
    PubKeyFromSecKey: SecKey -> PubKey,
    SignHash: (SHA256, SecKey) -> Sig,
    // cipher.VerifySignature(pubkey, sig, hash)
    VerifySignature: (PubKey, Sig, SHA256) -> bool,
    // cipher.ChkSig(address, hash, sig)
    ChkSig: (Address, SHA256, Sig) -> bool,
    // Address.Verify(pubkey), with the address as first argument
    AddressVerify: (Address, PubKey) -> bool,
    // SHA256.Hex()
    SHA256Hex: SHA256 -> string)
  {
    /** The address and the public key derived from `sk` agree: the
        condition under which signing does not panic. */
    predicate KeyConsistent(sk: SecKey)
    {
      AddressVerify(AddressFromSecKey(sk), PubKeyFromSecKey(sk))
    }

    /** Signing is sound: a hash signed with a consistent key passes both
        signature checks, against the key's public key and its address. */
    ghost predicate Sound()
    {
      forall sk: SecKey, h: SHA256 ::
        KeyConsistent(sk) ==>
          VerifySignature(PubKeyFromSecKey(sk), SignHash(h, sk), h) &&
          ChkSig(AddressFromSecKey(sk), h, SignHash(h, sk))
    }
  }
}
