/** The single-kitty ownership-transfer record: construction, hashing,
    signing, one-step verification against a predecessor, and the
    generation classifier. Cipher operations and the encoder reach this
    module as the opaque functions of a `Deps` value. */
module Transaction {
  import opened Cipher
  import opened Wrappers
  import Kitty

  /** A transaction hash. The all-zero digest is the sentinel "no input". */
  type ID = SHA256

  /** The "no predecessor" sentinel that a generation record carries in `In`. */
  function EmptyID(): (id: ID)
    ensures forall i :: 0 <= i < |id| ==> id[i] == 0
  {
    ZeroSHA256()
  }

  /** `ID.Hex`: the display form of a hash, computed by the cipher library. */
  function Hex(c: Suite, h: ID): (s: string)
  {
    c.SHA256Hex(h)
  }

  /** `IDs.ToStringArray`: the display form of every hash, in order. */
  method ToStringArray(c: Suite, ids: seq<ID>) returns (out: seq<string>)
    ensures |out| == |ids|
    ensures forall i :: 0 <= i < |ids| ==> out[i] == Hex(c, ids[i])
  {
    var a := new string[|ids|];
    for i := 0 to |ids|
      invariant forall j :: 0 <= j < i ==> a[j] == Hex(c, ids[j])
    {
      a[i] := Hex(c, ids[i]);
    }
    out := a[..];
  }

  /** One transfer of one kitty: the record spends `In` and names the new
      owner `Out`; `Sig` signs the record's inner hash. */
  datatype Transaction = Transaction(KittyID: Kitty.ID, In: ID, Out: Address, Sig: Sig)

  newtype uint64 = x: int | 0 <= x < 0x1_0000_0000_0000_0000
  newtype int64 = x: int | -0x8000_0000_0000_0000 <= x < 0x8000_0000_0000_0000

  /** Bookkeeping kept beside a record; no signature covers it. */
  datatype Meta = Meta(Seq: uint64, TS: int64)

  datatype Wrapper = Wrapper(Tx: Transaction, Meta: Meta)

  /** The error kinds the transaction code returns. */
  datatype Error =
    | Unauthorized                                  // the key does not own the input
    | BrokenLink(expected: ID, got: ID)             // `In` is not the expected input
    | KittyMismatch(expectedKitty: Kitty.ID, gotKitty: Kitty.ID)
    | BadSig                                        // the signature check returned an error

  /** What the record code calls: the cipher library and `encoder.Serialize`,
      a deterministic function of the record's field values. */
  datatype Deps = Deps(cipher: Suite, Serialize: Transaction -> seq<byte>)

  /** `Transaction.Hash`: the hash of the whole serialised record, signature included. */
  function Hash(d: Deps, tx: Transaction): (h: ID)
  {
    d.cipher.SumSHA256(d.Serialize(tx))
  }

  /** `Transaction.HashInner`: the hash of a copy of the record whose `Sig`
      is zeroed. This is what a signature signs. */
  function HashInner(d: Deps, tx: Transaction): (h: SHA256)
  {
    var unsigned := tx.(Sig := ZeroSig());
    Hash(d, unsigned)
  }

  /** `Transaction.Sign`. Go panics unless the address and public key
      derived from `sk` agree; here that is the precondition. */
  function Sign(d: Deps, tx: Transaction, sk: SecKey): (s: Sig)
    requires d.cipher.KeyConsistent(sk)
    ensures d.cipher.Sound() ==>
      d.cipher.VerifySignature(d.cipher.PubKeyFromSecKey(sk), s, HashInner(d, tx)) &&
      d.cipher.ChkSig(d.cipher.AddressFromSecKey(sk), HashInner(d, tx), s)
  {
    d.cipher.SignHash(HashInner(d, tx), sk)
  }

  /** `NewGenTx`: the record that creates kitty `kittyID`, owned by the
      address of `sk` and signed with `sk`. */
  function NewGenTx(d: Deps, kittyID: Kitty.ID, sk: SecKey): (tx: Transaction)
    requires d.cipher.KeyConsistent(sk)
    ensures tx.KittyID == kittyID
    ensures tx.In == EmptyID()
    ensures tx.Out == d.cipher.AddressFromSecKey(sk)
    ensures tx.Sig == Sign(d, tx, sk)
  {
    var unsigned := Transaction(kittyID, EmptyID(), d.cipher.AddressFromSecKey(sk), ZeroSig());
    unsigned.(Sig := Sign(d, unsigned, sk))
  }

  /** `NewTransferTx`: a record that spends `input` and hands the kitty to
      `out`. It refuses to build one unless `sk` owns `input.Out`; that
      refusal comes before signing, so only an owning key must be consistent. */
  function NewTransferTx(d: Deps, input: Transaction, out: Address, sk: SecKey): (r: Result<Transaction, Error>)
    requires d.cipher.AddressFromSecKey(sk) == input.Out ==> d.cipher.KeyConsistent(sk)
    ensures r.Failure? <==> d.cipher.AddressFromSecKey(sk) != input.Out
    ensures r.Failure? ==> r.error == Unauthorized
    ensures r.Success? ==>
      r.value.KittyID == input.KittyID && r.value.In == Hash(d, input) && r.value.Out == out &&
      r.value.Sig == Sign(d, r.value, sk)
  {
    if input.Out != d.cipher.AddressFromSecKey(sk) then
      Failure(Unauthorized)
    else
      var unsigned := Transaction(input.KittyID, Hash(d, input), out, ZeroSig());
      Success(unsigned.(Sig := Sign(d, unsigned, sk)))
  }

  /** The input a record must carry: the sentinel when there is no
      predecessor, the predecessor's full hash otherwise. */
  function ExpectedIn(d: Deps, input: Option<Transaction>): (id: ID)
  {
    match input
    case None => EmptyID()
    case Some(prev) => Hash(d, prev)
  }

  /** The structural conditions of one step: the link, and for a transfer
      the unchanged kitty. */
  predicate Linked(d: Deps, tx: Transaction, input: Option<Transaction>)
  {
    tx.In == ExpectedIn(d, input) && (input.Some? ==> tx.KittyID == input.value.KittyID)
  }

  /** The cryptographic condition of one step: a generation record is signed
      under the trusted key, a transfer under the predecessor's output address. */
  predicate Signed(d: Deps, tx: Transaction, input: Option<Transaction>, genPK: PubKey)
  {
    match input
    case None => d.cipher.VerifySignature(genPK, tx.Sig, HashInner(d, tx))
    case Some(prev) => d.cipher.ChkSig(prev.Out, HashInner(d, tx), tx.Sig)
  }

  /** `Transaction.VerifyWith`: checks one step, `input == None` standing for
      Go's nil predecessor. The link is checked first, then the kitty, then
      the signature. The generation branch does not compare `Out` with `genPK`. */
  function VerifyWith(d: Deps, tx: Transaction, input: Option<Transaction>, genPK: PubKey): (r: Outcome<Error>)
    ensures r == Pass <==> Linked(d, tx, input) && Signed(d, tx, input, genPK)
    ensures tx.In != ExpectedIn(d, input) ==> r == Fail(BrokenLink(ExpectedIn(d, input), tx.In))
    ensures input.Some? && tx.In == ExpectedIn(d, input) && tx.KittyID != input.value.KittyID ==>
      r == Fail(KittyMismatch(input.value.KittyID, tx.KittyID))
    ensures r == Fail(BadSig) <==> Linked(d, tx, input) && !Signed(d, tx, input, genPK)
    ensures r != Fail(Unauthorized)
  {
    match input
    case None =>
      if tx.In != EmptyID() then
        Fail(BrokenLink(EmptyID(), tx.In))
      else if d.cipher.VerifySignature(genPK, tx.Sig, HashInner(d, tx)) then
        Pass
      else
        Fail(BadSig)
    case Some(prev) =>
      if tx.In != Hash(d, prev) then
        Fail(BrokenLink(Hash(d, prev), tx.In))
      else if tx.KittyID != prev.KittyID then
        Fail(KittyMismatch(prev.KittyID, tx.KittyID))
      else if d.cipher.ChkSig(prev.Out, HashInner(d, tx), tx.Sig) then
        Pass
      else
        Fail(BadSig)
  }

  /** `Transaction.IsKittyGen`: advisory; true when the record has the
      shape of a generation record for `pk`. Its log output is not modelled. */
  function IsKittyGen(d: Deps, tx: Transaction, pk: PubKey): (b: bool)
    ensures b <==> tx.In == EmptyID() && d.cipher.AddressVerify(tx.Out, pk)
  {
    if tx.In != EmptyID() then
      false
    else if !d.cipher.AddressVerify(tx.Out, pk) then
      false
    else
      true
  }
}
