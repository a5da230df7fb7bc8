/** What the transaction record guarantees: the inner hash ignores the
    signature, built records verify against what they spend, tampering is
    reported with the right error, and a chain of verified steps keeps one
    kitty throughout. */
module TransactionProofs {
  import opened Cipher
  import opened Wrappers
  import opened Transaction
  import Kitty

  /** Two records that differ only in `Sig` have the same inner hash, and
      so the same signature under any key. */
  lemma HashInnerIgnoresSig(d: Deps, a: Transaction, b: Transaction)
    requires a.KittyID == b.KittyID && a.In == b.In && a.Out == b.Out
    ensures HashInner(d, a) == HashInner(d, b)
    ensures forall sk: SecKey :: d.cipher.KeyConsistent(sk) ==> Sign(d, a, sk) == Sign(d, b, sk)
  {
    assert a.(Sig := ZeroSig()) == b.(Sig := ZeroSig());
  }

  /** For a record whose `Sig` is still zero, the inner hash is its hash. */
  lemma HashInnerOfUnsigned(d: Deps, tx: Transaction)
    requires tx.Sig == ZeroSig()
    ensures HashInner(d, tx) == Hash(d, tx)
  {
    assert tx.(Sig := ZeroSig()) == tx;
  }

  /** A generation record passes the generation branch under the public key
      of the secret key that built it. */
  lemma GenTxVerifies(d: Deps, kittyID: Kitty.ID, sk: SecKey)
    requires d.cipher.Sound() && d.cipher.KeyConsistent(sk)
    ensures VerifyWith(d, NewGenTx(d, kittyID, sk), None, d.cipher.PubKeyFromSecKey(sk)) == Pass
  {
    var tx := NewGenTx(d, kittyID, sk);
    assert d.cipher.VerifySignature(d.cipher.PubKeyFromSecKey(sk), Sign(d, tx, sk), HashInner(d, tx));
  }

  /** A generation record is classified as one for the public key of the
      secret key that built it. */
  lemma GenTxIsKittyGen(d: Deps, kittyID: Kitty.ID, sk: SecKey)
    requires d.cipher.KeyConsistent(sk)
    ensures IsKittyGen(d, NewGenTx(d, kittyID, sk), d.cipher.PubKeyFromSecKey(sk))
  {
  }

  /** A transfer record that was built passes the transfer branch against the
      record it spends, whatever trusted key the verifier holds. */
  lemma TransferTxVerifies(d: Deps, input: Transaction, out: Address, sk: SecKey, genPK: PubKey)
    requires d.cipher.Sound() && d.cipher.KeyConsistent(sk)
    requires NewTransferTx(d, input, out, sk).Success?
    ensures VerifyWith(d, NewTransferTx(d, input, out, sk).value, Some(input), genPK) == Pass
  {
    var tx := NewTransferTx(d, input, out, sk).value;
    assert d.cipher.ChkSig(d.cipher.AddressFromSecKey(sk), HashInner(d, tx), Sign(d, tx, sk));
  }

  /** The transfer branch does not consult the trusted generation key. */
  lemma TransferIgnoresGenPK(d: Deps, tx: Transaction, input: Transaction, pk1: PubKey, pk2: PubKey)
    ensures VerifyWith(d, tx, Some(input), pk1) == VerifyWith(d, tx, Some(input), pk2)
  {
  }

  /** A record checked against a predecessor other than the one it links to
      fails on the link, naming the expected and the found hash. */
  lemma WrongPredecessorBreaksLink(d: Deps, tx: Transaction, other: Transaction, genPK: PubKey)
    requires Hash(d, other) != tx.In
    ensures VerifyWith(d, tx, Some(other), genPK) == Fail(BrokenLink(Hash(d, other), tx.In))
  {
  }

  /** Tampering with a built record is caught by the structural checks: a
      generation record given any other input fails on the link, and a
      transfer record given another kitty fails on the kitty. */
  lemma TamperDetected(d: Deps, kittyID: Kitty.ID, k2: Kitty.ID, in2: ID,
                       input: Transaction, out: Address, sk: SecKey, genPK: PubKey)
    requires d.cipher.KeyConsistent(sk)
    ensures in2 != EmptyID() ==>
      VerifyWith(d, NewGenTx(d, kittyID, sk).(In := in2), None, genPK) == Fail(BrokenLink(EmptyID(), in2))
    ensures NewTransferTx(d, input, out, sk).Success? && k2 != input.KittyID ==>
      VerifyWith(d, NewTransferTx(d, input, out, sk).value.(KittyID := k2), Some(input), genPK)
        == Fail(KittyMismatch(input.KittyID, k2))
  {
  }

  /** A key that does not own the input is refused with `Unauthorized`
      even when its address and public key disagree, since the ownership
      check comes before signing. */
  lemma UnownedKeyRefused(d: Deps, input: Transaction, out: Address, sk: SecKey)
    requires d.cipher.AddressFromSecKey(sk) != input.Out
    ensures NewTransferTx(d, input, out, sk) == Failure(Unauthorized)
  {
  }

  /** The generation branch accepts a record signed with a consistent key
      under that key's public key, whatever output address it names. */
  lemma GenBranchAcceptsAnyOut(d: Deps, kittyID: Kitty.ID, o: Address, sk: SecKey)
    requires d.cipher.Sound() && d.cipher.KeyConsistent(sk)
    ensures var unsigned := Transaction(kittyID, EmptyID(), o, ZeroSig());
      VerifyWith(d, unsigned.(Sig := Sign(d, unsigned, sk)), None, d.cipher.PubKeyFromSecKey(sk)) == Pass
  {
  }

  /** The generation branch checks only the input and the signature: there
      are cipher operations that satisfy the signing axiom, and a record they
      accept as a generation record under `pk` that IsKittyGen rejects for
      the same `pk`, because its output address does not verify against it. */
  lemma GenBranchSkipsAddressCheck()
    ensures exists d: Deps, tx: Transaction, pk: PubKey ::
      d.cipher.Sound() && VerifyWith(d, tx, None, pk) == Pass && !IsKittyGen(d, tx, pk)
  {
    var owner := Address(0, Zeros(20));
    var stranger := Address(1, Zeros(20));
    var c := Suite(
      _ => ZeroSHA256(),
      _ => owner,
      _ => Zeros(33),
      (_, _) => ZeroSig(),
      (_, _, _) => true,
      (_, _, _) => true,
      (a: Address, _) => a == owner,
      _ => "");
    var d := Deps(c, _ => []);
    var tx := Transaction(0, EmptyID(), stranger, ZeroSig());
    var pk: PubKey := Zeros(33);
    assert d.cipher.Sound();
    assert VerifyWith(d, tx, None, pk) == Pass;
    assert !IsKittyGen(d, tx, pk);
  }

  /** A history whose every step verifies: the first record as a generation
      record under `genPK`, each later one against the record before it. */
  ghost predicate VerifiedChain(d: Deps, chain: seq<Transaction>, genPK: PubKey)
  {
    |chain| > 0 &&
    VerifyWith(d, chain[0], None, genPK) == Pass &&
    forall i :: 0 < i < |chain| ==> VerifyWith(d, chain[i], Some(chain[i - 1]), genPK) == Pass
  }

  /** Every record of a verified chain transfers the kitty its generation
      record created, and links to the full hash of the record before it. */
  lemma {:induction false} ChainKeepsKitty(d: Deps, chain: seq<Transaction>, genPK: PubKey, i: nat)
    requires VerifiedChain(d, chain, genPK) && i < |chain|
    ensures chain[i].KittyID == chain[0].KittyID
    ensures i == 0 ==> chain[i].In == EmptyID()
    ensures i > 0 ==> chain[i].In == Hash(d, chain[i - 1])
    decreases i
  {
    if i > 0 {
      ChainKeepsKitty(d, chain, genPK, i - 1);
      assert VerifyWith(d, chain[i], Some(chain[i - 1]), genPK) == Pass;
    } else {
      assert VerifyWith(d, chain[0], None, genPK) == Pass;
    }
  }

  /** A fresh generation record is a verified chain of one. */
  lemma ChainStart(d: Deps, kittyID: Kitty.ID, sk: SecKey)
    requires d.cipher.Sound() && d.cipher.KeyConsistent(sk)
    ensures VerifiedChain(d, [NewGenTx(d, kittyID, sk)], d.cipher.PubKeyFromSecKey(sk))
  {
    GenTxVerifies(d, kittyID, sk);
  }

  /** Spending the last record of a verified chain with a key that owns it
      extends the chain, and the extension is still verified. */
  lemma ChainExtend(d: Deps, chain: seq<Transaction>, genPK: PubKey, out: Address, sk: SecKey)
    requires d.cipher.Sound() && d.cipher.KeyConsistent(sk)
    requires VerifiedChain(d, chain, genPK)
    requires d.cipher.AddressFromSecKey(sk) == chain[|chain| - 1].Out
    ensures NewTransferTx(d, chain[|chain| - 1], out, sk).Success?
    ensures VerifiedChain(d, chain + [NewTransferTx(d, chain[|chain| - 1], out, sk).value], genPK)
  {
    var last := chain[|chain| - 1];
    var tx := NewTransferTx(d, last, out, sk).value;
    TransferTxVerifies(d, last, out, sk, genPK);
    var ext := chain + [tx];
    forall i | 0 < i < |ext|
      ensures VerifyWith(d, ext[i], Some(ext[i - 1]), genPK) == Pass
    {
      if i < |chain| {
        assert ext[i] == chain[i] && ext[i - 1] == chain[i - 1];
      } else {
        assert ext[i] == tx && ext[i - 1] == last;
      }
    }
    assert ext[0] == chain[0];
  }
}
