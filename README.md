# Kitty transaction record

This project models the ownership-transfer record of the IKO kitty ledger, `src/iko/transaction/transaction.go`. A kitty is created once by a generation record. It then passes from owner to owner through transfer records. Each transfer names the full hash of the record it spends and is signed by the owner of that record's output address. The model covers:

- the record and its identifier types;
- building generation and transfer records;
- the full hash and the inner hash (the one computed with `Sig` zeroed);
- signing;
- checking one step against its predecessor (`VerifyWith`);
- the advisory generation classifier (`IsKittyGen`);
- the hex listing of identifiers.

Files:

- `cipher.dfy` (module `Cipher`): the fixed-size byte types of the cipher library. It also holds `Suite`, a value that carries the cipher operations as uninterpreted functions. `Suite.Sound()` is the single axiom the record code relies on: for a key whose derived address and public key agree, a signature made by `SignHash` passes `VerifySignature` against the key's public key and `ChkSig` against its address.
- `wrappers.dfy` (modules `Wrappers`, `Kitty`): `Option` stands for a nil predecessor. `Result` and `Outcome` stand for Go's error returns. `Kitty.ID` is the kitty identifier.
- `transaction.dfy` (module `Transaction`): the record, `Meta`, `Wrapper`, the error kinds and every operation of `transaction.go` except `String`. `Deps` bundles the cipher suite and `encoder.Serialize`. Because the encoder is a Dafny function of the record value, the encoding is a deterministic function of the field values by construction.
- `transaction_proofs.dfy` (module `TransactionProofs`): the lemmas that relate the operations to each other. This includes a chain of verified steps, which is a sequence of records where each one passes `VerifyWith` against the one before it.

`Hash`, `HashInner`, `Hex` and `Serialize` have no contract of their own. The properties of `Hash` and `HashInner` are the lemmas listed below. `Hex` is used only by `ToStringArray`, whose contract it appears in. The encoder is the `Serialize` field of `Deps`.

Two behaviours of the code that the model keeps as written:

- The generation branch of `VerifyWith` does not compare the record's `Out` with the trusted key. It checks the sentinel input and then only the signature under `genPK`. `GenBranchSkipsAddressCheck` shows that this check can accept a generation record that `IsKittyGen` rejects for the same key.
- The kitty check is reported as its own error kind, `KittyMismatch`.

## Model

| member | source | states |
|---|---|---|
| `Transaction.EmptyID` | src/iko/transaction/transaction.go:15-17 | the sentinel identifier is the all-zero 32-byte digest |
| `Transaction.ToStringArray` | src/iko/transaction/transaction.go:25-31 | the result has one string per identifier, in order, and element i is the hex form of identifier i |
| `Transaction.Sign` | src/iko/transaction/transaction.go:103-111 | the signature is made over the inner hash; when the cipher is sound, it passes `VerifySignature` under the key's public key and `ChkSig` under the key's address; signing requires the key's address and public key to agree (otherwise Go panics) |
| `Transaction.NewGenTx` | src/iko/transaction/transaction.go:56-69 | the record carries the given kitty, the sentinel input and the address of the secret key; its signature is the key's signature of the record's own inner hash |
| `Transaction.NewTransferTx` | src/iko/transaction/transaction.go:71-88 | it fails, with `Unauthorized` and no record, exactly when the key's address differs from the input's `Out`, for any key (only a key that owns the input must have a consistent address and public key, because only then is `Sign` reached); on success the record keeps the input's kitty, links to the input's full hash, names `out`, and is signed over its own inner hash |
| `Transaction.VerifyWith` | src/iko/transaction/transaction.go:113-146 | it passes exactly when the record links correctly (sentinel or predecessor hash, plus the same kitty for a transfer) and its signature checks (under `genPK` for generation, under the predecessor's `Out` for a transfer); a wrong link yields `BrokenLink(expected, got)` before anything else; a transfer with the right link and another kitty yields `KittyMismatch`; `BadSig` comes exactly when the structure is right and the signature is not; it never reports `Unauthorized` |
| `Transaction.IsKittyGen` | src/iko/transaction/transaction.go:148-166 | true exactly when the input is the sentinel and the output address verifies against the key |
| `TransactionProofs.HashInnerIgnoresSig` | src/iko/transaction/transaction.go:98-101 | two records that differ only in `Sig` have equal inner hashes and equal signatures under any usable key |
| `TransactionProofs.HashInnerOfUnsigned` | src/iko/transaction/transaction.go:94-101 | for a record whose `Sig` is zero, the inner hash equals the full hash |
| `TransactionProofs.GenTxVerifies` | src/iko/transaction/transaction.go:119-130 | under the signing axiom, a record built by `NewGenTx` with `sk` passes the generation branch under the public key of `sk` |
| `TransactionProofs.GenTxIsKittyGen` | src/iko/transaction/transaction.go:151-166 | a record built by `NewGenTx` with `sk` is classified as a generation record for the public key of `sk` |
| `TransactionProofs.TransferTxVerifies` | src/iko/transaction/transaction.go:132-145 | under the signing axiom, a record that `NewTransferTx` builds from `input` passes the transfer branch against `input`, whatever the trusted key |
| `TransactionProofs.TransferIgnoresGenPK` | src/iko/transaction/transaction.go:132-145 | the transfer branch's verdict does not depend on the trusted generation key |
| `TransactionProofs.WrongPredecessorBreaksLink` | src/iko/transaction/transaction.go:133-136 | checked against a predecessor whose hash is not the record's input, the record fails with `BrokenLink` naming that hash and the input |
| `TransactionProofs.TamperDetected` | src/iko/transaction/transaction.go:123-141 | a generation record whose input is replaced by a non-sentinel value fails with `BrokenLink`; a built transfer record whose kitty is replaced fails with `KittyMismatch` |
| `TransactionProofs.UnownedKeyRefused` | src/iko/transaction/transaction.go:76-79 | a key whose address is not the input's `Out` gets `Unauthorized`, whether or not its address and public key agree |
| `TransactionProofs.GenBranchAcceptsAnyOut` | src/iko/transaction/transaction.go:122-130 | under the signing axiom, a generation-shaped record with any output address, signed with a consistent key, passes the generation branch under that key's public key |
| `TransactionProofs.GenBranchSkipsAddressCheck` | src/iko/transaction/transaction.go:122-130 | there is a sound cipher suite for which a record passes the generation branch under `pk` while `IsKittyGen` rejects it for `pk`: the branch does not check `Out` |
| `TransactionProofs.ChainKeepsKitty` | src/iko/transaction/transaction.go:132-145 | in a chain of verified steps, every record carries the kitty of the first record; the first record's input is the sentinel; each later record's input is the full hash of the record before it |
| `TransactionProofs.ChainStart` | src/iko/transaction/transaction.go:56-69 | a fresh generation record forms a verified chain of one under its key's public key |
| `TransactionProofs.ChainExtend` | src/iko/transaction/transaction.go:71-88 | spending the last record of a verified chain with a key that owns it succeeds, and appending the new record keeps the chain verified |

## Left out

- The cipher library (SHA-256, secp256k1 signing and verification, address derivation, `Address.Verify`, hex encoding) and `encoder.Serialize` are not part of this model. They are uninterpreted function fields of `Cipher.Suite` and `Transaction.Deps`. The only property assumed of them is `Suite.Sound()`, and only the lemmas that need it require it.
- `Transaction.Sign`: the `log.Panic` that fires when the key's address and public key disagree is a precondition (`KeyConsistent`), not modelled behaviour.
- `Transaction.NewTransferTx`: Go takes the input by pointer and would dereference a nil input. The model takes the input by value, so the nil case does not arise.
- `Transaction.IsKittyGen`: the `fmt.Printf` diagnostic and its reason strings are output only. Only the boolean result is kept.
- The formatted error messages of `NewTransferTx` and `VerifyWith`, and `Transaction.String`, are presentation only. The error kinds keep the expected and found values that the messages print. Every signature-check error becomes `BadSig`.
- The `Action` function type (`func(tx *Transaction) error`) has no operation in this file that uses it.
- Double-spend detection, true current ownership and chain storage are not done by the code itself. The verified-chain lemmas only reason about sequences a caller would assemble.
- Tampering with `Out` or `Sig`, or with `KittyID` on a generation record, is rejected only through the signature check. Proving that would need collision resistance and unforgeability, which the axiom does not state.
- `Kitty.ID`: the kitty package is not part of this model. Its identifier is taken to be a 64-bit unsigned integer, which matches its `%d` formatting.
