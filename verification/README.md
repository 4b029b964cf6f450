# FCL client core in Dafny

A verified model of the core of the Swift FCL (Flow Client Library) client.
It covers four parts:

- **Signer resolution and transaction assembly** (`Sources/Models/Signable.swift`).
  - An `Interaction` holds accounts keyed by temporary id, plus the ids of the proposer, the payer and the authorizations. From it the client works out:
    - who signs the payload (the inside signers) and who signs the envelope (the outside signers);
    - the best-effort proposal key, and the on-chain proposal key, which may need an account lookup;
    - the `Signable` / `PreSignable` vouchers handed to wallets;
    - the finished chain transaction with its payload and envelope signatures.
  - Also modelled:
    - the role flags and how they merge;
    - the participant equality, which compares temporary ids only;
    - the signer temporary id;
    - the precedence of signing strategies: explicit signer, then pre-authorization, then the current user's `authz` services.
- **Wallet response decoding** (`Sources/Models/FCLResponse.swift`). This covers the tolerant `Response` decoder and its "single value or first of an array" fields, `Service` decoding with its flattened `params`, and `ParamValue`. It also covers the `addr` / `keyId` / `signature` accessors a response offers as an authorization result. Decoding works over a small JSON datatype and follows the rules of Swift's decoders:
  - a required key fails when it is absent, null or of the wrong shape;
  - `decodeIfPresent` yields nothing when the key is absent or null;
  - `try?` turns any failure into nothing.
- **Contract address registry** (`Sources/Address/AddressRegistry.swift`). It maps each network to a table from placeholder to address. It supports register, deregister, clear, look-up, placeholder substitution in script text, and the default table it is seeded with.
- **Script addresses** (`Sources/Address/FlowScriptAddress.swift`). These are the placeholder texts and the fixed table of where each contract lives on mainnet, testnet and the emulator.

## Form of the model

- Swift structs (`Interaction`, `Role`, `SignableUser`, the responses) have value semantics. They are datatypes.
  - A `mutating` method (`setTag`, `Role.merge`) is a function from the old value to the new one.
- `AddressRegistry` is a Swift class whose dictionary is updated in place. It is a Dafny class with a `map` field, whose methods `modify` it.
  - Each method's new state is tied to a function of the old table (`Registered`, `Deregistered`, `RegisterContracts`).
  - The properties are proved about those functions.
- Loops of the source are methods with loop invariants, proved against a specification function:
  - `findInsideSigners` (`FindInsideSigners`);
  - the two signature loops of `toFlowTransaction` (`ToFlowTransaction`);
  - the `params` copy of `Service.init(from:)` (`FlattenParams`);
  - the registry's loops (`RegisterDefaults`, `RegisterAll`, `Deregister`, `ProcessScriptOn`).
- The access-node lookup `getAccountAtLatestBlock` is a parameter `fetch` that maps an address to its keys or to a failure. The result also lists the addresses looked up.
- The client's global `preAuthz` and `currentUser` are parameters of `SigningDispatch`. The wallet call itself is not made: the result names the signer or service that would be called.
- Addresses are hex text. `sansPrefix()` drops one leading "0x", and `addHexPrefix()` / `withPrefix()` add "0x" unless the text already starts with it. `Flow.Address(hex:)` is reduced to dropping the prefix.
- The model follows the code where the intended behaviour may differ:
  - `createFlowProposalKey` writes the fetched sequence number into a local copy of the account. The model caches nothing: the interaction is unchanged and every call without a stored number fetches again.
  - Voucher signature lists keep entries whose `sig` is missing. Only ids without an account are dropped.
  - The `PreSignable` voucher names the payer by its interaction id, not by address.
- `uniqued()` is taken to keep the first occurrence of each element (`Common.Uniqued`).
- `Flow.ChainID.allCases` is taken to be mainnet, testnet, canarynet and the emulator (`ScriptAddresses.AllChains`). It is used when `deregister` is given no network.

## Model

| member | source | states |
|---|---|---|
| Common.SansPrefix | Sources/Models/Signable.swift:35 | dropping "0x": a prefixed text is "0x" followed by the result, any other text is unchanged |
| Common.WithPrefix | Sources/Address/AddressRegistry.swift:79 | the result always starts with "0x", and text that already does is left as it is |
| Common.AddressFromHex | Sources/Models/Signable.swift:254 | unprefixed text is taken as the address as it stands |
| Common.PrefixRoundTrip | Sources/Models/Signable.swift:497-516 | adding the prefix is idempotent and the prefix makes no difference to the address parsed |
| Common.IntDecimal | Sources/Models/Signable.swift:494 | `String(Int)`: non-empty, all digits after an optional leading '-', which appears exactly for negatives |
| Common.ParseNatDecimal | Sources/Models/FCLResponse.swift:269-270 | reading a natural number's decimal text back gives the number |
| Common.IntDecimalInjective | Sources/Models/Signable.swift:494 | distinct integers have distinct decimal texts |
| Common.Uniqued | Sources/Models/Signable.swift:55-57 | `uniqued()`: same elements as the input, no duplicates, no longer than the input |
| Common.UniquedSnoc | Sources/Models/Signable.swift:207-211 | one more element is appended exactly when it has not been seen |
| Common.UniquedFirstSeenOrder | Sources/Models/Signable.swift:205-215 | the kept elements appear in the order of their first occurrence |
| Common.UniquedOfDistinct | Sources/Models/Signable.swift:55-57 | a list without duplicates is left unchanged |
| Common.RemoveAll | Sources/Models/Signable.swift:217-219 | `removeAll { $0 == x }`: `x` is gone, every other element keeps its membership, an absent `x` changes nothing |
| Common.RemoveAllKeepsDistinct | Sources/Models/Signable.swift:217-219 | removing keeps a duplicate-free list duplicate-free |
| Common.RemoveAllKeepsOrder | Sources/Models/Signable.swift:217-219 | removing keeps first-seen order relative to the original candidates |
| ScriptAddresses.RawValue | Sources/Address/FlowScriptAddress.swift:13-20 | every placeholder starts with "0x" and has text after it |
| ScriptAddresses.AddressOn | Sources/Address/FlowScriptAddress.swift:22-68 | a found address is 16 characters long and written without "0x" |
| ScriptAddresses.RawValuesWellFormed | Sources/Address/FlowScriptAddress.swift:13-20 | every placeholder starts with "0x" and no two contracts share one |
| ScriptAddresses.RawValuesDiffer | Sources/Address/FlowScriptAddress.swift:13-20 | distinct contracts have distinct placeholders |
| ScriptAddresses.AddressOnDomain | Sources/Address/FlowScriptAddress.swift:22-68 | an address exists exactly for all contracts on mainnet and testnet and for the three token/fee contracts on the emulator |
| ScriptAddresses.AddressOnInjective | Sources/Address/FlowScriptAddress.swift:25-64 | within one network, distinct contracts live at distinct addresses |
| Registry.Registered | Sources/Address/AddressRegistry.swift:97-104 | after `register`, the contract is found at the new address, every other (network, contract) lookup is unchanged, and the network's table exists |
| Registry.RegisterOverwrites | Sources/Address/AddressRegistry.swift:98-99 | registering the same contract on the same network again replaces the earlier address without trace |
| Registry.Deregistered | Sources/Address/AddressRegistry.swift:85-91 | after `deregister`, the contract is gone from the visited networks, everything else is unchanged, and no network table is created or dropped |
| Registry.DeregisteredStep | Sources/Address/AddressRegistry.swift:90 | visiting one more network removes the contract from that network's table only, if it exists |
| Registry.RegisteredAt | Sources/Address/AddressRegistry.swift:49-53 | every contract of the list that has an address on the network is found at that address |
| Registry.UntouchedKey | Sources/Address/AddressRegistry.swift:49-53 | placeholders not in the list keep their lookup |
| Registry.UntouchedChain | Sources/Address/AddressRegistry.swift:49-53 | registering on one network leaves every other network's lookups unchanged |
| Registry.SameChainView | Sources/Address/AddressRegistry.swift:49-53 | the outcome on a network depends only on that network's previous lookups |
| Registry.RegisterOrderIrrelevant | Sources/Address/AddressRegistry.swift:49-54 | registering on two different networks commutes, so the unspecified dictionary order of `registerDefaults` does not matter |
| Registry.DefaultPlanSteps | Sources/Address/AddressRegistry.swift:21-54 | the network-by-network plan is the emulator, testnet and mainnet registrations in sequence |
| Registry.DefaultTableContents | Sources/Address/AddressRegistry.swift:16-55 | the seeded table is exactly the `address(chain:)` switch: each placeholder maps to its contract's address where it has one, and nothing else is present |
| Registry.DefaultEntry | Sources/Address/AddressRegistry.swift:20-55 | the seeded lookup of a placeholder on any network equals `address(chain:)` |
| Registry.DefaultEntryMainnet | Sources/Address/AddressRegistry.swift:37-46 | the seeded mainnet entries equal the mainnet switch cases |
| Registry.DefaultEntryTestnet | Sources/Address/AddressRegistry.swift:27-36 | the seeded testnet entries equal the testnet switch cases |
| Registry.DefaultEntryEmulator | Sources/Address/AddressRegistry.swift:22-26 | the seeded emulator entries equal the emulator switch cases |
| Registry.NotOnEmulator | Sources/Address/AddressRegistry.swift:22-26 | contracts other than the three token/fee ones are absent from the emulator table |
| Registry.DefaultEntryElsewhere | Sources/Address/AddressRegistry.swift:20-55 | networks other than mainnet, testnet and the emulator get no entries |
| Registry.DefaultNonPlaceholder | Sources/Address/AddressRegistry.swift:20-55 | text that is not a placeholder is never a key of the seeded table |
| Registry.DefaultTableShape | Sources/Address/AddressRegistry.swift:16-55 | after `init` there are tables for exactly mainnet, testnet and the emulator, and the emulator's holds exactly FungibleToken, FlowToken and FlowFees |
| Registry.EmulatorKeyIsExpected | Sources/Address/AddressRegistry.swift:22-26 | every key of the seeded emulator table is one of the three token/fee placeholders |
| Registry.DefaultTableKeys | Sources/Address/AddressRegistry.swift:21-47 | the seeded table has tables for exactly the three networks of the plan |
| Registry.RegisterContractsKeys | Sources/Address/AddressRegistry.swift:97-104 | registering on a network creates at most that network's table and drops none |
| Registry.ReplaceAllAbsent | Sources/Address/AddressRegistry.swift:79 | text without the placeholder comes back unchanged |
| Registry.ReplaceAllSelf | Sources/Address/AddressRegistry.swift:79 | replacing a placeholder by itself is the identity |
| Registry.Lookup | Sources/Address/AddressRegistry.swift:61-63 | an address is found exactly when the network has a table holding the contract, and it is that table's entry |
| Registry.ReplaceAll | Sources/Address/AddressRegistry.swift:79 | an empty pattern changes nothing; a replacement as long as the pattern keeps the length, a shorter one never lengthens the text |
| Registry.ReplaceAllSplit | Sources/Address/AddressRegistry.swift:79 | the first occurrence is replaced and the rest of the text is processed on its own: with no occurrence in `a` nor straddling its end, `a + pat + b` becomes `a + rep` followed by `b` processed |
| Registry.ReplaceAllOnce | Sources/Address/AddressRegistry.swift:79 | a single occurrence, with no occurrence ending before or inside it and none after it, is replaced by exactly the replacement and nothing else changes |
| Registry.NoFirstCharNoOverlap | Sources/Address/AddressRegistry.swift:79 | a prefix without the pattern's first character leaves no occurrence before or across the pattern that follows it |
| Registry.ReplaceAllPassOver | Sources/Address/AddressRegistry.swift:79 | text in which no occurrence can start, not even one running into what follows, is copied unchanged and the rest is processed on its own |
| Registry.ReplaceAllFill | Sources/Address/AddressRegistry.swift:79 | in a script of text pieces and placeholder slots where no occurrence of the key can start in a piece or in another slot, replacing the key rewrites exactly the slots holding it |
| Registry.Lacks | Sources/Address/AddressRegistry.swift:79 | a text missing one of the pattern's characters contains no occurrence of the pattern |
| Registry.ProcessWith | Sources/Address/AddressRegistry.swift:75-80 | when no key of the listing is in the table, the script is unchanged |
| Registry.ProcessedScript | Sources/Address/AddressRegistry.swift:69-83 | with no table for the network, or no listed key in it, the script is unchanged |
| Registry.ProcessWithSingle | Sources/Address/AddressRegistry.swift:75-80 | when only one listed key can ever occur, before or after its substitution, the result is that key replaced by its address with "0x" |
| Registry.ProcessedScriptOnePlaceholder | Sources/Address/AddressRegistry.swift:69-83 | a script `a + key + b` in which the key occurs once (none in `a`, none straddling its end, none in `b`), and no other key occurs before or after substitution, becomes `a + address-with-"0x" + b`, whatever the key order |
| Registry.ProcessWithFill | Sources/Address/AddressRegistry.swift:75-80 | for any order of distinct keys, the loop rewrites each slot whose key is in the table and already processed, and leaves the text pieces alone |
| Registry.ProcessedScriptFill | Sources/Address/AddressRegistry.swift:69-83 | a script naming any number of registered placeholders, between pieces and beside addresses in which no key can start, becomes the same pieces with every placeholder written as its address with "0x", whatever the key order; the condition rules out a written address ending in '0' (the start of every "0x" key) when another key is registered, so the testnet NonFungibleToken address `0x631e88ae7f1d7c20` is covered only by `ProcessedScriptOnePlaceholder` |
| Registry.TwoPlaceholders | Sources/Address/AddressRegistry.swift:69-83 | a script naming two placeholders has both written as their addresses with "0x", in place, whatever the key order |
| Registry.TransferOn | Sources/Address/AddressRegistry.swift:69-83 | on a network whose keys are all placeholders and whose FungibleToken and FlowToken entries are written as hex address texts, a script naming both becomes those two texts in place |
| Registry.MainnetTransferImports | Sources/Address/AddressRegistry.swift:16-83 | on the seeded registry, mainnet writes `0xFungibleToken` and `0xFlowToken` as `0xf233dcee88fe0abe` and `0x1654653399040a61` between any pieces in which no placeholder can start |
| Registry.MainnetTransferScript | Sources/Address/AddressRegistry.swift:16-83 | on the seeded registry, mainnet turns the two import lines `import FungibleToken from 0xFungibleToken` and `import FlowToken from 0xFlowToken` into the mainnet addresses, whatever the dictionary order |
| Registry.MainnetFlowTokenImport | Sources/Address/AddressRegistry.swift:16-83 | on the seeded registry, mainnet turns `import FlowToken from 0xFlowToken` into `import FlowToken from 0x1654653399040a61`, whatever the dictionary order |
| Registry.ProcessWithNoPlaceholders | Sources/Address/AddressRegistry.swift:75-80 | a script mentioning no placeholder is unchanged whatever the key order |
| Registry.ProcessedScriptWithoutTable | Sources/Address/AddressRegistry.swift:71-73 | with no table for the network, or an empty one, the script is returned unchanged |
| Registry.ProcessAfterClear | Sources/Address/AddressRegistry.swift:93-95 | after `clear()` every script comes back unchanged on every network |
| Registry.AddressRegistry.constructor | Sources/Address/AddressRegistry.swift:12-18 | the default network is mainnet and the table is the default table |
| Registry.AddressRegistry.RegisterDefaults | Sources/Address/AddressRegistry.swift:20-55 | the new table is the old one with the default plan registered; the default network is unchanged |
| Registry.AddressRegistry.RegisterAll | Sources/Address/AddressRegistry.swift:50-53 | the inner loop registers each listed contract that has an address on the network |
| Registry.AddressRegistry.AddressOf | Sources/Address/AddressRegistry.swift:57-59 | the one-argument look-up uses the default network |
| Registry.AddressRegistry.AddressOfOn | Sources/Address/AddressRegistry.swift:61-63 | an address is found exactly when the network has a table holding the contract, and it is that entry |
| Registry.AddressRegistry.ProcessScript | Sources/Address/AddressRegistry.swift:65-67 | the one-argument substitution uses the default network |
| Registry.AddressRegistry.ProcessScriptOn | Sources/Address/AddressRegistry.swift:69-83 | the loop's result is `ProcessedScript`: every key, in the dictionary's order, replaced by its address with "0x" (what that substitution does is stated by `ProcessedScriptOnePlaceholder` for one placeholder, `ProcessedScriptFill` for any number, and the mainnet examples); a network without a table returns the script |
| Registry.AddressRegistry.Deregister | Sources/Address/AddressRegistry.swift:85-91 | the new table is the old one with the contract removed from the named network, or from every network |
| Registry.AddressRegistry.Clear | Sources/Address/AddressRegistry.swift:93-95 | the table is empty and every look-up fails |
| Registry.AddressRegistry.Register | Sources/Address/AddressRegistry.swift:97-104 | the new table is the old one with the single entry set |
| Interactions.Merge | Sources/Models/Signable.swift:448-452 | merging keeps `param` |
| Interactions.MergeLaws | Sources/Models/Signable.swift:448-452 | merge ORs the flags: it never clears one, sets only flags either side had, and is idempotent, commutative on the flags and associative |
| Interactions.SameUser | Sources/Models/Signable.swift:422-427 | two participants are equal exactly when the first has a temporary id and the second has the same one |
| Interactions.SameUserLaws | Sources/Models/Signable.swift:422-427 | participant equality is symmetric and transitive, reflexive exactly on participants with a temporary id, and decided by the temporary id alone |
| Interactions.SameUserNotReflexive | Sources/Models/Signable.swift:422-427 | some participant (one without a temporary id) is not equal to itself |
| Interactions.SetTag | Sources/Models/Signable.swift:196-200 | only the tag changes |
| Interactions.FindInsideSigners | Sources/Models/Signable.swift:202-222 | the loop's result is the distinct authorizations and proposer, minus the payer |
| Interactions.InsideSigners | Sources/Models/Signable.swift:202-222 | never the payer, no duplicates, no longer than the candidates, and an id is present exactly when it is an authorization or the proposer and not the payer |
| Interactions.InsideSignersSpec | Sources/Models/Signable.swift:202-222 | inside signers never include the payer, have no duplicates, are exactly the authorizations and proposer other than the payer, and keep first-seen order |
| Interactions.OutsideSigners | Sources/Models/Signable.swift:224-231 | exactly `[payer]` when a payer is set, `[]` otherwise |
| Interactions.SignersPartitionRoles | Sources/Models/Signable.swift:202-231 | inside and outside signers are disjoint and together are the authorizations, proposer and payer |
| Interactions.ThreePartyScenario | Sources/Models/Signable.swift:202-231 | proposer a, payer b, authorizations [a, c] give payload signers [a, c] and envelope signer [b] |
| Interactions.UniquedPair | Sources/Models/Signable.swift:55-57 | two different values are both kept by `uniqued()`, in their order |
| Interactions.UniquedRepeatedFirst | Sources/Models/Signable.swift:207-215 | a repeated first candidate is kept once, in its first place |
| Interactions.ArgumentsOf | Sources/Models/Signable.swift:50-52 | no more values than `message.arguments` ids |
| Interactions.ArgumentValues | Sources/Models/Signable.swift:50-52 | every listed id with an argument contributes its value |
| Interactions.ArgumentValuesSpec | Sources/Models/Signable.swift:50-52 | every value comes from a listed known id, and when all ids are known the values follow the list one to one |
| Common.KeysIn | Sources/Models/Signable.swift:33-52 | the filter a `compactMap` over a dictionary look-up applies: exactly the listed ids that are keys of the dictionary |
| Interactions.ArgumentValuesKnownIds | Sources/Models/Signable.swift:50-52 | the `compactMap` equals the plain map over the listed ids that have an argument: one value per such id, in list order, each that id's `asArgument` |
| Interactions.AddressesOf | Sources/Models/Signable.swift:55-56 | an address is listed exactly when some listed id has an account with that address |
| Interactions.AddressesOfLength | Sources/Models/Signable.swift:293-296 | no more addresses than ids |
| Interactions.CreateProposalKey | Sources/Models/Signable.swift:233-243 | the all-empty key without a proposer or its account; otherwise the account's address without "0x", key index and sequence number |
| Transactions.CreateFlowProposalKey | Sources/Models/Signable.swift:245-269 | `invalidProposer` without a proposer account with address and key index; otherwise the stored sequence number with no fetch, or exactly one fetch whose failure or missing key index is an error |
| Transactions.FlowProposalKeyAgrees | Sources/Models/Signable.swift:233-269 | a complete best-effort key is the chain key with no fetch; any chain key has the proposer's address and key index; at most one fetch |
| Transactions.SignaturesOf | Sources/Models/Signable.swift:298-309 | no more signatures than signers |
| Transactions.SignedIds | Sources/Models/Signable.swift:298-309 | exactly the listed signers that have an address, a key index and a signature; all of them when every signer has signed |
| Transactions.SignaturesOfSignedIds | Sources/Models/Signable.swift:298-309 | the loop's signatures equal the plain map over the signers that have signed: one per such signer, in signer order, each built from that signer's account |
| Transactions.SignaturesOfSpec | Sources/Models/Signable.swift:298-309 | every signature comes from a listed signer with address, key index and signature, and every such signer contributes one |
| Transactions.SignaturesOfAllSigned | Sources/Models/Signable.swift:298-309 | when every signer has signed there is one signature per signer, in signer order |
| Transactions.ParseAll | Sources/Models/Signable.swift:296 | each address text parsed in place |
| Transactions.Unsigned | Sources/Models/Signable.swift:287-296 | no signatures yet, the given proposal key, a compute limit of 100 by default, and no more authorizers than authorizations |
| Transactions.Assembled | Sources/Models/Signable.swift:287-323 | the unsigned transaction plus signatures: at most one payload signature per inside signer and at most one envelope signature |
| Transactions.CollectSignatures | Sources/Models/Signable.swift:298-309 | the loop appends exactly the signatures `SignaturesOf` gives for the signers |
| Transactions.ToFlowTransaction | Sources/Models/Signable.swift:278-325 | a proposer error comes first, then `missingPayer`, otherwise the assembled transaction; fetches are those of the proposal key |
| Transactions.AssembledHeader | Sources/Models/Signable.swift:287-296 | the transaction carries the resolved key and the payer's address, a compute limit of 100 by default, and no more authorizers than authorizations |
| Transactions.AssembledEnvelope | Sources/Models/Signable.swift:311-323 | the envelope holds only the payer's signature, present exactly when the payer has signed |
| Transactions.AssembledPayload | Sources/Models/Signable.swift:298-309 | payload signatures come only from inside signers other than the payer, and there is exactly one per inside signer that has signed, in inside-signer order |
| Transactions.AuthorizersSpec | Sources/Models/Signable.swift:293-296 | authorizers are the authorizations' known addresses, each text once, in first-seen order |
| Vouchers.SigEntries | Sources/Models/Signable.swift:33-38 | no more entries than ids |
| Vouchers.SigEntriesSpec | Sources/Models/Signable.swift:33-45 | entries come only from ids with an account, every such id has one even without a signature, and with all accounts present they follow the ids one to one |
| Vouchers.SigEntriesWithAccount | Sources/Models/Signable.swift:33-45 | the `compactMap` equals the plain map over the ids with an account: one entry per such id, in id order, each built from that id's account |
| Vouchers.StripAll | Sources/Models/Signable.swift:56 | each address has its "0x" dropped, in place |
| Vouchers.VoucherOf | Sources/Models/Signable.swift:32-60 | the voucher carries the message's cadence, reference block and compute limit, the interaction's argument values and best-effort proposal key, no more authorizers than authorizations, at most one payload entry per inside signer and at most one envelope entry |
| Vouchers.SignableVoucher | Sources/Models/Signable.swift:32-60 | the payer is the payer account's address without "0x"; payload entries are the inside signers' accounts and envelope entries the payer's, all with "0x" dropped |
| Vouchers.PreSignableVoucher | Sources/Models/Signable.swift:87-115 | the payer is the interaction's payer id; signature entries keep their address as written |
| Vouchers.BuildPreSignable | Sources/Models/Signable.swift:271-276 | the pre-signable keeps the interaction and role, with the cadence or "" when missing |
| Vouchers.BuildPreSignableArguments | Sources/Models/Signable.swift:271-276 | its arguments equal the voucher's and follow `message.arguments` when all ids are known |
| Vouchers.VoucherPayloadSigs | Sources/Models/Signable.swift:33-38 | payload entries come from inside signers (never the payer) with accounts: exactly one per such signer, signed or not, in inside-signer order |
| Vouchers.VoucherEnvelopeSigs | Sources/Models/Signable.swift:40-45 | the envelope holds the payer's entry alone, or nothing without a payer account |
| Vouchers.ThreePartyVoucher | Sources/Models/Signable.swift:32-60 | proposer a, payer b, authorizations [a, c], with accounts whose addresses differ: the authorizers are a's and c's addresses in that order (without "0x" in the Signable form), the payload holds one entry for a and one for c, the envelope one for b |
| Vouchers.VoucherPayloadOrder | Sources/Models/Signable.swift:33-38 | with all accounts present, payload entries follow the inside signers one to one |
| Vouchers.VoucherAuthorizers | Sources/Models/Signable.swift:55-57 | authorizers have no duplicates, keep first-seen order, and are exactly the written addresses of the authorizations |
| Vouchers.VoucherPayer | Sources/Models/Signable.swift:54 | the Signable payer is the payer account's address without "0x", missing exactly when that address is; the PreSignable payer is the payer id |
| Vouchers.VoucherFormsAgree | Sources/Models/Signable.swift:87-115 | the two voucher forms have the same cadence, reference block, compute limit, arguments and proposal key, and the same payload and envelope entries position by position, up to "0x" on the address |
| Vouchers.SigEntriesStrip | Sources/Models/Signable.swift:88-100 | the stripped entries are the unstripped ones with their address written without "0x" |
| Responses.Try | Sources/Models/FCLResponse.swift:55 | `try?` gives the value exactly on success |
| Responses.DecodeList | Sources/Models/FCLResponse.swift:63 | a decoded array has one value per element, each that element's decoding |
| Responses.DecodeItems | Sources/Models/FCLResponse.swift:70 | success means every element decoded; failure means some element failed |
| Responses.DecodeStatus | Sources/Models/FCLResponse.swift:155-159 | a status decodes exactly from its raw text |
| Responses.DecodeServiceType | Sources/Models/FCLResponse.swift:252-262 | a service type decodes exactly from its raw text, with no fallback to `unknow` |
| Responses.DecodeParamValue | Sources/Models/FCLResponse.swift:264-284 | null, arrays and objects fail, every other value decodes, and a string decodes to itself |
| Responses.ParamValueSpec | Sources/Models/FCLResponse.swift:264-284 | scalars decode and null, arrays and objects fail; an integer's text reads back as the integer and is never "true" or "false" |
| Responses.DecodeParamMap | Sources/Models/FCLResponse.swift:207 | decodes exactly an object whose every value decodes, keeping its keys and each value's text |
| Responses.FlattenParams | Sources/Models/FCLResponse.swift:207-212 | the `forEach` copy yields exactly the decoded map, or an empty one when there is none |
| Responses.DecodeServiceFields | Sources/Models/FCLResponse.swift:205-223 | the field-by-field decoder agrees with `DecodeService` |
| Responses.DecodeIdentity | Sources/Models/FCLResponse.swift:240-243 | decodes exactly an object whose `address` is a string and whose `keyId` is absent, null or an integer; the key index is present exactly when it is an integer |
| Responses.DecodeService | Sources/Models/FCLResponse.swift:205-223 | any object decodes as a service, and its `params` is never missing |
| Responses.ServiceParams | Sources/Models/FCLResponse.swift:207-212 | `params` is empty when absent or undecodable, otherwise exactly the object's entries, each as text |
| Responses.DecodeAuthnData | Sources/Models/FCLResponse.swift:90-104 | only objects decode, an object of nulls does, a present signature that is not a string makes it fail, and `signature`, `addr`, `keyId` and `expires` are present exactly when the field has the right type |
| Responses.ExpiresAt | Sources/Models/FCLResponse.swift:106-111 | the expiry date exists exactly when `expires` does, and is `expires` milliseconds in seconds |
| Responses.IsExpiredAsWritten | Sources/Models/FCLResponse.swift:113-118 | reports expired only when there is an expiry |
| Responses.IsExpiredAsWrittenInverted | Sources/Models/FCLResponse.swift:113-118 | the client reports an authentication expiring in the future as expired, and a past one as not |
| Responses.IsExpired | Sources/Models/FCLResponse.swift:113-118 | expired only with an expiry that is not after the current time |
| Responses.IsExpiredSpec | Sources/Models/FCLResponse.swift:113-118 | the intended check: once expired always expired, never expired without an expiry or before it; the client's answer is its negation wherever an expiry exists |
| Responses.SingleOrFirst | Sources/Models/FCLResponse.swift:60-72 | an absent key gives nothing; a value that decodes directly wins; otherwise a non-array gives nothing, and an array gives its first element's value exactly when it is non-empty and every element decodes |
| Responses.DecodeResponse | Sources/Models/FCLResponse.swift:53-75 | decodes exactly an object with a valid `status`, carries that status, and has a `reason` exactly when the field is a string |
| Responses.DecodeResponseFailsOnlyOnStatus | Sources/Models/FCLResponse.swift:53-75 | a response decodes exactly when it is an object whose `status` is one of PENDING/APPROVED/DECLINED; no other field can make it fail |
| Responses.LocalSingletonLikeValue | Sources/Models/FCLResponse.swift:60-65 | a one-element array in `local` decodes like its bare element |
| Responses.DataSingletonLikeValue | Sources/Models/FCLResponse.swift:67-72 | a one-element array in `data` decodes like its bare element |
| Responses.LocalFirstOfArray | Sources/Models/FCLResponse.swift:60-65 | an array of services in `local` gives its first element's service |
| Responses.EmptyArrayGivesNothing | Sources/Models/FCLResponse.swift:60-72 | an empty array in `local` or in `data` gives nothing |
| Responses.DataLaterFailure | Sources/Models/FCLResponse.swift:67-72 | a later element of a `data` array that does not decode drops the whole field, even when the first element is good |
| Responses.SingletonList | Sources/Models/FCLResponse.swift:63 | a one-element array decodes to a one-element list exactly when its element decodes |
| Responses.ResponseAddr | Sources/Models/FCLResponse.swift:16-18 | without a composite signature address, the empty address |
| Responses.ResponseKeyId | Sources/Models/FCLResponse.swift:20-22 | without a composite signature key index, 0 |
| Responses.ResponseAccessors | Sources/Models/FCLResponse.swift:15-22 | `addr` and `keyId` never read `data`, and use the composite signature's values when present |
| Responses.ResponseSignature | Sources/Models/FCLResponse.swift:24-26 | `data`'s signature wins when present |
| Responses.ResponseSignaturePrecedence | Sources/Models/FCLResponse.swift:24-26 | falls back to the composite signature only when `data` has none, and is empty only when neither gives a non-empty one |
| Signers.TempId | Sources/Models/Signable.swift:493-495 | the temporary id is prefixed, and its last bar character ends the address |
| Signers.IntDecimalNoBar | Sources/Models/Signable.swift:494 | a key index's text contains no bar character |
| Signers.LastBarOf | Sources/Models/Signable.swift:494 | with a suffix free of bar characters, the last bar is right after the prefix |
| Signers.SplitAtLastBar | Sources/Models/Signable.swift:494 | joining with a bar is undone by splitting at the last bar |
| Signers.TempIdInjective | Sources/Models/Signable.swift:493-495 | two signers share a temporary id exactly when their prefixed addresses and key indices agree |
| Signers.SignableUserOf | Sources/Models/Signable.swift:497-506 | a signer's participant equals itself, carries the signer, no role, no signature and no sequence number |
| Signers.SignerUsersEqual | Sources/Models/Signable.swift:497-506 | participants made from signers are equal exactly when prefixed addresses and key indices agree |
| Signers.AsSigner | Sources/Models/Signable.swift:509-516 | a participant without an address is at the empty address, without a key index at key 0 |
| Signers.AsSignerRoundTrip | Sources/Models/Signable.swift:497-516 | a signer's participant, seen as a signer, has the same key index and address |
| Signers.FirstMatch | Sources/Models/Signable.swift:528 | `first(where:)`: the found service matches and none before it does; nothing found means none matches |
| Signers.AuthzServices | Sources/Models/Signable.swift:535 | exactly the current user's services of type `authz`, never more of them than services |
| Signers.AuthzServicesAppend | Sources/Models/Signable.swift:535 | the filter keeps order: filtering a concatenation concatenates the filtered parts |
| Signers.AuthzFirstMatch | Sources/Models/Signable.swift:535-536 | the first match in the filtered list is an `authz` service of the whole list before which no `authz` service matches |
| Signers.CurrentUserDispatch | Sources/Models/Signable.swift:535-542 | with no signer and no pre-authorization, the chosen service is the first `authz` service of the current user whose address matches, and `missingAuthz` comes exactly when no `authz` service matches |
| Signers.SearchFor | Sources/Models/Signable.swift:528-538 | fails with `missingAuthz` exactly when no service matches; otherwise the chosen service matches and no earlier one does |
| Signers.SigningDispatch | Sources/Models/Signable.swift:518-542 | an explicit signer wins; a chosen service matches the participant; any failure is `missingAuthz` (first-match and if-and-only-if statements per branch: `SigningPrecedence`, `SigningChoiceSound`, `CurrentUserDispatch`) |
| Signers.SigningPrecedence | Sources/Models/Signable.swift:518-542 | an explicit signer wins outright; otherwise a pre-authorization decides alone, `missingAuthz` exactly when nothing matches; otherwise, without current-user services, `missingAuthz` |
| Signers.SigningChoiceSound | Sources/Models/Signable.swift:518-542 | a chosen service matches the participant's address and comes from the pre-authorization, as the first match there, or is an `authz` service of the current user |

## Left out

- The access-node call `getAccountAtLatestBlock` and all async/await machinery. The lookup is the `fetch` parameter. A failed lookup is the error `FetchFailed`.
- An out-of-range key index `keys[keyID]` traps in Swift. The model returns the error `KeyIndexOutOfRange` instead.
- The wallet call `execService` and a signer's own `signingFunction`. `SigningDispatch` returns which one would be called.
- `Flow.Transaction.addPayloadSignature` / `addEnvelopeSignature` belong to the Flow SDK, which is not part of this model. They are modelled as appending to the signature lists, with no re-ordering by signer index.
- Transaction encoding and signing are not modelled.
- Flow SDK value types are not modelled. `Flow.Address(hex:)`, `Flow.ID`, `Flow.Signature`, `hexValue` and `BigUInt` are hex text, with parsing reduced to dropping "0x". The reference block id and the signature stay text.
- Transactions.AssembledHeader: `BigUInt(message.computeLimit ?? 100)` traps on a negative limit in Swift. The model keeps the integer unchanged.
- The query-shaped fields of `Interaction` (`assigns`, `params`, `events`, `transaction`, `block`, `account`, `collection`) are not modelled. No core operation reads them.
- The JSON `encode(to:)` bodies are not modelled. The fixed `fType` / `fVsn` values are kept as constants (`Vouchers.SignableType`, `Vouchers.PreSignableType`, `Vouchers.PayloadVersion`).
- `toFCLArgument` is not modelled: it draws a random temporary id.
- `toService` and `toIndentity` are not modelled: they depend on URL parsing and the configuration singleton.
- `Service.method`, `endpoint`, `provider` and `data` (`FCLDataResponse`) are not decoded. They never affect the other fields, because each field is decoded with `try?`.
- Numbers that do not fit a 64-bit `Int` are `JDouble`, carrying the text `String(Double)` gives them. Floating-point parsing and rendering are not modelled.
- `isExpired` takes the current time as a parameter. Expiry dates are exact reals, without `Double` rounding.
- The order of `dict.keys` in `processScript` and of the decoded `params` dictionary is unspecified in Swift. It is a caller-supplied listing of the keys (`keyOrder`, `order`). Overlapping placeholders can therefore give order-dependent results, as in the source.
- `Registry.AddressRegistry.RegisterDefaults` registers the networks in a fixed order (emulator, testnet, mainnet), while Swift's dictionary order is unspecified. `Registry.RegisterOrderIrrelevant` shows that the order does not change any lookup.
- Vouchers.VoucherFormsAgree: does not relate the payer, which is an address in one form and an id in the other (`Vouchers.VoucherPayer` states each), nor the authorizers: the Signable form deduplicates after dropping "0x", so "0xab" and "ab" give one authorizer there and two in the PreSignable form.
- Registry.ProcessedScriptFill: its separation condition looks at each written address on its own, not together with the text after it, so a script naming the testnet NonFungibleToken placeholder (address `0x631e88ae7f1d7c20`, ending in '0') beside another placeholder is outside it.
- Registry.ReplaceAll: compares characters literally, whereas Foundation's `replacingOccurrences` matches canonically equivalent Unicode text; the placeholders and addresses are ASCII, for which the two agree.
- `defaultChainId` is only read, never reassigned: the source has no setter in these files.

## Findings

| source | as written | input that shows it | evidently intended | confidence | as-written member | corrected member |
|---|---|---|---|---|---|---|
| Sources/Models/FCLResponse.swift:113-118 | `isExpired` is true when `expiresDate > Date()`, i.e. while the expiry is still in the future | `expires` = 2000 (2 s after 1970) at time 1 s: reported expired; at time 3 s: reported not expired | expired once the expiry date is not after the current time | high; not executed | Responses.IsExpiredAsWrittenInverted | Responses.IsExpiredSpec |
