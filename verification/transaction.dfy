/** Turning a resolved interaction into a chain transaction: the proposal
    key (looking up the sequence number when it is not known yet), the payer,
    the authorizers and the collected signatures. The account lookup on the
    access node is a parameter `fetch`; the result records every address
    looked up, so that "fetches only when needed" can be stated. */
module Transactions {
  import opened Common
  import opened Interactions

  datatype FclError = InvalidProposer | MissingPayer | MissingAuthz | FetchFailed | KeyIndexOutOfRange

  /** What the access node says about one key of an account. */
  datatype AccountKey = AccountKey(sequenceNumber: int)

  /** The answer of `getAccountAtLatestBlock`: the account's keys, or a failure. */
  datatype FetchOutcome = Fetched(keys: seq<AccountKey>) | FetchError

  datatype TxProposalKey = TxProposalKey(address: FlowAddress, keyIndex: int, sequenceNumber: int)

  datatype TxSignature = TxSignature(address: FlowAddress, keyIndex: int, signature: string)

  datatype FlowTransaction = FlowTransaction(
    script: string,
    arguments: seq<FlowArgument>,
    referenceBlockId: string,
    gasLimit: int,
    proposalKey: TxProposalKey,
    payer: FlowAddress,
    authorizers: seq<FlowAddress>,
    payloadSignatures: seq<TxSignature>,
    envelopeSignatures: seq<TxSignature>)

  /** The default compute limit when the message names none. */
  const DefaultComputeLimit: int := 100

  /** The proposer's account, when it has both an address and a key index. */
  predicate ProposerReady(ix: Interaction) {
    && ix.proposer.Some?
    && ix.proposer.value in ix.accounts
    && ix.accounts[ix.proposer.value].addr.Some?
    && ix.accounts[ix.proposer.value].keyID.Some?
  }

  datatype KeyResolution = KeyResolution(key: Result<TxProposalKey, FclError>, fetches: seq<FlowAddress>)

  /** `createFlowProposalKey()`. The sequence number is read from the account
      when known; otherwise the account is fetched and the number taken from
      its key at the proposer's key index. The interaction is not changed: the
      fetched number only lives in the result. */
  function CreateFlowProposalKey(ix: Interaction, fetch: FlowAddress -> FetchOutcome): (r: KeyResolution)
    ensures !ProposerReady(ix) ==> r == KeyResolution(Err(InvalidProposer), [])
    ensures ProposerReady(ix) ==>
              var account := ix.accounts[ix.proposer.value];
              var address := AddressFromHex(account.addr.value);
              && (account.sequenceNum.Some? ==>
                    r == KeyResolution(Ok(TxProposalKey(address, account.keyID.value, account.sequenceNum.value)), []))
              && (account.sequenceNum.None? ==> r.fetches == [address])
              && (account.sequenceNum.None? && fetch(address).FetchError? ==> r.key == Err(FetchFailed))
              && (account.sequenceNum.None? && fetch(address).Fetched? ==>
                    var keys := fetch(address).keys;
                    r.key == if 0 <= account.keyID.value < |keys|
                             then Ok(TxProposalKey(address, account.keyID.value, keys[account.keyID.value].sequenceNumber))
                             else Err(KeyIndexOutOfRange))
  {
    if !ProposerReady(ix) then KeyResolution(Err(InvalidProposer), [])
    else
      var account := ix.accounts[ix.proposer.value];
      var address := AddressFromHex(account.addr.value);
      var keyID := account.keyID.value;
      if account.sequenceNum.Some? then
        KeyResolution(Ok(TxProposalKey(address, keyID, account.sequenceNum.value)), [])
      else
        match fetch(address)
        case FetchError => KeyResolution(Err(FetchFailed), [address])
        case Fetched(keys) =>
          if 0 <= keyID < |keys| then
            KeyResolution(Ok(TxProposalKey(address, keyID, keys[keyID].sequenceNumber)), [address])
          else
            KeyResolution(Err(KeyIndexOutOfRange), [address])
  }

  /** The chain proposal key agrees with the best-effort one: whenever the
      latter is complete, the former is the same key and nothing is fetched;
      and any key produced belongs to the proposer's address and key index. */
  lemma FlowProposalKeyAgrees(ix: Interaction, fetch: FlowAddress -> FetchOutcome)
    ensures var k := CreateProposalKey(ix);
            k.address.Some? && k.keyID.Some? && k.sequenceNum.Some? ==>
              CreateFlowProposalKey(ix, fetch) ==
                KeyResolution(Ok(TxProposalKey(FlowAddress(k.address.value), k.keyID.value, k.sequenceNum.value)), [])
    ensures var r := CreateFlowProposalKey(ix, fetch);
            r.key.Ok? ==>
              var k := CreateProposalKey(ix);
              && k.address == Some(r.key.value.address.hex)
              && k.keyID == Some(r.key.value.keyIndex)
              && (k.sequenceNum.Some? ==> k.sequenceNum.value == r.key.value.sequenceNumber)
    ensures |CreateFlowProposalKey(ix, fetch).fetches| <= 1
  {
  }

  // ---------------------------------------------------------------------
  // Signatures, payer and authorizers
  // ---------------------------------------------------------------------

  /** An account that can contribute a signature: it exists and has an
      address, a key index and a signature. */
  predicate Signed(accounts: map<string, SignableUser>, id: string) {
    id in accounts && accounts[id].addr.Some? && accounts[id].keyID.Some? && accounts[id].signature.Some?
  }

  function SignatureOf(accounts: map<string, SignableUser>, id: string): TxSignature
    requires Signed(accounts, id)
  {
    var a := accounts[id];
    TxSignature(AddressFromHex(a.addr.value), a.keyID.value, a.signature.value)
  }

  /** The signatures the signers in `ids` add, in order; signers without a
      complete signature are skipped. */
  function SignaturesOf(accounts: map<string, SignableUser>, ids: seq<string>): (r: seq<TxSignature>)
    ensures |r| <= |ids|
  {
    if ids == [] then []
    else
      var n := |ids| - 1;
      SignaturesOf(accounts, ids[..n]) + (if Signed(accounts, ids[n]) then [SignatureOf(accounts, ids[n])] else [])
  }

  /** The signers of `ids` with a complete signature, in order. */
  function SignedIds(accounts: map<string, SignableUser>, ids: seq<string>): (r: seq<string>)
    ensures forall id :: id in r <==> id in ids && Signed(accounts, id)
    ensures (forall id :: id in ids ==> Signed(accounts, id)) ==> r == ids
  {
    if ids == [] then []
    else
      var n := |ids| - 1;
      assert ids == ids[..n] + [ids[n]];
      SignedIds(accounts, ids[..n]) + (if Signed(accounts, ids[n]) then [ids[n]] else [])
  }

  /** Skipping is filtering: the signatures are one per signer with a
      complete signature, in the order of `ids`. */
  lemma {:induction false} SignaturesOfSignedIds(accounts: map<string, SignableUser>, ids: seq<string>)
    ensures SignaturesOf(accounts, ids) == SignaturesOf(accounts, SignedIds(accounts, ids))
    ensures |SignaturesOf(accounts, ids)| == |SignedIds(accounts, ids)|
    ensures forall i :: 0 <= i < |SignedIds(accounts, ids)| ==>
              SignaturesOf(accounts, ids)[i] == SignatureOf(accounts, SignedIds(accounts, ids)[i])
  {
    if ids != [] {
      var n := |ids| - 1;
      SignaturesOfSignedIds(accounts, ids[..n]);
      var f := SignedIds(accounts, ids[..n]);
      if Signed(accounts, ids[n]) {
        assert (f + [ids[n]])[..|f|] == f;
      }
    }
    SignaturesOfAllSigned(accounts, SignedIds(accounts, ids));
  }

  /** Every signature comes from a signer in `ids`, and every signer in
      `ids` with a complete signature contributes it. */
  lemma {:induction false} SignaturesOfSpec(accounts: map<string, SignableUser>, ids: seq<string>)
    ensures forall s :: s in SignaturesOf(accounts, ids) ==>
              exists id :: id in ids && Signed(accounts, id) && SignatureOf(accounts, id) == s
    ensures forall id :: id in ids && Signed(accounts, id) ==> SignatureOf(accounts, id) in SignaturesOf(accounts, ids)
  {
    if ids != [] {
      var n := |ids| - 1;
      SignaturesOfSpec(accounts, ids[..n]);
      assert ids == ids[..n] + [ids[n]];
    }
  }

  /** When every signer has signed, there is exactly one signature per
      signer, in the signers' order. */
  lemma {:induction false} SignaturesOfAllSigned(accounts: map<string, SignableUser>, ids: seq<string>)
    requires forall id :: id in ids ==> Signed(accounts, id)
    ensures |SignaturesOf(accounts, ids)| == |ids|
    ensures forall i :: 0 <= i < |ids| ==> SignaturesOf(accounts, ids)[i] == SignatureOf(accounts, ids[i])
  {
    if ids != [] {
      var n := |ids| - 1;
      assert forall id :: id in ids[..n] ==> id in ids;
      SignaturesOfAllSigned(accounts, ids[..n]);
    }
  }

  function ParseAll(s: seq<string>): (r: seq<FlowAddress>)
    ensures |r| == |s|
    ensures forall i :: 0 <= i < |s| ==> r[i] == AddressFromHex(s[i])
  {
    if s == [] then [] else ParseAll(s[..|s| - 1]) + [AddressFromHex(s[|s| - 1])]
  }

  /** The payer has an account with an address. */
  predicate PayerReady(ix: Interaction) {
    ix.payer.Some? && ix.payer.value in ix.accounts && ix.accounts[ix.payer.value].addr.Some?
  }

  /** The transaction before any signature is attached. */
  function Unsigned(ix: Interaction, key: TxProposalKey): (r: FlowTransaction)
    requires PayerReady(ix)
    ensures r.payloadSignatures == [] && r.envelopeSignatures == []
    ensures r.proposalKey == key
    ensures ix.message.computeLimit.None? ==> r.gasLimit == DefaultComputeLimit
    ensures |r.authorizers| <= |ix.authorizations|
  {
    AddressesOfLength(ix.accounts, ix.authorizations);
    FlowTransaction(
      ix.message.cadence.GetOr(""),
      ArgumentsOf(ix),
      ix.message.refBlock.GetOr(""),
      ix.message.computeLimit.GetOr(DefaultComputeLimit),
      key,
      AddressFromHex(ix.accounts[ix.payer.value].addr.value),
      ParseAll(Uniqued(AddressesOf(ix.accounts, ix.authorizations))),
      [], [])
  }

  /** The finished transaction: payload signatures from the inside signers,
      the envelope signature from the payer. */
  function Assembled(ix: Interaction, key: TxProposalKey): (r: FlowTransaction)
    requires PayerReady(ix)
    ensures r.(payloadSignatures := [], envelopeSignatures := []) == Unsigned(ix, key)
    ensures |r.payloadSignatures| <= |InsideSigners(ix)| && |r.envelopeSignatures| <= 1
  {
    Unsigned(ix, key).(
      payloadSignatures := SignaturesOf(ix.accounts, InsideSigners(ix)),
      envelopeSignatures := SignaturesOf(ix.accounts, OutsideSigners(ix)))
  }

  /** One of `toFlowTransaction`'s signature loops: each signer in turn
      adds its signature when its account has address, key index and
      signature. */
  method CollectSignatures(accounts: map<string, SignableUser>, ids: seq<string>) returns (sigs: seq<TxSignature>)
    ensures sigs == SignaturesOf(accounts, ids)
  {
    sigs := [];
    for i := 0 to |ids|
      invariant sigs == SignaturesOf(accounts, ids[..i])
    {
      assert ids[..i + 1][..i] == ids[..i];
      var id := ids[i];
      if Signed(accounts, id) {
        sigs := sigs + [SignatureOf(accounts, id)];
      }
    }
    assert ids[..|ids|] == ids;
  }

  /** `toFlowTransaction()`. The proposal key is resolved first, so an
      unusable proposer is reported before a missing payer; then the inside
      and outside signers' signatures are attached one by one. */
  method ToFlowTransaction(ix: Interaction, fetch: FlowAddress -> FetchOutcome)
    returns (r: Result<FlowTransaction, FclError>, fetches: seq<FlowAddress>)
    ensures fetches == CreateFlowProposalKey(ix, fetch).fetches
    ensures CreateFlowProposalKey(ix, fetch).key.Err? ==> r == Err(CreateFlowProposalKey(ix, fetch).key.error)
    ensures CreateFlowProposalKey(ix, fetch).key.Ok? && !PayerReady(ix) ==> r == Err(MissingPayer)
    ensures CreateFlowProposalKey(ix, fetch).key.Ok? && PayerReady(ix) ==>
              r == Ok(Assembled(ix, CreateFlowProposalKey(ix, fetch).key.value))
  {
    var resolution := CreateFlowProposalKey(ix, fetch);
    fetches := resolution.fetches;
    if resolution.key.Err? {
      return Err(resolution.key.error), fetches;
    }
    if !PayerReady(ix) {
      return Err(MissingPayer), fetches;
    }
    var insideSigners := FindInsideSigners(ix);
    var payload := CollectSignatures(ix.accounts, insideSigners);
    var envelope := CollectSignatures(ix.accounts, OutsideSigners(ix));
    var tx := Unsigned(ix, resolution.key.value).(payloadSignatures := payload, envelopeSignatures := envelope);
    r := Ok(tx);
  }

  /** The assembled transaction's header: the resolved key, the payer's
      address, the default compute limit, no more authorizers than
      authorizations. */
  lemma AssembledHeader(ix: Interaction, key: TxProposalKey)
    requires PayerReady(ix)
    ensures Assembled(ix, key).proposalKey == key
    ensures Assembled(ix, key).payer == AddressFromHex(ix.accounts[ix.payer.value].addr.value)
    ensures ix.message.computeLimit.None? ==> Assembled(ix, key).gasLimit == DefaultComputeLimit
    ensures |Assembled(ix, key).authorizers| <= |ix.authorizations|
  {
    AddressesOfLength(ix.accounts, ix.authorizations);
  }

  /** At most one envelope signature, and it is the payer's: present exactly
      when the payer has signed. */
  lemma AssembledEnvelope(ix: Interaction, key: TxProposalKey)
    requires PayerReady(ix)
    ensures Signed(ix.accounts, ix.payer.value) ==>
              Assembled(ix, key).envelopeSignatures == [SignatureOf(ix.accounts, ix.payer.value)]
    ensures !Signed(ix.accounts, ix.payer.value) ==> Assembled(ix, key).envelopeSignatures == []
  {
    var outside := OutsideSigners(ix);
    assert outside == [ix.payer.value];
    assert outside[..0] == [];
  }

  /** Payload signatures come only from inside signers (never the payer):
      exactly one per inside signer that has signed, in inside-signer order. */
  lemma AssembledPayload(ix: Interaction, key: TxProposalKey)
    requires PayerReady(ix)
    ensures forall s :: s in Assembled(ix, key).payloadSignatures ==>
              exists id :: id in InsideSigners(ix) && id != ix.payer.value && Signed(ix.accounts, id) && SignatureOf(ix.accounts, id) == s
    ensures forall id :: id in InsideSigners(ix) && Signed(ix.accounts, id) ==>
              SignatureOf(ix.accounts, id) in Assembled(ix, key).payloadSignatures
    ensures |Assembled(ix, key).payloadSignatures| == |SignedIds(ix.accounts, InsideSigners(ix))|
    ensures forall i :: 0 <= i < |SignedIds(ix.accounts, InsideSigners(ix))| ==>
              Assembled(ix, key).payloadSignatures[i] == SignatureOf(ix.accounts, SignedIds(ix.accounts, InsideSigners(ix))[i])
  {
    InsideSignersSpec(ix);
    SignaturesOfSpec(ix.accounts, InsideSigners(ix));
    SignaturesOfSignedIds(ix.accounts, InsideSigners(ix));
  }

  /** The authorizers are the parsed addresses of the authorizations that
      have one, each address text once, in first-seen order. */
  lemma AuthorizersSpec(ix: Interaction, key: TxProposalKey)
    requires PayerReady(ix)
    ensures var texts := Uniqued(AddressesOf(ix.accounts, ix.authorizations));
            && Assembled(ix, key).authorizers == ParseAll(texts)
            && NoDuplicates(texts)
            && FirstSeenOrder(texts, AddressesOf(ix.accounts, ix.authorizations))
            && (forall x :: x in texts <==>
                  exists id :: id in ix.authorizations && id in ix.accounts && ix.accounts[id].addr == Some(x))
  {
    UniquedFirstSeenOrder(AddressesOf(ix.accounts, ix.authorizations));
  }
}
