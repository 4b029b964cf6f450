/** The signing payloads: `Signable` and `PreSignable`, and the voucher each
    derives from its interaction. The two vouchers are built alike; the
    Signable one writes addresses without "0x" and names the payer by
    address, the PreSignable one keeps addresses as stored and names the
    payer by its interaction id. */
module Vouchers {
  import opened Common
  import opened Interactions

  const SignableType: string := "Signable"
  const PreSignableType: string := "PreSignable"
  const PayloadVersion: string := "1.0.1"

  /** One signer's entry in a voucher; any part may be missing. */
  datatype SigEntry = SigEntry(address: Option<string>, keyId: Option<int>, sig: Option<string>)

  datatype Voucher = Voucher(
    cadence: Option<string>,
    refBlock: Option<string>,
    computeLimit: Option<int>,
    arguments: seq<FlowArgument>,
    proposalKey: ProposalKey,
    payer: Option<string>,
    authorizers: seq<string>,
    payloadSigs: seq<SigEntry>,
    envelopeSigs: seq<SigEntry>)

  datatype Signable = Signable(
    message: string,
    keyId: Option<int>,
    addr: Option<string>,
    roles: Role,
    cadence: Option<string>,
    args: seq<FlowArgument>,
    interaction: Interaction)

  datatype PreSignable = PreSignable(
    roles: Role,
    cadence: string,
    args: seq<FlowArgument>,
    interaction: Interaction)

  /** An address as the Signable voucher writes it (without "0x") or as the
      PreSignable voucher does (as stored). */
  function Written(addr: Option<string>, strip: bool): Option<string> {
    if strip && addr.Some? then Some(SansPrefix(addr.value)) else addr
  }

  function EntryOf(account: SignableUser, strip: bool): SigEntry {
    SigEntry(Written(account.addr, strip), account.keyID, account.signature)
  }

  /** `ids.compactMap { accounts[$0] -> entry }`: one entry per id with an
      account, whether or not that account has signed. */
  function SigEntries(accounts: map<string, SignableUser>, ids: seq<string>, strip: bool): (r: seq<SigEntry>)
    ensures |r| <= |ids|
  {
    if ids == [] then []
    else
      var n := |ids| - 1;
      SigEntries(accounts, ids[..n], strip) + (if ids[n] in accounts then [EntryOf(accounts[ids[n]], strip)] else [])
  }

  /** Entries come only from ids with an account, every such id has one
      (its `sig` possibly missing), and when every id has an account the
      entries follow the ids one to one. */
  lemma {:induction false} SigEntriesSpec(accounts: map<string, SignableUser>, ids: seq<string>, strip: bool)
    ensures forall e :: e in SigEntries(accounts, ids, strip) ==>
              exists id :: id in ids && id in accounts && EntryOf(accounts[id], strip) == e
    ensures forall id :: id in ids && id in accounts ==> EntryOf(accounts[id], strip) in SigEntries(accounts, ids, strip)
    ensures (forall id :: id in ids ==> id in accounts) ==>
              |SigEntries(accounts, ids, strip)| == |ids| &&
              forall i :: 0 <= i < |ids| ==> SigEntries(accounts, ids, strip)[i] == EntryOf(accounts[ids[i]], strip)
  {
    if ids != [] {
      var n := |ids| - 1;
      SigEntriesSpec(accounts, ids[..n], strip);
      assert ids == ids[..n] + [ids[n]];
    }
  }

  /** Skipping is filtering: the entries are one per id with an account, in
      the order of `ids`. */
  lemma {:induction false} SigEntriesWithAccount(accounts: map<string, SignableUser>, ids: seq<string>, strip: bool)
    ensures SigEntries(accounts, ids, strip) == SigEntries(accounts, KeysIn(accounts, ids), strip)
    ensures |SigEntries(accounts, ids, strip)| == |KeysIn(accounts, ids)|
    ensures forall i :: 0 <= i < |KeysIn(accounts, ids)| ==>
              SigEntries(accounts, ids, strip)[i] == EntryOf(accounts[KeysIn(accounts, ids)[i]], strip)
  {
    if ids != [] {
      var n := |ids| - 1;
      SigEntriesWithAccount(accounts, ids[..n], strip);
      var f := KeysIn(accounts, ids[..n]);
      if ids[n] in accounts {
        assert (f + [ids[n]])[..|f|] == f;
      }
    }
    SigEntriesSpec(accounts, KeysIn(accounts, ids), strip);
  }

  /** `addr?.sansPrefix()` over a list of addresses. */
  function StripAll(s: seq<string>): (r: seq<string>)
    ensures |r| == |s|
    ensures forall i :: 0 <= i < |s| ==> r[i] == SansPrefix(s[i])
  {
    if s == [] then [] else StripAll(s[..|s| - 1]) + [SansPrefix(s[|s| - 1])]
  }

  /** The voucher of an interaction. `strip` selects the Signable form. */
  function VoucherOf(ix: Interaction, strip: bool): (r: Voucher)
    ensures r.cadence == ix.message.cadence && r.refBlock == ix.message.refBlock
    ensures r.computeLimit == ix.message.computeLimit
    ensures r.arguments == ArgumentsOf(ix) && r.proposalKey == CreateProposalKey(ix)
    ensures |r.authorizers| <= |ix.authorizations|
    ensures |r.payloadSigs| <= |InsideSigners(ix)| && |r.envelopeSigs| <= 1
  {
    var addresses := AddressesOf(ix.accounts, ix.authorizations);
    AddressesOfLength(ix.accounts, ix.authorizations);
    Voucher(
      ix.message.cadence,
      ix.message.refBlock,
      ix.message.computeLimit,
      ArgumentsOf(ix),
      CreateProposalKey(ix),
      if strip then
        var pid := ix.payer.GetOr("");
        if pid in ix.accounts then Written(ix.accounts[pid].addr, true) else None
      else ix.payer,
      Uniqued(if strip then StripAll(addresses) else addresses),
      SigEntries(ix.accounts, InsideSigners(ix), strip),
      SigEntries(ix.accounts, OutsideSigners(ix), strip))
  }

  /** `Signable.voucher`: the payer by its address, and every signature
      entry with its account's address, all without "0x". */
  function SignableVoucher(s: Signable): (v: Voucher)
    ensures var ix, pid := s.interaction, s.interaction.payer.GetOr("");
            v.payer.Some? ==> pid in ix.accounts && ix.accounts[pid].addr.Some?
                              && v.payer.value == SansPrefix(ix.accounts[pid].addr.value)
    ensures forall e :: e in v.payloadSigs ==>
              exists id :: id in InsideSigners(s.interaction) && id in s.interaction.accounts
                           && e == EntryOf(s.interaction.accounts[id], true)
    ensures forall e :: e in v.envelopeSigs ==>
              s.interaction.payer.Some? && s.interaction.payer.value in s.interaction.accounts
              && e == EntryOf(s.interaction.accounts[s.interaction.payer.value], true)
  {
    VoucherPayloadSigs(s.interaction, true);
    VoucherEnvelopeSigs(s.interaction, true);
    VoucherOf(s.interaction, true)
  }

  /** `PreSignable.voucher`: the payer by its interaction id, and every
      signature entry with its account's address as stored. */
  function PreSignableVoucher(p: PreSignable): (v: Voucher)
    ensures v.payer == p.interaction.payer
    ensures forall e :: e in v.payloadSigs ==>
              exists id :: id in InsideSigners(p.interaction) && id in p.interaction.accounts
                           && e == EntryOf(p.interaction.accounts[id], false)
    ensures forall e :: e in v.envelopeSigs ==>
              p.interaction.payer.Some? && p.interaction.payer.value in p.interaction.accounts
              && e == EntryOf(p.interaction.accounts[p.interaction.payer.value], false)
  {
    VoucherPayloadSigs(p.interaction, false);
    VoucherEnvelopeSigs(p.interaction, false);
    VoucherOf(p.interaction, false)
  }

  /** `buildPreSignable(role:)`: the interaction's cadence (empty when
      missing) and arguments, under the given role. */
  function BuildPreSignable(ix: Interaction, role: Role): (p: PreSignable)
    ensures p.interaction == ix && p.roles == role
    ensures ix.message.cadence.Some? ==> p.cadence == ix.message.cadence.value
    ensures ix.message.cadence.None? ==> p.cadence == ""
  {
    PreSignable(role, ix.message.cadence.GetOr(""), ArgumentsOf(ix), ix)
  }

  /** A built PreSignable carries the same arguments as its voucher, in the
      order of `message.arguments`. */
  lemma BuildPreSignableArguments(ix: Interaction, role: Role)
    ensures BuildPreSignable(ix, role).args == PreSignableVoucher(BuildPreSignable(ix, role)).arguments
    ensures (forall id :: id in ix.message.arguments ==> id in ix.arguments) ==>
              |BuildPreSignable(ix, role).args| == |ix.message.arguments| &&
              forall i :: 0 <= i < |ix.message.arguments| ==>
                BuildPreSignable(ix, role).args[i] == ix.arguments[ix.message.arguments[i]].asArgument
  {
    ArgumentValuesSpec(ix.arguments, ix.message.arguments);
  }

  /** Proposer `a`, payer `b`, authorizations [a, c], all three with
      accounts whose addresses differ: the voucher names the addresses of
      `a` and `c` as authorizers, in that order, carries one payload entry
      for each of them and one envelope entry, for `b`. */
  lemma ThreePartyVoucher(ix: Interaction, a: string, b: string, c: string, strip: bool)
    requires a != b && b != c && a != c
    requires ix.proposer == Some(a) && ix.payer == Some(b) && ix.authorizations == [a, c]
    requires a in ix.accounts && b in ix.accounts && c in ix.accounts
    requires ix.accounts[a].addr.Some? && ix.accounts[c].addr.Some?
    requires SansPrefix(ix.accounts[a].addr.value) != SansPrefix(ix.accounts[c].addr.value)
    ensures var xa, xc := ix.accounts[a].addr.value, ix.accounts[c].addr.value;
            VoucherOf(ix, strip).authorizers == if strip then [SansPrefix(xa), SansPrefix(xc)] else [xa, xc]
    ensures VoucherOf(ix, strip).payer == if strip then Written(ix.accounts[b].addr, true) else Some(b)
    ensures VoucherOf(ix, strip).payloadSigs == [EntryOf(ix.accounts[a], strip), EntryOf(ix.accounts[c], strip)]
    ensures VoucherOf(ix, strip).envelopeSigs == [EntryOf(ix.accounts[b], strip)]
  {
    ThreePartySigs(ix, a, b, c, strip);
    ThreePartyAuthorizers(ix, a, c, strip);
  }

  lemma ThreePartySigs(ix: Interaction, a: string, b: string, c: string, strip: bool)
    requires a != b && b != c && a != c
    requires ix.proposer == Some(a) && ix.payer == Some(b) && ix.authorizations == [a, c]
    requires a in ix.accounts && b in ix.accounts && c in ix.accounts
    ensures VoucherOf(ix, strip).payloadSigs == [EntryOf(ix.accounts[a], strip), EntryOf(ix.accounts[c], strip)]
    ensures VoucherOf(ix, strip).envelopeSigs == [EntryOf(ix.accounts[b], strip)]
  {
    ThreePartyScenario(ix, a, b, c);
    VoucherPayloadOrder(ix, strip);
    VoucherEnvelopeSigs(ix, strip);
  }

  lemma ThreePartyAuthorizers(ix: Interaction, a: string, c: string, strip: bool)
    requires ix.authorizations == [a, c] && a in ix.accounts && c in ix.accounts
    requires ix.accounts[a].addr.Some? && ix.accounts[c].addr.Some?
    requires SansPrefix(ix.accounts[a].addr.value) != SansPrefix(ix.accounts[c].addr.value)
    ensures var xa, xc := ix.accounts[a].addr.value, ix.accounts[c].addr.value;
            VoucherOf(ix, strip).authorizers == if strip then [SansPrefix(xa), SansPrefix(xc)] else [xa, xc]
  {
    var xa, xc := ix.accounts[a].addr.value, ix.accounts[c].addr.value;
    AddressesOfPair(ix.accounts, a, c);
    if strip {
      assert StripAll([xa, xc]) == [SansPrefix(xa), SansPrefix(xc)];
      UniquedPair(SansPrefix(xa), SansPrefix(xc));
    } else {
      UniquedPair(xa, xc);
    }
  }

  lemma AddressesOfPair(accounts: map<string, SignableUser>, a: string, c: string)
    requires a in accounts && c in accounts && accounts[a].addr.Some? && accounts[c].addr.Some?
    ensures AddressesOf(accounts, [a, c]) == [accounts[a].addr.value, accounts[c].addr.value]
  {
    var ids := [a, c];
    assert ids[..1] == [a] && [a][..0] == [];
    assert AddressesOf(accounts, []) == [];
    assert AddressesOf(accounts, [a]) == [accounts[a].addr.value];
  }

  /** Voucher payload signatures: exactly one entry per inside signer that
      has an account, in inside-signer order, kept even when it has not
      signed (its `sig` then missing), and none for the payer. */
  lemma VoucherPayloadSigs(ix: Interaction, strip: bool)
    ensures forall e :: e in VoucherOf(ix, strip).payloadSigs ==>
              exists id :: id in InsideSigners(ix) && ix.payer != Some(id) && id in ix.accounts && EntryOf(ix.accounts[id], strip) == e
    ensures forall id :: id in InsideSigners(ix) && id in ix.accounts ==>
              EntryOf(ix.accounts[id], strip) in VoucherOf(ix, strip).payloadSigs
    ensures |VoucherOf(ix, strip).payloadSigs| == |KeysIn(ix.accounts, InsideSigners(ix))|
    ensures forall i :: 0 <= i < |KeysIn(ix.accounts, InsideSigners(ix))| ==>
              VoucherOf(ix, strip).payloadSigs[i] == EntryOf(ix.accounts[KeysIn(ix.accounts, InsideSigners(ix))[i]], strip)
  {
    InsideSignersSpec(ix);
    SigEntriesSpec(ix.accounts, InsideSigners(ix), strip);
    SigEntriesWithAccount(ix.accounts, InsideSigners(ix), strip);
  }

  /** The voucher envelope holds the payer's entry alone, or nothing when
      the payer is unset or has no account. */
  lemma VoucherEnvelopeSigs(ix: Interaction, strip: bool)
    ensures ix.payer.Some? && ix.payer.value in ix.accounts ==>
              VoucherOf(ix, strip).envelopeSigs == [EntryOf(ix.accounts[ix.payer.value], strip)]
    ensures ix.payer.None? || ix.payer.value !in ix.accounts ==> VoucherOf(ix, strip).envelopeSigs == []
  {
    var outside := OutsideSigners(ix);
    if ix.payer.Some? {
      assert outside == [ix.payer.value];
      assert outside[..0] == [];
    }
  }

  /** When every inside signer has an account, the payload entries follow
      the inside signers one to one. */
  lemma VoucherPayloadOrder(ix: Interaction, strip: bool)
    requires forall id :: id in InsideSigners(ix) ==> id in ix.accounts
    ensures |VoucherOf(ix, strip).payloadSigs| == |InsideSigners(ix)|
    ensures forall i :: 0 <= i < |InsideSigners(ix)| ==>
              VoucherOf(ix, strip).payloadSigs[i] == EntryOf(ix.accounts[InsideSigners(ix)[i]], strip)
  {
    SigEntriesSpec(ix.accounts, InsideSigners(ix), strip);
  }

  /** The authorization `id` has an account whose address the voucher writes as `x`. */
  predicate AuthorizerWrites(ix: Interaction, id: string, strip: bool, x: string) {
    id in ix.authorizations && id in ix.accounts && ix.accounts[id].addr.Some? &&
    Written(ix.accounts[id].addr, strip) == Some(x)
  }

  /** Voucher authorizers: the authorizations' known addresses (without "0x"
      in the Signable form), each once, in first-seen order. */
  lemma VoucherAuthorizers(ix: Interaction, strip: bool)
    ensures var addresses := AddressesOf(ix.accounts, ix.authorizations);
            var written := if strip then StripAll(addresses) else addresses;
            && NoDuplicates(VoucherOf(ix, strip).authorizers)
            && FirstSeenOrder(VoucherOf(ix, strip).authorizers, written)
            && (forall x :: x in VoucherOf(ix, strip).authorizers <==> exists id :: AuthorizerWrites(ix, id, strip, x))
  {
    var addresses := AddressesOf(ix.accounts, ix.authorizations);
    var written := if strip then StripAll(addresses) else addresses;
    UniquedFirstSeenOrder(written);
    forall x ensures x in written <==> exists id :: AuthorizerWrites(ix, id, strip, x) {
      if x in written {
        var i :| 0 <= i < |written| && written[i] == x;
        assert addresses[i] in addresses;
        var id :| id in ix.authorizations && id in ix.accounts && ix.accounts[id].addr == Some(addresses[i]);
        assert AuthorizerWrites(ix, id, strip, x);
      }
      if exists id :: AuthorizerWrites(ix, id, strip, x) {
        var id :| AuthorizerWrites(ix, id, strip, x);
        var a := ix.accounts[id].addr.value;
        assert a in addresses;
        var i :| 0 <= i < |addresses| && addresses[i] == a;
        assert written[i] == x;
      }
    }
  }

  /** The voucher payer: the payer's address without "0x" in the Signable
      form (missing when the payer or its address is), the payer's
      interaction id in the PreSignable form. */
  lemma VoucherPayer(ix: Interaction)
    ensures VoucherOf(ix, false).payer == ix.payer
    ensures var v := VoucherOf(ix, true);
            v.payer.Some? <==> ix.payer.GetOr("") in ix.accounts && ix.accounts[ix.payer.GetOr("")].addr.Some?
    ensures var v := VoucherOf(ix, true);
            v.payer.Some? ==> v.payer.value == SansPrefix(ix.accounts[ix.payer.GetOr("")].addr.value)
  {
  }

  /** The two forms carry the same header, arguments and proposal key, and
      the same signature entries position by position, up to how each
      entry's address is written. (They differ in the payer, see
      `VoucherPayer`, and may differ in the authorizers, which the Signable
      form deduplicates after dropping "0x".) */
  lemma VoucherFormsAgree(ix: Interaction)
    ensures var s, p := VoucherOf(ix, true), VoucherOf(ix, false);
            && s.cadence == p.cadence && s.refBlock == p.refBlock && s.computeLimit == p.computeLimit
            && s.arguments == p.arguments && s.proposalKey == p.proposalKey
            && |s.payloadSigs| == |p.payloadSigs| && |s.envelopeSigs| == |p.envelopeSigs|
            && (forall i :: 0 <= i < |s.payloadSigs| ==>
                  s.payloadSigs[i] == p.payloadSigs[i].(address := Written(p.payloadSigs[i].address, true)))
            && (forall i :: 0 <= i < |s.envelopeSigs| ==>
                  s.envelopeSigs[i] == p.envelopeSigs[i].(address := Written(p.envelopeSigs[i].address, true)))
  {
    SigEntriesStrip(ix.accounts, InsideSigners(ix));
    SigEntriesStrip(ix.accounts, OutsideSigners(ix));
  }

  lemma {:induction false} SigEntriesStrip(accounts: map<string, SignableUser>, ids: seq<string>)
    ensures |SigEntries(accounts, ids, true)| == |SigEntries(accounts, ids, false)|
    ensures forall i :: 0 <= i < |SigEntries(accounts, ids, true)| ==>
              SigEntries(accounts, ids, true)[i] ==
                SigEntries(accounts, ids, false)[i].(address := Written(SigEntries(accounts, ids, false)[i].address, true))
  {
    if ids != [] {
      SigEntriesStrip(accounts, ids[..|ids| - 1]);
    }
  }
}
