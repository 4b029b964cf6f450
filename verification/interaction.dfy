/** The in-flight request ("interaction") and the role algebra over it: who
    signs the payload, who signs the envelope, and the best-effort proposal
    key. An Interaction is a value: the Swift type is a struct, so a
    `mutating` method replaces the whole value and is modelled as a function
    from the old value to the new one. */
module Interactions {
  import opened Common

  datatype Tag =
    | Unknown | Script | Transaction | GetTransactionStatus | GetAccount | GetEvents
    | GetLatestBlock | Ping | GetTransaction | GetBlockById | GetBlockByHeight
    | GetBlock | GetBlockHeader | GetCollection

  datatype Status = StatusOk | StatusBad

  /** Role flags of a participant; `param` is carried along untouched. */
  datatype Role = Role(proposer: bool, authorizer: bool, payer: bool, param: Option<bool>)

  const NoRole: Role := Role(false, false, false, None)

  /** `Role.merge(role:)`: each flag becomes the OR of the two. */
  function Merge(r: Role, other: Role): (m: Role)
    ensures m.param == r.param
  {
    r.(proposer := r.proposer || other.proposer,
       authorizer := r.authorizer || other.authorizer,
       payer := r.payer || other.payer)
  }

  /** Merging never clears a flag, sets only flags one side had, and is
      idempotent, commutative and associative on the flags. */
  lemma MergeLaws(r: Role, s: Role, t: Role)
    ensures (r.proposer ==> Merge(r, s).proposer) && (s.proposer ==> Merge(r, s).proposer)
    ensures (r.authorizer ==> Merge(r, s).authorizer) && (s.authorizer ==> Merge(r, s).authorizer)
    ensures (r.payer ==> Merge(r, s).payer) && (s.payer ==> Merge(r, s).payer)
    ensures Merge(r, s).proposer ==> r.proposer || s.proposer
    ensures Merge(r, s).authorizer ==> r.authorizer || s.authorizer
    ensures Merge(r, s).payer ==> r.payer || s.payer
    ensures Merge(r, r) == r
    ensures Merge(r, NoRole) == r
    ensures Merge(r, s) == Merge(s, r).(param := r.param)
    ensures Merge(Merge(r, s), t) == Merge(r, Merge(s, t))
  {
  }

  /** The signer delegate a participant may carry (`FCLSigner`): only its
      identity is modelled, the signing itself is external. */
  datatype SignerRef = SignerRef(address: FlowAddress, keyIndex: int)

  /** A participant. `addr` is hex text, `signature` is filled in once the
      participant has signed, `sequenceNum` once it has been looked up. */
  datatype SignableUser = SignableUser(
    kind: Option<string>,
    tempID: Option<string>,
    addr: Option<string>,
    signature: Option<string>,
    keyID: Option<int>,
    sequenceNum: Option<int>,
    role: Role,
    signer: Option<SignerRef>)

  /** `SignableUser ==`: equal temporary ids, and no participant without one
      equals anything, itself included. */
  predicate SameUser(l: SignableUser, r: SignableUser)
    ensures SameUser(l, r) <==> l.tempID.Some? && l.tempID == r.tempID
  {
    l.tempID.Some? && r.tempID.Some? && l.tempID.value == r.tempID.value
  }

  /** The participant relation is symmetric and transitive, reflexive exactly
      on participants that have a temporary id, and ignores every other field. */
  lemma SameUserLaws(a: SignableUser, b: SignableUser, c: SignableUser)
    ensures SameUser(a, b) <==> SameUser(b, a)
    ensures SameUser(a, b) && SameUser(b, c) ==> SameUser(a, c)
    ensures SameUser(a, a) <==> a.tempID.Some?
    ensures a.tempID.Some? && a.tempID == b.tempID ==> SameUser(a, b)
  {
  }

  /** A participant without a temporary id is not equal to itself. */
  lemma SameUserNotReflexive()
    ensures exists u: SignableUser :: !SameUser(u, u)
  {
    var u := SignableUser(None, None, None, None, None, None, NoRole, None);
    assert !SameUser(u, u);
  }

  /** A typed argument value as handed to the chain SDK (opaque here). */
  datatype FlowArgument = FlowArgument(cadenceType: string, value: string)

  datatype Argument = Argument(kind: string, tempId: string, asArgument: FlowArgument, xformLabel: string)

  /** The transaction text and the order-carrying id lists. */
  datatype Message = Message(
    cadence: Option<string>,
    refBlock: Option<string>,
    computeLimit: Option<int>,
    proposer: Option<string>,
    payer: Option<string>,
    authorizations: seq<string>,
    params: seq<string>,
    arguments: seq<string>)

  datatype Interaction = Interaction(
    tag: Tag,
    status: Status,
    reason: Option<string>,
    accounts: map<string, SignableUser>,
    arguments: map<string, Argument>,
    message: Message,
    proposer: Option<string>,
    authorizations: seq<string>,
    payer: Option<string>)

  /** `setTag(_:)`: only the tag changes. */
  function SetTag(ix: Interaction, tag: Tag): (r: Interaction)
    ensures r.tag == tag
    ensures r.(tag := ix.tag) == ix
  {
    ix.(tag := tag)
  }

  // ---------------------------------------------------------------------
  // Inside and outside signers
  // ---------------------------------------------------------------------

  /** Everyone who may sign the payload, in the order they are considered:
      the authorizations, then the proposer. */
  function Candidates(ix: Interaction): seq<string> {
    ix.authorizations + (if ix.proposer.Some? then [ix.proposer.value] else [])
  }

  /** `findInsideSigners`: (authorizations + proposer), each once, minus the payer. */
  function InsideSigners(ix: Interaction): (r: seq<string>)
    ensures ix.payer.Some? ==> ix.payer.value !in r
    ensures NoDuplicates(r) && |r| <= |Candidates(ix)|
    ensures forall id :: id in r <==> id in Candidates(ix) && ix.payer != Some(id)
  {
    var u := Uniqued(Candidates(ix));
    if ix.payer.Some? then
      RemoveAllKeepsDistinct(u, ix.payer.value);
      RemoveAll(u, ix.payer.value)
    else u
  }

  /** `findInsideSigners`, step by step: collect the authorizations not seen
      yet, append the proposer if new, then drop every copy of the payer. */
  method FindInsideSigners(ix: Interaction) returns (ins: seq<string>)
    ensures ins == InsideSigners(ix)
  {
    ins := [];
    var auths := ix.authorizations;
    for i := 0 to |auths|
      invariant ins == Uniqued(auths[..i])
    {
      assert auths[..i + 1] == auths[..i] + [auths[i]];
      UniquedSnoc(auths[..i], auths[i]);
      if auths[i] !in ins {
        ins := ins + [auths[i]];
      }
    }
    assert auths[..|auths|] == auths;
    if ix.proposer.Some? {
      var p := ix.proposer.value;
      UniquedSnoc(auths, p);
      if p !in ins {
        ins := ins + [p];
      }
    } else {
      assert Candidates(ix) == auths;
    }
    assert ins == Uniqued(Candidates(ix));
    if ix.payer.Some? {
      ins := RemoveAll(ins, ix.payer.value);
    }
  }

  /** The payload signers: never the payer, no id twice, exactly the
      authorizations and proposer other than the payer, in first-seen order. */
  lemma InsideSignersSpec(ix: Interaction)
    ensures ix.payer.Some? ==> ix.payer.value !in InsideSigners(ix)
    ensures NoDuplicates(InsideSigners(ix))
    ensures forall id :: id in InsideSigners(ix) <==>
              (id in ix.authorizations || ix.proposer == Some(id)) && ix.payer != Some(id)
    ensures FirstSeenOrder(InsideSigners(ix), Candidates(ix))
  {
    var c := Candidates(ix);
    var u := Uniqued(c);
    UniquedFirstSeenOrder(c);
    if ix.payer.Some? {
      RemoveAllKeepsDistinct(u, ix.payer.value);
      RemoveAllKeepsOrder(u, ix.payer.value, c);
    }
  }

  /** `findOutsideSigners`: the payer alone, if there is one. */
  function OutsideSigners(ix: Interaction): (r: seq<string>)
    ensures |r| <= 1
    ensures forall id :: id in r <==> ix.payer == Some(id)
  {
    if ix.payer.Some? then [ix.payer.value] else []
  }

  /** Every role holder signs exactly once: the inside and outside signers
      are disjoint and together are the authorizations, proposer and payer. */
  lemma SignersPartitionRoles(ix: Interaction)
    ensures forall id :: !(id in InsideSigners(ix) && id in OutsideSigners(ix))
    ensures forall id :: id in InsideSigners(ix) || id in OutsideSigners(ix) <==>
              id in ix.authorizations || ix.proposer == Some(id) || ix.payer == Some(id)
  {
    InsideSignersSpec(ix);
  }

  /** Proposer `a`, payer `b`, authorizations [a, c], all distinct: `a`
      and `c` sign the payload, in that order, and `b` the envelope. */
  lemma ThreePartyScenario(ix: Interaction, a: string, b: string, c: string)
    requires a != b && b != c && a != c
    requires ix.proposer == Some(a) && ix.payer == Some(b) && ix.authorizations == [a, c]
    ensures InsideSigners(ix) == [a, c]
    ensures OutsideSigners(ix) == [b]
  {
    assert Candidates(ix) == [a, c, a];
    UniquedRepeatedFirst(a, c);
  }

  lemma UniquedRepeatedFirst(a: string, c: string)
    requires a != c
    ensures Uniqued([a, c, a]) == [a, c]
  {
    var s2 := [a, c];
    UniquedPair(a, c);
    assert Uniqued([a, c, a]) == s2 by {
      UniquedSnoc(s2, a);
      assert s2 + [a] == [a, c, a];
    }
  }

  /** Two different ids are both kept, in their order. */
  lemma UniquedPair(a: string, c: string)
    requires a != c
    ensures Uniqued([a, c]) == [a, c]
  {
    var s1, s2 := [a], [a, c];
    assert Uniqued(s1) == s1 by {
      UniquedSnoc([], a);
      assert [] + [a] == s1;
    }
    UniquedSnoc(s1, c);
    assert s1 + [c] == s2;
  }

  // ---------------------------------------------------------------------
  // Arguments and addresses looked up by id
  // ---------------------------------------------------------------------

  /** `message.arguments.compactMap { arguments[$0]?.asArgument }`. */
  function ArgumentsOf(ix: Interaction): (r: seq<FlowArgument>)
    ensures |r| <= |ix.message.arguments|
  {
    ArgumentValues(ix.arguments, ix.message.arguments)
  }

  function ArgumentValues(args: map<string, Argument>, ids: seq<string>): (r: seq<FlowArgument>)
    ensures |r| <= |ids|
    ensures forall id :: id in ids && id in args ==> args[id].asArgument in r
  {
    if ids == [] then []
    else
      var n := |ids| - 1;
      assert ids == ids[..n] + [ids[n]];
      ArgumentValues(args, ids[..n]) + (if ids[n] in args then [args[ids[n]].asArgument] else [])
  }

  /** Every argument value comes from a listed id, and when every listed id
      is known the values follow the list one to one. */
  lemma {:induction false} ArgumentValuesSpec(args: map<string, Argument>, ids: seq<string>)
    ensures forall v :: v in ArgumentValues(args, ids) ==> exists id :: id in ids && id in args && args[id].asArgument == v
    ensures (forall id :: id in ids ==> id in args) ==>
              |ArgumentValues(args, ids)| == |ids| &&
              forall i :: 0 <= i < |ids| ==> ArgumentValues(args, ids)[i] == args[ids[i]].asArgument
  {
    if ids != [] {
      var n := |ids| - 1;
      var pre := ids[..n];
      ArgumentValuesSpec(args, pre);
      assert ids == pre + [ids[n]];
      var vs := ArgumentValues(args, pre);
      var last := if ids[n] in args then [args[ids[n]].asArgument] else [];
      assert ArgumentValues(args, ids) == vs + last;
      forall v | v in vs + last
        ensures exists id :: id in ids && id in args && args[id].asArgument == v
      {
        if v in vs {
          var id :| id in pre && id in args && args[id].asArgument == v;
          assert id in ids;
        } else {
          assert ids[n] in ids;
        }
      }
    }
  }

  /** Dropping is filtering: the values are one per id with an argument,
      in the order of `ids`. */
  lemma {:induction false} ArgumentValuesKnownIds(args: map<string, Argument>, ids: seq<string>)
    ensures ArgumentValues(args, ids) == ArgumentValues(args, KeysIn(args, ids))
    ensures |ArgumentValues(args, ids)| == |KeysIn(args, ids)|
    ensures forall i :: 0 <= i < |KeysIn(args, ids)| ==>
              ArgumentValues(args, ids)[i] == args[KeysIn(args, ids)[i]].asArgument
  {
    if ids != [] {
      var n := |ids| - 1;
      ArgumentValuesKnownIds(args, ids[..n]);
      var f := KeysIn(args, ids[..n]);
      if ids[n] in args {
        assert (f + [ids[n]])[..|f|] == f;
      }
    }
    ArgumentValuesSpec(args, KeysIn(args, ids));
  }

  /** `compactMap { accounts[cid]?.addr }`: the known addresses of `ids`, in order. */
  function AddressesOf(accounts: map<string, SignableUser>, ids: seq<string>): (r: seq<string>)
    ensures forall x :: x in r <==> exists id :: id in ids && id in accounts && accounts[id].addr == Some(x)
  {
    if ids == [] then []
    else
      var n := |ids| - 1;
      assert ids == ids[..n] + [ids[n]];
      var known := ids[n] in accounts && accounts[ids[n]].addr.Some?;
      AddressesOf(accounts, ids[..n]) + (if known then [accounts[ids[n]].addr.value] else [])
  }

  lemma {:induction false} AddressesOfLength(accounts: map<string, SignableUser>, ids: seq<string>)
    ensures |AddressesOf(accounts, ids)| <= |ids|
  {
    if ids != [] {
      AddressesOfLength(accounts, ids[..|ids| - 1]);
    }
  }

  // ---------------------------------------------------------------------
  // Best-effort proposal key
  // ---------------------------------------------------------------------

  datatype ProposalKey = ProposalKey(address: Option<string>, keyID: Option<int>, sequenceNum: Option<int>)

  const EmptyProposalKey: ProposalKey := ProposalKey(None, None, None)

  /** `createProposalKey()`: the proposer's address (without "0x"), key
      index and sequence number as far as they are known; the all-empty key
      when there is no proposer or no account for it. */
  function CreateProposalKey(ix: Interaction): (k: ProposalKey)
    ensures ix.proposer.None? || ix.proposer.value !in ix.accounts ==> k == EmptyProposalKey
    ensures ix.proposer.Some? && ix.proposer.value in ix.accounts ==>
              var account := ix.accounts[ix.proposer.value];
              && (k.address.Some? <==> account.addr.Some?)
              && (account.addr.Some? ==> k.address.value == SansPrefix(account.addr.value))
              && k.keyID == account.keyID
              && k.sequenceNum == account.sequenceNum
  {
    if ix.proposer.None? || ix.proposer.value !in ix.accounts then EmptyProposalKey
    else
      var account := ix.accounts[ix.proposer.value];
      ProposalKey(
        if account.addr.Some? then Some(SansPrefix(account.addr.value)) else None,
        account.keyID,
        account.sequenceNum)
  }
}
