/** The contract placeholders that scripts may mention, and the fixed table
    of their addresses on each network. */
module ScriptAddresses {
  import opened Common

  /** The networks a client can target. Only mainnet, testnet and the
      emulator carry contract addresses; the other cases exist so that the
      registry's "every network" loop has the same domain as the SDK's. */
  datatype ChainId = Unknown | Mainnet | Testnet | Canarynet | Emulator | Custom(name: string)

  /** `Flow.ChainID.allCases`, the networks `deregister` visits when no
      network is named. */
  const AllChains: seq<ChainId> := [Mainnet, Testnet, Canarynet, Emulator]

  datatype ScriptAddress =
    | FungibleToken
    | FlowToken
    | FlowFees
    | FlowTablesTaking
    | LockedTokens
    | StakingProxy
    | NonFungibleToken
    | FclCrypto

  const AllContracts: seq<ScriptAddress> :=
    [FungibleToken, FlowToken, FlowFees, FlowTablesTaking, LockedTokens, StakingProxy, NonFungibleToken, FclCrypto]

  /** The placeholder text a script uses for the contract. */
  function RawValue(c: ScriptAddress): (r: string)
    ensures HasHexPrefix(r) && |r| > 2
  {
    match c
    case FungibleToken => "0xFungibleToken"
    case FlowToken => "0xFlowToken"
    case FlowFees => "0xFlowFees"
    case FlowTablesTaking => "0xFlowTablesTaking"
    case LockedTokens => "0xLockedTokens"
    case StakingProxy => "0xStakingProxy"
    case NonFungibleToken => "0xNonFungibleToken"
    case FclCrypto => "0xFCLCrypto"
  }

  /** `address(chain:)`: where the contract lives on the network, if anywhere.
      The table's literals are written "0x..." and parsed by `Flow.Address(hex:)`;
      here they are given as the parsed value, the hex without its prefix. */
  function AddressOn(c: ScriptAddress, chain: ChainId): (r: Option<FlowAddress>)
    ensures r.Some? ==> |r.value.hex| == 16 && !HasHexPrefix(r.value.hex)
  {
    match (c, chain)
    case (FungibleToken, Mainnet) => Some(FlowAddress("f233dcee88fe0abe"))
    case (FlowToken, Mainnet) => Some(FlowAddress("1654653399040a61"))
    case (FlowFees, Mainnet) => Some(FlowAddress("f919ee77447b7497"))
    case (FlowTablesTaking, Mainnet) => Some(FlowAddress("8624b52f9ddcd04a"))
    case (LockedTokens, Mainnet) => Some(FlowAddress("8d0e87b65159ae63"))
    case (StakingProxy, Mainnet) => Some(FlowAddress("62430cf28c26d095"))
    case (NonFungibleToken, Mainnet) => Some(FlowAddress("1d7e57aa55817448"))
    case (FclCrypto, Mainnet) => Some(FlowAddress("b4b82a1c9d21d284"))
    case (FungibleToken, Testnet) => Some(FlowAddress("9a0766d93b6608b7"))
    case (FlowToken, Testnet) => Some(FlowAddress("7e60df042a9c0868"))
    case (FlowFees, Testnet) => Some(FlowAddress("912d5440f7e3769e"))
    case (FlowTablesTaking, Testnet) => Some(FlowAddress("9eca2b38b18b5dfe"))
    case (LockedTokens, Testnet) => Some(FlowAddress("95e019a17d0e23d7"))
    case (StakingProxy, Testnet) => Some(FlowAddress("7aad92e5a0715d21"))
    case (NonFungibleToken, Testnet) => Some(FlowAddress("631e88ae7f1d7c20"))
    case (FclCrypto, Testnet) => Some(FlowAddress("74daa6f9c7ef24b1"))
    case (FungibleToken, Emulator) => Some(FlowAddress("ee82856bf20e2aa6"))
    case (FlowToken, Emulator) => Some(FlowAddress("0ae53cb6e3f42a79"))
    case (FlowFees, Emulator) => Some(FlowAddress("e5a8b7f23e8b548f"))
    case _ => None
  }

  /** The three contracts deployed on the emulator. */
  predicate OnEmulator(c: ScriptAddress) {
    c == FungibleToken || c == FlowToken || c == FlowFees
  }

  /** Every placeholder starts with "0x", and no two contracts share one. */
  lemma RawValuesWellFormed()
    ensures forall c :: HasHexPrefix(RawValue(c))
    ensures forall c, d :: c != d ==> RawValue(c) != RawValue(d)
  {
    forall c, d | c != d ensures RawValue(c) != RawValue(d) {
      RawValuesDiffer(c, d);
    }
  }

  lemma RawValuesDiffer(c: ScriptAddress, d: ScriptAddress)
    requires c != d
    ensures RawValue(c) != RawValue(d)
  {
    var rc, rd := RawValue(c), RawValue(d);
    if |rc| == |rd| {
      // Only FlowFees/FCLCrypto and LockedTokens/StakingProxy share a length.
      assert rc[2] != rd[2] || rc[3] != rd[3];
    }
  }

  /** Mainnet and testnet know every contract; the emulator only the three
      token/fee contracts; every other network none. */
  lemma AddressOnDomain(c: ScriptAddress, chain: ChainId)
    ensures AddressOn(c, chain).Some? <==>
              chain == Mainnet || chain == Testnet || (chain == Emulator && OnEmulator(c))
  {
  }

  /** Within one network, different contracts live at different addresses. */
  lemma AddressOnInjective(c: ScriptAddress, d: ScriptAddress, chain: ChainId)
    requires c != d && AddressOn(c, chain).Some? && AddressOn(d, chain).Some?
    ensures AddressOn(c, chain).value != AddressOn(d, chain).value
  {
    AddressHead(c, chain);
    AddressHead(d, chain);
  }

  /** The first two hex digits of each address, which already tell the
      contracts of one network apart. */
  function Head(c: ScriptAddress, chain: ChainId): string {
    match (c, chain)
    case (FungibleToken, Mainnet) => "f2"
    case (FlowToken, Mainnet) => "16"
    case (FlowFees, Mainnet) => "f9"
    case (FlowTablesTaking, Mainnet) => "86"
    case (LockedTokens, Mainnet) => "8d"
    case (StakingProxy, Mainnet) => "62"
    case (NonFungibleToken, Mainnet) => "1d"
    case (FclCrypto, Mainnet) => "b4"
    case (FungibleToken, Testnet) => "9a"
    case (FlowToken, Testnet) => "7e"
    case (FlowFees, Testnet) => "91"
    case (FlowTablesTaking, Testnet) => "9e"
    case (LockedTokens, Testnet) => "95"
    case (StakingProxy, Testnet) => "7a"
    case (NonFungibleToken, Testnet) => "63"
    case (FclCrypto, Testnet) => "74"
    case (FungibleToken, Emulator) => "ee"
    case (FlowToken, Emulator) => "0a"
    case (FlowFees, Emulator) => "e5"
    case _ => ""
  }

  lemma AddressHead(c: ScriptAddress, chain: ChainId)
    requires AddressOn(c, chain).Some?
    ensures |AddressOn(c, chain).value.hex| >= 2
    ensures AddressOn(c, chain).value.hex[..2] == Head(c, chain)
  {
  }
}
