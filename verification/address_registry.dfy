/** The per-network table from contract placeholders to addresses, and the
    substitution of those placeholders in script text. */
module Registry {
  import opened Common
  import opened ScriptAddresses

  /** network -> placeholder -> address */
  type Table = map<ChainId, map<string, FlowAddress>>

  /** `addressOf(contract:chainId:)` on a table value. */
  function Lookup(t: Table, chain: ChainId, contract: string): (r: Option<FlowAddress>)
    ensures r.Some? <==> chain in t && contract in t[chain]
    ensures r.Some? ==> r.value == t[chain][contract]
  {
    if chain in t && contract in t[chain] then Some(t[chain][contract]) else None
  }

  // ---------------------------------------------------------------------
  // Table updates as functions of the old table
  // ---------------------------------------------------------------------

  /** `register`: the network's table is created on first use. */
  function Registered(t: Table, chain: ChainId, contract: string, address: FlowAddress): (r: Table)
    ensures Lookup(r, chain, contract) == Some(address)
    ensures forall c, k :: c != chain || k != contract ==> Lookup(r, c, k) == Lookup(t, c, k)
    ensures r.Keys == t.Keys + {chain}
  {
    if chain in t then t[chain := t[chain][contract := address]]
    else t[chain := map[contract := address]]
  }

  /** The networks `deregister` visits: the one named, or all of them. */
  function DeregisterChains(chainId: Option<ChainId>): seq<ChainId> {
    match chainId
    case Some(c) => [c]
    case None => AllChains
  }

  /** `deregister` over the networks in `chains`: the contract disappears from
      those networks' tables; no table is created or dropped. */
  function Deregistered(t: Table, contract: string, chains: seq<ChainId>): (r: Table)
    ensures r.Keys == t.Keys
    ensures forall c, k :: Lookup(r, c, k) == if k == contract && c in chains then None else Lookup(t, c, k)
  {
    map c | c in t :: if c in chains then t[c] - {contract} else t[c]
  }

  /** One more network visited by `deregister`. */
  lemma DeregisteredStep(t: Table, contract: string, done: seq<ChainId>, c: ChainId)
    ensures Deregistered(t, contract, done + [c]) ==
              var d := Deregistered(t, contract, done);
              if c in d then d[c := d[c] - {contract}] else d
  {
    var d := Deregistered(t, contract, done);
    var lhs := Deregistered(t, contract, done + [c]);
    var rhs := if c in d then d[c := d[c] - {contract}] else d;
    assert lhs.Keys == rhs.Keys;
    forall x | x in lhs ensures lhs[x] == rhs[x] {
      if x == c {
        assert lhs[x] == t[x] - {contract};
      } else {
        assert x in done + [c] <==> x in done;
      }
    }
  }

  /** Registers each contract of `cs` that has an address on `chain`, in order. */
  function RegisterContracts(t: Table, chain: ChainId, cs: seq<ScriptAddress>): Table {
    if cs == [] then t
    else
      var n := |cs| - 1;
      var t' := RegisterContracts(t, chain, cs[..n]);
      match AddressOn(cs[n], chain)
      case None => t'
      case Some(a) => Registered(t', chain, RawValue(cs[n]), a)
  }

  /** The contracts `registerDefaults` registers, per network. */
  const EmulatorContracts: seq<ScriptAddress> := [FungibleToken, FlowToken, FlowFees]
  const DefaultPlan: seq<(ChainId, seq<ScriptAddress>)> :=
    [(Emulator, EmulatorContracts), (Testnet, AllContracts), (Mainnet, AllContracts)]

  function RegisterPlan(t: Table, plan: seq<(ChainId, seq<ScriptAddress>)>): Table {
    if plan == [] then t
    else
      var n := |plan| - 1;
      RegisterContracts(RegisterPlan(t, plan[..n]), plan[n].0, plan[n].1)
  }

  /** The placeholders of the contracts in `cs`. */
  function Placeholders(cs: seq<ScriptAddress>): set<string> {
    set c | c in cs :: RawValue(c)
  }

  /** Registering the contracts of `cs` on `chain`: each contract with an
      address there is found at it afterwards. */
  lemma {:induction false} RegisteredAt(t: Table, chain: ChainId, cs: seq<ScriptAddress>, c: ScriptAddress)
    requires c in cs && AddressOn(c, chain).Some?
    ensures Lookup(RegisterContracts(t, chain, cs), chain, RawValue(c)) == AddressOn(c, chain)
  {
    var n := |cs| - 1;
    var last := cs[n];
    assert cs == cs[..n] + [last];
    if c != last {
      assert c in cs[..n];
      RegisteredAt(t, chain, cs[..n], c);
      RawValuesDiffer(c, last);
    }
  }

  /** ... every placeholder outside `cs` keeps its lookup ... */
  lemma {:induction false} UntouchedKey(t: Table, chain: ChainId, cs: seq<ScriptAddress>, k: string)
    requires k !in Placeholders(cs)
    ensures Lookup(RegisterContracts(t, chain, cs), chain, k) == Lookup(t, chain, k)
  {
    if cs != [] {
      var n := |cs| - 1;
      assert cs[n] in cs;
      assert k !in Placeholders(cs[..n]) by {
        forall c | c in cs[..n] ensures RawValue(c) != k {
          assert c in cs;
        }
      }
      UntouchedKey(t, chain, cs[..n], k);
    }
  }

  /** ... and every other network is left as it was. */
  lemma {:induction false} UntouchedChain(t: Table, chain: ChainId, cs: seq<ScriptAddress>, c: ChainId, k: string)
    requires c != chain
    ensures Lookup(RegisterContracts(t, chain, cs), c, k) == Lookup(t, c, k)
  {
    if cs != [] {
      UntouchedChain(t, chain, cs[..|cs| - 1], c, k);
    }
  }

  /** Two tables that agree on `chain` still agree there after the same
      contracts are registered on it. */
  lemma {:induction false} SameChainView(t: Table, u: Table, chain: ChainId, cs: seq<ScriptAddress>)
    requires forall k :: Lookup(t, chain, k) == Lookup(u, chain, k)
    ensures forall k :: Lookup(RegisterContracts(t, chain, cs), chain, k) == Lookup(RegisterContracts(u, chain, cs), chain, k)
  {
    if cs != [] {
      SameChainView(t, u, chain, cs[..|cs| - 1]);
    }
  }

  /** `registerDefaults` walks a dictionary of networks, in an order Swift
      leaves open. Registering on two different networks commutes, so every
      order yields the same lookups. */
  lemma RegisterOrderIrrelevant(t: Table, c1: ChainId, cs1: seq<ScriptAddress>, c2: ChainId, cs2: seq<ScriptAddress>)
    requires c1 != c2
    ensures forall c, k :: Lookup(RegisterContracts(RegisterContracts(t, c1, cs1), c2, cs2), c, k) ==
                           Lookup(RegisterContracts(RegisterContracts(t, c2, cs2), c1, cs1), c, k)
  {
    var a1 := RegisterContracts(t, c1, cs1);
    var b1 := RegisterContracts(t, c2, cs2);
    forall k ensures Lookup(b1, c1, k) == Lookup(t, c1, k) {
      UntouchedChain(t, c2, cs2, c1, k);
    }
    SameChainView(b1, t, c1, cs1);
    forall k ensures Lookup(a1, c2, k) == Lookup(t, c2, k) {
      UntouchedChain(t, c1, cs1, c2, k);
    }
    SameChainView(a1, t, c2, cs2);
    forall c, k ensures Lookup(RegisterContracts(a1, c2, cs2), c, k) == Lookup(RegisterContracts(b1, c1, cs1), c, k) {
      if c == c1 {
        UntouchedChain(a1, c2, cs2, c1, k);
      } else if c == c2 {
        UntouchedChain(b1, c1, cs1, c2, k);
      } else {
        UntouchedChain(a1, c2, cs2, c, k);
        UntouchedChain(t, c1, cs1, c, k);
        UntouchedChain(b1, c1, cs1, c, k);
        UntouchedChain(t, c2, cs2, c, k);
      }
    }
  }

  /** Registering a contract again on the same network replaces its address:
      the earlier registration leaves no trace. */
  lemma RegisterOverwrites(t: Table, chain: ChainId, contract: string, a1: FlowAddress, a2: FlowAddress)
    ensures Registered(Registered(t, chain, contract, a1), chain, contract, a2) == Registered(t, chain, contract, a2)
  {
    if chain in t {
      assert t[chain][contract := a1][contract := a2] == t[chain][contract := a2];
    } else {
      assert map[contract := a1][contract := a2] == map[contract := a2];
    }
  }

  /** `registerDefaults` applied to table `t`, one network at a time. */
  function WithDefaults(t: Table): Table {
    RegisterContracts(RegisterContracts(RegisterContracts(t, Emulator, EmulatorContracts),
                                        Testnet, AllContracts), Mainnet, AllContracts)
  }

  lemma DefaultPlanSteps(t: Table)
    ensures RegisterPlan(t, DefaultPlan) == WithDefaults(t)
  {
    var plan := DefaultPlan;
    assert plan[..0] == [];
    assert plan[..1][..0] == [];
    assert plan[..2][..1] == plan[..1];
    assert plan[..3][..2] == plan[..2];
    assert plan[..3] == plan;
    assert RegisterPlan(t, plan[..1]) == RegisterContracts(t, Emulator, EmulatorContracts);
    assert RegisterPlan(t, plan[..2]) == RegisterContracts(RegisterPlan(t, plan[..1]), Testnet, AllContracts);
  }

  /** Starting from an empty table, the default table is exactly the
      `address(chain:)` switch: every placeholder maps to the contract's
      address on that network, where it has one, and nothing else is present. */
  lemma DefaultTableContents(t: Table)
    requires t == map[]
    ensures forall chain, c :: Lookup(WithDefaults(t), chain, RawValue(c)) == AddressOn(c, chain)
    ensures forall chain, k :: k !in Placeholders(AllContracts) ==> Lookup(WithDefaults(t), chain, k) == None
  {
    forall chain, c ensures Lookup(WithDefaults(t), chain, RawValue(c)) == AddressOn(c, chain) {
      DefaultEntry(t, chain, c);
    }
    forall chain, k | k !in Placeholders(AllContracts) ensures Lookup(WithDefaults(t), chain, k) == None {
      DefaultNonPlaceholder(t, chain, k);
    }
  }

  lemma DefaultEntry(t: Table, chain: ChainId, c: ScriptAddress)
    requires t == map[]
    ensures Lookup(WithDefaults(t), chain, RawValue(c)) == AddressOn(c, chain)
  {
    AddressOnDomain(c, chain);
    if chain == Mainnet {
      DefaultEntryMainnet(t, c);
    } else if chain == Testnet {
      DefaultEntryTestnet(t, c);
    } else if chain == Emulator {
      DefaultEntryEmulator(t, c);
    } else {
      DefaultEntryElsewhere(t, chain, RawValue(c));
    }
  }

  lemma DefaultEntryMainnet(t: Table, c: ScriptAddress)
    requires t == map[]
    ensures Lookup(WithDefaults(t), Mainnet, RawValue(c)) == AddressOn(c, Mainnet)
  {
    var t1 := RegisterContracts(t, Emulator, EmulatorContracts);
    var t2 := RegisterContracts(t1, Testnet, AllContracts);
    assert c in AllContracts;
    RegisteredAt(t2, Mainnet, AllContracts, c);
  }

  lemma DefaultEntryTestnet(t: Table, c: ScriptAddress)
    requires t == map[]
    ensures Lookup(WithDefaults(t), Testnet, RawValue(c)) == AddressOn(c, Testnet)
  {
    var t1 := RegisterContracts(t, Emulator, EmulatorContracts);
    var t2 := RegisterContracts(t1, Testnet, AllContracts);
    assert c in AllContracts;
    UntouchedChain(t2, Mainnet, AllContracts, Testnet, RawValue(c));
    RegisteredAt(t1, Testnet, AllContracts, c);
  }

  lemma DefaultEntryEmulator(t: Table, c: ScriptAddress)
    requires t == map[]
    ensures Lookup(WithDefaults(t), Emulator, RawValue(c)) == AddressOn(c, Emulator)
  {
    var t1 := RegisterContracts(t, Emulator, EmulatorContracts);
    var t2 := RegisterContracts(t1, Testnet, AllContracts);
    UntouchedChain(t2, Mainnet, AllContracts, Emulator, RawValue(c));
    UntouchedChain(t1, Testnet, AllContracts, Emulator, RawValue(c));
    if OnEmulator(c) {
      assert c in EmulatorContracts;
      RegisteredAt(t, Emulator, EmulatorContracts, c);
    } else {
      NotOnEmulator(t, c);
    }
  }

  lemma NotOnEmulator(t: Table, c: ScriptAddress)
    requires t == map[] && !OnEmulator(c)
    ensures Lookup(RegisterContracts(t, Emulator, EmulatorContracts), Emulator, RawValue(c)) == None
  {
    RawValuesDiffer(c, FungibleToken);
    RawValuesDiffer(c, FlowToken);
    RawValuesDiffer(c, FlowFees);
    assert RawValue(c) !in Placeholders(EmulatorContracts);
    UntouchedKey(t, Emulator, EmulatorContracts, RawValue(c));
  }

  lemma DefaultEntryElsewhere(t: Table, chain: ChainId, k: string)
    requires t == map[] && chain != Mainnet && chain != Testnet && chain != Emulator
    ensures Lookup(WithDefaults(t), chain, k) == None
  {
    var t1 := RegisterContracts(t, Emulator, EmulatorContracts);
    var t2 := RegisterContracts(t1, Testnet, AllContracts);
    UntouchedChain(t2, Mainnet, AllContracts, chain, k);
    UntouchedChain(t1, Testnet, AllContracts, chain, k);
    UntouchedChain(t, Emulator, EmulatorContracts, chain, k);
  }

  lemma DefaultNonPlaceholder(t: Table, chain: ChainId, k: string)
    requires t == map[] && k !in Placeholders(AllContracts)
    ensures Lookup(WithDefaults(t), chain, k) == None
  {
    var t1 := RegisterContracts(t, Emulator, EmulatorContracts);
    var t2 := RegisterContracts(t1, Testnet, AllContracts);
    assert Placeholders(EmulatorContracts) <= Placeholders(AllContracts);
    if chain == Mainnet {
      UntouchedKey(t2, Mainnet, AllContracts, k);
    } else {
      UntouchedChain(t2, Mainnet, AllContracts, chain, k);
    }
    if chain == Testnet {
      UntouchedKey(t1, Testnet, AllContracts, k);
    } else {
      UntouchedChain(t1, Testnet, AllContracts, chain, k);
    }
    if chain == Emulator {
      UntouchedKey(t, Emulator, EmulatorContracts, k);
    } else {
      UntouchedChain(t, Emulator, EmulatorContracts, chain, k);
    }
  }

  /** Starting from an empty table, there is a table for exactly mainnet,
      testnet and the emulator, and the emulator's holds exactly the three
      token/fee contracts. */
  lemma DefaultTableShape(t: Table)
    requires t == map[]
    ensures WithDefaults(t).Keys == {Emulator, Testnet, Mainnet}
    ensures WithDefaults(t)[Emulator].Keys == {RawValue(FungibleToken), RawValue(FlowToken), RawValue(FlowFees)}
  {
    DefaultTableKeys(t);
    var emulator := WithDefaults(t)[Emulator];
    var expected := {RawValue(FungibleToken), RawValue(FlowToken), RawValue(FlowFees)};
    forall k | k in emulator ensures k in expected {
      EmulatorKeyIsExpected(t, k);
    }
    DefaultEntry(t, Emulator, FungibleToken);
    DefaultEntry(t, Emulator, FlowToken);
    DefaultEntry(t, Emulator, FlowFees);
  }

  lemma EmulatorKeyIsExpected(t: Table, k: string)
    requires t == map[] && Lookup(WithDefaults(t), Emulator, k).Some?
    ensures k in {RawValue(FungibleToken), RawValue(FlowToken), RawValue(FlowFees)}
  {
    if k !in Placeholders(AllContracts) {
      DefaultNonPlaceholder(t, Emulator, k);
    } else {
      var c :| c in AllContracts && RawValue(c) == k;
      DefaultEntryEmulator(t, c);
      AddressOnDomain(c, Emulator);
    }
  }

  lemma DefaultTableKeys(t: Table)
    requires t == map[]
    ensures WithDefaults(t).Keys == {Emulator, Testnet, Mainnet}
  {
    var t1 := RegisterContracts(t, Emulator, EmulatorContracts);
    var t2 := RegisterContracts(t1, Testnet, AllContracts);
    RegisterContractsKeys(t, Emulator, EmulatorContracts);
    RegisterContractsKeys(t1, Testnet, AllContracts);
    RegisterContractsKeys(t2, Mainnet, AllContracts);
    DefaultEntryEmulator(t, FungibleToken);
    DefaultEntryTestnet(t, FungibleToken);
    DefaultEntryMainnet(t, FungibleToken);
  }

  /** Registering on `chain` creates at most that network's table. */
  lemma {:induction false} RegisterContractsKeys(t: Table, chain: ChainId, cs: seq<ScriptAddress>)
    ensures t.Keys <= RegisterContracts(t, chain, cs).Keys <= t.Keys + {chain}
  {
    if cs != [] {
      RegisterContractsKeys(t, chain, cs[..|cs| - 1]);
    }
  }

  // ---------------------------------------------------------------------
  // Placeholder substitution
  // ---------------------------------------------------------------------

  predicate OccursAt(s: string, pat: string, i: nat) {
    i + |pat| <= |s| && s[i..i + |pat|] == pat
  }

  ghost predicate Occurs(s: string, pat: string) {
    exists i: nat :: OccursAt(s, pat, i)
  }

  /** `replacingOccurrences(of:with:)`: a left-to-right scan replacing each
      non-overlapping occurrence; an empty pattern changes nothing. */
  function ReplaceAll(s: string, pat: string, rep: string): (r: string)
    ensures |pat| == 0 ==> r == s
    ensures |rep| == |pat| ==> |r| == |s|
    ensures |rep| < |pat| ==> |r| <= |s|
    decreases |s|
  {
    if |pat| == 0 || |s| < |pat| then s
    else if s[..|pat|] == pat then rep + ReplaceAll(s[|pat|..], pat, rep)
    else [s[0]] + ReplaceAll(s[1..], pat, rep)
  }

  /** Text without the placeholder comes back unchanged. */
  lemma {:induction false} ReplaceAllAbsent(s: string, pat: string, rep: string)
    requires !Occurs(s, pat)
    ensures ReplaceAll(s, pat, rep) == s
  {
    if |pat| > 0 && |s| >= |pat| {
      assert !OccursAt(s, pat, 0);
      assert !Occurs(s[1..], pat) by {
        forall i: nat | OccursAt(s[1..], pat, i) ensures OccursAt(s, pat, i + 1) {
          assert s[1..][i..i + |pat|] == s[i + 1..i + 1 + |pat|];
        }
      }
      ReplaceAllAbsent(s[1..], pat, rep);
      assert s == [s[0]] + s[1..];
    }
  }

  /** Replacing a placeholder by itself is the identity. */
  lemma {:induction false} ReplaceAllSelf(s: string, pat: string)
    ensures ReplaceAll(s, pat, pat) == s
  {
    if |pat| > 0 && |s| >= |pat| {
      if s[..|pat|] == pat {
        ReplaceAllSelf(s[|pat|..], pat);
        assert s == s[..|pat|] + s[|pat|..];
      } else {
        ReplaceAllSelf(s[1..], pat);
        assert s == [s[0]] + s[1..];
      }
    }
  }

  /** An occurrence in the text after a first character starts one
      position later in the whole text. */
  lemma OccursShift(s: string, pat: string, i: nat)
    requires |s| > 0 && OccursAt(s[1..], pat, i)
    ensures OccursAt(s, pat, i + 1)
  {
    assert s[1..][i..i + |pat|] == s[i + 1..i + 1 + |pat|];
  }

  /** A placeholder preceded by text in which no occurrence of it starts is
      replaced where it stands, and the scan goes on after it. */
  lemma {:induction false} ReplaceAllSplit(a: string, pat: string, b: string, rep: string)
    requires |pat| > 0 && !Occurs(a + pat[..|pat| - 1], pat)
    ensures ReplaceAll(a + pat + b, pat, rep) == a + rep + ReplaceAll(b, pat, rep)
  {
    if a == [] {
      ReplaceAllAt(pat + b, pat, b, rep);
    } else {
      NoOccurrenceInTail(a, pat);
      ReplaceAllSplit(a[1..], pat, b, rep);
      ReplaceAllPast(a, pat, b, rep);
      Regroup(a, rep, ReplaceAll(b, pat, rep));
    }
  }

  lemma NoOccurrenceInTail(a: string, pat: string)
    requires |pat| > 0 && |a| > 0 && !Occurs(a + pat[..|pat| - 1], pat)
    ensures !Occurs(a[1..] + pat[..|pat| - 1], pat)
  {
    var front := a + pat[..|pat| - 1];
    var front' := a[1..] + pat[..|pat| - 1];
    assert front' == front[1..];
    forall i: nat ensures !OccursAt(front', pat, i) {
      if OccursAt(front', pat, i) {
        OccursShift(front, pat, i);
      }
    }
  }

  lemma Regroup(a: string, rep: string, rest: string)
    requires |a| > 0
    ensures [a[0]] + (a[1..] + rep + rest) == a + rep + rest
  {
    assert a == [a[0]] + a[1..];
  }

  /** The scan at a match. */
  lemma ReplaceAllAt(s: string, pat: string, b: string, rep: string)
    requires |pat| > 0 && s == pat + b
    ensures ReplaceAll(s, pat, rep) == rep + ReplaceAll(b, pat, rep)
  {
    assert s[..|pat|] == pat && s[|pat|..] == b;
  }

  /** The scan past a first character where no match starts. */
  lemma ReplaceAllPast(a: string, pat: string, b: string, rep: string)
    requires |pat| > 0 && |a| > 0 && !Occurs(a + pat[..|pat| - 1], pat)
    ensures ReplaceAll(a + pat + b, pat, rep) == [a[0]] + ReplaceAll(a[1..] + pat + b, pat, rep)
  {
    var s := a + pat + b;
    var front := a + pat[..|pat| - 1];
    assert !OccursAt(front, pat, 0);
    assert s[..|pat|] == front[..|pat|];
    assert s[1..] == a[1..] + pat + b;
  }

  /** Text with no first character of the placeholder cannot start an
      occurrence of it, so one occurring after it lies in what follows. */
  lemma NoStartIn(a: string, x: string, pat: string)
    requires |pat| > 0 && pat[0] !in a && !Occurs(x, pat)
    ensures !Occurs(a + x, pat)
  {
    forall i: nat ensures !OccursAt(a + x, pat, i) {
      if i + |pat| > |a + x| {
      } else if i < |a| {
        assert (a + x)[i..i + |pat|][0] == a[i];
      } else {
        assert (a + x)[i..i + |pat|] == x[i - |a|..i - |a| + |pat|];
        assert !OccursAt(x, pat, i - |a|);
      }
    }
  }

  /** A single occurrence, with no occurrence ending inside it or before
      it and none after it, becomes the replacement and nothing else
      changes. */
  lemma ReplaceAllOnce(a: string, pat: string, b: string, rep: string)
    requires |pat| > 0 && !Occurs(a + pat[..|pat| - 1], pat) && !Occurs(b, pat)
    ensures ReplaceAll(a + pat + b, pat, rep) == a + rep + b
  {
    ReplaceAllSplit(a, pat, b, rep);
    ReplaceAllAbsent(b, pat, rep);
  }

  /** Text without the placeholder's first character cannot start an
      occurrence of it that ends before the placeholder's own end. */
  lemma NoFirstCharNoOverlap(a: string, pat: string)
    requires |pat| > 0 && pat[0] !in a
    ensures !Occurs(a + pat[..|pat| - 1], pat)
  {
    var tail := pat[..|pat| - 1];
    assert !Occurs(tail, pat) by {
      forall i: nat ensures !OccursAt(tail, pat, i) {}
    }
    NoStartIn(a, tail, pat);
  }

  /** A character of the placeholder that the text lacks rules it out. */
  lemma Lacks(s: string, pat: string, ch: char)
    requires ch in pat && ch !in s
    ensures !Occurs(s, pat)
  {
    var j :| 0 <= j < |pat| && pat[j] == ch;
    forall i: nat ensures !OccursAt(s, pat, i) {
      if i + |pat| <= |s| {
        assert s[i..i + |pat|][j] == s[i + j];
      }
    }
  }

  /** Each key of `order`, taken in that order, replaced by its address
      with the "0x" prefix; keys without an entry are skipped. */
  function ProcessWith(script: string, table: map<string, FlowAddress>, order: seq<string>): (r: string)
    ensures (forall k :: k in order ==> k !in table) ==> r == script
  {
    if order == [] then script
    else
      var n := |order| - 1;
      assert forall k :: k in order[..n] ==> k in order;
      var done := ProcessWith(script, table, order[..n]);
      if order[n] in table then ReplaceAll(done, order[n], WithPrefix(table[order[n]].hex)) else done
  }

  /** `order` lists each key of a table once: how a dictionary's keys come out. */
  ghost predicate IsKeyOrder(order: seq<string>, keys: set<string>) {
    NoDuplicates(order) && (forall k :: k in order <==> k in keys)
  }

  /** `processScript(script:chainId:)` on a table value, for a given key order. */
  function ProcessedScript(t: Table, chain: ChainId, script: string, order: seq<string>): (r: string)
    ensures chain !in t ==> r == script
    ensures chain in t && (forall k :: k in order ==> k !in t[chain]) ==> r == script
  {
    if chain in t then ProcessWith(script, t[chain], order) else script
  }

  /** A script that mentions no placeholder of the table is returned unchanged,
      whatever order the keys come out in. */
  lemma {:induction false} ProcessWithNoPlaceholders(script: string, table: map<string, FlowAddress>, order: seq<string>)
    requires forall k :: k in order ==> !Occurs(script, k)
    ensures ProcessWith(script, table, order) == script
  {
    if order != [] {
      var n := |order| - 1;
      assert forall k :: k in order[..n] ==> k in order;
      ProcessWithNoPlaceholders(script, table, order[..n]);
      if order[n] in table {
        ReplaceAllAbsent(script, order[n], WithPrefix(table[order[n]].hex));
      }
    }
  }

  /** With no table for the network, or an empty one, nothing is substituted. */
  lemma ProcessedScriptWithoutTable(t: Table, chain: ChainId, script: string, order: seq<string>)
    requires chain !in t || (chain in t && t[chain] == map[] && IsKeyOrder(order, t[chain].Keys))
    ensures ProcessedScript(t, chain, script, order) == script
  {
    if chain in t {
      assert forall i :: 0 <= i < |order| ==> order[i] in t[chain].Keys;
    }
  }

  /** When the only placeholder of `order` the script mentions is `k`, and
      its address brings in no other, processing replaces exactly `k`, once
      the enumeration has reached it. */
  lemma {:induction false} ProcessWithSingle(script: string, table: map<string, FlowAddress>, order: seq<string>, k: string)
    requires NoDuplicates(order) && k in table
    requires forall k' :: k' in order && k' != k ==>
      !Occurs(script, k') && !Occurs(ReplaceAll(script, k, WithPrefix(table[k].hex)), k')
    ensures ProcessWith(script, table, order) ==
      if k in order then ReplaceAll(script, k, WithPrefix(table[k].hex)) else script
  {
    if order != [] {
      var n := |order| - 1;
      assert order == order[..n] + [order[n]];
      assert forall k' :: k' in order[..n] ==> k' in order;
      ProcessWithSingle(script, table, order[..n], k);
      if order[n] != k && order[n] in table {
        var done := ProcessWith(script, table, order[..n]);
        ReplaceAllAbsent(done, order[n], WithPrefix(table[order[n]].hex));
      }
    }
  }

  /** `processScript`: a script naming one registered placeholder once has
      it replaced by that contract's address with the "0x" prefix, whatever
      order the keys come out in, provided no other placeholder of the
      network occurs before or after the substitution. */
  lemma ProcessedScriptOnePlaceholder(t: Table, chain: ChainId, a: string, k: string, b: string, order: seq<string>)
    requires chain in t && k in t[chain] && IsKeyOrder(order, t[chain].Keys)
    requires |k| > 0 && !Occurs(a + k[..|k| - 1], k) && !Occurs(b, k)
    requires forall k' :: k' in t[chain] && k' != k ==>
      !Occurs(a + k + b, k') && !Occurs(a + WithPrefix(t[chain][k].hex) + b, k')
    ensures ProcessedScript(t, chain, a + k + b, order) == a + WithPrefix(t[chain][k].hex) + b
  {
    var rep := WithPrefix(t[chain][k].hex);
    ReplaceAllOnce(a, k, b, rep);
    ProcessWithSingle(a + k + b, t[chain], order, k);
  }

  // ---------------------------------------------------------------------
  // Scripts naming several placeholders
  // ---------------------------------------------------------------------

  /** `v` and `k` agree as far as both go: an occurrence of `k` could start
      with `v`, whatever follows it. */
  predicate Compatible(v: string, k: string) {
    var m := if |v| < |k| then |v| else |k|;
    v[..m] == k[..m]
  }

  /** No occurrence of `k` starts anywhere in `u`, not even one running past
      its end into whatever text follows. */
  predicate NoPartialMatch(u: string, k: string) {
    forall i :: 0 <= i < |u| ==> !Compatible(u[i..], k)
  }

  /** A script laid out as text pieces with a placeholder slot between each
      two: `pieces[0] + slots[0] + pieces[1] + ... + pieces[|slots|]`. */
  function Fill(pieces: seq<string>, slots: seq<string>): (r: string)
    requires |pieces| == |slots| + 1
    decreases |slots|
  {
    if slots == [] then pieces[0]
    else pieces[0] + slots[0] + Fill(pieces[1..], slots[1..])
  }

  /** Every slot holding `k` now holds `rep`. */
  function Swap(slots: seq<string>, k: string, rep: string): (r: seq<string>)
    ensures |r| == |slots|
    ensures forall i :: 0 <= i < |slots| ==> r[i] == if slots[i] == k then rep else slots[i]
  {
    if slots == [] then []
    else [if slots[0] == k then rep else slots[0]] + Swap(slots[1..], k, rep)
  }

  /** The slots once the keys of `done` have been substituted: a slot whose
      key is in the table and in `done` holds that key's address with "0x". */
  function SubstSlots(slots: seq<string>, table: map<string, FlowAddress>, done: seq<string>): (r: seq<string>)
    ensures |r| == |slots|
  {
    seq(|slots|, i requires 0 <= i < |slots| =>
      if slots[i] in table && slots[i] in done then WithPrefix(table[slots[i]].hex) else slots[i])
  }

  /** Every slot written as its key's address with "0x". */
  function WrittenSlots(slots: seq<string>, table: map<string, FlowAddress>): (r: seq<string>)
    requires forall s :: s in slots ==> s in table
    ensures |r| == |slots|
  {
    seq(|slots|, i requires 0 <= i < |slots| => WithPrefix(table[slots[i]].hex))
  }

  /** Text in which no occurrence of the pattern can start is passed over
      unchanged, whatever follows it. */
  lemma {:induction false} ReplaceAllPassOver(u: string, x: string, pat: string, rep: string)
    requires |pat| > 0 && NoPartialMatch(u, pat)
    ensures ReplaceAll(u + x, pat, rep) == u + ReplaceAll(x, pat, rep)
    decreases |u|
  {
    if u != [] {
      assert u[0..] == u;
      NoPartialMatchTail(u, pat);
      ReplaceAllPassOver(u[1..], x, pat, rep);
      ReplaceAllFirst(u, x, pat, rep);
      var r := ReplaceAll(x, pat, rep);
      assert ReplaceAll(u + x, pat, rep) == [u[0]] + ReplaceAll(u[1..] + x, pat, rep);
      assert ReplaceAll(u[1..] + x, pat, rep) == u[1..] + r;
      assert [u[0]] + (u[1..] + r) == u + r;
    } else {
      assert u + x == x && u + ReplaceAll(x, pat, rep) == ReplaceAll(x, pat, rep);
    }
  }

  lemma NoPartialMatchTail(u: string, pat: string)
    requires |u| > 0 && NoPartialMatch(u, pat)
    ensures NoPartialMatch(u[1..], pat)
  {
    forall i | 0 <= i < |u[1..]| ensures !Compatible(u[1..][i..], pat) {
      assert u[1..][i..] == u[i + 1..];
    }
  }

  /** The scan steps over the first character of text that cannot start
      an occurrence. */
  lemma ReplaceAllFirst(u: string, x: string, pat: string, rep: string)
    requires |pat| > 0 && |u| > 0 && !Compatible(u, pat)
    ensures ReplaceAll(u + x, pat, rep) == [u[0]] + ReplaceAll(u[1..] + x, pat, rep)
  {
    var s := u + x;
    assert s[1..] == u[1..] + x;
    if |s| < |pat| {
      assert ReplaceAll(u[1..] + x, pat, rep) == u[1..] + x;
      assert s == [u[0]] + (u[1..] + x);
    } else {
      var m := if |u| < |pat| then |u| else |pat|;
      assert s[..|pat|][..m] == u[..m];
    }
  }

  /** One pass of `replacingOccurrences` over a laid-out script replaces
      exactly the slots holding the pattern, when neither the pieces nor
      the other slots can start an occurrence of it. */
  lemma {:induction false} ReplaceAllFill(pieces: seq<string>, slots: seq<string>, k: string, rep: string)
    requires |pieces| == |slots| + 1 && |k| > 0
    requires forall j :: 0 <= j < |pieces| ==> NoPartialMatch(pieces[j], k)
    requires forall s :: s in slots && s != k ==> NoPartialMatch(s, k)
    ensures ReplaceAll(Fill(pieces, slots), k, rep) == Fill(pieces, Swap(slots, k, rep))
    decreases |slots|
  {
    if slots == [] {
      ReplaceAllPassOver(pieces[0], [], k, rep);
      assert pieces[0] + [] == pieces[0];
    } else {
      var sw := Swap(slots, k, rep);
      assert forall s :: s in slots[1..] ==> s in slots;
      assert slots[0] in slots;
      ReplaceAllFill(pieces[1..], slots[1..], k, rep);
      assert sw[1..] == Swap(slots[1..], k, rep);
      SlotHead(pieces[0], slots[0], Fill(pieces[1..], slots[1..]), k, rep);
    }
  }

  /** The first piece is passed over and the first slot replaced when it
      holds the pattern, kept otherwise. */
  lemma SlotHead(p: string, s: string, rest: string, k: string, rep: string)
    requires |k| > 0 && NoPartialMatch(p, k) && (s == k || NoPartialMatch(s, k))
    ensures ReplaceAll(p + s + rest, k, rep) == p + (if s == k then rep else s) + ReplaceAll(rest, k, rep)
  {
    var slot := if s == k then rep else s;
    var r := ReplaceAll(rest, k, rep);
    ReplaceAllPassOver(p, s + rest, k, rep);
    SlotReplaced(s, rest, k, rep);
    assert p + s + rest == p + (s + rest);
    assert p + (slot + r) == p + slot + r;
  }

  /** A slot holding the pattern becomes the replacement; any other slot,
      in which no occurrence can start, is kept. */
  lemma SlotReplaced(s: string, rest: string, k: string, rep: string)
    requires |k| > 0 && (s == k || NoPartialMatch(s, k))
    ensures ReplaceAll(s + rest, k, rep) == (if s == k then rep else s) + ReplaceAll(rest, k, rep)
  {
    if s == k {
      ReplaceAllAt(k + rest, k, rest, rep);
    } else {
      ReplaceAllPassOver(s, rest, k, rep);
    }
  }

  /** A text that can start no occurrence of `k` is not `k` itself. */
  lemma NoPartialMatchNotKey(u: string, k: string)
    requires |u| > 0 && NoPartialMatch(u, k)
    ensures u != k
  {
    assert !Compatible(u[0..], k);
  }

  /** The conditions under which substituting `k` into a laid-out script
      touches only its own slots: no piece, no other slot and no other
      slot's address can start an occurrence of `k`. */
  ghost predicate Separated(pieces: seq<string>, slots: seq<string>, table: map<string, FlowAddress>, k: string) {
    && |k| > 0
    && (forall j :: 0 <= j < |pieces| ==> NoPartialMatch(pieces[j], k))
    && (forall s :: s in slots && s != k ==>
          NoPartialMatch(s, k) && (s in table ==> NoPartialMatch(WithPrefix(table[s].hex), k)))
  }

  /** Substituting one more key of the order. */
  lemma SubstStep(slots: seq<string>, table: map<string, FlowAddress>, done: seq<string>, k: string)
    requires k in table && k !in done
    requires forall s :: s in slots && s != k && s in table ==> NoPartialMatch(WithPrefix(table[s].hex), k)
    ensures forall i :: 0 <= i < |slots| ==>
              SubstSlots(slots, table, done)[i] == slots[i] ||
              (SubstSlots(slots, table, done)[i] != k && NoPartialMatch(SubstSlots(slots, table, done)[i], k))
    ensures Swap(SubstSlots(slots, table, done), k, WithPrefix(table[k].hex)) == SubstSlots(slots, table, done + [k])
  {
    var before := SubstSlots(slots, table, done);
    var after := SubstSlots(slots, table, done + [k]);
    var sw := Swap(before, k, WithPrefix(table[k].hex));
    forall i | 0 <= i < |slots|
      ensures before[i] == slots[i] || (before[i] != k && NoPartialMatch(before[i], k))
      ensures sw[i] == after[i]
    {
      SubstSlot(slots, table, done, k, i);
    }
    assert sw == after;
  }

  /** One slot across one more substituted key: a slot already written
      cannot start the key, so only a slot holding the key itself changes. */
  lemma SubstSlot(slots: seq<string>, table: map<string, FlowAddress>, done: seq<string>, k: string, i: int)
    requires k in table && k !in done && 0 <= i < |slots|
    requires forall s :: s in slots && s != k && s in table ==> NoPartialMatch(WithPrefix(table[s].hex), k)
    ensures var before := SubstSlots(slots, table, done);
            before[i] == slots[i] || (before[i] != k && NoPartialMatch(before[i], k))
    ensures var before := SubstSlots(slots, table, done);
            (if before[i] == k then WithPrefix(table[k].hex) else before[i]) == SubstSlots(slots, table, done + [k])[i]
  {
    var s := slots[i];
    assert s in slots;
    if s in table && s in done {
      assert s != k;
      NoPartialMatchNotKey(WithPrefix(table[s].hex), k);
    }
  }

  /** `processScript`'s loop over a laid-out script: whatever order the keys
      come in, each slot whose key is processed and registered ends up
      holding that key's address with "0x", and the pieces are untouched. */
  lemma {:induction false} ProcessWithFill(pieces: seq<string>, slots: seq<string>, table: map<string, FlowAddress>, order: seq<string>)
    requires |pieces| == |slots| + 1 && NoDuplicates(order)
    requires forall k :: k in order && k in table ==> Separated(pieces, slots, table, k)
    ensures ProcessWith(Fill(pieces, slots), table, order) == Fill(pieces, SubstSlots(slots, table, order))
  {
    if order == [] {
      assert SubstSlots(slots, table, order) == slots;
    } else {
      var n := |order| - 1;
      var done, k := order[..n], order[n];
      assert order == done + [k];
      assert forall k' :: k' in done ==> k' in order;
      ProcessWithFill(pieces, slots, table, done);
      if k in table {
        assert Separated(pieces, slots, table, k);
        SubstStep(slots, table, done, k);
        var before := SubstSlots(slots, table, done);
        forall s | s in before && s != k ensures NoPartialMatch(s, k) {
          var i :| 0 <= i < |before| && before[i] == s;
          assert slots[i] in slots;
        }
        ReplaceAllFill(pieces, before, k, WithPrefix(table[k].hex));
      } else {
        assert SubstSlots(slots, table, done) == SubstSlots(slots, table, order);
      }
    }
  }

  /** `processScript(script:chainId:)` on a script naming any number of
      registered placeholders, each any number of times: every occurrence
      is replaced by its contract's address with "0x", and nothing else
      changes, whatever order the dictionary's keys come out in, provided
      no placeholder can start anywhere but in its own slots. */
  lemma ProcessedScriptFill(t: Table, chain: ChainId, pieces: seq<string>, slots: seq<string>, order: seq<string>)
    requires chain in t && IsKeyOrder(order, t[chain].Keys)
    requires |pieces| == |slots| + 1 && forall s :: s in slots ==> s in t[chain]
    requires forall k :: k in t[chain] ==> Separated(pieces, slots, t[chain], k)
    ensures ProcessedScript(t, chain, Fill(pieces, slots), order) == Fill(pieces, WrittenSlots(slots, t[chain]))
  {
    ProcessWithFill(pieces, slots, t[chain], order);
    assert forall i :: 0 <= i < |slots| ==> slots[i] in slots;
    assert SubstSlots(slots, t[chain], order) == WrittenSlots(slots, t[chain]);
  }

  /** Text whose only way to start a placeholder is a "0" that is not
      followed by "x", or that opens with something no placeholder starts
      with, cannot start one anywhere. */
  lemma HexTextNoPartialMatch(u: string, k: string)
    requires HasHexPrefix(k) && |u| >= 2 && !Compatible(u, k)
    requires '0' !in u[1..] || ('x' !in u[2..] && u[|u| - 1] != '0')
    ensures NoPartialMatch(u, k)
  {
    forall i | 0 <= i < |u| ensures !Compatible(u[i..], k) {
      if i > 0 {
        if u[i] == '0' {
          assert u[i] in u[1..];
          assert u[i + 1] in u[2..];
          assert u[i..][..2] != k[..2];
        } else {
          assert u[i..][..1] != k[..1];
        }
      }
    }
  }

  /** Text without the placeholder's first character cannot start it. */
  lemma NoFirstCharNoPartialMatch(u: string, k: string)
    requires |k| > 0 && k[0] !in u
    ensures NoPartialMatch(u, k)
  {
    forall i | 0 <= i < |u| ensures !Compatible(u[i..], k) {
      assert u[i..][..1] != k[..1];
    }
  }

  /** Texts that differ from a placeholder at some position cannot be the
      start of it. */
  lemma DifferAt(u: string, k: string, j: nat)
    requires j < |u| && j < |k| && u[j] != k[j]
    ensures !Compatible(u, k)
  {
    var m := if |u| < |k| then |u| else |k|;
    assert u[..m][j] != k[..m][j];
  }

  /** A position where each other placeholder differs from the
      FungibleToken one. */
  lemma FungibleTokenSlotSeparated(u: string, c: ScriptAddress)
    requires u == RawValue(FungibleToken) && c != FungibleToken
    ensures NoPartialMatch(u, RawValue(c))
  {
    var k := RawValue(c);
    assert '0' !in u[1..];
    if c == FlowToken || c == FlowFees || c == FlowTablesTaking || c == FclCrypto {
      DifferAt(u, k, 3);
    } else {
      DifferAt(u, k, 2);
    }
    HexTextNoPartialMatch(u, k);
  }

  /** A position where each other placeholder differs from the FlowToken
      one. */
  lemma FlowTokenSlotSeparated(u: string, c: ScriptAddress)
    requires u == RawValue(FlowToken) && c != FlowToken
    ensures NoPartialMatch(u, RawValue(c))
  {
    var k := RawValue(c);
    assert '0' !in u[1..];
    if c == FungibleToken || c == FclCrypto {
      DifferAt(u, k, 3);
    } else if c == FlowFees {
      DifferAt(u, k, 6);
    } else if c == FlowTablesTaking {
      DifferAt(u, k, 7);
    } else {
      DifferAt(u, k, 2);
    }
    HexTextNoPartialMatch(u, k);
  }

  /** Every placeholder has a capital letter after its "0x". */
  lemma PlaceholderThirdChar(c: ScriptAddress)
    ensures var k := RawValue(c); k[2] == 'F' || k[2] == 'L' || k[2] == 'S' || k[2] == 'N'
  {
  }

  /** A written address, "0x" and lower-case hex digits not ending in '0',
      cannot start a placeholder. */
  lemma AddressSeparated(u: string, c: ScriptAddress)
    requires AddressText(u)
    ensures NoPartialMatch(u, RawValue(c))
  {
    PlaceholderThirdChar(c);
    DifferAt(u, RawValue(c), 2);
    HexTextNoPartialMatch(u, RawValue(c));
  }

  /** `withPrefix()` of a default mainnet address. */
  lemma MainnetWritten(empty: Table, t: Table, c: ScriptAddress, hex: string, w: string)
    requires empty == map[] && t == WithDefaults(empty)
    requires AddressOn(c, Mainnet) == Some(FlowAddress(hex)) && !HasHexPrefix(hex) && w == "0x" + hex
    ensures Mainnet in t && RawValue(c) in t[Mainnet]
    ensures WithPrefix(t[Mainnet][RawValue(c)].hex) == w
  {
    DefaultEntryMainnet(empty, c);
  }

  /** A script of two placeholders between three pieces. */
  lemma FillTwo(pieces: seq<string>, slots: seq<string>)
    requires |pieces| == 3 && |slots| == 2
    ensures Fill(pieces, slots) == pieces[0] + slots[0] + pieces[1] + slots[1] + pieces[2]
  {
    assert Fill(pieces[1..][1..], slots[1..][1..]) == pieces[2];
  }

  /** In the transfer script, no piece, placeholder or written address can
      start another placeholder. */
  lemma TransferSeparated(pieces: seq<string>, slots: seq<string>, table: map<string, FlowAddress>, c: ScriptAddress)
    requires |pieces| == 3 && forall j :: 0 <= j < 3 ==> NoPartialMatch(pieces[j], RawValue(c))
    requires slots == [RawValue(FungibleToken), RawValue(FlowToken)]
    requires slots[0] in table && AddressText(WithPrefix(table[slots[0]].hex))
    requires slots[1] in table && AddressText(WithPrefix(table[slots[1]].hex))
    ensures Separated(pieces, slots, table, RawValue(c))
  {
    var k := RawValue(c);
    if c != FungibleToken {
      FungibleTokenSlotSeparated(slots[0], c);
    }
    if c != FlowToken {
      FlowTokenSlotSeparated(slots[1], c);
    }
    AddressSeparated(WithPrefix(table[slots[0]].hex), c);
    AddressSeparated(WithPrefix(table[slots[1]].hex), c);
  }

  /** The shape of a written address that `AddressSeparated` relies on. */
  predicate AddressText(u: string) {
    |u| > 2 && HasHexPrefix(u) && u[2] != 'F' && u[2] != 'L' && u[2] != 'S' && u[2] != 'N'
    && 'x' !in u[2..] && u[|u| - 1] != '0'
  }

  lemma TransferPiecesZeroFree(p0: string, p1: string, p2: string)
    requires p0 == "import FungibleToken from " && p1 == "\nimport FlowToken from " && p2 == "\n"
    ensures '0' !in p0 && '0' !in p1 && '0' !in p2
  {
  }

  lemma MainnetAddressTexts(w0: string, w1: string)
    requires w0 == "0xf233dcee88fe0abe" && w1 == "0x1654653399040a61"
    ensures AddressText(w0) && AddressText(w1)
  {
  }

  /** `processScript` on a script naming two placeholders: both are
      written as their addresses, whatever the key order. */
  lemma TwoPlaceholders(t: Table, chain: ChainId, order: seq<string>,
                        p0: string, p1: string, p2: string, s0: string, s1: string)
    requires chain in t && IsKeyOrder(order, t[chain].Keys) && s0 in t[chain] && s1 in t[chain]
    requires forall k :: k in t[chain] ==> Separated([p0, p1, p2], [s0, s1], t[chain], k)
    ensures ProcessedScript(t, chain, p0 + s0 + p1 + s1 + p2, order)
         == p0 + WithPrefix(t[chain][s0].hex) + p1 + WithPrefix(t[chain][s1].hex) + p2
  {
    var pieces, slots := [p0, p1, p2], [s0, s1];
    var written := [WithPrefix(t[chain][s0].hex), WithPrefix(t[chain][s1].hex)];
    assert WrittenSlots(slots, t[chain]) == written;
    ProcessedScriptFill(t, chain, pieces, slots, order);
    FillTwo(pieces, slots);
    FillTwo(pieces, written);
  }

  /** With the default table, a script importing FungibleToken and then
      FlowToken gets both mainnet addresses, for every key order, when the
      text around the two placeholders cannot start any placeholder. */
  lemma MainnetTransferImports(empty: Table, order: seq<string>, p0: string, p1: string, p2: string)
    requires empty == map[] && IsKeyOrder(order, WithDefaults(empty)[Mainnet].Keys)
    requires forall c :: NoPartialMatch(p0, RawValue(c)) && NoPartialMatch(p1, RawValue(c)) && NoPartialMatch(p2, RawValue(c))
    ensures ProcessedScript(WithDefaults(empty), Mainnet, p0 + RawValue(FungibleToken) + p1 + RawValue(FlowToken) + p2, order)
         == p0 + "0xf233dcee88fe0abe" + p1 + "0x1654653399040a61" + p2
  {
    var t: Table := WithDefaults(empty);
    var w0: string, w1: string := "0xf233dcee88fe0abe", "0x1654653399040a61";
    MainnetTransferEntries(empty, t, w0, w1);
    DefaultMainnetKeys(empty, t);
    TransferOn(t, Mainnet, order, p0, p1, p2, w0, w1);
  }

  /** The default mainnet table writes FungibleToken and FlowToken as these
      two address texts. */
  lemma MainnetTransferEntries(empty: Table, t: Table, w0: string, w1: string)
    requires empty == map[] && t == WithDefaults(empty)
    requires w0 == "0xf233dcee88fe0abe" && w1 == "0x1654653399040a61"
    ensures Mainnet in t && RawValue(FungibleToken) in t[Mainnet] && RawValue(FlowToken) in t[Mainnet]
    ensures WithPrefix(t[Mainnet][RawValue(FungibleToken)].hex) == w0 && AddressText(w0)
    ensures WithPrefix(t[Mainnet][RawValue(FlowToken)].hex) == w1 && AddressText(w1)
  {
    var h0: string, h1: string := "f233dcee88fe0abe", "1654653399040a61";
    DefaultMainnetTokens(empty, t, h0, h1);
    MainnetAddressTexts(w0, w1);
    HexWritten(t[Mainnet][RawValue(FungibleToken)], h0, w0);
    HexWritten(t[Mainnet][RawValue(FlowToken)], h1, w1);
  }

  lemma DefaultMainnetTokens(empty: Table, t: Table, h0: string, h1: string)
    requires empty == map[] && t == WithDefaults(empty)
    requires h0 == "f233dcee88fe0abe" && h1 == "1654653399040a61"
    ensures Mainnet in t && RawValue(FungibleToken) in t[Mainnet] && RawValue(FlowToken) in t[Mainnet]
    ensures t[Mainnet][RawValue(FungibleToken)] == FlowAddress(h0)
    ensures t[Mainnet][RawValue(FlowToken)] == FlowAddress(h1)
  {
    DefaultEntryMainnet(empty, FungibleToken);
    DefaultEntryMainnet(empty, FlowToken);
  }

  /** An address held without its "0x" is written with it. */
  lemma HexWritten(x: FlowAddress, h: string, w: string)
    requires x == FlowAddress(h) && w == "0x" + h && !HasHexPrefix(h)
    ensures WithPrefix(x.hex) == w
  {
  }

  /** A token transfer script on a chain whose table holds only
      placeholders, two of them written as address texts. */
  lemma TransferOn(t: Table, chain: ChainId, order: seq<string>,
                   p0: string, p1: string, p2: string, w0: string, w1: string)
    requires chain in t && IsKeyOrder(order, t[chain].Keys)
    requires forall k :: k in t[chain] ==> k in Placeholders(AllContracts)
    requires RawValue(FungibleToken) in t[chain] && RawValue(FlowToken) in t[chain]
    requires WithPrefix(t[chain][RawValue(FungibleToken)].hex) == w0 && AddressText(w0)
    requires WithPrefix(t[chain][RawValue(FlowToken)].hex) == w1 && AddressText(w1)
    requires forall c :: NoPartialMatch(p0, RawValue(c)) && NoPartialMatch(p1, RawValue(c)) && NoPartialMatch(p2, RawValue(c))
    ensures ProcessedScript(t, chain, p0 + RawValue(FungibleToken) + p1 + RawValue(FlowToken) + p2, order)
         == p0 + w0 + p1 + w1 + p2
  {
    TransferSeparatedOn(t[chain], p0, p1, p2);
    forall k | k in t[chain]
      ensures Separated([p0, p1, p2], [RawValue(FungibleToken), RawValue(FlowToken)], t[chain], k)
    {
      var c :| c in AllContracts && k == RawValue(c);
    }
    TwoPlaceholders(t, chain, order, p0, p1, p2, RawValue(FungibleToken), RawValue(FlowToken));
  }

  /** Over a table holding two address texts, no placeholder of any
      contract can start inside the transfer script's pieces, placeholders
      or written addresses. */
  lemma TransferSeparatedOn(table: map<string, FlowAddress>, p0: string, p1: string, p2: string)
    requires RawValue(FungibleToken) in table && RawValue(FlowToken) in table
    requires AddressText(WithPrefix(table[RawValue(FungibleToken)].hex))
    requires AddressText(WithPrefix(table[RawValue(FlowToken)].hex))
    requires forall c :: NoPartialMatch(p0, RawValue(c)) && NoPartialMatch(p1, RawValue(c)) && NoPartialMatch(p2, RawValue(c))
    ensures forall c :: Separated([p0, p1, p2], [RawValue(FungibleToken), RawValue(FlowToken)], table, RawValue(c))
  {
    forall c ensures Separated([p0, p1, p2], [RawValue(FungibleToken), RawValue(FlowToken)], table, RawValue(c)) {
      var pieces := [p0, p1, p2];
      assert forall j :: 0 <= j < 3 ==> NoPartialMatch(pieces[j], RawValue(c));
      TransferSeparated(pieces, [RawValue(FungibleToken), RawValue(FlowToken)], table, c);
    }
  }

  /** The two import lines of a token transfer script on mainnet. */
  lemma MainnetTransferScript(empty: Table, order: seq<string>, p0: string, p1: string, p2: string)
    requires empty == map[] && IsKeyOrder(order, WithDefaults(empty)[Mainnet].Keys)
    requires p0 == "import FungibleToken from " && p1 == "\nimport FlowToken from " && p2 == "\n"
    ensures ProcessedScript(WithDefaults(empty), Mainnet, p0 + "0xFungibleToken" + p1 + "0xFlowToken" + p2, order)
         == p0 + "0xf233dcee88fe0abe" + p1 + "0x1654653399040a61" + p2
  {
    TransferPiecesZeroFree(p0, p1, p2);
    forall c ensures NoPartialMatch(p0, RawValue(c)) && NoPartialMatch(p1, RawValue(c)) && NoPartialMatch(p2, RawValue(c)) {
      NoFirstCharNoPartialMatch(p0, RawValue(c));
      NoFirstCharNoPartialMatch(p1, RawValue(c));
      NoFirstCharNoPartialMatch(p2, RawValue(c));
    }
    MainnetTransferImports(empty, order, p0, p1, p2);
  }

  /** No other placeholder occurs in the FlowToken placeholder itself. */
  lemma TokenPlaceholderLacks(c: ScriptAddress)
    requires c != FlowToken
    ensures !Occurs(RawValue(FlowToken), RawValue(c))
  {
    match c
    case FlowFees => Lacks(RawValue(FlowToken), RawValue(c), 's');
    case FclCrypto => Lacks(RawValue(FlowToken), RawValue(c), 'C');
    case _ =>
  }

  /** No placeholder occurs in FlowToken's mainnet address: each has a
      capital letter the address lacks. */
  lemma MainnetTokenAddressLacks(c: ScriptAddress, addr: string)
    requires addr == "0x1654653399040a61"
    ensures !Occurs(addr, RawValue(c))
  {
    assert 'F' !in addr && 'L' !in addr && 'S' !in addr && 'N' !in addr;
    match c
    case LockedTokens => Lacks(addr, RawValue(c), 'L');
    case StakingProxy => Lacks(addr, RawValue(c), 'S');
    case NonFungibleToken => Lacks(addr, RawValue(c), 'N');
    case _ => Lacks(addr, RawValue(c), 'F');
  }

  /** The default mainnet table holds only placeholders, FlowToken's among
      them at its mainnet address. */
  lemma DefaultMainnetToken(empty: Table, t: Table)
    requires empty == map[] && t == WithDefaults(empty)
    ensures Mainnet in t && RawValue(FlowToken) in t[Mainnet]
    ensures t[Mainnet][RawValue(FlowToken)] == FlowAddress("1654653399040a61")
  {
    DefaultEntryMainnet(empty, FlowToken);
  }

  lemma DefaultMainnetKeys(empty: Table, t: Table)
    requires empty == map[] && t == WithDefaults(empty) && Mainnet in t
    ensures forall k :: k in t[Mainnet] ==> k in Placeholders(AllContracts)
  {
    forall k | k in t[Mainnet] ensures k in Placeholders(AllContracts) {
      if k !in Placeholders(AllContracts) {
        DefaultNonPlaceholder(empty, Mainnet, k);
      }
    }
  }

  /** Neither the import line nor its substituted form mentions another
      placeholder. */
  lemma ImportLineLacks(k: string, a: string, addr: string)
    requires k in Placeholders(AllContracts) && k != RawValue(FlowToken)
    requires a == "import FlowToken from " && addr == "0x1654653399040a61"
    ensures !Occurs(a + RawValue(FlowToken), k) && !Occurs(a + addr, k)
  {
    var c :| c in AllContracts && k == RawValue(c);
    assert '0' !in a;
    TokenPlaceholderLacks(c);
    MainnetTokenAddressLacks(c, addr);
    NoStartIn(a, RawValue(FlowToken), k);
    NoStartIn(a, addr, k);
  }

  lemma MainnetTokenWritten(x: FlowAddress, addr: string)
    requires x == FlowAddress("1654653399040a61") && addr == "0x1654653399040a61"
    ensures WithPrefix(x.hex) == addr
  {
    assert !HasHexPrefix(x.hex);
  }

  lemma ImportLinePieces(a: string, k: string, addr: string)
    requires a == "import FlowToken from " && k == RawValue(FlowToken) && addr == "0x1654653399040a61"
    ensures '0' !in a
    ensures a + k + [] == "import FlowToken from 0xFlowToken"
    ensures a + addr + [] == "import FlowToken from 0x1654653399040a61"
  {
  }

  /** With the default table, the mainnet FlowToken placeholder in an import
      line is replaced by the mainnet address, for every key order. */
  lemma MainnetFlowTokenImport(empty: Table, order: seq<string>)
    requires empty == map[] && IsKeyOrder(order, WithDefaults(empty)[Mainnet].Keys)
    ensures ProcessedScript(WithDefaults(empty), Mainnet, "import FlowToken from 0xFlowToken", order)
         == "import FlowToken from 0x1654653399040a61"
  {
    var t: Table := WithDefaults(empty);
    DefaultMainnetToken(empty, t);
    DefaultMainnetKeys(empty, t);
    var a: string, k: string := "import FlowToken from ", RawValue(FlowToken);
    var addr: string := "0x1654653399040a61";
    MainnetTokenWritten(t[Mainnet][k], addr);
    ImportLinePieces(a, k, addr);
    forall k' | k' in t[Mainnet] && k' != k
      ensures !Occurs(a + k + [], k') && !Occurs(a + addr + [], k')
    {
      ImportLineLacks(k', a, addr);
      assert a + k + [] == a + k && a + addr + [] == a + addr;
    }
    NoFirstCharNoOverlap(a, k);
    ProcessedScriptOnePlaceholder(t, Mainnet, a, k, [], order);
  }

  // ---------------------------------------------------------------------
  // The registry object
  // ---------------------------------------------------------------------

  class AddressRegistry {
    var defaultChainId: ChainId
    var scriptTokenDict: Table

    /** `init()`: mainnet by default, seeded with the default table. */
    constructor ()
      ensures defaultChainId == Mainnet
      ensures scriptTokenDict == WithDefaults(map[])
    {
      defaultChainId := Mainnet;
      scriptTokenDict := map[];
      new;
      RegisterDefaults();
    }

    /** `registerDefaults()`: every contract of the plan that has an address on
        the plan's network is registered there. */
    method RegisterDefaults()
      modifies this
      ensures scriptTokenDict == WithDefaults(old(scriptTokenDict))
      ensures defaultChainId == old(defaultChainId)
    {
      DefaultPlanSteps(scriptTokenDict);
      var plan := DefaultPlan;
      var i := 0;
      while i < |plan|
        invariant 0 <= i <= |plan|
        invariant scriptTokenDict == RegisterPlan(old(scriptTokenDict), plan[..i])
        invariant defaultChainId == old(defaultChainId)
      {
        RegisterAll(plan[i].0, plan[i].1);
        assert plan[..i + 1][..i] == plan[..i];
        i := i + 1;
      }
      assert plan[..i] == plan;
    }

    /** The inner `forEach` of `registerDefaults()`: each contract of
        `contracts` with an address on `chain` is registered there. */
    method RegisterAll(chain: ChainId, contracts: seq<ScriptAddress>)
      modifies this
      ensures scriptTokenDict == RegisterContracts(old(scriptTokenDict), chain, contracts)
      ensures defaultChainId == old(defaultChainId)
    {
      for j := 0 to |contracts|
        invariant scriptTokenDict == RegisterContracts(old(scriptTokenDict), chain, contracts[..j])
        invariant defaultChainId == old(defaultChainId)
      {
        assert contracts[..j + 1][..j] == contracts[..j];
        var address := AddressOn(contracts[j], chain);
        if address.Some? {
          Register(chain, RawValue(contracts[j]), address.value);
        }
      }
      assert contracts[..|contracts|] == contracts;
    }

    /** `addressOf(contract:)`: looks the contract up on the default network. */
    function AddressOf(contract: string): (r: Option<FlowAddress>)
      reads this
      ensures r == AddressOfOn(contract, defaultChainId)
    {
      AddressOfOn(contract, defaultChainId)
    }

    /** `addressOf(contract:chainId:)`. */
    function AddressOfOn(contract: string, chainId: ChainId): (r: Option<FlowAddress>)
      reads this
      ensures r.Some? <==> chainId in scriptTokenDict && contract in scriptTokenDict[chainId]
      ensures r.Some? ==> r.value == scriptTokenDict[chainId][contract]
    {
      Lookup(scriptTokenDict, chainId, contract)
    }

    /** `processScript(script:)`: substitutes on the default network. */
    method ProcessScript(script: string, keyOrder: seq<string>) returns (ret: string)
      requires defaultChainId in scriptTokenDict ==> IsKeyOrder(keyOrder, scriptTokenDict[defaultChainId].Keys)
      ensures ret == ProcessedScript(scriptTokenDict, defaultChainId, script, keyOrder)
    {
      ret := ProcessScriptOn(script, defaultChainId, keyOrder);
    }

    /** `processScript(script:chainId:)`. `keyOrder` is the order in which the
        network's dictionary hands out its keys, which Swift leaves unspecified. */
    method ProcessScriptOn(script: string, chainId: ChainId, keyOrder: seq<string>) returns (ret: string)
      requires chainId in scriptTokenDict ==> IsKeyOrder(keyOrder, scriptTokenDict[chainId].Keys)
      ensures ret == ProcessedScript(scriptTokenDict, chainId, script, keyOrder)
      ensures chainId !in scriptTokenDict ==> ret == script
    {
      ret := script;
      if chainId !in scriptTokenDict {
        return;
      }
      var dict := scriptTokenDict[chainId];
      var i := 0;
      while i < |keyOrder|
        invariant 0 <= i <= |keyOrder|
        invariant ret == ProcessWith(script, dict, keyOrder[..i])
      {
        var key := keyOrder[i];
        assert keyOrder[..i + 1][..i] == keyOrder[..i];
        if key in dict {
          ret := ReplaceAll(ret, key, WithPrefix(dict[key].hex));
        }
        i := i + 1;
      }
      assert keyOrder[..i] == keyOrder;
    }

    /** `deregister(contract:chainId:)`: from the named network, or from every
        network when none is named. */
    method Deregister(contract: string, chainId: Option<ChainId>)
      modifies this
      ensures scriptTokenDict == Deregistered(old(scriptTokenDict), contract, DeregisterChains(chainId))
      ensures defaultChainId == old(defaultChainId)
    {
      var chains := DeregisterChains(chainId);
      var i := 0;
      while i < |chains|
        invariant 0 <= i <= |chains|
        invariant scriptTokenDict == Deregistered(old(scriptTokenDict), contract, chains[..i])
        invariant defaultChainId == old(defaultChainId)
      {
        var c := chains[i];
        assert chains[..i + 1] == chains[..i] + [c];
        DeregisteredStep(old(scriptTokenDict), contract, chains[..i], c);
        if c in scriptTokenDict {
          scriptTokenDict := scriptTokenDict[c := scriptTokenDict[c] - {contract}];
        }
        i := i + 1;
      }
      assert chains[..i] == chains;
    }

    /** `clear()`: every network's table is dropped. */
    method Clear()
      modifies this
      ensures scriptTokenDict == map[]
      ensures defaultChainId == old(defaultChainId)
      ensures forall contract, chain :: AddressOfOn(contract, chain) == None
    {
      scriptTokenDict := map[];
    }

    /** `register(chainId:contract:address:)`. */
    method Register(chainId: ChainId, contract: string, address: FlowAddress)
      modifies this
      ensures scriptTokenDict == Registered(old(scriptTokenDict), chainId, contract, address)
      ensures defaultChainId == old(defaultChainId)
    {
      if chainId in scriptTokenDict {
        scriptTokenDict := scriptTokenDict[chainId := scriptTokenDict[chainId][contract := address]];
      } else {
        scriptTokenDict := scriptTokenDict[chainId := map[]];
        scriptTokenDict := scriptTokenDict[chainId := scriptTokenDict[chainId][contract := address]];
      }
    }
  }

  /** After `clear()`, a script comes back unchanged on every network. */
  lemma ProcessAfterClear(chain: ChainId, script: string, order: seq<string>)
    ensures ProcessedScript(map[], chain, script, order) == script
  {
  }
}
