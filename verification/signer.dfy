/** Signers: the temporary id a signer is known by, the participant it
    stands for, and which strategy a participant's signing function uses —
    its own signer, a pre-authorization response, or the current user's
    authorization services. The signing itself (a call into a signer or a
    wallet) is not modelled; the result names what would be called. */
module Signers {
  import opened Common
  import opened Interactions
  import opened Responses
  import opened Transactions

  predicate NoBar(s: string) {
    forall i :: 0 <= i < |s| ==> s[i] != '|'
  }

  lemma IntDecimalNoBar(i: int)
    ensures NoBar(IntDecimal(i))
  {
    var s := IntDecimal(i);
    forall k | 0 <= k < |s| ensures s[k] != '|' {
      if k > 0 { assert IsDigit(s[k]); }
    }
  }

  /** Position of the last '|' in `s`, or -1. */
  function LastBar(s: string): (k: int)
    ensures -1 <= k < |s|
  {
    if s == [] then -1
    else if s[|s| - 1] == '|' then |s| - 1
    else LastBar(s[..|s| - 1])
  }

  /** A suffix free of '|' puts the last '|' right after the prefix. */
  lemma {:induction false} LastBarOf(p: string, d: string)
    requires NoBar(d)
    ensures LastBar(p + "|" + d) == |p|
  {
    var s := p + "|" + d;
    if d != [] {
      var d' := d[..|d| - 1];
      assert s[..|s| - 1] == p + "|" + d';
      assert NoBar(d');
      LastBarOf(p, d');
    }
  }

  /** `FCLSigner.tempID`: "0x<address>|<key index>". The text is prefixed,
      and its last '|' is the one right after the address. */
  function TempId(s: SignerRef): (t: string)
    ensures HasHexPrefix(t)
    ensures LastBar(t) == |WithPrefix(s.address.hex)|
  {
    IntDecimalNoBar(s.keyIndex);
    LastBarOf(WithPrefix(s.address.hex), IntDecimal(s.keyIndex));
    WithPrefix(s.address.hex) + "|" + IntDecimal(s.keyIndex)
  }

  /** Splitting at the last '|': a suffix without '|' is recovered uniquely. */
  lemma SplitAtLastBar(p1: string, d1: string, p2: string, d2: string)
    requires NoBar(d1) && NoBar(d2)
    requires p1 + "|" + d1 == p2 + "|" + d2
    ensures p1 == p2 && d1 == d2
  {
    var s := p1 + "|" + d1;
    LastBarOf(p1, d1);
    LastBarOf(p2, d2);
    assert p1 == s[..|p1|];
    assert d1 == s[|p1| + 1..];
  }

  /** Two signers share a temporary id exactly when they have the same
      prefixed address and the same key index. */
  lemma TempIdInjective(a: SignerRef, b: SignerRef)
    ensures TempId(a) == TempId(b) <==>
              WithPrefix(a.address.hex) == WithPrefix(b.address.hex) && a.keyIndex == b.keyIndex
  {
    if TempId(a) == TempId(b) {
      IntDecimalNoBar(a.keyIndex);
      IntDecimalNoBar(b.keyIndex);
      SplitAtLastBar(WithPrefix(a.address.hex), IntDecimal(a.keyIndex), WithPrefix(b.address.hex), IntDecimal(b.keyIndex));
      IntDecimalInjective(a.keyIndex, b.keyIndex);
    }
  }

  /** `FCLSigner.signableUser`: the participant a signer stands for. It has
      a temporary id, so unlike an arbitrary participant it equals itself. */
  function SignableUserOf(s: SignerRef): (u: SignableUser)
    ensures SameUser(u, u)
    ensures u.signer == Some(s) && u.role == NoRole && u.signature.None? && u.sequenceNum.None?
  {
    SignableUser(None, Some(TempId(s)), Some(WithPrefix(s.address.hex)), None, Some(s.keyIndex), None, NoRole, Some(s))
  }

  /** Participants made from signers are equal exactly when the signers have
      the same prefixed address and key index. */
  lemma SignerUsersEqual(a: SignerRef, b: SignerRef)
    ensures SameUser(SignableUserOf(a), SignableUserOf(b)) <==>
              WithPrefix(a.address.hex) == WithPrefix(b.address.hex) && a.keyIndex == b.keyIndex
  {
    TempIdInjective(a, b);
  }

  /** A participant seen as a signer: its address ("0x" when it has none)
      and key index (0 when it has none). */
  function AsSigner(u: SignableUser): (s: SignerRef)
    ensures u.addr.None? ==> s.address == FlowAddress("")
    ensures u.keyID.None? ==> s.keyIndex == 0
  {
    SignerRef(AddressFromHex(u.addr.GetOr("0x")), u.keyID.GetOr(0))
  }

  /** Participant and signer views agree: a participant built from a signer
      gives back the same signer address and key index. */
  lemma AsSignerRoundTrip(s: SignerRef)
    ensures AsSigner(SignableUserOf(s)).keyIndex == s.keyIndex
    ensures AsSigner(SignableUserOf(s)).address == AddressFromHex(s.address.hex)
  {
    PrefixRoundTrip(s.address.hex);
  }

  // ---------------------------------------------------------------------
  // Signing strategy
  // ---------------------------------------------------------------------

  /** The current user as far as signing needs it: its services, if known. */
  datatype CurrentUser = CurrentUser(services: Option<seq<Service>>)

  /** What a signing function would call. */
  datatype Dispatch = ViaSigner(signer: SignerRef) | ViaService(service: Service)

  function Prefixed(a: Option<string>): Option<string> {
    if a.Some? then Some(WithPrefix(a.value)) else None
  }

  /** The service's identity address and the participant's address agree
      once both are prefixed; both missing counts as agreeing. */
  predicate Matches(s: Service, addr: Option<string>) {
    Prefixed(if s.identity.Some? then Some(s.identity.value.address) else None) == Prefixed(addr)
  }

  /** `first(where:)` with `Matches`. */
  function FirstMatch(services: seq<Service>, addr: Option<string>): (r: Option<nat>)
    ensures r.Some? ==> r.value < |services| && Matches(services[r.value], addr)
    ensures r.Some? ==> forall k :: 0 <= k < r.value ==> !Matches(services[k], addr)
    ensures r.None? ==> forall k :: 0 <= k < |services| ==> !Matches(services[k], addr)
  {
    if services == [] then None
    else if Matches(services[0], addr) then Some(0)
    else
      match FirstMatch(services[1..], addr)
      case None => None
      case Some(k) => Some(k + 1)
  }

  /** The services a pre-authorization offers, in search order: payers,
      then authorizations, then the proposer. */
  function PreAuthzCandidates(r: Response): seq<Service> {
    if r.data.None? then []
    else
      var d := r.data.value;
      d.payer.GetOr([]) + d.authorization.GetOr([]) + (if d.proposer.Some? then [d.proposer.value] else [])
  }

  /** The current user's services of type `authz`, in order. */
  function AuthzServices(services: seq<Service>): (r: seq<Service>)
    ensures forall s :: s in r <==> s in services && s.serviceType == Some(Authz)
    ensures |r| <= |services|
  {
    if services == [] then []
    else (if services[0].serviceType == Some(Authz) then [services[0]] else []) + AuthzServices(services[1..])
  }

  /** The filter keeps order: filtering a concatenation is concatenating
      the filtered parts. */
  lemma {:induction false} AuthzServicesAppend(a: seq<Service>, b: seq<Service>)
    ensures AuthzServices(a + b) == AuthzServices(a) + AuthzServices(b)
    decreases |a|
  {
    if a != [] {
      assert (a + b)[0] == a[0] && (a + b)[1..] == a[1..] + b;
      AuthzServicesAppend(a[1..], b);
    } else {
      assert a + b == b;
    }
  }

  /** `services[k]` is an `authz` service and no earlier `authz` service
      matches `addr`. */
  predicate FirstAuthzAt(services: seq<Service>, k: int, addr: Option<string>) {
    && 0 <= k < |services|
    && services[k].serviceType == Some(Authz)
    && forall j :: 0 <= j < k && services[j].serviceType == Some(Authz) ==> !Matches(services[j], addr)
  }

  /** Searching the filtered list finds the first `authz` service of the
      whole list that matches: every earlier `authz` service fails to. */
  lemma {:induction false} AuthzFirstMatch(services: seq<Service>, addr: Option<string>) returns (k: nat)
    requires FirstMatch(AuthzServices(services), addr).Some?
    ensures FirstAuthzAt(services, k, addr)
    ensures services[k] == AuthzServices(services)[FirstMatch(AuthzServices(services), addr).value]
    decreases |services|
  {
    var list := AuthzServices(services);
    var found := FirstMatch(list, addr);
    var rest := AuthzServices(services[1..]);
    var head := if services[0].serviceType == Some(Authz) then [services[0]] else [];
    assert list == head + rest;
    if head != [] && Matches(services[0], addr) {
      assert list[0] == services[0];
      assert found == Some(0);
      k := 0;
    } else {
      FirstMatchSkip(head, rest, addr);
      var m := FirstMatch(rest, addr).value;
      assert found.value == |head| + m;
      var k' := AuthzFirstMatch(services[1..], addr);
      AuthzFirstMatchStep(services, addr, head, rest, m, k');
      k := k' + 1;
    }
  }

  lemma AuthzFirstMatchStep(services: seq<Service>, addr: Option<string>, head: seq<Service>, rest: seq<Service>, m: nat, k: nat)
    requires |services| > 0 && m < |rest|
    requires services[0].serviceType == Some(Authz) ==> !Matches(services[0], addr)
    requires FirstAuthzAt(services[1..], k, addr) && services[1..][k] == rest[m]
    ensures FirstAuthzAt(services, k + 1, addr) && services[k + 1] == (head + rest)[|head| + m]
  {
    FirstAuthzShift(services, k, addr);
    assert (head + rest)[|head| + m] == rest[m];
    assert services[k + 1] == services[1..][k];
  }

  lemma FirstAuthzShift(services: seq<Service>, k: int, addr: Option<string>)
    requires |services| > 0 && FirstAuthzAt(services[1..], k, addr)
    requires services[0].serviceType == Some(Authz) ==> !Matches(services[0], addr)
    ensures FirstAuthzAt(services, k + 1, addr)
  {
    forall j | 0 <= j < k + 1 && services[j].serviceType == Some(Authz) ensures !Matches(services[j], addr) {
      if j > 0 {
        assert services[j] == services[1..][j - 1];
      }
    }
  }

  /** Searching past a prefix none of whose services match. */
  lemma FirstMatchSkip(head: seq<Service>, rest: seq<Service>, addr: Option<string>)
    requires |head| <= 1 && (head != [] ==> !Matches(head[0], addr))
    ensures FirstMatch(head + rest, addr).Some? ==>
              FirstMatch(rest, addr).Some? && FirstMatch(head + rest, addr).value == |head| + FirstMatch(rest, addr).value
  {
    if head != [] {
      assert (head + rest)[0] == head[0] && (head + rest)[1..] == rest;
    } else {
      assert head + rest == rest;
    }
  }

  /** The first service matching `addr`, or `missingAuthz`. */
  function SearchFor(services: seq<Service>, addr: Option<string>): (r: Result<Dispatch, FclError>)
    ensures r.Err? <==> forall k :: 0 <= k < |services| ==> !Matches(services[k], addr)
    ensures r.Err? ==> r.error == MissingAuthz
    ensures r.Ok? ==> r.value.ViaService?
    ensures r.Ok? ==>
              exists k :: 0 <= k < |services| && services[k] == r.value.service && Matches(services[k], addr)
                          && forall j :: 0 <= j < k ==> !Matches(services[j], addr)
  {
    match FirstMatch(services, addr)
    case Some(k) => Ok(ViaService(services[k]))
    case None => Err(MissingAuthz)
  }

  /** `SignableUser.signingFunction(signable:)`: which strategy signs for
      the participant, given the client's pre-authorization response and
      current user (both global state in the client). */
  function SigningDispatch(u: SignableUser, preAuthz: Option<Response>, currentUser: Option<CurrentUser>): (r: Result<Dispatch, FclError>)
    ensures u.signer.Some? ==> r == Ok(ViaSigner(u.signer.value))
    ensures r.Ok? && r.value.ViaSigner? ==> u.signer == Some(r.value.signer)
    ensures r.Ok? && r.value.ViaService? ==> Matches(r.value.service, u.addr)
    ensures r.Err? ==> r.error == MissingAuthz
  {
    if u.signer.Some? then Ok(ViaSigner(u.signer.value))
    else if preAuthz.Some? then SearchFor(PreAuthzCandidates(preAuthz.value), u.addr)
    else if currentUser.Some? && currentUser.value.services.Some? then
      SearchFor(AuthzServices(currentUser.value.services.value), u.addr)
    else Err(MissingAuthz)
  }

  /** The strategies in order: an explicit signer wins outright; otherwise a
      pre-authorization decides alone (the current user is not consulted, and
      no match is `missingAuthz`); otherwise the first matching `authz`
      service of the current user, or `missingAuthz`. */
  lemma SigningPrecedence(u: SignableUser, preAuthz: Option<Response>, currentUser: Option<CurrentUser>, other: Option<CurrentUser>)
    ensures u.signer.Some? ==> SigningDispatch(u, preAuthz, currentUser) == Ok(ViaSigner(u.signer.value))
    ensures u.signer.None? && preAuthz.Some? ==>
              SigningDispatch(u, preAuthz, currentUser) == SigningDispatch(u, preAuthz, other)
    ensures u.signer.None? && preAuthz.Some? ==>
              var cands := PreAuthzCandidates(preAuthz.value);
              && (SigningDispatch(u, preAuthz, currentUser).Err? <==> forall s :: s in cands ==> !Matches(s, u.addr))
              && (SigningDispatch(u, preAuthz, currentUser).Err? ==> SigningDispatch(u, preAuthz, currentUser).error == MissingAuthz)
    ensures u.signer.None? && preAuthz.None? && (currentUser.None? || currentUser.value.services.None?) ==>
              SigningDispatch(u, preAuthz, currentUser) == Err(MissingAuthz)
  {
    if u.signer.None? && preAuthz.Some? {
      var cands := PreAuthzCandidates(preAuthz.value);
      if FirstMatch(cands, u.addr).None? {
        forall s | s in cands ensures !Matches(s, u.addr) {
          var k :| 0 <= k < |cands| && cands[k] == s;
        }
      }
    }
  }

  /** Without a signer or a pre-authorization, the current user's services
      decide: the chosen service is the first `authz` service whose address
      matches, and `missingAuthz` comes exactly when no `authz` service
      matches. */
  lemma CurrentUserDispatch(u: SignableUser, cu: CurrentUser)
    requires u.signer.None? && cu.services.Some?
    ensures var services, r := cu.services.value, SigningDispatch(u, None, Some(cu));
            && (r.Err? <==> forall s :: s in services && s.serviceType == Some(Authz) ==> !Matches(s, u.addr))
            && (r.Err? ==> r.error == MissingAuthz)
            && (r.Ok? ==>
                  && r.value.ViaService?
                  && Matches(r.value.service, u.addr)
                  && exists k :: FirstAuthzAt(services, k, u.addr) && services[k] == r.value.service)
  {
    var services := cu.services.value;
    var list := AuthzServices(services);
    if FirstMatch(list, u.addr).None? {
      forall s | s in services && s.serviceType == Some(Authz) ensures !Matches(s, u.addr) {
        var k :| 0 <= k < |list| && list[k] == s;
      }
    } else {
      var m := FirstMatch(list, u.addr).value;
      assert list[m] in list;
      var k := AuthzFirstMatch(services, u.addr);
    }
  }

  /** A service chosen from a pre-authorization or the current user matches
      the participant's address, and comes from the searched list before any
      other match; from the current user it is always an `authz` service. */
  lemma SigningChoiceSound(u: SignableUser, preAuthz: Option<Response>, currentUser: Option<CurrentUser>)
    requires u.signer.None?
    requires SigningDispatch(u, preAuthz, currentUser).Ok?
    ensures SigningDispatch(u, preAuthz, currentUser).value.ViaService?
    ensures Matches(SigningDispatch(u, preAuthz, currentUser).value.service, u.addr)
    ensures preAuthz.Some? ==> SigningDispatch(u, preAuthz, currentUser).value.service in PreAuthzCandidates(preAuthz.value)
    ensures preAuthz.Some? ==>
              var cands := PreAuthzCandidates(preAuthz.value);
              exists k :: 0 <= k < |cands| && cands[k] == SigningDispatch(u, preAuthz, currentUser).value.service
                          && forall j :: 0 <= j < k ==> !Matches(cands[j], u.addr)
    ensures preAuthz.None? ==>
              var s := SigningDispatch(u, preAuthz, currentUser).value.service;
              s.serviceType == Some(Authz) && s in currentUser.value.services.value
  {
    if preAuthz.None? {
      var list := AuthzServices(currentUser.value.services.value);
      var k := FirstMatch(list, u.addr).value;
      assert list[k] in list;
    }
  }
}
