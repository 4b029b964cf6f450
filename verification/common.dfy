/** Shared vocabulary of the model: optional values and results, addresses
    and their hex prefix, the decimal rendering of integers, and the
    order-preserving sequence operations the signer algebra is built from. */
module Common {

  datatype Option<+T> = None | Some(value: T) {
    /** Swift's `x ?? default`. */
    function GetOr(default: T): T {
      match this
      case Some(v) => v
      case None => default
    }
  }

  datatype Result<+T, +E> = Ok(value: T) | Err(error: E)

  // ---------------------------------------------------------------------
  // Addresses and the "0x" prefix
  // ---------------------------------------------------------------------

  /** A chain address, held as its hex text without the "0x" prefix. */
  datatype FlowAddress = FlowAddress(hex: string)

  predicate HasHexPrefix(s: string) {
    |s| >= 2 && s[0] == '0' && s[1] == 'x'
  }

  /** `sansPrefix()`: drops one leading "0x" if there is one. */
  function SansPrefix(s: string): (r: string)
    ensures HasHexPrefix(s) ==> s == "0x" + r
    ensures !HasHexPrefix(s) ==> r == s
  {
    if HasHexPrefix(s) then s[2..] else s
  }

  /** `addHexPrefix()` / `withPrefix()`: the text with "0x" in front, unless it already starts with it. */
  function WithPrefix(s: string): (r: string)
    ensures HasHexPrefix(r)
    ensures HasHexPrefix(s) ==> r == s
  {
    "0x" + SansPrefix(s)
  }

  /** `Flow.Address(hex:)`: parsing is reduced to dropping the prefix. */
  function AddressFromHex(s: string): (a: FlowAddress)
    ensures !HasHexPrefix(s) ==> a.hex == s
  {
    FlowAddress(SansPrefix(s))
  }

  lemma PrefixRoundTrip(s: string)
    ensures SansPrefix(WithPrefix(s)) == SansPrefix(s)
    ensures WithPrefix(WithPrefix(s)) == WithPrefix(s)
    ensures AddressFromHex(WithPrefix(s)) == AddressFromHex(s)
  {
    assert WithPrefix(s)[2..] == SansPrefix(s);
  }

  // ---------------------------------------------------------------------
  // Decimal rendering (Swift's `String(Int)`)
  // ---------------------------------------------------------------------

  predicate IsDigit(c: char) { '0' <= c <= '9' }

  function DigitChar(d: nat): (c: char)
    requires d < 10
    ensures IsDigit(c) && c as int - '0' as int == d
  {
    ('0' as int + d) as char
  }

  function NatDecimal(n: nat): (s: string)
    ensures |s| > 0
    ensures forall i :: 0 <= i < |s| ==> IsDigit(s[i])
  {
    if n < 10 then [DigitChar(n)] else NatDecimal(n / 10) + [DigitChar(n % 10)]
  }

  /** Decimal text of an integer, with a leading '-' when negative. */
  function IntDecimal(i: int): (s: string)
    ensures |s| > 0
    ensures i >= 0 <==> IsDigit(s[0])
    ensures forall k :: 0 < k < |s| ==> IsDigit(s[k])
  {
    if i < 0 then "-" + NatDecimal(-i) else NatDecimal(i)
  }

  function ParseNat(s: string): nat {
    if s == [] then 0
    else
      var c := s[|s| - 1];
      10 * ParseNat(s[..|s| - 1]) + (if IsDigit(c) then c as int - '0' as int else 0)
  }

  lemma {:induction false} ParseNatDecimal(n: nat)
    ensures ParseNat(NatDecimal(n)) == n
  {
    if n >= 10 {
      var s := NatDecimal(n);
      assert s[..|s| - 1] == NatDecimal(n / 10);
      ParseNatDecimal(n / 10);
    }
  }

  /** Distinct integers have distinct decimal texts. */
  lemma IntDecimalInjective(i: int, j: int)
    requires IntDecimal(i) == IntDecimal(j)
    ensures i == j
  {
    if i < 0 && j < 0 {
      assert NatDecimal(-i) == IntDecimal(i)[1..];
      assert NatDecimal(-j) == IntDecimal(j)[1..];
      ParseNatDecimal(-i);
      ParseNatDecimal(-j);
    } else if i >= 0 && j >= 0 {
      ParseNatDecimal(i);
      ParseNatDecimal(j);
    }
  }

  // ---------------------------------------------------------------------
  // Order-preserving sequence operations
  // ---------------------------------------------------------------------

  /** Index of the first occurrence of `x` in `s`. */
  function IndexOf(s: seq<string>, x: string): (i: nat)
    requires x in s
    ensures i < |s| && s[i] == x
    ensures forall j :: 0 <= j < i ==> s[j] != x
  {
    var n := |s| - 1;
    if x in s[..n] then IndexOf(s[..n], x) else n
  }

  /** The elements of `r` appear in the order of their first occurrence in `s`. */
  ghost predicate FirstSeenOrder(r: seq<string>, s: seq<string>) {
    forall i, j :: 0 <= i < j < |r| ==> r[i] in s && r[j] in s && IndexOf(s, r[i]) < IndexOf(s, r[j])
  }

  predicate NoDuplicates(s: seq<string>) {
    forall i, j :: 0 <= i < j < |s| ==> s[i] != s[j]
  }

  /** `uniqued()`: one copy of each element, the first occurrence kept. */
  function Uniqued(s: seq<string>): (r: seq<string>)
    ensures forall x :: x in r <==> x in s
    ensures NoDuplicates(r)
    ensures |r| <= |s|
  {
    if s == [] then []
    else
      var n := |s| - 1;
      var rest := Uniqued(s[..n]);
      assert s == s[..n] + [s[n]];
      if s[n] in rest then rest else rest + [s[n]]
  }

  /** `uniqued()` on one more element: appended exactly when it is new. */
  lemma UniquedSnoc(s: seq<string>, x: string)
    ensures Uniqued(s + [x]) == if x in Uniqued(s) then Uniqued(s) else Uniqued(s) + [x]
  {
    assert (s + [x])[..|s|] == s;
  }

  lemma {:induction false} UniquedFirstSeenOrder(s: seq<string>)
    ensures FirstSeenOrder(Uniqued(s), s)
  {
    if s != [] {
      var n := |s| - 1;
      var rest := Uniqued(s[..n]);
      UniquedFirstSeenOrder(s[..n]);
      forall y | y in s[..n] ensures IndexOf(s, y) == IndexOf(s[..n], y) && IndexOf(s, y) < n {
        assert s[..n] == s[..|s| - 1];
      }
      if s[n] !in rest {
        assert s[n] !in s[..n];
        assert IndexOf(s, s[n]) == n;
      }
    }
  }

  /** When `s` already has no duplicates, `uniqued()` leaves it as it is. */
  lemma {:induction false} UniquedOfDistinct(s: seq<string>)
    requires NoDuplicates(s)
    ensures Uniqued(s) == s
  {
    if s != [] {
      var n := |s| - 1;
      assert NoDuplicates(s[..n]);
      UniquedOfDistinct(s[..n]);
      assert s[n] !in s[..n];
      assert s == s[..n] + [s[n]];
    }
  }

  /** The ids of `ids` that are keys of `m`, in order: what a `compactMap`
      over a dictionary look-up keeps. */
  function KeysIn<V>(m: map<string, V>, ids: seq<string>): (r: seq<string>)
    ensures forall id :: id in r <==> id in ids && id in m
  {
    if ids == [] then []
    else
      var n := |ids| - 1;
      assert ids == ids[..n] + [ids[n]];
      KeysIn(m, ids[..n]) + (if ids[n] in m then [ids[n]] else [])
  }

  /** `removeAll { $0 == x }`: every copy of `x` dropped, the rest kept in order. */
  function RemoveAll(s: seq<string>, x: string): (r: seq<string>)
    ensures x !in r
    ensures forall y :: y != x ==> (y in r <==> y in s)
    ensures |r| <= |s|
    ensures x !in s ==> r == s
  {
    if s == [] then []
    else
      var n := |s| - 1;
      var rest := RemoveAll(s[..n], x);
      assert s == s[..n] + [s[n]];
      if s[n] == x then rest else rest + [s[n]]
  }

  lemma {:induction false} RemoveAllKeepsDistinct(s: seq<string>, x: string)
    requires NoDuplicates(s)
    ensures NoDuplicates(RemoveAll(s, x))
  {
    if s != [] {
      var n := |s| - 1;
      assert NoDuplicates(s[..n]);
      RemoveAllKeepsDistinct(s[..n], x);
      assert s[n] !in s[..n];
    }
  }

  lemma {:induction false} RemoveAllKeepsOrder(s: seq<string>, x: string, t: seq<string>)
    requires FirstSeenOrder(s, t)
    ensures FirstSeenOrder(RemoveAll(s, x), t)
  {
    if s != [] {
      var n := |s| - 1;
      var rest := RemoveAll(s[..n], x);
      assert FirstSeenOrder(s[..n], t);
      RemoveAllKeepsOrder(s[..n], x, t);
      if s[n] != x {
        forall y | y in rest ensures y in t && s[n] in t && IndexOf(t, y) < IndexOf(t, s[n]) {
          LastRanksHighest(s, t, y);
        }
        AppendKeepsOrder(rest, s[n], t);
      }
    }
  }

  lemma LastRanksHighest(s: seq<string>, t: seq<string>, y: string)
    requires FirstSeenOrder(s, t) && |s| > 0 && y in s[..|s| - 1]
    ensures y in t && s[|s| - 1] in t && IndexOf(t, y) < IndexOf(t, s[|s| - 1])
  {
    var last := |s| - 1;
    var k :| 0 <= k < last && s[..last][k] == y;
    assert s[k] == y;
    assert 0 <= k < last < |s|;
    assert s[k] in t && s[last] in t && IndexOf(t, s[k]) < IndexOf(t, s[last]);
  }

  lemma AppendKeepsOrder(r: seq<string>, z: string, t: seq<string>)
    requires FirstSeenOrder(r, t)
    requires forall y :: y in r ==> y in t && z in t && IndexOf(t, y) < IndexOf(t, z)
    ensures FirstSeenOrder(r + [z], t)
  {
    var r' := r + [z];
    forall i, j | 0 <= i < j < |r'|
      ensures r'[i] in t && r'[j] in t && IndexOf(t, r'[i]) < IndexOf(t, r'[j])
    {
      assert r'[i] == r[i];
      if j < |r| { assert r'[j] == r[j]; }
    }
  }
}
