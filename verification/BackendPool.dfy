/**
 Adding and removing node IPs in a backend pool (pkg/provider/azure_loadbalancer_backendpool.go).  The
 address list is a slice over an array that the caller's pool shares, and removal shifts elements inside
 that array.
 */
module BackendPool {
  import opened Text
  import opened Lists

  /** ip is "" when the Go pointer is nil; without properties an address has no IP at all. */
  datatype Address = Address(name: string, hasProperties: bool, ip: string)

  // ---------- What the edits mean ----------

  /** The addresses that a removal takes out. */
  datatype Removal = Removal(ips: seq<string>, removeAll: bool, isNodeIP: bool) {
    predicate Takes(a: Address) {
      && a.hasProperties
      && (if a.ip == "" then isNodeIP else removeAll || Lower(a.ip) in FoldSet(ips))
    }

    predicate Leaves(a: Address) {
      !Takes(a)
    }
  }

  function Kept(s: seq<Address>, r: Removal): seq<Address> {
    Filter(s, r.Leaves)
  }

  predicate Has(s: seq<Address>, ip: string) {
    exists a :: a in s && a.hasProperties && a.ip == ip
  }

  /** The addresses that adding ips appends: membership is tested in the list as it was. */
  function Missing(s: seq<Address>, ips: seq<string>, names: map<string, string>): seq<Address> {
    if ips == [] then []
    else if Has(s, ips[0]) then Missing(s, ips[1..], names)
    else [Address(if ips[0] in names then names[ips[0]] else "", true, ips[0])] + Missing(s, ips[1..], names)
  }

  /** The IPs of a pool, without regard to case. */
  function IPs(s: seq<Address>): set<string> {
    set a | a in s && a.hasProperties && a.ip != "" :: Lower(a.ip)
  }

  lemma {:induction false} MissingMembers(s: seq<Address>, ips: seq<string>, names: map<string, string>)
    ensures forall a :: a in Missing(s, ips, names) ==>
              a.hasProperties && a.ip in ips && !Has(s, a.ip) && a.name == (if a.ip in names then names[a.ip] else "")
    ensures forall ip :: ip in ips && !Has(s, ip) ==> Has(Missing(s, ips, names), ip)
  {
    if ips != [] {
      MissingMembers(s, ips[1..], names);
      var rest := Missing(s, ips[1..], names);
      forall ip | ip in ips && !Has(s, ip)
        ensures Has(Missing(s, ips, names), ip)
      {
        if ip == ips[0] {
          assert Missing(s, ips, names)[0].ip == ip;
        } else {
          assert Has(rest, ip);
          var a :| a in rest && a.hasProperties && a.ip == ip;
          assert a in Missing(s, ips, names);
        }
      }
    }
  }

  /** An address with an IP goes if that is listed, or all go; one without, as NIC pools have, only with node IPs. */
  lemma RemovedExactly(s: seq<Address>, r: Removal, a: Address)
    requires a in s
    ensures a in Kept(s, r) <==>
            || !a.hasProperties
            || (a.ip == "" && !r.isNodeIP)
            || (a.ip != "" && !r.removeAll && forall x :: x in r.ips ==> !EqualFold(x, a.ip))
  {
    FilterMembers(s, r.Leaves);
    if a.ip != "" && Lower(a.ip) !in FoldSet(r.ips) {
      assert forall x :: x in r.ips ==> Lower(x) in FoldSet(r.ips);
    }
  }

  /** Removing takes the listed IPs out of the pool's set of IPs, and nothing else. */
  lemma IPsAfterRemove(s: seq<Address>, r: Removal)
    requires !r.removeAll
    ensures IPs(Kept(s, r)) == IPs(s) - FoldSet(r.ips)
  {
    FilterMembers(s, r.Leaves);
  }

  /** Adding puts the listed IPs into the pool's set of IPs, and nothing else. */
  lemma IPsAfterAdd(s: seq<Address>, ips: seq<string>, names: map<string, string>)
    ensures IPs(s + Missing(s, ips, names)) == IPs(s) + (FoldSet(ips) - {""})
  {
    var m := Missing(s, ips, names);
    MissingMembers(s, ips, names);
    assert forall x: string :: Lower(x) == "" <==> x == "" by {
      assert forall x: string :: |Lower(x)| == |x|;
    }
    forall y | y in FoldSet(ips) - {""}
      ensures y in IPs(s + m)
    {
      var x :| x in ips && Lower(x) == y;
      if Has(s, x) {
        var a :| a in s && a.hasProperties && a.ip == x;
        assert a in s + m;
      } else {
        var a :| a in m && a.hasProperties && a.ip == x;
        assert a in s + m;
      }
    }
    forall y | y in IPs(s)
      ensures y in IPs(s + m)
    {
      var a :| a in s && a.hasProperties && a.ip != "" && Lower(a.ip) == y;
      assert a in s + m;
    }
  }

  // ---------- Duplicates ----------

  predicate DistinctIPs(s: seq<Address>) {
    forall i, j :: 0 <= i < j < |s| && s[i].hasProperties && s[j].hasProperties ==> s[i].ip != s[j].ip
  }

  predicate Distinct(ips: seq<string>) {
    forall i, j :: 0 <= i < j < |ips| ==> ips[i] != ips[j]
  }

  /** The part of the list that is not in the pool yet. */
  function Absent(s: seq<Address>, ips: seq<string>): seq<string> {
    if ips == [] then []
    else if Has(s, ips[0]) then Absent(s, ips[1..])
    else [ips[0]] + Absent(s, ips[1..])
  }

  lemma {:induction false} MissingIsAbsent(s: seq<Address>, ips: seq<string>, names: map<string, string>)
    ensures var m, b := Missing(s, ips, names), Absent(s, ips);
            |m| == |b| && forall i :: 0 <= i < |m| ==> m[i].hasProperties && m[i].ip == b[i]
  {
    if ips != [] {
      MissingIsAbsent(s, ips[1..], names);
    }
  }

  /** A pool without duplicates stays so exactly when no absent IP is listed twice. */
  lemma AddKeepsDistinct(s: seq<Address>, ips: seq<string>, names: map<string, string>)
    requires DistinctIPs(s)
    ensures DistinctIPs(s + Missing(s, ips, names)) <==> Distinct(Absent(s, ips))
  {
    var m, b := Missing(s, ips, names), Absent(s, ips);
    MissingIsAbsent(s, ips, names);
    MissingMembers(s, ips, names);
    var t := s + m;
    if Distinct(b) {
      forall i, j | 0 <= i < j < |t| && t[i].hasProperties && t[j].hasProperties
        ensures t[i].ip != t[j].ip
      {
        if i < |s| <= j {
          assert m[j - |s|] in m && s[i] in s;
        } else if |s| <= i {
          assert b[i - |s|] != b[j - |s|];
        }
      }
    } else {
      var i, j :| 0 <= i < j < |b| && b[i] == b[j];
      assert t[|s| + i].ip == t[|s| + j].ip;
    }
  }

  /** A list that names a new IP twice, as two endpoints on one node give, puts it into the pool twice. */
  lemma AddedTwice(ip: string, names: map<string, string>)
    ensures DistinctIPs([]) && !DistinctIPs([] + Missing([], [ip, ip], names))
  {
    AddKeepsDistinct([], [ip, ip], names);
    assert [ip, ip][1..] == [ip] && [ip][1..] == [];
    assert Absent([], [ip]) == [ip];
    var absent := Absent([], [ip, ip]);
    assert absent == [ip] + [ip];
    assert absent[0] == absent[1];
  }

  // ---------- The edits in place ----------

  /** append of one element to a[..n], of which the first len elements are also seen by others. */
  method Append(a: array<Address>, n: nat, x: Address, ghost len: nat) returns (b: array<Address>, m: nat)
    requires len <= n <= a.Length
    modifies a
    ensures (b == a || fresh(b)) && m == n + 1 <= b.Length
    ensures b[..m] == old(a[..n]) + [x] && a[..len] == old(a[..len])
  {
    if n < a.Length {
      a[n] := x;
      return a, n + 1;
    }
    var s := a[..];
    b := new Address[2 * n + 1](i requires 0 <= i => if i < |s| then s[i] else x);
    m := n + 1;
  }

  /** The properties a pool value points to; the list is arr[..len], absent when addresses is false. */
  class BackendAddressPool {
    var hasProperties: bool
    var vnet: Option<string>
    var addresses: bool
    var arr: array<Address>
    var len: nat

    ghost predicate Valid()
      reads this
    {
      len <= arr.Length
    }

    function View(): (s: seq<Address>)
      requires Valid()
      reads this, arr
    {
      arr[..len]
    }

    constructor (s: seq<Address>)
      ensures Valid() && View() == s && hasProperties && addresses && vnet == None && fresh(arr)
    {
      hasProperties, addresses, vnet := true, true, None;
      len := |s|;
      arr := new Address[|s|](i requires 0 <= i < |s| => s[i]);
    }

    method HasIPAddress(ip: string) returns (found: bool)
      requires Valid()
      ensures found == (addresses && Has(View(), ip))
    {
      if !addresses {
        return false;
      }
      for k := 0 to len
        invariant !Has(arr[..k], ip)
      {
        if arr[k].hasProperties && arr[k].ip == ip {
          assert View()[k] == arr[k];
          return true;
        }
        assert arr[..k + 1] == arr[..k] + [arr[k]];
      }
      return false;
    }

    /**
     Appends the missing IPs as append does: into spare capacity behind the list if there is any, else into a
     larger copy.  The list that is scanned, arr[..len], is not changed.
     */
    method AppendMissing(names: map<string, string>, ips: seq<string>)
      returns (a: array<Address>, n: nat, changed: bool)
      requires Valid() && addresses
      modifies arr
      ensures (a == arr || fresh(a)) && n <= a.Length
      ensures View() == old(View())
      ensures a[..n] == View() + Missing(View(), ips, names)
      ensures changed == (Missing(View(), ips, names) != [])
    {
      ghost var s := View();
      changed, a, n := false, arr, len;
      for k := 0 to |ips|
        invariant (a == arr || fresh(a)) && len <= n <= a.Length
        invariant View() == s && a[..n] == s + Missing(s, ips[..k], names)
        invariant changed == (Missing(s, ips[..k], names) != [])
      {
        MissingSnoc(s, ips[..k], ips[k], names);
        assert ips[..k] + [ips[k]] == ips[..k + 1];
        var has := HasIPAddress(ips[k]);
        if !has {
          a, n := Append(a, n, Address(if ips[k] in names then names[ips[k]] else "", true, ips[k]), len);
          changed := true;
        }
      }
      assert ips[..|ips|] == ips;
    }

    method AddNodeIPAddresses(vnetID: string, names: map<string, string>, ips: seq<string>) returns (changed: bool)
      requires Valid()
      modifies this, arr
      ensures Valid() && hasProperties && addresses && (arr == old(arr) || fresh(arr))
      ensures vnet == if old(hasProperties && vnet.Some?) then old(vnet) else Some(vnetID)
      ensures old(arr)[..old(len)] == old(View())
      ensures var before := if old(hasProperties && addresses) then old(View()) else [];
              var added := Missing(before, ips, names);
              View() == before + added && changed == (added != [])
    {
      if !hasProperties || vnet.None? {
        vnet := Some(vnetID);
      }
      if !hasProperties || !addresses {
        hasProperties, addresses, len := true, true, 0;
        arr := new Address[0];
      }
      var a, n;
      a, n, changed := AppendMissing(names, ips);
      arr, len := a, n;
    }

    /**
     The backward removal equals filtering.  When it would empty a pool that may not be empty, the caller's
     list is untouched, element by element, although removal works inside the shared array.
     */
    method RemoveNodeIPAddresses(
        ips: seq<string>, removeAll: bool, mayBeEmpty: bool, isNodeIP: bool)
      returns (changed: bool)
      requires Valid()
      modifies this`len, arr
      ensures Valid()
      ensures !(hasProperties && addresses) ==> !changed && len == old(len) && arr[..] == old(arr[..])
      ensures hasProperties && addresses ==>
                var kept := Kept(old(View()), Removal(ips, removeAll, isNodeIP));
                if kept == [] && !removeAll && !mayBeEmpty then
                  !changed && len == old(len) && arr[..] == old(arr[..])
                else
                  View() == kept && changed == (kept != old(View()))
    {
      if !hasProperties || !addresses {
        return false;
      }
      var r := Removal(ips, removeAll, isNodeIP);
      FilterMembers(View(), r.Leaves);
      var n := FilterInPlace(arr, len, r.Leaves);
      changed := n != len;
      if n == 0 && !removeAll && !mayBeEmpty {
        changed := false;
      } else if changed {
        len := n;
      }
    }
  }

  lemma {:induction false} MissingSnoc(s: seq<Address>, ips: seq<string>, ip: string, names: map<string, string>)
    ensures Missing(s, ips + [ip], names) ==
            Missing(s, ips, names) +
            (if Has(s, ip) then [] else [Address(if ip in names then names[ip] else "", true, ip)])
  {
    if ips == [] {
      assert ips + [ip] == [ip];
    } else {
      assert (ips + [ip])[1..] == ips[1..] + [ip];
      MissingSnoc(s, ips[1..], ip, names);
    }
  }
}
