/**
 * The order in which the network tab lists interfaces: by a key made of a
 * class rank (Ethernet first, then wireless, then other "en" devices, then
 * everything else, loopback last) and the name itself, compared as Python
 * compares tuples and strings.
 */
module InterfaceOrder {

  predicate StartsWith(name: string, prefix: string) {
    |prefix| <= |name| && name[..|prefix|] == prefix
  }

  /** The class rank of an interface name: the first prefix that matches decides. */
  function Rank(name: string): (r: int)
    ensures r in {0, 1, 2, 10, 99}
  {
    if StartsWith(name, "eth") then 0
    else if StartsWith(name, "wlan") then 1
    else if StartsWith(name, "wl") then 1
    else if StartsWith(name, "en") then 2
    else if StartsWith(name, "lo") then 99
    else 10
  }

  /** Python's string order: code point by code point, a proper prefix first. */
  predicate StrLess(a: string, b: string)
    decreases |a|
  {
    if a == [] then b != []
    else if b == [] then false
    else if a[0] < b[0] then true
    else if a[0] > b[0] then false
    else StrLess(a[1..], b[1..])
  }

  /** The key order: rank first, then the name. */
  predicate KeyLess(a: string, b: string) {
    Rank(a) < Rank(b) || (Rank(a) == Rank(b) && StrLess(a, b))
  }

  lemma {:induction false} StrLessIrreflexive(a: string)
    ensures !StrLess(a, a)
    decreases |a|
  {
    if a != [] {
      StrLessIrreflexive(a[1..]);
    }
  }

  lemma {:induction false} StrLessTransitive(a: string, b: string, c: string)
    requires StrLess(a, b) && StrLess(b, c)
    ensures StrLess(a, c)
    decreases |a|
  {
    if a != [] && a[0] == b[0] && b[0] == c[0] {
      StrLessTransitive(a[1..], b[1..], c[1..]);
    }
  }

  lemma {:induction false} StrLessTotal(a: string, b: string)
    requires a != b
    ensures StrLess(a, b) || StrLess(b, a)
    decreases |a|
  {
    if a != [] && b != [] && a[0] == b[0] {
      assert a == [a[0]] + a[1..] && b == [b[0]] + b[1..];
      StrLessTotal(a[1..], b[1..]);
    }
  }

  /** The key order is a strict total order on names, so sorting by it is well defined. */
  lemma KeyLessStrictTotalOrder(a: string, b: string, c: string)
    ensures !KeyLess(a, a)
    ensures KeyLess(a, b) && KeyLess(b, c) ==> KeyLess(a, c)
    ensures a != b ==> KeyLess(a, b) || KeyLess(b, a)
  {
    StrLessIrreflexive(a);
    if KeyLess(a, b) && KeyLess(b, c) && Rank(a) == Rank(b) == Rank(c) {
      StrLessTransitive(a, b, c);
    }
    if a != b && Rank(a) == Rank(b) {
      StrLessTotal(a, b);
    }
  }

  /** A listing of interfaces in strictly increasing key order. */
  ghost predicate SortedByKey(s: seq<string>) {
    forall i, j :: 0 <= i < j < |s| ==> KeyLess(s[i], s[j])
  }

  /**
   * Sorting the interface names gives one listing only: two listings of the
   * same names that are both in key order are the same listing.
   */
  lemma {:induction false} SortedListingUnique(s: seq<string>, t: seq<string>)
    requires SortedByKey(s) && SortedByKey(t)
    requires forall x :: x in s <==> x in t
    ensures s == t
    decreases |s|
  {
    assert s != [] <==> t != [] by {
      if s != [] { assert s[0] in s; }
      if t != [] { assert t[0] in t; }
    }
    if s != [] {
      assert t[0] in t && s[0] in s;
      if s[0] != t[0] {
        var i :| 0 <= i < |s| && s[i] == t[0];
        var j :| 0 <= j < |t| && t[j] == s[0];
        assert KeyLess(s[0], t[0]) && KeyLess(t[0], s[0]);
        KeyLessStrictTotalOrder(s[0], t[0], s[0]);
      }
      assert s == [s[0]] + s[1..] && t == [t[0]] + t[1..];
      forall x ensures x in s[1..] <==> x in t[1..] {
        if x in s[1..] {
          var i :| 1 <= i < |s| && s[i] == x;
          KeyLessStrictTotalOrder(s[0], x, x);
          assert x != t[0] && x in t;
        }
        if x in t[1..] {
          var j :| 1 <= j < |t| && t[j] == x;
          KeyLessStrictTotalOrder(t[0], x, x);
          assert x != s[0] && x in s;
        }
      }
      SortedListingUnique(s[1..], t[1..]);
    }
  }

  /** Ethernet interfaces are listed before every other kind. */
  lemma EthernetFirst(a: string, b: string)
    requires StartsWith(a, "eth") && !StartsWith(b, "eth")
    ensures KeyLess(a, b)
  {
  }

  /** Loopback interfaces are listed after every other kind. */
  lemma LoopbackLast(a: string, b: string)
    requires !StartsWith(a, "lo") && StartsWith(b, "lo")
    ensures KeyLess(a, b)
  {
    assert !StartsWith(b, "eth") && !StartsWith(b, "wl") && !StartsWith(b, "en") by {
      assert b[0] == 'l' && b[1] == 'o';
    }
    assert !StartsWith(b, "wlan") by {
      assert b[0] == 'l';
    }
  }

  /** "wlan" and other "wl" names share the wireless rank and are ordered by name between themselves. */
  lemma WirelessTogether(a: string, b: string)
    requires StartsWith(a, "wlan") && StartsWith(b, "wl")
    ensures Rank(a) == Rank(b) == 1
  {
    assert !StartsWith(a, "eth") by { assert a[0] == 'w'; }
    assert !StartsWith(b, "eth") by { assert b[0] == 'w'; }
  }
}
