/** Named partials: byte-wise name order, ordered maps, and the lookup both partial sources must agree on. */
module Partials {
  import opened Base
  import opened Template

  /** The order of `std::map<std::string, …>` and of `std::string_view`: byte-wise lexicographic. */
  predicate Less(a: Bytes, b: Bytes) {
    b != [] && (a == [] || a[0] < b[0] || (a[0] == b[0] && Less(a[1..], b[1..])))
  }

  /** The strings agree up to position k, where the first has the smaller byte or has ended already. */
  predicate SmallerAt(a: Bytes, b: Bytes, k: nat) {
    k <= |a| && k < |b| && (forall i :: 0 <= i < k ==> a[i] == b[i]) && (k < |a| ==> a[k] < b[k])
  }

  /** The first difference decides the order; a proper prefix comes first. */
  lemma {:induction false} FirstDifferenceDecides(a: Bytes, b: Bytes)
    ensures Less(a, b) <==> exists k: nat :: SmallerAt(a, b, k)
  {
    if b != [] && a != [] && a[0] == b[0] {
      FirstDifferenceDecides(a[1..], b[1..]);
      forall k: nat | SmallerAt(a[1..], b[1..], k)
        ensures SmallerAt(a, b, k + 1)
      {
        assert forall i :: 1 <= i < k + 1 ==> a[i] == a[1..][i - 1] && b[i] == b[1..][i - 1];
      }
      forall k: nat | SmallerAt(a, b, k)
        ensures k > 0 && SmallerAt(a[1..], b[1..], k - 1)
      {
      }
    } else if b != [] && (a == [] || a[0] < b[0]) {
      assert SmallerAt(a, b, 0);
    }
  }

  lemma {:induction false} LessIrreflexive(a: Bytes)
    ensures !Less(a, a)
  {
    if a != [] {
      LessIrreflexive(a[1..]);
    }
  }

  lemma {:induction false} LessTransitive(a: Bytes, b: Bytes, c: Bytes)
    requires Less(a, b) && Less(b, c)
    ensures Less(a, c)
  {
    if a != [] && a[0] == b[0] == c[0] {
      LessTransitive(a[1..], b[1..], c[1..]);
    }
  }

  lemma {:induction false} LessTotal(a: Bytes, b: Bytes)
    ensures Less(a, b) || a == b || Less(b, a)
  {
    if a != [] && b != [] && a[0] == b[0] {
      LessTotal(a[1..], b[1..]);
      assert a == [a[0]] + a[1..] && b == [b[0]] + b[1..];
    }
  }

  /** One entry of an ordered map; a `Null` root is an empty owning pointer. */
  datatype Entry = Entry(name: Bytes, root: Node)

  predicate Ascending(m: seq<Entry>) {
    forall i, j :: 0 <= i < j < |m| ==> Less(m[i].name, m[j].name)
  }

  /** The tree found under a name; `Null` when there is no entry or the entry owns nothing. */
  function Find(m: seq<Entry>, name: Bytes): Node {
    if m == [] then Null else if m[0].name == name then m[0].root else Find(m[1..], name)
  }

  predicate Contains(m: seq<Entry>, name: Bytes) {
    exists i :: 0 <= i < |m| && m[i].name == name
  }

  /** Insertion or assignment at the position the order prescribes. */
  function Assign(m: seq<Entry>, e: Entry): (r: seq<Entry>)
    requires Ascending(m)
    ensures |m| <= |r| <= |m| + 1
  {
    if m == [] then [e]
    else if m[0].name == e.name then [e] + m[1..]
    else if Less(e.name, m[0].name) then [e] + m
    else [m[0]] + Assign(m[1..], e)
  }

  lemma {:induction false} AssignMembers(m: seq<Entry>, e: Entry)
    requires Ascending(m)
    ensures forall x :: x in Assign(m, e) ==> x == e || x in m
  {
    if m != [] && m[0].name != e.name && !Less(e.name, m[0].name) {
      AssignMembers(m[1..], e);
    }
  }

  lemma {:induction false} AssignAscending(m: seq<Entry>, e: Entry)
    requires Ascending(m)
    ensures Ascending(Assign(m, e))
  {
    var r := Assign(m, e);
    if m == [] {
    } else if m[0].name == e.name {
      forall i, j | 0 <= i < j < |r|
        ensures Less(r[i].name, r[j].name)
      {
        assert r[i].name == m[i].name && r[j].name == m[j].name;
      }
    } else if Less(e.name, m[0].name) {
      forall i, j | 0 <= i < j < |r|
        ensures Less(r[i].name, r[j].name)
      {
        if i == 0 && j > 1 {
          LessTransitive(e.name, m[0].name, m[j - 1].name);
        }
      }
    } else {
      LessTotal(m[0].name, e.name);
      AssignAscending(m[1..], e);
      AssignMembers(m[1..], e);
      var t := Assign(m[1..], e);
      forall i, j | 0 <= i < j < |r|
        ensures Less(r[i].name, r[j].name)
      {
        if i == 0 {
          assert r[j] == t[j - 1] && t[j - 1] in t;
        } else {
          assert Less(t[i - 1].name, t[j - 1].name);
        }
      }
    }
  }

  lemma {:induction false} NotBefore(m: seq<Entry>, name: Bytes)
    requires Ascending(m) && (m != [] ==> Less(name, m[0].name))
    ensures Find(m, name) == Null
  {
    if m != [] {
      LessIrreflexive(name);
      if |m| > 1 {
        LessTransitive(name, m[0].name, m[1].name);
      }
      NotBefore(m[1..], name);
    }
  }

  lemma {:induction false} FindAssigned(m: seq<Entry>, e: Entry, name: Bytes)
    requires Ascending(m)
    ensures Find(Assign(m, e), name) == if name == e.name then e.root else Find(m, name)
  {
    if m != [] && m[0].name != e.name && !Less(e.name, m[0].name) {
      FindAssigned(m[1..], e, name);
      assert Assign(m, e)[1..] == Assign(m[1..], e);
    } else if m != [] {
      assert Assign(m, e)[1..] == if m[0].name == e.name then m[1..] else m;
    }
  }

  lemma {:induction false} FindAt(m: seq<Entry>, i: nat)
    requires Ascending(m) && i < |m|
    ensures Find(m, m[i].name) == m[i].root
  {
    if i > 0 {
      LessIrreflexive(m[i].name);
      assert Less(m[0].name, m[i].name);
      FindAt(m[1..], i - 1);
    }
  }

  /** The bytes of all names. */
  function NamesSize(m: seq<Entry>): nat {
    if m == [] then 0 else |m[0].name| + NamesSize(m[1..])
  }

  function Roots(m: seq<Entry>): (r: seq<Node>)
    ensures |r| == |m|
  {
    if m == [] then [] else [m[0].root] + Roots(m[1..])
  }

  /** Entries that own a tree override the base; empty ones leave it alone. */
  function Overlay(base: seq<Entry>, m: seq<Entry>): seq<Entry>
    requires Ascending(base)
    decreases |m|
  {
    if m == [] then base
    else if m[0].root.Null? then Overlay(base, m[1..])
    else
      AssignAscending(base, m[0]);
      Overlay(Assign(base, m[0]), m[1..])
  }

  /** The partial table of an archive: external partials over the root's own, in name order. */
  function Effective(fallback: seq<Entry>, overriding: seq<Entry>): seq<Entry> {
    OverlayAscending([], fallback);
    Overlay(Overlay([], fallback), overriding)
  }

  lemma {:induction false} OverlayAscending(base: seq<Entry>, m: seq<Entry>)
    requires Ascending(base)
    ensures Ascending(Overlay(base, m))
    decreases |m|
  {
    if m == [] {
    } else if m[0].root.Null? {
      OverlayAscending(base, m[1..]);
    } else {
      AssignAscending(base, m[0]);
      OverlayAscending(Assign(base, m[0]), m[1..]);
    }
  }

  /** Assigning to a name adds an entry exactly when the name is new. */
  lemma {:induction false} AssignSize(m: seq<Entry>, e: Entry)
    requires Ascending(m)
    ensures if Contains(m, e.name) then |Assign(m, e)| == |m| && NamesSize(Assign(m, e)) == NamesSize(m)
            else |Assign(m, e)| == |m| + 1 && NamesSize(Assign(m, e)) == NamesSize(m) + |e.name|
  {
    var r := Assign(m, e);
    if m == [] {
      assert r[1..] == [];
    } else if m[0].name == e.name {
      assert r[1..] == m[1..];
    } else if Less(e.name, m[0].name) {
      assert r[1..] == m;
      LessIrreflexive(e.name);
      forall i | 0 <= i < |m|
        ensures m[i].name != e.name
      {
        if i > 0 {
          LessTransitive(e.name, m[0].name, m[i].name);
        }
      }
    } else {
      AssignSize(m[1..], e);
      assert r[1..] == Assign(m[1..], e);
      if Contains(m, e.name) {
        var i :| 0 <= i < |m| && m[i].name == e.name;
        assert m[1..][i - 1].name == e.name;
      } else {
        forall i | 0 <= i < |m[1..]|
          ensures m[1..][i].name != e.name
        {
          assert m[i + 1].name != e.name;
        }
      }
    }
  }

  lemma {:induction false} OverlayGrows(base: seq<Entry>, m: seq<Entry>)
    requires Ascending(base)
    ensures |base| <= |Overlay(base, m)| && NamesSize(base) <= NamesSize(Overlay(base, m))
    decreases |m|
  {
    if m == [] {
    } else if m[0].root.Null? {
      OverlayGrows(base, m[1..]);
    } else {
      AssignAscending(base, m[0]);
      AssignSize(base, m[0]);
      OverlayGrows(Assign(base, m[0]), m[1..]);
    }
  }

  lemma {:induction false} OverlayFinds(base: seq<Entry>, m: seq<Entry>, name: Bytes)
    requires Ascending(base) && Ascending(m)
    ensures Find(Overlay(base, m), name) == if Find(m, name).Node? then Find(m, name) else Find(base, name)
    decreases |m|
  {
    if m != [] {
      if m[0].name == name {
        if |m| > 1 {
          NotBefore(m[1..], name);
        }
      }
      if m[0].root.Null? {
        OverlayFinds(base, m[1..], name);
      } else {
        AssignAscending(base, m[0]);
        OverlayFinds(Assign(base, m[0]), m[1..], name);
        FindAssigned(base, m[0], name);
      }
    }
  }

  /** Looking a name up in the effective table is the renderer's lookup: external first, then the root's own partials,
      an entry that owns nothing falling through. */
  lemma {:induction false} EffectiveLookup(fallback: seq<Entry>, overriding: seq<Entry>, name: Bytes)
    requires Ascending(fallback) && Ascending(overriding)
    ensures Find(Effective(fallback, overriding), name)
         == if Find(overriding, name).Node? then Find(overriding, name)
            else if Find(fallback, name).Node? then Find(fallback, name) else Null
  {
    OverlayAscending([], fallback);
    OverlayFinds([], fallback, name);
    OverlayFinds(Overlay([], fallback), overriding, name);
  }

  lemma {:induction false} OverlayOwns(base: seq<Entry>, m: seq<Entry>)
    requires Ascending(base) && forall e :: e in base ==> e.root.Node?
    ensures forall e :: e in Overlay(base, m) ==> e.root.Node?
    decreases |m|
  {
    if m == [] {
    } else if m[0].root.Null? {
      OverlayOwns(base, m[1..]);
    } else {
      AssignAscending(base, m[0]);
      AssignMembers(base, m[0]);
      OverlayOwns(Assign(base, m[0]), m[1..]);
    }
  }
}
