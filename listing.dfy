/**
 * A site directory's listing: its entries, looked up by name, filtered by a
 * test on the name, and sorted as `sorted(site_files, reverse=True)` sorts them.
 */
module Listing {
  import opened Wrappers
  import opened NameOrder
  import opened EntryKinds

  /** One file of a site directory: its name and its contents. */
  datatype Entry = Entry(name: string, text: string)

  /** In a directory listing a name determines the entry. */
  ghost predicate UniqueNames(s: seq<Entry>) {
    forall a, b :: a in s && b in s && a.name == b.name ==> a == b
  }

  /** Reading the file `name` of the directory: its contents, or None when there is no such entry. */
  function Lookup(s: seq<Entry>, name: string): (r: Option<string>)
    ensures r.None? <==> forall i :: 0 <= i < |s| ==> s[i].name != name
    ensures r.Some? ==> Entry(name, r.value) in s
  {
    if s == [] then None
    else if s[0].name == name then Some(s[0].text)
    else Lookup(s[1..], name)
  }

  /** The entries of the given kind, in their original order. */
  function Select(s: seq<Entry>, kind: Kind): (r: seq<Entry>)
    ensures forall e :: e in r ==> OfKind(kind, e.name)
    decreases |s|
  {
    if s == [] then []
    else Select(s[..|s| - 1], kind) + (if OfKind(kind, s[|s| - 1].name) then [s[|s| - 1]] else [])
  }

  lemma {:induction false} SelectAppend(s: seq<Entry>, e: Entry, kind: Kind)
    ensures Select(s + [e], kind) == Select(s, kind) + (if OfKind(kind, e.name) then [e] else [])
  {
    assert (s + [e])[..|s|] == s;
  }

  /** Selecting from one more entry of a listing's prefix. */
  lemma SelectPrefix(s: seq<Entry>, i: nat, kind: Kind)
    requires i < |s|
    ensures Select(s[..i + 1], kind) == Select(s[..i], kind) + (if OfKind(kind, s[i].name) then [s[i]] else [])
  {
    assert s[..i + 1] == s[..i] + [s[i]];
    SelectAppend(s[..i], s[i], kind);
  }

  /** Selection keeps exactly the copies of the entries that are of the kind. */
  lemma {:induction false} SelectMultiset(s: seq<Entry>, kind: Kind, e: Entry)
    ensures multiset(Select(s, kind))[e] == if OfKind(kind, e.name) then multiset(s)[e] else 0
    decreases |s|
  {
    if s != [] {
      var init, last := s[..|s| - 1], s[|s| - 1];
      SelectMultiset(init, kind, e);
      assert s == init + [last];
      assert multiset(s) == multiset(init) + multiset{last};
      SelectAppend(init, last, kind);
      var added := if OfKind(kind, last.name) then [last] else [];
      assert Select(s, kind) == Select(init, kind) + added;
      assert multiset(Select(s, kind)) == multiset(Select(init, kind)) + multiset(added);
    }
  }

  /** Selecting from two permutations of one listing gives permutations of one another. */
  lemma SelectPermutation(s: seq<Entry>, t: seq<Entry>, kind: Kind)
    requires multiset(s) == multiset(t)
    ensures multiset(Select(s, kind)) == multiset(Select(t, kind))
  {
    forall e ensures multiset(Select(s, kind))[e] == multiset(Select(t, kind))[e] {
      SelectMultiset(s, kind, e);
      SelectMultiset(t, kind, e);
    }
  }

  /** An entry is selected exactly when it is in the listing and is of the kind. */
  lemma SelectMembership(s: seq<Entry>, kind: Kind, e: Entry)
    ensures e in Select(s, kind) <==> e in s && OfKind(kind, e.name)
  {
    SelectMultiset(s, kind, e);
    assert e in Select(s, kind) <==> e in multiset(Select(s, kind));
  }

  /** Selection keeps the order: it yields a subsequence, so a descending listing stays descending. */
  lemma {:induction false} SelectDescending(s: seq<Entry>, kind: Kind)
    requires Descending(s)
    ensures Descending(Select(s, kind))
    decreases |s|
  {
    if s != [] {
      var init, last := s[..|s| - 1], s[|s| - 1];
      SelectDescending(init, kind);
      if OfKind(kind, last.name) {
        var r := Select(init, kind);
        forall e | e in r ensures !Less(e.name, last.name) {
          SelectMembership(init, kind, e);
          var i :| 0 <= i < |init| && init[i] == e;
          assert s[i] == e;
        }
        SnocDescending(r, last);
      }
    }
  }

  /** An entry not above any entry of a descending sequence can go after it. */
  lemma SnocDescending(r: seq<Entry>, x: Entry)
    requires Descending(r)
    requires forall y :: y in r ==> !Less(y.name, x.name)
    ensures Descending(r + [x])
  {
    var t := r + [x];
    forall i, j | 0 <= i < j < |t| ensures !Less(t[i].name, t[j].name) {
      assert t[i] == r[i];
      if j == |r| {
        assert r[i] in r;
      } else {
        assert t[j] == r[j];
      }
    }
  }

  /** Non-increasing by name: the order `sorted(..., reverse=True)` leaves the entries in. */
  ghost predicate Descending(s: seq<Entry>) {
    forall i, j {:trigger Less(s[i].name, s[j].name)} :: 0 <= i < j < |s| ==> !Less(s[i].name, s[j].name)
  }

  /** An entry not below any entry of a descending sequence can go in front of it. */
  lemma ConsDescending(x: Entry, r: seq<Entry>)
    requires Descending(r)
    requires forall y :: y in r ==> !Less(x.name, y.name)
    ensures Descending([x] + r)
  {
    var t := [x] + r;
    forall i, j | 0 <= i < j < |t| ensures !Less(t[i].name, t[j].name) {
      assert t[j] == r[j - 1];
      if i == 0 {
        assert r[j - 1] in r;
      } else {
        assert t[i] == r[i - 1];
      }
    }
  }

  /** The head of a descending sequence is not below any entry of its tail. */
  lemma HeadAboveTail(s: seq<Entry>)
    requires s != [] && Descending(s)
    ensures forall y :: y in s[1..] ==> !Less(s[0].name, y.name)
  {
    forall y | y in s[1..] ensures !Less(s[0].name, y.name) {
      var j :| 0 <= j < |s[1..]| && s[1..][j] == y;
      assert s[j + 1] == y;
    }
  }

  /** An entry not below the head of a descending sequence is not below any of its entries. */
  lemma AboveHead(e: Entry, s: seq<Entry>)
    requires s != [] && Descending(s)
    requires !Less(e.name, s[0].name)
    ensures forall y :: y in s ==> !Less(e.name, y.name)
  {
    HeadAboveTail(s);
    forall y | y in s ensures !Less(e.name, y.name) {
      if y != s[0] {
        assert y in s[1..] by { assert s == [s[0]] + s[1..]; }
        AtLeastTransitive(e.name, s[0].name, y.name);
      }
    }
  }

  /** What is not below the tail nor below `e` is not below the tail with `e` inserted. */
  lemma AboveInserted(x: Entry, e: Entry, t: seq<Entry>, rest: seq<Entry>)
    requires forall y :: y in t ==> !Less(x.name, y.name)
    requires Less(e.name, x.name)
    requires multiset(rest) == multiset(t) + multiset{e}
    ensures forall y :: y in rest ==> !Less(x.name, y.name)
  {
    forall y | y in rest ensures !Less(x.name, y.name) {
      assert y in multiset(rest);
      if y == e {
        LessAsymmetric(e.name, x.name);
      } else {
        assert y in multiset(t);
      }
    }
  }

  /** `e` among the entries of a descending sequence, before the first one whose name is not above `e`'s. */
  function Insert(e: Entry, s: seq<Entry>): (r: seq<Entry>)
    requires Descending(s)
    ensures Descending(r)
    ensures multiset(r) == multiset(s) + multiset{e}
  {
    if s == [] then [e]
    else if !Less(e.name, s[0].name) then
      AboveHead(e, s);
      ConsDescending(e, s);
      [e] + s
    else
      var rest := Insert(e, s[1..]);
      HeadAboveTail(s);
      AboveInserted(s[0], e, s[1..], rest);
      ConsDescending(s[0], rest);
      assert s == [s[0]] + s[1..];
      [s[0]] + rest
  }

  /** `sorted(entries, reverse=True)`: the entries, by name from the greatest to the least. */
  function SortDesc(s: seq<Entry>): (r: seq<Entry>)
    ensures Descending(r)
    ensures multiset(r) == multiset(s)
  {
    if s == [] then []
    else
      assert s == [s[0]] + s[1..];
      Insert(s[0], SortDesc(s[1..]))
  }

  /** The first entry of a descending sequence has the greatest name. */
  lemma FirstIsGreatest(a: seq<Entry>, x: Entry)
    requires Descending(a) && x in a
    ensures !Less(a[0].name, x.name)
  {
    var i :| 0 <= i < |a| && a[i] == x;
    if i == 0 { LessIrreflexive(x.name); }
  }

  /** Removing the first entry keeps the names unique. */
  lemma TailUniqueNames(a: seq<Entry>)
    requires a != [] && UniqueNames(a)
    ensures UniqueNames(a[1..])
  {
    forall x, y | x in a[1..] && y in a[1..] && x.name == y.name ensures x == y {
      assert x in a && y in a;
    }
  }

  /** Two permutations with the same first entry have permuted tails. */
  lemma SameTails(a: seq<Entry>, b: seq<Entry>)
    requires a != [] && b != [] && a[0] == b[0]
    requires multiset(a) == multiset(b)
    ensures multiset(a[1..]) == multiset(b[1..])
  {
    assert a == [a[0]] + a[1..] && b == [b[0]] + b[1..];
    assert multiset(a[1..]) == multiset(a) - multiset{a[0]};
    assert multiset(b[1..]) == multiset(b) - multiset{b[0]};
  }

  /**
   * Two descending arrangements of one listing with unique names are the same
   * sequence: the order of `sorted` does not depend on the order of `iterdir`.
   */
  lemma {:induction false} DescendingUnique(a: seq<Entry>, b: seq<Entry>)
    requires Descending(a) && Descending(b)
    requires multiset(a) == multiset(b)
    requires UniqueNames(a)
    ensures a == b
    decreases |a|
  {
    if a == [] {
      assert |b| == |multiset(b)| == 0;
    } else {
      assert |b| == |multiset(b)| == |multiset(a)| == |a|;
      assert a[0] in multiset(b) && b[0] in multiset(a);
      FirstIsGreatest(a, b[0]);
      FirstIsGreatest(b, a[0]);
      LessAntisymmetric(a[0].name, b[0].name);
      assert a[0] == b[0];
      assert a == [a[0]] + a[1..] && b == [b[0]] + b[1..];
      SameTails(a, b);
      assert Descending(a[1..]) && Descending(b[1..]);
      TailUniqueNames(a);
      DescendingUnique(a[1..], b[1..]);
    }
  }

  /** Sorting two listings of the same directory gives the same sequence. */
  lemma SortIgnoresListingOrder(s: seq<Entry>, t: seq<Entry>)
    requires multiset(s) == multiset(t)
    requires UniqueNames(s)
    ensures SortDesc(s) == SortDesc(t)
  {
    var a, b := SortDesc(s), SortDesc(t);
    assert UniqueNames(a) by {
      forall x, y | x in a && y in a && x.name == y.name ensures x == y {
        assert x in multiset(a) && y in multiset(a);
        assert x in s && y in s;
      }
    }
    DescendingUnique(a, b);
  }

  /** Reading a file by name gives the same result in two listings of the same directory. */
  lemma LookupIgnoresListingOrder(s: seq<Entry>, t: seq<Entry>, name: string)
    requires multiset(s) == multiset(t)
    requires UniqueNames(s)
    ensures Lookup(s, name) == Lookup(t, name)
  {
    var r1, r2 := Lookup(s, name), Lookup(t, name);
    forall e ensures e in s <==> e in t {
      assert e in s <==> e in multiset(s);
      assert e in t <==> e in multiset(t);
    }
    if r1.Some? && r2.Some? {
      assert Entry(name, r2.value) in s;
    }
  }
}
