/** Sorting and removing duplicates, as used to compare two lists as sets. */
module Sorting {

  ghost predicate Ascending(s: seq<nat>) {
    forall i, j :: 0 <= i < j < |s| ==> s[i] <= s[j]
  }

  ghost predicate StrictlyAscending(s: seq<nat>) {
    forall i, j :: 0 <= i < j < |s| ==> s[i] < s[j]
  }

  function Insert(s: seq<nat>, x: nat): (r: seq<nat>)
    ensures forall y :: y in r <==> y in s || y == x
  {
    if s == [] || x <= s[0] then [x] + s
    else
      assert s == [s[0]] + s[1..];
      [s[0]] + Insert(s[1..], x)
  }

  lemma {:induction false} InsertAscending(s: seq<nat>, x: nat)
    requires Ascending(s)
    ensures Ascending(Insert(s, x))
  {
    if s != [] && x > s[0] {
      var tail := s[1..];
      InsertAscending(tail, x);
      var r := Insert(tail, x);
      forall j | 0 <= j < |r|
        ensures s[0] <= r[j]
      {
        assert r[j] in r;
        if r[j] != x {
          var i :| 0 <= i < |tail| && tail[i] == r[j];
        }
      }
    }
  }

  method Sort(s: seq<nat>) returns (r: seq<nat>)
    ensures Ascending(r)
    ensures forall y :: y in r <==> y in s
  {
    r := [];
    for i := 0 to |s|
      invariant Ascending(r)
      invariant forall y :: y in r <==> y in s[..i]
    {
      InsertAscending(r, s[i]);
      assert s[..i + 1] == s[..i] + [s[i]];
      r := Insert(r, s[i]);
    }
    assert s[..|s|] == s;
  }

  // Keeps the first of each run of equal elements.
  method Unique(s: seq<nat>) returns (r: seq<nat>)
    requires Ascending(s)
    ensures StrictlyAscending(r)
    ensures forall y :: y in r <==> y in s
  {
    r := [];
    for i := 0 to |s|
      invariant StrictlyAscending(r)
      invariant forall y :: y in r <==> y in s[..i]
      invariant r == [] <==> i == 0
      invariant r != [] ==> r[|r| - 1] == s[i - 1]
    {
      assert s[..i + 1] == s[..i] + [s[i]];
      if r == [] || r[|r| - 1] != s[i] {
        r := r + [s[i]];
      }
    }
    assert s[..|s|] == s;
  }

  /** A set has only one strictly ascending listing. */
  lemma {:induction false} StrictlyAscendingUnique(s: seq<nat>, t: seq<nat>)
    requires StrictlyAscending(s) && StrictlyAscending(t)
    requires forall y :: y in s <==> y in t
    ensures s == t
    decreases |s|
  {
    if s == [] {
      assert forall i :: 0 <= i < |t| ==> t[i] in s;
    } else {
      assert s[0] in s;
      var i :| 0 <= i < |t| && t[i] == s[0];
      assert t[0] in t;
      var j :| 0 <= j < |s| && s[j] == t[0];
      assert s[0] == t[0];
      var s', t' := s[1..], t[1..];
      assert s == [s[0]] + s' && t == [t[0]] + t';
      forall y | y in s'
        ensures y in t'
      {
        assert y in s && y != s[0];
      }
      forall y | y in t'
        ensures y in s'
      {
        assert y in t && y != t[0];
      }
      StrictlyAscendingUnique(s', t');
    }
  }
}
