/** The string key by which worlds are grouped into initial blocks: the names of
    the true propositions, sorted and concatenated without a separator. */
module ValuationKey {

  // Lexicographic order on strings, as std::sort uses it.
  predicate LexLe(a: string, b: string) {
    || |a| == 0
    || (|b| > 0 && (a[0] < b[0] || (a[0] == b[0] && LexLe(a[1..], b[1..]))))
  }

  lemma {:induction false} LexLeTotal(a: string, b: string)
    ensures LexLe(a, b) || LexLe(b, a)
  {
    if |a| > 0 && |b| > 0 && a[0] == b[0] {
      LexLeTotal(a[1..], b[1..]);
    }
  }

  lemma {:induction false} LexLeAntisymmetric(a: string, b: string)
    requires LexLe(a, b) && LexLe(b, a)
    ensures a == b
  {
    if |a| > 0 && |b| > 0 {
      LexLeAntisymmetric(a[1..], b[1..]);
      assert a == [a[0]] + a[1..];
      assert b == [b[0]] + b[1..];
    }
  }

  lemma {:induction false} LexLeTransitive(a: string, b: string, c: string)
    requires LexLe(a, b) && LexLe(b, c)
    ensures LexLe(a, c)
  {
    if |a| > 0 && a[0] == b[0] == c[0] {
      LexLeTransitive(a[1..], b[1..], c[1..]);
    }
  }

  ghost predicate IsLeast(x: string, names: set<string>) {
    x in names && forall y :: y in names ==> LexLe(x, y)
  }

  lemma {:induction false} LeastExists(names: set<string>)
    requires names != {}
    ensures exists x :: IsLeast(x, names)
    decreases |names|
  {
    var p :| p in names;
    LexLeTotal(p, p);
    if names == {p} {
      assert IsLeast(p, names);
    } else {
      var rest := names - {p};
      LeastExists(rest);
      var q :| IsLeast(q, rest);
      LexLeTotal(p, q);
      if LexLe(p, q) {
        forall y | y in names
          ensures LexLe(p, y)
        {
          if y != p {
            LexLeTransitive(p, q, y);
          }
        }
        assert IsLeast(p, names);
      } else {
        assert IsLeast(q, names);
      }
    }
  }

  ghost function SortedNames(names: set<string>): (sorted: seq<string>) {
    if names == {} then []
    else
      LeastExists(names);
      var x :| IsLeast(x, names);
      [x] + SortedNames(names - {x})
  }

  function Concat(names: seq<string>): (s: string) {
    if names == [] then "" else Concat(names[..|names| - 1]) + names[|names| - 1]
  }

  ghost function Key(props: set<string>): (key: string) {
    Concat(SortedNames(props))
  }

  // ----- Computing the key

  ghost predicate StrictlySorted(names: seq<string>) {
    forall i, j :: 0 <= i < j < |names| ==> LexLe(names[i], names[j]) && names[i] != names[j]
  }

  ghost function Names(names: seq<string>): (s: set<string>) {
    set n | n in names
  }

  lemma NamesCons(x: string, names: seq<string>)
    ensures Names([x] + names) == {x} + Names(names)
  {
    assert forall n :: n in [x] + names <==> n == x || n in names;
  }

  lemma NamesSnoc(names: seq<string>, x: string)
    ensures Names(names + [x]) == Names(names) + {x}
  {
    assert forall n :: n in names + [x] <==> n in names || n == x;
  }

  // The head of a strictly sorted sequence is the least of its elements.
  lemma SortedHeadLeast(names: seq<string>, x: string)
    requires StrictlySorted(names) && names != [] && IsLeast(x, Names(names))
    ensures x == names[0]
  {
    assert names[0] in Names(names);
    assert x in names;
    var i :| 0 <= i < |names| && names[i] == x;
    if i > 0 {
      LexLeAntisymmetric(x, names[0]);
    }
  }

  lemma SortedTail(names: seq<string>)
    requires StrictlySorted(names) && names != []
    ensures StrictlySorted(names[1..]) && Names(names[1..]) == Names(names) - {names[0]}
  {
    var head, tail := names[0], names[1..];
    assert names == [head] + tail;
    NamesCons(head, tail);
    forall i | 0 <= i < |tail|
      ensures tail[i] != head
    {
      assert tail[i] == names[i + 1];
    }
  }

  /** Strict sorting leaves no freedom: it determines the sequence from its elements. */
  lemma {:induction false} SortedIsUnique(names: seq<string>)
    requires StrictlySorted(names)
    ensures names == SortedNames(Names(names))
    decreases |names|
  {
    if names == [] {
      assert Names(names) == {};
    } else {
      var all := Names(names);
      assert names[0] in all;
      LeastExists(all);
      var x :| IsLeast(x, all) && SortedNames(all) == [x] + SortedNames(all - {x});
      SortedHeadLeast(names, x);
      SortedTail(names);
      SortedIsUnique(names[1..]);
      assert names == [x] + names[1..];
    }
  }

  function Insert(sorted: seq<string>, x: string): (r: seq<string>) {
    if sorted == [] || LexLe(x, sorted[0]) then [x] + sorted
    else [sorted[0]] + Insert(sorted[1..], x)
  }

  lemma {:induction false} InsertNames(sorted: seq<string>, x: string)
    ensures Names(Insert(sorted, x)) == Names(sorted) + {x}
  {
    if sorted == [] || LexLe(x, sorted[0]) {
    } else {
      InsertNames(sorted[1..], x);
      assert sorted == [sorted[0]] + sorted[1..];
      NamesCons(sorted[0], sorted[1..]);
      NamesCons(sorted[0], Insert(sorted[1..], x));
    }
  }

  lemma {:induction false} InsertSorts(sorted: seq<string>, x: string)
    requires StrictlySorted(sorted) && x !in sorted
    ensures StrictlySorted(Insert(sorted, x))
  {
    var r := Insert(sorted, x);
    if sorted == [] {
    } else if LexLe(x, sorted[0]) {
      forall j | 0 < j < |r|
        ensures LexLe(r[0], r[j]) && r[0] != r[j]
      {
        if j > 1 {
          LexLeTransitive(x, sorted[0], sorted[j - 1]);
        }
      }
    } else {
      var tail := sorted[1..];
      InsertSorts(tail, x);
      InsertNames(tail, x);
      LexLeTotal(x, sorted[0]);
      forall j | 0 < j < |r|
        ensures LexLe(r[0], r[j]) && r[0] != r[j]
      {
        assert r[j] in Names(Insert(tail, x));
        if r[j] != x {
          var i :| 0 <= i < |tail| && tail[i] == r[j];
          assert sorted[i + 1] == tail[i];
        }
      }
    }
  }

  method ToVector(propositions: set<string>) returns (vector: seq<string>)
    ensures Names(vector) == propositions
    ensures forall i, j :: 0 <= i < j < |vector| ==> vector[i] != vector[j]
  {
    vector := [];
    var rest := propositions;
    while rest != {}
      invariant rest <= propositions
      invariant Names(vector) == propositions - rest
      invariant forall i, j :: 0 <= i < j < |vector| ==> vector[i] != vector[j]
      decreases |rest|
    {
      var proposition :| proposition in rest;
      assert forall i :: 0 <= i < |vector| ==> vector[i] in Names(vector);
      NamesSnoc(vector, proposition);
      vector := vector + [proposition];
      rest := rest - {proposition};
    }
  }

  method SortVector(vector: seq<string>) returns (sorted: seq<string>)
    requires forall i, j :: 0 <= i < j < |vector| ==> vector[i] != vector[j]
    ensures StrictlySorted(sorted) && Names(sorted) == Names(vector)
  {
    sorted := [];
    for i := 0 to |vector|
      invariant StrictlySorted(sorted) && Names(sorted) == Names(vector[..i])
    {
      assert vector[i] !in Names(vector[..i]);
      assert vector[i] !in sorted;
      InsertSorts(sorted, vector[i]);
      InsertNames(sorted, vector[i]);
      assert vector[..i + 1] == vector[..i] + [vector[i]];
      NamesSnoc(vector[..i], vector[i]);
      sorted := Insert(sorted, vector[i]);
    }
    assert vector[..|vector|] == vector;
  }

  method ConvertPropositionsToString(propositions: set<string>) returns (result: string)
    ensures result == Key(propositions)
  {
    var vector := ToVector(propositions);
    var sorted := SortVector(vector);
    SortedIsUnique(sorted);
    result := "";
    for i := 0 to |sorted|
      invariant result == Concat(sorted[..i])
    {
      assert sorted[..i + 1][..i] == sorted[..i];
      result := result + sorted[i];
    }
    assert sorted[..|sorted|] == sorted;
  }

  ghost predicate InjectiveOn(valuations: iset<set<string>>) {
    forall p, q :: p in valuations && q in valuations && Key(p) == Key(q) ==> p == q
  }

  /** The key is not injective: {"a", "b"} and {"ab"} collide. */
  lemma KeyCollision()
    ensures Key({"a", "b"}) == Key({"ab"})
    ensures {"a", "b"} != {"ab"}
  {
    var split := ["a", "b"];
    assert LexLe("a", "b");
    assert Names(split) == {"a", "b"};
    SortedIsUnique(split);
    var joined := ["ab"];
    assert Names(joined) == {"ab"};
    SortedIsUnique(joined);
    assert split[..1] == ["a"] && split[..1][..0] == [];
    assert Concat(["a"]) == "a" by {
      assert ["a"][..0] == [];
    }
    assert Concat(split) == "a" + "b";
    assert joined[..0] == [];
    assert Concat(joined) == "ab";
    assert "a" in {"a", "b"} && "a" !in {"ab"};
  }
}
