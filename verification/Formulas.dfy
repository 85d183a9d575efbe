/** Formulas are stored in an arena: a vector of components that refer to each
    other by index.  The independent reference is an ordinary syntax tree. */
module Formulas {

  datatype Component =
    | Top
    | Bot
    | Prop(prop: string)
    | Not(formula: nat)
    | And(formulas: seq<nat>)
    | Or(formulas: seq<nat>)
    | Believes(agent: nat, formula: nat)
    | EveryoneBelieves(formula: nat)
    | CommonKnowledge(formula: nat)

  function Children(c: Component): (ids: seq<nat>) {
    match c
    case Top => []
    case Bot => []
    case Prop(_) => []
    case Not(f) => [f]
    case And(fs) => fs
    case Or(fs) => fs
    case Believes(_, f) => [f]
    case EveryoneBelieves(f) => [f]
    case CommonKnowledge(f) => [f]
  }

  predicate Below(ids: seq<nat>, bound: nat) {
    forall i :: 0 <= i < |ids| ==> ids[i] < bound
  }

  // Every component refers only to components appended before it.
  predicate Backward(arena: seq<Component>) {
    forall i :: 0 <= i < |arena| ==> Below(Children(arena[i]), i)
  }

  // Evaluation over the arena, by index.
  predicate Valuate(arena: seq<Component>, id: nat, props: set<string>)
    requires Backward(arena) && id < |arena|
    decreases id, 1, 0
  {
    assert Below(Children(arena[id]), id);
    match arena[id]
    case Top => true
    case Bot => false
    case Prop(p) => p in props
    case Not(f) => assert Children(arena[id])[0] == f; !Valuate(arena, f, props)
    case And(fs) => ValuateAll(arena, id, fs, props) && |fs| > 0
    case Or(fs) => ValuateAny(arena, id, fs, props)
    case Believes(_, _) => false
    case EveryoneBelieves(_) => false
    case CommonKnowledge(_) => false
  }

  // The early-exit loop of the conjunction case.
  predicate ValuateAll(arena: seq<Component>, bound: nat, ids: seq<nat>, props: set<string>)
    requires Backward(arena) && bound <= |arena|
    requires Below(ids, bound)
    decreases bound, 0, |ids|
  {
    |ids| == 0 || (Valuate(arena, ids[0], props) && ValuateAll(arena, bound, ids[1..], props))
  }

  // The early-exit loop of the disjunction case.
  predicate ValuateAny(arena: seq<Component>, bound: nat, ids: seq<nat>, props: set<string>)
    requires Backward(arena) && bound <= |arena|
    requires Below(ids, bound)
    decreases bound, 0, |ids|
  {
    |ids| != 0 && (Valuate(arena, ids[0], props) || ValuateAny(arena, bound, ids[1..], props))
  }

  // ----- Reference semantics on syntax trees

  datatype Tree =
    | Leaf(truth: bool)
    | Atom(prop: string)
    | Negation(sub: Tree)
    | Conjunction(subs: seq<Tree>)
    | Disjunction(subs: seq<Tree>)
    | Modal(agents: set<nat>, common: bool, sub: Tree)

  // The three modal operators are not implemented and count as false; a
  // conjunction of nothing is false as well.
  ghost predicate Holds(t: Tree, props: set<string>) {
    match t
    case Leaf(b) => b
    case Atom(p) => p in props
    case Negation(s) => !Holds(s, props)
    case Conjunction(ss) => ss != [] && forall s :: s in ss ==> Holds(s, props)
    case Disjunction(ss) => exists s :: s in ss && Holds(s, props)
    case Modal(_, _, _) => false
  }

  ghost function Unfold(arena: seq<Component>, id: nat): (t: Tree)
    requires Backward(arena) && id < |arena|
    decreases id
  {
    assert Below(Children(arena[id]), id);
    match arena[id]
    case Top => Leaf(true)
    case Bot => Leaf(false)
    case Prop(p) => Atom(p)
    case Not(f) => assert Children(arena[id])[0] == f; Negation(Unfold(arena, f))
    case And(fs) => Conjunction(seq(|fs|, i requires 0 <= i < |fs| => Unfold(arena, fs[i])))
    case Or(fs) => Disjunction(seq(|fs|, i requires 0 <= i < |fs| => Unfold(arena, fs[i])))
    case Believes(a, f) => assert Children(arena[id])[0] == f; Modal({a}, false, Unfold(arena, f))
    case EveryoneBelieves(f) => assert Children(arena[id])[0] == f; Modal({}, false, Unfold(arena, f))
    case CommonKnowledge(f) => assert Children(arena[id])[0] == f; Modal({}, true, Unfold(arena, f))
  }

  lemma {:induction false} ValuateAllIsForall(arena: seq<Component>, bound: nat, ids: seq<nat>, props: set<string>)
    requires Backward(arena) && bound <= |arena|
    requires Below(ids, bound)
    ensures ValuateAll(arena, bound, ids, props) <==>
            forall i :: 0 <= i < |ids| ==> Valuate(arena, ids[i], props)
    decreases |ids|
  {
    if |ids| != 0 {
      ValuateAllIsForall(arena, bound, ids[1..], props);
      assert forall i :: 1 <= i < |ids| ==> ids[i] == ids[1..][i - 1];
      assert forall i :: 0 <= i < |ids[1..]| ==> ids[1..][i] == ids[i + 1];
    }
  }

  lemma {:induction false} ValuateAnyIsExists(arena: seq<Component>, bound: nat, ids: seq<nat>, props: set<string>)
    requires Backward(arena) && bound <= |arena|
    requires Below(ids, bound)
    ensures ValuateAny(arena, bound, ids, props) <==>
            exists i :: 0 <= i < |ids| && Valuate(arena, ids[i], props)
    decreases |ids|
  {
    if |ids| != 0 {
      ValuateAnyIsExists(arena, bound, ids[1..], props);
      assert forall i :: 1 <= i < |ids| ==> ids[i] == ids[1..][i - 1];
      assert forall i :: 0 <= i < |ids[1..]| ==> ids[1..][i] == ids[i + 1];
    }
  }

  lemma ConjunctionMatches(arena: seq<Component>, id: nat, fs: seq<nat>, props: set<string>)
    requires Backward(arena) && id < |arena| && arena[id] == And(fs)
    requires forall i :: 0 <= i < |fs| ==> fs[i] < id && (Valuate(arena, fs[i], props) <==> Holds(Unfold(arena, fs[i]), props))
    ensures Valuate(arena, id, props) <==> Holds(Unfold(arena, id), props)
  {
    ValuateAllIsForall(arena, id, fs, props);
    var ts := Unfold(arena, id).subs;
    assert |ts| == |fs| && forall i :: 0 <= i < |fs| ==> ts[i] == Unfold(arena, fs[i]);
    assert forall i :: 0 <= i < |ts| ==> ts[i] in ts;
  }

  lemma DisjunctionMatches(arena: seq<Component>, id: nat, fs: seq<nat>, props: set<string>)
    requires Backward(arena) && id < |arena| && arena[id] == Or(fs)
    requires forall i :: 0 <= i < |fs| ==> fs[i] < id && (Valuate(arena, fs[i], props) <==> Holds(Unfold(arena, fs[i]), props))
    ensures Valuate(arena, id, props) <==> Holds(Unfold(arena, id), props)
  {
    ValuateAnyIsExists(arena, id, fs, props);
    var ts := Unfold(arena, id).subs;
    assert |ts| == |fs| && forall i :: 0 <= i < |fs| ==> ts[i] == Unfold(arena, fs[i]);
    assert forall i :: 0 <= i < |ts| ==> ts[i] in ts;
  }

  /** Evaluation over the arena is evaluation of the unfolded tree. */
  lemma {:induction false} ValuateIsTreeSemantics(arena: seq<Component>, id: nat, props: set<string>)
    requires Backward(arena) && id < |arena|
    ensures Valuate(arena, id, props) <==> Holds(Unfold(arena, id), props)
    decreases id
  {
    assert Below(Children(arena[id]), id);
    var cs := Children(arena[id]);
    forall i | 0 <= i < |cs|
      ensures Valuate(arena, cs[i], props) <==> Holds(Unfold(arena, cs[i]), props)
    {
      ValuateIsTreeSemantics(arena, cs[i], props);
    }
    match arena[id]
    case Not(f) => assert cs[0] == f;
    case And(fs) => ConjunctionMatches(arena, id, fs, props);
    case Or(fs) => DisjunctionMatches(arena, id, fs, props);
    case _ =>
  }

  /** Appending components never changes the tree of an existing id. */
  lemma {:induction false} AppendKeepsMeaning(arena: seq<Component>, more: seq<Component>, id: nat)
    requires Backward(arena + more) && id < |arena|
    ensures Backward(arena)
    ensures Unfold(arena + more, id) == Unfold(arena, id)
    decreases id
  {
    var big := arena + more;
    assert forall i :: 0 <= i < |arena| ==> big[i] == arena[i];
    assert Below(Children(big[id]), id);
    assert Backward(arena);
    var cs := Children(arena[id]);
    forall i | 0 <= i < |cs|
      ensures Unfold(big, cs[i]) == Unfold(arena, cs[i])
    {
      AppendKeepsMeaning(arena, more, cs[i]);
    }
    match arena[id]
    case Not(f) => assert Children(arena[id])[0] == f;
    case And(fs) =>
            assert Unfold(big, id).subs == Unfold(arena, id).subs;
    case Or(fs) =>
            assert Unfold(big, id).subs == Unfold(arena, id).subs;
    case Believes(_, f) => assert Children(arena[id])[0] == f;
    case EveryoneBelieves(f) => assert Children(arena[id])[0] == f;
    case CommonKnowledge(f) => assert Children(arena[id])[0] == f;
    case _ =>
  }

  /** Hence it never changes the value of an existing id either. */
  lemma AppendKeepsValue(arena: seq<Component>, more: seq<Component>, id: nat, props: set<string>)
    requires Backward(arena + more) && id < |arena|
    ensures Backward(arena)
    ensures Valuate(arena + more, id, props) == Valuate(arena, id, props)
  {
    AppendKeepsMeaning(arena, more, id);
    ValuateIsTreeSemantics(arena + more, id, props);
    ValuateIsTreeSemantics(arena, id, props);
  }

  // ----- The finished formula as a value, as it is copied into events and goals

  datatype FormulaValue = FormulaValue(root: nat, formulas: seq<Component>) {
    predicate Valid() {
      Backward(formulas) && root < |formulas|
    }

    predicate Satisfied(props: set<string>)
      requires Valid()
    {
      Valuate(formulas, root, props)
    }
  }

  // ----- The mutable builder

  class Formula {
    var root: nat
    var formulas: seq<Component>

    ghost predicate Valid()
      reads this
    {
      Backward(formulas) && (formulas == [] || root < |formulas|)
    }

    constructor ()
      ensures Valid() && formulas == []
    {
      root := 0;
      formulas := [];
    }

    function Value(): (v: FormulaValue)
      reads this
    {
      FormulaValue(root, formulas)
    }

    // The step shared by every f_* builder; ids must come from earlier calls.
    method Append(c: Component) returns (id: nat)
      requires Valid()
      requires Below(Children(c), |formulas|)
      modifies this
      ensures Valid() && Value().Valid()
      ensures id == |old(formulas)| == root
      ensures formulas == old(formulas) + [c]
      ensures forall i, props :: 0 <= i < |old(formulas)| ==>
                Valuate(formulas, i, props) == Valuate(old(formulas), i, props)
    {
      ghost var before := formulas;
      formulas := formulas + [c];
      root := |formulas| - 1;
      id := |formulas| - 1;
      forall i, props | 0 <= i < |before|
        ensures Valuate(formulas, i, props) == Valuate(before, i, props)
      {
        AppendKeepsValue(before, [c], i, props);
      }
    }

    method FTop() returns (id: nat)
      requires Valid()
      modifies this
      ensures Valid() && id == |old(formulas)| == root && formulas == old(formulas) + [Top]
      ensures forall props :: Valuate(formulas, id, props)
      ensures forall i, props :: 0 <= i < |old(formulas)| ==>
                Valuate(formulas, i, props) == Valuate(old(formulas), i, props)
    {
      id := Append(Top);
    }

    method FBot() returns (id: nat)
      requires Valid()
      modifies this
      ensures Valid() && id == |old(formulas)| == root && formulas == old(formulas) + [Bot]
      ensures forall props :: !Valuate(formulas, id, props)
      ensures forall i, props :: 0 <= i < |old(formulas)| ==>
                Valuate(formulas, i, props) == Valuate(old(formulas), i, props)
    {
      id := Append(Bot);
    }

    method FProp(prop: string) returns (id: nat)
      requires Valid()
      modifies this
      ensures Valid() && id == |old(formulas)| == root && formulas == old(formulas) + [Prop(prop)]
      ensures forall props :: (Valuate(formulas, id, props) <==> prop in props)
      ensures forall i, props :: 0 <= i < |old(formulas)| ==>
                Valuate(formulas, i, props) == Valuate(old(formulas), i, props)
    {
      id := Append(Prop(prop));
    }

    method FNot(formula: nat) returns (id: nat)
      requires Valid() && formula < |formulas|
      modifies this
      ensures Valid() && id == |old(formulas)| == root && formulas == old(formulas) + [Not(formula)]
      ensures forall props :: Valuate(formulas, id, props) == !Valuate(old(formulas), formula, props)
      ensures forall i, props :: 0 <= i < |old(formulas)| ==>
                Valuate(formulas, i, props) == Valuate(old(formulas), i, props)
    {
      id := Append(Not(formula));
    }

    method FAnd(input: seq<nat>) returns (id: nat)
      requires Valid() && Below(input, |formulas|)
      modifies this
      ensures Valid() && id == |old(formulas)| == root && formulas == old(formulas) + [And(input)]
      ensures forall props :: Valuate(formulas, id, props) <==>
                input != [] && forall i :: 0 <= i < |input| ==> Valuate(old(formulas), input[i], props)
      ensures forall i, props :: 0 <= i < |old(formulas)| ==>
                Valuate(formulas, i, props) == Valuate(old(formulas), i, props)
    {
      ghost var before := formulas;
      id := Append(And(input));
      forall props
        ensures Valuate(formulas, id, props) <==>
                input != [] && forall i :: 0 <= i < |input| ==> Valuate(before, input[i], props)
      {
        ValuateAllIsForall(formulas, id, input, props);
      }
    }

    method FOr(input: seq<nat>) returns (id: nat)
      requires Valid() && Below(input, |formulas|)
      modifies this
      ensures Valid() && id == |old(formulas)| == root && formulas == old(formulas) + [Or(input)]
      ensures forall props :: Valuate(formulas, id, props) <==>
                exists i :: 0 <= i < |input| && Valuate(old(formulas), input[i], props)
      ensures forall i, props :: 0 <= i < |old(formulas)| ==>
                Valuate(formulas, i, props) == Valuate(old(formulas), i, props)
    {
      ghost var before := formulas;
      id := Append(Or(input));
      forall props
        ensures Valuate(formulas, id, props) <==>
                exists i :: 0 <= i < |input| && Valuate(before, input[i], props)
      {
        ValuateAnyIsExists(formulas, id, input, props);
      }
    }

    method FBelieves(agent: nat, formula: nat) returns (id: nat)
      requires Valid() && formula < |formulas|
      modifies this
      ensures Valid() && id == |old(formulas)| == root && formulas == old(formulas) + [Believes(agent, formula)]
      ensures forall props :: !Valuate(formulas, id, props)
      ensures forall i, props :: 0 <= i < |old(formulas)| ==>
                Valuate(formulas, i, props) == Valuate(old(formulas), i, props)
    {
      id := Append(Believes(agent, formula));
    }

    method FEveryoneBelieves(formula: nat) returns (id: nat)
      requires Valid() && formula < |formulas|
      modifies this
      ensures Valid() && id == |old(formulas)| == root && formulas == old(formulas) + [EveryoneBelieves(formula)]
      ensures forall props :: !Valuate(formulas, id, props)
      ensures forall i, props :: 0 <= i < |old(formulas)| ==>
                Valuate(formulas, i, props) == Valuate(old(formulas), i, props)
    {
      id := Append(EveryoneBelieves(formula));
    }

    method FCommonKnowledge(formula: nat) returns (id: nat)
      requires Valid() && formula < |formulas|
      modifies this
      ensures Valid() && id == |old(formulas)| == root && formulas == old(formulas) + [CommonKnowledge(formula)]
      ensures forall props :: !Valuate(formulas, id, props)
      ensures forall i, props :: 0 <= i < |old(formulas)| ==>
                Valuate(formulas, i, props) == Valuate(old(formulas), i, props)
    {
      id := Append(CommonKnowledge(formula));
    }
  }
}
