/**
  The SQLAlchemy `get_models` tool (src/tidewave/sqlalchemy/models.py): every
  concrete class below a declarative base, found by walking
  `__subclasses__()` with a worklist, sorted by name and listed with its
  source location.

  The class hierarchy is given by `__subclasses__()` and by the facts the
  tool reads of each class. Python class graphs have no cycles; `rank`
  (a class's height above the leaves) witnesses that, and is ghost.
  `get_relative_source_location` is a parameter; an exception it raises
  ends the tool with that exception.
*/
module SqlalchemyModels {
  import opened Wrappers
  import Text
  import opened ModelListing

  /** What the tool reads of a class: `__abstract__` (truthiness),
      `hasattr(__table__)`, and `dir()` with whether each attribute is a
      `Column`. */
  datatype ClassFacts = ClassFacts(isAbstract: bool, hasTable: bool, attributes: seq<(string, bool)>)

  datatype Hierarchy = Hierarchy(subclasses: ModelClass -> seq<ModelClass>, facts: ModelClass -> ClassFacts)

  /** Every direct subclass ranks strictly below its parent. */
  ghost predicate Ranked(h: Hierarchy, rank: ModelClass -> nat)
  {
    forall c, k :: 0 <= k < |h.subclasses(c)| ==> rank(h.subclasses(c)[k]) < rank(c)
  }

  // ---------------------------------------------------------------------
  // _get_all_subclasses

  ghost function UnionAll(xs: seq<set<ModelClass>>): set<ModelClass>
  {
    if |xs| == 0 then {} else UnionAll(xs[..|xs| - 1]) + xs[|xs| - 1]
  }

  lemma {:induction false} UnionAllConcat(a: seq<set<ModelClass>>, b: seq<set<ModelClass>>)
    ensures UnionAll(a + b) == UnionAll(a) + UnionAll(b)
  {
    if |b| > 0 {
      UnionAllConcat(a, b[..|b| - 1]);
      assert (a + b)[..|a + b| - 1] == a + b[..|b| - 1];
    } else {
      assert a + b == a;
    }
  }

  lemma {:induction false} UnionAllMember(xs: seq<set<ModelClass>>, x: ModelClass)
    ensures x in UnionAll(xs) <==> exists k :: 0 <= k < |xs| && x in xs[k]
  {
    if |xs| > 0 {
      UnionAllMember(xs[..|xs| - 1], x);
      if x in UnionAll(xs[..|xs| - 1]) {
        var k :| 0 <= k < |xs| - 1 && x in xs[..|xs| - 1][k];
        assert x in xs[k];
      }
      if exists k :: 0 <= k < |xs| && x in xs[k] {
        var k :| 0 <= k < |xs| && x in xs[k];
        if k < |xs| - 1 {
          assert x in xs[..|xs| - 1][k];
        }
      }
    }
  }

  /** The strict descendants of `c`: each direct subclass and its descendants. */
  ghost function Descendants(h: Hierarchy, rank: ModelClass -> nat, c: ModelClass): set<ModelClass>
    requires Ranked(h, rank)
    decreases rank(c)
  {
    var subs := h.subclasses(c);
    UnionAll(seq(|subs|, k requires 0 <= k < |subs| => {subs[k]} + Descendants(h, rank, subs[k])))
  }

  /** The descendants of every class in a worklist. */
  ghost function DescendantsOf(h: Hierarchy, rank: ModelClass -> nat, cs: seq<ModelClass>): set<ModelClass>
    requires Ranked(h, rank)
  {
    UnionAll(seq(|cs|, k requires 0 <= k < |cs| => Descendants(h, rank, cs[k])))
  }

  /** Descendants sit strictly lower, so a class is never its own descendant. */
  lemma {:induction false} DescendantsBelow(h: Hierarchy, rank: ModelClass -> nat, c: ModelClass, x: ModelClass)
    requires Ranked(h, rank) && x in Descendants(h, rank, c)
    ensures rank(x) < rank(c) && x != c
    decreases rank(c)
  {
    var subs := h.subclasses(c);
    var xs := seq(|subs|, k requires 0 <= k < |subs| => {subs[k]} + Descendants(h, rank, subs[k]));
    UnionAllMember(xs, x);
    var k :| 0 <= k < |xs| && x in xs[k];
    if x != subs[k] {
      DescendantsBelow(h, rank, subs[k], x);
    }
  }

  /** Visiting `c` turns it into its direct subclasses on the worklist. */
  lemma DescendantsUnfold(h: Hierarchy, rank: ModelClass -> nat, c: ModelClass)
    requires Ranked(h, rank)
    ensures Descendants(h, rank, c) ==
      (set k | 0 <= k < |h.subclasses(c)| :: h.subclasses(c)[k]) + DescendantsOf(h, rank, h.subclasses(c))
  {
    var subs := h.subclasses(c);
    var xs := seq(|subs|, k requires 0 <= k < |subs| => {subs[k]} + Descendants(h, rank, subs[k]));
    var ds := seq(|subs|, k requires 0 <= k < |subs| => Descendants(h, rank, subs[k]));
    forall x
      ensures x in UnionAll(xs) <==> x in (set k | 0 <= k < |subs| :: subs[k]) + UnionAll(ds)
    {
      UnionAllMember(xs, x);
      UnionAllMember(ds, x);
      if x in UnionAll(xs) {
        var k :| 0 <= k < |xs| && x in xs[k];
        if x != subs[k] {
          assert x in ds[k];
        }
      }
      if x in UnionAll(ds) {
        var k :| 0 <= k < |ds| && x in ds[k];
        assert x in xs[k];
      }
      if x in (set k | 0 <= k < |subs| :: subs[k]) {
        var k :| 0 <= k < |subs| && x == subs[k];
        assert x in xs[k];
      }
    }
  }

  lemma DescendantsOfConcat(h: Hierarchy, rank: ModelClass -> nat, a: seq<ModelClass>, b: seq<ModelClass>)
    requires Ranked(h, rank)
    ensures DescendantsOf(h, rank, a + b) == DescendantsOf(h, rank, a) + DescendantsOf(h, rank, b)
  {
    var da := seq(|a|, k requires 0 <= k < |a| => Descendants(h, rank, a[k]));
    var db := seq(|b|, k requires 0 <= k < |b| => Descendants(h, rank, b[k]));
    assert seq(|a + b|, k requires 0 <= k < |a + b| => Descendants(h, rank, (a + b)[k])) == da + db;
    UnionAllConcat(da, db);
  }

  function Sum(xs: seq<nat>): nat
  {
    if |xs| == 0 then 0 else Sum(xs[..|xs| - 1]) + xs[|xs| - 1]
  }

  lemma {:induction false} SumConcat(a: seq<nat>, b: seq<nat>)
    ensures Sum(a + b) == Sum(a) + Sum(b)
  {
    if |b| > 0 {
      SumConcat(a, b[..|b| - 1]);
      assert (a + b)[..|a + b| - 1] == a + b[..|b| - 1];
    } else {
      assert a + b == a;
    }
  }

  /** The number of paths down from `c`: how often the worklist visits it
      and what lies below. */
  ghost function Weight(h: Hierarchy, rank: ModelClass -> nat, c: ModelClass): nat
    requires Ranked(h, rank)
    decreases rank(c)
  {
    var subs := h.subclasses(c);
    1 + Sum(seq(|subs|, k requires 0 <= k < |subs| => Weight(h, rank, subs[k])))
  }

  ghost function Weights(h: Hierarchy, rank: ModelClass -> nat, cs: seq<ModelClass>): seq<nat>
    requires Ranked(h, rank)
  {
    seq(|cs|, k requires 0 <= k < |cs| => Weight(h, rank, cs[k]))
  }

  lemma WeightsConcat(h: Hierarchy, rank: ModelClass -> nat, a: seq<ModelClass>, b: seq<ModelClass>)
    requires Ranked(h, rank)
    ensures Sum(Weights(h, rank, a + b)) == Sum(Weights(h, rank, a)) + Sum(Weights(h, rank, b))
  {
    assert Weights(h, rank, a + b) == Weights(h, rank, a) + Weights(h, rank, b);
    SumConcat(Weights(h, rank, a), Weights(h, rank, b));
  }

  /** One worklist step: pop the last class, record its direct subclasses
      and queue them. What is recorded plus what lies below the queue stays
      the descendants of the start, and the weight of the queue drops. */
  lemma VisitStep(h: Hierarchy, rank: ModelClass -> nat, found: set<ModelClass>, toVisit: seq<ModelClass>)
    requires Ranked(h, rank) && |toVisit| > 0
    ensures var c := toVisit[|toVisit| - 1];
      var subs := h.subclasses(c);
      var next := toVisit[..|toVisit| - 1] + subs;
      && found + (set k | 0 <= k < |subs| :: subs[k]) + DescendantsOf(h, rank, next)
         == found + DescendantsOf(h, rank, toVisit)
      && Sum(Weights(h, rank, next)) < Sum(Weights(h, rank, toVisit))
  {
    var n := |toVisit|;
    var c := toVisit[n - 1];
    var init := toVisit[..n - 1];
    var subs := h.subclasses(c);
    assert toVisit == init + [c];
    DescendantsOfConcat(h, rank, init, subs);
    DescendantsOfConcat(h, rank, init, [c]);
    DescendantsUnfold(h, rank, c);
    assert DescendantsOf(h, rank, [c]) == Descendants(h, rank, c) by {
      assert seq(1, k requires 0 <= k < 1 => Descendants(h, rank, [c][k])) == [Descendants(h, rank, c)];
      assert UnionAll([Descendants(h, rank, c)]) == UnionAll([]) + Descendants(h, rank, c);
    }
    WeightsConcat(h, rank, init, subs);
    WeightsConcat(h, rank, init, [c]);
    assert Weights(h, rank, subs) == seq(|subs|, k requires 0 <= k < |subs| => Weight(h, rank, subs[k]));
    assert Sum(Weights(h, rank, [c])) == Weight(h, rank, c) by {
      assert Weights(h, rank, [c]) == [] + [Weight(h, rank, c)];
    }
  }

  /** `_get_all_subclasses(cls)`: each strict descendant once, in an order
      the set leaves open. */
  method AllSubclasses(h: Hierarchy, ghost rank: ModelClass -> nat, cls: ModelClass) returns (r: seq<ModelClass>)
    requires Ranked(h, rank)
    ensures multiset(r) == multiset(Descendants(h, rank, cls))
  {
    var found: set<ModelClass> := {};
    var toVisit := [cls];
    assert DescendantsOf(h, rank, [cls]) == Descendants(h, rank, cls) by {
      assert seq(1, k requires 0 <= k < 1 => Descendants(h, rank, [cls][k])) == [Descendants(h, rank, cls)];
      assert UnionAll([Descendants(h, rank, cls)]) == UnionAll([]) + Descendants(h, rank, cls);
    }
    while toVisit != []
      invariant found + DescendantsOf(h, rank, toVisit) == Descendants(h, rank, cls)
      decreases Sum(Weights(h, rank, toVisit))
    {
      VisitStep(h, rank, found, toVisit);
      var current := toVisit[|toVisit| - 1];
      var subs := h.subclasses(current);
      found := found + (set k | 0 <= k < |subs| :: subs[k]);
      toVisit := toVisit[..|toVisit| - 1] + subs;
    }
    assert DescendantsOf(h, rank, []) == {};
    r := ListOf(found);
  }

  /** `list(s)`: every element once, in some order. */
  method ListOf(s: set<ModelClass>) returns (r: seq<ModelClass>)
    ensures multiset(r) == multiset(s)
  {
    r := [];
    var rest := s;
    while rest != {}
      invariant multiset(r) + multiset(rest) == multiset(s)
      decreases |rest|
    {
      var x :| x in rest;
      assert multiset(rest) == multiset(rest - {x}) + multiset{x};
      r := r + [x];
      rest := rest - {x};
    }
  }

  // ---------------------------------------------------------------------
  // _has_columns and the filter

  /** Some public attribute is a `Column`. */
  predicate DeclaresColumn(attributes: seq<(string, bool)>)
  {
    exists k :: 0 <= k < |attributes| && !Text.StartsWith(attributes[k].0, "_") && attributes[k].1
  }

  /** `_has_columns`: scans `dir()` and stops at the first public `Column`. */
  method HasColumns(attributes: seq<(string, bool)>) returns (b: bool)
    ensures b == DeclaresColumn(attributes)
  {
    for i := 0 to |attributes|
      invariant forall k :: 0 <= k < i ==> Text.StartsWith(attributes[k].0, "_") || !attributes[k].1
    {
      if Text.StartsWith(attributes[i].0, "_") {
        continue;
      }
      if attributes[i].1 {
        return true;
      }
    }
    return false;
  }

  /** A class the tool lists: not the base, not abstract, and mapped to a
      table or declaring a column. */
  predicate IsConcrete(h: Hierarchy, base: ModelClass, m: ModelClass)
  {
    m != base && !h.facts(m).isAbstract && (h.facts(m).hasTable || DeclaresColumn(h.facts(m).attributes))
  }

  function ConcreteAmong(h: Hierarchy, base: ModelClass, ms: seq<ModelClass>): seq<ModelClass>
  {
    if |ms| == 0 then []
    else if IsConcrete(h, base, ms[|ms| - 1]) then ConcreteAmong(h, base, ms[..|ms| - 1]) + [ms[|ms| - 1]]
    else ConcreteAmong(h, base, ms[..|ms| - 1])
  }

  /** The filter keeps every concrete class as often as it occurs, and nothing else. */
  lemma {:induction false} ConcreteAmongCount(h: Hierarchy, base: ModelClass, ms: seq<ModelClass>)
    ensures forall x :: multiset(ConcreteAmong(h, base, ms))[x] ==
                        (if IsConcrete(h, base, x) then multiset(ms)[x] else 0)
  {
    if |ms| > 0 {
      ConcreteAmongCount(h, base, ms[..|ms| - 1]);
      assert ms == ms[..|ms| - 1] + [ms[|ms| - 1]];
    }
  }

  /** The classes `get_models` lists. */
  ghost function ConcreteModels(h: Hierarchy, rank: ModelClass -> nat, base: ModelClass): set<ModelClass>
    requires Ranked(h, rank)
  {
    set m | m in Descendants(h, rank, base) && IsConcrete(h, base, m)
  }

  function NoModelsMessage(base: ModelClass): string
  {
    "No concrete models found that inherit from " + base.name
  }

  /** The inner `get_models`: the message when no concrete class lies below
      the base; otherwise one line per concrete class, each once, sorted by
      name. */
  method GetModels<E>(h: Hierarchy, ghost rank: ModelClass -> nat, base: ModelClass,
                   locate: ModelClass -> Result<Option<string>, E>) returns (out: Result<string, E>)
    requires Ranked(h, rank)
    ensures ConcreteModels(h, rank, base) == {} ==> out == Success(NoModelsMessage(base))
    ensures ConcreteModels(h, rank, base) != {} ==>
      exists ms :: SortedByName(ms) && multiset(ms) == multiset(ConcreteModels(h, rank, base))
                   && out == Listing(ms, locate)
  {
    var models := AllSubclasses(h, rank, base);
    var concrete: seq<ModelClass> := [];
    for i := 0 to |models|
      invariant concrete == ConcreteAmong(h, base, models[..i])
    {
      var model := models[i];
      assert models[..i + 1] == models[..i] + [model];
      if model == base {
        continue;
      }
      if h.facts(model).isAbstract {
        continue;
      }
      var keep := h.facts(model).hasTable;
      if !keep {
        keep := HasColumns(h.facts(model).attributes);
      }
      if keep {
        concrete := concrete + [model];
      }
    }
    assert models[..|models|] == models;
    ConcreteAmongCount(h, base, models);
    assert multiset(concrete) == multiset(ConcreteModels(h, rank, base)) by {
      forall x
        ensures multiset(concrete)[x] == multiset(ConcreteModels(h, rank, base))[x]
      {
      }
    }
    if concrete == [] {
      assert forall x :: x !in ConcreteModels(h, rank, base) by {
        forall x
          ensures x !in ConcreteModels(h, rank, base)
        {
          assert multiset(ConcreteModels(h, rank, base))[x] == 0;
        }
      }
      return Success(NoModelsMessage(base));
    }
    var a := new ModelClass[|concrete|](k requires 0 <= k < |concrete| => concrete[k]);
    assert a[..] == concrete;
    SortByName(a);
    out := FormatListing(a[..], locate);
    assert multiset(a[..]) == multiset(ConcreteModels(h, rank, base));
    assert concrete[0] in multiset(ConcreteModels(h, rank, base));
  }

  /** The base class itself is never among the listed classes. */
  lemma BaseNeverListed(h: Hierarchy, rank: ModelClass -> nat, base: ModelClass)
    requires Ranked(h, rank)
    ensures base !in ConcreteModels(h, rank, base)
    ensures forall m :: m in ConcreteModels(h, rank, base) ==> rank(m) < rank(base)
  {
    forall m | m in ConcreteModels(h, rank, base)
      ensures rank(m) < rank(base)
    {
      DescendantsBelow(h, rank, base, m);
    }
  }
}
