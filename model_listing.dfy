/**
  What the three `get_models` tools share (src/tidewave/sqlalchemy/models.py,
  src/tidewave/django/tools/models.py, src/tidewave/django/models.py): the
  found models are sorted in place by `__name__` and listed one per line as
  `* Name` followed by ` at <location>` when the location is truthy.
*/
module ModelListing {
  import opened Wrappers
  import Text

  /** A model class: its identity and its `__name__`. */
  datatype ModelClass = ModelClass(id: nat, name: string)

  /** `x` may come before `y` once sorted by name. */
  predicate NotAfter(x: ModelClass, y: ModelClass)
  {
    !Text.LexLess(y.name, x.name)
  }

  predicate SortedByName(s: seq<ModelClass>)
  {
    forall i, j :: 0 <= i < j < |s| ==> NotAfter(s[i], s[j])
  }

  lemma NotAfterTransitive(x: ModelClass, y: ModelClass, z: ModelClass)
    requires NotAfter(x, y) && NotAfter(y, z)
    ensures NotAfter(x, z)
  {
    Text.LexTrichotomy(x.name, y.name);
    Text.LexTrichotomy(y.name, z.name);
    Text.LexTrichotomy(x.name, z.name);
    if Text.LexLess(z.name, x.name) {
      if x.name == y.name {
      } else if y.name == z.name {
      } else {
        Text.LexTransitive(x.name, y.name, z.name);
      }
    }
  }

  lemma NotAfterFlip(x: ModelClass, y: ModelClass)
    requires !NotAfter(x, y)
    ensures NotAfter(y, x)
  {
    Text.LexTrichotomy(x.name, y.name);
  }

  /** The models of `s` that have the name `n`, in their order in `s`. A
      stable sort keeps each of these unchanged. */
  function Named(s: seq<ModelClass>, n: string): (r: seq<ModelClass>)
    ensures |r| <= |s|
  {
    if |s| == 0 then []
    else if s[|s| - 1].name == n then Named(s[..|s| - 1], n) + [s[|s| - 1]]
    else Named(s[..|s| - 1], n)
  }

  lemma {:induction false} NamedConcat(s: seq<ModelClass>, t: seq<ModelClass>, n: string)
    ensures Named(s + t, n) == Named(s, n) + Named(t, n)
    decreases |t|
  {
    if |t| == 0 {
      assert s + t == s;
    } else {
      var init := t[..|t| - 1];
      assert (s + t)[..|s + t| - 1] == s + init;
      NamedConcat(s, init, n);
    }
  }

  /** Only models of `s` with the name `n` are picked. */
  lemma {:induction false} NamedWithin(s: seq<ModelClass>, n: string)
    ensures forall e :: e in Named(s, n) ==> e in s && e.name == n
  {
    if |s| > 0 {
      NamedWithin(s[..|s| - 1], n);
    }
  }

  /** The last model's name picks at least that model. */
  lemma NamedLastPicked(s: seq<ModelClass>)
    requires |s| > 0
    ensures Named(s, s[|s| - 1].name) != []
  {
  }

  lemma NamedOne(e: ModelClass, n: string)
    ensures Named([e], n) == if e.name == n then [e] else []
  {
    assert [e][..0] == [];
  }

  /** Swapping neighbours of different names keeps each name's models in
      their order. */
  lemma SwapKeepsNamed(s: seq<ModelClass>, j: nat)
    requires 0 < j < |s| && s[j - 1].name != s[j].name
    ensures forall n :: Named(s[j := s[j - 1]][j - 1 := s[j]], n) == Named(s, n)
  {
    var t := s[j := s[j - 1]][j - 1 := s[j]];
    var p, r := s[..j - 1], s[j + 1..];
    assert s == p + [s[j - 1]] + [s[j]] + r;
    assert t == p + [s[j]] + [s[j - 1]] + r;
    forall n
      ensures Named(t, n) == Named(s, n)
    {
      NamedConcat(p + [s[j - 1]] + [s[j]], r, n);
      NamedConcat(p + [s[j - 1]], [s[j]], n);
      NamedConcat(p, [s[j - 1]], n);
      NamedConcat(p + [s[j]] + [s[j - 1]], r, n);
      NamedConcat(p + [s[j]], [s[j - 1]], n);
      NamedConcat(p, [s[j]], n);
      NamedOne(s[j - 1], n);
      NamedOne(s[j], n);
    }
  }

  /** Places `x` after every model of `s` whose name is not greater. */
  function InsertByName(x: ModelClass, s: seq<ModelClass>): seq<ModelClass>
  {
    if |s| == 0 || !Text.LexLess(x.name, s[|s| - 1].name) then s + [x]
    else InsertByName(x, s[..|s| - 1]) + [s[|s| - 1]]
  }

  /** `sorted(s, key=lambda m: m.__name__)`: Python's stable sort, as a
      value, inserting each model in input order. */
  function StableSortByName(s: seq<ModelClass>): seq<ModelClass>
  {
    if |s| == 0 then [] else InsertByName(s[|s| - 1], StableSortByName(s[..|s| - 1]))
  }

  /** Inserting `x` puts it after the models of its name already there. */
  lemma {:induction false} InsertByNameNamed(x: ModelClass, s: seq<ModelClass>, n: string)
    ensures Named(InsertByName(x, s), n) == Named(s, n) + Named([x], n)
    decreases |s|
  {
    if |s| == 0 || !Text.LexLess(x.name, s[|s| - 1].name) {
      NamedConcat(s, [x], n);
    } else {
      var init, last := s[..|s| - 1], s[|s| - 1];
      var prev := InsertByName(x, init);
      assert InsertByName(x, s) == prev + [last];
      assert s == init + [last];
      InsertByNameNamed(x, init, n);
      NamedConcat(prev, [last], n);
      NamedConcat(init, [last], n);
      // x and last have different names, so at most one of them is picked.
      Text.LexTrichotomy(x.name, last.name);
      NamedOne(x, n);
      NamedOne(last, n);
      var px, pl := Named([x], n), Named([last], n);
      assert px == [] || pl == [];
      calc {
        Named(InsertByName(x, s), n);
        Named(prev, n) + pl;
        Named(init, n) + px + pl;
        Named(init, n) + pl + px;
        Named(s, n) + px;
      }
    }
  }

  /** Inserting adds `x` and nothing else. */
  lemma {:induction false} InsertByNameMembers(x: ModelClass, s: seq<ModelClass>)
    ensures forall e :: e in InsertByName(x, s) ==> e == x || e in s
    decreases |s|
  {
    if |s| > 0 && Text.LexLess(x.name, s[|s| - 1].name) {
      InsertByNameMembers(x, s[..|s| - 1]);
    }
  }

  /** Inserting keeps a sorted sequence sorted. */
  lemma {:induction false} InsertByNameSorted(x: ModelClass, s: seq<ModelClass>)
    requires SortedByName(s)
    ensures SortedByName(InsertByName(x, s))
    decreases |s|
  {
    if |s| == 0 {
    } else if !Text.LexLess(x.name, s[|s| - 1].name) {
      forall i | 0 <= i < |s|
        ensures NotAfter(s[i], x)
      {
        if i < |s| - 1 {
          NotAfterTransitive(s[i], s[|s| - 1], x);
        }
      }
    } else {
      var init, last := s[..|s| - 1], s[|s| - 1];
      assert SortedByName(init) by {
        assert forall k :: 0 <= k < |init| ==> init[k] == s[k];
      }
      InsertByNameSorted(x, init);
      InsertByNameMembers(x, init);
      var prev := InsertByName(x, init);
      Text.LexTrichotomy(x.name, last.name);
      forall i | 0 <= i < |prev|
        ensures NotAfter(prev[i], last)
      {
        assert prev[i] in prev;
        if prev[i] != x {
          var k :| 0 <= k < |init| && init[k] == prev[i];
          assert s[k] == prev[i];
        }
      }
    }
  }

  /** The stable sort is sorted and keeps each name's models in input order. */
  lemma {:induction false} StableSortSpec(s: seq<ModelClass>)
    ensures SortedByName(StableSortByName(s))
    ensures forall n :: Named(StableSortByName(s), n) == Named(s, n)
  {
    if |s| > 0 {
      var init, last := s[..|s| - 1], s[|s| - 1];
      assert s == init + [last];
      StableSortSpec(init);
      InsertByNameSorted(last, StableSortByName(init));
      forall n
        ensures Named(StableSortByName(s), n) == Named(s, n)
      {
        InsertByNameNamed(last, StableSortByName(init), n);
        NamedConcat(init, [last], n);
      }
    }
  }

  lemma NamedCons(e: ModelClass, r: seq<ModelClass>, n: string)
    ensures Named([e] + r, n) == (if e.name == n then [e] else []) + Named(r, n)
  {
    NamedConcat([e], r, n);
    NamedOne(e, n);
  }

  /** A non-empty sorted sequence starts with a model of the least name: no
      model of a name before it is in the sequence. */
  lemma SortedHeadLeast(y: seq<ModelClass>, n: string)
    requires SortedByName(y) && |y| > 0 && Named(y, n) != []
    ensures !Text.LexLess(n, y[0].name)
  {
    var e := Named(y, n)[0];
    NamedWithin(y, n);
    assert e in Named(y, n);
    var k :| 0 <= k < |y| && y[k] == e;
    if k > 0 {
      assert NotAfter(y[0], y[k]);
    } else {
      Text.LexTrichotomy(n, n);
    }
  }

  /** Sequences that agree on each name's models and are sorted start alike. */
  lemma SameHead(x: seq<ModelClass>, y: seq<ModelClass>)
    requires SortedByName(x) && SortedByName(y) && |x| > 0 && |y| > 0
    requires forall n :: Named(x, n) == Named(y, n)
    ensures x[0] == y[0]
  {
    var a, b := x[0], y[0];
    assert x == [a] + x[1..] && y == [b] + y[1..];
    NamedCons(a, x[1..], a.name);
    NamedCons(b, y[1..], b.name);
    SortedHeadLeast(y, a.name);
    SortedHeadLeast(x, b.name);
    Text.LexTrichotomy(a.name, b.name);
  }

  /** A sorted order is decided by the order of each name's models: two
      sorted sequences that agree on it are equal. */
  lemma {:induction false} SortedByNamedUnique(x: seq<ModelClass>, y: seq<ModelClass>)
    requires SortedByName(x) && SortedByName(y)
    requires forall n :: Named(x, n) == Named(y, n)
    ensures x == y
    decreases |x|
  {
    if |x| > 0 && |y| > 0 {
      SameHead(x, y);
      assert x == [x[0]] + x[1..] && y == [y[0]] + y[1..];
      forall n
        ensures Named(x[1..], n) == Named(y[1..], n)
      {
        NamedCons(x[0], x[1..], n);
        NamedCons(y[0], y[1..], n);
        var h := if x[0].name == n then [x[0]] else [];
        assert h + Named(x[1..], n) == h + Named(y[1..], n);
        assert (h + Named(x[1..], n))[|h|..] == Named(x[1..], n);
        assert (h + Named(y[1..], n))[|h|..] == Named(y[1..], n);
      }
      SortedByNamedUnique(x[1..], y[1..]);
    } else if |x| > 0 {
      // The name of x's last model picks a model from x but none from y.
      NamedLastPicked(x);
      assert false;
    } else if |y| > 0 {
      NamedLastPicked(y);
      assert false;
    }
  }

  /** `models.sort(key=lambda m: m.__name__)`, in place: the array ends up
      holding Python's stable sort of its old contents. */
  method SortByName(a: array<ModelClass>)
    modifies a
    ensures SortedByName(a[..])
    ensures multiset(a[..]) == multiset(old(a[..]))
    ensures forall n :: Named(a[..], n) == Named(old(a[..]), n)
    ensures a[..] == StableSortByName(old(a[..]))
  {
    for i := 0 to a.Length
      invariant SortedByName(a[..i])
      invariant multiset(a[..]) == multiset(old(a[..]))
      invariant forall n :: Named(a[..], n) == Named(old(a[..]), n)
    {
      Insert(a, i);
    }
    assert a[..a.Length] == a[..];
    StableSortSpec(old(a[..]));
    SortedByNamedUnique(a[..], StableSortByName(old(a[..])));
  }

  /** Moves `a[i]` down past every greater name before it: a sorted prefix
      of length `i` becomes a sorted prefix of length `i + 1`, and models of
      equal names keep their order. */
  method Insert(a: array<ModelClass>, i: nat)
    requires i < a.Length && SortedByName(a[..i])
    modifies a
    ensures SortedByName(a[..i + 1])
    ensures multiset(a[..]) == multiset(old(a[..]))
    ensures forall n :: Named(a[..], n) == Named(old(a[..]), n)
  {
    var j := i;
    InsertStart(a[..], i);
    while j > 0 && Text.LexLess(a[j].name, a[j - 1].name)
      invariant 0 <= j <= i
      invariant multiset(a[..]) == multiset(old(a[..]))
      invariant forall n :: Named(a[..], n) == Named(old(a[..]), n)
      invariant Inserting(a[..], i, j)
    {
      InsertStep(a[..], i, j);
      Text.LexTrichotomy(a[j].name, a[j - 1].name);
      SwapKeepsNamed(a[..], j);
      a[j], a[j - 1] := a[j - 1], a[j];
      j := j - 1;
    }
    InsertDone(a[..], i, j);
  }

  /** The state of insertion at `j` of the element first at `i`: all of
      `s[..i + 1]` is in order except around `s[j]`, which is in order with
      everything after it. */
  ghost predicate Inserting(s: seq<ModelClass>, i: nat, j: nat)
  {
    j <= i < |s|
    && (forall p, q :: 0 <= p < q <= i && p != j && q != j ==> NotAfter(s[p], s[q]))
    && (forall q :: j < q <= i ==> NotAfter(s[j], s[q]))
  }

  lemma InsertStart(s: seq<ModelClass>, i: nat)
    requires i < |s| && SortedByName(s[..i])
    ensures Inserting(s, i, i)
  {
    assert forall p :: 0 <= p < i ==> s[..i][p] == s[p];
  }

  /** Swapping `s[j]` with a greater `s[j - 1]` moves the insertion down. */
  lemma InsertStep(s: seq<ModelClass>, i: nat, j: nat)
    requires Inserting(s, i, j) && 0 < j && Text.LexLess(s[j].name, s[j - 1].name)
    ensures Inserting(s[j := s[j - 1]][j - 1 := s[j]], i, j - 1)
  {
    var t := s[j := s[j - 1]][j - 1 := s[j]];
    NotAfterFlip(s[j - 1], s[j]);
    forall q | j - 1 < q <= i
      ensures NotAfter(t[j - 1], t[q])
    {
      if q > j {
        NotAfterTransitive(s[j], s[j - 1], s[q]) by {
          Text.LexTrichotomy(s[j].name, s[j - 1].name);
        }
      } else {
        Text.LexTrichotomy(s[j].name, s[j - 1].name);
      }
    }
  }

  /** When the inserted element meets no greater neighbour, the prefix is sorted. */
  lemma InsertDone(s: seq<ModelClass>, i: nat, j: nat)
    requires Inserting(s, i, j)
    requires j == 0 || !Text.LexLess(s[j].name, s[j - 1].name)
    ensures SortedByName(s[..i + 1])
  {
    forall p | 0 <= p < j
      ensures NotAfter(s[p], s[j])
    {
      if p < j - 1 {
        NotAfterTransitive(s[p], s[j - 1], s[j]);
      }
    }
  }

  /** One line of the listing. */
  function Line(m: ModelClass, location: Option<string>): string
  {
    if location.Some? && location.value != "" then "* " + m.name + " at " + location.value
    else "* " + m.name
  }

  /** The lines of a listing, or the first error a location lookup raises. */
  function ListingLines<E>(ms: seq<ModelClass>, locate: ModelClass -> Result<Option<string>, E>): Result<seq<string>, E>
  {
    if |ms| == 0 then Success([])
    else match ListingLines(ms[..|ms| - 1], locate)
      case Failure(e) => Failure(e)
      case Success(ls) =>
        match locate(ms[|ms| - 1])
        case Failure(e) => Failure(e)
        case Success(location) => Success(ls + [Line(ms[|ms| - 1], location)])
  }

  /** The tool's answer for a non-empty, sorted list of models. */
  function Listing<E>(ms: seq<ModelClass>, locate: ModelClass -> Result<Option<string>, E>): Result<string, E>
  {
    match ListingLines(ms, locate)
    case Failure(e) => Failure(e)
    case Success(ls) => Success(Text.Join(ls, "\n"))
  }

  /** The result loop and `"\n".join(result)`; a lookup that raises ends it. */
  method FormatListing<E>(ms: seq<ModelClass>, locate: ModelClass -> Result<Option<string>, E>)
    returns (out: Result<string, E>)
    ensures out == Listing(ms, locate)
  {
    var result: seq<string> := [];
    for i := 0 to |ms|
      invariant ListingLines(ms[..i], locate) == Success(result)
    {
      assert ms[..i + 1][..i] == ms[..i];
      var location := locate(ms[i]);
      if location.Failure? {
        FailureSticks(ms, locate, i + 1);
        return Failure(location.error);
      }
      if location.value.Some? && location.value.value != "" {
        result := result + ["* " + ms[i].name + " at " + location.value.value];
      } else {
        result := result + ["* " + ms[i].name];
      }
    }
    assert ms[..|ms|] == ms;
    out := Success(Text.Join(result, "\n"));
  }

  /** A lookup that raises on a prefix decides the whole listing. */
  lemma {:induction false} FailureSticks<E>(ms: seq<ModelClass>, locate: ModelClass -> Result<Option<string>, E>, i: nat)
    requires i <= |ms| && ListingLines(ms[..i], locate).Failure?
    ensures ListingLines(ms, locate) == ListingLines(ms[..i], locate)
    decreases |ms| - i
  {
    if i < |ms| {
      assert ms[..i + 1][..i] == ms[..i];
      FailureSticks(ms, locate, i + 1);
    } else {
      assert ms[..i] == ms;
    }
  }

  /** The listing succeeds exactly when every lookup does; it then has one
      line per model, in order, naming the model and, when the location is
      truthy, the location. */
  lemma {:induction false} ListingLinesSpec<E>(ms: seq<ModelClass>, locate: ModelClass -> Result<Option<string>, E>)
    ensures ListingLines(ms, locate).Success? <==> forall k :: 0 <= k < |ms| ==> locate(ms[k]).Success?
    ensures ListingLines(ms, locate).Success? ==>
      var ls := ListingLines(ms, locate).value;
      && |ls| == |ms|
      && forall k :: 0 <= k < |ms| ==> ls[k] == Line(ms[k], locate(ms[k]).value)
  {
    if |ms| > 0 {
      var init := ms[..|ms| - 1];
      ListingLinesSpec(init, locate);
      assert forall k :: 0 <= k < |init| ==> init[k] == ms[k];
    }
  }

  /** A line begins with the model's name and, when no name or location
      holds a line break, holds none itself. */
  lemma LineShape(m: ModelClass, location: Option<string>)
    ensures Text.StartsWith(Line(m, location), "* " + m.name)
    ensures '\n' !in m.name && (location.None? || '\n' !in location.value) ==> '\n' !in Line(m, location)
  {
    var head := "* " + m.name;
    if location.Some? && location.value != "" {
      assert Line(m, location) == head + (" at " + location.value);
      assert Line(m, location)[..|head|] == head;
    } else {
      assert Line(m, location) == head;
    }
  }

  /** Splitting a successful listing on line breaks gives back its lines
      when no name or location holds one. */
  lemma ListingSplits<E>(ms: seq<ModelClass>, locate: ModelClass -> Result<Option<string>, E>)
    requires |ms| >= 1 && ListingLines(ms, locate).Success?
    requires forall k :: 0 <= k < |ms| ==> '\n' !in ms[k].name
    requires forall k :: 0 <= k < |ms| ==>
      locate(ms[k]).Success? && (locate(ms[k]).value.None? || '\n' !in locate(ms[k]).value.value)
    ensures Text.Split(Listing(ms, locate).value, '\n') == ListingLines(ms, locate).value
  {
    ListingLinesSpec(ms, locate);
    var ls := ListingLines(ms, locate).value;
    forall k | 0 <= k < |ls|
      ensures '\n' !in ls[k]
    {
      LineShape(ms[k], locate(ms[k]).value);
    }
    Text.SplitJoin(ls, '\n');
  }
}
