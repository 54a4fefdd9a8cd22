/**
  The Django `get_models` tool (src/tidewave/django/models.py): the
  non-abstract models the app registry knows, sorted in place by name and
  listed with their source location. `apps.get_models()` and
  `get_relative_source_location` are parameters; an exception the lookup
  raises ends the tool with that exception.
*/
module DjangoModels {
  import opened Wrappers
  import opened ModelListing

  /** A registered model and its `_meta.abstract`. */
  datatype DjangoModel = DjangoModel(cls: ModelClass, isAbstract: bool)

  /** `list(filter(lambda m: not m._meta.abstract, models))`. */
  function NonAbstract(models: seq<DjangoModel>): (r: seq<ModelClass>)
    ensures |r| <= |models|
  {
    if |models| == 0 then []
    else if models[|models| - 1].isAbstract then NonAbstract(models[..|models| - 1])
    else NonAbstract(models[..|models| - 1]) + [models[|models| - 1].cls]
  }

  /** A class is kept exactly when it is registered as non-abstract, and
      nothing is left exactly when every registration is abstract. */
  lemma {:induction false} NonAbstractSpec(models: seq<DjangoModel>)
    ensures forall m :: m in NonAbstract(models) <==> DjangoModel(m, false) in models
    ensures NonAbstract(models) == [] <==> forall k :: 0 <= k < |models| ==> models[k].isAbstract
  {
    if |models| > 0 {
      var init := models[..|models| - 1];
      NonAbstractSpec(init);
      assert models == init + [models[|models| - 1]];
      if NonAbstract(models) == [] {
        assert forall k :: 0 <= k < |init| ==> init[k] == models[k];
      }
    }
  }

  const NoModelsMessage: string := "No models found in the Django application"

  /** `get_models`: the message when every model is abstract; otherwise the
      listing of the non-abstract models, sorted by name, models of equal
      names staying in the order the registry gives them. */
  method GetModels<E>(models: seq<DjangoModel>, locate: ModelClass -> Result<Option<string>, E>)
    returns (out: Result<string, E>)
    ensures NonAbstract(models) == [] ==> out == Success(NoModelsMessage)
    ensures NonAbstract(models) != [] ==>
      exists ms :: SortedByName(ms) && multiset(ms) == multiset(NonAbstract(models)) && out == Listing(ms, locate)
    ensures NonAbstract(models) != [] ==> out == Listing(StableSortByName(NonAbstract(models)), locate)
  {
    var kept := NonAbstract(models);
    if kept == [] {
      return Success(NoModelsMessage);
    }
    var a := new ModelClass[|kept|](k requires 0 <= k < |kept| => kept[k]);
    assert a[..] == kept;
    SortByName(a);
    out := FormatListing(a[..], locate);
  }
}
