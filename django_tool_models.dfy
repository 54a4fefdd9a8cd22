/**
  The `get_models` tool of the Django tool set
  (src/tidewave/django/tools/models.py): the same listing as
  src/tidewave/django/models.py, with the source location computed here.
  `inspect.getsourcefile`, `inspect.getsourcelines` and `os.getcwd()` are
  parameters.
*/
module DjangoToolModels {
  import opened Wrappers
  import Text
  import PosixPath
  import opened ModelListing
  import DjangoModels
  import opened SourceLocation

  /** The exceptions `_get_relative_source_location` swallows. */
  predicate Swallowed(e: Exc)
  {
    e.kind == OSError || e.kind == TypeError
  }

  /** `_get_relative_source_location`: both inspections run first; a falsy
      file gives None; a file under the working directory is shown relative
      to it, any other as given; an OSError or TypeError gives None and any
      other exception propagates. A location needs both inspections to
      succeed and a non-empty file; the swallowed kinds never escape. */
  function RelativeSourceLocation(sourceFile: Result<Option<string>, Exc>, sourceLine: Result<int, Exc>,
                                  cwd: string): (r: Result<Option<string>, Exc>)
    ensures r.Success? && r.value.Some? ==>
      sourceFile.Success? && sourceFile.value.Some? && sourceFile.value.value != "" && sourceLine.Success?
    ensures r.Failure? ==> !Swallowed(r.error)
  {
    if sourceFile.Failure? then
      (if Swallowed(sourceFile.error) then Success(None) else Failure(sourceFile.error))
    else if sourceLine.Failure? then
      (if Swallowed(sourceLine.error) then Success(None) else Failure(sourceLine.error))
    else
      var file := sourceFile.value;
      var line := Text.IntToString(sourceLine.value);
      if file.None? || file.value == "" then Success(None)
      else
        match PosixPath.RelativeTo(PosixPath.Parse(file.value), PosixPath.Parse(cwd))
        case Some(relative) => Success(Some(PosixPath.Render(relative) + ":" + line))
        case None => Success(Some(file.value + ":" + line))
  }

  /** A location, when there is one, is a path and a line: either the path
      relative to the working directory, which joined back onto it gives the
      file's own path, or the file as given when it lies elsewhere. */
  lemma RelativeSourceLocationSpec(file: string, line: int, cwd: string)
    requires file != ""
    ensures var r := RelativeSourceLocation(Success(Some(file)), Success(line), cwd);
      var p := PosixPath.Parse(file);
      var base := PosixPath.Parse(cwd);
      && r.Success? && r.value.Some?
      && Text.EndsWith(r.value.value, ":" + Text.IntToString(line))
      && (PosixPath.RelativeTo(p, base).None? ==> r.value.value == file + ":" + Text.IntToString(line))
      && (PosixPath.RelativeTo(p, base).Some? ==>
            var rel := PosixPath.RelativeTo(p, base).value;
            && r.value.value == PosixPath.Render(rel) + ":" + Text.IntToString(line)
            && !rel.absolute
            && base.parts + rel.parts == p.parts)
  {
    var p := PosixPath.Parse(file);
    var base := PosixPath.Parse(cwd);
    var tail := ":" + Text.IntToString(line);
    var rel := PosixPath.RelativeTo(p, base);
    var head := if rel.Some? then PosixPath.Render(rel.value) else file;
    assert RelativeSourceLocation(Success(Some(file)), Success(line), cwd)
      == Success(Some(head + ":" + Text.IntToString(line)));
    assert head + ":" + Text.IntToString(line) == head + tail;
    assert (head + tail)[|head + tail| - |tail|..] == tail;
    if rel.Some? {
      PosixPath.RelativeJoin(p, base);
    }
  }

  /** Failing inspections and falsy files never fail the tool unless the
      exception is one the function does not catch. */
  lemma RelativeSourceLocationErrors(sourceFile: Result<Option<string>, Exc>, sourceLine: Result<int, Exc>, cwd: string)
    ensures var r := RelativeSourceLocation(sourceFile, sourceLine, cwd);
      && (r.Failure? <==>
            (sourceFile.Failure? && !Swallowed(sourceFile.error))
            || (sourceFile.Success? && sourceLine.Failure? && !Swallowed(sourceLine.error)))
      && ((sourceFile.Success? && sourceLine.Success? && (sourceFile.value.None? || sourceFile.value.value == ""))
          ==> r == Success(None))
  {
  }

  /** `get_models` with this file's location lookup. */
  method GetModels(models: seq<DjangoModels.DjangoModel>, inspectFile: ModelClass -> Result<Option<string>, Exc>,
                   inspectLine: ModelClass -> Result<int, Exc>, cwd: string) returns (out: Result<string, Exc>)
    ensures DjangoModels.NonAbstract(models) == [] ==> out == Success(DjangoModels.NoModelsMessage)
    ensures DjangoModels.NonAbstract(models) != [] ==>
      exists ms :: SortedByName(ms) && multiset(ms) == multiset(DjangoModels.NonAbstract(models))
        && out == Listing(ms, m => RelativeSourceLocation(inspectFile(m), inspectLine(m), cwd))
    ensures DjangoModels.NonAbstract(models) != [] ==>
      out == Listing(StableSortByName(DjangoModels.NonAbstract(models)),
                     m => RelativeSourceLocation(inspectFile(m), inspectLine(m), cwd))
  {
    out := DjangoModels.GetModels(models, m => RelativeSourceLocation(inspectFile(m), inspectLine(m), cwd));
  }
}
