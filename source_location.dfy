/**
  The `get_source_location` tool (src/tidewave/tools/get_src_location.py):
  resolves a dotted reference such as "pathlib.Path.resolve" to a Python
  object and reports "file:line" of its definition.

  The interpreter is a parameter: importing a module, reading an attribute,
  the table of loaded modules, the builtins module, and the two `inspect`
  queries, each of which may raise.
*/
module SourceLocation {
  import opened Wrappers
  import Text

  /** A Python object: None, or some other object by identity. */
  datatype Value = PyNone | Ref(id: nat)

  datatype ExcKind = ImportError | AttributeError | TypeError | OSError | ValueError | NameError | OtherError

  /** A raised exception: its class and its message. */
  datatype Exc = Exc(kind: ExcKind, message: string)

  /** The parts of the interpreter the tool consults. */
  datatype Runtime = Runtime(
    importModule: string -> Result<Value, Exc>,
    getAttr: (Value, string) -> Result<Value, Exc>,
    sysModules: map<string, Value>,
    builtins: Value,
    sourceFile: Value -> Result<Option<string>, Exc>,
    sourceLine: Value -> Result<int, Exc>)

  // ---------------------------------------------------------------------
  // Attribute chains

  /** `_traverse_attrs` as a value: getattr along the chain, stopping at the
      first exception. */
  function Traverse(rt: Runtime, obj: Value, attrs: seq<string>): Result<Value, Exc>
    decreases |attrs|
  {
    if |attrs| == 0 then Success(obj)
    else match rt.getAttr(obj, attrs[0])
      case Failure(e) => Failure(e)
      case Success(next) => Traverse(rt, next, attrs[1..])
  }

  /** Following a chain in two pieces is following it in one. */
  lemma {:induction false} TraverseConcat(rt: Runtime, obj: Value, a: seq<string>, b: seq<string>)
    ensures Traverse(rt, obj, a + b) ==
      match Traverse(rt, obj, a)
      case Failure(e) => Failure(e)
      case Success(mid) => Traverse(rt, mid, b)
    decreases |a|
  {
    if |a| > 0 {
      assert (a + b)[0] == a[0] && (a + b)[1..] == a[1..] + b;
      match rt.getAttr(obj, a[0])
      case Failure(_) =>
      case Success(next) => TraverseConcat(rt, next, a[1..], b);
    } else {
      assert a + b == b;
    }
  }

  /** `_traverse_attrs`. */
  method TraverseAttrs(rt: Runtime, obj: Value, attrs: seq<string>) returns (r: Result<Value, Exc>)
    ensures r == Traverse(rt, obj, attrs)
  {
    var current := obj;
    for i := 0 to |attrs|
      invariant Traverse(rt, obj, attrs) == Traverse(rt, current, attrs[i..])
    {
      assert attrs[i..][1..] == attrs[i + 1..];
      var next := rt.getAttr(current, attrs[i]);
      if next.Failure? {
        return Failure(next.error);
      }
      current := next.value;
    }
    return Success(current);
  }

  // ---------------------------------------------------------------------
  // Resolution

  /** The non-empty pieces of `s` between dots. */
  function NonEmpty(pieces: seq<string>): (r: seq<string>)
    ensures forall k :: 0 <= k < |r| ==> r[k] != "" && r[k] in pieces
  {
    if |pieces| == 0 then []
    else if pieces[0] == "" then NonEmpty(pieces[1..])
    else [pieces[0]] + NonEmpty(pieces[1..])
  }

  /** `[part for part in reference.split(".") if part]`. */
  function Parts(reference: string): (parts: seq<string>)
    ensures forall k :: 0 <= k < |parts| ==> parts[k] != "" && '.' !in parts[k]
  {
    NonEmpty(Text.Split(reference, '.'))
  }

  /** The exceptions strategy 2 steps over. */
  predicate Skipped(e: Exc)
  {
    e.kind == ImportError || e.kind == AttributeError
  }

  /** Attempt `l` of strategy 2 failed in a way the loop steps over: the
      prefix of `l` parts did not import, or the rest of the chain did not
      resolve on it, with an ImportError or AttributeError. */
  predicate AttemptSkipped(rt: Runtime, parts: seq<string>, l: nat)
    requires 0 < l < |parts|
  {
    match rt.importModule(Text.Join(parts[..l], "."))
    case Failure(e) => Skipped(e)
    case Success(m) => Traverse(rt, m, parts[l..]).Failure? && Skipped(Traverse(rt, m, parts[l..]).error)
  }

  /** Strategy 2, from the prefix of `i` parts down to the prefix of one part:
      import the prefix as a module and follow the rest as attributes.
      None when every attempt failed with an ImportError or AttributeError;
      an exception of any other kind escapes. */
  function Progressive(rt: Runtime, parts: seq<string>, i: nat): (r: Result<Option<Value>, Exc>)
    requires i < |parts|
    ensures r.Failure? ==> !Skipped(r.error)
  {
    if i == 0 then Success(None)
    else
      var attempt :=
        match rt.importModule(Text.Join(parts[..i], "."))
        case Failure(e) => Failure(e)
        case Success(m) => Traverse(rt, m, parts[i..]);
      match attempt
      case Success(obj) => Success(Some(obj))
      case Failure(e) => if Skipped(e) then Progressive(rt, parts, i - 1) else Failure(e)
  }

  /** Strategy 3 gives way to strategy 4: the first part names no loaded
      module, or the chain stops on it with an AttributeError. */
  predicate LoadedModuleLacks(rt: Runtime, parts: seq<string>)
    requires |parts| > 0
  {
    parts[0] !in rt.sysModules
    || (Traverse(rt, rt.sysModules[parts[0]], parts[1..]).Failure?
        && Traverse(rt, rt.sysModules[parts[0]], parts[1..]).error.kind == AttributeError)
  }

  /** Strategies 3 and 4: the already-loaded module named by the first part,
      then the builtins, each stepping over AttributeError. The loaded module
      wins when the chain resolves on it; the builtins are consulted only
      when it is absent or lacks an attribute; an AttributeError never
      escapes. */
  function Loaded(rt: Runtime, parts: seq<string>): (r: Result<Value, Exc>)
    requires |parts| > 0
    ensures parts[0] in rt.sysModules && Traverse(rt, rt.sysModules[parts[0]], parts[1..]).Success? ==>
      r == Traverse(rt, rt.sysModules[parts[0]], parts[1..])
    ensures LoadedModuleLacks(rt, parts) && Traverse(rt, rt.builtins, parts).Success? ==>
      r == Traverse(rt, rt.builtins, parts)
    ensures LoadedModuleLacks(rt, parts) && Traverse(rt, rt.builtins, parts).Failure? ==>
      (Traverse(rt, rt.builtins, parts).error.kind == AttributeError ==> r == Success(PyNone))
    ensures r.Failure? ==> r.error.kind != AttributeError
  {
    var fromModules: Result<Option<Value>, Exc> :=
      if parts[0] in rt.sysModules then
        match Traverse(rt, rt.sysModules[parts[0]], parts[1..])
        case Success(obj) => Success(Some(obj))
        case Failure(e) => if e.kind == AttributeError then Success(None) else Failure(e)
      else Success(None);
    match fromModules
    case Failure(e) => Failure(e)
    case Success(Some(obj)) => Success(obj)
    case Success(None) =>
      match Traverse(rt, rt.builtins, parts)
      case Success(obj) => Success(obj)
      case Failure(e) => if e.kind == AttributeError then Success(PyNone) else Failure(e)
  }

  /** `_resolve_reference` as a value; PyNone when nothing was found. A
      reference with no non-empty part finds nothing, and a reference that
      imports as a whole is that module. */
  function Resolve(rt: Runtime, reference: string): (r: Result<Value, Exc>)
    ensures |Parts(reference)| == 0 ==> r == Success(PyNone)
    ensures |Parts(reference)| > 0 && rt.importModule(reference).Success? ==> r == rt.importModule(reference)
  {
    var parts := Parts(reference);
    if |parts| == 0 then Success(PyNone)
    else match rt.importModule(reference)
      case Success(m) => Success(m)
      case Failure(e) =>
        if e.kind != ImportError then Failure(e)
        else match Progressive(rt, parts, |parts| - 1)
          case Failure(e2) => Failure(e2)
          case Success(Some(obj)) => Success(obj)
          case Success(None) => Loaded(rt, parts)
  }

  /** The loop of strategy 2 in `_resolve_reference`. */
  method ProgressiveImport(rt: Runtime, parts: seq<string>) returns (r: Result<Option<Value>, Exc>)
    requires |parts| > 0
    ensures r == Progressive(rt, parts, |parts| - 1)
  {
    var i := |parts| - 1;
    while i > 0
      invariant 0 <= i < |parts|
      invariant Progressive(rt, parts, |parts| - 1) == Progressive(rt, parts, i)
    {
      var modulePath := Text.Join(parts[..i], ".");
      var imported := rt.importModule(modulePath);
      if imported.Success? {
        var obj := TraverseAttrs(rt, imported.value, parts[i..]);
        if obj.Success? {
          return Success(Some(obj.value));
        }
        if !Skipped(obj.error) {
          return Failure(obj.error);
        }
      } else if !Skipped(imported.error) {
        return Failure(imported.error);
      }
      i := i - 1;
    }
    return Success(None);
  }

  /** Strategies 3 and 4 in `_resolve_reference`. */
  method FromLoaded(rt: Runtime, parts: seq<string>) returns (r: Result<Value, Exc>)
    requires |parts| > 0
    ensures r == Loaded(rt, parts)
  {
    if parts[0] in rt.sysModules {
      var obj := TraverseAttrs(rt, rt.sysModules[parts[0]], parts[1..]);
      if obj.Success? {
        return obj;
      }
      if obj.error.kind != AttributeError {
        return obj;
      }
    }
    var obj := TraverseAttrs(rt, rt.builtins, parts);
    if obj.Success? {
      return obj;
    }
    if obj.error.kind != AttributeError {
      return obj;
    }
    return Success(PyNone);
  }

  /** `_resolve_reference`: the four strategies in order. */
  method ResolveReference(rt: Runtime, reference: string) returns (r: Result<Value, Exc>)
    ensures r == Resolve(rt, reference)
  {
    var parts := Parts(reference);
    if |parts| == 0 {
      return Success(PyNone);
    }
    var whole := rt.importModule(reference);
    if whole.Success? {
      return whole;
    }
    if whole.error.kind != ImportError {
      return whole;
    }
    var found := ProgressiveImport(rt, parts);
    if found.Failure? {
      return Failure(found.error);
    }
    if found.value.Some? {
      return Success(found.value.value);
    }
    r := FromLoaded(rt, parts);
  }

  /** Strategy 2 finds nothing exactly when every one of its attempts was
      stepped over. */
  lemma {:induction false} ProgressiveNone(rt: Runtime, parts: seq<string>, i: nat)
    requires i < |parts|
    ensures Progressive(rt, parts, i) == Success(None) <==> forall l :: 0 < l <= i ==> AttemptSkipped(rt, parts, l)
  {
    if i > 0 {
      ProgressiveNone(rt, parts, i - 1);
      var m := rt.importModule(Text.Join(parts[..i], "."));
      if m.Success? {
        var t := Traverse(rt, m.value, parts[i..]);
        assert AttemptSkipped(rt, parts, i) <==> t.Failure? && Skipped(t.error);
      } else {
        assert AttemptSkipped(rt, parts, i) <==> Skipped(m.error);
      }
    }
  }

  /** When strategy 2 finds an object, it came from the LONGEST importable
      prefix whose remaining attributes all exist: every longer prefix failed
      to import or to traverse. */
  lemma {:induction false} ProgressiveLongest(rt: Runtime, parts: seq<string>, i: nat)
    requires i < |parts|
    ensures Progressive(rt, parts, i).Success? && Progressive(rt, parts, i).value.Some? ==>
      exists j :: 0 < j <= i
        && rt.importModule(Text.Join(parts[..j], ".")).Success?
        && Traverse(rt, rt.importModule(Text.Join(parts[..j], ".")).value, parts[j..])
             == Success(Progressive(rt, parts, i).value.value)
        && forall l :: j < l <= i ==> AttemptSkipped(rt, parts, l)
  {
    if i > 0 {
      ProgressiveLongest(rt, parts, i - 1);
    }
  }

  /** Every object the resolver returns was reached by one of the four
      strategies from the reference's own parts, and every earlier strategy
      had failed in a way the resolver steps over. */
  lemma ResolveSound(rt: Runtime, reference: string)
    requires Resolve(rt, reference).Success? && Resolve(rt, reference).value != PyNone
    ensures var parts, obj, whole := Parts(reference), Resolve(rt, reference).value, rt.importModule(reference);
      |parts| > 0
      && (whole == Success(obj)
          || (whole.Failure? && whole.error.kind == ImportError
              && (exists j :: 0 < j < |parts| && rt.importModule(Text.Join(parts[..j], ".")).Success?
                    && Traverse(rt, rt.importModule(Text.Join(parts[..j], ".")).value, parts[j..]) == Success(obj)
                    && forall l :: j < l < |parts| ==> AttemptSkipped(rt, parts, l)))
          || (whole.Failure? && whole.error.kind == ImportError
              && (forall l :: 0 < l < |parts| ==> AttemptSkipped(rt, parts, l))
              && ((parts[0] in rt.sysModules && Traverse(rt, rt.sysModules[parts[0]], parts[1..]) == Success(obj))
                  || (LoadedModuleLacks(rt, parts) && Traverse(rt, rt.builtins, parts) == Success(obj)))))
  {
    var parts := Parts(reference);
    if |parts| > 0 {
      ProgressiveLongest(rt, parts, |parts| - 1);
      ProgressiveNone(rt, parts, |parts| - 1);
    }
  }

  /** The strategies are tried in order and the first that succeeds wins:
      a reference that imports is that module; after an ImportError, the
      object strategy 2 finds; only when every attempt of strategy 2 was
      stepped over, strategies 3 and 4. Any other exception escapes at the
      step that raised it. */
  lemma ResolveFirstWins(rt: Runtime, reference: string)
    requires |Parts(reference)| > 0
    ensures var parts, whole := Parts(reference), rt.importModule(reference);
      && (whole.Success? ==> Resolve(rt, reference) == Success(whole.value))
      && (whole.Failure? && whole.error.kind != ImportError ==> Resolve(rt, reference) == whole)
      && (whole.Failure? && whole.error.kind == ImportError ==>
            match Progressive(rt, parts, |parts| - 1)
            case Success(Some(obj)) => Resolve(rt, reference) == Success(obj)
            case Success(None) => Resolve(rt, reference) == Loaded(rt, parts)
            case Failure(e) => Resolve(rt, reference) == Failure(e) && !Skipped(e))
    ensures var parts, whole := Parts(reference), rt.importModule(reference);
      whole.Failure? && whole.error.kind == ImportError
      && (forall l :: 0 < l < |parts| ==> AttemptSkipped(rt, parts, l)) ==>
        Resolve(rt, reference) == Loaded(rt, parts)
  {
    ProgressiveNone(rt, Parts(reference), |Parts(reference)| - 1);
  }

  // ---------------------------------------------------------------------
  // The tool

  function NotFound(reference: string): Exc
  {
    Exc(NameError, "could not find source location for " + reference)
  }

  /** `_normalized_resolve_reference`: import and attribute failures become
      NameError, type and OS failures ValueError. */
  function NormalizedResolve(rt: Runtime, reference: string): Result<Value, Exc>
  {
    match Resolve(rt, reference)
    case Success(obj) => Success(obj)
    case Failure(e) =>
      if e.kind == ImportError || e.kind == AttributeError then
        Failure(Exc(NameError, "could not resolve reference " + reference))
      else if e.kind == TypeError || e.kind == OSError then
        Failure(Exc(ValueError, "invalid reference format " + reference))
      else Failure(e)
  }

  /** `get_source_location`. The empty reference is refused outright; a
      location is reported only for an object the stripped reference
      resolves to; the type and OS errors of resolution and of `inspect`
      never escape as such. */
  function GetSourceLocation(rt: Runtime, reference: string): (r: Result<string, Exc>)
    ensures reference == "" ==> r == Failure(Exc(ValueError, "Reference must be a non-empty string"))
    ensures r.Success? ==>
      Resolve(rt, Text.Strip(reference)).Success? && Resolve(rt, Text.Strip(reference)).value != PyNone
    ensures r.Failure? ==> r.error.kind != TypeError && r.error.kind != OSError
  {
    if reference == "" then Failure(Exc(ValueError, "Reference must be a non-empty string"))
    else
      var ref := Text.Strip(reference);
      match NormalizedResolve(rt, ref)
      case Failure(e) => Failure(e)
      case Success(obj) =>
        if obj == PyNone then Failure(NotFound(ref))
        else
          var lookup: Result<(Option<string>, int), Exc> :=
            match rt.sourceFile(obj)
            case Failure(e) => Failure(e)
            case Success(file) =>
              match rt.sourceLine(obj)
              case Failure(e) => Failure(e)
              case Success(line) => Success((file, line));
          match lookup
          case Failure(e) =>
            if e.kind == OSError || e.kind == TypeError then Failure(NotFound(ref)) else Failure(e)
          case Success((file, line)) =>
            if file.Some? && file.value != "" then Success(file.value + ":" + Text.IntToString(line))
            else Failure(NotFound(ref))
  }

  const Expected: set<ExcKind> := {ImportError, AttributeError, TypeError, OSError}

  /** An interpreter whose own failures are all of the kinds the tool
      expects: import, attribute, type and OS errors while resolving, and
      type and OS errors from `inspect`. */
  ghost predicate WellBehaved(rt: Runtime)
  {
    (forall s :: rt.importModule(s).Failure? ==> rt.importModule(s).error.kind in Expected)
    && (forall v, a :: rt.getAttr(v, a).Failure? ==> rt.getAttr(v, a).error.kind in Expected)
    && (forall v :: rt.sourceFile(v).Failure? ==> rt.sourceFile(v).error.kind in {TypeError, OSError})
    && (forall v :: rt.sourceLine(v).Failure? ==> rt.sourceLine(v).error.kind in {TypeError, OSError})
  }

  lemma {:induction false} TraverseWellBehaved(rt: Runtime, obj: Value, attrs: seq<string>)
    requires WellBehaved(rt)
    ensures Traverse(rt, obj, attrs).Failure? ==>
      Traverse(rt, obj, attrs).error.kind in Expected
    decreases |attrs|
  {
    if |attrs| > 0 && rt.getAttr(obj, attrs[0]).Success? {
      TraverseWellBehaved(rt, rt.getAttr(obj, attrs[0]).value, attrs[1..]);
    }
  }

  lemma {:induction false} ProgressiveWellBehaved(rt: Runtime, parts: seq<string>, i: nat)
    requires WellBehaved(rt) && i < |parts|
    ensures Progressive(rt, parts, i).Failure? ==>
      Progressive(rt, parts, i).error.kind in Expected
  {
    if i > 0 {
      var m := rt.importModule(Text.Join(parts[..i], "."));
      if m.Success? {
        TraverseWellBehaved(rt, m.value, parts[i..]);
      }
      ProgressiveWellBehaved(rt, parts, i - 1);
    }
  }

  lemma ResolveWellBehaved(rt: Runtime, reference: string)
    requires WellBehaved(rt)
    ensures Resolve(rt, reference).Failure? ==> Resolve(rt, reference).error.kind in Expected
  {
    var parts := Parts(reference);
    if |parts| > 0 {
      ProgressiveWellBehaved(rt, parts, |parts| - 1);
      if parts[0] in rt.sysModules {
        TraverseWellBehaved(rt, rt.sysModules[parts[0]], parts[1..]);
      }
      TraverseWellBehaved(rt, rt.builtins, parts);
    }
  }

  /** With a well-behaved interpreter the tool either answers "file:line"
      with a non-empty file, or raises ValueError or NameError. */
  lemma SourceLocationOutcome(rt: Runtime, reference: string)
    requires WellBehaved(rt)
    ensures var r := GetSourceLocation(rt, reference);
      && (r.Failure? ==> r.error.kind == ValueError || r.error.kind == NameError)
      && (r.Success? ==> exists file: string, line: int ::
            file != "" && r.value == file + ":" + Text.IntToString(line))
  {
    if reference != "" {
      var ref := Text.Strip(reference);
      ResolveWellBehaved(rt, ref);
      var n := NormalizedResolve(rt, ref);
      assert n.Failure? ==> n.error.kind == ValueError || n.error.kind == NameError;
      if n.Success? && n.value != PyNone {
        var file, line := rt.sourceFile(n.value), rt.sourceLine(n.value);
        if file.Success? && line.Success? && file.value.Some? && file.value.value != "" {
          assert GetSourceLocation(rt, reference) == Success(file.value.value + ":" + Text.IntToString(line.value));
        }
      }
    }
  }

  /** The answer for an object the stripped reference resolves to: the
      source file, a colon and the first line number, when `getsourcefile`
      names a non-empty file and `getsourcelines` succeeds; NameError "could
      not find source location for …" when the file is missing or empty or
      `inspect` fails with OSError or TypeError; and any other failure of
      `inspect` unchanged. Resolution failures arrive normalised, and a
      reference resolving to None is not found. */
  lemma LocationText(rt: Runtime, reference: string)
    requires reference != ""
    ensures var ref := Text.Strip(reference);
      NormalizedResolve(rt, ref).Failure? ==>
        GetSourceLocation(rt, reference) == Failure(NormalizedResolve(rt, ref).error)
    ensures var ref := Text.Strip(reference);
      NormalizedResolve(rt, ref) == Success(PyNone) ==> GetSourceLocation(rt, reference) == Failure(NotFound(ref))
    ensures var ref := Text.Strip(reference); var n := NormalizedResolve(rt, ref);
      n.Success? && n.value != PyNone ==>
        var file, line := rt.sourceFile(n.value), rt.sourceLine(n.value);
        && (file.Success? && line.Success? && file.value.Some? && file.value.value != "" ==>
              GetSourceLocation(rt, reference) == Success(file.value.value + ":" + Text.IntToString(line.value)))
        && (file.Success? && line.Success? && (file.value.None? || file.value.value == "") ==>
              GetSourceLocation(rt, reference) == Failure(NotFound(ref)))
        && (file.Failure? ==>
              GetSourceLocation(rt, reference) ==
                if file.error.kind in {OSError, TypeError} then Failure(NotFound(ref)) else Failure(file.error))
        && (file.Success? && line.Failure? ==>
              GetSourceLocation(rt, reference) ==
                if line.error.kind in {OSError, TypeError} then Failure(NotFound(ref)) else Failure(line.error))
  {
  }

  /** With a well-behaved interpreter, an object that resolves is reported
      at its file and line exactly when `inspect` names a non-empty file,
      and is otherwise not found. */
  lemma LocationOfResolved(rt: Runtime, reference: string)
    requires WellBehaved(rt) && reference != ""
    requires NormalizedResolve(rt, Text.Strip(reference)).Success?
    ensures var ref := Text.Strip(reference); var obj := NormalizedResolve(rt, ref).value;
      var file, line := rt.sourceFile(obj), rt.sourceLine(obj);
      GetSourceLocation(rt, reference) ==
        if obj != PyNone && file.Success? && line.Success? && file.value.Some? && file.value.value != ""
        then Success(file.value.value + ":" + Text.IntToString(line.value))
        else Failure(NotFound(ref))
  {
    LocationText(rt, reference);
  }

  /** A reference that is blank after stripping, or made only of dots,
      is never found. */
  lemma BlankReferenceNotFound(rt: Runtime, reference: string)
    requires reference != "" && |Parts(Text.Strip(reference))| == 0
    ensures GetSourceLocation(rt, reference) == Failure(NotFound(Text.Strip(reference)))
  {
  }
}
