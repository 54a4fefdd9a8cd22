/**
  The part of `pathlib.PurePosixPath` the Django adapters use: parsing a
  string into an anchor and components, `str()` of a path, `is_absolute()`
  and `relative_to()`.
*/
module PosixPath {
  import opened Wrappers
  import Text

  /** A path: whether it starts at the root, and its components (none empty,
      none ".", none holding "/"). */
  datatype PurePath = PurePath(absolute: bool, parts: seq<string>)

  predicate Component(c: string)
  {
    c != "" && c != "." && '/' !in c
  }

  predicate WellFormed(p: PurePath)
  {
    forall k :: 0 <= k < |p.parts| ==> Component(p.parts[k])
  }

  /** The non-empty, non-"." pieces between slashes. */
  function Components(pieces: seq<string>): (cs: seq<string>)
    ensures forall k :: 0 <= k < |cs| ==> cs[k] in pieces && cs[k] != "" && cs[k] != "."
  {
    if |pieces| == 0 then []
    else if pieces[|pieces| - 1] == "" || pieces[|pieces| - 1] == "." then Components(pieces[..|pieces| - 1])
    else Components(pieces[..|pieces| - 1]) + [pieces[|pieces| - 1]]
  }

  /** `Path(s)`: repeated and trailing slashes and "." components vanish. */
  function Parse(s: string): (p: PurePath)
    ensures WellFormed(p)
  {
    PurePath(Text.StartsWith(s, "/"), Components(Text.Split(s, '/')))
  }

  /** `str(path)`. */
  function Render(p: PurePath): string
  {
    if p.absolute then "/" + Text.Join(p.parts, "/")
    else if p.parts == [] then "."
    else Text.Join(p.parts, "/")
  }

  /** `path.relative_to(base)`; None where Python raises ValueError. */
  function RelativeTo(p: PurePath, base: PurePath): (r: Option<PurePath>)
    ensures r.Some? <==> p.absolute == base.absolute && |base.parts| <= |p.parts| && p.parts[..|base.parts|] == base.parts
  {
    if p.absolute == base.absolute && |base.parts| <= |p.parts| && p.parts[..|base.parts|] == base.parts then
      Some(PurePath(false, p.parts[|base.parts|..]))
    else None
  }

  /** `base / path.relative_to(base) == path`, and the relative path is
      relative. */
  lemma RelativeJoin(p: PurePath, base: PurePath)
    requires RelativeTo(p, base).Some?
    ensures !RelativeTo(p, base).value.absolute
    ensures base.parts + RelativeTo(p, base).value.parts == p.parts
    ensures WellFormed(p) ==> WellFormed(RelativeTo(p, base).value)
  {
    assert p.parts == p.parts[..|base.parts|] + p.parts[|base.parts|..];
  }

  lemma {:induction false} ComponentsKeep(pieces: seq<string>)
    requires forall k :: 0 <= k < |pieces| ==> Component(pieces[k])
    ensures Components(pieces) == pieces
  {
    if |pieces| > 0 {
      ComponentsKeep(pieces[..|pieces| - 1]);
    }
  }

  /** Parsing what `str()` gives yields the same path: `Path(str(p)) == p`. */
  lemma ParseRender(p: PurePath)
    requires WellFormed(p)
    ensures Parse(Render(p)) == p
  {
    if p.absolute && p.parts == [] {
      ParseRoot();
    } else if p.absolute {
      ParseRenderAbsolute(p);
    } else if p.parts == [] {
      ParseDot();
    } else {
      ParseRenderRelative(p);
    }
  }

  lemma ParseRoot()
    ensures Parse("/") == PurePath(true, [])
  {
    assert Text.IndexOf("/", '/') == 0;
    assert "/"[1..] == "";
    assert Text.Split("/", '/') == ["", ""];
    assert ["", ""][..1] == [""] && [""][..0] == [];
    assert Components(["", ""]) == [];
    assert Text.StartsWith("/", "/");
  }

  lemma ParseDot()
    ensures Parse(".") == PurePath(false, [])
  {
    assert Text.Split(".", '/') == ["."];
    assert ["."][..0] == [];
    assert Components(["."]) == [];
    assert "."[..1] != "/" by {
      assert "."[..1][0] == '.';
    }
  }

  lemma ParseRenderAbsolute(p: PurePath)
    requires WellFormed(p) && p.absolute && p.parts != []
    ensures Parse(Render(p)) == p
  {
    var s := Render(p);
    Text.SplitJoin([""] + p.parts, '/');
    assert Text.Join([""] + p.parts, "/") == s;
    assert s[..1] == "/";
    ComponentsKeep(p.parts);
    ComponentsDropFirstEmpty(p.parts);
  }

  lemma ParseRenderRelative(p: PurePath)
    requires WellFormed(p) && !p.absolute && p.parts != []
    ensures Parse(Render(p)) == p
  {
    var s := Render(p);
    Text.SplitJoin(p.parts, '/');
    ComponentsKeep(p.parts);
    NotRooted(p.parts);
  }

  lemma NotRooted(parts: seq<string>)
    requires |parts| >= 1 && Component(parts[0])
    ensures !Text.StartsWith(Text.Join(parts, "/"), "/")
  {
    JoinHead(parts);
    assert parts[0][0] in parts[0];
  }

  lemma {:induction false} ComponentsDropFirstEmpty(parts: seq<string>)
    requires forall k :: 0 <= k < |parts| ==> Component(parts[k])
    ensures Components([""] + parts) == Components(parts)
  {
    if |parts| > 0 {
      ComponentsDropFirstEmpty(parts[..|parts| - 1]);
      assert ([""] + parts)[..|parts|] == [""] + parts[..|parts| - 1];
    }
  }

  lemma JoinHead(parts: seq<string>)
    requires |parts| >= 1 && parts[0] != ""
    ensures |Text.Join(parts, "/")| > 0 && Text.Join(parts, "/")[0] == parts[0][0]
  {
  }

  /** `str()` is a normal form: rendering a parsed rendering changes nothing. */
  lemma RenderIdempotent(s: string)
    ensures Render(Parse(Render(Parse(s)))) == Render(Parse(s))
  {
    ParseRender(Parse(s));
  }
}
