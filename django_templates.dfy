/**
  The debug wrapper Django templates render through
  (src/tidewave/django/templates.py): HTML output is framed by comments
  naming the template and the template it extends.

  The template is given by its node list, its `origin` and its `name`;
  the originally rendered text and `settings.BASE_DIR` are parameters.
*/
module DjangoTemplates {
  import opened Wrappers
  import Text
  import PosixPath

  /** A node of `self.nodelist`; only `ExtendsNode` matters, through
      `str(node.parent_name)`. */
  datatype Node = ExtendsNode(parentName: string) | OtherNode

  /** An attribute that may be missing (`hasattr` false) or hold None. */
  datatype Attr = Missing | Present(value: Option<string>)

  /** `self.origin`, when present and truthy. */
  datatype Origin = Origin(templateName: Attr, name: Attr)

  datatype Template = Template(nodelist: seq<Node>, origin: Option<Origin>, name: Attr)

  const Quotes: set<char> := {'\'', '"'}

  /** The stripped parent name of the last `ExtendsNode`, if any. */
  function LastExtends(nodes: seq<Node>): Option<string>
  {
    if |nodes| == 0 then None
    else if nodes[|nodes| - 1].ExtendsNode? then Some(Text.StripChars(nodes[|nodes| - 1].parentName, Quotes))
    else LastExtends(nodes[..|nodes| - 1])
  }

  /** There is a parent name exactly when some node extends. */
  lemma {:induction false} LastExtendsNone(nodes: seq<Node>)
    ensures LastExtends(nodes).None? <==> forall k :: 0 <= k < |nodes| ==> !nodes[k].ExtendsNode?
  {
    if |nodes| > 0 {
      var init := nodes[..|nodes| - 1];
      LastExtendsNone(init);
      assert forall k :: 0 <= k < |init| ==> init[k] == nodes[k];
    }
  }

  /** The parent name is the stripped parent name of the `ExtendsNode` that
      no later one follows. */
  lemma {:induction false} LastExtendsAt(nodes: seq<Node>, k: nat)
    requires k < |nodes| && nodes[k].ExtendsNode? && LastOfKind(nodes, k)
    ensures LastExtends(nodes) == Some(Text.StripChars(nodes[k].parentName, Quotes))
  {
    if k < |nodes| - 1 {
      var init := nodes[..|nodes| - 1];
      assert init[k] == nodes[k];
      assert LastOfKind(init, k);
      LastExtendsAt(init, k);
    }
  }

  /** No `ExtendsNode` follows position `k`. */
  predicate LastOfKind(nodes: seq<Node>, k: nat)
  {
    forall j :: k < j < |nodes| ==> !nodes[j].ExtendsNode?
  }

  /** The loop of `get_debug_name`: each `ExtendsNode` overwrites `parent`. */
  method FindExtends(nodes: seq<Node>) returns (parent: Option<string>)
    ensures parent == LastExtends(nodes)
  {
    parent := None;
    for i := 0 to |nodes|
      invariant parent == LastExtends(nodes[..i])
    {
      assert nodes[..i + 1][..i] == nodes[..i];
      if nodes[i].ExtendsNode? {
        parent := Some(Text.StripChars(nodes[i].parentName, Quotes));
      }
    }
    assert nodes[..|nodes|] == nodes;
  }

  /** The name `get_debug_name` settles on. A present `origin.template_name`
      is taken even when it is None. Without an origin only the template's
      own truthy name counts, so an empty name can come only from the
      origin. */
  function DebugName(t: Template): (name: Option<string>)
    ensures t.origin.None? ==> (name.Some? <==> t.name.Present? && t.name.value.Some? && t.name.value.value != "")
    ensures name.Some? && name.value == "" ==> t.origin.Some?
  {
    if t.origin.Some? && t.origin.value.templateName.Present? then t.origin.value.templateName.value
    else if t.origin.Some? && t.origin.value.name.Present? then t.origin.value.name.value
    else if t.name.Present? && t.name.value.Some? && t.name.value.value != "" then t.name.value
    else None
  }

  /** `get_debug_name`: the name and the parent name. */
  method GetDebugName(t: Template) returns (name: Option<string>, parent: Option<string>)
    ensures name == DebugName(t) && parent == LastExtends(t.nodelist)
  {
    parent := FindExtends(t.nodelist);
    if t.origin.Some? {
      if t.origin.value.templateName.Present? {
        return t.origin.value.templateName.value, parent;
      } else if t.origin.value.name.Present? {
        return t.origin.value.name.value, parent;
      }
    }
    if t.name.Present? && t.name.value.Some? && t.name.value.value != "" {
      return t.name.value, parent;
    }
    return None, parent;
  }

  /** The fallbacks in order: the origin's template name, the origin's
      name, the template's own truthy name. */
  lemma DebugNameOrder(t: Template)
    ensures t.origin.Some? && t.origin.value.templateName.Present? ==>
      DebugName(t) == t.origin.value.templateName.value
    ensures t.origin.Some? && t.origin.value.templateName.Missing? && t.origin.value.name.Present? ==>
      DebugName(t) == t.origin.value.name.value
    ensures DebugName(t).Some? ==>
      (t.origin.Some? && t.origin.value.templateName == Present(DebugName(t)))
      || (t.origin.Some? && t.origin.value.name == Present(DebugName(t)))
      || (t.name == Present(DebugName(t)) && DebugName(t).value != "")
  {
  }

  /** `str(clean_template_path(name))`: None for a falsy name; an absolute
      path under BASE_DIR relative to it; any other path normalised as
      `Path` does. A path that is not under BASE_DIR is only normalised. */
  function CleanTemplatePath(name: Option<string>, baseDir: Option<string>): (r: Option<string>)
    ensures r.None? <==> name.None? || name.value == ""
    ensures r.Some? && (baseDir.None? || PosixPath.RelativeTo(PosixPath.Parse(name.value), PosixPath.Parse(baseDir.value)).None?) ==>
      r.value == PosixPath.Render(PosixPath.Parse(name.value))
  {
    if name.None? || name.value == "" then None
    else
      var path := PosixPath.Parse(name.value);
      if path.absolute && baseDir.Some? && PosixPath.RelativeTo(path, PosixPath.Parse(baseDir.value)).Some? then
        Some(PosixPath.Render(PosixPath.RelativeTo(path, PosixPath.Parse(baseDir.value)).value))
      else Some(PosixPath.Render(path))
  }

  /** A cleaned path reads back as a path that joined onto BASE_DIR (when it
      was cut against it) gives the template's own path. */
  lemma CleanTemplatePathSpec(name: string, baseDir: Option<string>)
    requires name != ""
    ensures var r := CleanTemplatePath(Some(name), baseDir);
      var path := PosixPath.Parse(name);
      && r.Some?
      && (baseDir.None? || !path.absolute ==> PosixPath.Parse(r.value) == path)
      && (baseDir.Some? && path.absolute ==>
            var base := PosixPath.Parse(baseDir.value);
            || (PosixPath.RelativeTo(path, base).None? && PosixPath.Parse(r.value) == path)
            || (!PosixPath.Parse(r.value).absolute && base.parts + PosixPath.Parse(r.value).parts == path.parts))
  {
    var path := PosixPath.Parse(name);
    PosixPath.ParseRender(path);
    if baseDir.Some? && path.absolute {
      var base := PosixPath.Parse(baseDir.value);
      if PosixPath.RelativeTo(path, base).Some? {
        PosixPath.RelativeJoin(path, base);
        PosixPath.ParseRender(PosixPath.RelativeTo(path, base).value);
      }
    }
  }

  function StartComment(display: string, parentInfo: string): string
  {
    TemplateCommentStart + display + " " + parentInfo + " -->"
  }

  function EndComment(display: string): string
  {
    "<!-- End Template: " + display + " -->"
  }

  /** Framed output starts with the template comment and is longer than the
      text it frames. */
  lemma FramedStartsWithComment(display: string, parentInfo: string, content: string)
    ensures var out := StartComment(display, parentInfo) + content + EndComment(display);
      Text.StartsWith(out, TemplateCommentStart) && |out| > |content|
  {
    var out := StartComment(display, parentInfo) + content + EndComment(display);
    assert out[..|TemplateCommentStart|] == TemplateCommentStart;
  }

  /** The `(extends: X)` part of the start comment. */
  function ParentInfo(parent: Option<string>, baseDir: Option<string>): string
  {
    if parent.Some? && parent.value != "" then "(extends: " + CleanTemplatePath(parent, baseDir).GetOr("None") + ")" else ""
  }

  const TemplateCommentStart: string := "<!-- Template: "

  /** `debug_render`, given what the original render produced. Output that
      does not start with "<" after stripping is left alone; whatever is
      changed starts with the template comment and keeps the rendered text
      whole inside it. */
  function DebugRender(t: Template, content: string, baseDir: Option<string>): (out: string)
    ensures !Text.StartsWith(Text.Strip(content), "<") ==> out == content
    ensures out != content ==> Text.StartsWith(out, TemplateCommentStart) && |out| > |content|
  {
    if !Text.StartsWith(Text.Strip(content), "<") then content
    else
      var name := DebugName(t);
      if name.None? || name.value == "" then content
      else
        var display := CleanTemplatePath(name, baseDir).GetOr("None");
        var parentInfo := ParentInfo(LastExtends(t.nodelist), baseDir);
        FramedStartsWithComment(display, parentInfo, content);
        StartComment(display, parentInfo) + content + EndComment(display)
  }

  /** Output that is not HTML, or a template with no name, passes through. */
  lemma DebugRenderPassThrough(t: Template, content: string, baseDir: Option<string>)
    requires !Text.StartsWith(Text.Strip(content), "<") || DebugName(t).None? || DebugName(t).value == ""
    ensures DebugRender(t, content, baseDir) == content
  {
  }

  /** Otherwise the rendered text sits unchanged between a start comment
      naming the cleaned template path and the matching end comment;
      cutting the two comments off gives back exactly what was rendered. */
  lemma DebugRenderFrames(t: Template, content: string, baseDir: Option<string>)
    requires Text.StartsWith(Text.Strip(content), "<") && DebugName(t).Some? && DebugName(t).value != ""
    ensures var out := DebugRender(t, content, baseDir);
      var display := CleanTemplatePath(DebugName(t), baseDir).GetOr("None");
      var start := StartComment(display, ParentInfo(LastExtends(t.nodelist), baseDir));
      && out == start + content + EndComment(display)
      && out[|start|..|out| - |EndComment(display)|] == content
  {
    var display := CleanTemplatePath(DebugName(t), baseDir).GetOr("None");
    var start := StartComment(display, ParentInfo(LastExtends(t.nodelist), baseDir));
    var e := EndComment(display);
    assert (start + content + e)[|start|..|start| + |content|] == content;
  }

  /** The start comment names the extended template exactly when there is
      a truthy parent name, and then by its cleaned path. */
  lemma ParentInfoSpec(parent: Option<string>, baseDir: Option<string>)
    ensures ParentInfo(parent, baseDir) == "" <==> parent.None? || parent.value == ""
    ensures ParentInfo(parent, baseDir) != "" ==>
      CleanTemplatePath(parent, baseDir).Some?
      && ParentInfo(parent, baseDir) == "(extends: " + CleanTemplatePath(parent, baseDir).value + ")"
  {
    if parent.Some? && parent.value != "" {
      CleanTemplatePathSpec(parent.value, baseDir);
    }
  }
}
