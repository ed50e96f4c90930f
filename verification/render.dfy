/** The list logic of `render`: which of the `.j2` templates found are
    rendered for a `fmt` argument, and the file each is written to. The
    template loader, the rendering itself and the file writes are left out. */
module Render {
  import opened Text

  /** The text after the last dot, `name.rsplit(".", 1)[1]`. */
  function Extension(name: string): string {
    var parts := Split(name, '.');
    parts[|parts| - 1]
  }

  /** A name `list_templates(extensions="j2")` returns. Jinja2 keeps a name
      that has a dot and whose extension is `in "j2"`; with a string rather
      than a list that is a substring test, so the extensions `j2`, `j`,
      `2` and the empty one all pass. */
  predicate IsTemplateName(name: string) {
    '.' in name && Extension(name) in {"", "j", "2", "j2"}
  }

  /** `name.split(".")[-2]`, the component before the last dot. */
  function FormatOf(name: string): string
    requires '.' in name
  {
    var parts := Split(name, '.');
    if |parts| >= 2 then parts[|parts| - 2]
    else
      assert false;
      ""
  }

  /** A template keeps when `fmt` is `all` or names its format. Every name
      the listing returns has a dot, which is all `split(".")[-2]` needs. */
  predicate Selected(name: string, fmt: string)
    requires '.' in name
  {
    fmt == "all" || FormatOf(name) in Split(fmt, ',')
  }

  /** The templates `render` goes through: all of them for `all`, else the
      ones whose format is one of the comma-separated entries of `fmt`, in
      their original order. */
  function SelectTemplates(templates: seq<string>, fmt: string): (r: seq<string>)
    requires forall i :: 0 <= i < |templates| ==> '.' in templates[i]
    ensures fmt == "all" ==> r == templates
    ensures forall n :: n in r <==> n in templates && Selected(n, fmt)
    ensures |r| <= |templates|
    decreases |templates|
  {
    if |templates| == 0 then []
    else
      var rest := SelectTemplates(templates[1..], fmt);
      assert templates == [templates[0]] + templates[1..];
      if Selected(templates[0], fmt) then [templates[0]] + rest else rest
  }

  /** Selection looks at each name on its own: selecting from a
      concatenation selects from each part. */
  lemma {:induction false} SelectAppend(a: seq<string>, b: seq<string>, fmt: string)
    requires forall i :: 0 <= i < |a| ==> '.' in a[i]
    requires forall i :: 0 <= i < |b| ==> '.' in b[i]
    ensures forall i :: 0 <= i < |a + b| ==> '.' in (a + b)[i]
    ensures SelectTemplates(a + b, fmt) == SelectTemplates(a, fmt) + SelectTemplates(b, fmt)
    decreases |a|
  {
    if |a| == 0 {
      assert a + b == b;
    } else {
      assert (a + b)[1..] == a[1..] + b;
      SelectAppend(a[1..], b, fmt);
    }
  }

  /** A single template is kept exactly when it is selected; with
      `SelectAppend` this pins the selection down as the order-keeping filter. */
  lemma SelectOne(name: string, fmt: string)
    requires '.' in name
    ensures SelectTemplates([name], fmt) == if Selected(name, fmt) then [name] else []
  {
    assert [name][1..] == [];
  }

  /** `tmpl_name[:-3]`: the name without its last three characters, or
      empty when it is shorter than that. */
  function OutputName(name: string): (r: string)
    ensures |r| == if |name| >= 3 then |name| - 3 else 0
    ensures r == name[..|r|]
    ensures |name| >= 3 && name[|name| - 3..] == ".j2" ==> r + ".j2" == name
  {
    if |name| >= 3 then name[..|name| - 3] else ""
  }

  /** A template named `<base>.<format>.j2` has the format `<format>` and
      is written to `<base>.<format>`. */
  lemma TemplateLayout(base: string, format: string)
    requires '.' !in format
    ensures IsTemplateName(base + "." + format + ".j2")
    ensures FormatOf(base + "." + format + ".j2") == format
    ensures OutputName(base + "." + format + ".j2") == base + "." + format
  {
    var name := base + "." + format + ".j2";
    assert name == (base + "." + format) + ['.'] + "j2";
    assert base + "." + format == base + ['.'] + format;
    SplitAround(base + "." + format, '.', "j2");
    SplitAround(base, '.', format);
    SplitJoin([format], '.');
    SplitJoin(["j2"], '.');
    assert name[|name| - 3..] == ".j2";
  }

  /** Which names after a last dot the listing keeps: exactly those whose
      extension is a substring of `j2`. */
  lemma ExtensionFilter(stem: string, ext: string)
    requires '.' !in ext
    ensures IsTemplateName(stem + "." + ext) <==> ext == "" || ext == "j" || ext == "2" || ext == "j2"
  {
    var name := stem + "." + ext;
    assert name == stem + ['.'] + ext;
    assert '.' in name by {
      assert name[|stem|] == '.';
    }
    SplitAround(stem, '.', ext);
    SplitJoin([ext], '.');
  }

  /** A template named `<base>.<format>.j2` is selected exactly when `fmt`
      is `all` or one of its comma-separated entries is `<format>`. */
  lemma SelectedByLayout(base: string, format: string, fmt: string)
    requires '.' !in format
    ensures IsTemplateName(base + "." + format + ".j2")
    ensures Selected(base + "." + format + ".j2", fmt) <==> fmt == "all" || format in Split(fmt, ',')
  {
    TemplateLayout(base, format);
  }

  lemma ExampleFormats()
    ensures Split("html,xml", ',') == ["html", "xml"]
  {
    assert "html,xml" == "html" + [','] + "xml";
    SplitAround("html", ',', "xml");
    SplitJoin(["html"], ',');
    SplitJoin(["xml"], ',');
  }

  /** With `fmt` set to `html,xml`, exactly the HTML and XML templates are selected. */
  lemma HtmlXmlExample(name: string, base: string, format: string, fmt: string)
    requires '.' !in format && name == base + "." + format + ".j2"
    requires fmt == "html,xml"
    ensures IsTemplateName(name)
    ensures Selected(name, fmt) <==> format == "html" || format == "xml"
  {
    SelectedByLayout(base, format, fmt);
    ExampleFormats();
  }
}
