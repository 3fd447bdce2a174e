/**
 * Building one site: `deploy/<site>` is emptied, every ".txt" entry is converted
 * and rendered through `post.jinja2` in reverse name order, the index is rendered
 * through `index.jinja2` with the list of posts, and every other entry whose
 * suffix is not ".txt", ".jinja2" or ".py" is copied.
 */
module SiteBuilder {
  import opened Wrappers
  import opened PathNames
  import opened Listing
  import opened DeployDir
  import opened EntryKinds

  const PostTemplateName := "post.jinja2"
  const IndexTemplateName := "index.jinja2"
  const IndexName := "index.html"

  /** What the Markdown converter returns: the HTML body and the front-matter fields. */
  datatype Converted = Converted(html: string, metadata: map<string, string>)

  /** One element of the `posts` list handed to the index template: (title, output file name). */
  datatype PostRef = PostRef(title: string, file: string)

  /**
   * The foreign libraries, as deterministic functions of their arguments:
   * `markdown2.markdown(text, extras=[...])`, `Template(post).render(out_md=..., m=...)`
   * and `Template(index).render(posts=...)`.
   */
  datatype Engine = Engine(
    convert: string -> Converted,
    renderPost: (string, Converted) -> string,
    renderIndex: (string, seq<PostRef>) -> string)

  /** The one failure the model distinguishes: a template file the site does not have. */
  datatype Failure = MissingTemplate(template: string)

  /** A site's deploy directory after its build, and the failure that stopped the build, if any. */
  datatype SiteOutcome = SiteOutcome(files: Dir, failure: Option<Failure>)

  /** The name of a post's page: `(deploy/site / name).with_suffix(".html").name`. */
  function OutputName(name: string): string {
    WithSuffix(name, ".html")
  }

  /** `metadata.get("title", fallback)`. */
  function Title(metadata: map<string, string>, fallback: string): string {
    if "title" in metadata then metadata["title"] else fallback
  }

  /** The `posts` entry for one post. */
  function RefOf(e: Entry, engine: Engine): PostRef {
    var out := OutputName(e.name);
    PostRef(Title(engine.convert(e.text).metadata, out), out)
  }

  /** The page written for one post. */
  function PageOf(e: Entry, engine: Engine, template: string): Write {
    Write(OutputName(e.name), engine.renderPost(template, engine.convert(e.text)))
  }

  /** The `posts` list built by appending one entry per post. */
  function Refs(posts: seq<Entry>, engine: Engine): (r: seq<PostRef>)
    ensures |r| == |posts|
    ensures forall k :: 0 <= k < |posts| ==> r[k] == RefOf(posts[k], engine)
    decreases |posts|
  {
    if posts == [] then []
    else
      var init := posts[..|posts| - 1];
      assert forall k :: 0 <= k < |init| ==> init[k] == posts[k];
      Refs(init, engine) + [RefOf(posts[|posts| - 1], engine)]
  }

  /** The post pages, written one per post in order. */
  function Pages(posts: seq<Entry>, engine: Engine, template: string): (r: seq<Write>)
    ensures |r| == |posts|
    ensures forall k :: 0 <= k < |posts| ==> r[k] == PageOf(posts[k], engine, template)
    decreases |posts|
  {
    if posts == [] then []
    else
      var init := posts[..|posts| - 1];
      assert forall k :: 0 <= k < |init| ==> init[k] == posts[k];
      Pages(init, engine, template) + [PageOf(posts[|posts| - 1], engine, template)]
  }

  /** The asset copies, each under its own name with its own contents. */
  function Copies(assets: seq<Entry>): (r: seq<Write>)
    ensures |r| == |assets|
    ensures forall k :: 0 <= k < |assets| ==> r[k] == Write(assets[k].name, assets[k].text)
    decreases |assets|
  {
    if assets == [] then []
    else Copies(assets[..|assets| - 1]) + [Write(assets[|assets| - 1].name, assets[|assets| - 1].text)]
  }

  /** The posts of a site in processing order. */
  function SortedPosts(site: seq<Entry>): seq<Entry> {
    Select(SortDesc(site), Post)
  }

  /** The assets of a site in processing order. */
  function SortedAssets(site: seq<Entry>): seq<Entry> {
    Select(SortDesc(site), Asset)
  }

  /** The `posts` list the index template is rendered with. */
  function PostsList(site: seq<Entry>, engine: Engine): seq<PostRef> {
    Refs(SortedPosts(site), engine)
  }

  /** The index page, rendered with the `posts` list. */
  function IndexPageOf(site: seq<Entry>, engine: Engine, template: string): Write {
    Write(IndexName, engine.renderIndex(template, PostsList(site, engine)))
  }

  /**
   * What building a site leaves in its (freshly emptied) deploy directory, and
   * whether it failed. A missing `post.jinja2` fails before anything is written;
   * a missing `index.jinja2` fails after the post pages and before the index
   * and the copies.
   */
  function Build(site: seq<Entry>, engine: Engine): SiteOutcome {
    match Lookup(site, PostTemplateName)
    case None => SiteOutcome(map[], Some(MissingTemplate(PostTemplateName)))
    case Some(postTemplate) =>
      var pages := Pages(SortedPosts(site), engine, postTemplate);
      match Lookup(site, IndexTemplateName)
      case None => SiteOutcome(Apply(map[], pages), Some(MissingTemplate(IndexTemplateName)))
      case Some(indexTemplate) =>
        SiteOutcome(Apply(map[], pages + [IndexPageOf(site, engine, indexTemplate)] + Copies(SortedAssets(site))), None)
  }

  /** One more post adds its element at the end of the `posts` list. */
  lemma RefsSnoc(posts: seq<Entry>, e: Entry, engine: Engine)
    ensures Refs(posts + [e], engine) == Refs(posts, engine) + [RefOf(e, engine)]
  {
    assert (posts + [e])[..|posts|] == posts;
  }

  /** One more post writes its page. */
  lemma PagesSnoc(d: Dir, posts: seq<Entry>, e: Entry, engine: Engine, template: string)
    ensures Apply(d, Pages(posts + [e], engine, template))
      == Apply(d, Pages(posts, engine, template))[OutputName(e.name) := engine.renderPost(template, engine.convert(e.text))]
  {
    assert (posts + [e])[..|posts|] == posts;
    ApplyStep(d, Pages(posts, engine, template), PageOf(e, engine, template));
  }

  /** One more asset writes its copy. */
  lemma CopiesSnoc(d: Dir, assets: seq<Entry>, e: Entry)
    ensures Apply(d, Copies(assets + [e])) == Apply(d, Copies(assets))[e.name := e.text]
  {
    assert (assets + [e])[..|assets|] == assets;
    ApplyStep(d, Copies(assets), Write(e.name, e.text));
  }

  /**
   * `main.py` lines 37-55: every post of `files`, in order, is converted, rendered
   * through the post template and written; its entry is appended to `posts`.
   */
  method WritePosts(root: DeployRoot, name: string, files: seq<Entry>, engine: Engine, postTemplate: string)
    returns (posts: seq<PostRef>)
    requires name in root.dirs
    modifies root
    ensures posts == Refs(Select(files, Post), engine)
    ensures root.dirs == old(root.dirs)[name := Apply(old(root.dirs)[name], Pages(Select(files, Post), engine, postTemplate))]
  {
    ghost var before, cur, done := root.dirs, root.dirs[name], [];
    posts := [];
    for i := 0 to |files|
      invariant done == Select(files[..i], Post)
      invariant posts == Refs(done, engine)
      invariant cur == Apply(before[name], Pages(done, engine, postTemplate))
      invariant root.dirs == before[name := cur]
    {
      var siteFile := files[i];
      SelectPrefix(files, i, Post);
      if !IsPost(siteFile.name) {
        continue;
      }
      RefsSnoc(done, siteFile, engine);
      PagesSnoc(before[name], done, siteFile, engine, postTemplate);
      var outMd := engine.convert(siteFile.text);
      var fileOut := OutputName(siteFile.name);
      var html := engine.renderPost(postTemplate, outMd);
      root.WriteFile(name, fileOut, html);
      ReplaceTwice(before, name, cur, cur[fileOut := html]);
      cur, done := cur[fileOut := html], done + [siteFile];
      var title := Title(outMd.metadata, fileOut);
      posts := posts + [PostRef(title, fileOut)];
    }
    assert files[..|files|] == files;
  }

  /** `main.py` lines 63-65: every asset of `files`, in order, is copied under its own name. */
  method CopyAssets(root: DeployRoot, name: string, files: seq<Entry>)
    requires name in root.dirs
    modifies root
    ensures root.dirs == old(root.dirs)[name := Apply(old(root.dirs)[name], Copies(Select(files, Asset)))]
  {
    ghost var before, cur, done := root.dirs, root.dirs[name], [];
    for i := 0 to |files|
      invariant done == Select(files[..i], Asset)
      invariant cur == Apply(before[name], Copies(done))
      invariant root.dirs == before[name := cur]
    {
      var siteFile := files[i];
      SelectPrefix(files, i, Asset);
      if IsAsset(siteFile.name) {
        CopiesSnoc(before[name], done, siteFile);
        root.WriteFile(name, siteFile.name, siteFile.text);
        ReplaceTwice(before, name, cur, cur[siteFile.name := siteFile.text]);
        cur, done := cur[siteFile.name := siteFile.text], done + [siteFile];
      }
    }
    assert files[..|files|] == files;
  }

  /**
   * `main.py` lines 25-65 for one site: reset `deploy/<name>`, sort the entries,
   * read the post template, write the posts, read the index template, write the
   * index, copy the assets.
   */
  method BuildSite(root: DeployRoot, name: string, site: seq<Entry>, engine: Engine)
    returns (failure: Option<Failure>)
    modifies root
    ensures root.dirs == old(root.dirs)[name := Build(site, engine).files]
    ensures failure == Build(site, engine).failure
  {
    root.Reset(name);
    var files := SortDesc(site);
    var postTemplate := Lookup(site, PostTemplateName);
    if postTemplate.None? {
      return Some(MissingTemplate(PostTemplateName));
    }
    var posts := WritePosts(root, name, files, engine, postTemplate.value);
    ghost var pages := Pages(SortedPosts(site), engine, postTemplate.value);
    ReplaceTwice(old(root.dirs), name, map[], Apply(map[], pages));
    var indexTemplate := Lookup(site, IndexTemplateName);
    if indexTemplate.None? {
      return Some(MissingTemplate(IndexTemplateName));
    }
    var indexHtml := engine.renderIndex(indexTemplate.value, posts);
    ghost var written := pages + [IndexPageOf(site, engine, indexTemplate.value)];
    ApplyStep(map[], pages, Write(IndexName, indexHtml));
    root.WriteFile(name, IndexName, indexHtml);
    ReplaceTwice(old(root.dirs), name, Apply(map[], pages), Apply(map[], written));
    CopyAssets(root, name, files);
    ApplyConcat(map[], written, Copies(SortedAssets(site)));
    ReplaceTwice(old(root.dirs), name, Apply(map[], written), Apply(map[], written + Copies(SortedAssets(site))));
    failure := None;
  }
}
