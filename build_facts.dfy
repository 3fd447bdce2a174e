/**
 * What one site's build promises about the deploy directory it leaves: which
 * names are in it, what each file holds, when the build stops, and that the
 * order in which the directory was listed does not matter.
 */
module BuildFacts {
  import opened Wrappers
  import opened PathNames
  import opened Listing
  import opened DeployDir
  import opened EntryKinds
  import opened SiteBuilder

  /** The site has an entry of this name. */
  ghost predicate HasEntry(site: seq<Entry>, name: string) {
    exists e :: e in site && e.name == name
  }

  /** The page names of the site's posts. */
  ghost function PageNames(site: seq<Entry>): set<string> {
    set e | e in site && IsPost(e.name) :: OutputName(e.name)
  }

  /** The names of the site's assets. */
  ghost function AssetNames(site: seq<Entry>): set<string> {
    set e | e in site && IsAsset(e.name) :: e.name
  }

  /** `Lookup` finds a name exactly when the site has an entry of that name. */
  lemma LookupFinds(site: seq<Entry>, name: string)
    ensures Lookup(site, name).Some? <==> HasEntry(site, name)
  {
    if HasEntry(site, name) {
      var e :| e in site && e.name == name;
      var i :| 0 <= i < |site| && site[i] == e;
    }
  }

  /**
   * The entries the posts loop visits: every post of the site and nothing else,
   * each as often as in the listing, in non-increasing name order.
   */
  lemma SortedPostsSpec(site: seq<Entry>)
    ensures Descending(SortedPosts(site))
    ensures forall e :: e in SortedPosts(site) <==> e in site && IsPost(e.name)
    ensures forall e :: multiset(SortedPosts(site))[e] == if IsPost(e.name) then multiset(site)[e] else 0
  {
    var files := SortDesc(site);
    SelectDescending(files, Post);
    forall e ensures multiset(SortedPosts(site))[e] == if IsPost(e.name) then multiset(site)[e] else 0 {
      SelectMultiset(files, Post, e);
    }
    forall e ensures e in SortedPosts(site) <==> e in site && IsPost(e.name) {
      SelectMembership(files, Post, e);
      assert e in files <==> e in multiset(files);
    }
  }

  /** The entries the copy loop visits are exactly the site's assets. */
  lemma SortedAssetsSpec(site: seq<Entry>)
    ensures forall e :: e in SortedAssets(site) <==> e in site && IsAsset(e.name)
  {
    var files := SortDesc(site);
    forall e ensures e in Select(files, Asset) <==> e in site && IsAsset(e.name) {
      SelectMembership(files, Asset, e);
      assert e in files <==> e in multiset(files);
    }
  }

  /**
   * The `posts` list handed to the index template: one element per post, in
   * processing order, holding the post's page name and its metadata title, or
   * the page name when the metadata has no title.
   */
  lemma PostsListEntries(site: seq<Entry>, engine: Engine)
    ensures |PostsList(site, engine)| == |SortedPosts(site)|
    ensures forall k :: 0 <= k < |SortedPosts(site)| ==>
      var p, r := SortedPosts(site)[k], PostsList(site, engine)[k];
      && r.file == OutputName(p.name)
      && r.title == (if "title" in engine.convert(p.text).metadata then engine.convert(p.text).metadata["title"] else r.file)
  {
  }

  /** A post's page name ends in ".html" after a non-empty stem, so its suffix is ".html". */
  lemma OutputNameIsHtml(name: string)
    requires IsPost(name)
    ensures Suffix(OutputName(name)) == ".html"
    ensures OutputName(name) == name[..|name| - 4] + ".html"
  {
    TxtSuffixIff(name);
    TxtToHtml(name);
    SuffixOfJoin(name[..|name| - 4], ".html");
  }

  /** The names the posts loop writes are the page names of the posts. */
  lemma PagesKeys(posts: seq<Entry>, engine: Engine, template: string)
    ensures Apply(map[], Pages(posts, engine, template)).Keys == set e | e in posts :: OutputName(e.name)
  {
    var ws := Pages(posts, engine, template);
    forall e | e in posts ensures OutputName(e.name) in (set w | w in ws :: w.name) {
      var k :| 0 <= k < |posts| && posts[k] == e;
      assert ws[k] in ws;
    }
  }

  /** The names the copy loop writes are the names of the assets. */
  lemma CopiesKeys(d: Dir, assets: seq<Entry>)
    ensures Apply(d, Copies(assets)).Keys == d.Keys + set e | e in assets :: e.name
  {
    var ws := Copies(assets);
    forall e | e in assets ensures e.name in (set w | w in ws :: w.name) {
      var k :| 0 <= k < |assets| && assets[k] == e;
      assert ws[k] in ws;
    }
  }

  /** The names left by a build that gets past both templates. */
  lemma CompleteKeys(posts: seq<Entry>, assets: seq<Entry>, engine: Engine, template: string, index: Write)
    ensures var ws := Pages(posts, engine, template) + [index] + Copies(assets);
      Apply(map[], ws).Keys == (set e | e in posts :: OutputName(e.name)) + {index.name} + set e | e in assets :: e.name
  {
    var pages := Pages(posts, engine, template);
    PagesKeys(posts, engine, template);
    ApplyStep(map[], pages, index);
    CopiesKeys(Apply(map[], pages + [index]), assets);
    ApplyConcat(map[], pages + [index], Copies(assets));
  }

  /** The page names of the posts the loop visits are the page names of the site's posts. */
  lemma SortedPageNames(site: seq<Entry>)
    ensures (set e | e in SortedPosts(site) :: OutputName(e.name)) == PageNames(site)
  {
    SortedPostsSpec(site);
  }

  /** The names of the assets the copy loop visits are the names of the site's assets. */
  lemma SortedAssetNames(site: seq<Entry>)
    ensures (set e | e in SortedAssets(site) :: e.name) == AssetNames(site)
  {
    SortedAssetsSpec(site);
  }

  /**
   * The names in a site's deploy directory: none when `post.jinja2` is missing;
   * the post pages when `index.jinja2` is missing; otherwise the post pages,
   * "index.html" and the assets.
   */
  lemma DeployedNames(site: seq<Entry>, engine: Engine)
    ensures !HasEntry(site, PostTemplateName) ==> Build(site, engine).files == map[]
    ensures HasEntry(site, PostTemplateName) && !HasEntry(site, IndexTemplateName) ==>
      Build(site, engine).files.Keys == PageNames(site)
    ensures HasEntry(site, PostTemplateName) && HasEntry(site, IndexTemplateName) ==>
      Build(site, engine).files.Keys == PageNames(site) + {IndexName} + AssetNames(site)
  {
    LookupFinds(site, PostTemplateName);
    LookupFinds(site, IndexTemplateName);
    var posts := SortedPosts(site);
    match Lookup(site, PostTemplateName)
    case None =>
    case Some(postTemplate) =>
      SortedPageNames(site);
      match Lookup(site, IndexTemplateName)
      case None =>
        PagesKeys(posts, engine, postTemplate);
      case Some(indexTemplate) =>
        SortedAssetNames(site);
        CompleteKeys(posts, SortedAssets(site), engine, postTemplate,
          IndexPageOf(site, engine, indexTemplate));
  }

  /** What a build whose templates are both present writes. */
  lemma CompleteBuild(site: seq<Entry>, engine: Engine)
    requires HasEntry(site, PostTemplateName) && HasEntry(site, IndexTemplateName)
    ensures Build(site, engine).files == Apply(map[],
      Pages(SortedPosts(site), engine, Lookup(site, PostTemplateName).value)
      + [IndexPageOf(site, engine, Lookup(site, IndexTemplateName).value)]
      + Copies(SortedAssets(site)))
  {
    LookupFinds(site, PostTemplateName);
    LookupFinds(site, IndexTemplateName);
  }

  /** What a build that stops at the missing index template writes. */
  lemma PagesOnlyBuild(site: seq<Entry>, engine: Engine)
    requires HasEntry(site, PostTemplateName) && !HasEntry(site, IndexTemplateName)
    ensures Build(site, engine).files == Apply(map[], Pages(SortedPosts(site), engine, Lookup(site, PostTemplateName).value))
  {
    LookupFinds(site, PostTemplateName);
    LookupFinds(site, IndexTemplateName);
  }

  /**
   * The build fails exactly when a template is missing: with `post.jinja2` when
   * that one is missing, otherwise with `index.jinja2` when that one is.
   */
  lemma BuildFailure(site: seq<Entry>, engine: Engine)
    ensures Build(site, engine).failure == None <==>
      HasEntry(site, PostTemplateName) && HasEntry(site, IndexTemplateName)
    ensures Build(site, engine).failure == Some(MissingTemplate(PostTemplateName)) <==>
      !HasEntry(site, PostTemplateName)
    ensures Build(site, engine).failure == Some(MissingTemplate(IndexTemplateName)) <==>
      HasEntry(site, PostTemplateName) && !HasEntry(site, IndexTemplateName)
  {
    LookupFinds(site, PostTemplateName);
    LookupFinds(site, IndexTemplateName);
    assert |PostTemplateName| != |IndexTemplateName|;
  }

  /** "index.html" has the suffix ".html". */
  lemma IndexNameIsHtml()
    ensures Suffix(IndexName) == ".html"
  {
    assert IndexName == "index" + ".html";
    SuffixOfJoin("index", ".html");
  }

  /** The page names of posts have the suffix ".html". */
  lemma PageNamesAreHtml(site: seq<Entry>)
    ensures forall n :: n in PageNames(site) ==> Suffix(n) == ".html"
  {
    forall n | n in PageNames(site) ensures Suffix(n) == ".html" {
      var e :| e in site && IsPost(e.name) && OutputName(e.name) == n;
      OutputNameIsHtml(e.name);
    }
  }

  /** Every name a build can deploy is "index.html", a post's page name or an asset's name. */
  lemma DeployedNamesWithin(site: seq<Entry>, engine: Engine)
    ensures forall n :: n in Build(site, engine).files ==>
      n == IndexName || n in PageNames(site) || n in AssetNames(site)
  {
    DeployedNames(site, engine);
  }

  /** "index.html", page names and asset names all have a suffix other than ".txt", ".jinja2" and ".py". */
  lemma DeployableNamesAreAssets(site: seq<Entry>, files: Dir)
    requires forall n :: n in files ==> n == IndexName || n in PageNames(site) || n in AssetNames(site)
    ensures forall n :: n in files ==> IsAsset(n)
  {
    IndexNameIsHtml();
    PageNamesAreHtml(site);
  }

  /** No name with the suffix ".txt", ".jinja2" or ".py" is ever deployed. */
  lemma NoSourceDeployed(site: seq<Entry>, engine: Engine)
    ensures forall n :: n in Build(site, engine).files ==> IsAsset(n)
  {
    DeployedNamesWithin(site, engine);
    DeployableNamesAreAssets(site, Build(site, engine).files);
  }

  /**
   * When both templates are present, every asset ends up in the deploy directory
   * with its own contents, even when its name is "index.html" or a post's page
   * name: the copies are written last.
   */
  lemma AssetCopied(site: seq<Entry>, engine: Engine, e: Entry)
    requires UniqueNames(site)
    requires HasEntry(site, PostTemplateName) && HasEntry(site, IndexTemplateName)
    requires e in site && IsAsset(e.name)
    ensures e.name in Build(site, engine).files
    ensures Build(site, engine).files[e.name] == e.text
  {
    LookupFinds(site, PostTemplateName);
    LookupFinds(site, IndexTemplateName);
    var postTemplate, indexTemplate := Lookup(site, PostTemplateName).value, Lookup(site, IndexTemplateName).value;
    var posts, assets := SortedPosts(site), SortedAssets(site);
    var front := Pages(posts, engine, postTemplate) + [IndexPageOf(site, engine, indexTemplate)];
    var copies := Copies(assets);
    SortedAssetsSpec(site);
    var k :| 0 <= k < |assets| && assets[k] == e;
    assert copies[k].name == e.name;
    forall j | 0 <= j < |copies| && copies[j].name == e.name ensures copies[j].content == e.text {
      assert assets[j] in assets;
    }
    ApplyAgreeingWrites(Apply(map[], front), copies, e.name, e.text);
    ApplyConcat(map[], front, copies);
    CompleteBuild(site, engine);
  }

  /**
   * When both templates are present and no entry is called "index.html", the
   * index holds the index template rendered with the `posts` list.
   */
  lemma IndexPage(site: seq<Entry>, engine: Engine)
    requires HasEntry(site, PostTemplateName) && HasEntry(site, IndexTemplateName)
    requires !HasEntry(site, IndexName)
    ensures IndexName in Build(site, engine).files
    ensures Build(site, engine).files[IndexName]
      == engine.renderIndex(Lookup(site, IndexTemplateName).value, PostsList(site, engine))
  {
    LookupFinds(site, PostTemplateName);
    LookupFinds(site, IndexTemplateName);
    var postTemplate, indexTemplate := Lookup(site, PostTemplateName).value, Lookup(site, IndexTemplateName).value;
    var posts, assets := SortedPosts(site), SortedAssets(site);
    var pages := Pages(posts, engine, postTemplate);
    var index := IndexPageOf(site, engine, indexTemplate);
    var copies := Copies(assets);
    SortedAssetsSpec(site);
    forall j | 0 <= j < |copies| ensures copies[j].name != IndexName {
      assert assets[j] in assets;
    }
    ApplyStep(map[], pages, index);
    ApplyUntouched(Apply(map[], pages + [index]), copies, IndexName);
    ApplyConcat(map[], pages + [index], copies);
    CompleteBuild(site, engine);
  }

  /** Among the writes of the posts loop, a post's page name always gets that post's page. */
  lemma PageOfPost(posts: seq<Entry>, engine: Engine, template: string, e: Entry)
    requires e in posts
    requires forall x :: x in posts ==> IsPost(x.name)
    requires forall x :: x in posts && x.name == e.name ==> x == e
    ensures OutputName(e.name) in Apply(map[], Pages(posts, engine, template))
    ensures Apply(map[], Pages(posts, engine, template))[OutputName(e.name)]
      == engine.renderPost(template, engine.convert(e.text))
  {
    var out, html := OutputName(e.name), engine.renderPost(template, engine.convert(e.text));
    var pages := Pages(posts, engine, template);
    var k :| 0 <= k < |posts| && posts[k] == e;
    assert pages[k].name == out;
    forall j | 0 <= j < |pages| && pages[j].name == out ensures pages[j].content == html {
      assert posts[j] in posts;
      TxtToHtmlInjective(posts[j].name, e.name);
    }
    ApplyAgreeingWrites(map[], pages, out, html);
  }

  /** A file the posts loop wrote survives the index and the copies when neither has its name. */
  lemma SurvivesIndexAndCopies(pages: seq<Write>, index: Write, assets: seq<Entry>, n: string)
    requires n in Apply(map[], pages)
    requires index.name != n
    requires forall x :: x in assets ==> x.name != n
    ensures n in Apply(map[], pages + [index] + Copies(assets))
    ensures Apply(map[], pages + [index] + Copies(assets))[n] == Apply(map[], pages)[n]
  {
    var rest := [index] + Copies(assets);
    forall j | 0 <= j < |rest| ensures rest[j].name != n {
      if j > 0 {
        assert assets[j - 1] in assets;
      }
    }
    ApplyUntouched(Apply(map[], pages), rest, n);
    ApplyConcat(map[], pages, rest);
    assert pages + rest == pages + [index] + Copies(assets);
  }

  /** With names unique, a post of the site is the only visited post of its name. */
  lemma SortedPostsUnique(site: seq<Entry>, e: Entry)
    requires UniqueNames(site)
    requires e in site && IsPost(e.name)
    ensures e in SortedPosts(site)
    ensures forall x :: x in SortedPosts(site) ==> IsPost(x.name)
    ensures forall x :: x in SortedPosts(site) && x.name == e.name ==> x == e
  {
    SortedPostsSpec(site);
  }

  /** A name no entry of the site has is the name of none of the visited assets. */
  lemma SortedAssetsAvoid(site: seq<Entry>, n: string)
    requires !HasEntry(site, n)
    ensures forall x :: x in SortedAssets(site) ==> x.name != n
  {
    SortedAssetsSpec(site);
  }

  /** A post's page after a build that stops at the missing index template. */
  lemma PostPageWithoutIndex(site: seq<Entry>, engine: Engine, e: Entry)
    requires UniqueNames(site)
    requires HasEntry(site, PostTemplateName) && !HasEntry(site, IndexTemplateName)
    requires e in site && IsPost(e.name)
    ensures OutputName(e.name) in Build(site, engine).files
    ensures Build(site, engine).files[OutputName(e.name)]
      == engine.renderPost(Lookup(site, PostTemplateName).value, engine.convert(e.text))
  {
    LookupFinds(site, PostTemplateName);
    SortedPostsUnique(site, e);
    PageOfPost(SortedPosts(site), engine, Lookup(site, PostTemplateName).value, e);
    PagesOnlyBuild(site, engine);
  }

  /** A post's page after a complete build, when nothing written later has its name. */
  lemma PostPageWithIndex(site: seq<Entry>, engine: Engine, e: Entry)
    requires UniqueNames(site)
    requires HasEntry(site, PostTemplateName) && HasEntry(site, IndexTemplateName)
    requires e in site && IsPost(e.name)
    requires !HasEntry(site, OutputName(e.name))
    requires OutputName(e.name) != IndexName
    ensures OutputName(e.name) in Build(site, engine).files
    ensures Build(site, engine).files[OutputName(e.name)]
      == engine.renderPost(Lookup(site, PostTemplateName).value, engine.convert(e.text))
  {
    LookupFinds(site, PostTemplateName);
    LookupFinds(site, IndexTemplateName);
    var pages := Pages(SortedPosts(site), engine, Lookup(site, PostTemplateName).value);
    SortedPostsUnique(site, e);
    PageOfPost(SortedPosts(site), engine, Lookup(site, PostTemplateName).value, e);
    SortedAssetsAvoid(site, OutputName(e.name));
    SurvivesIndexAndCopies(pages, IndexPageOf(site, engine, Lookup(site, IndexTemplateName).value), SortedAssets(site), OutputName(e.name));
    CompleteBuild(site, engine);
  }

  /**
   * Once the post template is present, a post's page holds the post template
   * rendered with the post's converted text, unless an entry of the site has the
   * page's name or the page is "index.html" and the index is written.
   */
  lemma PostPage(site: seq<Entry>, engine: Engine, e: Entry)
    requires UniqueNames(site)
    requires HasEntry(site, PostTemplateName)
    requires e in site && IsPost(e.name)
    requires !HasEntry(site, OutputName(e.name))
    requires HasEntry(site, IndexTemplateName) ==> OutputName(e.name) != IndexName
    ensures OutputName(e.name) in Build(site, engine).files
    ensures Build(site, engine).files[OutputName(e.name)]
      == engine.renderPost(Lookup(site, PostTemplateName).value, engine.convert(e.text))
  {
    if HasEntry(site, IndexTemplateName) {
      PostPageWithIndex(site, engine, e);
    } else {
      PostPageWithoutIndex(site, engine, e);
    }
  }

  /** With names unique, the order in which the site directory was listed does not change the build. */
  lemma BuildIgnoresListingOrder(s: seq<Entry>, t: seq<Entry>, engine: Engine)
    requires multiset(s) == multiset(t)
    requires UniqueNames(s)
    ensures Build(s, engine) == Build(t, engine)
  {
    SortIgnoresListingOrder(s, t);
    LookupIgnoresListingOrder(s, t, PostTemplateName);
    LookupIgnoresListingOrder(s, t, IndexTemplateName);
  }
}
