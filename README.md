# hunk: the site build loop, in Dafny

hunk is a small static site generator. Its `main()` walks the directories
under `./sites`. For each site it:

- empties `./deploy/<site>`;
- sorts the site's entries by name, from the greatest to the least;
- converts every `.txt` entry from Markdown and renders it through the site's
  `post.jinja2` into a page named after the entry with `.html` in place of
  `.txt`;
- renders `index.jinja2` with the list of (title, page name) pairs and writes
  it to `index.html`;
- copies every entry whose suffix is none of `.txt`, `.jinja2` and `.py`.

A missing template raises an exception, which ends the run.

The model has one module per concern:

- `PathNames` (paths.dfy): pathlib's `suffix`, `stem` and `with_suffix` on an
  entry name.
- `NameOrder` (order.dfy): the code-point order Python uses to compare names.
- `EntryKinds` (kinds.dfy): the suffix tests that make an entry a post, an asset
  or neither.
- `Listing` (listing.dfy): a site's entries as a sequence, `sorted(...,
  reverse=True)` as an insertion sort, filtering by kind, and template lookup.
- `DeployDir` (deploy.dfy): a deploy directory as a map from file names to
  contents. `./deploy` is a class whose per-site directories are emptied and
  written in place.
- `SiteBuilder` (site.dfy): the build of one site as imperative methods over
  the deploy tree. `BuildSite` is proved equal to the function `Build`.
  Its two loops are proved against functions as well: `WritePosts` against
  `Apply` over `Pages`, with `Refs` for the returned list, and `CopyAssets`
  against `Apply` over `Copies`.
- `BuildFacts` (build_facts.dfy): what `Build` promises about names, contents,
  failures and listing order.
- `BuildDriver` (driver.dfy): the loop over all sites, and what a whole run
  promises.

Markdown conversion and template rendering are foreign libraries. They are the
function-valued fields of an `Engine`. Every property is proved for every
engine.

What `main()` passes to the templates and reads:

- The post template is rendered with only the converted post and its metadata
  (main.py:52).
- The index template is rendered with only the `posts` list (main.py:60).
- A site's entries are ordered by file name, descending (main.py:30).
- The only templates read are `post.jinja2` and `index.jinja2` (main.py:33, 58).

## Model

| member | source | states |
|---|---|---|
| PathNames.RFind | main.py:38 | the index found holds the character and nothing after it does; -1 when the character is absent |
| PathNames.SuffixCharacterization | main.py:38 | the suffix is empty exactly when the name is empty, ends in a dot or has no dot after its first character; otherwise it is a dot and at least one more character, none a dot, that end the name |
| PathNames.StemAndSuffix | main.py:51 | stem followed by suffix is the name; `with_suffix` is the stem followed by the new suffix |
| PathNames.TxtSuffixIff | main.py:38 | the suffix is ".txt" exactly when the name ends in ".txt" after at least one more character, so an entry named ".txt" is not a post |
| PathNames.TxtToHtml | main.py:51 | a post's page name is its name with the final ".txt" replaced by ".html" |
| PathNames.TxtToHtmlInjective | main.py:51 | two posts with the same page name have the same name |
| PathNames.SuffixOfJoin | main.py:64 | a non-empty stem followed by a dot-led extension with no other dot has that extension as suffix |
| PathNames.SuffixExamples | main.py:38 | ".txt", "notes." and "README" have no suffix; "A.TXT" has ".TXT", so it is not a post; "a.b.txt" has ".txt" and page name "a.b.html" |
| NameOrder.LessIrreflexive | main.py:30 | no name sorts before itself |
| NameOrder.LessAsymmetric | main.py:30 | two names never sort before each other |
| NameOrder.LessTransitive | main.py:30 | the name order is transitive |
| NameOrder.LessTotal | main.py:30 | of two different names one sorts before the other |
| NameOrder.AtLeastTransitive | main.py:30 | "not before" is transitive |
| NameOrder.LessAntisymmetric | main.py:30 | names neither of which sorts before the other are equal |
| EntryKinds.Classification | main.py:38-64 | posts are the names ending in ".txt" after one more character; no post is an asset; an entry is neither exactly when its suffix is ".jinja2" or ".py" |
| EntryKinds.TemplatesAreNotCopied | main.py:64 | "post.jinja2" and "index.jinja2" are neither posts nor assets |
| Listing.Lookup | main.py:32-34 | absent exactly when no entry has the name; when present, the text of an entry of that name |
| Listing.Select | main.py:37-39 | every selected entry is of the kind |
| Listing.SelectAppend | main.py:37-39 | one more entry is selected at the end exactly when it is of the kind |
| Listing.SelectPrefix | main.py:37-39 | the loop's next entry is selected at the end exactly when it is of the kind |
| Listing.SelectMultiset | main.py:37-39 | selection keeps every copy of an entry of the kind and no entry of another kind |
| Listing.SelectPermutation | main.py:37-39 | selections from permutations of one listing are permutations of each other |
| Listing.SelectMembership | main.py:37-39 | an entry is selected exactly when it is in the listing and of the kind |
| Listing.SelectDescending | main.py:37-39 | selection keeps the descending order |
| Listing.SnocDescending | main.py:30 | an entry not above any entry can follow a descending sequence |
| Listing.ConsDescending | main.py:30 | an entry not below any entry can lead a descending sequence |
| Listing.HeadAboveTail | main.py:30 | the head of a descending sequence is not below any later entry |
| Listing.AboveHead | main.py:30 | an entry not below the head is not below any entry |
| Listing.AboveInserted | main.py:30 | inserting a lesser entry keeps an upper bound an upper bound |
| Listing.Insert | main.py:30 | inserting into a descending sequence gives a descending sequence with that one entry added |
| Listing.SortDesc | main.py:30 | `sorted(..., reverse=True)`: descending by name, and a permutation of the listing |
| Listing.FirstIsGreatest | main.py:30 | the first entry of a descending sequence is not below any entry |
| Listing.TailUniqueNames | main.py:29 | dropping an entry keeps names unique |
| Listing.SameTails | main.py:30 | permutations with the same head have permuted tails |
| Listing.DescendingUnique | main.py:30 | with unique names there is only one descending arrangement of a listing |
| Listing.SortIgnoresListingOrder | main.py:29-30 | with unique names the sort result does not depend on the listing order |
| Listing.LookupIgnoresListingOrder | main.py:32-34 | with unique names template lookup does not depend on the listing order |
| DeployDir.Apply | main.py:52 | the written directory's names are its old names and every written name |
| DeployDir.ApplyStep | main.py:52 | one more write replaces one name's contents |
| DeployDir.ApplyConcat | main.py:52-65 | two runs of writes one after the other act as their concatenation |
| DeployDir.ApplyUntouched | main.py:65 | writes to other names leave a name as it was |
| DeployDir.ApplyLastWrite | main.py:65 | the last write to a name decides its contents |
| DeployDir.ApplyAgreeingWrites | main.py:52 | a name all of whose writes agree holds that content |
| DeployDir.DeployRoot.Reset | main.py:26-27 | the site's directory is empty and no other site's changes |
| DeployDir.DeployRoot.WriteFile | main.py:52 | the file holds the content; nothing else changes |
| SiteBuilder.Refs | main.py:53-54 | the `posts` list has one element per post, in order, with its title and page name |
| SiteBuilder.Pages | main.py:51-52 | one page per post, in order, named after the post, holding the rendered template |
| SiteBuilder.Copies | main.py:63-65 | one copy per asset, in order, under its own name with its own contents |
| SiteBuilder.RefsSnoc | main.py:54 | one more post appends its element to the `posts` list |
| SiteBuilder.PagesSnoc | main.py:52 | one more post writes its page |
| SiteBuilder.CopiesSnoc | main.py:65 | one more asset writes its copy |
| SiteBuilder.WritePosts | main.py:37-55 | the posts loop returns the `posts` list and writes exactly the post pages into the site's directory |
| SiteBuilder.CopyAssets | main.py:63-65 | the copy loop writes exactly the assets into the site's directory |
| SiteBuilder.BuildSite | main.py:25-65 | one site's build leaves in its directory what `Build` says, changes no other site, and fails as `Build` says |
| BuildFacts.LookupFinds | main.py:32-34 | a template is found exactly when the site has an entry of that name |
| BuildFacts.SortedPostsSpec | main.py:30-39 | the posts loop visits every post, each as often as listed, nothing else, in descending name order |
| BuildFacts.SortedAssetsSpec | main.py:63-64 | the copy loop copies exactly the assets |
| BuildFacts.PostsListEntries | main.py:53-54 | each `posts` element holds the post's page name and its metadata title, or the page name when there is no title |
| BuildFacts.OutputNameIsHtml | main.py:51 | a post's page name has the suffix ".html" |
| BuildFacts.PagesKeys | main.py:51-52 | the posts loop writes exactly the posts' page names |
| BuildFacts.CopiesKeys | main.py:63-65 | the copy loop writes exactly the assets' names |
| BuildFacts.CompleteKeys | main.py:51-65 | a complete build writes the page names, "index.html" and the asset names |
| BuildFacts.SortedPageNames | main.py:51 | the visited posts have the page names of the site's posts |
| BuildFacts.SortedAssetNames | main.py:64-65 | the visited assets have the names of the site's assets |
| BuildFacts.DeployedNames | main.py:25-65 | the deploy directory is empty without `post.jinja2`; only the pages without `index.jinja2`; otherwise the pages, "index.html" and the assets |
| BuildFacts.CompleteBuild | main.py:37-65 | with both templates the directory is the pages, then the index, then the copies |
| BuildFacts.PagesOnlyBuild | main.py:37-58 | without `index.jinja2` the directory holds only the pages |
| BuildFacts.BuildFailure | main.py:32-58 | the build fails exactly when a template is missing: `post.jinja2` when it is missing, otherwise `index.jinja2` |
| BuildFacts.IndexNameIsHtml | main.py:61 | "index.html" has the suffix ".html" |
| BuildFacts.PageNamesAreHtml | main.py:51 | every page name has the suffix ".html" |
| BuildFacts.DeployedNamesWithin | main.py:51-65 | every deployed name is "index.html", a page name or an asset's name |
| BuildFacts.DeployableNamesAreAssets | main.py:64 | such names never have the suffix ".txt", ".jinja2" or ".py" |
| BuildFacts.NoSourceDeployed | main.py:63-65 | no post source, template or Python file is ever deployed |
| BuildFacts.AssetCopied | main.py:63-65 | with both templates, every asset is deployed with its own contents, even when named "index.html" or like a page |
| BuildFacts.IndexPage | main.py:57-61 | with both templates and no entry named "index.html", the index is the index template rendered with the `posts` list |
| BuildFacts.PageOfPost | main.py:51-52 | among the posts loop's writes a post's page name gets that post's page |
| BuildFacts.SurvivesIndexAndCopies | main.py:61-65 | a page survives the index and the copies when neither has its name |
| BuildFacts.SortedPostsUnique | main.py:37-39 | with unique names, a post is the only visited post of its name |
| BuildFacts.SortedAssetsAvoid | main.py:63-64 | a name no entry has is no visited asset's name |
| BuildFacts.PostPageWithoutIndex | main.py:51-52 | without `index.jinja2`, each post's page holds its rendered template |
| BuildFacts.PostPageWithIndex | main.py:51-65 | with both templates, each post's page holds its rendered template unless the index or a copy takes its name |
| BuildFacts.PostPage | main.py:51-52 | once `post.jinja2` is present each post's page holds the post template rendered with its converted text, unless a later write takes its name |
| BuildFacts.BuildIgnoresListingOrder | main.py:29-30 | with unique names, the build does not depend on the order of the directory listing |
| BuildDriver.BuildAllSites | main.py:22-65 | the loop over sites leaves the deploy tree and the failure that `Run` gives |
| BuildDriver.RunUntouched | main.py:22-27 | a site not in the run keeps its deploy directory |
| BuildDriver.RunSucceeds | main.py:22-65 | a run succeeds exactly when every site builds |
| BuildDriver.RunStopsAtFirstFailure | main.py:22-65 | a run ends at the first failing site and names it; the sites after it make no difference |
| BuildDriver.EverySiteBuilt | main.py:22-65 | after a successful run every site's directory holds its build |
| BuildDriver.RunIgnoresOldContents | main.py:26-27 | a successful run does not depend on what the sites' deploy directories held before |
| BuildDriver.RunIdempotent | main.py:26-65 | running the same sites again changes nothing |

## Left out

- Plugins (main.py:8-14 and 23): modules loaded from `plugins/` and their `init` and `enter_site` hooks are code outside this model.
- markdown2 and jinja2: the model treats them as deterministic functions in `Engine`. Their internals, front-matter parsing and rendering errors are not modelled.
- File-system errors, subdirectories inside a site, and unreadable or non-UTF-8 files are not modelled. A site's entries are (name, text) pairs and its templates are entries too.
- Text encoding: names and contents are strings of characters, not bytes.
- `print(file_out)` (main.py:55) and the `__main__` guard (main.py:68-69): output only.
- The `mkdir` calls for `./sites` and `./deploy` (main.py:18-19): the deploy tree is a value that always exists.
- Listing `./sites` and keeping only directories (main.py:21): `BuildAllSites` takes the list of sites in listing order. `DistinctNames` stands for the directory names being distinct.
- Case-insensitive file systems: names in the deploy tree and in template lookup are compared exactly. The model does not capture a template read that would find `POST.JINJA2` or `INDEX.JINJA2` (main.py:33, 58), writes whose names differ only in case and so collide on such a file system (`A.html` and `a.html`, or an asset `INDEX.HTML` and `index.html`), or the case-folded ordering of Windows paths (main.py:30). Whether a file is a post or an asset is decided by comparing `.suffix` as a string (main.py:38, 64), as the model does, so `A.TXT` is never a post.
- BuildDriver.Run: its lemmas are stated for any per-site build function; the program's run is `Run(dirs, sites, SiteBuild(engine))`.
- BuildFacts.PostPage: its requires excludes every post whose page name is also the name of an entry. With `index.jinja2` present such an entry may be an asset whose copy replaces the page (main.py:57-65); that case is described by `BuildFacts.AssetCopied`. Without `index.jinja2` no copies are made and the page survives; `BuildFacts.PostPageWithoutIndex` states that case without the restriction.
