/**
 * How the build loop classifies the entries of a site by suffix: ".txt" entries
 * are posts; entries whose suffix is none of ".txt", ".jinja2", ".py" are
 * assets; the rest (templates and Python files) are neither.
 */
module EntryKinds {
  import opened PathNames

  /** The two kinds of entry the build loop acts on. */
  datatype Kind = Post | Asset

  predicate IsPost(name: string) {
    Suffix(name) == ".txt"
  }

  predicate IsAsset(name: string) {
    Suffix(name) != ".txt" && Suffix(name) != ".jinja2" && Suffix(name) != ".py"
  }

  predicate OfKind(kind: Kind, name: string) {
    match kind
    case Post => IsPost(name)
    case Asset => IsAsset(name)
  }

  /**
   * A post is an entry whose name ends in ".txt" after at least one character;
   * posts are never copied; an entry is neither post nor asset exactly when its
   * suffix is ".jinja2" or ".py".
   */
  lemma Classification(name: string)
    ensures IsPost(name) <==> |name| >= 5 && name[|name| - 4..] == ".txt"
    ensures IsPost(name) ==> !IsAsset(name)
    ensures !IsPost(name) && !IsAsset(name) <==> Suffix(name) == ".jinja2" || Suffix(name) == ".py"
  {
    TxtSuffixIff(name);
  }

  /** The two template files are neither posts nor assets. */
  lemma TemplatesAreNotCopied()
    ensures !IsPost("post.jinja2") && !IsAsset("post.jinja2")
    ensures !IsPost("index.jinja2") && !IsAsset("index.jinja2")
  {
    assert "post.jinja2" == "post" + ".jinja2";
    assert "index.jinja2" == "index" + ".jinja2";
    SuffixOfJoin("post", ".jinja2");
    SuffixOfJoin("index", ".jinja2");
  }
}
