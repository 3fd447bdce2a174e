/**
 * The deploy tree: one directory per site, each a map from file name to contents.
 * A site's directory is filled by a sequence of writes (`write_text` and
 * `shutil.copy` both replace whatever the name held before).
 */
module DeployDir {

  type Dir = map<string, string>

  /** One file written into a deploy directory. */
  datatype Write = Write(name: string, content: string)

  /** The directory `d` after the writes `ws`, one after the other. */
  function Apply(d: Dir, ws: seq<Write>): (r: Dir)
    ensures r.Keys == d.Keys + (set w | w in ws :: w.name)
    decreases |ws|
  {
    if ws == [] then d
    else
      var w := ws[|ws| - 1];
      assert ws == ws[..|ws| - 1] + [w];
      Apply(d, ws[..|ws| - 1])[w.name := w.content]
  }

  lemma ApplyStep(d: Dir, ws: seq<Write>, w: Write)
    ensures Apply(d, ws + [w]) == Apply(d, ws)[w.name := w.content]
  {
    assert (ws + [w])[..|ws|] == ws;
  }

  /** Writing `a` and then `b` is writing `a + b`. */
  lemma {:induction false} ApplyConcat(d: Dir, a: seq<Write>, b: seq<Write>)
    ensures Apply(d, a + b) == Apply(Apply(d, a), b)
    decreases |b|
  {
    if b == [] {
      assert a + b == a;
    } else {
      var init, w := b[..|b| - 1], b[|b| - 1];
      ApplyConcat(d, a, init);
      assert a + b == (a + init) + [w];
      ApplyStep(d, a + init, w);
    }
  }

  /** A name that no write touches keeps what it held. */
  lemma {:induction false} ApplyUntouched(d: Dir, ws: seq<Write>, n: string)
    requires forall j :: 0 <= j < |ws| ==> ws[j].name != n
    ensures n in Apply(d, ws) <==> n in d
    ensures n in d ==> Apply(d, ws)[n] == d[n]
    decreases |ws|
  {
    if ws != [] {
      ApplyUntouched(d, ws[..|ws| - 1], n);
    }
  }

  /** The last write to a name decides what the name holds. */
  lemma {:induction false} ApplyLastWrite(d: Dir, ws: seq<Write>, i: nat)
    requires i < |ws|
    requires forall j :: i < j < |ws| ==> ws[j].name != ws[i].name
    ensures Apply(d, ws)[ws[i].name] == ws[i].content
    decreases |ws|
  {
    if i < |ws| - 1 {
      ApplyLastWrite(d, ws[..|ws| - 1], i);
    }
  }

  /** When every write to `n` writes `c` and there is at least one, `n` ends up holding `c`. */
  lemma {:induction false} ApplyAgreeingWrites(d: Dir, ws: seq<Write>, n: string, c: string)
    requires exists j :: 0 <= j < |ws| && ws[j].name == n
    requires forall j :: 0 <= j < |ws| && ws[j].name == n ==> ws[j].content == c
    ensures n in Apply(d, ws) && Apply(d, ws)[n] == c
    decreases |ws|
  {
    var init, w := ws[..|ws| - 1], ws[|ws| - 1];
    if w.name != n {
      var j :| 0 <= j < |ws| && ws[j].name == n;
      assert init[j].name == n;
      ApplyAgreeingWrites(d, init, n, c);
    }
  }

  /** Replacing one site's directory twice leaves only the second replacement. */
  lemma ReplaceTwice(dirs: map<string, Dir>, site: string, a: Dir, b: Dir)
    ensures dirs[site := a][site := b] == dirs[site := b]
  {
  }

  /** Putting back a site's own directory changes nothing. */
  lemma ReplaceSame(dirs: map<string, Dir>, site: string)
    requires site in dirs
    ensures dirs[site := dirs[site]] == dirs
  {
  }

  /** Two deploy trees with the same site names and the same directories are equal. */
  lemma SameTrees(d1: map<string, Dir>, d2: map<string, Dir>)
    requires forall n :: n in d1 <==> n in d2
    requires forall n :: n in d1 ==> d1[n] == d2[n]
    ensures d1 == d2
  {
  }

  /** The `./deploy` directory: the deploy directory of every site, by site name. */
  class DeployRoot {
    var dirs: map<string, Dir>

    constructor (dirs: map<string, Dir>)
      ensures this.dirs == dirs
    {
      this.dirs := dirs;
    }

    /** `shutil.rmtree(deploy/site, ignore_errors=True)` then `mkdir`: the site's directory, empty. */
    method Reset(site: string)
      modifies this
      ensures dirs == old(dirs)[site := map[]]
    {
      dirs := dirs[site := map[]];
    }

    /** Write `content` to `deploy/site/name`, creating or replacing the file. */
    method WriteFile(site: string, name: string, content: string)
      requires site in dirs
      modifies this
      ensures dirs == old(dirs)[site := old(dirs)[site][name := content]]
    {
      dirs := dirs[site := dirs[site][name := content]];
    }
  }
}
