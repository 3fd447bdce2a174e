/**
 * The loop of `main()` over the sites: each site is built in turn, and the
 * first missing template ends the whole run, leaving the sites after it
 * unbuilt.
 */
module BuildDriver {
  import opened Wrappers
  import opened Listing
  import opened DeployDir
  import opened SiteBuilder

  /** A directory under `./sites`: its name and its listing. */
  datatype Site = Site(name: string, entries: seq<Entry>)

  /** The site whose build ended the run, and why. */
  datatype SiteFailure = SiteFailure(site: string, failure: Failure)

  /** The deploy directories after a run, and the failure that ended it, if any. */
  datatype RunOutcome = RunOutcome(dirs: map<string, Dir>, failure: Option<SiteFailure>)

  /** The names of the sites. */
  function SiteNames(sites: seq<Site>): set<string> {
    set s | s in sites :: s.name
  }

  /** Directory names in one listing are distinct. */
  predicate DistinctNames(sites: seq<Site>) {
    forall i, j :: 0 <= i < j < |sites| ==> sites[i].name != sites[j].name
  }

  /** How one site is built with the given libraries. */
  function SiteBuild(engine: Engine): seq<Entry> -> SiteOutcome {
    entries => Build(entries, engine)
  }

  /**
   * Building `sites` in order on top of `dirs`, up to and including the first
   * failing one, where `build` gives each site's outcome from its listing. The
   * program's run is `Run(dirs, sites, SiteBuild(engine))`; the lemmas below hold
   * for every `build`.
   */
  function Run(dirs: map<string, Dir>, sites: seq<Site>, build: seq<Entry> -> SiteOutcome): RunOutcome
    decreases |sites|
  {
    if sites == [] then RunOutcome(dirs, None)
    else
      var out := build(sites[0].entries);
      var next := dirs[sites[0].name := out.files];
      match out.failure
      case Some(f) => RunOutcome(next, Some(SiteFailure(sites[0].name, f)))
      case None => Run(next, sites[1..], build)
  }

  /** `main()` lines 22-65: build every site in turn; a failing site ends the run. */
  method BuildAllSites(root: DeployRoot, sites: seq<Site>, engine: Engine)
    returns (failure: Option<SiteFailure>)
    modifies root
    ensures RunOutcome(root.dirs, failure) == Run(old(root.dirs), sites, SiteBuild(engine))
  {
    var i := 0;
    while i < |sites|
      invariant 0 <= i <= |sites|
      invariant Run(root.dirs, sites[i..], SiteBuild(engine)) == Run(old(root.dirs), sites, SiteBuild(engine))
    {
      assert sites[i..][0] == sites[i] && sites[i..][1..] == sites[i + 1..];
      assert SiteBuild(engine)(sites[i].entries) == Build(sites[i].entries, engine);
      var f := BuildSite(root, sites[i].name, sites[i].entries, engine);
      if f.Some? {
        return Some(SiteFailure(sites[i].name, f.value));
      }
      i := i + 1;
    }
    failure := None;
  }

  /** The deploy directory of a site that is not in the run is left as it was. */
  lemma {:induction false} RunUntouched(dirs: map<string, Dir>, sites: seq<Site>, build: seq<Entry> -> SiteOutcome, n: string)
    requires n !in SiteNames(sites)
    ensures n in Run(dirs, sites, build).dirs <==> n in dirs
    ensures n in dirs ==> Run(dirs, sites, build).dirs[n] == dirs[n]
    decreases |sites|
  {
    if sites != [] {
      assert sites[0] in sites;
      assert SiteNames(sites[1..]) <= SiteNames(sites) by {
        forall s | s in sites[1..] ensures s in sites { }
      }
      var out := build(sites[0].entries);
      RunUntouched(dirs[sites[0].name := out.files], sites[1..], build, n);
    }
  }

  /** A run succeeds exactly when every site builds. */
  lemma {:induction false} RunSucceeds(dirs: map<string, Dir>, sites: seq<Site>, build: seq<Entry> -> SiteOutcome)
    ensures Run(dirs, sites, build).failure == None <==>
      forall k :: 0 <= k < |sites| ==> build(sites[k].entries).failure == None
    decreases |sites|
  {
    if sites != [] {
      var out := build(sites[0].entries);
      RunSucceeds(dirs[sites[0].name := out.files], sites[1..], build);
      assert forall k :: 1 <= k < |sites| ==> sites[k] == sites[1..][k - 1];
    }
  }

  /**
   * A run ends at the first failing site and names it: the sites after it make
   * no difference to the outcome, so they are not built.
   */
  lemma {:induction false} RunStopsAtFirstFailure(dirs: map<string, Dir>, sites: seq<Site>, build: seq<Entry> -> SiteOutcome, k: nat)
    requires k < |sites|
    requires forall j :: 0 <= j < k ==> build(sites[j].entries).failure == None
    requires build(sites[k].entries).failure.Some?
    ensures Run(dirs, sites, build) == Run(dirs, sites[..k + 1], build)
    ensures Run(dirs, sites, build).failure
      == Some(SiteFailure(sites[k].name, build(sites[k].entries).failure.value))
    decreases k
  {
    var next := dirs[sites[0].name := build(sites[0].entries).files];
    assert sites[..k + 1][0] == sites[0];
    if k > 0 {
      var rest := sites[1..];
      assert sites[..k + 1][1..] == rest[..k];
      assert forall j :: 0 <= j < k - 1 ==> rest[j] == sites[j + 1];
      RunStopsAtFirstFailure(next, rest, build, k - 1);
    }
  }

  /** After a run with distinct site names that succeeds, every site's directory holds what its build wrote. */
  lemma {:induction false} EverySiteBuilt(dirs: map<string, Dir>, sites: seq<Site>, build: seq<Entry> -> SiteOutcome)
    requires DistinctNames(sites)
    requires Run(dirs, sites, build).failure == None
    ensures forall k :: 0 <= k < |sites| ==>
      sites[k].name in Run(dirs, sites, build).dirs
      && Run(dirs, sites, build).dirs[sites[k].name] == build(sites[k].entries).files
    decreases |sites|
  {
    if sites != [] {
      var out := build(sites[0].entries);
      var next := dirs[sites[0].name := out.files];
      var rest := sites[1..];
      assert DistinctNames(rest) by {
        forall i, j | 0 <= i < j < |rest| ensures rest[i].name != rest[j].name {
          assert rest[i] == sites[i + 1] && rest[j] == sites[j + 1];
        }
      }
      EverySiteBuilt(next, rest, build);
      assert sites[0].name !in SiteNames(rest) by {
        forall s | s in rest ensures s.name != sites[0].name {
          var j :| 0 <= j < |rest| && rest[j] == s;
          assert s == sites[j + 1];
        }
      }
      RunUntouched(next, rest, build, sites[0].name);
      forall k | 1 <= k < |sites| ensures sites[k] == rest[k - 1] { }
    }
  }

  /**
   * A successful run does not depend on what the deploy directories of its
   * sites held before: every one of them is emptied and rebuilt.
   */
  lemma {:induction false} RunIgnoresOldContents(d1: map<string, Dir>, d2: map<string, Dir>, sites: seq<Site>, build: seq<Entry> -> SiteOutcome)
    requires forall n :: n !in SiteNames(sites) ==> (n in d1 <==> n in d2) && (n in d1 ==> d1[n] == d2[n])
    requires Run(d1, sites, build).failure == None
    ensures Run(d1, sites, build) == Run(d2, sites, build)
    decreases |sites|
  {
    if sites == [] {
      SameTrees(d1, d2);
    } else {
      var out := build(sites[0].entries);
      var n1, n2 := d1[sites[0].name := out.files], d2[sites[0].name := out.files];
      forall n | n !in SiteNames(sites[1..]) ensures (n in n1 <==> n in n2) && (n in n1 ==> n1[n] == n2[n]) {
        if n != sites[0].name {
          assert n !in SiteNames(sites) by {
            forall s | s in sites ensures s.name != n {
              if s != sites[0] {
                var j :| 0 <= j < |sites| && sites[j] == s;
                assert sites[1..][j - 1] == s;
              }
            }
          }
        }
      }
      RunIgnoresOldContents(n1, n2, sites[1..], build);
    }
  }

  /** Running the same sites again, with distinct names, changes nothing. */
  lemma {:induction false} RunIdempotent(dirs: map<string, Dir>, sites: seq<Site>, build: seq<Entry> -> SiteOutcome)
    requires DistinctNames(sites)
    ensures Run(Run(dirs, sites, build).dirs, sites, build) == Run(dirs, sites, build)
    decreases |sites|
  {
    if sites != [] {
      var out := build(sites[0].entries);
      var next := dirs[sites[0].name := out.files];
      var d := Run(dirs, sites, build).dirs;
      if out.failure.Some? {
        ReplaceTwice(dirs, sites[0].name, out.files, out.files);
      } else {
        var rest := sites[1..];
        assert DistinctNames(rest) by {
          forall i, j | 0 <= i < j < |rest| ensures rest[i].name != rest[j].name {
            assert rest[i] == sites[i + 1] && rest[j] == sites[j + 1];
          }
        }
        assert sites[0].name !in SiteNames(rest) by {
          forall s | s in rest ensures s.name != sites[0].name {
            var j :| 0 <= j < |rest| && rest[j] == s;
            assert s == sites[j + 1];
          }
        }
        RunUntouched(next, rest, build, sites[0].name);
        ReplaceSame(d, sites[0].name);
        RunIdempotent(next, rest, build);
      }
    }
  }
}
