/**
 * The parts of pathlib's file-name handling that the build loop relies on:
 * `PurePath.suffix`, `PurePath.stem` and `PurePath.with_suffix`, on the final
 * component of a path (the entry name).
 */
module PathNames {

  /** Python's `str.rfind` for one character: the last index of `c` in `s`, or -1. */
  function RFind(s: string, c: char): (i: int)
    ensures -1 <= i < |s|
    ensures 0 <= i ==> s[i] == c
    ensures forall j :: i < j < |s| ==> s[j] != c
    decreases |s|
  {
    if s == [] then -1
    else if s[|s| - 1] == c then |s| - 1
    else RFind(s[..|s| - 1], c)
  }

  /**
   * `PurePath.suffix`: the text from the last dot of the name, but only when that
   * dot is neither the first nor the last character; otherwise the empty string.
   */
  function Suffix(name: string): (r: string)
  {
    var i := RFind(name, '.');
    if 0 < i < |name| - 1 then name[i..] else ""
  }

  /**
   * The suffix is empty exactly when the name is empty, ends in a dot, or has no
   * dot after its first character; otherwise it is a dot and at least one more
   * character, none a dot, ending the name.
   */
  lemma SuffixCharacterization(name: string)
    ensures Suffix(name) == "" <==>
      (|name| == 0 || name[|name| - 1] == '.' || forall i :: 0 < i < |name| ==> name[i] != '.')
    ensures var r := Suffix(name);
      r != "" ==>
      && 2 <= |r| < |name|
      && r[0] == '.'
      && (forall k :: 1 <= k < |r| ==> r[k] != '.')
      && name[|name| - |r|..] == r
  {
  }

  /** `PurePath.stem`: the name without its suffix. */
  function Stem(name: string): string {
    name[..|name| - |Suffix(name)|]
  }

  /**
   * `PurePath.with_suffix` on the name: append `suffix` when the name has none,
   * otherwise replace the old suffix by it.
   */
  function WithSuffix(name: string, suffix: string): string {
    var oldSuffix := Suffix(name);
    if oldSuffix == "" then name + suffix
    else name[..|name| - |oldSuffix|] + suffix
  }

  /**
   * The stem followed by the suffix is the name again, and `with_suffix` puts the
   * new suffix where the old one was.
   */
  lemma StemAndSuffix(name: string, suffix: string)
    ensures Stem(name) + Suffix(name) == name
    ensures WithSuffix(name, suffix) == Stem(name) + suffix
  {
    SuffixCharacterization(name);
  }

  /** A name has suffix ".txt" exactly when it ends in ".txt" after at least one other character. */
  lemma {:induction false} TxtSuffixIff(name: string)
    ensures Suffix(name) == ".txt" <==> |name| >= 5 && name[|name| - 4..] == ".txt"
  {
    var r := Suffix(name);
    if r == ".txt" {
      assert name[|name| - 4..] == r;
    }
    if |name| >= 5 && name[|name| - 4..] == ".txt" {
      var n := |name|;
      assert name[n - 4] == '.' && name[n - 3] == 't' && name[n - 2] == 'x' && name[n - 1] == 't' by {
        assert name[n - 4..][0] == '.';
        assert name[n - 4..][1] == 't';
        assert name[n - 4..][2] == 'x';
        assert name[n - 4..][3] == 't';
      }
      assert r != "";
      assert name[n - |r|..] == r;
      assert |r| == 4;
      assert r == name[n - 4..];
    }
  }

  /** Replacing the suffix ".txt" by ".html" keeps everything before the final ".txt". */
  lemma TxtToHtml(name: string)
    requires Suffix(name) == ".txt"
    ensures |name| >= 5
    ensures WithSuffix(name, ".html") == name[..|name| - 4] + ".html"
  {
    TxtSuffixIff(name);
  }

  /** Two ".txt" names with the same ".html" name are the same name. */
  lemma TxtToHtmlInjective(a: string, b: string)
    requires Suffix(a) == ".txt" && Suffix(b) == ".txt"
    requires WithSuffix(a, ".html") == WithSuffix(b, ".html")
    ensures a == b
  {
    TxtToHtml(a);
    TxtToHtml(b);
    var sa, sb := a[..|a| - 4], b[..|b| - 4];
    assert |sa| == |sb| by {
      assert |sa + ".html"| == |sb + ".html"|;
    }
    assert sa == sb by {
      forall k | 0 <= k < |sa| ensures sa[k] == sb[k] {
        assert (sa + ".html")[k] == (sb + ".html")[k];
      }
    }
    TxtSuffixIff(a);
    TxtSuffixIff(b);
    assert a == sa + ".txt" by {
      assert a[|a| - 4..] == ".txt";
      assert a == a[..|a| - 4] + a[|a| - 4..];
    }
    assert b == sb + ".txt" by {
      assert b[|b| - 4..] == ".txt";
      assert b == b[..|b| - 4] + b[|b| - 4..];
    }
  }

  /** A name made of a non-empty stem and an extension with one leading dot has that extension as its suffix. */
  lemma SuffixOfJoin(stem: string, ext: string)
    requires stem != [] && 2 <= |ext| && ext[0] == '.'
    requires forall k :: 1 <= k < |ext| ==> ext[k] != '.'
    ensures Suffix(stem + ext) == ext
  {
    var name := stem + ext;
    var n, m := |name|, |ext|;
    assert name[n - m] == '.';
    assert name[n - 1] != '.';
    var r := Suffix(name);
    assert r != "";
    assert name[n - |r|..] == r;
    assert |r| == m;
    assert name[n - m..] == ext;
  }

  /** The edge cases of the suffix rule that decide how an entry is classified. */
  lemma SuffixExamples()
    ensures Suffix(".txt") == ""
    ensures Suffix("notes.") == ""
    ensures Suffix("README") == ""
    ensures Suffix("A.TXT") == ".TXT"
    ensures Suffix("a.b.txt") == ".txt"
    ensures WithSuffix("a.b.txt", ".html") == "a.b.html"
  {
    TxtSuffixIff("a.b.txt");
    TxtToHtml("a.b.txt");
    assert "a.b.txt"[..3] == "a.b";
    var r := Suffix("A.TXT");
    assert "A.TXT"[1] == '.';
    assert r != "";
    assert "A.TXT"[5 - |r|..] == r;
    assert |r| == 4;
  }
}
