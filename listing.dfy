/** plano.list_dir and plano.find: the names or paths matching any of the glob
    patterns, as a sorted list without duplicates. The directory contents and
    the os.walk traversal are inputs; fnmatch is the `fnmatch` parameter. */
module Listing {
  import opened Wrappers
  import Order
  import Paths

  /** One triple os.walk yields: a directory and the names of its subdirectories and files. */
  datatype WalkEntry = WalkEntry(root: string, dirs: seq<string>, files: seq<string>)

  /** fnmatch.filter(names, pattern), as a set. */
  function Filter(names: set<string>, pattern: string, fnmatch: (string, string) -> bool): (kept: set<string>)
    ensures forall x :: x in kept <==> x in names && fnmatch(x, pattern)
  {
    set x | x in names && fnmatch(x, pattern)
  }

  ghost predicate MatchesSome(x: string, patterns: seq<string>, fnmatch: (string, string) -> bool) {
    exists j :: 0 <= j < |patterns| && fnmatch(x, patterns[j])
  }

  /** list_dir: fails its assertion unless the path is a directory (`listing` is
      None); with no patterns, every name sorted; otherwise the sorted names that
      match at least one pattern, each once. */
  method ListDir(listing: Option<set<string>>, patterns: seq<string>, fnmatch: (string, string) -> bool)
    returns (r: Result<seq<string>, Exception>)
    ensures r.Success? <==> listing.Some?
    ensures r.Failure? ==> r.error == AssertionError
    ensures r.Success? ==> Order.StrictlySorted(r.value)
    ensures r.Success? && patterns == [] ==> forall x :: x in r.value <==> x in listing.value
    ensures r.Success? && patterns != [] ==>
              forall x :: x in r.value <==> x in listing.value && MatchesSome(x, patterns, fnmatch)
  {
    if listing.None? {
      return Failure(AssertionError);
    }
    var names := listing.value;
    if patterns == [] {
      var all := Order.SortSet(names);
      return Success(all);
    }
    var matched: set<string> := {};
    var i := 0;
    while i < |patterns|
      invariant 0 <= i <= |patterns|
      invariant forall x :: x in matched <==> x in names && MatchesSome(x, patterns[..i], fnmatch)
    {
      matched := matched + Filter(names, patterns[i], fnmatch);
      forall x
        ensures MatchesSome(x, patterns[..i + 1], fnmatch) <==>
                MatchesSome(x, patterns[..i], fnmatch) || fnmatch(x, patterns[i])
      {
        assert patterns[..i + 1][i] == patterns[i];
        assert forall j :: 0 <= j < i ==> patterns[..i + 1][j] == patterns[..i][j];
      }
      i := i + 1;
    }
    assert patterns[..i] == patterns;
    var sorted := Order.SortSet(matched);
    r := Success(sorted);
  }

  /** Path p is join(root, x) for a name x among the dirs or files of walk entry i
      that matches pattern j. */
  ghost predicate Hit(walk: seq<WalkEntry>, patterns: seq<string>, fnmatch: (string, string) -> bool,
                      p: string, i: int, j: int, x: string)
  {
    && 0 <= i < |walk| && 0 <= j < |patterns|
    && (x in walk[i].dirs || x in walk[i].files)
    && fnmatch(x, patterns[j])
    && p == Paths.Join(walk[i].root, x)
  }

  /** A hit among the first n entries, or in entry n for one of the first m patterns. */
  ghost predicate FoundBefore(walk: seq<WalkEntry>, patterns: seq<string>, fnmatch: (string, string) -> bool,
                              p: string, n: int, m: int)
  {
    exists i, j, x :: Hit(walk, patterns, fnmatch, p, i, j, x) && (i < n || (i == n && j < m))
  }

  /** Whether find reports p: some walked directory holds a matching name x with p == join(root, x). */
  ghost predicate Found(walk: seq<WalkEntry>, patterns: seq<string>, fnmatch: (string, string) -> bool, p: string) {
    exists i, j, x :: Hit(walk, patterns, fnmatch, p, i, j, x)
  }

  /** The patterns find uses: "*" when none are given. */
  function Defaulted(patterns: seq<string>): (used: seq<string>)
    ensures patterns == [] ==> used == ["*"]
    ensures patterns != [] ==> used == patterns
  {
    if patterns == [] then ["*"] else patterns
  }

  /** The paths join(root, x) for the names x of one entry that match one pattern. */
  function EntryHits(e: WalkEntry, pattern: string, fnmatch: (string, string) -> bool): (hits: set<string>)
    ensures forall p :: p in hits <==>
      exists x :: (x in e.dirs || x in e.files) && fnmatch(x, pattern) && p == Paths.Join(e.root, x)
  {
    (set x | x in e.dirs && fnmatch(x, pattern) :: Paths.Join(e.root, x))
    + (set x | x in e.files && fnmatch(x, pattern) :: Paths.Join(e.root, x))
  }

  /** find: the sorted, duplicate-free paths join(root, name) of every directory
      and file name in the walk that matches one of the patterns ("*" by default). */
  method Find(walk: seq<WalkEntry>, patterns: seq<string>, fnmatch: (string, string) -> bool)
    returns (r: seq<string>)
    ensures Order.StrictlySorted(r)
    ensures forall p :: p in r <==> Found(walk, Defaulted(patterns), fnmatch, p)
  {
    var used := Defaulted(patterns);
    var matched: set<string> := {};
    var i := 0;
    while i < |walk|
      invariant 0 <= i <= |walk|
      invariant forall p :: p in matched <==> FoundBefore(walk, used, fnmatch, p, i, 0)
    {
      var j := 0;
      while j < |used|
        invariant 0 <= j <= |used|
        invariant forall p :: p in matched <==> FoundBefore(walk, used, fnmatch, p, i, j)
      {
        var hits := EntryHits(walk[i], used[j], fnmatch);
        forall p
          ensures FoundBefore(walk, used, fnmatch, p, i, j + 1) <==>
                  FoundBefore(walk, used, fnmatch, p, i, j) || p in hits
        {
          if p in hits {
            var x :| (x in walk[i].dirs || x in walk[i].files) && fnmatch(x, used[j]) && p == Paths.Join(walk[i].root, x);
            assert Hit(walk, used, fnmatch, p, i, j, x);
          }
        }
        matched := matched + hits;
        j := j + 1;
      }
      forall p
        ensures FoundBefore(walk, used, fnmatch, p, i + 1, 0) <==> FoundBefore(walk, used, fnmatch, p, i, |used|)
      {
        if FoundBefore(walk, used, fnmatch, p, i + 1, 0) {
          var i', j', x :| Hit(walk, used, fnmatch, p, i', j', x) && i' < i + 1;
          assert Hit(walk, used, fnmatch, p, i', j', x) && (i' < i || (i' == i && j' < |used|));
        }
      }
      i := i + 1;
    }
    forall p
      ensures FoundBefore(walk, used, fnmatch, p, |walk|, 0) <==> Found(walk, used, fnmatch, p)
    {
      if Found(walk, used, fnmatch, p) {
        var i', j', x :| Hit(walk, used, fnmatch, p, i', j', x);
        assert i' < |walk|;
      }
    }
    r := Order.SortSet(matched);
  }

  /** With no patterns every walked name is reported, given that "*" matches every name. */
  lemma FindDefaultsToEverything(walk: seq<WalkEntry>, fnmatch: (string, string) -> bool, i: int, x: string)
    requires forall y :: fnmatch(y, "*")
    requires 0 <= i < |walk| && (x in walk[i].dirs || x in walk[i].files)
    ensures Found(walk, Defaulted([]), fnmatch, Paths.Join(walk[i].root, x))
  {
    assert Hit(walk, Defaulted([]), fnmatch, Paths.Join(walk[i].root, x), i, 0, x);
  }
}
