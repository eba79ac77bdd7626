/** The read-only finders `list_files_recursive`, `list_files_with_extension`
    and `search_files_by_name` (file_operations.py:56-79), which walk a
    directory tree top-down with `os.walk` and collect the files they accept. */
module Finder {
  import opened Wrappers
  import opened Seqs
  import opened Text
  import opened Paths
  import opened Disk

  /** A directory as `os.walk` reads it: its files and its subdirectories, each
      in the order the operating system lists them. */
  datatype Node = Node(files: seq<Name>, subdirs: seq<Sub>)

  /** A subdirectory entry: its name and what it holds. */
  datatype Sub = Sub(name: Name, node: Node)

  /** One `(root, dirs, files)` tuple `os.walk` yields, without `dirs`, which
      the finders never read. */
  datatype Visit = Visit(root: Path, files: seq<Name>)

  /** `os.walk(root)` top-down: the directory itself, then each subdirectory's
      walk in listing order. */
  function Walk(root: Path, n: Node): seq<Visit>
    decreases n
  {
    [Visit(root, n.files)] + WalkAll(root, n.subdirs)
  }

  function WalkAll(root: Path, subs: seq<Sub>): seq<Visit>
    decreases subs
  {
    if subs == [] then []
    else Walk(Join(root, subs[0].name), subs[0].node) + WalkAll(root, subs[1..])
  }

  /** What `os.walk(source)` yields: nothing at all when `source` is not a
      directory, since `os.walk` ignores the error of listing it. */
  function Visits(source: Path, tree: Option<Node>): seq<Visit> {
    match tree
    case None => []
    case Some(n) => Walk(source, n)
  }

  /** Which files a finder keeps. */
  datatype Query = Every | Suffix(extension: string) | Substring(pattern: string)

  /** `True`, `f.endswith(extension)`, and `pattern.lower() in f.lower()`. */
  predicate Accepts(q: Query, f: Name) {
    match q
    case Every => true
    case Suffix(extension) => EndsWith(f, extension)
    case Substring(pattern) => Contains(Lower(f), Lower(pattern))
  }

  /** The paths of the accepted `files` of the directory `root`, in order. */
  function Gather(root: Path, files: seq<Name>, q: Query): seq<Path> {
    if files == [] then []
    else
      var rest := Gather(root, files[..|files| - 1], q);
      var f := files[|files| - 1];
      if Accepts(q, f) then rest + [Join(root, f)] else rest
  }

  /** The paths of the accepted files of every visited directory, in visiting order. */
  function Collect(visits: seq<Visit>, q: Query): seq<Path> {
    if visits == [] then []
    else
      var v := visits[|visits| - 1];
      Collect(visits[..|visits| - 1], q) + Gather(v.root, v.files, q)
  }
  // ---------------------------------------------------------------------------
  // The finders

  /** `list_files_recursive(source)`: every file under `source`, as the walk
      meets it; `tree` is the directory `source`, or `None` when there is none. */
  method ListFilesRecursive(source: Path, tree: Option<Node>) returns (fileList: seq<Path>)
    ensures fileList == Collect(Visits(source, tree), Every)
  {
    var visits := Visits(source, tree);
    fileList := [];
    var i := 0;
    while i < |visits|
      invariant 0 <= i <= |visits|
      invariant fileList == Collect(visits[..i], Every)
    {
      var root, files := visits[i].root, visits[i].files;
      var j := 0;
      while j < |files|
        invariant 0 <= j <= |files|
        invariant fileList == Collect(visits[..i], Every) + Gather(root, files[..j], Every)
      {
        GatherSnoc(root, files, j, Every);
        fileList := fileList + [Join(root, files[j])];
        j := j + 1;
      }
      CollectSnoc(visits, i, Every);
      assert files[..j] == files;
      i := i + 1;
    }
    assert visits[..i] == visits;
  }

  /** `list_files_with_extension(source, extension)`: the files under `source`
      whose names end with `extension`. */
  method ListFilesWithExtension(source: Path, tree: Option<Node>, extension: string) returns (fileList: seq<Path>)
    ensures fileList == Collect(Visits(source, tree), Suffix(extension))
  {
    var visits := Visits(source, tree);
    fileList := [];
    var i := 0;
    while i < |visits|
      invariant 0 <= i <= |visits|
      invariant fileList == Collect(visits[..i], Suffix(extension))
    {
      var root, files := visits[i].root, visits[i].files;
      var j := 0;
      while j < |files|
        invariant 0 <= j <= |files|
        invariant fileList == Collect(visits[..i], Suffix(extension)) + Gather(root, files[..j], Suffix(extension))
      {
        GatherSnoc(root, files, j, Suffix(extension));
        if EndsWith(files[j], extension) {
          fileList := fileList + [Join(root, files[j])];
        }
        j := j + 1;
      }
      CollectSnoc(visits, i, Suffix(extension));
      assert files[..j] == files;
      i := i + 1;
    }
    assert visits[..i] == visits;
  }

  /** `search_files_by_name(source, pattern)`: the files under `source` whose
      names contain `pattern`, ignoring case. */
  method SearchFilesByName(source: Path, tree: Option<Node>, pattern: string) returns (result: seq<Path>)
    ensures result == Collect(Visits(source, tree), Substring(pattern))
  {
    var visits := Visits(source, tree);
    result := [];
    var i := 0;
    while i < |visits|
      invariant 0 <= i <= |visits|
      invariant result == Collect(visits[..i], Substring(pattern))
    {
      var root, files := visits[i].root, visits[i].files;
      var j := 0;
      while j < |files|
        invariant 0 <= j <= |files|
        invariant result == Collect(visits[..i], Substring(pattern)) + Gather(root, files[..j], Substring(pattern))
      {
        GatherSnoc(root, files, j, Substring(pattern));
        if Contains(Lower(files[j]), Lower(pattern)) {
          result := result + [Join(root, files[j])];
        }
        j := j + 1;
      }
      CollectSnoc(visits, i, Substring(pattern));
      assert files[..j] == files;
      i := i + 1;
    }
    assert visits[..i] == visits;
  }

  /** One more file considered. */
  lemma GatherSnoc(root: Path, files: seq<Name>, j: nat, q: Query)
    requires j < |files|
    ensures Gather(root, files[..j + 1], q)
      == Gather(root, files[..j], q) + (if Accepts(q, files[j]) then [Join(root, files[j])] else [])
  {
    assert files[..j + 1][..j] == files[..j];
  }

  /** One more directory visited. */
  lemma CollectSnoc(visits: seq<Visit>, i: nat, q: Query)
    requires i < |visits|
    ensures Collect(visits[..i + 1], q) == Collect(visits[..i], q) + Gather(visits[i].root, visits[i].files, q)
  {
    assert visits[..i + 1][..i] == visits[..i];
  }
  // ---------------------------------------------------------------------------
  // What the finders return

  /** The test a finder applies to a path of the recursive listing. */
  function Keeps(q: Query): Path -> bool {
    (p: Path) => p.Child? && Accepts(q, p.name)
  }

  lemma {:induction false} GatherFilters(root: Path, files: seq<Name>, q: Query)
    ensures Gather(root, files, q) == Filter(Gather(root, files, Every), Keeps(q))
  {
    if files != [] {
      var init := files[..|files| - 1];
      var all := Gather(root, init, Every);
      GatherFilters(root, init, q);
      FilterAppend(all, [Join(root, files[|files| - 1])], Keeps(q));
    }
  }

  /** The extension listing and the search are the recursive listing with the
      other files left out, in the same order. */
  lemma {:induction false} CollectFiltersListing(visits: seq<Visit>, q: Query)
    ensures Collect(visits, q) == Filter(Collect(visits, Every), Keeps(q))
  {
    if visits != [] {
      var init := visits[..|visits| - 1];
      var v := visits[|visits| - 1];
      CollectFiltersListing(init, q);
      GatherFilters(v.root, v.files, q);
      FilterAppend(Collect(init, Every), Gather(v.root, v.files, Every), Keeps(q));
    }
  }

  /** The recursive listing holds the path of every file of every visited
      directory, and nothing else. */
  lemma {:induction false} ListingMembers(visits: seq<Visit>)
    ensures forall p :: p in Collect(visits, Every) <==>
      exists i, j :: 0 <= i < |visits| && 0 <= j < |visits[i].files| && p == Join(visits[i].root, visits[i].files[j])
  {
    if visits != [] {
      var init := visits[..|visits| - 1];
      var v := visits[|visits| - 1];
      ListingMembers(init);
      GatherMembers(v.root, v.files);
      forall p ensures p in Collect(visits, Every) <==>
        exists i, j :: 0 <= i < |visits| && 0 <= j < |visits[i].files| && p == Join(visits[i].root, visits[i].files[j])
      {
        if p in Collect(init, Every) {
          var i, j :| 0 <= i < |init| && 0 <= j < |init[i].files| && p == Join(init[i].root, init[i].files[j]);
          assert visits[i] == init[i];
        } else if p in Gather(v.root, v.files, Every) {
          var j :| 0 <= j < |v.files| && p == Join(v.root, v.files[j]);
          assert visits[|visits| - 1] == v;
        }
        if exists i, j :: 0 <= i < |visits| && 0 <= j < |visits[i].files| && p == Join(visits[i].root, visits[i].files[j]) {
          var i, j :| 0 <= i < |visits| && 0 <= j < |visits[i].files| && p == Join(visits[i].root, visits[i].files[j]);
          if i < |init| {
            assert init[i] == visits[i];
          }
        }
      }
    }
  }

  lemma {:induction false} GatherMembers(root: Path, files: seq<Name>)
    ensures forall p :: p in Gather(root, files, Every) <==> exists j :: 0 <= j < |files| && p == Join(root, files[j])
  {
    if files != [] {
      var init := files[..|files| - 1];
      GatherMembers(root, init);
      forall p ensures p in Gather(root, files, Every) <==> exists j :: 0 <= j < |files| && p == Join(root, files[j]) {
        if exists j :: 0 <= j < |files| && p == Join(root, files[j]) {
          var j :| 0 <= j < |files| && p == Join(root, files[j]);
          if j < |init| {
            assert init[j] == files[j];
          }
        }
        if p in Gather(root, init, Every) {
          var j :| 0 <= j < |init| && p == Join(root, init[j]);
          assert files[j] == init[j];
        }
      }
    }
  }

  /** A path is found by a finder exactly when it is in the recursive listing
      and its name passes the finder's test. */
  lemma FinderMembers(visits: seq<Visit>, q: Query)
    ensures forall p :: p in Collect(visits, q) <==> p in Collect(visits, Every) && p.Child? && Accepts(q, p.name)
  {
    CollectFiltersListing(visits, q);
  }
  /** Whatever the test, a finder's results lie below `source`. */
  lemma FinderBelowSource(source: Path, tree: Option<Node>, q: Query)
    ensures forall p :: p in Collect(Visits(source, tree), q) ==> p.Child? && source in Prefixes(p.parent)
  {
    var visits := Visits(source, tree);
    FinderMembers(visits, q);
    ListingMembers(visits);
    if tree.Some? {
      WalkBelow(source, tree.value);
    }
    forall p | p in Collect(visits, q) ensures p.Child? && source in Prefixes(p.parent) {
      var i, j :| 0 <= i < |visits| && 0 <= j < |visits[i].files| && p == Join(visits[i].root, visits[i].files[j]);
      assert visits[i] in visits;
    }
  }

  /** Every directory the walk visits is `root` or below it. */
  lemma {:induction false} WalkBelow(root: Path, n: Node)
    ensures forall v :: v in Walk(root, n) ==> root in Prefixes(v.root)
    decreases n
  {
    WalkAllBelow(root, n.subdirs);
  }

  lemma {:induction false} WalkAllBelow(root: Path, subs: seq<Sub>)
    ensures forall v :: v in WalkAll(root, subs) ==> root in Prefixes(v.root)
    decreases subs
  {
    if subs != [] {
      var c := Join(root, subs[0].name);
      WalkBelow(c, subs[0].node);
      WalkAllBelow(root, subs[1..]);
      forall v | v in Walk(c, subs[0].node) ensures root in Prefixes(v.root) {
        PrefixesTransitive(root, c, v.root);
      }
    }
  }

  /** A finder's result depends only on which names its test accepts. */
  lemma {:induction false} CollectSameTest(visits: seq<Visit>, q: Query, r: Query)
    requires forall f :: Accepts(q, f) <==> Accepts(r, f)
    ensures Collect(visits, q) == Collect(visits, r)
  {
    if visits != [] {
      var v := visits[|visits| - 1];
      CollectSameTest(visits[..|visits| - 1], q, r);
      GatherSameTest(v.root, v.files, q, r);
    }
  }

  lemma {:induction false} GatherSameTest(root: Path, files: seq<Name>, q: Query, r: Query)
    requires forall f :: Accepts(q, f) <==> Accepts(r, f)
    ensures Gather(root, files, q) == Gather(root, files, r)
  {
    if files != [] {
      GatherSameTest(root, files[..|files| - 1], q, r);
    }
  }

  /** Folding to lower case twice is folding once. */
  lemma LowerTwice(s: string)
    ensures Lower(Lower(s)) == Lower(s)
  {
  }

  /** The search ignores case on both sides: patterns that differ only in
      case find the same files, and a name is found exactly when its
      lower-case form would be. */
  lemma SearchIgnoresCase(visits: seq<Visit>, pattern: string, other: string, f: Name)
    requires Lower(pattern) == Lower(other)
    ensures Collect(visits, Substring(pattern)) == Collect(visits, Substring(other))
    ensures Accepts(Substring(pattern), f) <==> Accepts(Substring(other), Lower(f))
  {
    LowerTwice(f);
    CollectSameTest(visits, Substring(pattern), Substring(other));
  }

  /** Every name ends with "" and contains "", so an empty extension or
      pattern finds every file of the recursive listing. */
  lemma EmptyQueriesFindAll(visits: seq<Visit>)
    ensures Collect(visits, Suffix("")) == Collect(visits, Every)
    ensures Collect(visits, Substring("")) == Collect(visits, Every)
  {
    forall f ensures Accepts(Suffix(""), f) && Accepts(Substring(""), f) {
      assert OccursAt(Lower(f), Lower(""), 0);
    }
    CollectSameTest(visits, Suffix(""), Every);
    CollectSameTest(visits, Substring(""), Every);
  }
  // ---------------------------------------------------------------------------
  // Each file once

  /** The names of a directory's subdirectories, in listing order. */
  function SubNames(subs: seq<Sub>): seq<Name> {
    seq(|subs|, i requires 0 <= i < |subs| => subs[i].name)
  }

  /** Every directory of the tree lists each file name and each subdirectory
      name once, as the operating system does. */
  ghost predicate Listed(n: Node)
    decreases n
  {
    && Distinct(n.files)
    && Distinct(SubNames(n.subdirs))
    && (forall i :: 0 <= i < |n.subdirs| ==> Listed(n.subdirs[i].node))
  }

  /** The directories visited, in visiting order. */
  function Roots(visits: seq<Visit>): seq<Path> {
    seq(|visits|, i requires 0 <= i < |visits| => visits[i].root)
  }

  lemma RootsAppend(a: seq<Visit>, b: seq<Visit>)
    ensures Roots(a + b) == Roots(a) + Roots(b)
  {
  }

  /** Every directory the walk of a subdirectory list visits lies below one
      of those subdirectories. */
  lemma {:induction false} WalkAllUnder(root: Path, subs: seq<Sub>)
    ensures forall v :: v in WalkAll(root, subs) ==>
      exists m :: 0 <= m < |subs| && Join(root, subs[m].name) in Prefixes(v.root)
    decreases subs
  {
    if subs != [] {
      var c := Join(root, subs[0].name);
      WalkBelow(c, subs[0].node);
      WalkAllUnder(root, subs[1..]);
      forall v | v in WalkAll(root, subs)
        ensures exists m :: 0 <= m < |subs| && Join(root, subs[m].name) in Prefixes(v.root)
      {
        if v in Walk(c, subs[0].node) {
          assert Join(root, subs[0].name) in Prefixes(v.root);
        } else {
          var m :| 0 <= m < |subs[1..]| && Join(root, subs[1..][m].name) in Prefixes(v.root);
          assert subs[1..][m] == subs[m + 1];
        }
      }
    }
  }

  /** The walk of a tree that lists each name once visits each directory
      once, and each visit lists each file once. */
  lemma {:induction false} WalkDistinct(root: Path, n: Node)
    requires Listed(n)
    ensures Distinct(Roots(Walk(root, n)))
    ensures forall v :: v in Walk(root, n) ==> Distinct(v.files)
    decreases n
  {
    var rest := WalkAll(root, n.subdirs);
    WalkAllDistinct(root, n.subdirs);
    WalkAllUnder(root, n.subdirs);
    RootsAppend([Visit(root, n.files)], rest);
    forall x | x in Roots([Visit(root, n.files)]) ensures x !in Roots(rest) {
      if x in Roots(rest) {
        var i :| 0 <= i < |rest| && Roots(rest)[i] == x;
        assert rest[i] in rest;
        var m :| 0 <= m < |n.subdirs| && Join(root, n.subdirs[m].name) in Prefixes(rest[i].root);
        PrefixesShorter(rest[i].root, Join(root, n.subdirs[m].name));
        assert false;
      }
    }
    DistinctAppend(Roots([Visit(root, n.files)]), Roots(rest));
  }

  lemma {:induction false} WalkAllDistinct(root: Path, subs: seq<Sub>)
    requires Distinct(SubNames(subs))
    requires forall i :: 0 <= i < |subs| ==> Listed(subs[i].node)
    ensures Distinct(Roots(WalkAll(root, subs)))
    ensures forall v :: v in WalkAll(root, subs) ==> Distinct(v.files)
    decreases subs
  {
    if subs != [] {
      var c := Join(root, subs[0].name);
      var first := Walk(c, subs[0].node);
      var rest := WalkAll(root, subs[1..]);
      assert SubNames(subs[1..]) == SubNames(subs)[1..];
      WalkDistinct(c, subs[0].node);
      WalkAllDistinct(root, subs[1..]);
      WalkBelow(c, subs[0].node);
      WalkAllUnder(root, subs[1..]);
      RootsAppend(first, rest);
      assert forall m :: 0 <= m < |subs[1..]| ==> subs[1..][m].name != subs[0].name by {
        forall m | 0 <= m < |subs[1..]| ensures subs[1..][m].name != subs[0].name {
          assert SubNames(subs)[0] != SubNames(subs)[m + 1];
        }
      }
      forall x | x in Roots(first) ensures x !in Roots(rest) {
        var i :| 0 <= i < |first| && Roots(first)[i] == x;
        assert first[i] in first;
        if x in Roots(rest) {
          var j :| 0 <= j < |rest| && Roots(rest)[j] == x;
          assert rest[j] in rest;
          var m :| 0 <= m < |subs[1..]| && Join(root, subs[1..][m].name) in Prefixes(x);
          PrefixesSameDepth(c, Join(root, subs[1..][m].name), x);
          assert false;
        }
      }
      DistinctAppend(Roots(first), Roots(rest));
    }
  }

  /** The paths of a directory's distinct file names are distinct. */
  lemma {:induction false} GatherDistinct(root: Path, files: seq<Name>)
    requires Distinct(files)
    ensures Distinct(Gather(root, files, Every))
  {
    if files != [] {
      var init := files[..|files| - 1];
      var last := files[|files| - 1];
      GatherDistinct(root, init);
      GatherMembers(root, init);
      assert last !in init;
      DistinctAppend(Gather(root, init, Every), [Join(root, last)]);
    }
  }

  /** Visiting distinct directories, each listing distinct names, lists each
      path once. */
  lemma {:induction false} CollectDistinct(visits: seq<Visit>)
    requires Distinct(Roots(visits))
    requires forall v :: v in visits ==> Distinct(v.files)
    ensures Distinct(Collect(visits, Every))
  {
    if visits != [] {
      var init := visits[..|visits| - 1];
      var v := visits[|visits| - 1];
      assert Roots(init) == Roots(visits)[..|visits| - 1];
      assert forall w :: w in init ==> w in visits;
      CollectDistinct(init);
      GatherDistinct(v.root, v.files);
      ListingMembers(init);
      GatherMembers(v.root, v.files);
      forall p | p in Collect(init, Every) ensures p !in Gather(v.root, v.files, Every) {
        var i, j :| 0 <= i < |init| && 0 <= j < |init[i].files| && p == Join(init[i].root, init[i].files[j]);
        assert Roots(visits)[i] == init[i].root && Roots(visits)[|visits| - 1] == v.root;
      }
      DistinctAppend(Collect(init, Every), Gather(v.root, v.files, Every));
    }
  }

  /** Every finder returns each path at most once. */
  lemma ListingDistinct(source: Path, tree: Option<Node>, q: Query)
    requires tree.Some? ==> Listed(tree.value)
    ensures Distinct(Collect(Visits(source, tree), q))
  {
    var visits := Visits(source, tree);
    if tree.Some? {
      WalkDistinct(source, tree.value);
      CollectDistinct(visits);
    }
    CollectFiltersListing(visits, q);
  }

  // ---------------------------------------------------------------------------
  // The walk against the file system it reads

  /** `n` is what `os.walk` reads from the directory `root` of `s`: the same
      files and the same subdirectories, each listed once, and each
      subdirectory read the same way. */
  ghost predicate Mirrors(s: State, root: Path, n: Node)
    decreases n
  {
    && root in s.dirs
    && Distinct(n.files)
    && Distinct(SubNames(n.subdirs))
    && (forall f :: f in n.files <==> Join(root, f) in s.files)
    && (forall d :: Join(root, d) in s.dirs <==> exists i :: 0 <= i < |n.subdirs| && n.subdirs[i].name == d)
    && (forall i :: 0 <= i < |n.subdirs| ==> Mirrors(s, Join(root, n.subdirs[i].name), n.subdirs[i].node))
  }

  /** Every directory the walk visits is a directory of `s`, and the files it
      reports there are files of `s`. */
  lemma {:induction false} WalkSound(s: State, root: Path, n: Node)
    requires Mirrors(s, root, n)
    ensures forall v :: v in Walk(root, n) ==> v.root in s.dirs && forall f :: f in v.files ==> Join(v.root, f) in s.files
    decreases n
  {
    WalkAllSound(s, root, n.subdirs);
  }

  lemma {:induction false} WalkAllSound(s: State, root: Path, subs: seq<Sub>)
    requires forall i :: 0 <= i < |subs| ==> Mirrors(s, Join(root, subs[i].name), subs[i].node)
    ensures forall v :: v in WalkAll(root, subs) ==> v.root in s.dirs && forall f :: f in v.files ==> Join(v.root, f) in s.files
    decreases subs
  {
    if subs != [] {
      WalkSound(s, Join(root, subs[0].name), subs[0].node);
      WalkAllSound(s, root, subs[1..]);
    }
  }

  /** The walk of one subdirectory is part of the walk of its parent. */
  lemma {:induction false} WalkAllHas(root: Path, subs: seq<Sub>, i: nat)
    requires i < |subs|
    ensures forall v :: v in Walk(Join(root, subs[i].name), subs[i].node) ==> v in WalkAll(root, subs)
  {
    if i > 0 {
      WalkAllHas(root, subs[1..], i - 1);
      assert subs[1..][i - 1] == subs[i];
    }
  }

  /** Every file of `s` below `root` sits in a directory the walk visits, and
      the walk reports it there. */
  lemma {:induction false} WalkComplete(s: State, root: Path, n: Node, p: Path)
    requires Valid(s) && Mirrors(s, root, n)
    requires p in s.files && root in Prefixes(p.parent)
    ensures exists v :: v in Walk(root, n) && v.root == p.parent && p.name in v.files
    decreases n
  {
    if p.parent == root {
      assert Walk(root, n)[0] == Visit(root, n.files);
    } else {
      var c := EntryAbove(root, p.parent);
      DirsClosed(s, p.parent);
      assert Join(root, c.name) in s.dirs;
      var i :| 0 <= i < |n.subdirs| && n.subdirs[i].name == c.name;
      WalkComplete(s, c, n.subdirs[i].node, p);
      WalkAllHas(root, n.subdirs, i);
    }
  }

  /** A tree read from the file system lists each name once. */
  lemma {:induction false} MirrorsListed(s: State, root: Path, n: Node)
    requires Mirrors(s, root, n)
    ensures Listed(n)
    decreases n
  {
    forall i | 0 <= i < |n.subdirs| ensures Listed(n.subdirs[i].node) {
      MirrorsListed(s, Join(root, n.subdirs[i].name), n.subdirs[i].node);
    }
  }

  /** `list_files_recursive(source)` on a directory lists exactly the files
      below it, each once; on anything else it lists nothing. */
  lemma ListsExactlyFilesBelow(s: State, source: Path, tree: Option<Node>)
    requires Valid(s)
    requires tree.Some? ==> Mirrors(s, source, tree.value)
    requires tree.None? <==> source !in s.dirs
    ensures forall p :: p in Collect(Visits(source, tree), Every) <==>
      p in s.files && p.Child? && source in s.dirs && source in Prefixes(p.parent)
    ensures Distinct(Collect(Visits(source, tree), Every))
  {
    var visits := Visits(source, tree);
    if tree.Some? {
      MirrorsListed(s, source, tree.value);
    }
    ListingDistinct(source, tree, Every);
    ListingMembers(visits);
    FinderBelowSource(source, tree, Every);
    if tree.Some? {
      WalkSound(s, source, tree.value);
      forall p | p in s.files && p.Child? && source in Prefixes(p.parent) ensures p in Collect(visits, Every) {
        WalkComplete(s, source, tree.value, p);
        var v :| v in visits && v.root == p.parent && p.name in v.files;
        var i :| 0 <= i < |visits| && visits[i] == v;
        var j :| 0 <= j < |v.files| && v.files[j] == p.name;
        assert p == Join(visits[i].root, visits[i].files[j]);
      }
      forall p | p in Collect(visits, Every) ensures p in s.files {
        var i, j :| 0 <= i < |visits| && 0 <= j < |visits[i].files| && p == Join(visits[i].root, visits[i].files[j]);
        assert visits[i] in visits && visits[i].files[j] in visits[i].files;
      }
    }
  }
}
