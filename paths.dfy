/** Paths as a chain of components hanging from the top of the modelled tree, so
    that `os.path.join`, `os.path.dirname` and the archive's base-name rule
    (file_operations.py:84) are structural. */
module Paths {
  type Name = string

  /** `Root` is the top of the modelled tree; `Child(parent, name)` is the
      entry `name` of the directory `parent`. */
  datatype Path = Root | Child(parent: Path, name: Name)

  /** `os.path.join(dir, name)`. */
  function Join(dir: Path, name: Name): Path {
    Child(dir, name)
  }

  /** `p` is the path of one of `names` inside `dir`. */
  predicate InDir(p: Path, dir: Path, names: seq<Name>) {
    p.Child? && p.parent == dir && p.name in names
  }

  /** `p` and every directory above it, as `os.makedirs(p)` creates them. */
  function Prefixes(p: Path): (r: set<Path>)
    ensures p in r && Root in r
    ensures forall q :: q in r && q.Child? ==> q.parent in r
  {
    match p
    case Root => {Root}
    case Child(parent, _) => {p} + Prefixes(parent)
  }

  /** No entry of a directory is the directory itself or one above it. */
  lemma ChildNotPrefix(dir: Path, name: Name)
    ensures Join(dir, name) !in Prefixes(dir)
  {
    if Join(dir, name) in Prefixes(dir) {
      PrefixesShorter(dir, Join(dir, name));
    }
  }

  /** The number of components of a path. */
  function Depth(p: Path): nat {
    match p
    case Root => 0
    case Child(parent, _) => Depth(parent) + 1
  }

  /** Every path `Prefixes(p)` holds is at most as deep as `p`. */
  lemma {:induction false} PrefixesShorter(p: Path, q: Path)
    requires q in Prefixes(p)
    ensures Depth(q) <= Depth(p)
  {
    match p
    case Root =>
    case Child(parent, _) =>
      if q != p {
        PrefixesShorter(parent, q);
      }
  }
  /** A directory above a directory above `c` is above `c`. */
  lemma {:induction false} PrefixesTransitive(a: Path, b: Path, c: Path)
    requires a in Prefixes(b) && b in Prefixes(c)
    ensures a in Prefixes(c)
  {
    if b != c {
      PrefixesTransitive(a, b, c.parent);
    }
  }

  /** The directories above a path form a chain: two of the same depth are one. */
  lemma {:induction false} PrefixesSameDepth(a: Path, b: Path, v: Path)
    requires a in Prefixes(v) && b in Prefixes(v) && Depth(a) == Depth(b)
    ensures a == b
  {
    if a != v && b != v {
      PrefixesSameDepth(a, b, v.parent);
    } else if a != v {
      PrefixesShorter(v.parent, a);
    } else if b != v {
      PrefixesShorter(v.parent, b);
    }
  }

  /** Below `dir` and not `dir` itself: then some entry of `dir` is above `q`. */
  lemma {:induction false} EntryAbove(dir: Path, q: Path) returns (c: Path)
    requires dir in Prefixes(q) && dir != q
    ensures c.Child? && c.parent == dir && c in Prefixes(q)
  {
    if q.parent == dir {
      c := q;
    } else {
      c := EntryAbove(dir, q.parent);
    }
  }
}
