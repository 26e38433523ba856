/** A file tree with calls that can fail: rename, copy, create, remove. */
module FileTree {
  import opened Jsonl

  type Path = seq<string>
  datatype Node = Dir | File(bytes: Bytes)
  type Tree = map<Path, Node>

  function At(t: Tree, p: Path): Option<Node> {
    if p in t then Some(t[p]) else None
  }

  predicate IsDir(t: Tree, p: Path) {
    p in t && t[p].Dir?
  }

  predicate IsFile(t: Tree, p: Path) {
    p in t && t[p].File?
  }

  function Parent(p: Path): Path
    requires |p| > 0
  {
    p[..|p| - 1]
  }

  /** A file stands on the way to `p`, or at it. */
  ghost predicate FileAt(t: Tree, p: Path) {
    exists q :: IsFile(t, q) && q <= p
  }

  /** Every entry sits in a directory. */
  ghost predicate Rooted(t: Tree) {
    IsDir(t, []) && forall p | p in t && |p| > 0 :: IsDir(t, Parent(p))
  }

  /** Neither path is inside the other. */
  predicate Apart(a: Path, b: Path) {
    !(a <= b) && !(b <= a)
  }

  /** Where a path under `old` lands when `old` becomes `new`. */
  function Image(from: Path, to: Path, p: Path): Path
    requires from <= p
  {
    to + p[|from|..]
  }

  lemma {:induction false} Ancestor(t: Tree, q: Path, p: Path)
    requires Rooted(t) && p in t && q <= p && q != p
    ensures IsDir(t, q)
    decreases |p|
  {
    if q != Parent(p) {
      Ancestor(t, q, Parent(p));
    }
  }

  lemma NothingBelow(t: Tree, q: Path, p: Path)
    requires Rooted(t) && q !in t && q <= p
    ensures p !in t
  {
    if p in t && p != q {
      Ancestor(t, q, p);
    }
  }

  lemma PrefixTrans(a: Path, b: Path, p: Path)
    ensures a <= b && b <= p ==> a <= p
  {
    if a <= b && b <= p {
      assert a == b[..|a|] == p[..|a|];
    }
  }

  lemma PrefixTotal(a: Path, b: Path, p: Path)
    ensures a <= p && b <= p ==> a <= b || b <= a
  {
    if a <= p && b <= p {
      assert a == p[..|a|] && b == p[..|b|];
      assert |a| <= |b| ==> a == b[..|a|];
      assert |b| <= |a| ==> b == a[..|b|];
    }
  }

  lemma ApartBelow(a: Path, b: Path, p: Path)
    requires Apart(a, b) && a <= p
    ensures !(b <= p) && !(p <= b)
  {
    PrefixTotal(a, b, p);
    PrefixTrans(a, p, b);
  }

  function Subtree(t: Tree, root: Path): set<Path> {
    set p | p in t && root <= p
  }

  function Names(t: Tree, dir: Path): set<string> {
    set p | p in t && |p| == |dir| + 1 && dir <= p :: p[|dir|]
  }

  lemma SmallerBelow(t: Tree, dir: Path, name: string)
    requires dir in t
    ensures |Subtree(t, dir + [name])| < |Subtree(t, dir)|
  {
    var small, big := Subtree(t, dir + [name]), Subtree(t, dir);
    assert dir in big && dir !in small;
    assert small <= big - {dir} by {
      forall p | p in small
        ensures p in big - {dir}
      {
        assert dir == (dir + [name])[..|dir|] == p[..|dir|];
      }
    }
    SubsetSize(small, big - {dir});
  }

  lemma SubsetSize<T>(a: set<T>, b: set<T>)
    requires a <= b
    ensures |a| <= |b|
  {
    if x :| x in a {
      SubsetSize(a - {x}, b - {x});
    }
  }

  // ---------------------------------------------------------------- effects

  ghost predicate SameOutside(a: Tree, b: Tree, root: Path) {
    forall p | !(root <= p) :: At(b, p) == At(a, p)
  }

  ghost predicate Renamed(a: Tree, b: Tree, from: Path, to: Path) {
    && (forall p | !(from <= p) && !(to <= p) :: At(b, p) == At(a, p))
    && (forall p | from <= p :: At(b, p) == None)
    && (forall p | to <= p :: At(b, p) == At(a, Image(to, from, p)))
  }

  /** Each entry under `from` has its copy under `to`, but for the children in `rest`. */
  ghost predicate CopiedBut(a: Tree, b: Tree, from: Path, to: Path, rest: set<string>) {
    forall p | p in a && from <= p && !(|p| > |from| && p[|from|] in rest) ::
      At(b, Image(from, to, p)) == At(a, p)
  }

  /** Nothing stands under `to` but copies of what stands under `from`. */
  ghost predicate OnlyImages(a: Tree, b: Tree, from: Path, to: Path) {
    forall p | to <= p && p in b :: Image(to, from, p) in a
  }

  ghost predicate OnlyLess(a: Tree, b: Tree, root: Path) {
    SameOutside(a, b, root) && forall p | root <= p :: At(b, p) == None || At(b, p) == At(a, p)
  }

  /** A copy of a file that failed: nothing happened, or some of it is there. */
  ghost predicate HalfCopied(a: Tree, b: Tree, from: Path, to: Path)
    requires IsFile(a, from)
  {
    b == a || exists n: nat :: n <= |a[from].bytes| && b == a[to := File(a[from].bytes[..n])]
  }

  ghost predicate OnlyDirsAdded(a: Tree, b: Tree, below: Path) {
    forall p :: At(b, p) == At(a, p) || (p !in a && IsDir(b, p) && p <= below)
  }

  function Moved(t: Tree, from: Path, to: Path): Tree {
    map p | p in (set q | q in t && !(from <= q)) + (set q | q in t && from <= q :: Image(from, to, q)) ::
      if to <= p && Image(to, from, p) in t then t[Image(to, from, p)] else if p in t then t[p] else Dir
  }

  lemma ImageBack(from: Path, to: Path, p: Path)
    requires from <= p
    ensures to <= Image(from, to, p) && Image(to, from, Image(from, to, p)) == p
  {
  }

  lemma MovedIsRenamed(t: Tree, from: Path, to: Path)
    requires Rooted(t) && Apart(from, to) && to !in t
    ensures Renamed(t, Moved(t, from, to), from, to)
  {
    var m := Moved(t, from, to);
    forall p | !(from <= p) && !(to <= p)
      ensures At(m, p) == At(t, p)
    {
      forall q | q in t && from <= q
        ensures Image(from, to, q) != p
      {
        ImageBack(from, to, q);
      }
    }
    forall p | from <= p
      ensures At(m, p) == None
    {
      ApartBelow(from, to, p);
      forall q | q in t && from <= q
        ensures Image(from, to, q) != p
      {
        ImageBack(from, to, q);
      }
    }
    forall p | to <= p
      ensures At(m, p) == At(t, Image(to, from, p))
    {
      NothingBelow(t, to, p);
      ImageBack(to, from, p);
      forall q | q in t && from <= q && Image(from, to, q) == p
        ensures q == Image(to, from, p)
      {
        ImageBack(from, to, q);
      }
    }
  }

  lemma RenamedIsRooted(a: Tree, b: Tree, from: Path, to: Path)
    requires Rooted(a) && Apart(from, to) && Renamed(a, b, from, to)
    requires from in a && to !in a && IsDir(a, Parent(to))
    ensures Rooted(b)
  {
    assert At(b, []) == At(a, []);
    forall p | p in b && |p| > 0
      ensures IsDir(b, Parent(p))
    {
      assert At(b, p).Some?;
      if p == to {
        ApartParent(from, to);
        assert At(b, Parent(to)) == At(a, Parent(to));
      } else if to <= p {
        assert to <= Parent(p);
        assert Image(to, from, Parent(p)) == Parent(Image(to, from, p));
        assert At(b, Parent(p)) == At(a, Image(to, from, Parent(p)));
      } else {
        assert !(to <= Parent(p)) && !(from <= Parent(p));
        assert At(b, Parent(p)) == At(a, Parent(p));
      }
    }
  }

  lemma ApartParent(from: Path, to: Path)
    requires Apart(from, to)
    ensures |to| > 0 && !(from <= Parent(to)) && !(to <= Parent(to))
  {
    PrefixTrans(from, Parent(to), to);
  }

  /** The machine's disk. Calls that may fail answer by choice; `faulty` says
      that one of them did although nothing in the tree stood in its way, and
      `refused` the same of a rename, which the two paths being on two volumes
      is reason enough for. */
  class Disk {
    var tree: Tree
    ghost var faulty: bool
    ghost var refused: bool

    constructor (tree: Tree)
      ensures this.tree == tree && !faulty && !refused
    {
      this.tree := tree;
      faulty, refused := false, false;
    }

    method Rename(from: Path, to: Path) returns (ok: bool)
      requires Rooted(tree) && Apart(from, to) && from in tree && to !in tree
      modifies this
      ensures Rooted(tree) && faulty == old(faulty) && (old(refused) ==> refused)
      ensures ok || refused || !IsDir(tree, Parent(to))
      ensures ok ==> Renamed(old(tree), tree, from, to)
      ensures !ok ==> tree == old(tree)
    {
      ok := false;
      if IsDir(tree, Parent(to)) {
        if * {
          MovedIsRenamed(tree, from, to);
          RenamedIsRooted(tree, Moved(tree, from, to), from, to);
          tree := Moved(tree, from, to);
          ok := true;
        } else {
          refused := true;
        }
      }
    }

    /** A copy that fails can leave part of the file behind. */
    method CopyFile(from: Path, to: Path) returns (ok: bool)
      requires Rooted(tree) && |to| > 0 && IsFile(tree, from) && to !in tree && IsDir(tree, Parent(to))
      modifies this
      ensures Rooted(tree) && SameOutside(old(tree), tree, to)
      ensures ok ==> At(tree, to) == At(old(tree), from)
      ensures (ok || faulty) && (old(faulty) ==> faulty) && refused == old(refused)
      ensures !IsDir(tree, to)
      ensures !ok ==> HalfCopied(old(tree), tree, from, to)
    {
      var all := tree[from].bytes;
      if * {
        tree := tree[to := File(all)];
        return true;
      }
      faulty := true;
      if * {
        var part: nat := *;
        tree := tree[to := File(all[..Min(part, |all|)])];
      }
      ok := false;
    }

    /** Copy a file or a whole directory; the source stays. */
    method CopyTree(from: Path, to: Path) returns (ok: bool)
      requires Rooted(tree) && Apart(from, to) && from in tree && to !in tree && |to| > 0 && IsDir(tree, Parent(to))
      modifies this
      ensures Rooted(tree) && SameOutside(old(tree), tree, to)
      ensures ok ==> CopiedBut(old(tree), tree, from, to, {})
      ensures OnlyImages(old(tree), tree, from, to)
      ensures !ok && IsFile(old(tree), from) ==> HalfCopied(old(tree), tree, from, to)
      ensures (ok || faulty) && (old(faulty) ==> faulty) && refused == old(refused)
      decreases |Subtree(tree, from)|, 1
    {
      hide Rooted, SameOutside, CopiedBut, OnlyImages, HalfCopied, Apart, Subtree, Names, At;
      ghost var was := tree;
      if tree[from].File? {
        ok := CopyFile(from, to);
        FileCopied(was, tree, from, to);
        OneImage(was, tree, from, to);
        return;
      }
      if * {
        faulty := true;
        SameAsItself(was, to);
        NoImages(was, from, to);
        return false;
      }
      tree := tree[to := Dir];
      EmptyCopy(was, tree, from, to);
      FirstImage(was, tree, from, to);
      var rest := Names(tree, from);
      NamesElsewhere(was, tree, from, to);
      while rest != {}
        invariant Rooted(tree) && SameOutside(was, tree, to) && IsDir(tree, to)
        invariant rest <= Names(was, from)
        invariant CopiedBut(was, tree, from, to, rest) && OnlyImages(was, tree, from, to)
        invariant forall n | n in rest :: to + [n] !in tree
        invariant (old(faulty) ==> faulty) && refused == old(refused)
        decreases |rest|
      {
        if * {
          faulty := true;
          return false;
        }
        var n :| n in rest;
        ok := CopyChild(was, from, to, n, rest);
        if !ok {
          return;
        }
        rest := rest - {n};
      }
      ok := true;
    }

    method CopyChild(ghost was: Tree, from: Path, to: Path, n: string, ghost rest: set<string>) returns (ok: bool)
      requires Rooted(tree) && SameOutside(was, tree, to) && IsDir(tree, to) && from in was && Apart(from, to)
      requires n in rest && rest <= Names(was, from)
      requires CopiedBut(was, tree, from, to, rest) && OnlyImages(was, tree, from, to)
      requires forall m | m in rest :: to + [m] !in tree
      modifies this
      ensures Rooted(tree) && SameOutside(was, tree, to) && OnlyImages(was, tree, from, to)
      ensures ok ==> IsDir(tree, to) && CopiedBut(was, tree, from, to, rest - {n})
      ensures ok ==> forall m | m in rest - {n} :: to + [m] !in tree
      ensures (ok || faulty) && (old(faulty) ==> faulty) && refused == old(refused)
      decreases |Subtree(was, from)|, 0
    {
      hide Rooted, SameOutside, CopiedBut, OnlyImages, Apart, Subtree, Names, At;
      ghost var mid := tree;
      ChildReady(was, mid, from, to, n);
      ok := CopyTree(from + [n], to + [n]);
      WithinChild(was, mid, tree, to, n);
      ChildImages(was, mid, tree, from, to, n);
      if ok {
        ChildCopied(was, mid, tree, from, to, n, rest);
      }
    }

    /** Remove a file or a directory with all it holds; a failure stops half-way. */
    method RemoveTree(root: Path) returns (ok: bool)
      requires Rooted(tree) && |root| > 0 && root in tree
      modifies this
      ensures Rooted(tree) && OnlyLess(old(tree), tree, root)
      ensures ok ==> root !in tree
      ensures (ok || faulty) && (old(faulty) ==> faulty) && refused == old(refused)
      decreases |Subtree(tree, root)|
    {
      hide Rooted, OnlyLess, SameOutside, Subtree, Names, At;
      ghost var was := tree;
      LessThanItself(was, root);
      if IsDir(tree, root) {
        var rest := Names(tree, root);
        NamesAreHere(tree, root);
        while rest != {}
          invariant Rooted(tree) && OnlyLess(was, tree, root) && IsDir(tree, root)
          invariant forall n | n in rest :: root + [n] in tree
          invariant Names(tree, root) <= rest
          invariant (old(faulty) ==> faulty) && refused == old(refused)
          decreases |rest|
        {
          var n :| n in rest;
          ghost var mid := tree;
          FewerBelow(was, mid, root, n);
          ok := RemoveTree(root + [n]);
          ChildGone(was, mid, tree, root, n, rest);
          if !ok {
            return;
          }
          rest := rest - {n};
        }
      }
      if * {
        faulty := true;
        return false;
      }
      RemoveLeaf(was, tree, root);
      tree := map p | p in tree && p != root :: tree[p];
      ok := true;
    }

    /** Create a directory and every missing one above it. */
    method CreateDirs(dir: Path) returns (ok: bool)
      requires Rooted(tree)
      modifies this
      ensures Rooted(tree) && OnlyDirsAdded(old(tree), tree, dir)
      ensures ok ==> IsDir(tree, dir)
      ensures dir in old(tree) ==> tree == old(tree)
      ensures !ok ==> faulty || FileAt(old(tree), dir)
      ensures (old(faulty) ==> faulty) && refused == old(refused)
      decreases |dir|
    {
      ghost var was := tree;
      if dir in tree {
        if tree[dir].Dir? {
          return true;
        }
        assert IsFile(tree, dir) && dir <= dir;
        return false;
      }
      hide FileAt, OnlyDirsAdded;
      ok := CreateDirs(Parent(dir));
      ParentBelow(was, tree, dir);
      if !ok {
        return;
      }
      if * {
        faulty := true;
        return false;
      }
      DirAdded(was, tree, dir);
      tree := tree[dir := Dir];
    }

    method RemoveEmptyDir(dir: Path) returns (ok: bool)
      requires Rooted(tree) && |dir| > 0 && IsDir(tree, dir) && Names(tree, dir) == {}
      modifies this
      ensures Rooted(tree) && OnlyLess(old(tree), tree, dir)
      ensures if ok then dir !in tree else tree == old(tree)
      ensures (ok || faulty) && (old(faulty) ==> faulty) && refused == old(refused)
    {
      hide Rooted, OnlyLess, SameOutside, Names;
      LessThanItself(tree, dir);
      if * {
        faulty := true;
        return false;
      }
      RemoveLeaf(tree, tree, dir);
      tree := map p | p in tree && p != dir :: tree[p];
      ok := true;
    }

    /** Write a small file of our own; a failure can leave part of it. */
    method WriteFile(path: Path, content: Bytes) returns (ok: bool)
      requires Rooted(tree) && |path| > 0 && path !in tree && IsDir(tree, Parent(path))
      modifies this
      ensures Rooted(tree)
      ensures forall p | p != path :: At(tree, p) == At(old(tree), p)
      ensures ok ==> At(tree, path) == Some(File(content))
      ensures (ok || faulty) && (old(faulty) ==> faulty) && refused == old(refused)
    {
      if * {
        tree := tree[path := File(content)];
        return true;
      }
      faulty := true;
      if * {
        tree := tree[path := File([])];
      }
      ok := false;
    }
  }

  // ---------------------------------------------------------------- steps

  lemma OnlyItself(t: Tree, from: Path, to: Path)
    requires Rooted(t) && IsFile(t, from)
    ensures forall p | p in t && from <= p :: p == from
    ensures Image(from, to, from) == to
  {
    forall p | p in t && from <= p
      ensures p == from
    {
      if p != from {
        Ancestor(t, from, p);
      }
    }
  }

  lemma FileCopied(a: Tree, b: Tree, from: Path, to: Path)
    requires Rooted(a) && IsFile(a, from)
    ensures At(b, to) == At(a, from) ==> CopiedBut(a, b, from, to, {})
  {
    OnlyItself(a, from, to);
  }

  lemma NothingInside(t: Tree, q: Path, p: Path)
    requires Rooted(t) && p in t && q <= p && !IsDir(t, q)
    ensures p == q
  {
    if p != q {
      Ancestor(t, q, p);
    }
  }

  lemma OneImage(a: Tree, b: Tree, from: Path, to: Path)
    requires Rooted(b) && from in a && !IsDir(b, to)
    ensures OnlyImages(a, b, from, to)
  {
    forall p | to <= p && p in b
      ensures p == to
    {
      NothingInside(b, to, p);
    }
    assert Image(to, from, to) == from;
  }

  lemma NoImages(a: Tree, from: Path, to: Path)
    requires Rooted(a) && to !in a
    ensures OnlyImages(a, a, from, to)
  {
    forall p | to <= p
      ensures p !in a
    {
      NothingBelow(a, to, p);
    }
  }

  lemma FirstImage(a: Tree, b: Tree, from: Path, to: Path)
    requires Rooted(a) && to !in a && from in a && b == a[to := Dir]
    ensures OnlyImages(a, b, from, to)
  {
    forall p | to <= p && p in b
      ensures Image(to, from, p) in a
    {
      NothingBelow(a, to, p);
      assert Image(to, from, to) == from;
    }
  }

  lemma ChildImages(was: Tree, mid: Tree, now: Tree, from: Path, to: Path, n: string)
    requires Apart(from, to) && SameOutside(was, mid, to) && OnlyImages(was, mid, from, to)
    requires SameOutside(mid, now, to + [n]) && OnlyImages(mid, now, from + [n], to + [n])
    ensures OnlyImages(was, now, from, to)
  {
    forall p | to <= p && p in now
      ensures Image(to, from, p) in was
    {
      if to + [n] <= p {
        assert p[|to|] == (to + [n])[|to|];
        ImageBelow(to, from, n, p);
        var q := Image(to, from, p);
        assert q in mid;
        ImageBack(to, from, p);
        ApartBelow(from, to, q);
        assert At(mid, q) == At(was, q);
      } else {
        assert At(now, p) == At(mid, p);
      }
    }
  }

  lemma SameAsItself(t: Tree, root: Path)
    ensures SameOutside(t, t, root)
  {
  }

  lemma EmptyCopy(a: Tree, b: Tree, from: Path, to: Path)
    requires Rooted(a) && IsDir(a, from) && |to| > 0 && to !in a && IsDir(a, Parent(to)) && b == a[to := Dir]
    ensures Rooted(b) && SameOutside(a, b, to) && CopiedBut(a, b, from, to, Names(a, from))
    ensures forall n | n in Names(a, from) :: to + [n] !in b
  {
    hide Names, Rooted, SameOutside;
    AddDir(a, to);
    forall p | p in a && from <= p && !(|p| > |from| && p[|from|] in Names(a, from))
      ensures At(b, Image(from, to, p)) == At(a, p)
    {
      FirstStep(a, from, p);
      assert Image(from, to, from) == to;
    }
    NoChildYet(a, to);
  }

  lemma AddDir(a: Tree, to: Path)
    requires Rooted(a) && |to| > 0 && to !in a && IsDir(a, Parent(to))
    ensures Rooted(a[to := Dir]) && SameOutside(a, a[to := Dir], to)
  {
    var b := a[to := Dir];
    forall p | p in b && |p| > 0
      ensures IsDir(b, Parent(p))
    {
    }
  }

  lemma NoChildYet(a: Tree, to: Path)
    requires Rooted(a) && to !in a
    ensures forall n :: to + [n] !in a
  {
    forall n
      ensures to + [n] !in a
    {
      NothingBelow(a, to, to + [n]);
    }
  }

  /** An entry below a directory is below one of its children. */
  lemma FirstStep(t: Tree, dir: Path, p: Path)
    requires Rooted(t) && p in t && dir <= p
    ensures p == dir || (|p| > |dir| && p[|dir|] in Names(t, dir))
  {
    if p != dir {
      var q := p[..|dir| + 1];
      assert q == dir + [p[|dir|]];
      if q != p {
        Ancestor(t, q, p);
      }
      NameOf(t, dir, p[|dir|]);
    }
  }

  lemma NamesElsewhere(a: Tree, b: Tree, from: Path, to: Path)
    requires Apart(from, to) && SameOutside(a, b, to)
    ensures Names(b, from) == Names(a, from)
  {
    forall n
      ensures n in Names(b, from) <==> n in Names(a, from)
    {
      ApartBelow(from, to, from + [n]);
      assert At(b, from + [n]) == At(a, from + [n]);
      NameOf(a, from, n);
      NameOf(b, from, n);
    }
  }

  lemma NameOf(t: Tree, dir: Path, n: string)
    ensures n in Names(t, dir) <==> dir + [n] in t
  {
    if n in Names(t, dir) {
      var p :| p in t && |p| == |dir| + 1 && dir <= p && p[|dir|] == n;
      assert p == dir + [n];
    }
    if dir + [n] in t {
      assert (dir + [n])[|dir|] == n;
    }
  }

  lemma ApartChildren(from: Path, to: Path, n: string)
    requires Apart(from, to)
    ensures Apart(from + [n], to + [n])
  {
    PrefixTrans(from, from + [n], to + [n]);
    PrefixTotal(from, to, to + [n]);
    PrefixTrans(to, to + [n], from + [n]);
    PrefixTotal(from, to, from + [n]);
  }

  lemma ChildReady(was: Tree, mid: Tree, from: Path, to: Path, n: string)
    requires Apart(from, to) && SameOutside(was, mid, to) && n in Names(was, from) && from in was
    ensures from + [n] in mid && At(mid, from + [n]) == At(was, from + [n])
    ensures Apart(from + [n], to + [n])
    ensures Parent(to + [n]) == to
    ensures |Subtree(mid, from + [n])| < |Subtree(was, from)|
  {
    NameOf(was, from, n);
    ApartBelow(from, to, from + [n]);
    assert At(mid, from + [n]) == At(was, from + [n]);
    ApartChildren(from, to, n);
    assert Subtree(mid, from + [n]) == Subtree(was, from + [n]) by {
      forall p
        ensures p in Subtree(mid, from + [n]) <==> p in Subtree(was, from + [n])
      {
        PrefixTrans(from, from + [n], p);
        if from + [n] <= p {
          ApartBelow(from, to, p);
          assert At(mid, p) == At(was, p);
        }
      }
    }
    SmallerBelow(was, from, n);
  }

  lemma WithinChild(was: Tree, mid: Tree, now: Tree, to: Path, n: string)
    requires SameOutside(was, mid, to) && SameOutside(mid, now, to + [n])
    ensures SameOutside(was, now, to)
  {
    forall p | !(to <= p)
      ensures At(now, p) == At(was, p)
    {
      PrefixTrans(to, to + [n], p);
      assert At(now, p) == At(mid, p);
    }
  }

  lemma ChildCopied(was: Tree, mid: Tree, now: Tree, from: Path, to: Path, n: string, rest: set<string>)
    requires Apart(from, to) && SameOutside(was, mid, to) && SameOutside(mid, now, to + [n])
    requires n in rest && CopiedBut(was, mid, from, to, rest)
    requires CopiedBut(mid, now, from + [n], to + [n], {})
    requires IsDir(mid, to) && forall m | m in rest :: to + [m] !in mid
    ensures SameOutside(was, now, to) && CopiedBut(was, now, from, to, rest - {n}) && IsDir(now, to)
    ensures forall m | m in rest - {n} :: to + [m] !in now
  {
    WithinChild(was, mid, now, to, n);
    assert At(now, to) == At(mid, to);
    forall p | p in was && from <= p && !(|p| > |from| && p[|from|] in rest - {n})
      ensures At(now, Image(from, to, p)) == At(was, p)
    {
      CopiedOne(was, mid, now, from, to, n, rest, p);
    }
    forall m | m in rest - {n}
      ensures to + [m] !in now
    {
      assert !(to + [n] <= to + [m]) by {
        assert (to + [m])[|to|] == m;
      }
      assert At(now, to + [m]) == At(mid, to + [m]);
    }
  }

  lemma CopiedOne(was: Tree, mid: Tree, now: Tree, from: Path, to: Path, n: string, rest: set<string>, p: Path)
    requires Apart(from, to) && SameOutside(was, mid, to) && SameOutside(mid, now, to + [n])
    requires n in rest && CopiedBut(was, mid, from, to, rest)
    requires CopiedBut(mid, now, from + [n], to + [n], {})
    requires p in was && from <= p && !(|p| > |from| && p[|from|] in rest - {n})
    ensures At(now, Image(from, to, p)) == At(was, p)
  {
    var q := Image(from, to, p);
    ApartBelow(from, to, p);
    assert At(mid, p) == At(was, p);
    if |p| > |from| && p[|from|] == n {
      ImageBelow(from, to, n, p);
    } else {
      ImageBeside(from, to, n, p);
      assert At(now, q) == At(mid, q);
    }
  }

  lemma ImageBelow(from: Path, to: Path, n: string, p: Path)
    requires from <= p && |p| > |from| && p[|from|] == n
    ensures from + [n] <= p && Image(from + [n], to + [n], p) == Image(from, to, p)
  {
    assert from + [n] == p[..|from| + 1];
    assert p[|from|..] == [n] + p[|from| + 1..];
  }

  lemma ImageBeside(from: Path, to: Path, n: string, p: Path)
    requires from <= p && (|p| == |from| || p[|from|] != n)
    ensures !(to + [n] <= Image(from, to, p))
  {
    var q := Image(from, to, p);
    if |p| > |from| {
      assert q[|to|] == p[|from|];
      assert (to + [n])[|to|] == n;
    }
  }

  lemma LessThanItself(t: Tree, root: Path)
    ensures OnlyLess(t, t, root)
  {
  }

  lemma NamesAreHere(t: Tree, dir: Path)
    ensures forall n | n in Names(t, dir) :: dir + [n] in t
  {
    forall n | n in Names(t, dir)
      ensures dir + [n] in t
    {
      NameOf(t, dir, n);
    }
  }

  lemma FewerBelow(was: Tree, mid: Tree, root: Path, n: string)
    requires OnlyLess(was, mid, root) && root in was
    ensures |Subtree(mid, root + [n])| < |Subtree(was, root)|
  {
    assert Subtree(mid, root + [n]) <= Subtree(was, root + [n]) by {
      forall p | p in mid && root + [n] <= p
        ensures p in was
      {
        PrefixTrans(root, root + [n], p);
        assert At(mid, p).Some?;
      }
    }
    SubsetSize(Subtree(mid, root + [n]), Subtree(was, root + [n]));
    SmallerBelow(was, root, n);
  }

  lemma ChildGone(was: Tree, mid: Tree, now: Tree, root: Path, n: string, rest: set<string>)
    requires OnlyLess(was, mid, root) && OnlyLess(mid, now, root + [n]) && IsDir(mid, root)
    requires forall m | m in rest :: root + [m] in mid
    requires Names(mid, root) <= rest
    ensures OnlyLess(was, now, root) && IsDir(now, root)
    ensures forall m | m in rest - {n} :: root + [m] in now
    ensures Names(now, root) <= rest
    ensures root + [n] !in now ==> Names(now, root) <= rest - {n}
  {
    forall p
      ensures !(root <= p) ==> At(now, p) == At(was, p)
      ensures root <= p ==> At(now, p) == None || At(now, p) == At(was, p)
    {
      PrefixTrans(root, root + [n], p);
      assert At(now, p) == None || At(now, p) == At(mid, p);
    }
    assert At(now, root) == At(mid, root);
    forall m | m != n
      ensures At(now, root + [m]) == At(mid, root + [m])
    {
      assert (root + [m])[|root|] == m;
      assert !(root + [n] <= root + [m]);
    }
    forall m | m in Names(now, root)
      ensures m in rest
      ensures root + [n] !in now ==> m != n
    {
      NameOf(now, root, m);
      NameOf(mid, root, m);
      assert At(now, root + [m]) == None || At(now, root + [m]) == At(mid, root + [m]);
    }
  }

  lemma RemoveLeaf(was: Tree, t: Tree, root: Path)
    requires Rooted(t) && OnlyLess(was, t, root) && |root| > 0 && root in t
    requires IsDir(t, root) ==> Names(t, root) == {}
    ensures var u := map p | p in t && p != root :: t[p];
            Rooted(u) && OnlyLess(was, u, root)
  {
    var u: Tree := map p | p in t && p != root :: t[p];
    forall p | p in u && |p| > 0
      ensures IsDir(u, Parent(p))
    {
      if Parent(p) == root {
        assert IsDir(t, root);
        assert p == root + [p[|root|]];
        NameOf(t, root, p[|root|]);
      }
    }
    forall p
      ensures !(root <= p) ==> At(u, p) == At(was, p)
      ensures root <= p ==> At(u, p) == None || At(u, p) == At(was, p)
    {
      assert p != root ==> At(u, p) == At(t, p);
      assert At(t, p) == None || At(t, p) == At(was, p);
    }
  }

  lemma ParentBelow(a: Tree, b: Tree, dir: Path)
    requires |dir| > 0 && dir !in a && OnlyDirsAdded(a, b, Parent(dir))
    ensures OnlyDirsAdded(a, b, dir) && dir !in b
    ensures FileAt(a, Parent(dir)) ==> FileAt(a, dir)
  {
    assert At(b, dir) == At(a, dir);
    forall q
      ensures At(b, q) == At(a, q) || (q !in a && IsDir(b, q) && q <= dir)
    {
      PrefixTrans(q, Parent(dir), dir);
    }
    if FileAt(a, Parent(dir)) {
      var q :| IsFile(a, q) && q <= Parent(dir);
      PrefixTrans(q, Parent(dir), dir);
    }
  }

  lemma DirAdded(a: Tree, b: Tree, dir: Path)
    requires |dir| > 0 && OnlyDirsAdded(a, b, dir) && dir !in b && Rooted(b) && IsDir(b, Parent(dir))
    ensures Rooted(b[dir := Dir]) && OnlyDirsAdded(a, b[dir := Dir], dir)
  {
    var c := b[dir := Dir];
    assert At(b, dir) == At(a, dir) || dir !in a;
    forall q
      ensures At(c, q) == At(a, q) || (q !in a && IsDir(c, q) && q <= dir)
    {
      assert q != dir ==> At(c, q) == At(b, q);
    }
  }
}
