/** The one-time layout migration: a plan of moves off the install root,
    applied at boot under calls that can fail, until nothing is pending. */
module Migration {
  import opened Jsonl
  import opened FileTree

  datatype Move = Move(from: Path, to: Path)

  // ---------------------------------------------------------------- one move

  /** What a move of `from` to `to` may do: add entries under `to` and the
      directories above it, and take entries of `from` away once each file
      among them stands at its image. Nothing else changes. */
  ghost predicate Keeps(a: Tree, b: Tree, from: Path, to: Path) {
    && Rooted(b)
    && (forall p | p in b && p !in a :: to <= p || (p <= to && IsDir(b, p)))
    && (forall p | p in a && !(from <= p) :: At(b, p) == At(a, p))
    && (forall p | IsFile(a, p) && from <= p ::
          At(b, p) == At(a, p) || At(b, Image(from, to, p)) == At(a, p))
  }

  /** Whatever was there is there, unchanged. */
  ghost predicate Untouched(a: Tree, b: Tree) {
    forall p | p in a :: At(b, p) == At(a, p)
  }

  lemma KeepsAdded(a: Tree, b: Tree, c: Tree, from: Path, to: Path, p: Path)
    requires Apart(from, to) && Keeps(a, b, from, to) && Keeps(b, c, from, to)
    requires p in c && p !in a
    ensures to <= p || (p <= to && IsDir(c, p))
  {
    if p in b {
      PrefixTrans(from, p, to);
      assert !(to <= p) ==> At(c, p) == At(b, p);
    }
  }

  lemma KeepsFound(a: Tree, b: Tree, c: Tree, from: Path, to: Path, p: Path)
    requires Apart(from, to) && Keeps(a, b, from, to) && Keeps(b, c, from, to)
    requires IsFile(a, p) && from <= p
    ensures At(c, p) == At(a, p) || At(c, Image(from, to, p)) == At(a, p)
  {
    var q := Image(from, to, p);
    ImageBack(from, to, p);
    ApartBelow(to, from, q);
    if At(b, p) != At(a, p) {
      assert At(b, q) == At(a, p);
      assert q in b;
      assert At(c, q) == At(b, q);
    } else {
      assert IsFile(b, p);
    }
  }

  lemma KeepsTrans(a: Tree, b: Tree, c: Tree, from: Path, to: Path)
    requires Apart(from, to) && Keeps(a, b, from, to) && Keeps(b, c, from, to)
    ensures Keeps(a, c, from, to)
  {
    forall p | p in c && p !in a
      ensures to <= p || (p <= to && IsDir(c, p))
    {
      KeepsAdded(a, b, c, from, to, p);
    }
    forall p | p in a && !(from <= p)
      ensures At(c, p) == At(a, p)
    {
      assert At(b, p) == At(a, p);
      assert p in b;
    }
    forall p | IsFile(a, p) && from <= p
      ensures At(c, p) == At(a, p) || At(c, Image(from, to, p)) == At(a, p)
    {
      KeepsFound(a, b, c, from, to, p);
    }
  }

  lemma KeepsItself(a: Tree, from: Path, to: Path)
    requires Rooted(a)
    ensures Keeps(a, a, from, to)
  {
  }

  lemma DirsKeep(a: Tree, b: Tree, from: Path, to: Path)
    requires |to| > 0 && Rooted(b) && OnlyDirsAdded(a, b, Parent(to))
    ensures Keeps(a, b, from, to) && Untouched(a, b) && (to in b <==> to in a)
  {
    forall p
      ensures At(b, p) == At(a, p) || (p !in a && IsDir(b, p) && p <= to && p != to)
    {
      PrefixTrans(p, Parent(to), to);
      assert At(b, p) == At(a, p) || (p !in a && IsDir(b, p) && p <= Parent(to));
    }
    assert At(b, to) == At(a, to);
  }

  lemma RenameKeeps(a: Tree, b: Tree, from: Path, to: Path)
    requires Rooted(a) && Rooted(b) && Apart(from, to) && to !in a && Renamed(a, b, from, to)
    ensures Keeps(a, b, from, to)
    ensures CopiedBut(a, b, from, to, {})
  {
    forall p
      ensures p in b && p !in a ==> to <= p
      ensures p in a && !(from <= p) ==> At(b, p) == At(a, p)
      ensures from <= p ==> At(b, Image(from, to, p)) == At(a, p)
    {
      RenamedAt(a, b, from, to, p);
    }
  }

  lemma RenamedAt(a: Tree, b: Tree, from: Path, to: Path, p: Path)
    requires Rooted(a) && Apart(from, to) && to !in a && Renamed(a, b, from, to)
    ensures p in b && p !in a ==> to <= p
    ensures p in a && !(from <= p) ==> At(b, p) == At(a, p)
    ensures from <= p ==> At(b, Image(from, to, p)) == At(a, p)
  {
    hide Rooted;
    if to <= p {
      NothingBelow(a, to, p);
    }
    if from <= p {
      ImageBack(from, to, p);
      assert At(b, p) == None;
      assert At(b, Image(from, to, p)) == At(a, Image(to, from, Image(from, to, p)));
    }
    assert !(from <= p) && !(to <= p) ==> At(b, p) == At(a, p);
  }

  lemma CopyKeeps(a: Tree, b: Tree, from: Path, to: Path)
    requires Rooted(a) && Rooted(b) && to !in a && SameOutside(a, b, to)
    ensures Keeps(a, b, from, to) && Untouched(a, b)
  {
    forall p | p in a
      ensures At(b, p) == At(a, p)
    {
      if to <= p {
        NothingBelow(a, to, p);
      }
    }
    assert forall p | p in b && p !in a :: At(b, p) != At(a, p);
  }

  lemma CopyThenRemoveKeeps(a: Tree, b: Tree, c: Tree, from: Path, to: Path)
    requires Rooted(a) && Rooted(c) && Apart(from, to) && to !in a
    requires SameOutside(a, b, to) && CopiedBut(a, b, from, to, {}) && OnlyLess(b, c, from)
    ensures Keeps(a, c, from, to) && CopiedBut(a, c, from, to, {})
  {
    hide Rooted;
    forall p | p in a && from <= p
      ensures At(c, Image(from, to, p)) == At(a, p)
    {
      ImageBack(from, to, p);
      ApartBelow(to, from, Image(from, to, p));
      assert At(c, Image(from, to, p)) == At(b, Image(from, to, p));
    }
    forall p | p in a && !(from <= p)
      ensures At(c, p) == At(a, p)
    {
      if to <= p {
        NothingBelow(a, to, p);
      }
      assert At(c, p) == At(b, p);
    }
    forall p | p in c && p !in a
      ensures to <= p
    {
      assert At(c, p) == None || At(c, p) == At(b, p);
      assert At(b, p) != At(a, p);
    }
  }

  /** A child's move is part of the move of the whole directory. */
  lemma ChildKeeps(a: Tree, b: Tree, from: Path, to: Path, n: string)
    requires Keeps(a, b, from + [n], to + [n])
    ensures Keeps(a, b, from, to)
  {
    hide Rooted;
    forall p | p in b && p !in a
      ensures to <= p || (p <= to && IsDir(b, p))
    {
      PrefixTrans(to, to + [n], p);
      PrefixTotal(p, to, to + [n]);
    }
    forall p | p in a && !(from <= p)
      ensures At(b, p) == At(a, p)
    {
      PrefixTrans(from, from + [n], p);
    }
    forall p | IsFile(a, p) && from <= p
      ensures At(b, p) == At(a, p) || At(b, Image(from, to, p)) == At(a, p)
    {
      if from + [n] <= p {
        assert p[|from|] == (from + [n])[|from|];
        ImageBelow(from, to, n, p);
      }
    }
  }

  // ---------------------------------------------------------------- the plan

  ghost predicate Sane(plan: seq<Move>, marker: Path) {
    && |marker| > 0
    && (forall m | m in plan :: |m.to| > 0 && (m.from == m.to || Apart(m.from, m.to)))
    && (forall m, k | m in plan && k in plan && m != k :: Apart(k.from, m.to) && Apart(m.to, k.to))
    && (forall m | m in plan :: Apart(m.from, marker) && Apart(m.to, marker))
  }

  predicate IsSource(plan: seq<Move>, p: Path) {
    exists m :: m in plan && m.from <= p
  }

  /** The file stands where it was, or at its image under some move. */
  predicate Found(plan: seq<Move>, t: Tree, p: Path, node: Option<Node>) {
    At(t, p) == node || exists m :: m in plan && m.from <= p && At(t, Image(m.from, m.to, p)) == node
  }

  ghost predicate PlanKeeps(plan: seq<Move>, a: Tree, b: Tree) {
    && Rooted(b)
    && (forall p | p in a && !IsSource(plan, p) :: At(b, p) == At(a, p))
    && (forall p | IsFile(a, p) :: Found(plan, b, p, At(a, p)))
  }

  predicate Waiting(m: Move, t: Tree) {
    m.from in t && m.to !in t
  }

  predicate Pending(plan: seq<Move>, t: Tree) {
    exists m :: m in plan && Waiting(m, t)
  }

  lemma OneMoveKeeps(plan: seq<Move>, m: Move, a: Tree, b: Tree)
    requires m in plan && Keeps(a, b, m.from, m.to)
    ensures PlanKeeps(plan, a, b)
  {
    hide Rooted;
    forall p | p in a && !IsSource(plan, p)
      ensures At(b, p) == At(a, p)
    {
      assert !(m.from <= p);
    }
    forall p | IsFile(a, p)
      ensures Found(plan, b, p, At(a, p))
    {
    }
  }

  /** A file that reached its image is at a place no move takes from. */
  lemma ImageStays(plan: seq<Move>, marker: Path, m: Move, p: Path)
    requires Sane(plan, marker) && m in plan && m.from <= p && m.from != m.to
    ensures !IsSource(plan, Image(m.from, m.to, p))
  {
    var q := Image(m.from, m.to, p);
    ImageBack(m.from, m.to, p);
    forall k | k in plan
      ensures !(k.from <= q)
    {
      assert Apart(k.from, m.to);
      ApartBelow(m.to, k.from, q);
    }
  }

  lemma PlanKeepsTrans(plan: seq<Move>, marker: Path, a: Tree, b: Tree, c: Tree)
    requires Sane(plan, marker) && PlanKeeps(plan, a, b) && PlanKeeps(plan, b, c)
    ensures PlanKeeps(plan, a, c)
  {
    hide Rooted, Sane, Found, IsSource;
    forall p | p in a && !IsSource(plan, p)
      ensures At(c, p) == At(a, p)
    {
      assert At(b, p) == At(a, p);
      assert p in b;
    }
    forall p | IsFile(a, p)
      ensures Found(plan, c, p, At(a, p))
    {
      FoundTrans(plan, marker, a, b, c, p);
    }
  }

  lemma FoundTrans(plan: seq<Move>, marker: Path, a: Tree, b: Tree, c: Tree, p: Path)
    requires Sane(plan, marker) && PlanKeeps(plan, b, c) && IsFile(a, p) && Found(plan, b, p, At(a, p))
    ensures Found(plan, c, p, At(a, p))
  {
    hide Rooted, Sane, IsSource;
    if At(b, p) == At(a, p) {
      assert IsFile(b, p);
    } else {
      var m :| m in plan && m.from <= p && At(b, Image(m.from, m.to, p)) == At(a, p);
      var q := Image(m.from, m.to, p);
      assert m.from == m.to ==> q == p;
      ImageStays(plan, marker, m, p);
      assert At(c, q) == At(b, q);
    }
  }

  lemma PlanKeepsItself(plan: seq<Move>, a: Tree)
    requires Rooted(a)
    ensures PlanKeeps(plan, a, a)
  {
  }

  lemma UntouchedKeeps(plan: seq<Move>, a: Tree, b: Tree)
    requires Rooted(b) && Untouched(a, b)
    ensures PlanKeeps(plan, a, b)
  {
  }

  /** NO DESTINATION FILE CHANGES: a file already where a move would put
      something keeps its place and its bytes. */
  lemma DestinationsStand(plan: seq<Move>, marker: Path, a: Tree, b: Tree, m: Move, p: Path)
    requires Sane(plan, marker) && PlanKeeps(plan, a, b)
    requires m in plan && m.to <= p && IsFile(a, p)
    ensures At(b, p) == At(a, p)
  {
    hide Rooted;
    forall k | k in plan && k.from <= p
      ensures k.from == k.to
    {
      PrefixTotal(m.to, k.from, p);
    }
    assert forall k | k in plan && k.from <= p :: Image(k.from, k.to, p) == p;
  }

  // ---------------------------------------------------------------- progress

  /** No file stands where a directory of a destination, or of the marker, belongs. */
  ghost predicate ClearWay(plan: seq<Move>, marker: Path, t: Tree) {
    && !Blocked(t, marker)
    && forall m | m in plan :: !Blocked(t, m.to)
  }

  /** A file stands where a directory above `p` belongs. */
  ghost predicate Blocked(t: Tree, p: Path) {
    exists q :: IsFile(t, q) && q <= p && q != p
  }

  lemma BlockedByFile(t: Tree, p: Path)
    requires |p| > 0 && FileAt(t, Parent(p))
    ensures Blocked(t, p)
  {
    var q :| IsFile(t, q) && q <= Parent(p);
    PrefixTrans(q, Parent(p), p);
  }

  lemma StaysClear(a: Tree, b: Tree, m: Move, to: Path)
    requires Keeps(a, b, m.from, m.to) && !Blocked(a, to)
    requires Apart(m.from, to) && (Apart(m.to, to) || m.to == to)
    ensures !Blocked(b, to)
  {
    hide Rooted;
    forall q | IsFile(b, q) && q <= to && q != to
      ensures IsFile(a, q)
    {
      PrefixTrans(m.from, q, to);
      PrefixTrans(m.to, q, to);
      assert q in a ==> At(b, q) == At(a, q);
    }
  }

  lemma NotWaitingStays(a: Tree, b: Tree, m: Move, k: Move)
    requires Keeps(a, b, m.from, m.to) && !Waiting(k, a)
    requires Apart(m.from, k.to) && Apart(k.from, m.to)
    ensures !Waiting(k, b)
  {
    hide Rooted;
    if k.from in b && k.from !in a {
      PrefixTrans(m.to, k.from, k.from);
    }
  }

  lemma ClearWayStays(plan: seq<Move>, marker: Path, a: Tree, b: Tree, m: Move)
    requires Sane(plan, marker) && m in plan && m.from != m.to && Keeps(a, b, m.from, m.to)
    requires ClearWay(plan, marker, a)
    ensures ClearWay(plan, marker, b)
  {
    hide Keeps, Blocked;
    StaysClear(a, b, m, marker);
    forall k | k in plan
      ensures !Blocked(b, k.to)
    {
      StaysClear(a, b, m, k.to);
    }
  }

  // ---------------------------------------------------------------- the code

  /** Rename, or copy and then remove. A move that is not reported left the
      source whole; one that is put every entry at its image. */
  method MovePath(disk: Disk, from: Path, to: Path) returns (ok: bool)
    requires Rooted(disk.tree) && Apart(from, to) && |to| > 0 && |from| > 0
    requires from in disk.tree && to !in disk.tree && IsDir(disk.tree, Parent(to))
    modifies disk
    ensures Keeps(old(disk.tree), disk.tree, from, to)
    ensures ok ==> CopiedBut(old(disk.tree), disk.tree, from, to, {})
    ensures !ok ==> Untouched(old(disk.tree), disk.tree)
    ensures !ok && IsFile(old(disk.tree), from) ==> HalfCopied(old(disk.tree), disk.tree, from, to)
    ensures ok && !disk.faulty ==> from !in disk.tree
    ensures (ok || disk.faulty) && (old(disk.faulty) ==> disk.faulty) && (old(disk.refused) ==> disk.refused)
  {
    hide Rooted, Keeps, CopiedBut, OnlyImages, HalfCopied, SameOutside, OnlyLess, Renamed, Untouched, Apart;
    ghost var was := disk.tree;
    ok := disk.Rename(from, to);
    if ok {
      RenameKeeps(was, disk.tree, from, to);
      SourceGone(was, disk.tree, from, to);
      return;
    }
    ok := disk.CopyTree(from, to);
    CopyKeeps(was, disk.tree, from, to);
    if !ok {
      return;
    }
    ghost var copied := disk.tree;
    SourceStands(was, copied, from);
    var removed := disk.RemoveTree(from);
    CopyThenRemoveKeeps(was, copied, disk.tree, from, to);
    ok := true;
  }

  lemma SourceGone(a: Tree, b: Tree, from: Path, to: Path)
    requires Renamed(a, b, from, to)
    ensures from !in b
  {
    assert At(b, from) == None;
  }

  lemma SourceStands(a: Tree, b: Tree, p: Path)
    requires p in a && Untouched(a, b)
    ensures p in b && IsDir(b, p) == IsDir(a, p)
  {
    assert At(b, p) == At(a, p);
  }

  /** Merge one level: each child whose place is free is renamed into it. */
  method MergeChildren(disk: Disk, from: Path, to: Path) returns (movedAny: bool)
    requires Rooted(disk.tree) && |from| > 0 && IsDir(disk.tree, from) && to in disk.tree
    requires Apart(from, to) || from == to
    modifies disk
    ensures Apart(from, to) ==> Keeps(old(disk.tree), disk.tree, from, to)
    ensures from == to ==> disk.tree == old(disk.tree)
    ensures !movedAny ==> disk.tree == old(disk.tree)
    ensures movedAny && !disk.faulty ==> from !in disk.tree || Names(disk.tree, from) != {}
    ensures !disk.faulty && !disk.refused ==> AllNamed(old(disk.tree), disk.tree, from, to)
    ensures (old(disk.faulty) ==> disk.faulty) && (old(disk.refused) ==> disk.refused)
  {
    hide Rooted, Keeps, Renamed, OnlyLess, SameOutside, Names, IsDir;
    ghost var was := disk.tree;
    KeepsItself(was, from, to);
    movedAny := false;
    if * {
      disk.faulty := true;
      return;
    }
    var rest := Names(disk.tree, from);
    NamesAreHere(disk.tree, from);
    while rest != {}
      invariant Rooted(disk.tree) && IsDir(disk.tree, from) && to in disk.tree
      invariant Apart(from, to) ==> Keeps(was, disk.tree, from, to)
      invariant from == to || !movedAny ==> disk.tree == was
      invariant movedAny ==> Apart(from, to)
      invariant forall n | n in rest :: from + [n] in disk.tree
      invariant IsDir(was, to) ==> IsDir(disk.tree, to)
      invariant !disk.refused && IsDir(was, to) ==>
        forall n | n in Names(was, from) && n !in rest :: to + [n] in disk.tree
      invariant (old(disk.faulty) ==> disk.faulty) && (old(disk.refused) ==> disk.refused)
      decreases |rest|
    {
      var n :| n in rest;
      rest := rest - {n};
      if to + [n] !in disk.tree {
        ghost var mid := disk.tree;
        ApartChildren(from, to, n);
        var ok := disk.Rename(from + [n], to + [n]);
        if ok {
          movedAny := true;
          ChildRenamed(was, mid, disk.tree, from, to, n, rest);
          ChildNamed(mid, disk.tree, from, to, n);
        } else {
          assert Parent(to + [n]) == to;
        }
      }
    }
    if movedAny && IsEmptyDir(disk.tree, from) {
      ghost var mid := disk.tree;
      var removed := disk.RemoveEmptyDir(from);
      EmptySourceGone(was, mid, disk.tree, from, to);
      NamesStay(mid, disk.tree, from, to);
    }
  }

  /** Each child of `from` has an entry of its name in the directory `to`. */
  ghost predicate AllNamed(a: Tree, b: Tree, from: Path, to: Path) {
    IsDir(a, to) ==> forall n | n in Names(a, from) :: to + [n] in b
  }

  ghost predicate AllMerged(plan: seq<Move>, t: Tree) {
    forall m | m in plan :: Merged(t, m)
  }

  /** Nothing is left behind: what remains in the old directory has an entry of
      its name in the new one. */
  ghost predicate Merged(t: Tree, m: Move) {
    IsDir(t, m.from) && IsDir(t, m.to) ==> forall n | n in Names(t, m.from) :: m.to + [n] in t
  }

  /** A move adds no child to a directory apart from its destination. */
  lemma NoNewNames(a: Tree, b: Tree, m: Move, dir: Path)
    requires Keeps(a, b, m.from, m.to) && Apart(dir, m.to)
    ensures Names(b, dir) <= Names(a, dir)
  {
    hide Rooted;
    forall p | p in b && |p| == |dir| + 1 && dir <= p
      ensures p in a
    {
      ApartBelow(dir, m.to, p);
    }
  }

  /** Nor takes one from a directory apart from its source. */
  lemma PlacesStay(a: Tree, b: Tree, m: Move, dir: Path)
    requires Keeps(a, b, m.from, m.to) && Apart(m.from, dir)
    ensures dir in a ==> At(b, dir) == At(a, dir)
    ensures forall n | dir + [n] in a :: dir + [n] in b
  {
    hide Rooted;
    forall n | dir + [n] in a
      ensures dir + [n] in b
    {
      ApartBelow(dir, m.from, dir + [n]);
      assert At(b, dir + [n]) == At(a, dir + [n]);
    }
  }

  lemma MergedByNames(a: Tree, b: Tree, from: Path, to: Path)
    requires Apart(from, to) && Keeps(a, b, from, to) && to in a
    ensures AllNamed(a, b, from, to) ==> Merged(b, Move(from, to))
  {
    hide Rooted, Keeps, Names;
    NoNewNames(a, b, Move(from, to), from);
    PlacesStay(a, b, Move(from, to), to);
  }

  lemma MergedIfNotBoth(t: Tree, from: Path, to: Path)
    requires from !in t || to !in t || !IsDir(t, from) || from == to
    ensures Merged(t, Move(from, to))
  {
    NamesAreHere(t, from);
  }

  lemma MergedUnless(t: Tree, from: Path, to: Path, gone: bool)
    requires gone ==> from !in t
    ensures gone ==> Merged(t, Move(from, to))
  {
  }

  lemma NamesOfADir(t: Tree, p: Path)
    requires Rooted(t) && Names(t, p) != {}
    ensures IsDir(t, p)
  {
    var n :| n in Names(t, p);
    NamesAreHere(t, p);
    assert Parent(p + [n]) == p;
  }

  lemma NotAdded(a: Tree, b: Tree, m: Move, p: Path)
    requires Keeps(a, b, m.from, m.to) && Apart(p, m.to) && p in b
    ensures p in a
  {
    hide Rooted;
  }

  /** Another move of the plan leaves a merged directory merged. */
  lemma MergedStays(a: Tree, b: Tree, m: Move, k: Move)
    requires Rooted(a) && Keeps(a, b, m.from, m.to) && Merged(a, k)
    requires Apart(k.from, m.to) && Apart(m.from, k.to) && Apart(m.to, k.to)
    ensures Merged(b, k)
  {
    hide Rooted, Keeps, Names;
    NoNewNames(a, b, m, k.from);
    PlacesStay(a, b, m, k.to);
    if IsDir(b, k.from) && IsDir(b, k.to) {
      NotAdded(a, b, m, k.to);
      if Names(a, k.from) != {} {
        NamesOfADir(a, k.from);
      }
    }
  }

  lemma ChildNamed(mid: Tree, now: Tree, from: Path, to: Path, n: string)
    requires Apart(from, to) && Apart(from + [n], to + [n]) && Renamed(mid, now, from + [n], to + [n])
    requires from + [n] in mid && to in mid
    ensures to + [n] in now && IsDir(now, to) == IsDir(mid, to)
    ensures forall m | to + [m] in mid :: to + [m] in now
  {
    assert Image(to + [n], from + [n], to + [n]) == from + [n];
    assert At(now, to + [n]) == At(mid, from + [n]);
    PrefixTrans(from, from + [n], to);
    assert At(now, to) == At(mid, to);
    forall m | to + [m] in mid
      ensures to + [m] in now
    {
      ApartBelow(to, from, to + [m]);
      PrefixTrans(from, from + [n], to + [m]);
      assert m != n ==> (to + [m])[|to|] == m && !(to + [n] <= to + [m]);
      assert m != n ==> At(now, to + [m]) == At(mid, to + [m]);
    }
  }

  lemma NamesStay(mid: Tree, now: Tree, from: Path, to: Path)
    requires Apart(from, to) && OnlyLess(mid, now, from)
    ensures forall m | to + [m] in mid :: to + [m] in now
  {
    forall m | to + [m] in mid
      ensures to + [m] in now
    {
      ApartBelow(to, from, to + [m]);
      assert At(now, to + [m]) == At(mid, to + [m]);
    }
  }

  predicate IsEmptyDir(t: Tree, dir: Path) {
    IsDir(t, dir) && Names(t, dir) == {}
  }

  lemma ChildRenamed(was: Tree, mid: Tree, now: Tree, from: Path, to: Path, n: string, rest: set<string>)
    requires Rooted(mid) && Rooted(now) && Apart(from, to) && Keeps(was, mid, from, to)
    requires IsDir(mid, from) && to in mid && to + [n] !in mid && n !in rest
    requires Apart(from + [n], to + [n]) && Renamed(mid, now, from + [n], to + [n])
    requires forall m | m in rest :: from + [m] in mid
    ensures Keeps(was, now, from, to) && IsDir(now, from) && to in now
    ensures forall m | m in rest :: from + [m] in now
  {
    hide Rooted, Renamed;
    RenameKeeps(mid, now, from + [n], to + [n]);
    StillThere(mid, now, from, to, n, rest);
    ChildKeeps(mid, now, from, to, n);
    KeepsTrans(was, mid, now, from, to);
  }

  lemma StillThere(mid: Tree, now: Tree, from: Path, to: Path, n: string, rest: set<string>)
    requires Apart(from, to) && Keeps(mid, now, from + [n], to + [n])
    requires IsDir(mid, from) && to in mid && n !in rest
    requires forall m | m in rest :: from + [m] in mid
    ensures IsDir(now, from) && to in now
    ensures forall m | m in rest :: from + [m] in now
  {
    hide Rooted;
    assert At(now, from) == At(mid, from);
    PrefixTrans(from, from + [n], to);
    assert At(now, to) == At(mid, to);
    forall m | m in rest
      ensures from + [m] in now
    {
      assert (from + [m])[|from|] == m;
      assert !(from + [n] <= from + [m]);
      assert At(now, from + [m]) == At(mid, from + [m]);
    }
  }

  lemma EmptySourceGone(was: Tree, mid: Tree, now: Tree, from: Path, to: Path)
    requires Rooted(mid) && Rooted(now) && Apart(from, to) && Keeps(was, mid, from, to)
    requires IsEmptyDir(mid, from) && OnlyLess(mid, now, from)
    ensures Keeps(was, now, from, to)
  {
    forall p | from <= p && p in mid
      ensures p == from
    {
      FirstStep(mid, from, p);
    }
    assert Keeps(mid, now, from, to) by {
      hide Rooted;
      assert forall p | p in now && p !in mid :: At(now, p) != None && At(now, p) != At(mid, p);
    }
    KeepsTrans(was, mid, now, from, to);
  }

  /** One pair of the plan. A move that is not reported left everything that
      was there as it was; a file is reported only when its place was free and
      it now holds it; and with no failing call the destination exists. */
  method MoveOne(disk: Disk, from: Path, to: Path) returns (moved: bool)
    requires Rooted(disk.tree) && |from| > 0 && |to| > 0 && (Apart(from, to) || from == to)
    modifies disk
    ensures Apart(from, to) ==> Keeps(old(disk.tree), disk.tree, from, to)
    ensures from == to ==> disk.tree == old(disk.tree)
    ensures !moved ==> Rooted(disk.tree) && Untouched(old(disk.tree), disk.tree)
    ensures moved && IsFile(old(disk.tree), from)
        ==> to !in old(disk.tree) && At(disk.tree, to) == At(old(disk.tree), from)
    ensures moved && IsFile(old(disk.tree), from) && !disk.faulty ==> from !in disk.tree
    ensures !disk.faulty && !Blocked(old(disk.tree), to) ==> !Waiting(Move(from, to), disk.tree)
    ensures !disk.faulty && !disk.refused && IsDir(old(disk.tree), from)
        ==> AllNamed(old(disk.tree), disk.tree, from, to)
    ensures !disk.faulty && !disk.refused ==> Merged(disk.tree, Move(from, to))
    ensures (old(disk.faulty) ==> disk.faulty) && (old(disk.refused) ==> disk.refused)
  {
    hide Rooted, Keeps, Untouched, OnlyDirsAdded, FileAt, Blocked, CopiedBut, AllNamed, Merged;
    ghost var was := disk.tree;
    KeepsItself(was, from, to);
    UntouchedItself(was);
    if from !in disk.tree {
      MergedIfNotBoth(was, from, to);
      return false;
    }
    if to in disk.tree {
      ParentIsThere(was, to);
      NothingBlocks(was, to);
    } else {
      NoneToName(was, from, to);
    }
    var ready := disk.CreateDirs(Parent(to));
    DirsKeep(was, disk.tree, from, to);
    if !ready {
      if FileAt(was, Parent(to)) {
        BlockedByFile(was, to);
        MergedIfNotBoth(disk.tree, from, to);
      }
      return false;
    }
    ghost var mid := disk.tree;
    SourceStands(was, mid, from);
    if !IsDir(disk.tree, from) {
      if to in disk.tree {
        MergedIfNotBoth(mid, from, to);
        return false;
      }
      moved := MovePath(disk, from, to);
      Both(was, mid, disk.tree, from, to, moved);
      MergedUnless(disk.tree, from, to, moved && !disk.faulty);
      return;
    }
    if to !in disk.tree {
      moved := MovePath(disk, from, to);
      Both(was, mid, disk.tree, from, to, moved);
      if moved {
        MergedUnless(disk.tree, from, to, !disk.faulty);
        return;
      }
      SourceStands(mid, disk.tree, from);
    }
    if to in disk.tree {
      ghost var partial := disk.tree;
      moved := MergeChildren(disk, from, to);
      if Apart(from, to) {
        KeepsTrans(was, partial, disk.tree, from, to);
        KeepsIsRooted(was, disk.tree, from, to);
        KeepsTo(partial, disk.tree, from, to);
        MergedByNames(partial, disk.tree, from, to);
      } else {
        MergedIfNotBoth(disk.tree, from, to);
      }
      return;
    }
    moved := false;
  }

  lemma UntouchedItself(a: Tree)
    ensures Untouched(a, a)
  {
  }

  lemma UntouchedTwice(a: Tree, b: Tree, c: Tree)
    requires Untouched(a, b) && Untouched(b, c)
    ensures Untouched(a, c)
  {
    forall p | p in a
      ensures At(c, p) == At(a, p)
    {
      assert At(b, p) == At(a, p);
      assert p in b;
    }
  }

  lemma NothingBlocks(t: Tree, p: Path)
    requires Rooted(t) && p in t
    ensures !Blocked(t, p)
  {
    forall q | IsFile(t, q)
      ensures !(q <= p && q != p)
    {
      if q <= p && q != p {
        Ancestor(t, q, p);
      }
    }
  }

  lemma NoneToName(a: Tree, from: Path, to: Path)
    requires to !in a
    ensures forall b :: AllNamed(a, b, from, to)
  {
  }

  lemma ParentIsThere(t: Tree, p: Path)
    requires Rooted(t) && |p| > 0 && p in t
    ensures Parent(p) in t
  {
  }

  lemma KeepsIsRooted(a: Tree, b: Tree, from: Path, to: Path)
    requires Keeps(a, b, from, to)
    ensures Rooted(b)
  {
  }

  lemma KeepsTo(a: Tree, b: Tree, from: Path, to: Path)
    requires Keeps(a, b, from, to) && Apart(from, to)
    ensures to in a ==> to in b
  {
    assert to in a ==> At(b, to) == At(a, to);
  }

  lemma Both(was: Tree, mid: Tree, now: Tree, from: Path, to: Path, moved: bool)
    requires Apart(from, to) && Keeps(was, mid, from, to) && Keeps(mid, now, from, to)
    requires Untouched(was, mid) && from in was
    requires if moved then CopiedBut(mid, now, from, to, {}) else Untouched(mid, now)
    ensures Keeps(was, now, from, to) && Rooted(now)
    ensures !moved ==> Untouched(was, now)
    ensures moved ==> At(now, to) == At(was, from) && to in now
  {
    hide Rooted, Keeps;
    KeepsTrans(was, mid, now, from, to);
    KeepsIsRooted(was, now, from, to);
    assert At(mid, from) == At(was, from);
    assert Image(from, to, from) == to;
  }

  lemma SaneMove(plan: seq<Move>, marker: Path, m: Move)
    requires Sane(plan, marker) && m in plan
    ensures |m.to| > 0 && |marker| > 0 && (m.from == m.to || Apart(m.from, m.to))
  {
  }

  lemma MarkerIsAPath(plan: seq<Move>, marker: Path)
    requires Sane(plan, marker)
    ensures |marker| > 0
  {
  }

  lemma MarkerStaysAway(plan: seq<Move>, marker: Path, a: Tree, b: Tree, m: Move)
    requires Sane(plan, marker) && m in plan && Keeps(a, b, m.from, m.to) && marker !in a
    ensures marker !in b
  {
  }

  /** What one pair of the pass leaves for the next. */
  lemma PairDone(plan: seq<Move>, marker: Path, was: Tree, mid: Tree, now: Tree, i: nat)
    requires Sane(plan, marker) && i < |plan| && PlanKeeps(plan, was, mid) && marker !in mid
    requires if plan[i].from == plan[i].to then now == mid else Keeps(mid, now, plan[i].from, plan[i].to)
    ensures Rooted(now) && PlanKeeps(plan, was, now) && marker !in now
    ensures ClearWay(plan, marker, mid) ==> ClearWay(plan, marker, now)
    ensures forall k | 0 <= k < i && !Waiting(plan[k], mid) :: !Waiting(plan[k], now)
    ensures forall k | 0 <= k < i && Merged(mid, plan[k]) && plan[k] != plan[i] :: Merged(now, plan[k])
  {
    hide Keeps, ClearWay, Waiting, Found, Merged;
    var m := plan[i];
    if m.from != m.to {
      OneMoveKeeps(plan, m, mid, now);
      PlanKeepsTrans(plan, marker, was, mid, now);
      MarkerStaysAway(plan, marker, mid, now, m);
      if ClearWay(plan, marker, mid) {
        ClearWayStays(plan, marker, mid, now, m);
      }
      forall k | 0 <= k < i && !Waiting(plan[k], mid)
        ensures !Waiting(plan[k], now)
      {
        assert plan[k] in plan;
        NotWaitingStays(mid, now, m, plan[k]);
      }
      forall k | 0 <= k < i && Merged(mid, plan[k]) && plan[k] != m
        ensures Merged(now, plan[k])
      {
        assert plan[k] in plan;
        MergedStays(mid, now, m, plan[k]);
      }
    }
  }

  /** The marker goes in when nothing is pending; its directory may be new. */
  method WriteMarker(disk: Disk, ghost plan: seq<Move>, marker: Path, note: Bytes, ghost was: Tree)
    requires Rooted(disk.tree) && Sane(plan, marker) && |marker| > 0 && marker !in disk.tree
    requires PlanKeeps(plan, was, disk.tree) && !Pending(plan, disk.tree)
    modifies disk
    ensures PlanKeeps(plan, was, disk.tree) && !Pending(plan, disk.tree)
    ensures Untouched(old(disk.tree), disk.tree)
    ensures AllMerged(plan, old(disk.tree)) ==> AllMerged(plan, disk.tree)
    ensures !disk.faulty && !Blocked(old(disk.tree), marker) ==> marker in disk.tree
    ensures (old(disk.faulty) ==> disk.faulty) && disk.refused == old(disk.refused)
  {
    hide Rooted, Sane, PlanKeeps, Blocked, Pending, FileAt, OnlyDirsAdded, At, AllMerged, Untouched;
    ghost var before := disk.tree;
    var ready := disk.CreateDirs(Parent(marker));
    ghost var mid := disk.tree;
    MarkerDirs(plan, marker, before, mid);
    PlanKeepsTrans(plan, marker, was, before, mid);
    if !ready {
      if FileAt(before, Parent(marker)) {
        BlockedByFile(before, marker);
      }
      return;
    }
    var ok := disk.WriteFile(marker, note);
    MarkerWritten(plan, marker, mid, disk.tree);
    PlanKeepsTrans(plan, marker, was, mid, disk.tree);
    UntouchedTwice(before, mid, disk.tree);
    assert ok ==> marker in disk.tree by {
      IsThere(disk.tree, marker, note);
    }
  }

  lemma IsThere(t: Tree, p: Path, content: Bytes)
    ensures At(t, p) == Some(File(content)) ==> p in t
  {
  }

  lemma MarkerDirs(plan: seq<Move>, marker: Path, a: Tree, b: Tree)
    requires Sane(plan, marker) && Rooted(b) && |marker| > 0 && OnlyDirsAdded(a, b, Parent(marker))
    requires marker !in a && !Pending(plan, a)
    ensures PlanKeeps(plan, a, b) && !Pending(plan, b) && marker !in b && Untouched(a, b)
    ensures AllMerged(plan, a) ==> AllMerged(plan, b)
  {
    assert At(b, marker) == At(a, marker);
    UntouchedKeeps(plan, a, b);
    forall p | p in b && p !in a
      ensures p <= marker
    {
      PrefixTrans(p, Parent(marker), marker);
    }
    MergedAside(plan, marker, a, b);
    forall m | m in plan
      ensures !Waiting(m, b)
    {
      PrefixTrans(m.from, Parent(marker), marker);
      assert At(b, m.from) == At(a, m.from);
      assert At(b, m.to) == At(a, m.to) || m.to in b;
      assert !Waiting(m, a);
    }
  }

  lemma MarkerWritten(plan: seq<Move>, marker: Path, a: Tree, b: Tree)
    requires Sane(plan, marker) && Rooted(b) && marker !in a && !Pending(plan, a)
    requires forall p | p != marker :: At(b, p) == At(a, p)
    ensures PlanKeeps(plan, a, b) && !Pending(plan, b) && Untouched(a, b)
    ensures AllMerged(plan, a) ==> AllMerged(plan, b)
  {
    UntouchedKeeps(plan, a, b);
    assert forall p | p in b && p !in a :: At(b, p) != At(a, p);
    MergedAside(plan, marker, a, b);
    forall m | m in plan
      ensures !Waiting(m, b)
    {
      assert At(b, m.from) == At(a, m.from) && At(b, m.to) == At(a, m.to);
      assert !Waiting(m, a);
    }
  }

  /** Nothing but directories above the marker, and the marker, was added. */
  lemma MergedAside(plan: seq<Move>, marker: Path, a: Tree, b: Tree)
    requires Sane(plan, marker) && Untouched(a, b) && forall p | p in b && p !in a :: p <= marker
    ensures AllMerged(plan, a) ==> AllMerged(plan, b)
  {
    forall m | m in plan && Merged(a, m)
      ensures Merged(b, m)
    {
      forall p | p in b && m.from <= p
        ensures p in a
      {
        PrefixTrans(m.from, p, marker);
      }
      assert m.from in b ==> At(b, m.from) == At(a, m.from);
      assert m.to in b ==> m.to in a && At(b, m.to) == At(a, m.to) by {
        PrefixTrans(m.to, m.to, marker);
      }
      forall n | n in Names(b, m.from) && IsDir(a, m.from) && IsDir(a, m.to)
        ensures m.to + [n] in b
      {
        assert m.to + [n] in a;
        assert At(b, m.to + [n]) == At(a, m.to + [n]);
      }
    }
  }

  lemma ClearMarker(plan: seq<Move>, marker: Path, t: Tree)
    requires ClearWay(plan, marker, t)
    ensures !Blocked(t, marker)
  {
  }

  lemma ClearMove(plan: seq<Move>, marker: Path, t: Tree, m: Move)
    requires ClearWay(plan, marker, t) && m in plan
    ensures !Blocked(t, m.to)
  {
  }

  lemma NotThere(m: Move, t: Tree)
    ensures m.from !in t ==> !Waiting(m, t)
  {
  }

  lemma NoneWaiting(plan: seq<Move>, t: Tree)
    requires forall k | 0 <= k < |plan| :: !Waiting(plan[k], t)
    ensures !Pending(plan, t)
  {
  }

  /** One boot. Whatever the calls answer, each entry outside the plan's
      sources is as it was and each file is at its place or its image; a marker
      that is there stops the pass; one that appears means nothing is pending;
      it does appear when no call fails and no file blocks a directory; and with
      no rename refused either, no directory of the plan leaves a child behind. */
  method MigrateLayout(disk: Disk, plan: seq<Move>, marker: Path, note: Bytes) returns (moves: seq<Move>)
    requires Rooted(disk.tree) && Sane(plan, marker) && forall m | m in plan :: |m.from| > 0
    modifies disk
    ensures PlanKeeps(plan, old(disk.tree), disk.tree)
    ensures marker in old(disk.tree) ==> disk.tree == old(disk.tree)
    ensures marker in disk.tree ==> marker in old(disk.tree) || !Pending(plan, disk.tree)
    ensures !disk.faulty && ClearWay(plan, marker, old(disk.tree)) ==> marker in disk.tree
    ensures !disk.faulty && !disk.refused && marker !in old(disk.tree) ==> AllMerged(plan, disk.tree)
    ensures Booted(plan, marker, old(disk.tree), disk.tree)
    ensures forall m | m in moves :: m in plan
    ensures moves == [] ==> Untouched(old(disk.tree), disk.tree)
  {
    hide Rooted, Sane, PlanKeeps, ClearWay, Keeps, Blocked, Untouched, Waiting, Pending, Merged;
    ghost var was := disk.tree;
    PlanKeepsItself(plan, was);
    UntouchedItself(was);
    moves := [];
    if marker in disk.tree {
      return;
    }
    MarkerIsAPath(plan, marker);
    for i := 0 to |plan|
      invariant Rooted(disk.tree) && PlanKeeps(plan, was, disk.tree)
      invariant marker !in disk.tree
      invariant !disk.faulty && ClearWay(plan, marker, was) ==>
        ClearWay(plan, marker, disk.tree) && forall k | 0 <= k < i :: !Waiting(plan[k], disk.tree)
      invariant !disk.faulty && !disk.refused ==> forall k | 0 <= k < i :: Merged(disk.tree, plan[k])
      invariant forall m | m in moves :: m in plan
      invariant moves == [] ==> Untouched(was, disk.tree)
    {
      var m := plan[i];
      ghost var mid := disk.tree;
      SaneMove(plan, marker, m);
      var moved := false;
      if m.from in disk.tree {
        moved := MoveOne(disk, m.from, m.to);
      } else {
        KeepsItself(mid, m.from, m.to);
        MergedIfNotBoth(mid, m.from, m.to);
      }
      if ClearWay(plan, marker, mid) {
        ClearMove(plan, marker, mid, m);
      }
      NotThere(m, disk.tree);
      PairDone(plan, marker, was, mid, disk.tree, i);
      if moved {
        moves := moves + [m];
      } else if moves == [] {
        UntouchedTwice(was, mid, disk.tree);
      }
    }
    if !disk.faulty && ClearWay(plan, marker, was) {
      NoneWaiting(plan, disk.tree);
      ClearMarker(plan, marker, disk.tree);
    }
    if !Pending(plan, disk.tree) {
      ghost var before := disk.tree;
      WriteMarker(disk, plan, marker, note, was);
      if moves == [] {
        UntouchedTwice(was, before, disk.tree);
      }
    }
  }

  // ---------------------------------------------------------------- half a copy

  /** A failed copy leaves its pair waiting for the next boot exactly when it
      had not yet created the destination. */
  lemma FailedCopyWaits(a: Tree, b: Tree, m: Move)
    requires IsFile(a, m.from) && m.to !in a && m.from != m.to && HalfCopied(a, b, m.from, m.to)
    ensures Waiting(m, b) <==> b == a
  {
  }

  /** Once it had, the pair is done with: whatever is at the destination, part of
      the file as it may be, no longer waits and stays for good, and the whole
      file is where the plan may find it. */
  lemma HalfCopyIsTaken(plan: seq<Move>, marker: Path, m: Move, t: Tree, b: Tree)
    requires Sane(plan, marker) && m in plan && IsFile(t, m.from) && IsFile(t, m.to)
    requires Booted(plan, marker, t, b)
    ensures !Waiting(m, t) && !Waiting(m, b)
    ensures At(b, m.to) == At(t, m.to) && Found(plan, b, m.from, At(t, m.from))
  {
    hide Sane, Pending, Found;
    DestinationsStand(plan, marker, t, b, m, m.to);
  }

  /** At this input: a tree with a whole file at a pair's old place and the first
      half of it at the new one has nothing to wait for. */
  lemma HalfAConfig(from: Path, to: Path, bytes: Bytes, dirs: Tree)
    requires from != to && |bytes| > 1
    ensures var t := dirs[from := File(bytes)][to := File(bytes[..|bytes| / 2])];
            !Pending([Move(from, to)], t) && At(t, to) != At(t, from)
  {
    var t := dirs[from := File(bytes)][to := File(bytes[..|bytes| / 2])];
    assert bytes[..|bytes| / 2] != bytes;
  }

  /** A directory that stands at both places does not wait either, however much
      the merge left behind: at this input a refused rename has left a child, and
      the pass writes its marker. */
  lemma ChildLeftBehind(from: Path, to: Path, child: string, node: Node, dirs: Tree)
    requires Apart(from, to)
    ensures var t := dirs[from := Dir][to := Dir][from + [child] := node] - {to + [child]};
            !Pending([Move(from, to)], t) && !Merged(t, Move(from, to)) && from + [child] in t
  {
    ApartBelow(from, to, from + [child]);
    var t := dirs[from := Dir][to := Dir][from + [child] := node] - {to + [child]};
    assert from + [child] in t && (from + [child])[|from|] == child;
    assert child in Names(t, from);
  }

  // ---------------------------------------------------------------- boots

  /** What `MigrateLayout` promises of one boot. */
  ghost predicate Booted(plan: seq<Move>, marker: Path, a: Tree, b: Tree) {
    && PlanKeeps(plan, a, b)
    && (marker in a ==> b == a)
    && (marker in b ==> marker in a || !Pending(plan, b))
  }

  /** OVER ANY NUMBER OF BOOTS: no file is lost, nothing outside the plan's
      sources changes, and from the boot that wrote the marker on, nothing is
      pending and nothing changes again. */
  lemma {:induction false} BootsLoseNothing(plan: seq<Move>, marker: Path, trees: seq<Tree>)
    requires Sane(plan, marker) && |trees| > 0 && Rooted(trees[0])
    requires forall i | 0 <= i < |trees| - 1 :: Booted(plan, marker, trees[i], trees[i + 1])
    ensures PlanKeeps(plan, trees[0], trees[|trees| - 1])
    ensures marker !in trees[0] && marker in trees[|trees| - 1] ==> !Pending(plan, trees[|trees| - 1])
    ensures forall i | 0 <= i < |trees| && marker in trees[i] :: trees[|trees| - 1] == trees[i]
    decreases |trees|
  {
    hide Sane, PlanKeeps, Pending;
    var n := |trees| - 1;
    if n == 0 {
      PlanKeepsItself(plan, trees[0]);
    } else {
      var front := trees[..n];
      assert Booted(plan, marker, front[n - 1], trees[n - 1 + 1]);
      assert forall i | 0 <= i < |front| - 1 :: Booted(plan, marker, front[i], front[i + 1]);
      BootsLoseNothing(plan, marker, front);
      PlanKeepsTrans(plan, marker, trees[0], front[n - 1], trees[n]);
    }
  }
}
