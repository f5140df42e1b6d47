/** Restoring over a live system (internal/backup/live_restore.go): the archive is unpacked into a fresh
    staging tree, from which each mapping copies a file or directory to its target. */
module LiveRestore {
  import opened Options
  import opened Text
  import opened EncryptedArchive
  import opened FileTree
  import opened BackupArchive
  import opened Unpacking

  datatype LiveMapping = LiveMapping(source: string, target: string)

  predicate Allowed(m: LiveMapping) {
    TrimSpace(m.source) != "" && TrimSpace(m.target) != "" && SafeName(m.source) && Inside(m.source)
  }

  function From(m: LiveMapping): (p: Path)
    ensures ProperPath(p)
  {
    StagedPath(m.source)
  }

  function Target(m: LiveMapping): (p: Path)
    ensures ProperPath(p)
  {
    PathOf(m.target)
  }

  /** What restoring a file or directory of the staging tree writes and makes, and where. */
  function Copied(staging: Tree, from: Path, target: Path): Tree {
    var moved := set q | q in staging.files && from <= q :: target + q[|from|..];
    Tree(map p | p in moved && target <= p && from + p[|target|..] in staging.files :: staging.files[from + p[|target|..]],
         (set q | q in staging.dirs && Below(from, q) :: target + q[|from|..])
         + if IsDir(staging, from) then Prefixes(target) else if from in staging.files then Ancestors(target) else {})
  }

  /** The piece can be added to the tree. */
  predicate Fits(t: Tree, piece: Tree) {
    !Clash(t, piece) && [] !in piece.files
  }

  /** The mapping can be restored over t. */
  predicate Restorable(t: Tree, staging: Tree, m: LiveMapping, overwrite: bool) {
    Allowed(m) && !UnderFile(staging, From(m)) && (Exists(staging, From(m)) ==>
      (overwrite || !Exists(t, Target(m))) && Fits(t, Copied(staging, From(m), Target(m))))
  }

  /** The live tree with what all mappings copy. */
  function Overlaid(t: Tree, staging: Tree, ms: seq<LiveMapping>): Tree {
    if ms == [] then t
    else
      var m := ms[|ms|-1];
      Merge(Overlaid(t, staging, ms[..|ms|-1]), Copied(staging, From(m), Target(m)))
  }

  predicate AllRestorable(t: Tree, staging: Tree, ms: seq<LiveMapping>, overwrite: bool) {
    ms == [] ||
    (AllRestorable(t, staging, ms[..|ms|-1], overwrite)
     && Restorable(Overlaid(t, staging, ms[..|ms|-1]), staging, ms[|ms|-1], overwrite))
  }

  /* ---- what is copied ---- */

  lemma CopiedHas(staging: Tree, from: Path, target: Path, q: Path)
    requires q in staging.files && from <= q
    ensures target + q[|from|..] in Copied(staging, from, target).files
    ensures Copied(staging, from, target).files[target + q[|from|..]] == staging.files[q]
  {
    var p := target + q[|from|..];
    assert p[|target|..] == q[|from|..] && from + q[|from|..] == q;
  }

  lemma CopiedIsStaged(staging: Tree, from: Path, target: Path, p: Path)
    requires p in Copied(staging, from, target).files
    ensures target <= p && from + p[|target|..] in staging.files
    ensures Copied(staging, from, target).files[p] == staging.files[from + p[|target|..]]
  {
  }

  /** The directories a mapping makes, one by one. */
  lemma CopiedDirs(staging: Tree, from: Path, target: Path, d: Path)
    ensures d in Copied(staging, from, target).dirs <==>
              || (exists q :: q in staging.dirs && Below(from, q) && d == target + q[|from|..])
              || (if IsDir(staging, from) then d != [] && d <= target
                  else from in staging.files && d != [] && Below(d, target))
  {
    PrefixesAre(target);
  }

  lemma OverlaidLast(t: Tree, staging: Tree, ms: seq<LiveMapping>)
    ensures Overlaid(t, staging, ms) ==
            if ms == [] then t
            else Merge(Overlaid(t, staging, ms[..|ms|-1]), Copied(staging, From(ms[|ms|-1]), Target(ms[|ms|-1])))
  {
    hide Copied, From, Target, Merge;
  }

  lemma CopiedIsClosed(staging: Tree, from: Path, target: Path)
    requires Sound(staging) && ProperPath(from) && ProperPath(target)
    ensures [] !in Copied(staging, from, target).files ==> Sound(Copied(staging, from, target))
    ensures Apart(Copied(staging, from, target))
  {
    hide Copied, Ancestors, Prefixes, Sound, ValidComponent;
    var copied := Copied(staging, from, target);
    forall p | p in copied.files
      ensures ProperPath(p) && (p != [] ==> p !in copied.dirs && Ancestors(p) <= copied.dirs)
      ensures p !in copied.dirs
    {
      CopiedFileFits(staging, from, target, p);
    }
    forall d | d in copied.dirs
      ensures d != [] && ProperPath(d) && Ancestors(d) <= copied.dirs
    {
      CopiedDirFits(staging, from, target, d);
    }
    SoundIs(copied);
  }

  lemma SoundIs(t: Tree)
    ensures Sound(t) <==>
              && (forall p :: p in t.files ==> p != [] && ProperPath(p) && p !in t.dirs && Ancestors(p) <= t.dirs)
              && forall d :: d in t.dirs ==> d != [] && ProperPath(d) && Ancestors(d) <= t.dirs
    ensures Apart(t) <==> forall p :: p in t.files ==> p !in t.dirs
  {
    hide ProperPath, Ancestors;
  }

  /** A directory at or above an entry that is copied, but below the source, is copied with it. */
  lemma CopiedAbove(staging: Tree, from: Path, target: Path, q: Path, d: Path)
    requires Sound(staging) && from <= q && (q in staging.files || q in staging.dirs)
    requires d != [] && Below(d, target + q[|from|..])
    requires from != q || d != target || IsDir(staging, from)
    ensures d in Copied(staging, from, target).dirs
  {
    hide Copied, Ancestors, Prefixes, ProperPath;
    CopiedDirs(staging, from, target, d);
    var p := target + q[|from|..];
    if |d| > |target| {
      var a := from + d[|target|..];
      assert target <= d && d == target + d[|target|..];
      assert d[|target|..] <= q[|from|..] && q == from + q[|from|..];
      assert Below(a, q);
      AboveIsDir(staging, a, q);
      assert a[|from|..] == d[|target|..] && Below(from, a);
    } else {
      assert d <= target;
      if q != from {
        SourceIsDir(staging, from, q);
      }
    }
  }

  lemma SourceIsDir(staging: Tree, from: Path, q: Path)
    requires Sound(staging) && Below(from, q) && (q in staging.files || q in staging.dirs)
    ensures IsDir(staging, from)
  {
    if from != [] {
      AboveIsDir(staging, from, q);
    }
  }

  lemma ProperParts(from: Path, target: Path, q: Path)
    requires ProperPath(target) && ProperPath(q) && from <= q
    ensures ProperPath(target + q[|from|..])
  {
    hide ValidComponent;
    var rest := q[|from|..];
    forall c | c in target + rest ensures ValidComponent(c) {
      assert c in target || c in q;
    }
  }

  lemma CopiedFileFits(staging: Tree, from: Path, target: Path, p: Path)
    requires Sound(staging) && ProperPath(from) && ProperPath(target) && p in Copied(staging, from, target).files
    ensures ProperPath(p) && p !in Copied(staging, from, target).dirs
    ensures Ancestors(p) <= Copied(staging, from, target).dirs
  {
    hide Copied, Sound, ProperPath, Ancestors;
    CopiedIsStaged(staging, from, target, p);
    var q := from + p[|target|..];
    assert q[|from|..] == p[|target|..] && p == target + q[|from|..];
    StagedIsProper(staging, q);
    ProperParts(from, target, q);
    PrefixesAre(p);
    forall d | d in Ancestors(p)
      ensures d in Copied(staging, from, target).dirs
    {
      CopiedAbove(staging, from, target, q, d);
    }
    CopiedDirs(staging, from, target, p);
    if r :| r in staging.dirs && Below(from, r) && p == target + r[|from|..] {
      assert r == from + r[|from|..] && r[|from|..] == p[|target|..] && r == q;
      DirIsNoFile(staging, q);
    }
    if p <= target {
      assert p == target && q == from;
      if IsDir(staging, from) && from != [] {
        DirIsNoFile(staging, from);
      }
    }
  }

  lemma StagedIsProper(staging: Tree, q: Path)
    requires Sound(staging) && (q in staging.files || q in staging.dirs)
    ensures ProperPath(q) && q != []
  {
  }

  lemma CopiedDirFits(staging: Tree, from: Path, target: Path, d: Path)
    requires Sound(staging) && ProperPath(from) && ProperPath(target) && d in Copied(staging, from, target).dirs
    ensures d != [] && ProperPath(d) && Ancestors(d) <= Copied(staging, from, target).dirs
  {
    hide Copied, Sound, ProperPath, Ancestors;
    CopiedDirs(staging, from, target, d);
    PrefixesAre(d);
    if q :| q in staging.dirs && Below(from, q) && d == target + q[|from|..] {
      StagedIsProper(staging, q);
      ProperParts(from, target, q);
      forall a | a in Ancestors(d)
        ensures a in Copied(staging, from, target).dirs
      {
        CopiedAbove(staging, from, target, q, a);
      }
    } else {
      PartIsProper(d, target);
      forall a | a in Ancestors(d)
        ensures a in Copied(staging, from, target).dirs
      {
        CopiedDirs(staging, from, target, a);
      }
    }
  }

  lemma PartIsProper(d: Path, target: Path)
    requires d <= target && ProperPath(target)
    ensures ProperPath(d)
  {
    hide ValidComponent;
    assert forall c :: c in d ==> c in target;
  }

  lemma NothingCopied(staging: Tree, from: Path, target: Path)
    requires Sound(staging) && !Exists(staging, from)
    ensures Copied(staging, from, target) == EmptyTree()
  {
    hide Copied, Sound, Prefixes, Ancestors;
    var copied := Copied(staging, from, target);
    forall p | p in copied.files
      ensures false
    {
      CopiedIsStaged(staging, from, target, p);
      var q := from + p[|target|..];
      if q != from {
        SourceIsDir(staging, from, q);
      }
    }
    forall d | d in copied.dirs
      ensures false
    {
      CopiedDirs(staging, from, target, d);
      var q :| q in staging.dirs && Below(from, q) && d == target + q[|from|..];
      SourceIsDir(staging, from, q);
    }
  }

  /* ---- when a restore succeeds ---- */

  /** A mapping that no live tree can prevent from being restored, as long as it does not clash. */
  predicate Movable(staging: Tree, m: LiveMapping) {
    Allowed(m) && !UnderFile(staging, From(m)) && [] !in Copied(staging, From(m), Target(m)).files
  }

  ghost predicate AllMovable(staging: Tree, ms: seq<LiveMapping>) {
    forall k :: 0 <= k < |ms| ==> Movable(staging, ms[k])
  }

  /** With Overwrite, all mappings are restored exactly when each can be moved at all and in the tree
      they leave behind nothing is both a file and a directory, in whatever order they are done. */
  lemma {:induction false} RestoreSucceedsIff(staging: Tree, ms: seq<LiveMapping>, live: Tree)
    requires Sound(staging) && Apart(live)
    ensures AllRestorable(live, staging, ms, true) <==>
              AllMovable(staging, ms) && Apart(Overlaid(live, staging, ms))
  {
    hide Sound, Apart, Copied, From, Target, Overlaid, Restorable, Movable, AllMovable, Merge;
    OverlaidLast(live, staging, ms);
    LastMovable(staging, ms);
    if ms != [] {
      var before, m := ms[..|ms|-1], ms[|ms|-1];
      RestoreSucceedsIff(staging, before, live);
      RestorableIff(Overlaid(live, staging, before), staging, m);
    }
  }

  lemma LastMovable(staging: Tree, ms: seq<LiveMapping>)
    ensures AllMovable(staging, ms) <==>
              ms == [] || (AllMovable(staging, ms[..|ms|-1]) && Movable(staging, ms[|ms|-1]))
  {
    hide Movable;
    if ms != [] {
      assert forall k :: 0 <= k < |ms| - 1 ==> ms[..|ms|-1][k] == ms[k];
    }
  }

  lemma RestorableIff(t: Tree, staging: Tree, m: LiveMapping)
    requires Sound(staging)
    ensures var after := Merge(t, Copied(staging, From(m), Target(m)));
            && (Apart(after) ==> Apart(t))
            && (Apart(t) ==> (Restorable(t, staging, m, true) <==> Movable(staging, m) && Apart(after)))
  {
    hide Sound, Apart, Copied, From, Target, Merge, Clash, Allowed, UnderFile, Exists;
    var copied := Copied(staging, From(m), Target(m));
    ApartMerge(t, copied);
    CopiedIsClosed(staging, From(m), Target(m));
    if !Exists(staging, From(m)) {
      NothingCopied(staging, From(m), Target(m));
      NoClashWithNothing(t);
    }
  }

  lemma NoClashWithNothing(t: Tree)
    ensures !Clash(t, EmptyTree()) && [] !in EmptyTree().files
  {
  }

  /* ---- the operations, on a disk that is changed step by step ---- */

  /** What is left after any number of steps of adding the piece. */
  ghost predicate Between(before: Tree, after: Tree, piece: Tree) {
    exists part :: Within(part, piece) && after == Merge(before, part)
  }

  /** The piece can be added and, unless overwriting is allowed, none of its files is there yet. */
  predicate Addable(t: Tree, piece: Tree, overwrite: bool) {
    Fits(t, piece) && (overwrite || forall p :: p in piece.files ==> !Exists(t, p))
  }

  /** The directory and everything below it. */
  function Walked(staging: Tree, from: Path): set<Path> {
    {from} + (set q | q in staging.files && from <= q) + (set q | q in staging.dirs && from <= q)
  }

  predicate Covers(staging: Tree, part: Tree, q: Path, p: Path) {
    if IsDir(staging, q) then Prefixes(p) <= part.dirs else p in part.files
  }

  /** A walk has added the part to the tree, and has the entries in `todo` before it. */
  ghost predicate Walking(before: Tree, now: Tree, part: Tree, staging: Tree, from: Path, target: Path, todo: set<Path>,
                          overwrite: bool) {
    && Within(part, Copied(staging, from, target)) && now == Merge(before, part) && Addable(before, part, overwrite)
    && (forall q :: q in Walked(staging, from) && q !in todo ==> Covers(staging, part, q, target + q[|from|..]))
    && forall q :: q in todo ==> q in Walked(staging, from) && (q in staging.files ==> target + q[|from|..] !in part.files)
  }

  class Disk {
    var tree: Tree

    constructor (tree: Tree)
      ensures this.tree == tree
    {
      this.tree := tree;
    }

    /** copyFile: makes the directories above the target and writes it. */
    method CopyFile(data: Bytes, target: Path, overwrite: bool) returns (ok: bool)
      requires Sound(tree) && ProperPath(target)
      modifies this
      ensures Sound(tree)
      ensures ok <==> Writable(old(tree), target, overwrite)
      ensures tree == if ok then Merge(old(tree), FilePiece(target, data)) else old(tree)
    {
      hide Sound, ProperPath, Exists, CanWrite, Merge, FilePiece;
      if !overwrite {
        if Exists(tree, target) {
          return false;
        }
      }
      WriteKeepsForm(tree, target, data);
      if !CanWrite(tree, target) {
        return false;
      }
      tree := Merge(tree, FilePiece(target, data));
      ok := true;
    }

    /** os.MkdirAll. */
    method MakeDir(target: Path) returns (ok: bool)
      requires Sound(tree) && ProperPath(target)
      modifies this
      ensures Sound(tree)
      ensures ok <==> CanMake(old(tree), target)
      ensures tree == if ok then Merge(old(tree), DirPiece(target)) else old(tree)
    {
      hide Sound, ProperPath, CanMake, Merge, DirPiece;
      WriteKeepsForm(tree, target, []);
      ok := CanMake(tree, target);
      if ok {
        tree := Merge(tree, DirPiece(target));
      }
    }

    /** Makes the directories of the staging tree at and below `from` and copies its files, in any
        order. */
    method CopyDir(staging: Tree, from: Path, target: Path, overwrite: bool) returns (ok: bool)
      requires Sound(tree) && Sound(staging) && IsDir(staging, from) && ProperPath(from) && ProperPath(target)
      modifies this
      ensures Sound(tree)
      ensures ok <==> Addable(old(tree), Copied(staging, from, target), overwrite)
      ensures ok ==> tree == Merge(old(tree), Copied(staging, from, target))
      ensures Between(old(tree), tree, Copied(staging, from, target))
    {
      hide *;
      ghost var part := EmptyTree();
      var todo := Walked(staging, from);
      WalkStarts(tree, staging, from, target, overwrite);
      while todo != {}
        invariant Sound(tree) && Walking(old(tree), tree, part, staging, from, target, todo, overwrite)
        decreases todo
      {
        var q :| q in todo;
        WalkedIs(staging, from, q, old(tree), tree, part, target, todo, overwrite);
        var p := target + q[|from|..];
        if IsDir(staging, q) {
          WalkDir(old(tree), tree, part, staging, from, target, todo, overwrite, q);
          ok := MakeDir(p);
          part := if ok then Merge(part, DirPiece(p)) else part;
        } else {
          WalkFile(old(tree), tree, part, staging, from, target, todo, overwrite, q);
          ok := CopyFile(staging.files[q], p, overwrite);
          part := if ok then Merge(part, FilePiece(p, staging.files[q])) else part;
        }
        if !ok {
          return;
        }
        todo := todo - {q};
      }
      WalkEnds(old(tree), tree, part, staging, from, target, overwrite);
      ok := true;
    }

    method RestoreMapping(staging: Tree, m: LiveMapping, overwrite: bool) returns (ok: bool)
      requires Sound(tree) && Sound(staging)
      modifies this
      ensures Sound(tree)
      ensures ok <==> Restorable(old(tree), staging, m, overwrite)
      ensures ok ==> tree == Merge(old(tree), Copied(staging, From(m), Target(m)))
      ensures Between(old(tree), tree, Copied(staging, From(m), Target(m)))
    {
      hide Sound, Copied, UnderFile, SafeName, Inside, TrimSpace, From, Target, Between, Clash, Addable, CanWrite, FilePiece, Merge,
        Fits, ProperPath;
      ghost var copied := Copied(staging, From(m), Target(m));
      NothingBetween(tree, copied);
      if TrimSpace(m.source) == "" || TrimSpace(m.target) == "" {
        return false;
      }
      if !SafeName(m.source) {
        return false;
      }
      if !Inside(m.source) {
        return false;
      }
      var from, target := From(m), Target(m);
      if UnderFile(staging, from) {
        return false;
      }
      if !Exists(staging, from) {
        NothingCopied(staging, from, target);
        MergeWithNothing(tree);
        return true;
      }
      if !overwrite {
        if Exists(tree, target) {
          return false;
        }
        if UnderFile(tree, target) {
          CopiedReachesTarget(tree, staging, from, target);
          return false;
        }
      }
      AddableIff(tree, staging, from, target, overwrite);
      if IsDir(staging, from) {
        ok := CopyDir(staging, from, target, overwrite);
      } else {
        CopiedFile(staging, from, target);
        FileFitsIff(tree, target, staging.files[from]);
        ok := CopyFile(staging.files[from], target, overwrite);
        if ok {
          AllBetween(old(tree), copied);
        }
      }
    }

    /** RestoreWithKey: unpacks an archive that verifies. */
    method Unpack(archive: Archive, sum: Bytes -> string, overwrite: bool) returns (ok: bool)
      requires Sound(tree)
      modifies this
      ensures Sound(tree)
      ensures ok <==> Accepts(archive, sum) && Unpacked(old(tree), archive, overwrite).ok
      ensures tree == if Accepts(archive, sum) then Unpacked(old(tree), archive, overwrite).tree else old(tree)
    {
      hide *;
      var summary := Verify(archive, sum);
      if summary == None {
        return false;
      }
      NothingUnpacked(tree, overwrite);
      var i := 0;
      while i < |archive|
        invariant 0 <= i <= |archive| && Sound(tree)
        invariant Unpacked(old(tree), archive[..i], overwrite) == Progress(tree, true)
      {
        var item := archive[i];
        UnpackStep(old(tree), archive, i, overwrite);
        ok := true;
        if !item.ManifestItem? {
          ok := Inside(item.name);
          if ok {
            if item.FileItem? {
              ok := CopyFile(item.data, StagedPath(item.name), overwrite);
            } else {
              ok := MakeDir(StagedPath(item.name));
            }
          }
        }
        if !ok {
          UnpackFails(old(tree), archive, i + 1, overwrite);
          return;
        }
        i := i + 1;
      }
      assert archive[..i] == archive;
      ok := true;
    }

    /** Verifies and unpacks the archive, then restores one mapping after the other. */
    method RestoreLive(archive: Archive, sum: Bytes -> string, ms: seq<LiveMapping>, overwrite: bool)
      returns (result: Option<Summary>)
      requires Sound(tree)
      modifies this
      ensures Sound(tree)
      ensures var staged := Unpacked(EmptyTree(), archive, true);
              && (result.Some? <==> Accepts(archive, sum) && staged.ok && AllRestorable(old(tree), staged.tree, ms, overwrite))
              && (result.Some? ==> tree == Overlaid(old(tree), staged.tree, ms)
                                   && result.value == Summarize(LastManifest(archive).value.entries))
      ensures SameOutside(old(tree), tree, ms)
    {
      hide *;
      result := Verify(archive, sum);
      NothingOverlaid(tree, ms);
      if result == None {
        return;
      }
      EmptyIsSound();
      var staging := new Disk(EmptyTree());
      var ok := staging.Unpack(archive, sum, true);
      if !ok {
        return None;
      }
      ghost var staged := Unpacked(EmptyTree(), archive, true);
      StartMappings(tree, staged.tree, ms);
      var k := 0;
      while k < |ms|
        invariant 0 <= k <= |ms|
        invariant staging.tree == staged.tree && Sound(staged.tree) && Sound(tree)
        invariant tree == Overlaid(old(tree), staged.tree, ms[..k])
        invariant AllRestorable(old(tree), staged.tree, ms[..k], overwrite)
        invariant SameOutside(old(tree), tree, ms)
        modifies this
      {
        label before:
        NextMapping(old(tree), staged.tree, ms, k, overwrite);
        ok := RestoreMapping(staging.tree, ms[k], overwrite);
        StillSameOutside(old(tree), old@before(tree), tree, staged.tree, ms, k);
        if !ok {
          NotAllRestorable(old(tree), staged.tree, ms, k + 1, overwrite);
          return None;
        }
        k := k + 1;
      }
      assert ms[..k] == ms;
    }
  }

  lemma NothingBetween(t: Tree, piece: Tree)
    ensures Between(t, t, piece)
  {
    MergeWithNothing(t);
    assert Within(EmptyTree(), piece);
  }

  lemma AllBetween(t: Tree, piece: Tree)
    ensures Between(t, Merge(t, piece), piece)
  {
    assert Within(piece, piece);
  }

  lemma WalkedIs(staging: Tree, from: Path, q: Path, before: Tree, now: Tree, part: Tree, target: Path, todo: set<Path>,
                 overwrite: bool)
    requires Sound(staging) && IsDir(staging, from) && ProperPath(target)
    requires q in todo && Walking(before, now, part, staging, from, target, todo, overwrite)
    ensures from <= q && (IsDir(staging, q) || q in staging.files) && ProperPath(target + q[|from|..])
    ensures Between(before, now, Copied(staging, from, target))
  {
    hide Copied, Addable, Covers, ValidComponent, Ancestors;
    if q == from {
      assert target + q[|from|..] == target;
    } else {
      ProperParts(from, target, q);
    }
  }

  lemma WalkStarts(t: Tree, staging: Tree, from: Path, target: Path, overwrite: bool)
    ensures Walking(t, t, EmptyTree(), staging, from, target, Walked(staging, from), overwrite)
  {
    hide Copied, Exists, Covers;
    MergeWithNothing(t);
  }

  /** Adding to what was added. */
  lemma AddableMerge(t: Tree, a: Tree, b: Tree, overwrite: bool)
    ensures Addable(t, Merge(a, b), overwrite) <==> Addable(t, a, overwrite) && Addable(t, b, overwrite)
  {
    hide Exists, Clash;
    ClashWithMerge(t, a, b);
  }

  /** A part of the whole that cannot be added keeps the whole from being added. */
  lemma AddablePart(t: Tree, part: Tree, whole: Tree, overwrite: bool)
    requires Within(part, whole) && Addable(t, whole, overwrite)
    ensures Addable(t, part, overwrite)
  {
    hide Exists;
  }

  /** Parts of one whole do not change what else of it can be added. */
  lemma AddableAfter(t: Tree, part: Tree, more: Tree, whole: Tree, overwrite: bool)
    requires Apart(whole) && Within(part, whole) && Within(more, whole) && part.files.Keys !! more.files.Keys
    ensures Addable(Merge(t, part), more, overwrite) <==> Addable(t, more, overwrite)
  {
  }

  lemma DirFitsIff(t: Tree, p: Path, overwrite: bool)
    ensures CanMake(t, p) <==> Addable(t, DirPiece(p), overwrite)
  {
    hide CanMake, Clash, Prefixes;
    CanMakeIff(t, p);
  }

  lemma FileFitsIff(t: Tree, p: Path, data: Bytes)
    ensures CanWrite(t, p) <==> Fits(t, FilePiece(p, data))
    ensures forall overwrite :: Writable(t, p, overwrite) <==> Addable(t, FilePiece(p, data), overwrite)
  {
    hide CanWrite, Clash, Ancestors, Exists;
    CanWriteIff(t, p, data);
  }

  /** What the walk adds for one entry is a part of what is copied. */
  lemma WalkedPiece(staging: Tree, from: Path, target: Path, q: Path)
    requires Sound(staging) && IsDir(staging, from) && from <= q
    ensures IsDir(staging, q) ==> Within(DirPiece(target + q[|from|..]), Copied(staging, from, target))
    ensures q in staging.files ==> Within(FilePiece(target + q[|from|..], staging.files[q]), Copied(staging, from, target))
  {
    hide Copied, Prefixes, Ancestors, Sound;
    var p := target + q[|from|..];
    PrefixesAre(p);
    if q in staging.files {
      CopiedHas(staging, from, target, q);
      forall d | d in Ancestors(p)
        ensures d in Copied(staging, from, target).dirs
      {
        CopiedAbove(staging, from, target, q, d);
      }
    }
    if IsDir(staging, q) {
      forall d | d in Prefixes(p)
        ensures d in Copied(staging, from, target).dirs
      {
        CopiedDirs(staging, from, target, d);
        if q == from {
          assert p == target;
        } else if d != p {
          assert q in staging.dirs;
          CopiedAbove(staging, from, target, q, d);
        } else {
          assert q in staging.dirs && Below(from, q);
        }
      }
    }
  }

  lemma WalkDir(before: Tree, now: Tree, part: Tree, staging: Tree, from: Path, target: Path, todo: set<Path>, overwrite: bool,
                q: Path)
    requires Sound(staging) && IsDir(staging, from) && ProperPath(from) && ProperPath(target)
    requires Walking(before, now, part, staging, from, target, todo, overwrite) && q in todo && from <= q && IsDir(staging, q)
    ensures var p := target + q[|from|..];
            if CanMake(now, p) then
              Walking(before, Merge(now, DirPiece(p)), Merge(part, DirPiece(p)), staging, from, target, todo - {q}, overwrite)
            else !Addable(before, Copied(staging, from, target), overwrite)
  {
    hide Copied, Addable, CanMake, Prefixes, Sound, Walked, ProperPath, Exists;
    var p, copied := target + q[|from|..], Copied(staging, from, target);
    WalkedPiece(staging, from, target, q);
    CopiedIsClosed(staging, from, target);
    DirFitsIff(now, p, overwrite);
    AddableAfter(before, part, DirPiece(p), copied, overwrite);
    AddableMerge(before, part, DirPiece(p), overwrite);
    MergeAssociates(before, part, DirPiece(p));
    if CanMake(now, p) {
      WithinMerge(part, DirPiece(p), copied);
      MergeOneFile(part, p, []);
    } else if Addable(before, copied, overwrite) {
      AddablePart(before, DirPiece(p), copied, overwrite);
    }
  }

  lemma WithinMerge(a: Tree, b: Tree, whole: Tree)
    requires Within(a, whole) && Within(b, whole)
    ensures Within(Merge(a, b), whole)
  {
  }

  lemma WalkFile(before: Tree, now: Tree, part: Tree, staging: Tree, from: Path, target: Path, todo: set<Path>, overwrite: bool,
                 q: Path)
    requires Sound(staging) && IsDir(staging, from) && ProperPath(from) && ProperPath(target)
    requires Walking(before, now, part, staging, from, target, todo, overwrite) && q in todo && from <= q
    requires !IsDir(staging, q) && q in staging.files
    ensures var p := target + q[|from|..];
            var piece := FilePiece(p, staging.files[q]);
            if Writable(now, p, overwrite) then
              Walking(before, Merge(now, piece), Merge(part, piece), staging, from, target, todo - {q}, overwrite)
            else !Addable(before, Copied(staging, from, target), overwrite)
  {
    hide Copied, Addable, Writable, Ancestors, Sound, ProperPath, Exists, Prefixes;
    var p, copied := target + q[|from|..], Copied(staging, from, target);
    var piece := FilePiece(p, staging.files[q]);
    WalkedPiece(staging, from, target, q);
    CopiedIsClosed(staging, from, target);
    FileFitsIff(now, p, staging.files[q]);
    AddableAfter(before, part, piece, copied, overwrite);
    AddableMerge(before, part, piece, overwrite);
    MergeAssociates(before, part, piece);
    if Writable(now, p, overwrite) {
      WithinMerge(part, piece, copied);
      MergeOneFile(part, p, staging.files[q]);
      forall r | r in todo - {q}
        ensures from <= r && target + r[|from|..] != p
      {
        SameRest(from, target, q, r);
      }
    } else if Addable(before, copied, overwrite) {
      AddablePart(before, piece, copied, overwrite);
    }
  }

  lemma SameRest(from: Path, target: Path, q: Path, r: Path)
    requires from <= q && from <= r
    ensures target + q[|from|..] == target + r[|from|..] <==> q == r
  {
    var a, b := target + q[|from|..], target + r[|from|..];
    assert a[|target|..] == q[|from|..] && b[|target|..] == r[|from|..];
    assert q == from + q[|from|..] && r == from + r[|from|..];
  }

  lemma WalkEnds(before: Tree, now: Tree, part: Tree, staging: Tree, from: Path, target: Path, overwrite: bool)
    requires Sound(staging) && IsDir(staging, from)
    requires Walking(before, now, part, staging, from, target, {}, overwrite)
    ensures Addable(before, Copied(staging, from, target), overwrite) && now == Merge(before, Copied(staging, from, target))
    ensures Between(before, now, Copied(staging, from, target))
  {
    hide Copied, Addable, Prefixes, Sound;
    var copied := Copied(staging, from, target);
    forall p | p in copied.files
      ensures p in part.files
    {
      CopiedIsStaged(staging, from, target, p);
      var q := from + p[|target|..];
      assert q[|from|..] == p[|target|..] && p == target + q[|from|..];
      DirIsNoPlace(staging, q);
      assert q in Walked(staging, from) && Covers(staging, part, q, p);
    }
    forall d | d in copied.dirs
      ensures d in part.dirs
    {
      CopiedDirs(staging, from, target, d);
      PrefixesAre(d);
      PrefixesAre(target);
      if q :| q in staging.dirs && Below(from, q) && d == target + q[|from|..] {
        assert q in Walked(staging, from) && Covers(staging, part, q, d);
        RestIsNothing(from, q, target);
      } else {
        assert target + from[|from|..] == target;
        assert from in Walked(staging, from) && Covers(staging, part, from, target);
      }
    }
    assert part.files == copied.files && part.dirs == copied.dirs;
  }

  lemma RestIsNothing(from: Path, q: Path, target: Path)
    requires Below(from, q)
    ensures target + q[|from|..] != []
  {
  }

  lemma DirIsNoPlace(staging: Tree, q: Path)
    requires Sound(staging) && q in staging.files
    ensures !IsDir(staging, q)
  {
  }

  lemma CopiedReachesTarget(t: Tree, staging: Tree, from: Path, target: Path)
    requires Exists(staging, from) && UnderFile(t, target)
    ensures !Fits(t, Copied(staging, from, target))
  {
    hide Copied;
    var d :| d in Ancestors(target) && d in t.files;
    PrefixesAre(target);
    CopiedDirs(staging, from, target, d);
  }

  /** Nothing lies below a path that does not exist. */
  lemma AddableIff(t: Tree, staging: Tree, from: Path, target: Path, overwrite: bool)
    requires Sound(t) && (overwrite || !Exists(t, target))
    ensures Addable(t, Copied(staging, from, target), overwrite) <==> Fits(t, Copied(staging, from, target))
  {
    hide Copied, Sound, Clash;
    forall p | p in Copied(staging, from, target).files && !overwrite
      ensures !Exists(t, p)
    {
      CopiedIsStaged(staging, from, target, p);
      if Exists(t, p) && p != target && p != [] {
        if target != [] {
          AboveIsDir(t, target, p);
        }
      }
    }
  }

  lemma CopiedFile(staging: Tree, from: Path, target: Path)
    requires Sound(staging) && from in staging.files
    ensures Copied(staging, from, target) == FilePiece(target, staging.files[from])
  {
    hide Copied, Sound, Ancestors;
    var copied := Copied(staging, from, target);
    CopiedHas(staging, from, target, from);
    DirIsNoPlace(staging, from);
    PrefixesAre(target);
    assert target + from[|from|..] == target;
    forall p | p in copied.files
      ensures p == target
    {
      CopiedIsStaged(staging, from, target, p);
      NothingBelowFiles(staging, from, from + p[|target|..]);
      assert p == target + p[|target|..];
    }
    assert copied.files == map[target := staging.files[from]];
    forall d
      ensures d in copied.dirs <==> d in Ancestors(target)
    {
      CopiedDirs(staging, from, target, d);
      if q :| q in staging.dirs && Below(from, q) && d == target + q[|from|..] {
        NothingBelowFiles(staging, from, q);
      }
    }
    assert copied.dirs == Ancestors(target);
  }

  /** The trees agree on every file that no target is at or above; every directory is still there, and
      a new one lies at, below or above a target. */
  ghost predicate SameOutside(before: Tree, after: Tree, ms: seq<LiveMapping>) {
    && (forall p :: p in after.files && !InTargets(ms, p) ==> p in before.files)
    && (forall p :: p in before.files && !InTargets(ms, p) ==> p in after.files && after.files[p] == before.files[p])
    && before.dirs <= after.dirs
    && forall d :: d in after.dirs && d !in before.dirs ==> InTargets(ms, d) || AboveTargets(ms, d)
  }

  ghost predicate InTargets(ms: seq<LiveMapping>, p: Path) {
    exists k :: 0 <= k < |ms| && Target(ms[k]) <= p
  }

  ghost predicate AboveTargets(ms: seq<LiveMapping>, p: Path) {
    exists k :: 0 <= k < |ms| && p <= Target(ms[k])
  }

  lemma NothingOverlaid(t: Tree, ms: seq<LiveMapping>)
    ensures SameOutside(t, t, ms)
  {
  }

  lemma StartMappings(t: Tree, staging: Tree, ms: seq<LiveMapping>)
    ensures Overlaid(t, staging, ms[..0]) == t && forall overwrite :: AllRestorable(t, staging, ms[..0], overwrite)
  {
    hide Restorable;
  }

  lemma NextMapping(t: Tree, staging: Tree, ms: seq<LiveMapping>, k: nat, overwrite: bool)
    requires k < |ms|
    ensures Overlaid(t, staging, ms[..k+1]) ==
            Merge(Overlaid(t, staging, ms[..k]), Copied(staging, From(ms[k]), Target(ms[k])))
    ensures AllRestorable(t, staging, ms[..k+1], overwrite) <==>
              AllRestorable(t, staging, ms[..k], overwrite)
              && Restorable(Overlaid(t, staging, ms[..k]), staging, ms[k], overwrite)
  {
    hide Restorable, Copied, From, Target, Merge;
    assert ms[..k+1][..k] == ms[..k] && ms[..k+1][k] == ms[k];
  }

  lemma {:induction false} NotAllRestorable(t: Tree, staging: Tree, ms: seq<LiveMapping>, k: nat, overwrite: bool)
    requires k <= |ms| && !AllRestorable(t, staging, ms[..k], overwrite)
    ensures !AllRestorable(t, staging, ms, overwrite)
    decreases |ms| - k
  {
    hide *;
    if k == |ms| {
      assert ms[..k] == ms;
    } else {
      NextMapping(t, staging, ms, k, overwrite);
      NotAllRestorable(t, staging, ms, k + 1, overwrite);
    }
  }

  lemma StillSameOutside(before: Tree, now: Tree, after: Tree, staging: Tree, ms: seq<LiveMapping>, k: nat)
    requires k < |ms| && SameOutside(before, now, ms)
    requires Between(now, after, Copied(staging, From(ms[k]), Target(ms[k])))
    ensures SameOutside(before, after, ms)
  {
    hide Copied, From, Target;
    var copied := Copied(staging, From(ms[k]), Target(ms[k]));
    var part :| Within(part, copied) && after == Merge(now, part);
    forall p | p in part.files
      ensures InTargets(ms, p)
    {
      CopiedIsStaged(staging, From(ms[k]), Target(ms[k]), p);
    }
    forall d | d in part.dirs
      ensures InTargets(ms, d) || AboveTargets(ms, d)
    {
      CopiedDirs(staging, From(ms[k]), Target(ms[k]), d);
    }
  }
}
