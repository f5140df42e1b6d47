/** Unpacking an archive (RestoreWithKey in internal/backup/backup.go), and what becomes of the archive
    of a backup in a fresh staging tree. */
module Unpacking {
  import opened Text
  import opened EncryptedArchive
  import opened FileTree
  import opened BackupArchive

  /** filepath.Clean, component by component. */
  function Clean(parts: seq<string>): (p: Path)
    requires forall c :: c in parts ==> '/' !in c
    ensures ProperPath(p)
  {
    if parts == [] then []
    else
      var before, c := Clean(parts[..|parts|-1]), parts[|parts|-1];
      if c == "" || c == "." then before
      else if c == ".." then if before == [] then [] else before[..|before|-1]
      else before + [c]
  }

  function PathOf(s: string): (p: Path)
    ensures ProperPath(p)
  {
    Clean(Split(s, '/'))
  }

  /** Where an archived item is unpacked. */
  function StagedPath(name: string): (p: Path)
    ensures ProperPath(p)
  {
    PathOf(TrimSpace(name))
  }

  /** The check of safeTarget on a safe name: its path does not lead out of the directory it is
      unpacked in. */
  predicate Inside(name: string) {
    var parts := Split(TrimSpace(name), '/');
    !(parts[|parts|-1] == ".." && Clean(parts[..|parts|-1]) == [])
  }

  /** One file: it fits, and is new unless overwriting is allowed. */
  predicate Writable(t: Tree, p: Path, overwrite: bool) {
    CanWrite(t, p) && (overwrite || !Exists(t, p))
  }

  /** A tree being written to, and whether every operation so far went through. */
  datatype Progress = Progress(tree: Tree, ok: bool)

  function Written(w: Progress, p: Path, data: Bytes, overwrite: bool): Progress {
    if !w.ok then w
    else if Writable(w.tree, p, overwrite) then Progress(Merge(w.tree, FilePiece(p, data)), true)
    else w.(ok := false)
  }

  function Made(w: Progress, p: Path): Progress {
    if !w.ok then w
    else if CanMake(w.tree, p) then Progress(Merge(w.tree, DirPiece(p)), true)
    else w.(ok := false)
  }

  function Unpacked(t: Tree, items: seq<Item>, overwrite: bool): Progress {
    if items == [] then Progress(t, true)
    else
      var before, item := Unpacked(t, items[..|items|-1], overwrite), items[|items|-1];
      if item.ManifestItem? then before
      else if !Inside(item.name) then before.(ok := false)
      else if item.FileItem? then Written(before, StagedPath(item.name), item.data, overwrite)
      else Made(before, StagedPath(item.name))
  }

  /* ---- names and paths ---- */

  lemma {:induction false} CleanKeeps(p: Path)
    requires ProperPath(p)
    ensures forall c :: c in p ==> '/' !in c
    ensures Clean(p) == p
  {
    if p != [] {
      CleanKeeps(p[..|p|-1]);
      assert ValidComponent(p[|p|-1]);
      assert p == p[..|p|-1] + [p[|p|-1]];
    }
  }

  lemma {:induction false} CleanNeverGrows(parts: seq<string>)
    requires forall c :: c in parts ==> '/' !in c
    ensures |Clean(parts)| <= |parts|
    ensures |Clean(parts)| == |parts| ==> Clean(parts) == parts
  {
    if parts != [] {
      CleanNeverGrows(parts[..|parts|-1]);
      assert parts == parts[..|parts|-1] + [parts[|parts|-1]];
    }
  }

  /** An archived item is unpacked at its archive path exactly when trimming leaves its name alone. */
  lemma StagedInPlaceIff(p: Path)
    requires p != [] && ProperPath(p)
    ensures StagedPath(NameOf(p)) == p <==> TrimSpace(NameOf(p)) == NameOf(p)
  {
    hide TrimLeftSpace, TrimRightSpace, Clean, Split, Join, ValidComponent;
    var name := NameOf(p);
    NameIsInjective(p, p);
    CleanKeeps(p);
    TrimLeftKeepsParts(name, '/');
    TrimRightKeepsParts(TrimLeftSpace(name), '/');
    var parts := Split(TrimSpace(name), '/');
    CleanNeverGrows(parts);
    JoinSplit(TrimSpace(name), '/');
  }

  lemma {:induction false} JoinLast(p: Path, c: string)
    requires p != []
    ensures |NameOf(p + [c])| == |NameOf(p)| + 1 + |c|
  {
    if |p| == 1 {
      assert (p + [c])[1..] == [c] && Join([c], '/') == c;
      assert Join(p + [c], '/') == p[0] + "/" + c;
    } else {
      assert (p + [c])[1..] == p[1..] + [c];
      JoinLast(p[1..], c);
    }
  }

  /** Cleaning never makes a path longer, in characters. */
  lemma {:induction false} CleanNeverLengthens(parts: seq<string>)
    requires parts != [] && forall c :: c in parts ==> '/' !in c
    ensures Clean(parts) != [] ==> |NameOf(Clean(parts))| <= |NameOf(parts)|
  {
    hide NameOf;
    var n := |parts| - 1;
    var init, c := parts[..n], parts[n];
    assert parts == init + [c];
    var before := Clean(init);
    NameOfOne(c);
    if init != [] {
      CleanNeverLengthens(init);
      JoinLast(init, c);
      if before == [] {
        assert before + [c] == [c];
      } else {
        JoinLast(before, c);
        if |before| > 1 {
          assert before == before[..|before|-1] + [before[|before|-1]];
          JoinLast(before[..|before|-1], before[|before|-1]);
        }
      }
    }
  }

  lemma NameOfOne(c: string)
    ensures NameOf([c]) == c
  {
  }

  /** An item is unpacked under a name no longer than its own, and shorter if trimming changes it. */
  lemma StagedNameIsNoLonger(name: string)
    ensures StagedPath(name) != [] ==> |NameOf(StagedPath(name))| <= |TrimSpace(name)| <= |name|
    ensures TrimSpace(name) != name ==> |TrimSpace(name)| < |name|
  {
    hide TrimLeftSpace, TrimRightSpace, Clean, Split, Join;
    CleanNeverLengthens(Split(TrimSpace(name), '/'));
    JoinSplit(TrimSpace(name), '/');
    TrimIsShorter(name);
  }

  /* ---- where a safe name leads ---- */

  /** Below every directory, a safe name leads to its staged path; one that is not inside leads to the
      directory above instead. */
  lemma SafeNamesLead(root: Path, name: string)
    requires root != [] && ProperPath(root) && SafeName(name)
    ensures forall c :: c in root + Split(TrimSpace(name), '/') ==> '/' !in c
    ensures var p := Clean(root + Split(TrimSpace(name), '/'));
            && (Inside(name) ==> p == root + StagedPath(name))
            && (!Inside(name) ==> p == root[..|root|-1])
            && (root <= p <==> Inside(name))
  {
    hide TrimSpace, SafeName, Split, Clean, ProperPath, UpAtLastOnly;
    OnlyTheLastGoesUp(name);
    LastPart(root, Split(TrimSpace(name), '/'));
    assert root[..|root|-1] + [] == root[..|root|-1];
  }

  lemma CleanLast(parts: seq<string>)
    requires parts != [] && forall c :: c in parts ==> '/' !in c
    ensures var before, c := Clean(parts[..|parts|-1]), parts[|parts|-1];
            Clean(parts) == if c == "" || c == "." then before
                            else if c == ".." then if before == [] then [] else before[..|before|-1]
                            else before + [c]
  {
    hide ProperPath;
  }

  lemma LastPart(root: Path, parts: seq<string>)
    requires root != [] && ProperPath(root) && parts != [] && forall c :: c in parts ==> '/' !in c
    requires UpAtLastOnly(parts)
    ensures forall c :: c in root + parts ==> '/' !in c
    ensures var out := parts[|parts|-1] == ".." && Clean(parts[..|parts|-1]) == [];
            Clean(root + parts) == if out then root[..|root|-1] else root + Clean(parts)
  {
    hide ProperPath, Clean;
    var n := |parts| - 1;
    PartsButLast(parts);
    CleanBelow(root, parts[..n]);
    CleanLast(parts);
    assert (root + parts)[..|root| + n] == root + parts[..n] && (root + parts)[|root| + n] == parts[n];
    CleanLast(root + parts);
    var before := Clean(parts[..n]);
    if before == [] {
      assert root + before == root;
    } else {
      assert (root + before)[..|root + before|-1] == root + before[..|before|-1];
    }
    assert (root + before) + [parts[n]] == root + (before + [parts[n]]);
  }

  lemma PartsButLast(parts: seq<string>)
    requires parts != [] && UpAtLastOnly(parts)
    ensures forall c :: c in parts[..|parts|-1] ==> c in parts && c != ".."
    ensures parts[|parts|-1] in parts
  {
  }

  predicate UpAtLastOnly(parts: seq<string>) {
    forall k :: 0 <= k < |parts| - 1 ==> parts[k] != ".."
  }

  /** The parts of a safe name other than the last do not lead up. */
  lemma OnlyTheLastGoesUp(name: string)
    requires SafeName(name)
    ensures UpAtLastOnly(Split(TrimSpace(name), '/'))
  {
    hide TrimSpace, Contains, Split, Join;
    var n := TrimSpace(name);
    var parts := Split(n, '/');
    JoinSplit(n, '/');
    assert ".." + "/" == "../";
    forall k | 0 <= k < |parts| - 1
      ensures parts[k] != ".."
    {
      if parts[k] == ".." {
        PartAndSlash(parts, k);
      }
    }
  }

  lemma {:induction false} PartAndSlash(parts: seq<string>, k: nat)
    requires k < |parts| - 1
    ensures Contains(Join(parts, '/'), parts[k] + "/")
  {
    hide Contains;
    var s := Join(parts, '/');
    assert s == parts[0] + "/" + Join(parts[1..], '/');
    if k == 0 {
      assert s[0..] == s && parts[0] + "/" <= s;
      ContainsAt(s, parts[0] + "/", 0);
    } else {
      PartAndSlash(parts[1..], k - 1);
      var at := ContainedAt(Join(parts[1..], '/'), parts[k] + "/");
      assert s[|parts[0]| + 1 + at..] == Join(parts[1..], '/')[at..];
      ContainsAt(s, parts[k] + "/", |parts[0]| + 1 + at);
    }
  }

  /** Parts that never lead up are added to a directory one by one. */
  lemma {:induction false} CleanBelow(root: Path, parts: seq<string>)
    requires ProperPath(root) && forall c :: c in parts ==> '/' !in c && c != ".."
    ensures forall c :: c in root + parts ==> '/' !in c
    ensures Clean(root + parts) == root + Clean(parts)
  {
    hide ValidComponent;
    CleanKeeps(root);
    if parts == [] {
      assert root + parts == root;
    } else {
      var n := |parts| - 1;
      CleanBelow(root, parts[..n]);
      assert parts[n] in parts;
      assert (root + parts)[..|root| + n] == root + parts[..n] && (root + parts)[|root| + n] == parts[n];
      assert (root + Clean(parts[..n])) + [parts[n]] == root + (Clean(parts[..n]) + [parts[n]]);
    }
  }

  /* ---- unpacking any archive ---- */

  lemma WriteKeepsForm(t: Tree, p: Path, data: Bytes)
    requires Sound(t) && ProperPath(p)
    ensures CanWrite(t, p) ==> Sound(Merge(t, FilePiece(p, data)))
    ensures CanMake(t, p) ==> Sound(Merge(t, DirPiece(p)))
  {
    hide Sound, ProperPath, CanWrite, CanMake, Clash, Merge, FilePiece, DirPiece;
    CanWriteIff(t, p, data);
    CanMakeIff(t, p);
    PieceIsSound(p, data);
    if CanWrite(t, p) {
      MergeIsSoundIff(t, FilePiece(p, data));
    }
    if CanMake(t, p) {
      MergeIsSoundIff(t, DirPiece(p));
    }
  }

  lemma {:induction false} UnpackedIsSound(t: Tree, items: seq<Item>, overwrite: bool)
    requires Sound(t)
    ensures Sound(Unpacked(t, items, overwrite).tree)
  {
    hide Sound, CanWrite, CanMake, Merge, FilePiece, DirPiece, StagedPath, ProperPath;
    if items != [] {
      var before, item := items[..|items|-1], items[|items|-1];
      UnpackedIsSound(t, before, overwrite);
      if item.FileItem? {
        WriteKeepsForm(Unpacked(t, before, overwrite).tree, StagedPath(item.name), item.data);
      } else if item.DirItem? {
        WriteKeepsForm(Unpacked(t, before, overwrite).tree, StagedPath(item.name), []);
      }
    }
  }

  /** The directories an item is unpacked with. */
  function DirsOf(item: Item): set<Path> {
    if item.FileItem? then Ancestors(StagedPath(item.name))
    else if item.DirItem? then Prefixes(StagedPath(item.name))
    else {}
  }

  ghost predicate IsStagedDir(items: seq<Item>, d: Path) {
    exists k :: 0 <= k < |items| && d in DirsOf(items[k])
  }

  /** What is in a fresh tree once an archive was unpacked: the files at their staged paths, and the
      directories of all items. */
  lemma {:induction false} UnpackedHolds(items: seq<Item>)
    requires Unpacked(EmptyTree(), items, true).ok
    ensures var t := Unpacked(EmptyTree(), items, true).tree;
            && (forall k :: 0 <= k < |items| && items[k].FileItem? ==> StagedPath(items[k].name) in t.files)
            && (forall d :: d in t.dirs <==> IsStagedDir(items, d))
  {
    hide Unpacked, DirsOf, StagedPath, IsStagedDir;
    if items == [] {
      NothingUnpacked(EmptyTree(), true);
      NothingStaged();
    } else {
      var n := |items| - 1;
      LastUnpacked(items);
      UnpackedHolds(items[..n]);
      forall d
        ensures IsStagedDir(items, d) <==> IsStagedDir(items[..n], d) || d in DirsOf(items[n])
      {
        StagedDirNext(items, d);
      }
      assert forall k :: 0 <= k < n ==> items[..n][k] == items[k];
    }
  }

  lemma NothingStaged()
    ensures forall d :: !IsStagedDir([], d)
  {
  }

  lemma LastUnpacked(items: seq<Item>)
    requires items != [] && Unpacked(EmptyTree(), items, true).ok
    ensures var n := |items| - 1;
            var before, t := Unpacked(EmptyTree(), items[..n], true), Unpacked(EmptyTree(), items, true).tree;
            && before.ok && t.dirs == before.tree.dirs + DirsOf(items[n]) && before.tree.files.Keys <= t.files.Keys
            && (items[n].FileItem? ==> StagedPath(items[n].name) in t.files)
  {
    hide CanWrite, CanMake, StagedPath, Inside, Ancestors, Prefixes, Exists;
  }

  lemma StagedDirNext(items: seq<Item>, d: Path)
    requires items != []
    ensures IsStagedDir(items, d) <==> IsStagedDir(items[..|items|-1], d) || d in DirsOf(items[|items|-1])
  {
    hide DirsOf;
    var n := |items| - 1;
    if IsStagedDir(items, d) {
      var k :| 0 <= k < |items| && d in DirsOf(items[k]);
      assert k < n ==> items[..n][k] == items[k];
    }
    if IsStagedDir(items[..n], d) {
      var k :| 0 <= k < n && d in DirsOf(items[..n][k]);
      assert items[k] == items[..n][k];
    }
  }

  /** The tree of an unpacking has only the files that some item was unpacked to. */
  lemma {:induction false} UnpackedFrom(items: seq<Item>, overwrite: bool, a: Path) returns (k: nat)
    requires a in Unpacked(EmptyTree(), items, overwrite).tree.files
    ensures k < |items| && items[k].FileItem? && StagedPath(items[k].name) == a
  {
    hide Writable, CanMake, StagedPath;
    var n := |items| - 1;
    if a in Unpacked(EmptyTree(), items[..n], overwrite).tree.files {
      k := UnpackedFrom(items[..n], overwrite, a);
    } else {
      k := n;
    }
  }

  lemma NothingUnpacked(t: Tree, overwrite: bool)
    ensures Unpacked(t, [], overwrite) == Progress(t, true)
  {
  }

  lemma UnpackStep(t: Tree, archive: Archive, i: nat, overwrite: bool)
    requires i < |archive|
    ensures var before, item := Unpacked(t, archive[..i], overwrite), archive[i];
            Unpacked(t, archive[..i+1], overwrite) ==
            if !before.ok || item.ManifestItem? then before
            else if !Inside(item.name) then before.(ok := false)
            else if item.FileItem? then
              if Writable(before.tree, StagedPath(item.name), overwrite)
              then Progress(Merge(before.tree, FilePiece(StagedPath(item.name), item.data)), true) else before.(ok := false)
            else
              if CanMake(before.tree, StagedPath(item.name))
              then Progress(Merge(before.tree, DirPiece(StagedPath(item.name))), true) else before.(ok := false)
  {
    hide Writable, CanMake, StagedPath, Inside, FilePiece, DirPiece, Merge;
    assert archive[..i+1][..i] == archive[..i] && archive[..i+1][i] == archive[i];
  }

  lemma {:induction false} UnpackFails(t: Tree, archive: Archive, i: nat, overwrite: bool)
    requires i <= |archive| && !Unpacked(t, archive[..i], overwrite).ok
    ensures Unpacked(t, archive, overwrite) == Unpacked(t, archive[..i], overwrite)
    decreases |archive| - i
  {
    hide *;
    if i == |archive| {
      assert archive[..i] == archive;
    } else {
      UnpackStep(t, archive, i, overwrite);
      UnpackFails(t, archive, i + 1, overwrite);
    }
  }

  lemma ManifestIsNotUnpacked(t: Tree, items: seq<Item>, m: Manifest, overwrite: bool)
    ensures Unpacked(t, items + [ManifestItem(m)], overwrite) == Unpacked(t, items, overwrite)
  {
    hide Written, Made;
    var archive := items + [ManifestItem(m)];
    assert archive[..|archive|-1] == items && archive[|archive|-1] == ManifestItem(m);
  }

  /* ---- the staging tree of a backup ---- */

  /** The name neither begins nor ends with a blank. */
  predicate Plain(item: Item) {
    var name := ItemName(item);
    name == "" || (!IsSpace(name[0]) && !IsSpace(name[|name|-1]))
  }

  /** So trimming leaves it alone. */
  lemma PlainIff(item: Item)
    ensures Plain(item) <==> TrimSpace(ItemName(item)) == ItemName(item)
  {
    hide IsSpace, TrimLeftSpace, TrimRightSpace;
    if Plain(item) {
      TrimNothing(ItemName(item));
    }
  }

  ghost predicate PlainNames(items: seq<Item>) {
    forall k :: 0 <= k < |items| ==> Plain(items[k])
  }

  ghost predicate PlainFiles(items: seq<Item>) {
    forall k :: 0 <= k < |items| && items[k].FileItem? ==> Plain(items[k])
  }

  /** No directory leads out of the tree, or is unpacked at or below the place of a file. */
  ghost predicate DirsFit(items: seq<Item>) {
    && (forall l :: 0 <= l < |items| && items[l].DirItem? ==> Inside(items[l].name))
    && forall k, l :: 0 <= k < |items| && 0 <= l < |items| && items[k].FileItem? && items[l].DirItem? ==>
      !(StagedPath(items[k].name) <= StagedPath(items[l].name))
  }

  ghost function Place(t: Tree, sources: seq<Source>, o: Origin): Path
    requires IsOrigin(t, sources, o)
  {
    ArchivePath(sources[o.index], o.path)
  }

  ghost predicate IsFileOrigin(t: Tree, sources: seq<Source>, o: Origin) {
    IsOrigin(t, sources, o) && o.path in t.files
  }

  /** The staging tree has every file of the backup at its archive path, and no other file. */
  ghost predicate InPlace(t: Tree, sources: seq<Source>, origins: seq<Origin>, staging: Tree) {
    && (forall o :: o in origins && IsFileOrigin(t, sources, o) ==>
          Place(t, sources, o) in staging.files && staging.files[Place(t, sources, o)] == t.files[o.path])
    && forall a :: a in staging.files ==> exists o :: o in origins && IsFileOrigin(t, sources, o) && Place(t, sources, o) == a
  }

  lemma PlaceIsProper(t: Tree, sources: seq<Source>, o: Origin)
    requires Sound(t) && WellFormedSources(sources) && IsOrigin(t, sources, o)
    ensures Place(t, sources, o) != [] && ProperPath(Place(t, sources, o))
    ensures Place(t, sources, o)[0] == sources[o.index].name
  {
    hide ValidComponent, EntriesOf, Sound;
    ArchivePathIsProper(t, sources[o.index], o.path);
  }

  /** No archive path lies below that of a file, and different entries have different ones. */
  lemma PlacesDoNotClash(t: Tree, sources: seq<Source>, o: Origin, u: Origin)
    requires Sound(t) && WellFormedSources(sources) && IsOrigin(t, sources, o) && IsOrigin(t, sources, u)
    ensures o.path in t.files ==> !Below(Place(t, sources, o), Place(t, sources, u))
    ensures Place(t, sources, o) == Place(t, sources, u) ==> o == u
  {
    hide ValidComponent, Sound;
    var a, b := Place(t, sources, o), Place(t, sources, u);
    var s := sources[o.index];
    PlaceIsProper(t, sources, o);
    PlaceIsProper(t, sources, u);
    if a <= b {
      assert a[0] == b[0];
      assert o.index == u.index;
      if s.path in t.files {
        assert o.path == s.path && u.path == s.path;
      } else {
        assert o.path == s.path + a[1..] && u.path == s.path + b[1..];
        assert a[1..] <= b[1..];
        assert o.path <= u.path;
        if o.path in t.files {
          NothingBelowFiles(t, o.path, u.path);
        }
      }
    }
  }

  lemma ArchivedAt(t: Tree, sources: seq<Source>, items: seq<Item>, origins: seq<Origin>, k: nat)
    requires Archived(t, sources, items, origins) && k < |items|
    ensures |items| == |origins| && IsOrigin(t, sources, origins[k])
    ensures items[k] == if origins[k].path in t.files
                        then FileItem(NameOf(Place(t, sources, origins[k])), t.files[origins[k].path])
                        else DirItem(NameOf(Place(t, sources, origins[k])))
    ensures origins[k] in origins && origins[k] !in origins[..k]
    ensures Archived(t, sources, items[..k], origins[..k])
  {
    hide NameOf, ArchivePath, EntriesOf;
  }

  lemma FilesFitPrefix(items: seq<Item>, n: nat)
    requires n <= |items| && PlainFiles(items) && DirsFit(items)
    ensures PlainFiles(items[..n]) && DirsFit(items[..n])
  {
    hide Plain, StagedPath, Inside;
    assert forall k :: 0 <= k < n ==> items[..n][k] == items[k];
  }

  lemma PlainFileIsInPlace(t: Tree, sources: seq<Source>, items: seq<Item>, origins: seq<Origin>, k: nat)
    requires Sound(t) && WellFormedSources(sources) && Archived(t, sources, items, origins)
    requires k < |items| && items[k].FileItem? && Plain(items[k])
    ensures |items| == |origins| && IsFileOrigin(t, sources, origins[k])
    ensures StagedPath(items[k].name) == Place(t, sources, origins[k])
  {
    hide Sound, WellFormedSources, Archived, IsOrigin, Place, NameOf, TrimSpace, StagedPath, Plain;
    PlainIff(items[k]);
    ArchivedAt(t, sources, items, origins, k);
    PlaceIsProper(t, sources, origins[k]);
    StagedInPlaceIff(Place(t, sources, origins[k]));
  }

  /** No file's place is a directory above another place. */
  lemma FilesFit(t: Tree, sources: seq<Source>, o: Origin, u: Origin)
    requires Sound(t) && WellFormedSources(sources) && IsFileOrigin(t, sources, o) && IsOrigin(t, sources, u)
    ensures Place(t, sources, o) !in Ancestors(Place(t, sources, u))
  {
    hide Sound, WellFormedSources, IsOrigin, Place, Ancestors, Prefixes;
    PrefixesAre(Place(t, sources, u));
    PlacesDoNotClash(t, sources, o, u);
  }

  /** Making a path makes only what leads to it. */
  lemma NotMade(p: Path, q: Path)
    ensures p <= q || p !in Prefixes(q)
  {
    hide Prefixes, Ancestors;
    PrefixesAre(q);
  }

  /** The next item finds nothing in its way. */
  lemma NextFits(t: Tree, sources: seq<Source>, items: seq<Item>, origins: seq<Origin>, n: nat)
    requires Sound(t) && WellFormedSources(sources) && Archived(t, sources, items, origins)
    requires PlainFiles(items) && DirsFit(items) && n < |items| && Unpacked(EmptyTree(), items[..n], true).ok
    ensures var staging := Unpacked(EmptyTree(), items[..n], true).tree;
            && (items[n].FileItem? ==> CanWrite(staging, StagedPath(items[n].name)))
            && (items[n].DirItem? ==> CanMake(staging, StagedPath(items[n].name)))
            && (!items[n].ManifestItem? ==> Inside(items[n].name))
  {
    hide Sound, WellFormedSources, Archived, Plain, IsOrigin, Place, StagedPath, Ancestors, Prefixes, Unpacked, DirsFit,
      PlainFiles, DirsOf, Inside;
    var staging := Unpacked(EmptyTree(), items[..n], true).tree;
    assert forall k :: 0 <= k < n ==> items[..n][k] == items[k];
    // What one item is unpacked with is not in the way of a file, whichever comes first.
    forall i: nat, k: nat | i < |items| && k < |items| && items[i].FileItem?
      ensures StagedPath(items[i].name) !in DirsOf(items[k])
    {
      PlainIs(items, i);
      PlainFileIsInPlace(t, sources, items, origins, i);
      ArchivedAt(t, sources, items, origins, k);
      DirsOfIs(items[k]);
      if items[k].FileItem? {
        PlainIs(items, k);
        PlainFileIsInPlace(t, sources, items, origins, k);
        FilesFit(t, sources, origins[i], origins[k]);
      } else {
        NotMade(StagedPath(items[i].name), StagedPath(items[k].name));
        DirFits(items, i, k);
      }
    }
    if items[n].FileItem? {
      PlainIs(items, n);
      PlainFileIsInPlace(t, sources, items, origins, n);
      PlaceIsProper(t, sources, origins[n]);
      StagedIsInside(items[n].name);
      if StagedPath(items[n].name) in staging.dirs {
        var k := DirsFrom(items[..n], StagedPath(items[n].name));
      }
    } else if items[n].DirItem? {
      DirIsInside(items, n);
    }
    forall a | a in staging.files
      ensures a !in DirsOf(items[n])
    {
      var i := UnpackedFrom(items[..n], true, a);
    }
    DirsOfIs(items[n]);
  }

  /** Whose directory it is. */
  lemma DirsFrom(items: seq<Item>, d: Path) returns (k: nat)
    requires Unpacked(EmptyTree(), items, true).ok && d in Unpacked(EmptyTree(), items, true).tree.dirs
    ensures k < |items| && d in DirsOf(items[k])
  {
    hide DirsOf, Unpacked;
    UnpackedHolds(items);
    k :| k < |items| && d in DirsOf(items[k]);
  }

  lemma PlainIs(items: seq<Item>, n: nat)
    requires PlainFiles(items) && n < |items| && items[n].FileItem?
    ensures Plain(items[n])
  {
  }

  lemma DirFits(items: seq<Item>, n: nat, k: nat)
    requires DirsFit(items) && n < |items| && k < |items| && items[n].FileItem? && items[k].DirItem?
    ensures !(StagedPath(items[n].name) <= StagedPath(items[k].name))
  {
    hide StagedPath, Inside;
  }

  lemma DirIsInside(items: seq<Item>, k: nat)
    requires DirsFit(items) && k < |items| && items[k].DirItem?
    ensures Inside(items[k].name)
  {
    hide StagedPath, Inside;
  }

  /** A name that leads out of the tree is not unpacked anywhere in it. */
  lemma StagedIsInside(name: string)
    requires StagedPath(name) != []
    ensures Inside(name)
  {
    hide TrimSpace;
  }

  lemma DirsOfIs(item: Item)
    ensures item.FileItem? ==> DirsOf(item) == Ancestors(StagedPath(item.name))
    ensures item.DirItem? ==> DirsOf(item) == Prefixes(StagedPath(item.name))
  {
  }

  /** One more file in its place. */
  lemma InPlaceNext(t: Tree, sources: seq<Source>, origins: seq<Origin>, staging: Tree, o: Origin, after: Tree)
    requires Sound(t) && WellFormedSources(sources) && IsOrigin(t, sources, o) && o !in origins
    requires InPlace(t, sources, origins, staging)
    requires after.files == if o.path in t.files then staging.files[Place(t, sources, o) := t.files[o.path]] else staging.files
    ensures InPlace(t, sources, origins + [o], after)
  {
    hide Sound, WellFormedSources, IsOrigin, Place;
    if o.path in t.files {
      forall u | u in origins && IsFileOrigin(t, sources, u)
        ensures Place(t, sources, u) != Place(t, sources, o)
      {
        PlacesDoNotClash(t, sources, u, o);
      }
    }
  }

  lemma MergeOneFile(t: Tree, p: Path, data: Bytes)
    ensures Merge(t, FilePiece(p, data)).files == t.files[p := data]
    ensures Merge(t, DirPiece(p)).files == t.files
  {
    assert t.files + map[p := data] == t.files[p := data];
    assert t.files + map[] == t.files;
  }

  lemma {:induction false} PlainFilesStage(t: Tree, sources: seq<Source>, items: seq<Item>, origins: seq<Origin>)
    requires Sound(t) && WellFormedSources(sources) && Archived(t, sources, items, origins)
    requires PlainFiles(items) && DirsFit(items)
    ensures Unpacked(EmptyTree(), items, true).ok && InPlace(t, sources, origins, Unpacked(EmptyTree(), items, true).tree)
  {
    hide Sound, WellFormedSources, Archived, Plain, PlainFiles, DirsFit, IsOrigin, Place, NameOf, TrimSpace, CanWrite, CanMake,
      Exists, StagedPath, Inside, Merge, FilePiece, DirPiece, InPlace;
    if items == [] {
      ArchivedLength(t, sources, items, origins);
      NothingInPlace(t, sources);
    } else {
      var n := |items| - 1;
      ArchivedAt(t, sources, items, origins, n);
      FilesFitPrefix(items, n);
      PlainFilesStage(t, sources, items[..n], origins[..n]);
      NextFits(t, sources, items, origins, n);
      var before, o := Unpacked(EmptyTree(), items[..n], true), origins[n];
      var after := Unpacked(EmptyTree(), items, true);
      if items[n].FileItem? {
        PlainIs(items, n);
        PlainFileIsInPlace(t, sources, items, origins, n);
        MergeOneFile(before.tree, StagedPath(items[n].name), items[n].data);
      } else {
        MergeOneFile(before.tree, StagedPath(items[n].name), []);
      }
      InPlaceNext(t, sources, origins[..n], before.tree, o, after.tree);
      assert origins[..n] + [o] == origins;
    }
  }

  lemma NothingInPlace(t: Tree, sources: seq<Source>)
    ensures InPlace(t, sources, [], EmptyTree())
  {
  }

  /** Of the files whose names trimming changes, one with the longest name. */
  lemma {:induction false} LongestChanged(items: seq<Item>) returns (k: nat)
    requires !PlainFiles(items)
    ensures k < |items| && items[k].FileItem? && !Plain(items[k])
    ensures forall j :: 0 <= j < |items| && items[j].FileItem? && !Plain(items[j]) ==> |items[j].name| <= |items[k].name|
  {
    hide Plain;
    var n := |items| - 1;
    assert forall j :: 0 <= j < n ==> items[..n][j] == items[j];
    if PlainFiles(items[..n]) {
      k := n;
    } else {
      var l := LongestChanged(items[..n]);
      k := if items[n].FileItem? && !Plain(items[n]) && |items[n].name| > |items[l].name| then n else l;
    }
  }

  /** A file whose name trimming changes leaves its place to no other, if its name is the longest. */
  lemma ChangedNamesLeaveAGap(t: Tree, sources: seq<Source>, items: seq<Item>, origins: seq<Origin>)
    requires Sound(t) && WellFormedSources(sources) && Archived(t, sources, items, origins) && !PlainFiles(items)
    ensures !InPlace(t, sources, origins, Unpacked(EmptyTree(), items, true).tree)
  {
    hide Sound, WellFormedSources, Archived, IsOrigin, Place, NameOf, TrimSpace, StagedPath, Unpacked, PlainFiles, Plain;
    var k := LongestChanged(items);
    PlainIff(items[k]);
    ArchivedAt(t, sources, items, origins, k);
    var a := Place(t, sources, origins[k]);
    assert IsFileOrigin(t, sources, origins[k]);
    PlaceIsProper(t, sources, origins[k]);
    if a in Unpacked(EmptyTree(), items, true).tree.files {
      var j := UnpackedFrom(items, true, a);
      ArchivedAt(t, sources, items, origins, j);
      var b := Place(t, sources, origins[j]);
      PlaceIsProper(t, sources, origins[j]);
      StagedInPlaceIff(b);
      StagedInPlaceIff(a);
      StagedNameIsNoLonger(items[j].name);
      PlainIff(items[j]);
      if a == b {
        assert false;
      }
    }
  }

  /** A directory unpacked at or below a file would have made unpacking fail. */
  lemma UnpackedDirsFit(items: seq<Item>)
    requires Unpacked(EmptyTree(), items, true).ok
    ensures DirsFit(items)
  {
    hide Unpacked, StagedPath, Inside, Prefixes, Closed;
    UnpackedHolds(items);
    UnpackedIsInside(items);
    EmptyIsSound();
    UnpackedIsSound(EmptyTree(), items, true);
    var t := Unpacked(EmptyTree(), items, true).tree;
    forall k, l | 0 <= k < |items| && 0 <= l < |items| && items[k].FileItem? && items[l].DirItem?
      ensures !(StagedPath(items[k].name) <= StagedPath(items[l].name))
    {
      var p := StagedPath(items[k].name);
      PrefixesAre(StagedPath(items[l].name));
      FileIsNotRoot(t, p);
      assert forall d :: d in DirsOf(items[l]) ==> IsStagedDir(items, d);
    }
  }

  /** What leads out of the tree makes unpacking fail. */
  lemma {:induction false} UnpackedIsInside(items: seq<Item>)
    requires Unpacked(EmptyTree(), items, true).ok
    ensures forall k :: 0 <= k < |items| && !items[k].ManifestItem? ==> Inside(items[k].name)
  {
    hide Inside, StagedPath, Writable, CanMake, Merge, FilePiece, DirPiece;
    if items != [] {
      var n := |items| - 1;
      UnpackedIsInside(items[..n]);
      assert forall k :: 0 <= k < n ==> items[..n][k] == items[k];
    }
  }

  lemma EmptyIsSound()
    ensures Sound(EmptyTree())
  {
  }

  lemma FileIsNotRoot(t: Tree, p: Path)
    requires Sound(t) && p in t.files
    ensures p != []
  {
  }

  /** Unpacking a backup into an empty tree goes through and puts every file at its archive path
      exactly when trimming leaves all file names alone, and no directory is unpacked at or below a
      file under its trimmed name. */
  lemma StagingIs(t: Tree, sources: seq<Source>, items: seq<Item>, origins: seq<Origin>)
    requires Sound(t) && WellFormedSources(sources) && Archived(t, sources, items, origins)
    ensures PlainFiles(items) && DirsFit(items) <==>
              var unpacked := Unpacked(EmptyTree(), items, true); unpacked.ok && InPlace(t, sources, origins, unpacked.tree)
  {
    hide *;
    if PlainFiles(items) {
      if Unpacked(EmptyTree(), items, true).ok {
        UnpackedDirsFit(items);
      }
      if DirsFit(items) {
        PlainFilesStage(t, sources, items, origins);
      }
    } else {
      ChangedNamesLeaveAGap(t, sources, items, origins);
    }
  }

  /** Directories whose names trimming leaves alone never lie at or below a file. */
  lemma PlainNamesFit(t: Tree, sources: seq<Source>, items: seq<Item>, origins: seq<Origin>)
    requires Sound(t) && WellFormedSources(sources) && Archived(t, sources, items, origins) && PlainNames(items)
    ensures PlainFiles(items) && DirsFit(items)
  {
    hide Sound, WellFormedSources, Archived, Plain, IsOrigin, Place, StagedPath, NameOf, Inside;
    forall l | 0 <= l < |items| && items[l].DirItem?
      ensures Inside(items[l].name)
    {
      PlainIsInPlace(t, sources, items, origins, l);
      PlaceIsProper(t, sources, origins[l]);
      StagedIsInside(items[l].name);
    }
    forall k, l | 0 <= k < |items| && 0 <= l < |items| && items[k].FileItem? && items[l].DirItem?
      ensures !(StagedPath(items[k].name) <= StagedPath(items[l].name))
    {
      PlainIsInPlace(t, sources, items, origins, k);
      PlainIsInPlace(t, sources, items, origins, l);
      ArchivedAt(t, sources, items, origins, k);
      ArchivedAt(t, sources, items, origins, l);
      PlacesDoNotClash(t, sources, origins[k], origins[l]);
    }
  }

  lemma PlainIsInPlace(t: Tree, sources: seq<Source>, items: seq<Item>, origins: seq<Origin>, k: nat)
    requires Sound(t) && WellFormedSources(sources) && Archived(t, sources, items, origins)
    requires k < |items| && Plain(items[k])
    ensures |items| == |origins| && IsOrigin(t, sources, origins[k]) && !items[k].ManifestItem?
    ensures StagedPath(items[k].name) == Place(t, sources, origins[k])
  {
    hide Sound, WellFormedSources, Archived, IsOrigin, Place, NameOf, TrimSpace, StagedPath, Plain;
    PlainIff(items[k]);
    ArchivedAt(t, sources, items, origins, k);
    PlaceIsProper(t, sources, origins[k]);
    StagedInPlaceIff(Place(t, sources, origins[k]));
  }

  /* ---- its directories ---- */

  lemma FirstComponents(a: Path, b: Path)
    requires a != [] && a <= b
    ensures b != [] && a[0] == b[0]
  {
  }

  lemma EntryIsOrigin(t: Tree, sources: seq<Source>, i: nat, p: Path)
    requires Sound(t) && i < |sources| && p in EntriesOf(t, sources[i].path)
    ensures IsOrigin(t, sources, Origin(i, p))
  {
    hide ProperPath, Ancestors;
  }

  lemma OriginEntry(t: Tree, sources: seq<Source>, o: Origin)
    requires IsOrigin(t, sources, o)
    ensures o.index < |sources| && o.path in EntriesOf(t, sources[o.index].path) && (o.path in t.files || o.path in t.dirs)
  {
  }

  /** The directories of a staging tree in which all names are plain: those of the backup at their
      archive paths, and one for every source that is a directory. */
  ghost predicate DirsInPlace(t: Tree, sources: seq<Source>, staging: Tree) {
    && (forall o :: IsOrigin(t, sources, o) && o.path in t.dirs ==> Place(t, sources, o) in staging.dirs)
    && (forall o :: IsOrigin(t, sources, o) ==> [sources[o.index].name] in staging.dirs)
    && (forall d :: d in staging.dirs ==> exists o :: IsOrigin(t, sources, o) && OfOrigin(t, sources, o, d))
  }

  ghost predicate OfOrigin(t: Tree, sources: seq<Source>, o: Origin, d: Path)
    requires IsOrigin(t, sources, o)
  {
    d == [sources[o.index].name] || (o.path in t.dirs && d == Place(t, sources, o))
  }

  /** A directory above a place, or the place of a directory, is again of that kind. */
  lemma AbovePlace(t: Tree, sources: seq<Source>, o: Origin, d: Path) returns (u: Origin)
    requires Sound(t) && WellFormedSources(sources) && IsOrigin(t, sources, o)
    requires d != [] && d <= Place(t, sources, o) && (d == Place(t, sources, o) ==> o.path in t.dirs)
    ensures IsOrigin(t, sources, u) && OfOrigin(t, sources, u, d)
  {
    hide ValidComponent, Sound;
    var s, a := sources[o.index], Place(t, sources, o);
    PlaceIsProper(t, sources, o);
    FirstComponents(d, a);
    u := o;
    if |d| == 1 {
      assert d == [s.name];
    } else if d != a {
      assert s.path !in t.files;
      var p := s.path + d[1..];
      assert a[1..] == o.path[|s.path|..] && d[1..] <= a[1..];
      assert o.path == s.path + a[1..] && p <= o.path && p != o.path;
      AboveIsDir(t, p, o.path);
      assert p in EntriesOf(t, s.path);
      EntryIsOrigin(t, sources, o.index, p);
      u := Origin(o.index, p);
      assert p[|s.path|..] == d[1..];
    }
  }

  lemma PlainDirsStage(t: Tree, sources: seq<Source>, items: seq<Item>, origins: seq<Origin>)
    requires Sound(t) && WellFormedSources(sources) && Archived(t, sources, items, origins) && Complete(t, sources, origins)
    requires PlainNames(items)
    ensures DirsInPlace(t, sources, Unpacked(EmptyTree(), items, true).tree)
  {
    hide *;
    PlainNamesFit(t, sources, items, origins);
    PlainFilesStage(t, sources, items, origins);
    UnpackedHolds(items);
    var staging := Unpacked(EmptyTree(), items, true).tree;
    forall o | IsOrigin(t, sources, o)
      ensures [sources[o.index].name] in staging.dirs
      ensures o.path in t.dirs ==> Place(t, sources, o) in staging.dirs
    {
      OriginIsStaged(t, sources, items, origins, o);
    }
    forall d | d in staging.dirs
      ensures exists o :: IsOrigin(t, sources, o) && OfOrigin(t, sources, o, d)
    {
      var k := DirsFrom(items, d);
      PlainAt(items, k);
      var u := StagedIsOrigin(t, sources, items, origins, k, d);
    }
    DirsInPlaceIs(t, sources, staging);
  }

  lemma PlainAt(items: seq<Item>, k: nat)
    requires PlainNames(items) && k < |items|
    ensures Plain(items[k])
  {
  }

  lemma DirsInPlaceIs(t: Tree, sources: seq<Source>, staging: Tree)
    requires forall o :: IsOrigin(t, sources, o) ==> [sources[o.index].name] in staging.dirs
    requires forall o :: IsOrigin(t, sources, o) ==> o.path in t.dirs ==> Place(t, sources, o) in staging.dirs
    requires forall d :: d in staging.dirs ==> exists o :: IsOrigin(t, sources, o) && OfOrigin(t, sources, o, d)
    ensures DirsInPlace(t, sources, staging)
  {
    hide IsOrigin, OfOrigin, Place;
  }

  lemma OriginIsStaged(t: Tree, sources: seq<Source>, items: seq<Item>, origins: seq<Origin>, o: Origin)
    requires Sound(t) && WellFormedSources(sources) && Archived(t, sources, items, origins) && Complete(t, sources, origins)
    requires PlainNames(items) && IsOrigin(t, sources, o)
    ensures IsStagedDir(items, [sources[o.index].name])
    ensures o.path in t.dirs ==> IsStagedDir(items, Place(t, sources, o))
  {
    hide Sound, WellFormedSources, Archived, Plain, IsOrigin, Place, StagedPath, NameOf, OfOrigin, Ancestors, Prefixes, DirsOf;
    var k :| 0 <= k < |origins| && origins[k] == o;
    ArchivedLength(t, sources, items, origins);
    ArchivedAt(t, sources, items, origins, k);
    PlainIsInPlace(t, sources, items, origins, k);
    PrefixesAre(Place(t, sources, o));
    DirsOfIs(items[k]);
    ManyComponents(t, sources, o);
    assert [sources[o.index].name] in DirsOf(items[k]);
    if o.path in t.dirs {
      DirIsNoFile(t, o.path);
      assert Place(t, sources, o) in DirsOf(items[k]);
    }
  }

  lemma StagedIsOrigin(t: Tree, sources: seq<Source>, items: seq<Item>, origins: seq<Origin>, k: nat, d: Path) returns (u: Origin)
    requires Sound(t) && WellFormedSources(sources) && Archived(t, sources, items, origins)
    requires k < |items| && Plain(items[k]) && d in DirsOf(items[k])
    ensures IsOrigin(t, sources, u) && OfOrigin(t, sources, u, d)
  {
    hide Sound, WellFormedSources, Archived, Plain, IsOrigin, Place, StagedPath, NameOf, OfOrigin, Ancestors, Prefixes, DirsOf;
    ArchivedAt(t, sources, items, origins, k);
    PlainIsInPlace(t, sources, items, origins, k);
    PrefixesAre(Place(t, sources, origins[k]));
    DirsOfIs(items[k]);
    OriginEntry(t, sources, origins[k]);
    u := AbovePlace(t, sources, origins[k], d);
  }

  lemma DirIsNoFile(t: Tree, d: Path)
    requires Sound(t) && d in t.dirs
    ensures d !in t.files
  {
  }

  lemma ManyComponents(t: Tree, sources: seq<Source>, o: Origin)
    requires Sound(t) && WellFormedSources(sources) && IsOrigin(t, sources, o)
    ensures Below([sources[o.index].name], Place(t, sources, o))
  {
    hide ValidComponent, Sound;
    ArchivePathIsProper(t, sources[o.index], o.path);
    PlaceIsProper(t, sources, o);
  }

  /* ---- backups that verify and cannot be unpacked ---- */

  lemma NoDotIsSafe(name: string)
    requires TrimSpace(name) != "" && TrimSpace(name)[0] != '/' && '.' !in TrimSpace(name)
    ensures SafeName(name)
  {
    hide Contains, TrimSpace;
    var n := TrimSpace(name);
    assert '.' == "../"[0] && '.' == ".."[0] && n[0] in n;
    if Contains(n, "../") {
      ContainsItsChars(n, "../", '.');
    }
  }

  lemma NothingToTrim()
    ensures TrimSpace("s/a") == "s/a" && TrimSpace("s/a /f") == "s/a /f"
  {
    hide TrimSpace;
    TrimNothing("s/a");
    TrimNothing("s/a /f");
  }

  lemma TrimLastBlank(s: string)
    requires s != "" && !IsSpace(s[0]) && !IsSpace(s[|s|-1])
    ensures TrimSpace(s + [' ']) == s
  {
    var padded := s + [' '];
    assert padded[0] == s[0] && TrimLeftSpace(padded) == padded;
    assert padded[|s|] == ' ' && padded[..|s|] == s && TrimRightSpace(padded) == TrimRightSpace(s);
  }

  lemma TrimBlanks()
    ensures TrimSpace("s/ ") == "s/" && TrimSpace("s/a ") == "s/a"
  {
    hide TrimSpace;
    TrimLastBlank("s/");
    TrimLastBlank("s/a");
    assert "s/" + [' '] == "s/ " && "s/a" + [' '] == "s/a ";
  }

  lemma PathOfDirectory()
    ensures PathOf("s/") == ["s"]
  {
    hide Split;
    assert "s" + ['/'] + "" == "s/";
    SplitLast("s", '/', "");
    SplitNone("s", '/');
    assert ["s"] + [""] == ["s", ""];
    assert ["s", ""][..1] == ["s"] && ["s"][..0] == [];
    assert Clean(["s"]) == ["s"];
  }

  lemma NamesOfBlanks()
    ensures NameOf(["s", "a"]) == "s/a" && NameOf(["s", " "]) == "s/ " && NameOf(["s", "a "]) == "s/a "
    ensures NameOf(["s", "a ", "f"]) == "s/a /f"
  {
    hide NameOf;
    JoinTwo("s", "a");
    JoinTwo("s", " ");
    JoinTwo("s", "a ");
    NameOfThree("s", "a ", "f");
    assert "s" + "/" + "a" == "s/a" && "s" + "/" + " " == "s/ " && "s" + "/" + "a " == "s/a ";
    assert "s" + "/" + "a " + "/" + "f" == "s/a /f";
  }

  lemma StagedBlanks()
    ensures StagedPath("s/a") == ["s", "a"] && StagedPath("s/ ") == ["s"] && StagedPath("s/a ") == ["s", "a"]
  {
    hide TrimSpace, NameOf, Clean, Split;
    NamesOfBlanks();
    NothingToTrim();
    TrimBlanks();
    PathOfDirectory();
    StagedInPlaceIff(["s", "a"]);
  }

  lemma BlanksAreSafe()
    ensures SafeName("s/a") && SafeName("s/ ") && SafeName("s/a ") && SafeName("s/a /f")
  {
    hide SafeName, TrimSpace;
    NothingToTrim();
    TrimBlanks();
    NoDotIsSafe("s/a");
    NoDotIsSafe("s/ ");
    NoDotIsSafe("s/a ");
    NoDotIsSafe("s/a /f");
  }

  /** Beside a file "a", a file of one blank is unpacked where the directory of both belongs: neither
      order of the two lets the archive be unpacked, though it verifies. */
  lemma VerifiedBackupNeedNotUnpack(x: Bytes, y: Bytes)
    ensures var t := Tree(map[["d", "a"] := x, ["d", " "] := y], {["d"]});
            var sources := [Source("s", ["d"], true)];
            var items := [FileItem("s/a", x), FileItem("s/ ", y)];
            var origins := [Origin(0, ["d", "a"]), Origin(0, ["d", " "])];
            && Sound(t) && WellFormedSources(sources)
            && Archived(t, sources, items, origins) && Complete(t, sources, origins) && NamesAreSafe(items)
            && !Unpacked(EmptyTree(), items, true).ok && !Unpacked(EmptyTree(), [items[1], items[0]], true).ok
  {
    hide *;
    var t := Tree(map[["d", "a"] := x, ["d", " "] := y], {["d"]});
    var a, blank := FileItem("s/a", x), FileItem("s/ ", y);
    TwoFiles(t, x, y);
    TwoAreSafe(a, blank);
    StagedBlanks();
    OneAboveTheOther("s", "a");
    UnpackTwo(a, blank);
    UnpackTwo(blank, a);
  }

  lemma TwoAreSafe(a: Item, b: Item)
    requires a.FileItem? && b.FileItem? && a.name == "s/a" && b.name == "s/ "
    ensures NamesAreSafe([a, b])
  {
    hide SafeName;
    BlanksAreSafe();
  }

  lemma OneAboveTheOther(a: string, b: string)
    ensures Below([a], [a, b])
  {
  }

  /** The second of two files is not unpacked if it would lie below or above the first. */
  lemma UnpackTwo(a: Item, b: Item)
    requires a.FileItem? && b.FileItem? && StagedPath(a.name) != [] && StagedPath(b.name) != []
    requires Below(StagedPath(a.name), StagedPath(b.name)) || Below(StagedPath(b.name), StagedPath(a.name))
    ensures !Unpacked(EmptyTree(), [a, b], true).ok
  {
    hide *;
    if Unpacked(EmptyTree(), [a, b], true).ok {
      UnpackedHolds([a, b]);
      EmptyIsSound();
      UnpackedIsSound(EmptyTree(), [a, b], true);
      var t := Unpacked(EmptyTree(), [a, b], true).tree;
      assert [a, b][0] == a && [a, b][1] == b;
      NothingBelowFiles(t, StagedPath(a.name), StagedPath(b.name));
      NothingBelowFiles(t, StagedPath(b.name), StagedPath(a.name));
    }
  }

  lemma TwoFiles(t: Tree, x: Bytes, y: Bytes)
    requires t == Tree(map[["d", "a"] := x, ["d", " "] := y], {["d"]})
    ensures var sources := [Source("s", ["d"], true)];
            var origins := [Origin(0, ["d", "a"]), Origin(0, ["d", " "])];
            && Sound(t) && WellFormedSources(sources)
            && Archived(t, sources, [FileItem("s/a", x), FileItem("s/ ", y)], origins) && Complete(t, sources, origins)
  {
    hide *;
    TwoFilesAreSound(t, x, y);
    TwoEntries(t, x, y);
  }

  lemma TwoFilesAreSound(t: Tree, x: Bytes, y: Bytes)
    requires t == Tree(map[["d", "a"] := x, ["d", " "] := y], {["d"]})
    ensures Sound(t) && WellFormedSources([Source("s", ["d"], true)])
  {
    hide Ancestors;
    NoneAbove("d");
    OneAbove("d", "a");
    OneAbove("d", " ");
  }

  lemma TwoEntries(t: Tree, x: Bytes, y: Bytes)
    requires t == Tree(map[["d", "a"] := x, ["d", " "] := y], {["d"]})
    ensures var sources := [Source("s", ["d"], true)];
            var origins := [Origin(0, ["d", "a"]), Origin(0, ["d", " "])];
            Archived(t, sources, [FileItem("s/a", x), FileItem("s/ ", y)], origins) && Complete(t, sources, origins)
  {
    hide NameOf;
    var sources := [Source("s", ["d"], true)];
    NamesOfBlanks();
    var p, q := ["d", "a"], ["d", " "];
    assert ["d"] <= p && ["d"] <= q && p[1] == "a" && q[1] == " ";
    assert EntriesOf(t, ["d"]) == {p, q};
    assert p[1..] == ["a"] && q[1..] == [" "];
    assert ArchivePath(sources[0], p) == ["s", "a"] && ArchivePath(sources[0], q) == ["s", " "];
  }

  /** The names of all files may be plain, and a directory still lies in the way of a file: "a " is
      unpacked at "a".  The archive verifies, and cannot be unpacked. */
  lemma DirectoryCanBlockAFile(x: Bytes, y: Bytes)
    ensures var t := Tree(map[["d", "a"] := x, ["d", "a ", "f"] := y], {["d"], ["d", "a "]});
            var sources := [Source("s", ["d"], true)];
            var items := [FileItem("s/a", x), DirItem("s/a "), FileItem("s/a /f", y)];
            var origins := [Origin(0, ["d", "a"]), Origin(0, ["d", "a "]), Origin(0, ["d", "a ", "f"])];
            && Sound(t) && WellFormedSources(sources)
            && Archived(t, sources, items, origins) && Complete(t, sources, origins) && NamesAreSafe(items)
            && PlainFiles(items) && !DirsFit(items) && !Unpacked(EmptyTree(), items, true).ok
  {
    hide *;
    var t := Tree(map[["d", "a"] := x, ["d", "a ", "f"] := y], {["d"], ["d", "a "]});
    var items := [FileItem("s/a", x), DirItem("s/a "), FileItem("s/a /f", y)];
    FileAndDirectory(t, x, y);
    FileEntries(t, x, y);
    SafeButInTheWay(items, x, y);
    if Unpacked(EmptyTree(), items, true).ok {
      UnpackedDirsFit(items);
    }
  }

  lemma SafeButInTheWay(items: seq<Item>, x: Bytes, y: Bytes)
    requires items == [FileItem("s/a", x), DirItem("s/a "), FileItem("s/a /f", y)]
    ensures NamesAreSafe(items) && PlainFiles(items) && !DirsFit(items)
  {
    hide SafeName, TrimSpace, StagedPath;
    BlanksAreSafe();
    NothingToTrim();
    StagedBlanks();
    assert items[0].FileItem? && items[1].DirItem? && StagedPath(items[0].name) <= StagedPath(items[1].name);
  }

  lemma FileAndDirectory(t: Tree, x: Bytes, y: Bytes)
    requires t == Tree(map[["d", "a"] := x, ["d", "a ", "f"] := y], {["d"], ["d", "a "]})
    ensures Sound(t) && WellFormedSources([Source("s", ["d"], true)])
  {
    hide Ancestors;
    NoneAbove("d");
    OneAbove("d", "a");
    OneAbove("d", "a ");
    TwoAbove("d", "a ", "f");
    assert |["d", "a"]| == 2 && ["d", "a"][1] == "a" && ["d", "a "][1] == "a ";
  }

  lemma FileEntries(t: Tree, x: Bytes, y: Bytes)
    requires t == Tree(map[["d", "a"] := x, ["d", "a ", "f"] := y], {["d"], ["d", "a "]})
    ensures var sources := [Source("s", ["d"], true)];
            var items := [FileItem("s/a", x), DirItem("s/a "), FileItem("s/a /f", y)];
            var origins := [Origin(0, ["d", "a"]), Origin(0, ["d", "a "]), Origin(0, ["d", "a ", "f"])];
            Archived(t, sources, items, origins) && Complete(t, sources, origins)
  {
    hide NameOf;
    var sources := [Source("s", ["d"], true)];
    NamesOfBlanks();
    var p, q, r := ["d", "a"], ["d", "a "], ["d", "a ", "f"];
    assert ["d"] <= p && ["d"] <= q && ["d"] <= r && p[1] == "a" && q[1] == "a ";
    assert EntriesOf(t, ["d"]) == {p, q, r};
    assert p[1..] == ["a"] && q[1..] == ["a "] && r[1..] == ["a ", "f"];
    assert ArchivePath(sources[0], p) == ["s", "a"] && ArchivePath(sources[0], q) == ["s", "a "];
    assert ArchivePath(sources[0], r) == ["s", "a ", "f"];
  }
}
