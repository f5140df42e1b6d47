/** Creating, verifying and restoring backups (internal/backup/backup.go and live_restore.go),
    over trees of regular files and directories.  The order in which a directory is walked is left
    open. */
module BackupArchive {
  import opened Options
  import opened Text
  import opened EncryptedArchive
  import opened FileTree

  datatype Source = Source(name: string, path: Path, required: bool)
  datatype ManifestEntry = ManifestEntry(source: string, path: string, isFile: bool, size: nat, sum: string)
  datatype Manifest = Manifest(version: int, entries: seq<ManifestEntry>)
  datatype Item = FileItem(name: string, data: Bytes) | DirItem(name: string) | ManifestItem(manifest: Manifest)
  type Archive = seq<Item>

  function ManifestPath(): string { "proidentity-backup-manifest.json" }

  ghost predicate WellFormedSources(sources: seq<Source>) {
    && (forall s :: s in sources ==> ValidComponent(s.name))
    && forall i, j :: 0 <= i < j < |sources| ==> sources[i].name != sources[j].name
  }

  /** What a source contributes: itself if it is a file, or the files and directories below it. */
  function EntriesOf(t: Tree, path: Path): set<Path> {
    if path in t.files then {path}
    else (set q | q in t.files && Below(path, q)) + (set q | q in t.dirs && Below(path, q))
  }

  /** Where an entry goes in the archive: below the source's name, by its path relative to the
      source, or by its base name when the source is the file itself. */
  function ArchivePath(source: Source, q: Path): Path
    requires q != [] && source.path <= q
  {
    if q == source.path then [source.name, q[|q|-1]] else [source.name] + q[|source.path|..]
  }

  function NameOf(p: Path): string
    requires p != []
  {
    Join(p, '/')
  }

  /** safeRelative: the trimmed name, unless it could lead out of the target. */
  predicate SafeName(name: string) {
    var n := TrimSpace(name);
    n != "" && n[0] != '/' && !Contains(n, "../") && !(".." <= n)
  }

  /* ---- names in the archive are unique ---- */

  lemma ArchivePathIsProper(t: Tree, source: Source, q: Path)
    requires Sound(t) && ValidComponent(source.name) && q in EntriesOf(t, source.path)
    ensures q in t.files || q in t.dirs
    ensures q != [] && source.path <= q
    ensures |ArchivePath(source, q)| >= 2 && forall c :: c in ArchivePath(source, q) ==> ValidComponent(c)
  {
    hide ValidComponent, Ancestors;
    var tail := q[|source.path|..];
    forall c | c in ArchivePath(source, q) ensures ValidComponent(c) {
      assert c == source.name || c in q;
    }
  }

  lemma NameIsInjective(p: Path, q: Path)
    requires p != [] && q != []
    requires (forall c :: c in p ==> ValidComponent(c)) && (forall c :: c in q ==> ValidComponent(c))
    ensures NameOf(p) == NameOf(q) <==> p == q
    ensures Split(NameOf(p), '/') == p
  {
    hide Split, Join;
    forall c | c in p ensures '/' !in c { assert ValidComponent(c); }
    forall c | c in q ensures '/' !in c { assert ValidComponent(c); }
    SplitJoin(p, '/');
    SplitJoin(q, '/');
  }

  /** Two entries of the sources share an archive path only if they are the same entry of the same
      source. */
  lemma ArchivePathIsInjective(t: Tree, sources: seq<Source>, i: nat, j: nat, p: Path, q: Path)
    requires Sound(t) && WellFormedSources(sources) && i < |sources| && j < |sources|
    requires p in EntriesOf(t, sources[i].path) && q in EntriesOf(t, sources[j].path)
    requires ArchivePath(sources[i], p) == ArchivePath(sources[j], q)
    ensures i == j && p == q
  {
    hide ValidComponent;
    ArchivePathIsProper(t, sources[i], p);
    ArchivePathIsProper(t, sources[j], q);
    var a, b := ArchivePath(sources[i], p), ArchivePath(sources[j], q);
    assert a[0] == sources[i].name && b[0] == sources[j].name;
    if i == j && p != sources[i].path {
      assert a[1..] == p[|sources[i].path|..] && b[1..] == q[|sources[i].path|..];
      assert p == sources[i].path + a[1..] && q == sources[i].path + b[1..];
    }
  }

  /* ---- create ---- */

  function EntryFor(source: Source, item: Item, sum: Bytes -> string): ManifestEntry
    requires !item.ManifestItem?
  {
    if item.FileItem? then ManifestEntry(source.name, item.name, true, |item.data|, sum(item.data))
    else ManifestEntry(source.name, item.name, false, 0, "")
  }

  /** Archived items and manifest entries side by side. */
  ghost predicate Paired(items: seq<Item>, entries: seq<ManifestEntry>, sum: Bytes -> string) {
    && |items| == |entries|
    && forall k :: 0 <= k < |items| ==>
         && !items[k].ManifestItem? && entries[k].isFile == items[k].FileItem? && entries[k].path == items[k].name
         && entries[k].size == (if items[k].FileItem? then |items[k].data| else 0)
         && entries[k].sum == (if items[k].FileItem? then sum(items[k].data) else "")
         && entries[k].source + "/" <= items[k].name && '/' !in entries[k].source
  }

  /** An entry of the backup: the index of its source, and its path. */
  datatype Origin = Origin(index: nat, path: Path)

  ghost predicate IsOrigin(t: Tree, sources: seq<Source>, o: Origin)
    ensures IsOrigin(t, sources, o) ==> o.index < |sources| && o.path != [] && sources[o.index].path <= o.path
  {
    o.index < |sources| && o.path in EntriesOf(t, sources[o.index].path) && (o.path in t.files || o.path in t.dirs) && o.path != []
    && sources[o.index].path <= o.path
  }

  ghost function ItemOf(t: Tree, sources: seq<Source>, o: Origin): (item: Item)
    requires IsOrigin(t, sources, o)
    ensures !item.ManifestItem?
  {
    ItemAt(t, sources[o.index], o.path)
  }

  /** addPath: a header for a directory, the contents too for a file. */
  function ItemAt(t: Tree, source: Source, q: Path): (item: Item)
    requires q != [] && source.path <= q
    ensures !item.ManifestItem?
  {
    var name := NameOf(ArchivePath(source, q));
    if q in t.files then FileItem(name, t.files[q]) else DirItem(name)
  }

  /** The archived items are those of the origins, in that order, none of them twice. */
  ghost predicate Archived(t: Tree, sources: seq<Source>, items: seq<Item>, origins: seq<Origin>) {
    && |items| == |origins|
    && (forall k :: 0 <= k < |items| ==> IsOrigin(t, sources, origins[k]) && items[k] == ItemOf(t, sources, origins[k]))
    && forall k, l :: 0 <= k < l < |origins| ==> origins[k] != origins[l]
  }

  /** Every entry of the first n sources, and of source n those not in `todo`, is among the origins,
      and no entry of a later source is. */
  ghost predicate UpTo(t: Tree, sources: seq<Source>, n: nat, todo: set<Path>, origins: seq<Origin>) {
    && (forall o :: IsOrigin(t, sources, o) && (o.index < n || (o.index == n && o.path !in todo)) ==> o in origins)
    && forall o :: o in origins ==> o.index < n || (o.index == n && o.path !in todo)
  }

  ghost predicate Complete(t: Tree, sources: seq<Source>, origins: seq<Origin>) {
    forall o :: IsOrigin(t, sources, o) ==> o in origins
  }

  /** A source that can be archived: it has a name, and its path leads to something, or to nothing
      when the source is optional.  A path below a file is an error either way. */
  predicate Usable(t: Tree, source: Source) {
    source.name != "" && (Exists(t, source.path) || (!source.required && !UnderFile(t, source.path)))
  }

  datatype Created = NoName | NoSource | Made(archive: Archive)

  /** Archives the sources one after the other and puts the manifest last. */
  method Create(t: Tree, sources: seq<Source>, sum: Bytes -> string)
    returns (result: Created, ghost items: seq<Item>, ghost origins: seq<Origin>)
    requires Sound(t)
    requires forall s :: s in sources ==> s.name == "" || ValidComponent(s.name)
    ensures result.Made? <==> forall k :: 0 <= k < |sources| ==> Usable(t, sources[k])
    ensures !result.Made? ==>
              exists k :: 0 <= k < |sources| && !Usable(t, sources[k])
                          && (forall j :: 0 <= j < k ==> Usable(t, sources[j]))
                          && result == if sources[k].name == "" then NoName else NoSource
    ensures result.Made? ==>
              && Archived(t, sources, items, origins) && Complete(t, sources, origins)
              && result.archive != [] && items == result.archive[..|result.archive|-1]
              && var last := result.archive[|result.archive|-1];
                 last.ManifestItem? && last.manifest.version == 1 && Paired(items, last.manifest.entries, sum)
  {
    hide *;
    var archive: Archive := [];
    var entries: seq<ManifestEntry> := [];
    items, origins := [], [];
    var i := 0;
    NothingArchived(t, sources, sum);
    while i < |sources|
      invariant 0 <= i <= |sources|
      invariant archive == items && Archived(t, sources, items, origins) && Paired(items, entries, sum)
      invariant UpTo(t, sources, i, EntriesAt(t, sources, i), origins)
      invariant forall k :: 0 <= k < i ==> Usable(t, sources[k])
    {
      var source := sources[i];
      UsableIs(t, source);
      if source.name == "" {
        return NoName, items, origins;
      }
      if !Exists(t, source.path) && (source.required || UnderFile(t, source.path)) {
        return NoSource, items, origins;
      }
      EntriesAtIs(t, sources, i);
      var todo := EntriesOf(t, source.path);
      while todo != {}
        invariant archive == items && Archived(t, sources, items, origins) && Paired(items, entries, sum)
        invariant todo <= EntriesOf(t, source.path) && UpTo(t, sources, i, todo, origins)
        decreases todo
      {
        var q :| q in todo;
        ArchivePathIsProper(t, source, q);
        var item := ItemAt(t, source, q);
        AddPath(t, sources, i, todo, items, origins, entries, q, sum);
        archive := archive + [item];
        entries := entries + [EntryFor(source, item, sum)];
        items := items + [item];
        origins := origins + [Origin(i, q)];
        todo := todo - {q};
      }
      NextSource(t, sources, i, origins);
      i := i + 1;
    }
    AllSources(t, sources, origins);
    result := Made(archive + [ManifestItem(Manifest(1, entries))]);
    assert result.archive[..|result.archive|-1] == items;
  }

  function EntriesAt(t: Tree, sources: seq<Source>, i: nat): set<Path> {
    if i < |sources| then EntriesOf(t, sources[i].path) else {}
  }

  lemma EntriesAtIs(t: Tree, sources: seq<Source>, i: nat)
    requires i < |sources|
    ensures EntriesAt(t, sources, i) == EntriesOf(t, sources[i].path)
  {
  }

  lemma NothingArchived(t: Tree, sources: seq<Source>, sum: Bytes -> string)
    ensures Archived(t, sources, [], []) && Paired([], [], sum) && UpTo(t, sources, 0, EntriesAt(t, sources, 0), [])
  {
  }

  lemma UsableIs(t: Tree, source: Source)
    ensures Usable(t, source) <==>
              source.name != "" && !(!Exists(t, source.path) && (source.required || UnderFile(t, source.path)))
  {
  }

  lemma AddPath(t: Tree, sources: seq<Source>, i: nat, todo: set<Path>, items: seq<Item>, origins: seq<Origin>,
                entries: seq<ManifestEntry>, q: Path, sum: Bytes -> string)
    requires Sound(t) && i < |sources| && ValidComponent(sources[i].name)
    requires Archived(t, sources, items, origins) && Paired(items, entries, sum) && UpTo(t, sources, i, todo, origins)
    requires q in todo && todo <= EntriesOf(t, sources[i].path)
    ensures q != [] && sources[i].path <= q
    ensures var item := ItemAt(t, sources[i], q);
            && Archived(t, sources, items + [item], origins + [Origin(i, q)])
            && Paired(items + [item], entries + [EntryFor(sources[i], item, sum)], sum)
            && UpTo(t, sources, i, todo - {q}, origins + [Origin(i, q)])
  {
    hide ValidComponent, ArchivePath, NameOf, EntriesOf;
    ArchivePathIsProper(t, sources[i], q);
    SourceIsFirst(sources[i], q);
    var o := Origin(i, q);
    assert IsOrigin(t, sources, o) && o !in origins;
    assert forall x :: x in origins + [o] <==> x in origins || x == o;
    assert forall k :: 0 <= k < |origins| ==> origins[k] in origins;
  }

  /** The name of an entry begins with its source's. */
  lemma SourceIsFirst(source: Source, q: Path)
    requires q != [] && source.path <= q && ValidComponent(source.name) && |ArchivePath(source, q)| >= 2
    ensures source.name + "/" <= NameOf(ArchivePath(source, q)) && '/' !in source.name
  {
  }

  lemma NextSource(t: Tree, sources: seq<Source>, i: nat, origins: seq<Origin>)
    requires i < |sources| && UpTo(t, sources, i, {}, origins)
    ensures UpTo(t, sources, i + 1, EntriesAt(t, sources, i + 1), origins)
  {
    hide EntriesOf;
  }

  lemma AllSources(t: Tree, sources: seq<Source>, origins: seq<Origin>)
    requires UpTo(t, sources, |sources|, EntriesAt(t, sources, |sources|), origins)
    ensures Complete(t, sources, origins)
  {
    hide EntriesOf;
  }

  lemma LongNameHasSlash(p: Path)
    requires |p| >= 2
    ensures '/' in NameOf(p)
  {
    assert NameOf(p)[|p[0]|] == '/';
  }

  lemma ManifestHasNoSlash()
    ensures '/' !in ManifestPath()
  {
  }

  /** No two archived items have the same name, and none has that of the manifest. */
  lemma NamesAreUnique(t: Tree, sources: seq<Source>, items: seq<Item>, origins: seq<Origin>)
    requires Sound(t) && WellFormedSources(sources) && Archived(t, sources, items, origins)
    ensures forall k :: 0 <= k < |items| ==> !items[k].ManifestItem?
    ensures forall k, l :: 0 <= k < l < |items| ==> items[k].name != items[l].name
    ensures forall k :: 0 <= k < |items| ==> items[k].name != ManifestPath()
  {
    hide ValidComponent, ArchivePath, NameOf, EntriesOf, ManifestPath;
    forall k | 0 <= k < |items|
      ensures items[k].name != ManifestPath()
    {
      var o := origins[k];
      assert ValidComponent(sources[o.index].name);
      ArchivePathIsProper(t, sources[o.index], o.path);
      LongNameHasSlash(ArchivePath(sources[o.index], o.path));
      ManifestHasNoSlash();
    }
    forall k, l | 0 <= k < l < |items|
      ensures items[k].name != items[l].name
    {
      var o, u := origins[k], origins[l];
      assert ValidComponent(sources[o.index].name) && ValidComponent(sources[u.index].name);
      ArchivePathIsProper(t, sources[o.index], o.path);
      ArchivePathIsProper(t, sources[u.index], u.path);
      NameIsInjective(ArchivePath(sources[o.index], o.path), ArchivePath(sources[u.index], u.path));
      if ArchivePath(sources[o.index], o.path) == ArchivePath(sources[u.index], u.path) {
        ArchivePathIsInjective(t, sources, o.index, u.index, o.path, u.path);
      }
    }
  }

  /* ---- verify ---- */

  datatype FileSum = FileSum(size: nat, sum: string)

  function ItemName(item: Item): string {
    if item.ManifestItem? then ManifestPath() else item.name
  }

  ghost predicate AllSafe(archive: Archive) {
    forall item :: item in archive ==> SafeName(ItemName(item))
  }

  /** The manifest that is read last. */
  function LastManifest(archive: Archive): (m: Option<Manifest>) {
    if archive == [] then None
    else if archive[|archive|-1].ManifestItem? then Some(archive[|archive|-1].manifest)
    else LastManifest(archive[..|archive|-1])
  }

  /** The files by name; a later file of the same name replaces an earlier one. */
  function SumsByName(archive: Archive, sum: Bytes -> string): map<string, FileSum> {
    if archive == [] then map[]
    else
      var before, item := SumsByName(archive[..|archive|-1], sum), archive[|archive|-1];
      if item.FileItem? then before[item.name := FileSum(|item.data|, sum(item.data))] else before
  }

  predicate EntryHolds(e: ManifestEntry, sums: map<string, FileSum>) {
    e.isFile ==> e.path in sums && sums[e.path] == FileSum(e.size, e.sum)
  }

  ghost predicate Accepts(archive: Archive, sum: Bytes -> string) {
    && AllSafe(archive)
    && LastManifest(archive).Some? && LastManifest(archive).value.version == 1
    && forall e :: e in LastManifest(archive).value.entries ==> EntryHolds(e, SumsByName(archive, sum))
  }

  datatype Summary = Summary(files: nat, bytes: nat, entries: nat)

  function Summarize(entries: seq<ManifestEntry>): Summary {
    if entries == [] then Summary(0, 0, 0)
    else
      var s, e := Summarize(entries[..|entries|-1]), entries[|entries|-1];
      if e.isFile then Summary(s.files + 1, s.bytes + e.size, s.entries + 1) else s.(entries := s.entries + 1)
  }

  /** readArchive: the manifest read last and the sizes and sums by name, if every name is safe. */
  method ReadArchive(archive: Archive, sum: Bytes -> string)
    returns (safe: bool, manifest: Option<Manifest>, sums: map<string, FileSum>)
    ensures safe <==> AllSafe(archive)
    ensures safe ==> manifest == LastManifest(archive) && sums == SumsByName(archive, sum)
  {
    hide *;
    manifest, sums := None, map[];
    NothingRead(sum);
    var i := 0;
    while i < |archive|
      invariant 0 <= i <= |archive| && forall k :: 0 <= k < i ==> SafeName(ItemName(archive[k]))
      invariant manifest == LastManifest(archive[..i]) && sums == SumsByName(archive[..i], sum)
    {
      var item := archive[i];
      ReadStep(archive, i, sum);
      if !SafeName(ItemName(item)) {
        SafeNames(archive);
        return false, manifest, sums;
      }
      if item.ManifestItem? {
        manifest := Some(item.manifest);
      } else if item.FileItem? {
        sums := sums[item.name := FileSum(|item.data|, sum(item.data))];
      }
      i := i + 1;
    }
    assert archive[..i] == archive;
    SafeNames(archive);
    safe := true;
  }

  lemma NothingRead(sum: Bytes -> string)
    ensures LastManifest([]) == None && SumsByName([], sum) == map[]
  {
  }

  lemma SafeNames(archive: Archive)
    ensures AllSafe(archive) <==> forall k :: 0 <= k < |archive| ==> SafeName(ItemName(archive[k]))
  {
    hide SafeName;
  }

  lemma ReadStep(archive: Archive, i: nat, sum: Bytes -> string)
    requires i < |archive|
    ensures LastManifest(archive[..i+1]) ==
            if archive[i].ManifestItem? then Some(archive[i].manifest) else LastManifest(archive[..i])
    ensures SumsByName(archive[..i+1], sum) ==
            var sums := SumsByName(archive[..i], sum);
            if archive[i].FileItem? then sums[archive[i].name := FileSum(|archive[i].data|, sum(archive[i].data))] else sums
  {
    assert archive[..i+1][..i] == archive[..i];
  }

  method Verify(archive: Archive, sum: Bytes -> string) returns (result: Option<Summary>)
    ensures result.Some? <==> Accepts(archive, sum)
    ensures result.Some? ==> result.value == Summarize(LastManifest(archive).value.entries)
  {
    hide AllSafe, LastManifest, SumsByName, Summarize, EntryHolds;
    var safe, manifest, sums := ReadArchive(archive, sum);
    if !safe || manifest == None || manifest.value.version != 1 {
      return None;
    }
    var entries := manifest.value.entries;
    var summary := Summary(0, 0, 0);
    NothingSummarized();
    var k := 0;
    while k < |entries|
      invariant 0 <= k <= |entries|
      invariant forall e :: e in entries[..k] ==> EntryHolds(e, sums)
      invariant summary == Summarize(entries[..k])
    {
      var e := entries[k];
      SummarizeStep(entries, k, sums);
      if !e.isFile {
        summary := summary.(entries := summary.entries + 1);
      } else {
        if e.path !in sums || sums[e.path].size != e.size || sums[e.path].sum != e.sum {
          assert e in entries;
          return None;
        }
        summary := Summary(summary.files + 1, summary.bytes + e.size, summary.entries + 1);
      }
      k := k + 1;
    }
    assert entries[..k] == entries;
    result := Some(summary);
  }

  lemma NothingSummarized()
    ensures Summarize([]) == Summary(0, 0, 0)
  {
  }

  lemma SummarizeStep(entries: seq<ManifestEntry>, k: nat, sums: map<string, FileSum>)
    requires k < |entries|
    ensures entries[..k+1] == entries[..k] + [entries[k]]
    ensures EntryHolds(entries[k], sums) <==>
              entries[k].isFile ==> entries[k].path in sums && sums[entries[k].path].size == entries[k].size
                                    && sums[entries[k].path].sum == entries[k].sum
    ensures Summarize(entries[..k+1]) ==
            var s := Summarize(entries[..k]);
            if entries[k].isFile then Summary(s.files + 1, s.bytes + entries[k].size, s.entries + 1)
            else s.(entries := s.entries + 1)
  {
    assert entries[..k+1] == entries[..k] + [entries[k]] && entries[..k+1][..k] == entries[..k];
  }

  /* ---- what was created is what is accepted ---- */

  function TotalSize(items: seq<Item>): nat {
    if items == [] then 0
    else TotalSize(items[..|items|-1]) + if items[|items|-1].FileItem? then |items[|items|-1].data| else 0
  }

  function FileCount(items: seq<Item>): nat {
    if items == [] then 0
    else FileCount(items[..|items|-1]) + if items[|items|-1].FileItem? then 1 else 0
  }

  /** The names of a created archive other than the manifest's, as verification reads them. */
  predicate NamesAreSafe(items: seq<Item>) {
    forall k :: 0 <= k < |items| ==> SafeName(ItemName(items[k]))
  }

  lemma PlainNameIsSafe(name: string)
    requires name != "" && !IsSpace(name[0]) && !IsSpace(name[|name|-1]) && name[0] != '.' && '/' !in name
    ensures SafeName(name)
  {
    hide TrimSpace, Contains, IsSpace;
    TrimNothing(name);
    if Contains(name, "../") {
      assert '/' == "../"[2];
      ContainsItsChars(name, "../", '/');
    }
  }

  lemma ManifestPathIsSafe()
    ensures ManifestPath() == "proidentity-backup-manifest.json" && SafeName("proidentity-backup-manifest.json")
  {
    hide SafeName;
    PlainNameIsSafe(ManifestPath());
  }

  /** What makes a name safe, letter by letter: between its blanks something is left that begins with
      neither "/" nor ".." and in which ".." is nowhere followed by "/". */
  lemma SafeNameIs(left: string, n: string, right: string)
    requires AllBlank(left) && AllBlank(right)
    requires n == "" || (!IsSpace(n[0]) && !IsSpace(n[|n|-1]))
    ensures SafeName(left + n + right) <==>
              && n != "" && n[0] != '/' && !(|n| >= 2 && n[0] == n[1] == '.')
              && forall k :: 0 <= k < |n| - 2 ==> !(n[k] == n[k+1] == '.' && n[k+2] == '/')
  {
    hide AllBlank, IsSpace, TrimSpace, Contains;
    TrimsTo(left, n, right);
    if Contains(n, "../") {
      var k := ContainedAt(n, "../");
      assert n[k..][0] == n[k] && n[k..][1] == n[k+1] && n[k..][2] == n[k+2];
    }
    if k :| 0 <= k < |n| - 2 && n[k] == n[k+1] == '.' && n[k+2] == '/' {
      assert n[k..][..3] == "../";
      ContainsAt(n, "../", k);
    }
    assert |n| >= 2 ==> (".." <= n <==> n[..2] == "..");
  }

  lemma {:induction false} SumsAre(items: seq<Item>, sum: Bytes -> string)
    requires forall k :: 0 <= k < |items| ==> !items[k].ManifestItem?
    requires forall k, l :: 0 <= k < l < |items| ==> items[k].name != items[l].name
    ensures forall k :: 0 <= k < |items| && items[k].FileItem? ==>
              && items[k].name in SumsByName(items, sum)
              && SumsByName(items, sum)[items[k].name] == FileSum(|items[k].data|, sum(items[k].data))
  {
    if items != [] {
      SumsAre(items[..|items|-1], sum);
    }
  }

  lemma {:induction false} SummarizeIs(items: seq<Item>, entries: seq<ManifestEntry>, sum: Bytes -> string)
    requires Paired(items, entries, sum)
    ensures Summarize(entries) == Summary(FileCount(items), TotalSize(items), |items|)
  {
    if items != [] {
      SummarizeIs(items[..|items|-1], entries[..|entries|-1], sum);
    }
  }

  /** Verification accepts a created archive exactly when the names of its files and directories are
      safe; it then counts every one of them once, and the sizes of the files. */
  lemma CreatedIsAccepted(t: Tree, sources: seq<Source>, items: seq<Item>, origins: seq<Origin>, m: Manifest,
                          sum: Bytes -> string)
    requires Sound(t) && WellFormedSources(sources) && Archived(t, sources, items, origins)
    requires m.version == 1 && Paired(items, m.entries, sum)
    ensures var archive := items + [ManifestItem(m)];
            && LastManifest(archive) == Some(m)
            && (Accepts(archive, sum) <==> NamesAreSafe(items))
            && Summarize(m.entries) == Summary(FileCount(items), TotalSize(items), |origins|)
  {
    hide SafeName, Archived, Sound, WellFormedSources, Paired, Summarize, TotalSize, FileCount, SumsByName, LastManifest,
      NamesAreSafe, AllSafe;
    var archive := items + [ManifestItem(m)];
    NamesAreUnique(t, sources, items, origins);
    SumsAre(items, sum);
    SummarizeIs(items, m.entries, sum);
    ArchivedLength(t, sources, items, origins);
    assert archive[..|items|] == items && archive[..|items|+1] == archive && archive[|items|] == ManifestItem(m);
    ReadStep(archive, |items|, sum);
    AllSafeWith(items, m);
    forall e | e in m.entries
      ensures EntryHolds(e, SumsByName(archive, sum))
    {
      var k :| 0 <= k < |m.entries| && m.entries[k] == e;
      PairedAt(items, m.entries, sum, k);
    }
  }

  lemma ArchivedLength(t: Tree, sources: seq<Source>, items: seq<Item>, origins: seq<Origin>)
    requires Archived(t, sources, items, origins)
    ensures |items| == |origins|
  {
  }

  lemma AllSafeWith(items: seq<Item>, m: Manifest)
    ensures AllSafe(items + [ManifestItem(m)]) <==> NamesAreSafe(items)
  {
    hide SafeName;
    var archive := items + [ManifestItem(m)];
    ManifestPathIsSafe();
    SafeNames(archive);
    assert archive[|items|] == ManifestItem(m) && forall k :: 0 <= k < |items| ==> archive[k] == items[k];
  }

  lemma PairedAt(items: seq<Item>, entries: seq<ManifestEntry>, sum: Bytes -> string, k: nat)
    requires Paired(items, entries, sum) && k < |entries|
    ensures |items| == |entries| && !items[k].ManifestItem? && entries[k].isFile == items[k].FileItem?
    ensures entries[k].path == items[k].name
    ensures items[k].FileItem? ==> entries[k].size == |items[k].data| && entries[k].sum == sum(items[k].data)
  {
  }

  lemma UnsafeName()
    ensures !SafeName("s/foo../x")
  {
    hide Contains, TrimSpace;
    var name := "s/foo../x";
    TrimNothing(name);
    assert name[5..] == "../x" && "../x"[..3] == "../";
    ContainsAt(name, "../", 5);
  }

  lemma JoinThree(a: string, b: string, c: string)
    ensures Join([a, b, c], '/') == a + "/" + b + "/" + c
  {
    assert [a, b, c][1..] == [b, c] && [b, c][1..] == [c];
    assert Join([b, c], '/') == b + "/" + c;
  }

  /** Verification can refuse what was created, although the names of all files are safe: below a
      directory named "foo.." the name of an empty directory holds "../". */
  lemma CreatedCanBeRefused(data: Bytes)
    ensures var t := Tree(map[["d", "a"] := data], {["d"], ["d", "foo.."], ["d", "foo..", "x"]});
            var source := Source("s", ["d"], false);
            && Sound(t) && WellFormedSources([source])
            && EntriesOf(t, ["d"]) == {["d", "a"], ["d", "foo.."], ["d", "foo..", "x"]}
            && SafeName(NameOf(ArchivePath(source, ["d", "a"])))
            && !SafeName(NameOf(ArchivePath(source, ["d", "foo..", "x"])))
  {
    hide SafeName, NameOf, ArchivePath;
    var t := Tree(map[["d", "a"] := data], {["d"], ["d", "foo.."], ["d", "foo..", "x"]});
    FooTreeIsSound(t, data);
    FooEntries(t, data);
    FooNames();
    UnsafeName();
    PlainPathIsSafe();
  }

  lemma FooEntries(t: Tree, data: Bytes)
    requires t == Tree(map[["d", "a"] := data], {["d"], ["d", "foo.."], ["d", "foo..", "x"]})
    ensures EntriesOf(t, ["d"]) == {["d", "a"], ["d", "foo.."], ["d", "foo..", "x"]}
    ensures ["d"] <= ["d", "a"] && ["d"] <= ["d", "foo..", "x"]
  {
    assert ["d"] <= ["d", "a"] && ["d"] <= ["d", "foo.."] && ["d"] <= ["d", "foo..", "x"];
    assert |["d", "a"]| == 2 && |["d", "foo.."]| == 2 && |["d"]| == 1;
  }

  lemma FooTreeIsSound(t: Tree, data: Bytes)
    requires t == Tree(map[["d", "a"] := data], {["d"], ["d", "foo.."], ["d", "foo..", "x"]})
    ensures Sound(t)
  {
    hide Ancestors;
    OneAbove("d", "a");
    OneAbove("d", "foo..");
    NoneAbove("d");
    TwoAbove("d", "foo..", "x");
    assert ["d", "a"][1] == "a" && ["d", "foo.."][1] == "foo..";
  }

  lemma NoneAbove(a: string)
    ensures Ancestors([a]) == {}
  {
  }

  lemma OneAbove(a: string, b: string)
    ensures Ancestors([a, b]) == {[a]}
  {
    assert [a, b][..1] == [a];
  }

  lemma TwoAbove(a: string, b: string, c: string)
    ensures Ancestors([a, b, c]) == {[a], [a, b]}
  {
    assert [a, b, c][..1] == [a] && [a, b, c][..2] == [a, b];
  }

  lemma JoinTwo(a: string, b: string)
    ensures NameOf([a, b]) == a + "/" + b
  {
    assert [a, b][1..] == [b] && Join([b], '/') == b;
  }

  lemma FooNames()
    ensures ["d"] <= ["d", "a"] && ["d"] <= ["d", "foo..", "x"]
    ensures var source := Source("s", ["d"], false);
            && NameOf(ArchivePath(source, ["d", "a"])) == "s/a"
            && NameOf(ArchivePath(source, ["d", "foo..", "x"])) == "s/foo../x"
  {
    hide NameOf, Join;
    var source := Source("s", ["d"], false);
    assert ["d", "a"][1..] == ["a"] && ["d", "foo..", "x"][1..] == ["foo..", "x"];
    assert ArchivePath(source, ["d", "a"]) == ["s", "a"];
    assert ArchivePath(source, ["d", "foo..", "x"]) == ["s", "foo..", "x"];
    JoinTwo("s", "a");
    NameOfThree("s", "foo..", "x");
    assert "s" + "/" + "a" == "s/a" && "s" + "/" + "foo.." + "/" + "x" == "s/foo../x";
  }

  lemma NameOfThree(a: string, b: string, c: string)
    ensures NameOf([a, b, c]) == a + "/" + b + "/" + c
  {
    JoinThree(a, b, c);
  }

  lemma PlainPathIsSafe()
    ensures SafeName("s/a")
  {
    hide Contains, TrimSpace;
    TrimNothing("s/a");
    assert '.' !in "s/a" && '.' == "../"[0];
    if Contains("s/a", "../") {
      ContainsItsChars("s/a", "../", '.');
    }
  }
}
