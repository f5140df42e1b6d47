/** What a live restore of a backup puts back: every mapped source, where it came from. */
module BackupRestore {
  import opened Options
  import opened Text
  import opened EncryptedArchive
  import opened FileTree
  import opened BackupArchive
  import opened Unpacking
  import opened LiveRestore

  /** The source, with the directories it lies in. */
  function Original(t: Tree, path: Path): Tree {
    if path in t.files then FilePiece(path, t.files[path])
    else if EntriesOf(t, path) == {} then EmptyTree()
    else Tree(map p | p in t.files && Below(path, p) :: t.files[p], (set d | d in t.dirs && Below(path, d)) + Prefixes(path))
  }

  /** The mapping undoes the archiving of the source: it leads back to its path, and takes the
      archived file or the directory of the source's name, whichever the source was. */
  predicate Undoes(t: Tree, m: LiveMapping, s: Source) {
    && Allowed(m) && Target(m) == s.path && From(m) != [] && From(m)[0] == s.name
    && (s.path in t.files ==> s.path != [] && From(m) == [s.name, s.path[|s.path|-1]])
    && (s.path !in t.files && EntriesOf(t, s.path) != {} ==> From(m) == [s.name])
  }

  /** A staged entry below the mapping's source comes from the mapped source, and goes back to its path. */
  lemma GoesBack(t: Tree, sources: seq<Source>, o: Origin, m: LiveMapping, i: nat)
    requires Sound(t) && WellFormedSources(sources) && IsOrigin(t, sources, o)
    requires i < |sources| && Undoes(t, m, sources[i])
    ensures From(m) <= Place(t, sources, o) <==> o.index == i
    ensures o.index == i ==> Target(m) + Place(t, sources, o)[|From(m)|..] == o.path
  {
    hide ValidComponent, Allowed, From, Target, Sound;
    var s, a := sources[i], Place(t, sources, o);
    PlaceIsProper(t, sources, o);
    if o.index == i {
      assert o.path in EntriesOf(t, s.path);
      if s.path in t.files {
        assert o.path == s.path && a == [s.name, s.path[|s.path|-1]];
      } else {
        assert a == [s.name] + o.path[|s.path|..];
        assert a[1..] == o.path[|s.path|..];
      }
    } else if From(m) <= a {
      FirstComponents(From(m), a);
    }
  }

  /** With all files in place, a mapping copies exactly the files of its source, to where they were. */
  lemma MappingRestoresFiles(t: Tree, sources: seq<Source>, origins: seq<Origin>, staging: Tree, m: LiveMapping, i: nat)
    requires Sound(t) && WellFormedSources(sources) && Complete(t, sources, origins)
    requires InPlace(t, sources, origins, staging) && i < |sources| && Undoes(t, m, sources[i])
    ensures Copied(staging, From(m), Target(m)).files == Original(t, sources[i].path).files
  {
    hide Sound, WellFormedSources, Undoes, From, Target, Copied, Original, IsOrigin, Place, EntriesOf;
    var from, target := From(m), Target(m);
    var copied, back := Copied(staging, from, target).files, Original(t, sources[i].path).files;
    forall p | p in back
      ensures p in copied && copied[p] == back[p]
    {
      OriginalFiles(t, sources[i].path, p);
      var o := Origin(i, p);
      EntryIsOrigin(t, sources, i, p);
      GoesBack(t, sources, o, m, i);
      assert o in origins && IsFileOrigin(t, sources, o);
      CopiedHas(staging, from, target, Place(t, sources, o));
    }
    forall p | p in copied
      ensures p in back
    {
      CopiedIsStaged(staging, from, target, p);
      var a := from + p[|target|..];
      var o :| o in origins && IsFileOrigin(t, sources, o) && Place(t, sources, o) == a;
      assert from <= a && a[|from|..] == p[|target|..];
      GoesBack(t, sources, o, m, i);
      assert target + p[|target|..] == p == o.path;
      OriginEntry(t, sources, o);
      OriginalFiles(t, sources[i].path, p);
    }
  }

  lemma OriginalFiles(t: Tree, path: Path, p: Path)
    ensures p in Original(t, path).files <==> p in t.files && p in EntriesOf(t, path)
    ensures p in Original(t, path).files ==> Original(t, path).files[p] == t.files[p]
  {
    hide Ancestors, Prefixes;
  }

  lemma OriginalDirs(t: Tree, path: Path, d: Path)
    requires path !in t.files && EntriesOf(t, path) != {}
    ensures d in Original(t, path).dirs <==> (d in t.dirs && Below(path, d)) || (d != [] && d <= path)
  {
    hide EntriesOf;
    PrefixesAre(path);
  }

  /** With directories in place too, a mapping copies exactly its source. */
  lemma MappingRestores(t: Tree, sources: seq<Source>, origins: seq<Origin>, staging: Tree, m: LiveMapping, i: nat)
    requires Sound(t) && WellFormedSources(sources) && Complete(t, sources, origins)
    requires InPlace(t, sources, origins, staging) && DirsInPlace(t, sources, staging)
    requires i < |sources| && Undoes(t, m, sources[i])
    ensures Copied(staging, From(m), Target(m)) == Original(t, sources[i].path)
  {
    hide Sound, WellFormedSources, Undoes, From, Target, Copied, Original, InPlace, DirsInPlace, EntriesOf;
    MappingRestoresFiles(t, sources, origins, staging, m, i);
    var path := sources[i].path;
    if path in t.files {
      FileMappingDirs(t, sources, origins, staging, m, i);
    } else if EntriesOf(t, path) == {} {
      EmptyMappingDirs(t, sources, origins, staging, m, i);
    } else {
      var copied, back := Copied(staging, From(m), Target(m)).dirs, Original(t, path).dirs;
      forall d
        ensures d in copied <==> d in back
      {
        DirMappingDirs(t, sources, staging, m, i, d);
      }
      assert copied == back;
    }
  }

  lemma DirMappingDirs(t: Tree, sources: seq<Source>, staging: Tree, m: LiveMapping, i: nat, d: Path)
    requires Sound(t) && WellFormedSources(sources) && DirsInPlace(t, sources, staging)
    requires i < |sources| && Undoes(t, m, sources[i])
    requires sources[i].path !in t.files && EntriesOf(t, sources[i].path) != {}
    ensures d in Copied(staging, From(m), Target(m)).dirs <==> d in Original(t, sources[i].path).dirs
  {
    hide Sound, WellFormedSources, From, Target, Original, EntriesOf, IsOrigin, Place, Allowed, Copied, OfOrigin;
    var from, target := From(m), Target(m);
    var p :| p in EntriesOf(t, sources[i].path);
    EntryIsOrigin(t, sources, i, p);
    assert IsOrigin(t, sources, Origin(i, p)) && from == [sources[i].name] && from in staging.dirs;
    OriginalDirs(t, sources[i].path, d);
    CopiedDirs(staging, from, target, d);
    hide DirsInPlace, Undoes;
    if d in t.dirs && Below(target, d) {
      BackAgain(t, sources, staging, m, i, d);
    }
    if q :| q in staging.dirs && Below(from, q) && d == target + q[|from|..] {
      AndThere(t, sources, staging, m, i, q);
    }
  }

  lemma BackAgain(t: Tree, sources: seq<Source>, staging: Tree, m: LiveMapping, i: nat, d: Path)
    requires Sound(t) && WellFormedSources(sources) && DirsInPlace(t, sources, staging)
    requires i < |sources| && Undoes(t, m, sources[i]) && From(m) == [sources[i].name]
    requires sources[i].path !in t.files && d in t.dirs && Below(sources[i].path, d)
    ensures exists q :: q in staging.dirs && Below(From(m), q) && d == Target(m) + q[|From(m)|..]
  {
    hide Sound, WellFormedSources, From, Target, EntriesOf, IsOrigin, Place, Undoes, OfOrigin;
    DirIsEntry(t, sources[i].path, d);
    var o := Origin(i, d);
    EntryIsOrigin(t, sources, i, d);
    GoesBack(t, sources, o, m, i);
    ManyComponents(t, sources, o);
    assert Place(t, sources, o) in staging.dirs;
  }

  lemma AndThere(t: Tree, sources: seq<Source>, staging: Tree, m: LiveMapping, i: nat, q: Path)
    requires Sound(t) && WellFormedSources(sources) && DirsInPlace(t, sources, staging)
    requires i < |sources| && Undoes(t, m, sources[i]) && From(m) == [sources[i].name]
    requires q in staging.dirs && Below(From(m), q)
    ensures var d := Target(m) + q[|From(m)|..]; d in t.dirs && Below(Target(m), d)
  {
    hide *;
    var o := DirOrigin(t, sources, staging, q);
    LongerIs(From(m), q);
    var rest := q[|From(m)|..];
    LongerThanName(t, sources, o, q);
    GoesBack(t, sources, o, m, i);
    ExtendedIsBelow(Target(m), rest);
  }

  lemma DirOrigin(t: Tree, sources: seq<Source>, staging: Tree, q: Path) returns (o: Origin)
    requires DirsInPlace(t, sources, staging) && q in staging.dirs
    ensures IsOrigin(t, sources, o) && OfOrigin(t, sources, o, q)
  {
    hide IsOrigin, OfOrigin;
    o :| IsOrigin(t, sources, o) && OfOrigin(t, sources, o, q);
  }

  lemma LongerIs(a: Path, q: Path)
    requires |a| == 1 && Below(a, q)
    ensures |q| > 1 && a <= q && q[|a|..] != []
  {
  }

  lemma ExtendedIsBelow(a: Path, rest: Path)
    requires rest != []
    ensures Below(a, a + rest)
  {
  }

  lemma LongerThanName(t: Tree, sources: seq<Source>, o: Origin, q: Path)
    requires IsOrigin(t, sources, o) && OfOrigin(t, sources, o, q) && |q| > 1
    ensures o.path in t.dirs && q == Place(t, sources, o)
  {
    hide IsOrigin, Place;
  }

  lemma DirIsEntry(t: Tree, path: Path, d: Path)
    requires path !in t.files && d in t.dirs && Below(path, d)
    ensures d in EntriesOf(t, path)
  {
  }

  lemma FileMappingDirs(t: Tree, sources: seq<Source>, origins: seq<Origin>, staging: Tree, m: LiveMapping, i: nat)
    requires Sound(t) && WellFormedSources(sources) && Complete(t, sources, origins)
    requires InPlace(t, sources, origins, staging) && DirsInPlace(t, sources, staging)
    requires i < |sources| && Undoes(t, m, sources[i]) && sources[i].path in t.files
    ensures Copied(staging, From(m), Target(m)).dirs == Original(t, sources[i].path).dirs
  {
    hide Sound, WellFormedSources, From, Target, IsOrigin, Allowed, EntriesOf, Copied, Ancestors, Prefixes, DirsInPlace, OfOrigin;
    var from, target, path := From(m), Target(m), sources[i].path;
    var o := Origin(i, path);
    FileEntry(t, path);
    EntryIsOrigin(t, sources, i, path);
    assert IsFileOrigin(t, sources, o) && Place(t, sources, o) == from && target == path;
    assert o in origins && from in staging.files;
    hide Place, InPlace, Undoes;
    NoDirAtFile(t, sources, staging, o);
    PrefixesAre(path);
    forall d
      ensures d in Copied(staging, from, target).dirs <==> d in Ancestors(path)
    {
      CopiedDirs(staging, from, target, d);
    }
  }

  lemma FileEntry(t: Tree, path: Path)
    requires path in t.files
    ensures path in EntriesOf(t, path)
  {
  }

  /** No directory is staged at or below the place of a file. */
  lemma NoDirAtFile(t: Tree, sources: seq<Source>, staging: Tree, o: Origin)
    requires Sound(t) && WellFormedSources(sources) && DirsInPlace(t, sources, staging) && IsFileOrigin(t, sources, o)
    ensures forall q :: q in staging.dirs ==> !(Place(t, sources, o) <= q)
    ensures Place(t, sources, o) != []
  {
    hide Sound, WellFormedSources, IsOrigin, Place, OfOrigin;
    PlaceIsProper(t, sources, o);
    ManyComponents(t, sources, o);
    forall q | q in staging.dirs
      ensures !(Place(t, sources, o) <= q)
    {
      if Place(t, sources, o) <= q {
        var u :| IsOrigin(t, sources, u) && OfOrigin(t, sources, u, q);
        LongerThanName(t, sources, u, q);
        OnlyEntry(t, sources, o, u);
        DirIsNoFile(t, u.path);
        assert false;
      }
    }
  }

  /** A source that is a file has no other entry. */
  lemma OnlyEntry(t: Tree, sources: seq<Source>, o: Origin, u: Origin)
    requires Sound(t) && WellFormedSources(sources) && IsFileOrigin(t, sources, o) && IsOrigin(t, sources, u)
    requires Place(t, sources, o) <= Place(t, sources, u)
    ensures o == u
  {
    hide Sound, WellFormedSources, IsOrigin, Place;
    PlacesDoNotClash(t, sources, o, u);
  }

  lemma EmptyMappingDirs(t: Tree, sources: seq<Source>, origins: seq<Origin>, staging: Tree, m: LiveMapping, i: nat)
    requires Sound(t) && WellFormedSources(sources) && Complete(t, sources, origins)
    requires InPlace(t, sources, origins, staging) && DirsInPlace(t, sources, staging)
    requires i < |sources| && Undoes(t, m, sources[i]) && sources[i].path !in t.files && EntriesOf(t, sources[i].path) == {}
    ensures Copied(staging, From(m), Target(m)).dirs == Original(t, sources[i].path).dirs
  {
    hide Sound, WellFormedSources, From, Target, IsOrigin, Place, Allowed, Prefixes, Ancestors, EntriesOf, Copied, OfOrigin;
    var from, target := From(m), Target(m);
    assert from != [] && from[0] == sources[i].name;
    hide Undoes, DirsInPlace, InPlace;
    forall q | q in staging.dirs
      ensures !(from <= q)
    {
      if from <= q {
        FirstComponents(from, q);
        var u := WhoseDir(t, sources, staging, q);
        NoEntries(t, sources, u, i);
        assert false;
      }
    }
    if from in staging.files {
      var u := WhoseFile(t, sources, origins, staging, from);
      NoEntries(t, sources, u, i);
      assert false;
    }
    forall d
      ensures d !in Copied(staging, from, target).dirs
    {
      CopiedDirs(staging, from, target, d);
    }
  }

  lemma WhoseDir(t: Tree, sources: seq<Source>, staging: Tree, q: Path) returns (u: Origin)
    requires Sound(t) && WellFormedSources(sources) && DirsInPlace(t, sources, staging) && q in staging.dirs
    ensures IsOrigin(t, sources, u) && q != [] && q[0] == sources[u.index].name
  {
    hide *;
    u := DirOrigin(t, sources, staging, q);
    PlaceIsProper(t, sources, u);
    OfOriginStarts(t, sources, u, q);
  }

  lemma OfOriginStarts(t: Tree, sources: seq<Source>, u: Origin, q: Path)
    requires IsOrigin(t, sources, u) && OfOrigin(t, sources, u, q)
    requires Place(t, sources, u) != [] && Place(t, sources, u)[0] == sources[u.index].name
    ensures q != [] && q[0] == sources[u.index].name
  {
    hide IsOrigin, Place;
  }

  lemma WhoseFile(t: Tree, sources: seq<Source>, origins: seq<Origin>, staging: Tree, a: Path) returns (u: Origin)
    requires Sound(t) && WellFormedSources(sources) && InPlace(t, sources, origins, staging) && a in staging.files
    ensures IsOrigin(t, sources, u) && a != [] && a[0] == sources[u.index].name
  {
    hide Sound, WellFormedSources, IsOrigin, Place;
    u :| u in origins && IsFileOrigin(t, sources, u) && Place(t, sources, u) == a;
    PlaceIsProper(t, sources, u);
  }

  lemma NoEntries(t: Tree, sources: seq<Source>, u: Origin, i: nat)
    requires WellFormedSources(sources) && IsOrigin(t, sources, u) && i < |sources| && EntriesOf(t, sources[i].path) == {}
    ensures sources[u.index].name != sources[i].name
  {
    hide ValidComponent;
  }

  /* ---- a whole restore ---- */

  /** What a restore may write and make: the mapped sources, with the directories they lie in. */
  ghost predicate IsMapped(t: Tree, sources: seq<Source>, ms: seq<LiveMapping>, p: Path) {
    exists k, i :: 0 <= k < |ms| && 0 <= i < |sources| && Undoes(t, ms[k], sources[i]) && InOriginal(t, sources[i].path, p)
  }

  predicate InOriginal(t: Tree, path: Path, p: Path) {
    p in Original(t, path).files || p in Original(t, path).dirs
  }

  ghost function Restored(t: Tree, sources: seq<Source>, ms: seq<LiveMapping>): Tree {
    Tree(map p | p in t.files && IsMapped(t, sources, ms, p) :: t.files[p],
         set d | d in t.dirs && IsMapped(t, sources, ms, d))
  }

  ghost predicate LeadsBack(t: Tree, sources: seq<Source>, m: LiveMapping) {
    exists i :: 0 <= i < |sources| && Undoes(t, m, sources[i])
  }

  /** Every mapping leads a source back to where it came from. */
  ghost predicate Mapped(t: Tree, sources: seq<Source>, ms: seq<LiveMapping>) {
    forall k :: 0 <= k < |ms| ==> LeadsBack(t, sources, ms[k])
  }

  lemma OneSource(t: Tree, sources: seq<Source>, m: LiveMapping, i: nat, j: nat)
    requires WellFormedSources(sources) && i < |sources| && j < |sources|
    requires Undoes(t, m, sources[i]) && Undoes(t, m, sources[j])
    ensures i == j
  {
    hide ValidComponent, EntriesOf, Allowed, From, Target;
  }

  lemma MappedNext(t: Tree, sources: seq<Source>, ms: seq<LiveMapping>, i: nat, p: Path)
    requires WellFormedSources(sources) && ms != [] && i < |sources| && Undoes(t, ms[|ms|-1], sources[i])
    ensures IsMapped(t, sources, ms, p) <==> IsMapped(t, sources, ms[..|ms|-1], p) || InOriginal(t, sources[i].path, p)
  {
    hide WellFormedSources, Undoes, InOriginal;
    var before, m := ms[..|ms|-1], ms[|ms|-1];
    if IsMapped(t, sources, ms, p) {
      var k, j :| 0 <= k < |ms| && 0 <= j < |sources| && Undoes(t, ms[k], sources[j]) && InOriginal(t, sources[j].path, p);
      if k < |ms| - 1 {
        assert before[k] == ms[k];
      } else {
        OneSource(t, sources, m, i, j);
      }
    }
    if IsMapped(t, sources, before, p) {
      var k, j :| 0 <= k < |before| && 0 <= j < |sources| && Undoes(t, before[k], sources[j]) && InOriginal(t, sources[j].path, p);
      assert ms[k] == before[k];
    }
  }

  /** What a source was is part of the tree it was archived from. */
  lemma OriginalWithin(t: Tree, path: Path)
    requires Sound(t)
    ensures Within(Original(t, path), t)
    ensures forall p :: InOriginal(t, path, p) && p in t.files ==> p in Original(t, path).files
    ensures forall p :: InOriginal(t, path, p) && p in t.dirs ==> p in Original(t, path).dirs
  {
    hide ProperPath, Ancestors, Prefixes, EntriesOf;
    PrefixesAre(path);
    if path !in t.files && EntriesOf(t, path) != {} {
      var q :| q in EntriesOf(t, path);
      EntryIsBelow(t, path, q);
      forall d | d in Prefixes(path)
        ensures d in t.dirs
      {
        AboveIsDir(t, d, q);
      }
    }
  }

  lemma EntryIsBelow(t: Tree, path: Path, q: Path)
    requires path !in t.files && q in EntriesOf(t, path)
    ensures Below(path, q) && (q in t.files || q in t.dirs)
  {
  }

  lemma RestoredNext(t: Tree, sources: seq<Source>, ms: seq<LiveMapping>, i: nat)
    requires Sound(t) && WellFormedSources(sources)
    requires ms != [] && i < |sources| && Undoes(t, ms[|ms|-1], sources[i])
    ensures Restored(t, sources, ms) == Merge(Restored(t, sources, ms[..|ms|-1]), Original(t, sources[i].path))
  {
    hide Sound, WellFormedSources, Undoes, IsMapped, Original, EntriesOf;
    var before, part := Restored(t, sources, ms[..|ms|-1]), Original(t, sources[i].path);
    OriginalWithin(t, sources[i].path);
    forall p
      ensures IsMapped(t, sources, ms, p) <==> IsMapped(t, sources, ms[..|ms|-1], p) || InOriginal(t, sources[i].path, p)
    {
      MappedNext(t, sources, ms, i, p);
    }
    assert Restored(t, sources, ms).files == before.files + part.files;
    assert Restored(t, sources, ms).dirs == before.dirs + part.dirs;
  }

  lemma NothingMapped(t: Tree, sources: seq<Source>)
    ensures Restored(t, sources, []) == EmptyTree()
  {
  }

  lemma MappedLast(t: Tree, sources: seq<Source>, ms: seq<LiveMapping>)
    requires ms != [] && Mapped(t, sources, ms)
    ensures Mapped(t, sources, ms[..|ms|-1])
    ensures LeadsBack(t, sources, ms[|ms|-1])
  {
    hide LeadsBack;
  }

  /** Restoring a backup whose files are in place over any live tree puts back exactly the files of the
      mapped sources, each at its own path with its own contents, and changes no other file, however
      the targets overlap. */
  lemma {:induction false} FilesThenRestore(t: Tree, sources: seq<Source>, origins: seq<Origin>, staging: Tree,
                                           ms: seq<LiveMapping>, live: Tree)
    requires Sound(t) && WellFormedSources(sources) && Complete(t, sources, origins)
    requires InPlace(t, sources, origins, staging) && Mapped(t, sources, ms)
    ensures Overlaid(live, staging, ms).files == live.files + Restored(t, sources, ms).files
  {
    hide Sound, WellFormedSources, Complete, InPlace, Undoes, IsMapped, Copied, Original, From, Target, Overlaid, Restored, Mapped;
    OverlaidLast(live, staging, ms);
    if ms == [] {
      NothingMapped(t, sources);
      assert live.files + map[] == live.files;
    } else {
      var before, m := ms[..|ms|-1], ms[|ms|-1];
      MappedLast(t, sources, ms);
      FilesThenRestore(t, sources, origins, staging, before, live);
      var i :| 0 <= i < |sources| && Undoes(t, m, sources[i]);
      MappingRestoresFiles(t, sources, origins, staging, m, i);
      RestoredNext(t, sources, ms, i);
      MapsAssociate(live.files, Restored(t, sources, before).files, Original(t, sources[i].path).files);
    }
  }

  lemma MapsAssociate(a: map<Path, Bytes>, b: map<Path, Bytes>, c: map<Path, Bytes>)
    ensures (a + b) + c == a + (b + c)
  {
  }

  /** If its directories are in place too, exactly the mapped sources are put back. */
  lemma {:induction false} BackupThenRestore(t: Tree, sources: seq<Source>, origins: seq<Origin>, staging: Tree,
                                            ms: seq<LiveMapping>, live: Tree)
    requires Sound(t) && WellFormedSources(sources) && Complete(t, sources, origins)
    requires InPlace(t, sources, origins, staging) && DirsInPlace(t, sources, staging) && Mapped(t, sources, ms)
    ensures Overlaid(live, staging, ms) == Merge(live, Restored(t, sources, ms))
  {
    hide Sound, WellFormedSources, Complete, InPlace, DirsInPlace, Undoes, IsMapped, Copied, Original, From, Target, Overlaid,
      Restored, Mapped, Merge;
    OverlaidLast(live, staging, ms);
    if ms == [] {
      NothingMapped(t, sources);
      MergeWithNothing(live);
    } else {
      var before, m := ms[..|ms|-1], ms[|ms|-1];
      MappedLast(t, sources, ms);
      BackupThenRestore(t, sources, origins, staging, before, live);
      var i :| 0 <= i < |sources| && Undoes(t, m, sources[i]);
      MappingRestores(t, sources, origins, staging, m, i);
      RestoredNext(t, sources, ms, i);
      MergeAssociates(live, Restored(t, sources, before), Original(t, sources[i].path));
    }
  }

  /** Whatever leads a source of the backup back can be moved. */
  lemma UndoingIsMovable(t: Tree, sources: seq<Source>, origins: seq<Origin>, staging: Tree, m: LiveMapping, i: nat)
    requires Sound(t) && WellFormedSources(sources) && Complete(t, sources, origins)
    requires InPlace(t, sources, origins, staging) && i < |sources| && Undoes(t, m, sources[i])
    ensures Movable(staging, m)
  {
    hide Sound, WellFormedSources, Complete, InPlace, Copied, From, Target, Ancestors, EntriesOf, SafeName, TrimSpace;
    MappingRestoresFiles(t, sources, origins, staging, m, i);
    NoFileAtRoot(t, sources[i].path);
    PrefixesAre(From(m));
    forall d | d in staging.files && d != []
      ensures d !in Ancestors(From(m))
    {
      NoFileAbove(t, sources, origins, staging, m, i, d);
    }
  }

  lemma NoFileAtRoot(t: Tree, path: Path)
    requires Sound(t)
    ensures [] !in Original(t, path).files
  {
    hide EntriesOf, ProperPath, Ancestors, Prefixes;
    OriginalFiles(t, path, []);
  }

  lemma NoFileAbove(t: Tree, sources: seq<Source>, origins: seq<Origin>, staging: Tree, m: LiveMapping, i: nat, d: Path)
    requires Sound(t) && WellFormedSources(sources) && InPlace(t, sources, origins, staging)
    requires i < |sources| && Undoes(t, m, sources[i]) && d in staging.files && d != []
    ensures !Below(d, From(m))
  {
    hide Sound, WellFormedSources, From, Target, IsOrigin, Place, EntriesOf, Allowed;
    var o :| o in origins && IsFileOrigin(t, sources, o) && Place(t, sources, o) == d;
    hide InPlace;
    PlaceIsProper(t, sources, o);
    ManyComponents(t, sources, o);
    if d <= From(m) {
      FirstComponents(d, From(m));
      SameName(sources, o.index, i);
      OriginEntry(t, sources, o);
      assert |From(m)| <= 2 && |d| > 1;
    }
  }

  lemma SameName(sources: seq<Source>, i: nat, j: nat)
    requires WellFormedSources(sources) && i < |sources| && j < |sources|
    ensures sources[i].name == sources[j].name <==> i == j
  {
    hide ValidComponent;
  }

  /** With the files of the backup in place, every mapping can be moved. */
  lemma BackupIsMovable(t: Tree, sources: seq<Source>, origins: seq<Origin>, staging: Tree, ms: seq<LiveMapping>)
    requires Sound(t) && WellFormedSources(sources) && Complete(t, sources, origins)
    requires InPlace(t, sources, origins, staging) && Mapped(t, sources, ms)
    ensures AllMovable(staging, ms)
  {
    hide Sound, WellFormedSources, Complete, InPlace, Undoes, Movable;
    forall k | 0 <= k < |ms|
      ensures Movable(staging, ms[k])
    {
      assert LeadsBack(t, sources, ms[k]);
      var i :| 0 <= i < |sources| && Undoes(t, ms[k], sources[i]);
      UndoingIsMovable(t, sources, origins, staging, ms[k], i);
    }
  }

  lemma RestoredIsApart(t: Tree, sources: seq<Source>, ms: seq<LiveMapping>)
    requires Sound(t)
    ensures Apart(Restored(t, sources, ms))
  {
    hide IsMapped, Closed;
  }

  /* ---- a backup and its restore, end to end ---- */

  /** What a restore with Overwrite comes to. */
  ghost predicate Restoring(archive: Archive, sum: Bytes -> string, ms: seq<LiveMapping>, live: Tree,
                            restored: Option<Summary>, after: Tree) {
    var staged := Unpacked(EmptyTree(), archive, true);
    && (restored.Some? <==> Accepts(archive, sum) && staged.ok && AllRestorable(live, staged.tree, ms, true))
    && (restored.Some? ==> after == Overlaid(live, staged.tree, ms)
                           && restored.value == Summarize(LastManifest(archive).value.entries))
  }

  /** What it comes to for a backup: it succeeds exactly when the names are safe, the archive can be
      unpacked, every mapping can be moved, and nothing would be both a file and a directory. */
  ghost predicate Outcome(items: seq<Item>, ms: seq<LiveMapping>, live: Tree, restored: Option<Summary>, after: Tree) {
    var staged := Unpacked(EmptyTree(), items, true);
    && (restored.Some? <==>
          NamesAreSafe(items) && staged.ok && AllMovable(staged.tree, ms) && Apart(Overlaid(live, staged.tree, ms)))
    && (restored.Some? ==> after == Overlaid(live, staged.tree, ms)
                           && restored.value == Summary(FileCount(items), TotalSize(items), |items|))
  }

  /** If trimming leaves the names of files alone and no directory lies in the way of one, success takes
      safe names and no clash, and the files put back are those of the mapped sources. */
  ghost predicate FilesPutBack(t: Tree, sources: seq<Source>, items: seq<Item>, ms: seq<LiveMapping>, live: Tree,
                               restored: Option<Summary>, after: Tree) {
    var staged := Unpacked(EmptyTree(), items, true);
    && (restored.Some? <==> NamesAreSafe(items) && Apart(Overlaid(live, staged.tree, ms)))
    && (restored.Some? ==> after.files == live.files + Restored(t, sources, ms).files)
  }

  /** If trimming leaves all names alone, exactly the mapped sources are put back, and nothing but a
      clash of theirs with the live tree can prevent it once the names are safe. */
  ghost predicate PutBack(t: Tree, sources: seq<Source>, items: seq<Item>, ms: seq<LiveMapping>, live: Tree,
                          restored: Option<Summary>, after: Tree) {
    && (restored.Some? <==> NamesAreSafe(items) && !Clash(live, Restored(t, sources, ms)))
    && (restored.Some? ==> after == Merge(live, Restored(t, sources, ms)))
  }

  ghost predicate RestoredAs(t: Tree, sources: seq<Source>, items: seq<Item>, ms: seq<LiveMapping>, live: Tree,
                             restored: Option<Summary>, after: Tree) {
    && Outcome(items, ms, live, restored, after)
    && (PlainFiles(items) && DirsFit(items) ==> FilesPutBack(t, sources, items, ms, live, restored, after))
    && (PlainNames(items) ==> PutBack(t, sources, items, ms, live, restored, after))
  }

  lemma OutcomeOfBackup(t: Tree, sources: seq<Source>, items: seq<Item>, origins: seq<Origin>, m: Manifest,
                        sum: Bytes -> string, ms: seq<LiveMapping>, live: Tree, restored: Option<Summary>, after: Tree)
    requires Sound(t) && Apart(live) && WellFormedSources(sources) && Archived(t, sources, items, origins)
    requires m.version == 1 && Paired(items, m.entries, sum)
    requires Restoring(items + [ManifestItem(m)], sum, ms, live, restored, after)
    ensures Outcome(items, ms, live, restored, after)
  {
    hide Sound, Apart, WellFormedSources, Archived, Paired, Accepts, AllRestorable, AllMovable, Overlaid, NamesAreSafe,
      FileCount, TotalSize, Summarize, LastManifest, Unpacked;
    CreatedIsAccepted(t, sources, items, origins, m, sum);
    ArchivedLength(t, sources, items, origins);
    ManifestIsNotUnpacked(EmptyTree(), items, m, true);
    EmptyIsSound();
    UnpackedIsSound(EmptyTree(), items, true);
    RestoreSucceedsIff(Unpacked(EmptyTree(), items, true).tree, ms, live);
  }

  lemma FilesOfBackup(t: Tree, sources: seq<Source>, items: seq<Item>, origins: seq<Origin>, ms: seq<LiveMapping>, live: Tree,
                      restored: Option<Summary>, after: Tree)
    requires Sound(t) && Apart(live) && WellFormedSources(sources) && Mapped(t, sources, ms)
    requires Archived(t, sources, items, origins) && Complete(t, sources, origins) && PlainFiles(items) && DirsFit(items)
    requires Outcome(items, ms, live, restored, after)
    ensures FilesPutBack(t, sources, items, ms, live, restored, after)
  {
    hide Sound, Apart, WellFormedSources, Mapped, Archived, Complete, PlainFiles, DirsFit, AllMovable, Overlaid, NamesAreSafe,
      FileCount, TotalSize, Unpacked, InPlace, Restored;
    EmptyIsSound();
    UnpackedIsSound(EmptyTree(), items, true);
    PlainFilesStage(t, sources, items, origins);
    var staging := Unpacked(EmptyTree(), items, true).tree;
    BackupIsMovable(t, sources, origins, staging, ms);
    FilesThenRestore(t, sources, origins, staging, ms, live);
  }

  lemma PlainBackup(t: Tree, sources: seq<Source>, items: seq<Item>, origins: seq<Origin>, ms: seq<LiveMapping>, live: Tree,
                    restored: Option<Summary>, after: Tree)
    requires Sound(t) && Apart(live) && WellFormedSources(sources) && Mapped(t, sources, ms)
    requires Archived(t, sources, items, origins) && Complete(t, sources, origins) && PlainNames(items)
    requires Outcome(items, ms, live, restored, after)
    ensures PutBack(t, sources, items, ms, live, restored, after)
  {
    hide Sound, Apart, WellFormedSources, Mapped, Archived, Complete, PlainNames, PlainFiles, DirsFit, AllMovable, Overlaid,
      NamesAreSafe, FileCount, TotalSize, Unpacked, InPlace, DirsInPlace, Restored, Merge, Clash;
    PlainNamesFit(t, sources, items, origins);
    PlainFilesStage(t, sources, items, origins);
    PlainDirsStage(t, sources, items, origins);
    EmptyIsSound();
    UnpackedIsSound(EmptyTree(), items, true);
    var staging := Unpacked(EmptyTree(), items, true).tree;
    BackupIsMovable(t, sources, origins, staging, ms);
    BackupThenRestore(t, sources, origins, staging, ms, live);
    RestoredIsApart(t, sources, ms);
    ApartMerge(live, Restored(t, sources, ms));
  }

  /** The three readings of the outcome hold of every restore of a backup. */
  lemma RestoreOfBackup(t: Tree, sources: seq<Source>, items: seq<Item>, origins: seq<Origin>, m: Manifest,
                        sum: Bytes -> string, ms: seq<LiveMapping>, live: Tree, restored: Option<Summary>, after: Tree)
    requires Sound(t) && Sound(live) && WellFormedSources(sources) && Mapped(t, sources, ms)
    requires Archived(t, sources, items, origins) && Complete(t, sources, origins)
    requires m.version == 1 && Paired(items, m.entries, sum)
    requires Restoring(items + [ManifestItem(m)], sum, ms, live, restored, after)
    ensures RestoredAs(t, sources, items, ms, live, restored, after)
  {
    hide *;
    SoundIsApart(live);
    OutcomeOfBackup(t, sources, items, origins, m, sum, ms, live, restored, after);
    if PlainFiles(items) && DirsFit(items) {
      FilesOfBackup(t, sources, items, origins, ms, live, restored, after);
    }
    if PlainNames(items) {
      PlainBackup(t, sources, items, origins, ms, live, restored, after);
    }
    RestoredAsIs(t, sources, items, ms, live, restored, after);
  }

  lemma SoundIsApart(t: Tree)
    requires Sound(t)
    ensures Apart(t)
  {
  }

  lemma RestoredAsIs(t: Tree, sources: seq<Source>, items: seq<Item>, ms: seq<LiveMapping>, live: Tree,
                     restored: Option<Summary>, after: Tree)
    requires Outcome(items, ms, live, restored, after)
    requires PlainFiles(items) && DirsFit(items) ==> FilesPutBack(t, sources, items, ms, live, restored, after)
    requires PlainNames(items) ==> PutBack(t, sources, items, ms, live, restored, after)
    ensures RestoredAs(t, sources, items, ms, live, restored, after)
  {
    hide Outcome, PlainFiles, DirsFit, FilesPutBack, PlainNames, PutBack;
  }

  method RestoreOver(archive: Archive, sum: Bytes -> string, ms: seq<LiveMapping>, live: Tree)
    returns (restored: Option<Summary>, after: Tree)
    requires Sound(live)
    ensures Restoring(archive, sum, ms, live, restored, after) && SameOutside(live, after, ms) && Sound(after)
  {
    hide Unpacked, Accepts, AllRestorable, Overlaid, Summarize, LastManifest, SameOutside, Sound;
    var disk := new Disk(live);
    restored := disk.RestoreLive(archive, sum, ms, true);
    after := disk.tree;
  }

  /** A backup of t and its restore over another tree. */
  method BackUpAndRestore(t: Tree, sources: seq<Source>, sum: Bytes -> string, ms: seq<LiveMapping>, live: Tree)
    returns (created: Created, restored: Option<Summary>, after: Tree, ghost items: seq<Item>)
    requires Sound(t) && Sound(live) && WellFormedSources(sources) && Mapped(t, sources, ms)
    ensures created.Made? <==> forall k :: 0 <= k < |sources| ==> Usable(t, sources[k])
    ensures created.Made? ==> created.archive != [] && items == created.archive[..|created.archive|-1]
    ensures created.Made? ==> RestoredAs(t, sources, items, ms, live, restored, after)
    ensures SameOutside(live, after, ms) && Sound(after)
  {
    hide *;
    SourcesAreNamed(sources);
    ghost var origins;
    created, items, origins := Create(t, sources, sum);
    restored, after := None, live;
    NothingOverlaid(live, ms);
    if created.Made? {
      restored, after := RestoreOver(created.archive, sum, ms, live);
      ghost var m := created.archive[|items|].manifest;
      assert created.archive == items + [ManifestItem(m)];
      RestoreOfBackup(t, sources, items, origins, m, sum, ms, live, restored, after);
    }
  }

  lemma SourcesAreNamed(sources: seq<Source>)
    requires WellFormedSources(sources)
    ensures forall s :: s in sources ==> s.name == "" || ValidComponent(s.name)
  {
    hide ValidComponent;
  }
}
