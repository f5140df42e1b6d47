/** Trees of regular files and directories, as far as creating, archiving and restoring them goes.
    A path is its sequence of components; the root, [], always exists and is not listed. */
module FileTree {
  import opened EncryptedArchive

  type Path = seq<string>

  datatype Tree = Tree(files: map<Path, Bytes>, dirs: set<Path>)

  function EmptyTree(): Tree { Tree(map[], {}) }

  predicate ValidComponent(c: string) {
    c != "" && '/' !in c && c != "." && c != ".."
  }

  predicate ProperPath(p: Path) {
    forall c :: c in p ==> ValidComponent(c)
  }

  predicate Below(p: Path, q: Path) {
    p <= q && p != q
  }

  /** The directories above a path. */
  function Ancestors(p: Path): set<Path> {
    set n | 0 < n < |p| :: p[..n]
  }

  /** Those, and the path itself. */
  function Prefixes(p: Path): set<Path> {
    set n | 0 < n <= |p| :: p[..n]
  }

  /** Every file and directory lies in directories. */
  ghost predicate Closed(t: Tree) {
    && (forall p :: p in t.files ==> p != [] && ProperPath(p) && Ancestors(p) <= t.dirs)
    && forall d :: d in t.dirs ==> d != [] && ProperPath(d) && Ancestors(d) <= t.dirs
  }

  /** Nothing is both a file and a directory. */
  predicate Apart(t: Tree) {
    forall p :: p in t.files ==> p !in t.dirs
  }

  ghost predicate Sound(t: Tree) {
    Closed(t) && Apart(t)
  }

  predicate IsDir(t: Tree, p: Path) {
    p == [] || p in t.dirs
  }

  predicate Exists(t: Tree, p: Path) {
    IsDir(t, p) || p in t.files
  }

  /** Something above the path is a file: asking about the path is an error, not a missing file. */
  predicate UnderFile(t: Tree, p: Path) {
    exists d :: d in Ancestors(p) && d in t.files
  }

  /* ---- what an operation adds ---- */

  /** A file with the directories above it. */
  function FilePiece(p: Path, data: Bytes): Tree { Tree(map[p := data], Ancestors(p)) }

  /** What os.MkdirAll makes. */
  function DirPiece(p: Path): Tree { Tree(map[], Prefixes(p)) }

  /** Both trees; where both have a file, that of the second. */
  function Merge(a: Tree, b: Tree): Tree { Tree(a.files + b.files, a.dirs + b.dirs) }

  /** Something is a file in one of the trees and a directory in the other. */
  predicate Clash(a: Tree, b: Tree) {
    (exists p :: p in a.files && p in b.dirs) || (exists p :: p in b.files && p in a.dirs)
  }

  /** A file can be written: it is not a directory, and nothing above it is a file. */
  predicate CanWrite(t: Tree, p: Path) {
    p != [] && p !in t.dirs && forall d :: d in Ancestors(p) ==> d !in t.files
  }

  /** A directory can be made: neither it nor anything above it is a file. */
  predicate CanMake(t: Tree, p: Path) {
    forall d :: d in Prefixes(p) ==> d !in t.files
  }

  lemma PrefixesAre(p: Path)
    ensures forall q :: q in Prefixes(p) <==> q != [] && q <= p
    ensures forall q :: q in Ancestors(p) <==> q != [] && Below(q, p)
    ensures p != [] ==> Prefixes(p) == Ancestors(p) + {p}
    ensures p == [] ==> Prefixes(p) == {}
  {
    forall q | q != [] && q <= p
      ensures q in Prefixes(p) && (q != p ==> q in Ancestors(p))
    {
      assert p[..|q|] == q;
    }
  }

  lemma CanWriteIff(t: Tree, p: Path, data: Bytes)
    ensures CanWrite(t, p) <==> p != [] && !Clash(t, FilePiece(p, data))
  {
  }

  lemma CanMakeIff(t: Tree, p: Path)
    ensures CanMake(t, p) <==> !Clash(t, DirPiece(p))
  {
  }

  lemma PieceIsSound(p: Path, data: Bytes)
    requires ProperPath(p)
    ensures p != [] ==> Sound(FilePiece(p, data))
    ensures Sound(DirPiece(p))
  {
    hide ValidComponent;
    PrefixesAre(p);
    forall d | d in Prefixes(p)
      ensures d != [] && ProperPath(d) && Ancestors(d) <= Prefixes(p)
      ensures d != p ==> Ancestors(d) <= Ancestors(p)
    {
      PrefixesAre(d);
      assert forall c :: c in d ==> c in p;
    }
  }

  lemma MergeIsClosed(a: Tree, b: Tree)
    requires Closed(a) && Closed(b)
    ensures Closed(Merge(a, b))
  {
    hide ProperPath, Ancestors;
  }

  lemma ApartMerge(a: Tree, b: Tree)
    ensures Apart(Merge(a, b)) <==> Apart(a) && Apart(b) && !Clash(a, b)
  {
  }

  /** Sound trees merge to a sound tree exactly when they do not clash. */
  lemma MergeIsSoundIff(a: Tree, b: Tree)
    requires Sound(a) && Sound(b)
    ensures Sound(Merge(a, b)) <==> !Clash(a, b)
  {
    hide Closed, Apart, Clash;
    MergeIsClosed(a, b);
    ApartMerge(a, b);
  }

  lemma ClashWithMerge(a: Tree, b: Tree, c: Tree)
    ensures Clash(a, Merge(b, c)) <==> Clash(a, b) || Clash(a, c)
    ensures Clash(Merge(b, c), a) <==> Clash(b, a) || Clash(c, a)
    ensures Clash(a, b) <==> Clash(b, a)
  {
  }

  lemma MergeAssociates(a: Tree, b: Tree, c: Tree)
    ensures Merge(Merge(a, b), c) == Merge(a, Merge(b, c))
  {
    assert (a.files + b.files) + c.files == a.files + (b.files + c.files);
  }

  lemma MergeWithNothing(a: Tree)
    ensures Merge(a, EmptyTree()) == a && Merge(EmptyTree(), a) == a
  {
    assert a.files + map[] == a.files && map[] + a.files == a.files;
  }

  /** The part is contained in the whole. */
  predicate Within(part: Tree, whole: Tree) {
    && (forall p :: p in part.files ==> p in whole.files && whole.files[p] == part.files[p])
    && part.dirs <= whole.dirs
  }

  /** Parts of one sound tree do not clash. */
  lemma PartsDoNotClash(a: Tree, b: Tree, t: Tree)
    requires Sound(t) && Within(a, t) && Within(b, t)
    ensures !Clash(a, b) && Within(Merge(a, b), t)
  {
    hide ProperPath, Ancestors;
  }

  /** Nothing lies below a file. */
  lemma NothingBelowFiles(t: Tree, p: Path, q: Path)
    requires Sound(t) && p in t.files && (q in t.files || q in t.dirs)
    ensures !Below(p, q)
  {
    PrefixesAre(q);
  }

  lemma AboveIsDir(t: Tree, p: Path, q: Path)
    requires Sound(t) && (q in t.files || q in t.dirs) && p != [] && Below(p, q)
    ensures p in t.dirs
  {
    PrefixesAre(q);
  }

  lemma ExistsNotUnderFile(t: Tree, p: Path)
    requires Sound(t) && Exists(t, p)
    ensures !UnderFile(t, p)
  {
    hide ProperPath;
    PrefixesAre(p);
  }
}
