// The part of java.io.File the poller uses, over an explicit model of the
// disk: a map from absolute paths to nodes. Each operation that can fail
// on a real system fails here under a condition stated as a predicate; the
// set `pinned` stands for the paths the operating system refuses to delete
// or rename (permissions, open handles, ...).

module Files {
  import opened Text

  /** An absolute path, as the list of its components. */
  type Path = seq<string>

  datatype Node = Node(
    isDir: bool,
    length: int,
    mtime: int,
    hidden: bool,
    readable: bool,
    lines: seq<string>)

  type Nodes = map<Path, Node>

  /** new File(dir, name) */
  function Child(dir: Path, name: string): Path
  {
    dir + [name]
  }

  /** File.getName() */
  function Name(p: Path): string
  {
    if p == [] then "" else p[|p| - 1]
  }

  /** File.getParentFile() */
  function Parent(p: Path): Path
  {
    if p == [] then [] else p[..|p| - 1]
  }

  lemma ChildParts(dir: Path, name: string)
    ensures Parent(Child(dir, name)) == dir && Name(Child(dir, name)) == name
  {
    assert Child(dir, name)[..|dir|] == dir;
  }

  /** File.toString() of an absolute path. */
  function PathString(p: Path): string
  {
    "/" + Join(p, '/')
  }

  /** new File(s): the non-empty components between separators. */
  function ParsePath(s: string): Path
  {
    Tokens(s, '/')
  }

  predicate WellNamed(p: Path)
  {
    Tokenizable(p, '/')
  }

  lemma {:induction false} ParsePathString(p: Path)
    requires WellNamed(p)
    ensures ParsePath(PathString(p)) == p
  {
    var j := Join(p, '/');
    FieldsAfterPiece([], '/', j);
    assert PathString(p) == [] + ['/'] + j;
    assert Fields(PathString(p), '/') == [[]] + Fields(j, '/');
    assert NonEmpty([[]] + Fields(j, '/')) == NonEmpty(Fields(j, '/'));
    TokensOfJoin(p, '/');
  }

  /** p is a itself or lies below it. */
  predicate Under(a: Path, p: Path)
  {
    |a| <= |p| && p[..|a|] == a
  }

  /** The path that p (below a) takes once a has been renamed to b. */
  function Rebased(p: Path, a: Path, b: Path): (r: Path)
    requires Under(a, p)
    ensures Under(b, r) && |r| - |b| == |p| - |a|
  {
    b + p[|a|..]
  }

  predicate IsFile(ns: Nodes, p: Path)
  {
    p in ns && !ns[p].isDir
  }

  predicate IsDirectory(ns: Nodes, p: Path)
  {
    p in ns && ns[p].isDir
  }

  /** File.length(): 0 for a path that does not exist. */
  function Length(ns: Nodes, p: Path): int
  {
    if p in ns then ns[p].length else 0
  }

  /** File.lastModified(): 0 for a path that does not exist. */
  function LastModified(ns: Nodes, p: Path): int
  {
    if p in ns then ns[p].mtime else 0
  }

  predicate IsHidden(ns: Nodes, p: Path)
  {
    p in ns && ns[p].hidden
  }

  predicate CanRead(ns: Nodes, p: Path)
  {
    p in ns && ns[p].readable
  }

  predicate HasChildren(ns: Nodes, p: Path)
  {
    exists q :: q in ns && |q| > |p| && q[..|p|] == p
  }

  /** File.delete() succeeds on an existing, unpinned file or empty directory. */
  predicate CanDelete(ns: Nodes, pinned: set<Path>, p: Path)
  {
    p in ns && p !in pinned && !(ns[p].isDir && HasChildren(ns, p))
  }

  function AfterDelete(ns: Nodes, pinned: set<Path>, p: Path): (r: Nodes)
    ensures p !in r <==> p !in ns || CanDelete(ns, pinned, p)
    ensures forall q :: q != p ==> (q in r <==> q in ns) && (q in r ==> r[q] == ns[q])
  {
    if CanDelete(ns, pinned, p) then ns - {p} else ns
  }

  /**
   * File.renameTo(b): the source exists and is not pinned, the target does
   * not exist and its parent is a directory, and neither lies below the other.
   */
  predicate CanRename(ns: Nodes, pinned: set<Path>, a: Path, b: Path)
  {
    a in ns && a !in pinned && b !in ns && b != []
    && IsDirectory(ns, Parent(b)) && !Under(a, b) && !Under(b, a)
  }

  /** Every node below a, a included, moved to the same place below b. */
  function Moved(ns: Nodes, a: Path, b: Path): Nodes
  {
    RebasedInjective(a, b);
    (map q | q in ns && !Under(a, q) :: ns[q])
    + (map q | q in ns && Under(a, q) :: Rebased(q, a, b) := ns[q])
  }

  function AfterRename(ns: Nodes, pinned: set<Path>, a: Path, b: Path): Nodes
  {
    if CanRename(ns, pinned, a, b) then Moved(ns, a, b) else ns
  }

  lemma RebasedAt(q: Path, a: Path, b: Path, r: Path)
    requires Under(a, q) && Under(a, r)
    requires Rebased(q, a, b) == Rebased(r, a, b)
    ensures q == r
  {
    assert q[|a|..] == Rebased(q, a, b)[|b|..] == r[|a|..];
    assert q == q[..|a|] + q[|a|..];
    assert r == r[..|a|] + r[|a|..];
  }

  lemma RebasedInjective(a: Path, b: Path)
    ensures forall q, r :: Under(a, q) && Under(a, r) && Rebased(q, a, b) == Rebased(r, a, b) ==> q == r
  {
    forall q, r | Under(a, q) && Under(a, r) && Rebased(q, a, b) == Rebased(r, a, b)
      ensures q == r
    {
      RebasedAt(q, a, b, r);
    }
  }

  /** The node that sat at a sits at b, and nothing is left at a. */
  lemma RenameHandsOver(ns: Nodes, pinned: set<Path>, a: Path, b: Path)
    requires CanRename(ns, pinned, a, b)
    ensures var r := AfterRename(ns, pinned, a, b);
      a !in r && b in r && r[b] == ns[a]
  {
    var r := AfterRename(ns, pinned, a, b);
    assert Rebased(a, a, b) == b;
    forall q | q in ns && Under(a, q) && Rebased(q, a, b) == b
      ensures q == a
    {
      RebasedAt(q, a, b, a);
    }
  }

  /** A rename leaves every path outside both subtrees as it was. */
  lemma RenameKeepsOthers(ns: Nodes, pinned: set<Path>, a: Path, b: Path, q: Path)
    requires !Under(a, q) && !Under(b, q)
    ensures var r := AfterRename(ns, pinned, a, b);
      (q in r <==> q in ns) && (q in r ==> r[q] == ns[q])
  {
  }

  /** Nothing on the disk lies at or below p. */
  predicate NothingUnder(ns: Nodes, p: Path)
  {
    forall q :: q in ns ==> !Under(p, q)
  }

  lemma UnderBoth(a: Path, b: Path, k: Path)
    requires Under(a, k) && Under(b, k)
    ensures Under(a, b) || Under(b, a)
  {
    if |a| <= |b| {
      assert b[..|a|] == k[..|b|][..|a|] == k[..|a|];
    } else {
      assert a[..|b|] == k[..|a|][..|b|] == k[..|b|];
    }
  }

  lemma RebasedTwice(k: Path, a: Path, b: Path)
    requires Under(a, k)
    ensures Rebased(Rebased(k, a, b), b, a) == k
  {
    assert k == k[..|a|] + k[|a|..];
  }

  /** Where a key of a moved disk comes from. */
  lemma MovedAt(ns: Nodes, a: Path, b: Path, k: Path)
    ensures var m := Moved(ns, a, b);
      if Under(b, k) then
        var back := a + k[|b|..];
        (k in m <==> (k in ns && !Under(a, k)) || back in ns)
        && (back in ns ==> m[k] == ns[back])
        && (back !in ns && k in m ==> m[k] == ns[k])
      else
        (k in m <==> k in ns && !Under(a, k)) && (k in m ==> m[k] == ns[k])
  {
    RebasedInjective(a, b);
    var m := Moved(ns, a, b);
    if Under(b, k) {
      var back := a + k[|b|..];
      assert Under(a, back);
      assert Rebased(back, a, b) == k by {
        assert k == k[..|b|] + k[|b|..];
      }
      forall r | r in ns && Under(a, r) && Rebased(r, a, b) == k
        ensures r == back
      {
        RebasedAt(r, a, b, back);
      }
    }
  }

  lemma RenameBackAllowed(ns: Nodes, pinned: set<Path>, a: Path, b: Path)
    requires CanRename(ns, pinned, a, b) && b !in pinned
    requires IsDirectory(ns, Parent(a))
    ensures CanRename(AfterRename(ns, pinned, a, b), pinned, b, a)
  {
    RenameHandsOver(ns, pinned, a, b);
    var pa := Parent(a);
    assert a[..|pa|] == pa;
    MovedAt(ns, a, b, pa);
  }

  lemma RenameBackAt(ns: Nodes, pinned: set<Path>, a: Path, b: Path, k: Path)
    requires CanRename(ns, pinned, a, b) && NothingUnder(ns, b)
    ensures var ns2 := Moved(Moved(ns, a, b), b, a);
      (k in ns2 <==> k in ns) && (k in ns2 ==> ns2[k] == ns[k])
  {
    var ns1 := Moved(ns, a, b);
    if Under(a, k) {
      if Under(b, k) {
        UnderBoth(a, b, k);
      }
      var q := Rebased(k, a, b);
      RebasedTwice(k, a, b);
      MovedAt(ns1, b, a, k);
      MovedAt(ns, a, b, k);
      MovedAt(ns, a, b, q);
      assert a + q[|b|..] == k;
      assert b + k[|a|..] == q;
    } else {
      MovedAt(ns1, b, a, k);
      MovedAt(ns, a, b, k);
    }
  }

  /**
   * Renaming a to a fresh b and then b back to a restores the disk exactly
   * (what MovedFile.revert followed by moveAgain does to a moved file).
   */
  lemma RenameBack(ns: Nodes, pinned: set<Path>, a: Path, b: Path)
    requires CanRename(ns, pinned, a, b) && b !in pinned
    requires IsDirectory(ns, Parent(a)) && NothingUnder(ns, b)
    ensures CanRename(AfterRename(ns, pinned, a, b), pinned, b, a)
    ensures AfterRename(AfterRename(ns, pinned, a, b), pinned, b, a) == ns
  {
    RenameBackAllowed(ns, pinned, a, b);
    var ns2 := Moved(Moved(ns, a, b), b, a);
    forall k | true
      ensures (k in ns2 <==> k in ns) && (k in ns2 ==> ns2[k] == ns[k])
    {
      RenameBackAt(ns, pinned, a, b, k);
    }
    assert ns2.Keys == ns.Keys;
  }

  /** File.mkdirs(): nothing on the way is a regular file and p is new. */
  predicate CanMkDirs(ns: Nodes, p: Path)
  {
    p != [] && p !in ns
    && forall k :: 1 <= k < |p| ==> (p[..k] in ns ==> ns[p[..k]].isDir)
  }

  function Ancestry(p: Path): set<Path>
  {
    set k | 1 <= k <= |p| :: p[..k]
  }

  const NewDirectory := Node(true, 0, 0, false, true, [])

  function AfterMkDirs(ns: Nodes, p: Path): (r: Nodes)
    ensures CanMkDirs(ns, p) ==> IsDirectory(r, p)
    ensures forall q :: q in ns ==> q in r && r[q] == ns[q]
  {
    if CanMkDirs(ns, p) then
      assert p == p[..|p|];
      ns + map q | q in Ancestry(p) && q !in ns :: NewDirectory
    else ns
  }

  /** Byte length of a text file written one line after the other. */
  function TextLength(lines: seq<string>): nat
  {
    if lines == [] then 0 else TextLength(lines[..|lines| - 1]) + |lines[|lines| - 1]| + 1
  }

  /** new PrintStream(new FileOutputStream(p)) succeeds and truncates p. */
  predicate CanWrite(ns: Nodes, pinned: set<Path>, p: Path)
  {
    p != [] && IsDirectory(ns, Parent(p)) && !IsDirectory(ns, p) && p !in pinned
  }

  function AfterWrite(ns: Nodes, pinned: set<Path>, p: Path, lines: seq<string>): Nodes
  {
    if CanWrite(ns, pinned, p) then ns[p := Node(false, TextLength(lines), 0, false, true, lines)]
    else ns
  }

  /** The disk: one object shared by the poller, the poll managers and MovedFile. */
  class FileSystem {
    var nodes: Nodes
    const pinned: set<Path>

    constructor (nodes: Nodes, pinned: set<Path>)
      ensures this.nodes == nodes && this.pinned == pinned
    {
      this.nodes := nodes;
      this.pinned := pinned;
    }

    method Delete(p: Path) returns (ok: bool)
      modifies this
      ensures ok == CanDelete(old(nodes), pinned, p)
      ensures nodes == AfterDelete(old(nodes), pinned, p)
    {
      ok := CanDelete(nodes, pinned, p);
      nodes := AfterDelete(nodes, pinned, p);
    }

    method Rename(a: Path, b: Path) returns (ok: bool)
      modifies this
      ensures ok == CanRename(old(nodes), pinned, a, b)
      ensures nodes == AfterRename(old(nodes), pinned, a, b)
    {
      ok := CanRename(nodes, pinned, a, b);
      nodes := AfterRename(nodes, pinned, a, b);
    }

    method MkDirs(p: Path) returns (ok: bool)
      modifies this
      ensures ok == CanMkDirs(old(nodes), p)
      ensures nodes == AfterMkDirs(old(nodes), p)
    {
      ok := CanMkDirs(nodes, p);
      nodes := AfterMkDirs(nodes, p);
    }

    method Write(p: Path, lines: seq<string>) returns (ok: bool)
      modifies this
      ensures ok == CanWrite(old(nodes), pinned, p)
      ensures nodes == AfterWrite(old(nodes), pinned, p, lines)
    {
      ok := CanWrite(nodes, pinned, p);
      nodes := AfterWrite(nodes, pinned, p, lines);
    }
  }
}
