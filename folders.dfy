/** Folder convergence (the Folders class of Editor/ProjectSetup.cs): creating a
    root folder and nested hierarchies under the project's Assets folder,
    moving a top-level folder under another, deleting a folder.

    The file system and the asset database are one set of directory paths, each
    path the list of its names from the project folder down ("Assets" first;
    Application.dataPath is the path ["Assets"]). A real directory tree is
    closed under parents, and every operation keeps it so. */
module Folders {
  import opened Text
  import opened Console

  type Path = seq<string>

  /** Application.dataPath, and the "Assets" prefix of asset-database paths. */
  const AssetsFolder: Path := ["Assets"]

  /** p is q or lies inside q. */
  predicate Within(p: Path, q: Path) {
    |q| <= |p| && p[..|q|] == q
  }

  /** Every ancestor of a directory is a directory. */
  ghost predicate PrefixClosed(dirs: set<Path>) {
    forall p, k :: p in dirs && 0 < k < |p| ==> p[..k] in dirs
  }

  /** p and all its non-empty ancestors: what Directory.CreateDirectory(p)
      makes exist. */
  function Ancestry(p: Path): (r: set<Path>)
    ensures forall q :: q in r <==> 0 < |q| && Within(p, q)
  {
    var r := set k | 0 < k <= |p| :: p[..k];
    assert forall q :: 0 < |q| && Within(p, q) ==> q == p[..|q|] && q in r;
    r
  }

  /** The directory named by a path written relative to the Assets folder, as
      the strings "Assets/<name>" of Editor/ProjectSetup.cs:158,160,174 denote
      it. */
  function AssetPath(relative: string): (r: Path)
    ensures |r| >= 1 && r[0] == "Assets" && Within(r, AssetsFolder)
    ensures forall i :: 1 <= i < |r| ==> r[i] != "" && '/' !in r[i]
  {
    AssetsFolder + Segments(relative)
  }

  /** "Assets/<name>" for a plain folder name is that one folder inside Assets. */
  lemma AssetPathOfName(name: string)
    requires name != "" && '/' !in name
    ensures AssetPath(name) == ["Assets", name]
  {
    SplitFree(name, '/');
    assert NonEmpty([name]) == [name] + NonEmpty([]);
  }

  /** "Assets/<parent>/<name>" is <name> inside the folder "Assets/<parent>". */
  lemma MoveTargetIsChildPath(name: string, parent: string)
    ensures AssetPath(parent + "/" + name) == AssetPath(parent) + Segments(name)
  {
    SegmentsOfJoin(parent, name);
  }

  /** Path.Combine(path, segment) for one piece of a split hierarchy: an empty
      piece leaves the path as it is. */
  function Child(p: Path, segment: string): (r: Path)
    ensures Within(r, p) && |r| <= |p| + 1
    ensures r == p <==> segment == ""
    ensures |r| > |p| ==> r[|p|] == segment
  {
    if segment == "" then p else p + [segment]
  }

  /** One more piece of a hierarchy is one more Child step. */
  lemma ChildStep(rootPath: Path, parts: seq<string>, i: nat)
    requires i < |parts|
    ensures Child(rootPath + NonEmpty(parts[..i]), parts[i]) == rootPath + NonEmpty(parts[..i + 1])
    ensures Within(Child(rootPath + NonEmpty(parts[..i]), parts[i]), rootPath + NonEmpty(parts[..i]))
  {
    assert parts[..i + 1] == parts[..i] + [parts[i]];
    NonEmptyAppend(parts[..i], [parts[i]]);
    assert NonEmpty([parts[i]]) == (if parts[i] == "" then [] else [parts[i]]) + NonEmpty([]);
  }

  /** Everything Create(root, folders) guarantees to exist, below the root
      path base: the root and every level of every hierarchy. */
  function Tree(base: Path, folders: seq<string>): (r: set<Path>)
    ensures Ancestry(base) <= r
  {
    if folders == [] then Ancestry(base)
    else Tree(base, folders[..|folders| - 1]) + Ancestry(base + Segments(folders[|folders| - 1]))
  }

  /** One more hierarchy adds the ancestry of its full path. */
  lemma TreeStep(base: Path, folders: seq<string>, i: nat)
    requires i < |folders|
    ensures Tree(base, folders[..i + 1]) == Tree(base, folders[..i]) + Ancestry(base + Segments(folders[i]))
  {
    assert folders[..i + 1][..i] == folders[..i];
  }

  /** What CreateSubFolders has made after i pieces of a hierarchy: nothing
      before the first piece, then the current level with its ancestors. */
  function Made(rootPath: Path, parts: seq<string>, i: nat): set<Path>
    requires i <= |parts|
  {
    if i == 0 then {} else Ancestry(rootPath + NonEmpty(parts[..i]))
  }

  /** One step of CreateSubFolders: the next level is one Child step further,
      and whether or not it already exists, adding it with its ancestors
      leaves exactly the next level made. */
  lemma SubFolderStep(initial: set<Path>, before: set<Path>, rootPath: Path, parts: seq<string>, i: nat)
    requires PrefixClosed(initial) && i < |parts|
    requires before == initial + Made(rootPath, parts, i)
    ensures Child(rootPath + NonEmpty(parts[..i]), parts[i]) == rootPath + NonEmpty(parts[..i + 1])
    ensures before + Ancestry(rootPath + NonEmpty(parts[..i + 1])) == initial + Made(rootPath, parts, i + 1)
    ensures rootPath + NonEmpty(parts[..i + 1]) in before ==>
              before == initial + Made(rootPath, parts, i + 1)
  {
    var previous := rootPath + NonEmpty(parts[..i]);
    var current := rootPath + NonEmpty(parts[..i + 1]);
    ChildStep(rootPath, parts, i);
    AncestryWithin(current, previous);
    if current in before {
      if current in initial {
        AncestryPresent(initial, current);
      } else {
        assert current == previous;
      }
    }
  }

  lemma AncestryWithin(p: Path, q: Path)
    requires Within(p, q)
    ensures Ancestry(q) <= Ancestry(p)
  {
    forall r | r in Ancestry(q) ensures r in Ancestry(p) {
      assert p[..|r|] == q[..|r|];
    }
  }

  /** An existing directory already has all its ancestors. */
  lemma AncestryPresent(dirs: set<Path>, p: Path)
    requires PrefixClosed(dirs) && p in dirs
    ensures Ancestry(p) <= dirs
  {
    forall q | q in Ancestry(p) ensures q in dirs {
      if |q| < |p| {
        assert q == p[..|q|];
      }
    }
  }

  lemma ClosedAfter(initial: set<Path>, dirs: set<Path>, p: Path)
    requires PrefixClosed(initial) && dirs == initial + Ancestry(p)
    ensures PrefixClosed(dirs)
  {
    AddAncestryClosed(initial, p);
  }

  /** Creating a directory with its ancestors keeps the tree closed. */
  lemma AddAncestryClosed(dirs: set<Path>, p: Path)
    requires PrefixClosed(dirs)
    ensures PrefixClosed(dirs + Ancestry(p))
  {
    forall q, k | q in dirs + Ancestry(p) && 0 < k < |q| ensures q[..k] in dirs + Ancestry(p) {
      if q in Ancestry(p) {
        assert p[..k] == q[..k];
      }
    }
  }

  lemma {:induction false} TreeClosed(dirs: set<Path>, base: Path, folders: seq<string>)
    requires PrefixClosed(dirs)
    ensures PrefixClosed(dirs + Tree(base, folders))
  {
    if folders == [] {
      AddAncestryClosed(dirs, base);
    } else {
      var init := folders[..|folders| - 1];
      TreeClosed(dirs, base, init);
      AddAncestryClosed(dirs + Tree(base, init), base + Segments(folders[|folders| - 1]));
      assert dirs + Tree(base, folders)
          == (dirs + Tree(base, init)) + Ancestry(base + Segments(folders[|folders| - 1]));
    }
  }

  /** The non-empty pieces of the first i pieces of a split lead to those of
      all pieces. */
  lemma NonEmptyPrefix(parts: seq<string>, i: nat)
    requires i <= |parts|
    ensures Within(NonEmpty(parts), NonEmpty(parts[..i]))
  {
    assert parts == parts[..i] + parts[i..];
    NonEmptyAppend(parts[..i], parts[i..]);
  }

  /** Every non-empty ancestor of one hierarchy's full path is in the tree. */
  lemma {:induction false} LevelInTree(base: Path, folders: seq<string>, j: nat, level: Path)
    requires j < |folders| && 0 < |level| && Within(base + Segments(folders[j]), level)
    ensures level in Tree(base, folders)
  {
    var n := |folders| - 1;
    if j < n {
      assert folders[..n][j] == folders[j];
      LevelInTree(base, folders[..n], j, level);
    } else {
      assert level in Ancestry(base + Segments(folders[n]));
    }
  }

  /** After Create(root, folders) the directories below base include the root
      and, for every hierarchy, every left-to-right level of its '/'-split
      pieces (Editor/ProjectSetup.cs:134-155). */
  lemma TreeHasEveryLevel(base: Path, folders: seq<string>, j: nat, i: nat)
    requires |base| > 0
    requires j < |folders| && i <= |Split(folders[j], '/')|
    ensures base in Tree(base, folders)
    ensures base + NonEmpty(Split(folders[j], '/')[..i]) in Tree(base, folders)
  {
    var parts := Split(folders[j], '/');
    NonEmptyPrefix(parts, i);
    var level := base + NonEmpty(parts[..i]);
    var full := base + NonEmpty(parts);
    assert full[..|level|] == level;
    LevelInTree(base, folders, j, level);
  }

  /** The directories inside q (q included). */
  function Subtree(dirs: set<Path>, q: Path): (r: set<Path>)
    ensures r <= dirs
    ensures forall p :: p in r ==> Within(p, q)
    ensures q in dirs ==> q in r
    ensures PrefixClosed(dirs) && q !in dirs && |q| > 0 ==> r == {}
  {
    NothingWithinAbsent(dirs, q);
    set p | p in dirs && Within(p, q)
  }

  /** Whatever contains a directory inside q is itself inside q. */
  lemma WithinAncestor(p: Path, k: nat, q: Path)
    requires k <= |p|
    ensures Within(p[..k], q) ==> Within(p, q)
  {
    if |q| <= k {
      assert p[..k][..|q|] == p[..|q|];
    }
  }

  /** A path inside q agrees with q on q's first n names. */
  lemma WithinAgrees(p: Path, q: Path, n: nat)
    requires n <= |q|
    ensures Within(p, q) ==> p[..n] == q[..n]
  {
    if |q| <= |p| {
      assert p[..|q|][..n] == p[..n];
    }
  }

  /** Nothing lies inside a path that is not a directory. */
  lemma NothingWithinAbsent(dirs: set<Path>, q: Path)
    ensures PrefixClosed(dirs) && q !in dirs && |q| > 0 ==> forall p :: p in dirs ==> !Within(p, q)
  {
    forall p | p in dirs && PrefixClosed(dirs) && q !in dirs && |q| > 0 ensures !Within(p, q) {
      if |q| < |p| {
        assert p[..|q|] in dirs;
      } else if |q| == |p| {
        assert p[..|p|] == p;
      }
    }
  }

  /** Removing a whole subtree keeps the tree closed and leaves nothing inside
      it. */
  lemma RemoveSubtreeClosed(dirs: set<Path>, q: Path)
    requires PrefixClosed(dirs)
    ensures PrefixClosed(dirs - Subtree(dirs, q))
    ensures forall p :: p in dirs - Subtree(dirs, q) ==> !Within(p, q)
  {
    forall p, k | p in dirs - Subtree(dirs, q) && 0 < k < |p| ensures p[..k] in dirs - Subtree(dirs, q) {
      WithinAncestor(p, k, q);
    }
  }

  /** The asset database can move src to dst: the new parent folder exists, dst
      does not, and dst is not inside src. */
  ghost predicate CanMove(dirs: set<Path>, src: Path, dst: Path) {
    && |dst| >= 2
    && dst[..|dst| - 1] in dirs
    && dst !in dirs
    && !Within(dst, src)
  }

  /** The directory set after the subtree at src is moved to dst. */
  function Relocate(dirs: set<Path>, src: Path, dst: Path): (r: set<Path>)
    ensures forall p :: p in dirs && !Within(p, src) ==> p in r
    ensures forall p :: p in Subtree(dirs, src) ==> dst + p[|src|..] in r
    ensures forall p :: p in r ==>
              (p in dirs && !Within(p, src)) || (Within(p, dst) && src + p[|dst|..] in dirs)
  {
    MovedFrom(dirs, src, dst);
    (dirs - Subtree(dirs, src)) + set p | p in Subtree(dirs, src) :: dst + p[|src|..]
  }

  /** A directory moved from p inside src lies inside dst, and p is recovered
      from it by swapping dst back for src. */
  lemma MovedFrom(dirs: set<Path>, src: Path, dst: Path)
    ensures forall p :: p in Subtree(dirs, src) ==>
              Within(dst + p[|src|..], dst) && src + (dst + p[|src|..])[|dst|..] == p
  {
    forall p | p in Subtree(dirs, src)
      ensures Within(dst + p[|src|..], dst) && src + (dst + p[|src|..])[|dst|..] == p
    {
      var q := dst + p[|src|..];
      assert q[..|dst|] == dst && q[|dst|..] == p[|src|..];
      assert p == p[..|src|] + p[|src|..];
    }
  }

  /** Outside dst, an admissible move keeps exactly the directories that are
      not inside src. */
  lemma RelocateOutside(dirs: set<Path>, src: Path, dst: Path, p: Path)
    requires !Within(p, dst)
    ensures p in Relocate(dirs, src, dst) <==> p in dirs && !Within(p, src)
  {
  }

  /** Inside dst, an admissible move holds exactly the images of the
      directories inside src. */
  lemma RelocateInside(dirs: set<Path>, src: Path, dst: Path, p: Path)
    requires PrefixClosed(dirs) && CanMove(dirs, src, dst)
    requires Within(p, dst)
    ensures p in Relocate(dirs, src, dst) <==> src + p[|dst|..] in dirs
  {
    NothingWithinAbsent(dirs, dst);
    var s := src + p[|dst|..];
    assert s[..|src|] == src && s[|src|..] == p[|dst|..];
    assert p == dst + p[|dst|..];
    if s in dirs {
      assert s in Subtree(dirs, src);
    }
  }

  /** A moved directory is not inside src. */
  lemma MovedOutsideSource(dirs: set<Path>, src: Path, dst: Path, p: Path)
    requires PrefixClosed(dirs) && src in dirs && CanMove(dirs, src, dst)
    requires p in Subtree(dirs, src)
    ensures !Within(dst + p[|src|..], src)
  {
    var q := dst + p[|src|..];
    if |src| <= |dst| {
      WithinAncestor(q, |dst|, src);
      assert q[..|dst|] == dst;
    } else {
      // dst would be a proper ancestor of src, hence a directory.
      assert src[..|dst|] in dirs;
      assert q[..|dst|] == dst;
      WithinAgrees(q, src, |dst|);
    }
  }

  /** The ancestors of a moved directory are in the moved tree. */
  lemma MovedAncestor(dirs: set<Path>, src: Path, dst: Path, p: Path, k: nat)
    requires PrefixClosed(dirs) && src in dirs && CanMove(dirs, src, dst)
    requires p in Subtree(dirs, src) && 0 < k < |dst + p[|src|..]|
    ensures (dst + p[|src|..])[..k] in Relocate(dirs, src, dst)
  {
    var q := dst + p[|src|..];
    var parent := dst[..|dst| - 1];
    if k < |dst| {
      assert q[..k] == parent[..k];
      if k < |parent| {
        assert parent[..k] in dirs;
      } else {
        assert parent[..k] == parent;
      }
      WithinAncestor(parent, k, src);
      WithinAncestor(dst, |parent|, src);
      assert parent[..k] in dirs && !Within(parent[..k], src);
    } else {
      var p' := p[..|src| + (k - |dst|)];
      assert p'[..|src|] == p[..|src|];
      assert p' in Subtree(dirs, src);
      assert q[..k] == dst + p'[|src|..];
    }
  }

  /** A move the asset database accepts keeps the tree closed, makes dst a
      folder and leaves nothing at src or inside it. */
  lemma RelocateClosed(dirs: set<Path>, src: Path, dst: Path)
    requires PrefixClosed(dirs) && src in dirs && CanMove(dirs, src, dst)
    ensures PrefixClosed(Relocate(dirs, src, dst))
    ensures dst in Relocate(dirs, src, dst)
    ensures forall p :: p in Relocate(dirs, src, dst) ==> !Within(p, src)
    ensures forall p :: !Within(p, dst) ==> (p in Relocate(dirs, src, dst) <==> p in dirs && !Within(p, src))
    ensures forall p :: Within(p, dst) ==> (p in Relocate(dirs, src, dst) <==> src + p[|dst|..] in dirs)
  {
    forall p | !Within(p, dst)
      ensures p in Relocate(dirs, src, dst) <==> p in dirs && !Within(p, src)
    {
      RelocateOutside(dirs, src, dst, p);
    }
    forall p | Within(p, dst)
      ensures p in Relocate(dirs, src, dst) <==> src + p[|dst|..] in dirs
    {
      RelocateInside(dirs, src, dst, p);
    }
    var r := Relocate(dirs, src, dst);
    var moved := set p | p in Subtree(dirs, src) :: dst + p[|src|..];
    assert r == (dirs - Subtree(dirs, src)) + moved;
    assert src in Subtree(dirs, src) && dst + src[|src|..] == dst;
    RemoveSubtreeClosed(dirs, src);
    forall q | q in moved ensures !Within(q, src) {
      var p :| p in Subtree(dirs, src) && q == dst + p[|src|..];
      MovedOutsideSource(dirs, src, dst, p);
    }
    forall q, k | q in r && 0 < k < |q| ensures q[..k] in r {
      if q in moved {
        var p :| p in Subtree(dirs, src) && q == dst + p[|src|..];
        MovedAncestor(dirs, src, dst, p, k);
      }
    }
  }

  /** The project folder and the console. */
  class Project {
    var dirs: set<Path>
    var log: seq<LogEntry>

    ghost predicate Valid()
      reads this
    {
      PrefixClosed(dirs)
    }

    constructor (existing: set<Path>)
      requires PrefixClosed(existing)
      ensures Valid() && dirs == existing && log == []
    {
      dirs := existing;
      log := [];
    }

    /** Directory.CreateDirectory(path): the directory and all its missing
        ancestors come to exist. */
    method CreateDirectory(path: Path)
      modifies this`dirs
      ensures dirs == old(dirs) + Ancestry(path)
      ensures old(Valid()) ==> Valid()
    {
      if Valid() {
        AddAncestryClosed(dirs, path);
      }
      dirs := dirs + Ancestry(path);
    }

    /** Folders.Create (Editor/ProjectSetup.cs:134-143): the root folder under
        Assets and every hierarchy below it come to exist; nothing else
        changes. */
    method Create(root: string, folders: seq<string>)
      requires Valid()
      modifies this`dirs
      ensures Valid()
      ensures dirs == old(dirs) + Tree(AssetsFolder + Segments(root), folders)
    {
      var fullPath := AssetsFolder + Segments(root);
      if fullPath !in dirs {
        CreateDirectory(fullPath);
      } else {
        AncestryPresent(dirs, fullPath);
      }
      assert folders[..0] == [];
      var i := 0;
      while i < |folders|
        invariant 0 <= i <= |folders|
        invariant Valid()
        invariant dirs == old(dirs) + Tree(fullPath, folders[..i])
      {
        CreateSubFolders(fullPath, folders[i]);
        TreeStep(fullPath, folders, i);
        i := i + 1;
      }
      assert folders[..i] == folders;
    }

    /** Folders.CreateSubFolders (Editor/ProjectSetup.cs:145-155): walks the
        '/'-split pieces of the hierarchy, creating each level that is
        missing. */
    method CreateSubFolders(rootPath: Path, folderHierarchy: string)
      requires Valid()
      modifies this`dirs
      ensures Valid()
      ensures dirs == old(dirs) + Ancestry(rootPath + Segments(folderHierarchy))
    {
      var folders := Split(folderHierarchy, '/');
      var currentPath := rootPath;
      var i := 0;
      while i < |folders|
        invariant 0 <= i <= |folders|
        invariant currentPath == rootPath + NonEmpty(folders[..i])
        invariant dirs == old(dirs) + Made(rootPath, folders, i)
      {
        SubFolderStep(old(dirs), dirs, rootPath, folders, i);
        currentPath := Child(currentPath, folders[i]);
        if currentPath !in dirs {
          CreateDirectory(currentPath);
        }
        i := i + 1;
      }
      assert folders[..i] == folders;
      ClosedAfter(old(dirs), dirs, currentPath);
    }

    /** Folders.Move (Editor/ProjectSetup.cs:157-171). moveError is what
        AssetDatabase.MoveAsset reports: empty when it moved the folder, which
        it does only when the move is possible. A missing source is reported
        and nothing changes; a refused move is reported with the database's
        reason and nothing changes. */
    method Move(folderName: string, newParent: string, moveError: string)
      requires Valid()
      requires moveError == "" && AssetPath(folderName) in dirs ==>
                 CanMove(dirs, AssetPath(folderName), AssetPath(newParent + "/" + folderName))
      modifies this
      ensures Valid()
      ensures AssetPath(folderName) !in old(dirs) ==>
                dirs == old(dirs) && log == old(log) + [Error("Folder " + folderName + " does not exist.")]
      ensures AssetPath(folderName) in old(dirs) && moveError == "" ==>
                dirs == Relocate(old(dirs), AssetPath(folderName), AssetPath(newParent + "/" + folderName))
                && log == old(log)
      ensures AssetPath(folderName) in old(dirs) && moveError != "" ==>
                dirs == old(dirs)
                && log == old(log) + [Error("Failed to move " + folderName + ": " + moveError)]
    {
      var sourcePath := AssetPath(folderName);
      if sourcePath in dirs {
        var destinationPath := AssetPath(newParent + "/" + folderName);
        if moveError == "" {
          RelocateClosed(dirs, sourcePath, destinationPath);
          dirs := Relocate(dirs, sourcePath, destinationPath);
        } else {
          log := log + [Error("Failed to move " + folderName + ": " + moveError)];
        }
      } else {
        log := log + [Error("Folder " + folderName + " does not exist.")];
      }
    }

    /** Folders.Delete (Editor/ProjectSetup.cs:173-179): an existing folder is
        removed with everything inside it; a missing one is left alone without
        a message. */
    method Delete(folderName: string)
      requires Valid()
      modifies this`dirs
      ensures Valid()
      ensures AssetPath(folderName) in old(dirs) ==>
                dirs == old(dirs) - Subtree(old(dirs), AssetPath(folderName))
      ensures AssetPath(folderName) !in old(dirs) ==> dirs == old(dirs)
      ensures forall p :: p in dirs ==> !Within(p, AssetPath(folderName))
    {
      var pathToDelete := AssetPath(folderName);
      RemoveSubtreeClosed(dirs, pathToDelete);
      if pathToDelete in dirs {
        dirs := dirs - Subtree(dirs, pathToDelete);
      } else {
        NothingWithinAbsent(dirs, pathToDelete);
      }
    }
  }

  /** Running Create twice with the same arguments: the first call adds exactly
      the tree and keeps every directory that was there, the second changes
      nothing. */
  method CreateTwice(project: Project, root: string, folders: seq<string>)
    requires project.Valid()
    modifies project
    ensures project.Valid()
    ensures old(project.dirs) <= project.dirs
    ensures project.dirs == old(project.dirs) + Tree(AssetsFolder + Segments(root), folders)
  {
    project.Create(root, folders);
    ghost var once := project.dirs;
    project.Create(root, folders);
    assert project.dirs == once;
  }
}
