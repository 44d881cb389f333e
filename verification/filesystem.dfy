/**
 * The part of the file system split_dataset touches: regular files as a map from
 * path to contents and directories as a set of paths. A path is the list of its
 * components, so `os.path.join` appends components.
 */
module FileSystem {

  type Path = seq<string>

  type Bytes = seq<bv8>

  /** Path joining: the entry `name` inside the directory `dir`. */
  function Join(dir: Path, name: string): (p: Path)
    ensures |p| == |dir| + 1 && p[..|dir|] == dir && p[|dir|] == name
  {
    dir + [name]
  }

  /** Two joined paths are equal only when directory and name are. */
  lemma JoinInjective(d1: Path, n1: string, d2: Path, n2: string)
    requires Join(d1, n1) == Join(d2, n2)
    ensures d1 == d2 && n1 == n2
  {
    assert d1 == Join(d1, n1)[..|d1|];
  }

  /** A path and all the directories above it, the ones `os.makedirs` creates. */
  function Ancestry(p: Path): (dirs: set<Path>)
    ensures p != [] ==> p in dirs
    ensures forall d :: d in dirs ==> d != [] && d <= p
    ensures forall k :: 1 <= k <= |p| ==> p[..k] in dirs
  {
    assert p != [] ==> p[..|p|] == p;
    set k | 1 <= k <= |p| :: p[..k]
  }

  /** The disk as split_dataset sees it. */
  class Disk {
    var files: map<Path, Bytes>
    var dirs: set<Path>

    constructor (files: map<Path, Bytes>, dirs: set<Path>)
      ensures this.files == files && this.dirs == dirs
    {
      this.files := files;
      this.dirs := dirs;
    }

    /** The existence test the partitioner applies to label files. */
    predicate Exists(p: Path)
      reads this
    {
      p in files
    }

    /**
     * Recursive directory creation that tolerates existing directories: creates p
     * and its parents; directories that
     * already exist are no error.
     */
    method MakeDirs(p: Path)
      modifies this
      ensures dirs == old(dirs) + Ancestry(p)
      ensures files == old(files)
    {
      dirs := dirs + Ancestry(p);
    }

    /**
     * File copy: the source must be a file and the destination's
     * directory must exist; an existing destination file is overwritten.
     */
    method Copy(src: Path, dst: Path)
      requires src in files
      requires dst != [] && dst[..|dst| - 1] in dirs
      modifies this
      ensures files == old(files)[dst := old(files)[src]]
      ensures dirs == old(dirs)
    {
      files := files[dst := files[src]];
    }
  }
}
