/** File paths as System.IO.Path sees them on a system whose directory
    separator is '/': a path is given by its directory, its file name without
    extension and its extension (with the dot), and Combine joins a directory
    and a file name. */
module Paths {
  import opened Seqs

  const DirectorySeparator: char := '/'

  /** Path.GetDirectoryName (a null directory is the empty string),
      Path.GetFileNameWithoutExtension and Path.GetExtension of one path. */
  datatype PathParts = PathParts(directory: string, stem: string, extension: string)

  /** Path.Combine of two paths: a rooted second path wins, an empty first
      path gives the second, an empty second path gives the first, and a
      separator is added only when the first does not already end with one. */
  function Combine(directory: string, name: string): (r: string)
    ensures |r| >= |name| && r[|r| - |name|..] == name
    ensures name != [] && name[0] == DirectorySeparator ==> r == name
    ensures directory == [] ==> r == name
    ensures name == [] ==> r == directory
    ensures r == name || r == directory + name || r == directory + [DirectorySeparator] + name
    ensures directory != [] && name != [] && name[0] != DirectorySeparator ==>
      r == directory + (if directory[|directory| - 1] == DirectorySeparator then [] else [DirectorySeparator]) + name
  {
    if name != [] && name[0] == DirectorySeparator then name
    else if directory == [] then name
    else if name == [] then
      assert directory + name == directory;
      directory
    else if directory[|directory| - 1] == DirectorySeparator then
      assert directory + [] + name == directory + name;
      directory + name
    else directory + [DirectorySeparator] + name
  }

  /** Path.GetFileName: what follows the last separator. */
  function FileName(path: string): (r: string)
    ensures |r| <= |path| && r == path[|path| - |r|..]
    ensures DirectorySeparator !in r
  {
    if path == [] || path[|path| - 1] == DirectorySeparator then []
    else FileName(path[..|path| - 1]) + [path[|path| - 1]]
  }

  lemma {:induction false} FileNameAfterSeparator(dir: string, name: string)
    requires dir == [] || dir[|dir| - 1] == DirectorySeparator
    requires DirectorySeparator !in name
    ensures FileName(dir + name) == name
    decreases |name|
  {
    if name != [] {
      var init := name[..|name| - 1];
      assert DirectorySeparator !in init by {
        forall i | 0 <= i < |init| ensures init[i] != DirectorySeparator {
          assert init[i] == name[i];
        }
      }
      FileNameAfterSeparator(dir, init);
      DropLastOfAppend(dir, name);
      assert name[|name| - 1] in name;
      SnocOfInit(name);
    }
  }

  /** Combining a directory with a file name that holds no separator: the
      file name of the result is that file name. */
  lemma CombineFileName(directory: string, name: string)
    requires name != [] && DirectorySeparator !in name
    ensures FileName(Combine(directory, name)) == name
  {
    if name != [] {
      assert name[0] in name;
    }
    if directory == [] {
      FileNameAfterSeparator([], name);
      assert [] + name == name;
    } else if directory[|directory| - 1] == DirectorySeparator {
      FileNameAfterSeparator(directory, name);
    } else {
      FileNameAfterSeparator(directory + [DirectorySeparator], name);
    }
  }
}
