/**
 * The two path operations a party uses for its save file, on '/'-separated
 * paths: joining a directory and a file name, and taking the last element.
 * Lexical cleaning of the joined path ("a//b", "./", "..") is not modelled.
 */
module Paths {
  /** No separator in `s`. */
  predicate NoSlash(s: string)
  {
    forall i :: 0 <= i < |s| ==> s[i] != '/'
  }

  /** filepath.Join of a directory and a file name: the file alone when there is no directory. */
  function Join(directory: string, file: string): (p: string)
    ensures |p| >= |file| && p[|p| - |file|..] == file
    ensures directory != "" ==> |p| == |directory| + 1 + |file| && p[..|directory|] == directory && p[|directory|] == '/'
  {
    if directory == "" then file else directory + "/" + file
  }

  /** The path with every trailing separator removed. */
  function StripTrailing(p: string): (r: string)
    ensures |r| <= |p| && r == p[..|r|]
    ensures r == "" || r[|r| - 1] != '/'
  {
    if p != "" && p[|p| - 1] == '/' then StripTrailing(p[..|p| - 1]) else p
  }

  /** What follows the last separator (all of `p` when there is none). */
  function AfterLastSlash(p: string): (r: string)
    ensures NoSlash(r) && |r| <= |p| && r == p[|p| - |r|..]
  {
    if p == "" || p[|p| - 1] == '/' then "" else AfterLastSlash(p[..|p| - 1]) + [p[|p| - 1]]
  }

  /**
   * filepath.Base: "." for the empty path, "/" for a path of separators,
   * otherwise the last element once trailing separators are removed.
   */
  function Base(path: string): (b: string)
    ensures b != ""
  {
    if path == "" then "."
    else
      var p := StripTrailing(path);
      if p == "" then "/" else AfterLastSlash(p)
  }

  /** One step of AfterLastSlash: a last character that is not a separator is kept. */
  lemma AfterLastSlashStep(p: string)
    requires p != "" && p[|p| - 1] != '/'
    ensures AfterLastSlash(p) == AfterLastSlash(p[..|p| - 1]) + [p[|p| - 1]]
  {
  }

  /** A name with no separator, after a separator, is what follows the last separator. */
  lemma {:induction false} AfterSlashed(prefix: string, name: string)
    requires NoSlash(name) && (prefix == "" || prefix[|prefix| - 1] == '/')
    ensures AfterLastSlash(prefix + name) == name
    decreases |name|
  {
    if name == [] {
      assert prefix + name == prefix;
    } else {
      var front, last := name[..|name| - 1], name[|name| - 1];
      assert NoSlash(front) by {
        forall i | 0 <= i < |front| ensures front[i] != '/' {
          assert front[i] == name[i];
        }
      }
      var p := prefix + name;
      assert p[|p| - 1] == last && p[..|p| - 1] == prefix + front;
      AfterLastSlashStep(p);
      AfterSlashed(prefix, front);
      assert front + [last] == name;
    }
  }

  /** The last element of a file joined to a directory is the file, when it has no separator. */
  lemma BaseOfJoin(directory: string, file: string)
    requires file != "" && NoSlash(file)
    ensures Base(Join(directory, file)) == file
  {
    var p := Join(directory, file);
    assert StripTrailing(p) == p;
    if directory == "" {
      AfterSlashed("", file);
    } else {
      AfterSlashed(directory + "/", file);
      assert directory + "/" + file == (directory + "/") + file;
    }
  }
}
