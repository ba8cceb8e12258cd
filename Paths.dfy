/**
 * The filesystem as the ingestion code sees it, and the few path operations of
 * std::filesystem it uses: `/` (join), parent_path(), filename(), stem() and
 * extension().
 *
 * Paths are strings with '/' as the only separator; root names, repeated or
 * trailing separators and normalisation are not modelled.
 */
module Paths {

  /** What std::filesystem::status reports for an existing path. */
  datatype Kind = Directory | RegularFile | OtherFile

  /**
   * A snapshot of the filesystem: the kind of every existing path, and for each
   * directory the names of its immediate entries in the order
   * directory_iterator yields them (an order std::filesystem leaves unspecified).
   */
  datatype FileSystem = FileSystem(kinds: map<string, Kind>, entries: map<string, seq<string>>) {

    /** fs::exists */
    predicate Exists(p: string) {
      p in kinds
    }

    /** fs::is_directory */
    predicate IsDirectory(p: string) {
      p in kinds && kinds[p].Directory?
    }

    /** fs::is_regular_file */
    predicate IsRegularFile(p: string) {
      p in kinds && kinds[p].RegularFile?
    }

    /** The entry names directory_iterator visits in `dir`. */
    function Listing(dir: string): seq<string> {
      if dir in entries then entries[dir] else []
    }
  }

  /** `parent / name` for a relative, single-component `name`. */
  function Join(parent: string, name: string): string {
    parent + "/" + name
  }

  /** The index of the last `c` in `s`, or -1 when `s` holds none (see LastIndexOfSpec). */
  function LastIndexOf(s: string, c: char): (r: int)
    ensures -1 <= r < |s|
    decreases |s|
  {
    if s == [] then -1
    else if s[|s| - 1] == c then |s| - 1
    else LastIndexOf(s[..|s| - 1], c)
  }

  lemma {:induction false} LastIndexOfSpec(s: string, c: char)
    ensures var r := LastIndexOf(s, c);
      && (r >= 0 ==> s[r] == c)
      && (forall i :: r < i < |s| ==> s[i] != c)
    decreases |s|
  {
    if s != [] && s[|s| - 1] != c {
      LastIndexOfSpec(s[..|s| - 1], c);
    }
  }

  lemma NoneAfterLast(s: string, c: char)
    ensures c !in s[LastIndexOf(s, c) + 1..]
  {
    LastIndexOfSpec(s, c);
    var k := LastIndexOf(s, c);
    var tail := s[k + 1..];
    forall i | 0 <= i < |tail| ensures tail[i] != c {
      assert tail[i] == s[k + 1 + i];
    }
  }

  /** path::parent_path(): everything before the last separator. */
  function ParentPath(p: string): string {
    var k := LastIndexOf(p, '/');
    if k < 0 then "" else p[..k]
  }

  /** path::filename(): everything after the last separator. */
  function FileName(p: string): string {
    p[LastIndexOf(p, '/') + 1..]
  }

  /**
   * path::extension() of a file name: from its last '.' on, except that "."
   * and "..", and a name whose only '.' is its first character, have none.
   */
  function Extension(name: string): (r: string)
    ensures |r| <= |name|
  {
    if name == "." || name == ".." then ""
    else
      var k := LastIndexOf(name, '.');
      if k <= 0 then "" else name[k..]
  }

  /** path::stem() of a file name: the name without its extension. */
  function Stem(name: string): string {
    name[..|name| - |Extension(name)|]
  }

  /**
   * An extension is empty or a final part of the name that starts with its only
   * '.', and is never the whole name; stem and extension together are the name.
   * It is non-empty exactly when the name is neither "." nor ".." and holds a '.'
   * after its first character.
   */
  lemma ExtensionSpec(name: string)
    ensures var e := Extension(name);
      && (e == [] || (e[0] == '.' && '.' !in e[1..]))
      && e == name[|name| - |e|..]
      && (e != [] ==> |e| < |name|)
      && Stem(name) + e == name
    ensures Extension(name) != [] <==>
      name != "." && name != ".." && exists i :: 0 < i < |name| && name[i] == '.'
  {
    NoneAfterLast(name, '.');
    LastIndexOfSpec(name, '.');
    ExtensionPresent(name);
  }

  /** The extension is non-empty exactly when the name is neither "." nor ".." and
      holds a '.' after its first character. */
  lemma ExtensionPresent(name: string)
    ensures Extension(name) != [] <==>
      name != "." && name != ".." && exists i :: 0 < i < |name| && name[i] == '.'
  {
    LastIndexOfSpec(name, '.');
    if name != "." && name != ".." && exists i :: 0 < i < |name| && name[i] == '.' {
      var i :| 0 < i < |name| && name[i] == '.';
      assert LastIndexOf(name, '.') >= i;
    }
  }

  /** Joining a single-component name to a directory and splitting the result again
      gives back the directory and the name. */
  lemma JoinSplits(dir: string, name: string)
    requires '/' !in name
    ensures ParentPath(Join(dir, name)) == dir
    ensures FileName(Join(dir, name)) == name
  {
    var p := Join(dir, name);
    var k := LastIndexOf(p, '/');
    LastIndexOfSpec(p, '/');
    assert p[|dir|] == '/';
    assert forall i :: |dir| < i < |p| ==> p[i] == name[i - |dir| - 1];
    assert k == |dir|;
    assert p[..k] == dir && p[k + 1..] == name;
  }
}
