// A cache dependency on one file: a snapshot of whether it exists, its modification time
// and its length, compared against the file system when the cache is consulted.

module FileCacheDependency {
  import opened Wrappers
  import opened JavaLang

  /** What File reports for a path: exists(), lastModified() and length(). */
  datatype FileStat = FileStat(fileExists: bool, lastModified: int, length: int)

  /** The file system at one moment, seen through stat calls on absolute paths. */
  type FileSystem = string -> FileStat

  /** The snapshot fields; dependentPath is the absolute path. */
  datatype FileCacheDependency = FileCacheDependency(
    dependentPath: string,
    fileExists: bool,
    modified: int,
    length: int)

  /** The constructor: the stat of the file taken now. */
  function Snapshot(absolutePath: string, fs: FileSystem): (d: FileCacheDependency)
    ensures d.dependentPath == absolutePath
    ensures d.fileExists == fs(absolutePath).fileExists
    ensures d.modified == fs(absolutePath).lastModified && d.length == fs(absolutePath).length
  {
    var st := fs(absolutePath);
    FileCacheDependency(absolutePath, st.fileExists, st.lastModified, st.length)
  }

  /** isValid: the current stat agrees with the snapshot on all three values. */
  predicate IsValid(d: FileCacheDependency, fs: FileSystem)
    ensures IsValid(d, fs) <==> fs(d.dependentPath) == FileStat(d.fileExists, d.modified, d.length)
  {
    var st := fs(d.dependentPath);
    d.fileExists == st.fileExists && d.modified == st.lastModified && d.length == st.length
  }

  /** equals: another dependency on the same path; the snapshot values do not count. */
  function Equals(d: FileCacheDependency, other: Option<FileCacheDependency>): (r: bool)
    ensures r ==> other.Some? && StringHash(d.dependentPath) == StringHash(other.value.dependentPath)
  {
    other.Some? && other.value.dependentPath == d.dependentPath
  }

  /** hashCode: the hash of the path alone. */
  function HashCode(d: FileCacheDependency): (h: int)
    ensures MIN_INT <= h <= MAX_INT
  {
    StringHash(d.dependentPath)
  }

  /** A dependency is valid exactly while the file's stat is the one snapshotted. */
  lemma ValidIffUnchanged(path: string, before: FileSystem, now: FileSystem)
    ensures IsValid(Snapshot(path, before), now) <==> now(path) == before(path)
  {
  }

  /** With no change since the snapshot the dependency is valid. */
  lemma SnapshotIsValid(path: string, fs: FileSystem)
    ensures IsValid(Snapshot(path, fs), fs)
  {
  }

  /** A file absent at the snapshot invalidates the dependency once it exists. */
  lemma AppearingFileInvalidates(path: string, before: FileSystem, now: FileSystem)
    requires !before(path).fileExists && now(path).fileExists
    ensures !IsValid(Snapshot(path, before), now)
  {
  }

  /** Equality and hash depend on the path alone. */
  lemma EqualsOnPathOnly(d: FileCacheDependency, e: FileCacheDependency)
    ensures Equals(d, Some(e)) <==> d.dependentPath == e.dependentPath
    ensures Equals(d, Some(e)) ==> HashCode(d) == HashCode(e)
    ensures !Equals(d, None)
  {
  }
}
