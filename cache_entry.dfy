// A cache entry: the identity it was stored under, the dependencies that decide whether it
// is still valid, and the resolved content (null for a negative entry).

module CacheEntry {
  import opened Wrappers
  import opened CacheIdentity
  import FCD = FileCacheDependency

  type byte = x: int | 0 <= x < 256

  /** The serialised fields of an entry; None is null. */
  datatype Entry = Entry(
    identity: CacheIdentity,
    dependencies: Option<seq<Option<FCD.FileCacheDependency>>>,
    contentType: Option<string>,
    characterEncoding: Option<string>,
    contents: Option<seq<byte>>)

  /** isValid: no dependency array, or every non-null dependency still valid. */
  predicate IsValid(e: Entry, fs: FCD.FileSystem)
  {
    e.dependencies.None? ||
    forall i :: 0 <= i < |e.dependencies.value| && e.dependencies.value[i].Some? ==>
      FCD.IsValid(e.dependencies.value[i].value, fs)
  }

  /** The loop of isValid: the first non-null invalid dependency makes it false. */
  method CheckValid(e: Entry, fs: FCD.FileSystem) returns (r: bool)
    ensures r == IsValid(e, fs)
  {
    if e.dependencies.None? {
      return true;
    }
    var deps := e.dependencies.value;
    var i := 0;
    while i < |deps|
      invariant 0 <= i <= |deps|
      invariant forall j :: 0 <= j < i && deps[j].Some? ==> FCD.IsValid(deps[j].value, fs)
    {
      if deps[i].Some? && !FCD.IsValid(deps[i].value, fs) {
        return false;
      }
      i := i + 1;
    }
    return true;
  }

  /** isNullContent: a negative entry. */
  predicate IsNullContent(e: Entry)
  {
    e.contents.None?
  }

  /** getLength: 0 for null contents. */
  function Length(e: Entry): (n: nat)
    ensures IsNullContent(e) ==> n == 0
    ensures !IsNullContent(e) ==> n == |e.contents.value|
  {
    if e.contents.None? then 0 else |e.contents.value|
  }

  /** getInputStream: the bytes the stream yields, none for null contents. */
  function StreamBytes(e: Entry): (b: seq<byte>)
    ensures |b| == Length(e)
    ensures !IsNullContent(e) ==> b == e.contents.value
  {
    if e.contents.None? then [] else e.contents.value
  }

  /** An entry without dependency array, or with an empty one, is valid whatever the files. */
  lemma NoDependenciesValid(e: Entry, fs: FCD.FileSystem)
    requires e.dependencies.None? || e.dependencies.value == []
    ensures IsValid(e, fs)
  {
  }

  /** Null elements of the dependency array are skipped. */
  lemma NullDependenciesIgnored(e: Entry, fs: FCD.FileSystem)
    requires e.dependencies.Some?
    requires forall i :: 0 <= i < |e.dependencies.value| ==> e.dependencies.value[i].None?
    ensures IsValid(e, fs)
  {
  }

  /** One dependency on a file that changed since its snapshot invalidates the entry. */
  lemma ChangedFileInvalidates(e: Entry, path: string, before: FCD.FileSystem, now: FCD.FileSystem)
    requires e.dependencies.Some? && Some(FCD.Snapshot(path, before)) in e.dependencies.value
    requires now(path) != before(path)
    ensures !IsValid(e, now)
  {
    var k :| 0 <= k < |e.dependencies.value| && e.dependencies.value[k] == Some(FCD.Snapshot(path, before));
    FCD.ValidIffUnchanged(path, before, now);
  }

  /**
   * An entry object: the serialised fields and the transient etag, computed from the
   * contents on first use by a digest the model leaves abstract.
   */
  class CacheEntry {
    const entry: Entry
    const digest: seq<byte> -> string
    var etag: Option<string>

    ghost predicate Valid()
      reads this
    {
      etag.Some? ==> entry.contents.Some? && etag.value == digest(entry.contents.value)
    }

    constructor (entry: Entry, digest: seq<byte> -> string)
      ensures Valid() && this.entry == entry && this.digest == digest && etag.None?
    {
      this.entry := entry;
      this.digest := digest;
      etag := None;
    }

    /** getETag: null for null contents, otherwise the digest, memoised. */
    method GetETag() returns (r: Option<string>)
      requires Valid()
      modifies this`etag
      ensures Valid()
      ensures entry.contents.None? ==> r.None? && etag == old(etag)
      ensures entry.contents.Some? ==> r == Some(digest(entry.contents.value)) && etag == r
    {
      r := etag;
      if r.None? && entry.contents.Some? {
        r := Some(digest(entry.contents.value));
        etag := r;
      }
    }
  }
}
