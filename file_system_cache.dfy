// The file-system cache: each entry lives in the cache directory under its identity's
// external name followed by "-1", "-2", ..., so that identities sharing an external name
// occupy a chain of slots. A file that cannot be read makes the whole group go.

module FileSystemCache {
  import opened Wrappers
  import opened JavaLang
  import opened CacheIdentity
  import CI = CacheIdentity
  import opened CacheEntry

  /**
   * What a file of the cache directory yields when read: the identity written first, then
   * the entry; or only the identity; or nothing (an IOException).
   */
  datatype CacheFile =
    | Stored(header: CacheIdentity, entry: Entry)
    | EntryUnreadable(header: CacheIdentity)
    | Unreadable

  /** The cache directory: file name to contents. */
  type Directory = map<string, CacheFile>

  /** The name of slot i of a group: externalName + '-' + i. */
  function SlotName(externalName: string, i: nat): (r: string)
    ensures externalName <= r
  {
    externalName + "-" + Decimal(i)
  }

  lemma SlotNameInjective(x: string, i: nat, j: nat)
    requires SlotName(x, i) == SlotName(x, j)
    ensures i == j
  {
    assert SlotName(x, i)[|x| + 1..] == Decimal(i);
    assert SlotName(x, j)[|x| + 1..] == Decimal(j);
    DecimalInjective(i, j);
  }

  /** Slots 1 .. i - 1 of the group are all present. */
  predicate SlotsBelow(dir: Directory, x: string, i: nat)
  {
    forall j: nat :: 1 <= j < i ==> SlotName(x, j) in dir
  }

  lemma {:induction false} SlotSetSize(x: string, n: nat)
    ensures |set j: nat | 1 <= j <= n :: SlotName(x, j)| == n
  {
    if n > 0 {
      SlotSetSize(x, n - 1);
      var s0 := set j: nat | 1 <= j <= n - 1 :: SlotName(x, j);
      var s1 := set j: nat | 1 <= j <= n :: SlotName(x, j);
      assert s1 == s0 + {SlotName(x, n)};
      forall j: nat | 1 <= j <= n - 1
        ensures SlotName(x, j) != SlotName(x, n)
      {
        if SlotName(x, j) == SlotName(x, n) {
          SlotNameInjective(x, j, n);
        }
      }
    }
  }

  /** A directory holds at most as many consecutive slots as it has files. */
  lemma SlotsBound(dir: Directory, x: string, i: nat)
    requires SlotsBelow(dir, x, i + 1)
    ensures i <= |dir|
  {
    var s := set j: nat | 1 <= j <= i :: SlotName(x, j);
    SlotSetSize(x, i);
    assert s <= dir.Keys;
    SubsetSize(s, dir.Keys);
  }

  lemma {:induction false} SubsetSize<T>(a: set<T>, b: set<T>)
    requires a <= b
    ensures |a| <= |b|
    decreases |b|
  {
    if a != {} {
      var y :| y in a;
      SubsetSize(a - {y}, b - {y});
    }
  }

  /** deleteByPrefix: every file whose name starts with the prefix is removed. */
  function DeleteByPrefix(dir: Directory, prefix: string): (r: Directory)
    ensures forall k :: k in r <==> k in dir && !(prefix <= k)
    ensures forall k :: k in r ==> r[k] == dir[k]
  {
    map k | k in dir && !(prefix <= k) :: dir[k]
  }

  // ---------------------------------------------------------------------------
  // lookup

  /**
   * The probe loop of lookup from slot i: a missing slot is a miss; an unreadable file
   * deletes the group and is a miss (the next probe then finds nothing); an entry of
   * another identity sends the probe on.
   */
  function LookupFrom(dir: Directory, x: string, id: CacheIdentity, i: nat): (r: (Option<Entry>, Directory))
    requires i >= 1 && SlotsBelow(dir, x, i)
    ensures r.0.Some? ==> r.0.value.identity == id && r.1 == dir
    ensures r.1 == dir || (r.0.None? && r.1 == DeleteByPrefix(dir, x))
    decreases |dir| + 1 - i
  {
    var name := SlotName(x, i);
    if name !in dir then (None, dir)
    else
      match dir[name]
      case Stored(_, e) =>
        if CI.Equals(id, Some(e.identity)) then
          EqualsIffSameFields(id, e.identity);
          (Some(e), dir)
        else
          SlotsBound(dir, x, i);
          LookupFrom(dir, x, id, i + 1)
      case _ => (None, DeleteByPrefix(dir, x))
  }

  /** lookup(identity) on the group of its external name. */
  function LookupInDir(dir: Directory, x: string, id: CacheIdentity): (r: (Option<Entry>, Directory))
    ensures r.0.Some? ==> r.0.value.identity == id && r.1 == dir
    ensures r.1 == dir || (r.0.None? && r.1 == DeleteByPrefix(dir, x))
  {
    LookupFrom(dir, x, id, 1)
  }

  // ---------------------------------------------------------------------------
  // store

  /** The identity readIdentityFrom gets from a file, or an IOException. */
  function HeaderOf(f: CacheFile): (r: Result<CacheIdentity>)
    ensures r.Err? <==> f.Unreadable?
  {
    match f
    case Stored(h, _) => Ok(h)
    case EntryUnreadable(h) => Ok(h)
    case Unreadable => Err(IO)
  }

  /**
   * The slot loop of store from slot i: the first slot that is absent or holds the same
   * identity; an unreadable identity is an IOException.
   */
  function StoreSlotFrom(dir: Directory, x: string, id: CacheIdentity, i: nat): (r: Result<nat>)
    requires i >= 1 && SlotsBelow(dir, x, i)
    ensures r.Err? ==> r.error == IO
    ensures r.Err? ==> exists j: nat :: j >= i && SlotName(x, j) in dir && dir[SlotName(x, j)].Unreadable?
    ensures r.Ok? ==> r.value >= i && SlotsBelow(dir, x, r.value)
    ensures r.Ok? ==> SlotName(x, r.value) !in dir || HeaderOf(dir[SlotName(x, r.value)]) == Ok(id)
    ensures r.Ok? ==> forall j: nat :: i <= j < r.value ==>
      HeaderOf(dir[SlotName(x, j)]).Ok? && HeaderOf(dir[SlotName(x, j)]).value != id
    decreases |dir| + 1 - i
  {
    var name := SlotName(x, i);
    if name !in dir then Ok(i)
    else
      match HeaderOf(dir[name])
      case Err(e) => Err(e)
      case Ok(h) =>
        if CI.Equals(id, Some(h)) then
          EqualsIffSameFields(id, h);
          Ok(i)
        else
          EqualsIffSameFields(id, h);
          SlotsBound(dir, x, i);
          StoreSlotFrom(dir, x, id, i + 1)
  }

  /** The I/O outcomes store can meet besides the files it reads. */
  datatype StoreFault = NoFault | WriteFails | RenameFails

  /**
   * store(entry), as the directory it leaves: the entry is written to a temporary file,
   * which is renamed over the chosen slot (an equal identity's file is deleted first). A
   * failed rename loses the temporary file; an IOException deletes the group (and a failed
   * write leaves its temporary file behind).
   */
  function StoreInDir(dir: Directory, e: Entry, x: string, tempName: string, fault: StoreFault): (r: Directory)
    requires tempName !in dir && !(x <= tempName)
    ensures tempName in r <==> fault == WriteFails
    ensures forall k :: k != tempName && !(x <= k) ==> (k in r <==> k in dir)
    ensures forall k :: k != tempName && !(x <= k) && k in r ==> r[k] == dir[k]
  {
    if fault == WriteFails then DeleteByPrefix(dir[tempName := Unreadable], x)
    else
      match StoreSlotFrom(dir, x, e.identity, 1)
      case Err(_) => DeleteByPrefix(dir, x)
      case Ok(i) =>
        var target := SlotName(x, i);
        var cleared := dir - {target};
        if fault == RenameFails then cleared else cleared[target := Stored(e.identity, e)]
  }

  // ---------------------------------------------------------------------------
  // The object

  class FileSystemCache {
    /** The cache directory. */
    var files: Directory
    /** getExternalName of an identity (a digest the model leaves abstract). */
    const externalName: CacheIdentity -> string

    constructor (files: Directory, externalName: CacheIdentity -> string)
      ensures this.files == files && this.externalName == externalName
    {
      this.files := files;
      this.externalName := externalName;
    }

    /** lookup: probe the slots in order. */
    method Lookup(id: CacheIdentity) returns (r: Option<Entry>)
      modifies this
      ensures (r, files) == LookupInDir(old(files), externalName(id), id)
    {
      var x := externalName(id);
      ghost var dir := files;
      var i := 1;
      while true
        invariant i >= 1 && files == dir && SlotsBelow(dir, x, i)
        invariant LookupFrom(dir, x, id, i) == LookupFrom(dir, x, id, 1)
        decreases |dir| + 1 - i
      {
        var name := SlotName(x, i);
        if name !in files {
          return None;
        }
        var candidate := files[name];
        if !candidate.Stored? {
          files := DeleteByPrefix(files, x);
          return None;
        }
        if CI.Equals(id, Some(candidate.entry.identity)) {
          return Some(candidate.entry);
        }
        SlotsBound(dir, x, i);
        i := i + 1;
      }
    }

    /** store: write a temporary file, find the slot, rename into it. */
    method Store(e: Entry, tempName: string, fault: StoreFault)
      requires tempName !in files && !(externalName(e.identity) <= tempName)
      modifies this
      ensures files == StoreInDir(old(files), e, externalName(e.identity), tempName, fault)
    {
      var x := externalName(e.identity);
      var before := files;
      files := files[tempName := Unreadable];
      if fault == WriteFails {
        files := DeleteByPrefix(files, x);
        return;
      }
      files := files[tempName := Stored(e.identity, e)];
      TemporaryOverwritten(before, tempName, Unreadable, Stored(e.identity, e));
      assert files == before[tempName := Stored(e.identity, e)];
      var slot := FindSlot(before, x, e.identity);
      if slot.Err? {
        files := files - {tempName};
        TemporaryRemoved(before, tempName, Stored(e.identity, e));
        files := DeleteByPrefix(files, x);
        StoreInDirNoSlot(before, e, x, tempName, fault);
        return;
      }
      StoreInDirFound(before, e, x, tempName, fault, slot.value);
      MoveIntoSlot(before, e, x, tempName, fault, slot.value);
    }

    /**
     * The end of store once the slot loop has found slot i: the old file there is deleted,
     * then the temporary file is renamed into the slot (the rename failing leaves it empty).
     */
    method MoveIntoSlot(ghost before: Directory, e: Entry, x: string, tempName: string, fault: StoreFault, i: nat)
      requires tempName !in before && !(x <= tempName)
      requires files == before[tempName := Stored(e.identity, e)]
      modifies this
      ensures fault == RenameFails ==> files == before - {SlotName(x, i)}
      ensures fault != RenameFails ==> files == (before - {SlotName(x, i)})[SlotName(x, i) := Stored(e.identity, e)]
    {
      var target := SlotName(x, i);
      TemporaryCleared(before, tempName, Stored(e.identity, e), target);
      if target in files {
        files := files - {target};
      }
      files := files - {tempName};
      assert files == before - {target};
      if fault != RenameFails {
        files := files[target := Stored(e.identity, e)];
      }
    }
  }

  /** store when the slot loop fails: the group is deleted. */
  lemma StoreInDirNoSlot(dir: Directory, e: Entry, x: string, tempName: string, fault: StoreFault)
    requires tempName !in dir && !(x <= tempName) && fault != WriteFails
    requires StoreSlotFrom(dir, x, e.identity, 1).Err?
    ensures StoreInDir(dir, e, x, tempName, fault) == DeleteByPrefix(dir, x)
  {
  }

  /** store when the slot loop finds slot i: the slot is cleared, then filled unless the rename fails. */
  lemma StoreInDirFound(dir: Directory, e: Entry, x: string, tempName: string, fault: StoreFault, i: nat)
    requires tempName !in dir && !(x <= tempName) && fault != WriteFails
    requires StoreSlotFrom(dir, x, e.identity, 1) == Ok(i)
    ensures fault == RenameFails ==> StoreInDir(dir, e, x, tempName, fault) == dir - {SlotName(x, i)}
    ensures fault != RenameFails ==>
      StoreInDir(dir, e, x, tempName, fault) == (dir - {SlotName(x, i)})[SlotName(x, i) := Stored(e.identity, e)]
  {
  }

  /** Writing the temporary file's contents replaces the empty file createTempFile made. */
  lemma TemporaryOverwritten(before: Directory, tempName: string, v1: CacheFile, v2: CacheFile)
    ensures before[tempName := v1][tempName := v2] == before[tempName := v2]
  {
  }

  /** Removing the temporary file again gives back the directory from before it. */
  lemma TemporaryRemoved(before: Directory, tempName: string, v: CacheFile)
    requires tempName !in before
    ensures before[tempName := v] - {tempName} == before
  {
  }

  /** Clearing the target slot and then the temporary file leaves the directory less the target. */
  lemma TemporaryCleared(before: Directory, tempName: string, v: CacheFile, target: string)
    requires tempName !in before && tempName != target
    ensures (before[tempName := v] - {target}) - {tempName} == before - {target}
    ensures target !in before[tempName := v] ==> before[tempName := v] - {tempName} == before - {target}
  {
  }

  /** The slot loop of store, over the directory as it was before the temporary file. */
  method FindSlot(dir: Directory, x: string, id: CacheIdentity) returns (r: Result<nat>)
    ensures r == StoreSlotFrom(dir, x, id, 1)
  {
    var i := 1;
    while true
      invariant i >= 1 && SlotsBelow(dir, x, i)
      invariant StoreSlotFrom(dir, x, id, i) == StoreSlotFrom(dir, x, id, 1)
      decreases |dir| + 1 - i
    {
      var name := SlotName(x, i);
      if name !in dir {
        return Ok(i);
      }
      var h := HeaderOf(dir[name]);
      if h.Err? {
        return Err(IO);
      }
      if CI.Equals(id, Some(h.value)) {
        return Ok(i);
      }
      SlotsBound(dir, x, i);
      i := i + 1;
    }
  }

  // ---------------------------------------------------------------------------
  // Properties

  /** Every file of the group is readable and its header is its entry's identity. */
  predicate GroupReadable(dir: Directory, x: string)
  {
    forall k :: k in dir && x <= k ==> dir[k].Stored? && dir[k].header == dir[k].entry.identity
  }

  /** With a readable group, lookup never changes the directory. */
  lemma {:induction false} LookupReadableKeeps(dir: Directory, x: string, id: CacheIdentity, i: nat)
    requires i >= 1 && SlotsBelow(dir, x, i) && GroupReadable(dir, x)
    ensures LookupFrom(dir, x, id, i).1 == dir
    decreases |dir| + 1 - i
  {
    var name := SlotName(x, i);
    if name in dir && !CI.Equals(id, Some(dir[name].entry.identity)) {
      SlotsBound(dir, x, i);
      LookupReadableKeeps(dir, x, id, i + 1);
    }
  }

  /**
   * Lookup finds the first slot from i that holds the identity, when the slots before it
   * hold other identities.
   */
  lemma {:induction false} LookupFindsSlot(dir: Directory, x: string, id: CacheIdentity, i: nat, k: nat, e: Entry)
    requires 1 <= i <= k && SlotsBelow(dir, x, k + 1)
    requires forall j: nat :: i <= j < k ==> dir[SlotName(x, j)].Stored? && dir[SlotName(x, j)].entry.identity != id
    requires dir[SlotName(x, k)] == Stored(id, e) && e.identity == id
    ensures LookupFrom(dir, x, id, i) == (Some(e), dir)
    decreases k - i
  {
    EqualsIffSameFields(id, e.identity);
    if i < k {
      var name := SlotName(x, i);
      EqualsIffSameFields(id, dir[name].entry.identity);
      LookupFindsSlot(dir, x, id, i + 1, k, e);
    }
  }

  /**
   * Lookup misses at the first absent slot when the slots before it hold other
   * identities, and leaves the directory as it was.
   */
  lemma {:induction false} LookupMissesAtGap(dir: Directory, x: string, id: CacheIdentity, i: nat, k: nat)
    requires 1 <= i <= k && SlotsBelow(dir, x, k) && SlotName(x, k) !in dir
    requires forall j: nat :: i <= j < k ==> dir[SlotName(x, j)].Stored? && dir[SlotName(x, j)].entry.identity != id
    ensures LookupFrom(dir, x, id, i) == (None, dir)
    decreases k - i
  {
    if i < k {
      EqualsIffSameFields(id, dir[SlotName(x, i)].entry.identity);
      LookupMissesAtGap(dir, x, id, i + 1, k);
    }
  }

  /** After a store without fault in a readable group, lookup returns the stored entry. */
  lemma StoreThenLookup(dir: Directory, e: Entry, x: string, tempName: string)
    requires tempName !in dir && !(x <= tempName) && GroupReadable(dir, x)
    ensures LookupInDir(StoreInDir(dir, e, x, tempName, NoFault), x, e.identity) == (Some(e), StoreInDir(dir, e, x, tempName, NoFault))
  {
    var i := StoreSlotFrom(dir, x, e.identity, 1).value;
    var d := StoreInDir(dir, e, x, tempName, NoFault);
    assert d == (dir - {SlotName(x, i)})[SlotName(x, i) := Stored(e.identity, e)];
    forall j: nat | 1 <= j < i
      ensures d[SlotName(x, j)] == dir[SlotName(x, j)]
    {
      if SlotName(x, j) == SlotName(x, i) {
        SlotNameInjective(x, j, i);
      }
    }
    LookupFindsSlot(d, x, e.identity, 1, i, e);
  }

  /** A store without fault keeps the group readable. */
  lemma StoreKeepsReadable(dir: Directory, e: Entry, x: string, tempName: string)
    requires tempName !in dir && !(x <= tempName) && GroupReadable(dir, x)
    ensures GroupReadable(StoreInDir(dir, e, x, tempName, NoFault), x)
  {
  }

  /**
   * Storing one identity does not disturb a lookup of another identity of the group:
   * the slot store takes is empty or holds its own identity.
   */
  lemma StoreKeepsOthers(dir: Directory, e: Entry, x: string, tempName: string, id: CacheIdentity, k: nat, f: Entry)
    requires tempName !in dir && !(x <= tempName) && GroupReadable(dir, x)
    requires id != e.identity && k >= 1
    requires SlotsBelow(dir, x, k + 1)
    requires forall j: nat :: 1 <= j < k ==> dir[SlotName(x, j)].entry.identity != id
    requires dir[SlotName(x, k)] == Stored(id, f) && f.identity == id
    ensures LookupInDir(StoreInDir(dir, e, x, tempName, NoFault), x, id).0 == Some(f)
  {
    var i := StoreSlotFrom(dir, x, e.identity, 1).value;
    var t := SlotName(x, i);
    var d := StoreInDir(dir, e, x, tempName, NoFault);
    assert d == (dir - {t})[t := Stored(e.identity, e)];
    if i != k {
      assert SlotName(x, k) != t by {
        if SlotName(x, k) == t { SlotNameInjective(x, k, i); }
      }
    } else {
      assert false;
    }
    assert SlotsBelow(d, x, k + 1);
    forall j: nat | 1 <= j < k
      ensures d[SlotName(x, j)].Stored? && d[SlotName(x, j)].entry.identity != id
    {
    }
    LookupFindsSlot(d, x, id, 1, k, f);
  }

  /** Outside the group and the temporary file, store leaves every file as it was. */
  lemma StoreTouchesOnlyGroup(dir: Directory, e: Entry, x: string, tempName: string, fault: StoreFault, k: string)
    requires tempName !in dir && !(x <= tempName)
    requires k != tempName && !(x <= k)
    ensures k in StoreInDir(dir, e, x, tempName, fault) <==> k in dir
    ensures k in dir ==> StoreInDir(dir, e, x, tempName, fault)[k] == dir[k]
  {
  }

  /** The temporary file is gone afterwards unless the write itself failed. */
  lemma StoreRemovesTemporary(dir: Directory, e: Entry, x: string, tempName: string, fault: StoreFault)
    requires tempName !in dir && !(x <= tempName)
    ensures tempName in StoreInDir(dir, e, x, tempName, fault) <==> fault == WriteFails
  {
  }

  /** An unreadable slot met by lookup takes the whole group with it. */
  lemma UnreadableDeletesGroup(dir: Directory, x: string, id: CacheIdentity)
    requires SlotName(x, 1) in dir && !dir[SlotName(x, 1)].Stored?
    ensures LookupInDir(dir, x, id) == (None, DeleteByPrefix(dir, x))
    ensures forall k :: k in LookupInDir(dir, x, id).1 ==> !(x <= k)
  {
  }

  /**
   * Two identities of one group stored one after the other occupy different slots, and
   * both stay retrievable.
   */
  lemma StoreTwoKeepsBoth(dir: Directory, e1: Entry, e2: Entry, x: string, t1: string, t2: string)
    requires t1 !in dir && !(x <= t1) && !(x <= t2) && GroupReadable(dir, x)
    requires t2 !in StoreInDir(dir, e1, x, t1, NoFault)
    requires e1.identity != e2.identity
    ensures var d := StoreInDir(StoreInDir(dir, e1, x, t1, NoFault), e2, x, t2, NoFault);
      LookupInDir(d, x, e1.identity).0 == Some(e1) && LookupInDir(d, x, e2.identity).0 == Some(e2)
  {
    var d1 := StoreInDir(dir, e1, x, t1, NoFault);
    StoreKeepsReadable(dir, e1, x, t1);
    StoreThenLookup(d1, e2, x, t2);
    var k := StoreSlotFrom(dir, x, e1.identity, 1).value;
    var t := SlotName(x, k);
    assert d1 == (dir - {t})[t := Stored(e1.identity, e1)];
    forall j: nat | 1 <= j < k
      ensures d1[SlotName(x, j)] == dir[SlotName(x, j)]
    {
      if SlotName(x, j) == t {
        SlotNameInjective(x, j, k);
      }
    }
    StoreKeepsOthers(d1, e2, x, t2, e1.identity, k, e1);
  }
}
