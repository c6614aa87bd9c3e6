/** kvstore.c: key-value entries kept one per file, in hash chains "hash-pos.entry". */
module ChainStore {
  import opened Common
  import opened KvMap

  datatype FileName = FileName(hash: Hash64, pos: nat)

  datatype Entry = Entry(key: string, value: string) {
    /** The data area of a kventry_t: key and value, each with its terminator. */
    function Data(): string {
      key + [NUL] + value + [NUL]
    }
  }

  /** The store directory with its files already decoded. */
  type Directory = map<FileName, Entry>

  type HashFn = string -> Hash64

  // ----- the directory invariant and the map it stands for

  ghost predicate GapFree(d: Directory) {
    forall f, j :: f in d && 0 <= j < f.pos ==> FileName(f.hash, j) in d
  }

  /** `index` says in which file each key is; keys are distinct, so it inverts the directory. */
  ghost predicate Indexed(d: Directory, index: map<string, FileName>) {
    && (forall f :: f in d ==> d[f].key in index && index[d[f].key] == f)
    && (forall k :: k in index ==> index[k] in d && d[index[k]].key == k)
  }

  ghost predicate ValidDir(h: HashFn, d: Directory, index: map<string, FileName>) {
    && GapFree(d)
    && Indexed(d, index)
    && (forall f :: f in d ==> h(d[f].key) == f.hash && |d[f].key| <= MAX_KEYLEN)
  }

  /** The abstraction: the plain map a directory stands for. */
  ghost function Contents(d: Directory, index: map<string, FileName>): Store
    requires Indexed(d, index)
  {
    map k | k in index :: d[index[k]].value
  }

  // ----- walking a chain

  ghost predicate ChainUpTo(d: Directory, hash: Hash64, n: nat) {
    forall i :: 0 <= i < n ==> FileName(hash, i) in d
  }

  lemma ChainFits(d: Directory, hash: Hash64, n: nat)
    requires ChainUpTo(d, hash, n)
    ensures n <= |d|
  {
    PrefixFits(d.Keys, (i: nat) => FileName(hash, i), n);
  }

  /** The first `n` files of the chain hold other keys. */
  ghost predicate OtherKeys(d: Directory, hash: Hash64, n: nat, key: string)
    requires ChainUpTo(d, hash, n)
  {
    forall i :: 0 <= i < n ==> d[FileName(hash, i)].key != key
  }

  lemma FoundInChain(h: HashFn, d: Directory, index: map<string, FileName>, f: FileName)
    requires ValidDir(h, d, index) && f in d
    ensures d[f].key in Contents(d, index) && index[d[f].key] == f && Contents(d, index)[d[f].key] == d[f].value
  {
  }

  /** Past the end of the chain of its hash a key is nowhere. */
  lemma NotInChain(h: HashFn, d: Directory, index: map<string, FileName>, key: string, n: nat)
    requires ValidDir(h, d, index) && ChainUpTo(d, h(key), n) && OtherKeys(d, h(key), n, key) && FileName(h(key), n) !in d
    ensures key !in Contents(d, index)
  {
    forall k | k in index ensures k != key {
      var f := index[k];
      assert d[f].key == k;
      assert f.hash == h(key) && f.pos > n ==> FileName(f.hash, n) in d;
    }
  }

  lemma KeysAreShort(h: HashFn, d: Directory, index: map<string, FileName>)
    requires ValidDir(h, d, index)
    ensures forall k :: k in Contents(d, index) ==> |k| <= MAX_KEYLEN
  {
    forall k | k in index ensures |k| <= MAX_KEYLEN {
      assert d[index[k]].key == k;
    }
  }

  // ----- what writing and removing a file do to the map

  /** `f` may hold `k`: it is the file of `k`, or `k` is new and `f` the free end of its chain. */
  ghost predicate PlaceFor(h: HashFn, d: Directory, index: map<string, FileName>, k: string, f: FileName) {
    if k in index then f == index[k]
    else f.hash == h(k) && f !in d && ChainUpTo(d, f.hash, f.pos)
  }

  lemma WriteKeepsMap(h: HashFn, d: Directory, index: map<string, FileName>, k: string, v: string, f: FileName)
    requires ValidDir(h, d, index) && |k| <= MAX_KEYLEN && PlaceFor(h, d, index, k, f)
    ensures ValidDir(h, d[f := Entry(k, v)], index[k := f])
    ensures Contents(d[f := Entry(k, v)], index[k := f]) == Contents(d, index)[k := v]
  {
    assert f.hash == h(k);
    assert GapFree(d[f := Entry(k, v)]);
    assert f in d ==> d[f].key == k;
  }

  /** Remove `f` by moving `last`, the end of its chain, into its place. */
  ghost function Unlink(d: Directory, f: FileName, last: FileName): Directory
    requires last in d
  {
    if last == f then d - {f} else d[f := d[last]] - {last}
  }

  /** Moving the last entry of the chain into the hole loses nothing but the deleted key. */
  lemma UnlinkKeepsMap(h: HashFn, d: Directory, index: map<string, FileName>, f: FileName, last: FileName)
    requires ValidDir(h, d, index) && f in d && last in d
    requires f.hash == last.hash && FileName(last.hash, last.pos + 1) !in d
    ensures ValidDir(h, Unlink(d, f, last), index[d[last].key := f] - {d[f].key})
    ensures Contents(Unlink(d, f, last), index[d[last].key := f] - {d[f].key}) == Contents(d, index) - {d[f].key}
  {
    assert GapFree(Unlink(d, f, last));
  }

  /** A stored file is read back as the key and value it was written from. */
  lemma EntryRoundTrip(e: Entry)
    requires IsCString(e.key) && IsCString(e.value)
    ensures CStrAt(e.Data(), 0) == e.key
    ensures CStrAt(e.Data(), |e.key| + 1) == e.value
  {
    CStrRoundTrip(e.Data(), 0, e.key);
    CStrRoundTrip(e.Data(), |e.key| + 1, e.value);
  }

  /** The files on disk are exactly the entries of `d`, in the format of kventry_t. */
  ghost predicate Stored(files: map<FileName, string>, d: Directory) {
    && files.Keys == d.Keys
    && (forall f :: f in d ==> files[f] == d[f].Data() && IsCString(d[f].key) && IsCString(d[f].value))
  }

  lemma StoredWrite(files: map<FileName, string>, d: Directory, f: FileName, e: Entry)
    requires Stored(files, d) && IsCString(e.key) && IsCString(e.value)
    ensures Stored(files[f := e.Data()], d[f := e])
  {
  }

  lemma StoredUnlink(files: map<FileName, string>, d: Directory, f: FileName, last: FileName)
    requires Stored(files, d) && f in d && last in d
    ensures last == f ==> Stored(files - {f}, Unlink(d, f, last))
    ensures last != f ==> Stored(files[f := files[last]] - {last}, Unlink(d, f, last))
  {
  }

  /** kvstore_t over its directory. A file operation of one call is one step here; locks are left out. */
  class KvStore {
    const hash: HashFn
    var files: map<FileName, string>
    ghost var dir: Directory
    ghost var index: map<string, FileName>

    ghost predicate Valid()
      reads this
    {
      ValidDir(hash, dir, index) && Stored(files, dir)
    }

    ghost function Map(): Store
      requires Valid()
      reads this
    {
      Contents(dir, index)
    }

    constructor (hash: HashFn)
      ensures Valid() && Map() == map[] && this.hash == hash
    {
      this.hash := hash;
      files, dir, index := map[], map[], map[];
    }

    /** The position of `key` in its chain and its value, or an error code. */
    method FindEntry(key: string) returns (r: int, value: string)
      requires Valid() && IsCString(key)
      ensures |key| > MAX_KEYLEN ==> r == ERRKEYLEN
      ensures |key| <= MAX_KEYLEN && key !in Map() ==> r == ERRNOKEY
      ensures key in Map() ==>
                r >= 0 && index[key] == FileName(hash(key), r) && value == Map()[key]
    {
      hide ValidDir, GapFree, Indexed, Contents;
      value := "";
      if |key| > MAX_KEYLEN {
        KeysAreShort(hash, dir, index);
        return ERRKEYLEN, value;
      }
      var hashval, counter := hash(key), 0;
      while FileName(hashval, counter) in files
        invariant ChainUpTo(dir, hashval, counter) && OtherKeys(dir, hashval, counter, key)
        decreases |files| - counter
      {
        ChainFits(dir, hashval, counter + 1);
        assert |files.Keys| == |dir.Keys|;
        var data := files[FileName(hashval, counter)];
        EntryRoundTrip(dir[FileName(hashval, counter)]);
        if CStrAt(data, 0) == key {
          FoundInChain(hash, dir, index, FileName(hashval, counter));
          return counter, CStrAt(data, |key| + 1);
        }
        counter := counter + 1;
      }
      NotInChain(hash, dir, index, key, counter);
      r := ERRNOKEY;
    }

    /** The first position at or after `from` with no file: the loop both writers run. */
    method ChainEnd(hashval: Hash64, from: nat) returns (counter: nat)
      requires Valid() && ChainUpTo(dir, hashval, from)
      ensures from <= counter && ChainUpTo(dir, hashval, counter) && FileName(hashval, counter) !in dir
    {
      counter := from;
      while FileName(hashval, counter) in files
        invariant from <= counter && ChainUpTo(dir, hashval, counter)
        decreases |files| - counter
      {
        ChainFits(dir, hashval, counter + 1);
        assert |files.Keys| == |dir.Keys|;
        counter := counter + 1;
      }
    }

    method HasKey(key: string) returns (b: bool)
      requires Valid() && IsCString(key)
      ensures b <==> key in Map()
    {
      var r, _ := FindEntry(key);
      b := r >= 0;
    }

    method Get(key: string) returns (r: int, value: string)
      requires Valid() && IsCString(key)
      ensures r == if |key| > MAX_KEYLEN then ERRKEYLEN else if key in Map() then 0 else ERRNOKEY
      ensures r == 0 ==> value == Map()[key]
    {
      r, value := FindEntry(key);
      if r >= 0 {
        r := 0;
      }
    }

    method PutCheck(key: string, value: string) returns (r: int)
      ensures r == if |key| > MAX_KEYLEN then ERRKEYLEN else if |value| > MAX_VALLEN then ERRVALLEN else 0
    {
      if |key| > MAX_KEYLEN {
        return ERRKEYLEN;
      }
      if |value| > MAX_VALLEN {
        return ERRVALLEN;
      }
      r := 0;
    }

    method Put(key: string, value: string) returns (r: int)
      requires Valid() && IsCString(key) && IsCString(value)
      modifies this
      ensures Valid()
      ensures r == if |key| > MAX_KEYLEN then ERRKEYLEN else if |value| > MAX_VALLEN then ERRVALLEN else 0
      ensures Map() == if r == 0 then old(Map())[key := value] else old(Map())
    {
      r := PutCheck(key, value);
      if r < 0 {
        return;
      }
      var hashval := hash(key);
      var counter, _ := FindEntry(key);
      if counter < 0 {
        counter := ChainEnd(hashval, 0);
      }
      var file := FileName(hashval, counter);
      assert PlaceFor(hash, dir, index, key, file);
      StoredWrite(files, dir, file, Entry(key, value));
      WriteKeepsMap(hash, dir, index, key, value, file);
      files := files[file := key + [NUL] + value + [NUL]];
      dir, index := dir[file := Entry(key, value)], index[key := file];
    }

    method DelCheck(key: string) returns (r: int)
      requires Valid() && IsCString(key)
      ensures r == if |key| > MAX_KEYLEN then ERRKEYLEN else if key in Map() then 0 else ERRNOKEY
    {
      if |key| > MAX_KEYLEN {
        return ERRKEYLEN;
      }
      var has := HasKey(key);
      r := if has then 0 else ERRNOKEY;
    }

    method Del(key: string) returns (r: int)
      requires Valid() && IsCString(key)
      modifies this
      ensures Valid()
      ensures r == if |key| > MAX_KEYLEN then ERRKEYLEN else if key in old(Map()) then 0 else ERRNOKEY
      ensures Map() == old(Map()) - {key}
    {
      var chainpos, _ := FindEntry(key);
      if chainpos < 0 {
        return chainpos;
      }
      var hashval := hash(key);
      var counter := ChainEnd(hashval, chainpos + 1);
      var delfile, last := FileName(hashval, chainpos), FileName(hashval, counter - 1);
      UnlinkKeepsMap(hash, dir, index, delfile, last);
      StoredUnlink(files, dir, delfile, last);
      if counter == chainpos + 1 {
        files := files - {delfile};
      } else {
        files := files[delfile := files[last]] - {last};
      }
      dir, index := Unlink(dir, delfile, last), index[dir[last].key := delfile] - {key};
      r := 0;
    }
  }
}
