/**
 Folder archives (`archive.rs`): every kept file is hashed, compressed into a blob named by
 its digest and listed in an index; restoring reads the index and checks every blob.  A
 folder is a map from slash-separated relative paths to contents.
 */
module Archive {
  import opened Results
  import opened Native
  import opened Ordering

  type Folder = map<string, Bytes>

  /** Hashing and compression: decompressing undoes compressing. */
  datatype Codec = Codec(hash: Bytes -> string, encode: Bytes -> Bytes, decode: Bytes -> Option<Bytes>) {
    ghost predicate RoundTrips() {
      forall d :: decode(encode(d)) == Some(d)
    }
  }

  datatype Entry = Entry(path: string, size: nat, digest: string)
  datatype Store = Store(blobs: map<string, Bytes>, index: Option<seq<Entry>>)

  datatype Trouble = Missing | Unsafe | Damaged | Io
  datatype Unpacking = Good(data: Bytes) | Bad(why: Trouble)
  datatype Restoration = Restoration(trouble: Option<Trouble>, files: Folder)

  // ---------------------------------------------------------------- paths

  function Split(s: string): (parts: seq<string>)
    ensures parts != []
  {
    if s == "" then [""]
    else if s[0] == '/' then [""] + Split(s[1..])
    else
      var rest := Split(s[1..]);
      [[s[0]] + rest[0]] + rest[1..]
  }

  function Slashed(s: string): (t: string)
    ensures |t| == |s| && '\\' !in t
    ensures t == s <==> '\\' !in s
  {
    if s == "" then ""
    else
      var c := if s[0] == '\\' then '/' else s[0];
      var t := [c] + Slashed(s[1..]);
      assert s == [s[0]] + s[1..];
      assert t[0] == c && t[1..] == Slashed(s[1..]);
      t
  }

  predicate Excluded(key: string) {
    key == "index.json" || ".disk-archive" in Split(key)
  }

  predicate UnsafePath(path: string) {
    (path != "" && path[0] == '/') || ".." in Split(path)
  }

  predicate Under(dir: string, path: string) {
    |dir| < |path| && path[..|dir|] == dir && path[|dir|] == '/'
  }

  /** A file cannot be written where a folder is, nor below a file. */
  predicate Obstructed(files: Folder, path: string) {
    exists q :: q in files && (Under(q, path) || Under(path, q))
  }

  /** A path is below another exactly when a slash and more follow. */
  lemma UnderExactly(dir: string, path: string)
    ensures Under(dir, path) <==> exists rest: string :: path == dir + "/" + rest
  {
    if Under(dir, path) {
      assert path == dir + "/" + path[|dir| + 1..];
    }
  }

  /** What a file system guarantees of a folder's files. */
  ghost predicate RealFolder(src: Folder) {
    && (forall p :: p in src ==> "" !in Split(p) && "." !in Split(p) && ".." !in Split(p))
    && (forall p, q :: p in src && q in src ==> !Under(p, q))
  }

  predicate Keeps(src: Folder, p: string) {
    p in src && !Excluded(Slashed(p))
  }

  function Kept(src: Folder): Folder {
    map p | p in src && Keeps(src, p) :: src[p]
  }

  /** The kept files: all but the index's own name and everything below an archive folder. */
  lemma KeptExactly(src: Folder, p: string)
    ensures p in Kept(src) <==> p in src && Slashed(p) != "index.json" && ".disk-archive" !in Split(Slashed(p))
    ensures p in Kept(src) ==> Kept(src)[p] == src[p]
    ensures "index.json" !in Kept(src)
  {
    SlashedIndex();
  }

  lemma SlashedIndex()
    ensures Slashed("index.json") == "index.json"
  {
    assert '\\' !in "index.json";
  }

  // ---------------------------------------------------------------- create

  function EntryOf(lib: Codec, src: Folder, p: string): Entry
    requires p in src
  {
    Entry(Slashed(p), |src[p]|, lib.hash(src[p]))
  }

  predicate PathLe(a: Entry, b: Entry) {
    TextLe(a.path, b.path)
  }

  ghost predicate Enumerates(names: seq<string>, src: Folder) {
    Distinct(names) && forall p :: p in names <==> p in src
  }

  /** The index lists one entry for each kept file. */
  ghost predicate Listed(lib: Codec, src: Folder, names: seq<string>, entries: seq<Entry>) {
    && (forall p :: p in names && Keeps(src, p) ==> EntryOf(lib, src, p) in entries)
    && (forall e :: e in entries ==> exists p :: p in names && Keeps(src, p) && e == EntryOf(lib, src, p))
  }

  ghost predicate BlobOf(lib: Codec, src: Folder, names: seq<string>, digest: string, blob: Bytes) {
    exists q :: q in names && Keeps(src, q) && lib.hash(src[q]) == digest && blob == lib.encode(src[q])
  }

  /** Every kept file's digest names a blob, that of some kept file with this digest. */
  ghost predicate Blobbed(lib: Codec, src: Folder, names: seq<string>, blobs: map<string, Bytes>) {
    forall p :: p in names && Keeps(src, p) ==>
      lib.hash(src[p]) in blobs && BlobOf(lib, src, names, lib.hash(src[p]), blobs[lib.hash(src[p])])
  }

  /** Blobs under other digests are left alone. */
  ghost predicate OthersKept(lib: Codec, src: Folder, before: map<string, Bytes>, after: map<string, Bytes>) {
    forall d :: d in before && (forall p :: Keeps(src, p) ==> lib.hash(src[p]) != d) ==> d in after && after[d] == before[d]
  }

  /** `create`, walking the files in any order into a store that may hold anything. */
  method Create(lib: Codec, src: Folder, names: seq<string>, store: Store) returns (out: Store)
    requires Enumerates(names, src)
    ensures out.index.Some? && Listed(lib, src, names, out.index.value) && Blobbed(lib, src, names, out.blobs)
    ensures forall i, j :: 0 <= i < j < |out.index.value| ==> TextLe(out.index.value[i].path, out.index.value[j].path)
    ensures |out.index.value| == |KeptNames(src, names)|
    ensures OthersKept(lib, src, store.blobs, out.blobs)
  {
    hide Listed, Blobbed, OthersKept, Excluded, Slashed, Distinct, KeptNames;
    var blobs, entries: seq<Entry> := store.blobs, [];
    NothingYet(lib, src, blobs);
    for i := 0 to |names|
      invariant Listed(lib, src, names[..i], entries)
      invariant Blobbed(lib, src, names[..i], blobs)
      invariant OthersKept(lib, src, store.blobs, blobs)
      invariant |entries| == |KeptNames(src, names[..i])|
    {
      var p := names[i];
      assert p in names;
      assert p !in names[..i] by { NotBefore(names, i); }
      CountMore(src, names[..i], p);
      assert names[..i + 1] == names[..i] + [p];
      OneMore(lib, src, names[..i], p, store.blobs, blobs, entries);
      if !Excluded(Slashed(p)) {
        blobs := blobs[lib.hash(src[p]) := lib.encode(src[p])];
        entries := entries + [EntryOf(lib, src, p)];
      }
    }
    assert names[..|names|] == names;
    SortedListing(lib, src, names, entries);
    return Store(blobs, Some(Sort(PathLe, entries)));
  }

  ghost function KeptNames(src: Folder, names: seq<string>): set<string> {
    set p | p in names && Keeps(src, p)
  }

  lemma NotBefore(names: seq<string>, i: nat)
    requires Distinct(names) && i < |names|
    ensures names[i] !in names[..i]
  {
  }

  lemma CountMore(src: Folder, names: seq<string>, p: string)
    requires p !in names
    ensures |KeptNames(src, names + [p])| == |KeptNames(src, names)| + if Keeps(src, p) then 1 else 0
  {
    hide Keeps;
    assert KeptNames(src, names + [p]) == KeptNames(src, names) + if Keeps(src, p) then {p} else {};
  }

  lemma NothingYet(lib: Codec, src: Folder, blobs: map<string, Bytes>)
    ensures KeptNames(src, []) == {}
    ensures Listed(lib, src, [], []) && Blobbed(lib, src, [], blobs) && OthersKept(lib, src, blobs, blobs)
  {
  }

  lemma OneMore(lib: Codec, src: Folder, names: seq<string>, p: string,
                before: map<string, Bytes>, blobs: map<string, Bytes>, entries: seq<Entry>)
    requires p in src && Listed(lib, src, names, entries) && Blobbed(lib, src, names, blobs) && OthersKept(lib, src, before, blobs)
    ensures !Keeps(src, p) ==> Listed(lib, src, names + [p], entries) && Blobbed(lib, src, names + [p], blobs)
    ensures Keeps(src, p) ==>
              && Listed(lib, src, names + [p], entries + [EntryOf(lib, src, p)])
              && Blobbed(lib, src, names + [p], blobs[lib.hash(src[p]) := lib.encode(src[p])])
              && OthersKept(lib, src, before, blobs[lib.hash(src[p]) := lib.encode(src[p])])
  {
    ListMore(lib, src, names, p, entries);
    BlobMore(lib, src, names, p, blobs);
    hide Keeps, Listed, Blobbed;
  }

  lemma ListMore(lib: Codec, src: Folder, names: seq<string>, p: string, entries: seq<Entry>)
    requires p in src && Listed(lib, src, names, entries)
    ensures Listed(lib, src, names + [p], if Keeps(src, p) then entries + [EntryOf(lib, src, p)] else entries)
  {
    hide Excluded, Slashed;
    var more := if Keeps(src, p) then entries + [EntryOf(lib, src, p)] else entries;
    forall e | e in more ensures exists q :: q in names + [p] && Keeps(src, q) && e == EntryOf(lib, src, q) {
      if e in entries {
        var q :| q in names && Keeps(src, q) && e == EntryOf(lib, src, q);
        assert q in names + [p];
      } else {
        assert p in names + [p];
      }
    }
  }

  lemma BlobMore(lib: Codec, src: Folder, names: seq<string>, p: string, blobs: map<string, Bytes>)
    requires p in src && Blobbed(lib, src, names, blobs)
    ensures Blobbed(lib, src, names + [p], if Keeps(src, p) then blobs[lib.hash(src[p]) := lib.encode(src[p])] else blobs)
  {
    hide Excluded, Slashed;
    var more := if Keeps(src, p) then blobs[lib.hash(src[p]) := lib.encode(src[p])] else blobs;
    forall x | x in names + [p] && Keeps(src, x)
      ensures lib.hash(src[x]) in more && BlobOf(lib, src, names + [p], lib.hash(src[x]), more[lib.hash(src[x])])
    {
      if lib.hash(src[x]) == lib.hash(src[p]) && Keeps(src, p) {
        assert p in names + [p];
      } else {
        var q :| q in names && Keeps(src, q) && lib.hash(src[q]) == lib.hash(src[x])
          && blobs[lib.hash(src[x])] == lib.encode(src[q]);
        assert q in names + [p];
      }
    }
  }

  lemma SortedListing(lib: Codec, src: Folder, names: seq<string>, entries: seq<Entry>)
    requires Listed(lib, src, names, entries)
    ensures Listed(lib, src, names, Sort(PathLe, entries)) && Sorted(PathLe, Sort(PathLe, entries))
    ensures |Sort(PathLe, entries)| == |entries|
  {
    hide Keeps;
    TextLeIsTotal([]);
    SortSorts(PathLe, entries);
    var sorted := Sort(PathLe, entries);
    hide Sort, Sorted;
    forall e ensures e in sorted <==> e in entries {
      assert e in multiset(sorted) <==> e in sorted;
    }
  }

  // ---------------------------------------------------------------- restore

  /** The bytes an entry's blob unpacks to, if it is there and passes the integrity check. */
  function Unpacked(lib: Codec, blobs: map<string, Bytes>, e: Entry): Unpacking {
    if e.digest !in blobs then Bad(Io)
    else
      match lib.decode(blobs[e.digest])
      case None => Bad(Io)
      case Some(data) => if |data| != e.size || lib.hash(data) != e.digest then Bad(Damaged) else Good(data)
  }

  function RestoreOne(lib: Codec, blobs: map<string, Bytes>, e: Entry, files: Folder): Restoration {
    if UnsafePath(e.path) then Restoration(Some(Unsafe), files)
    else
      match Unpacked(lib, blobs, e)
      case Bad(why) => Restoration(Some(why), files)
      case Good(data) =>
        if Obstructed(files, e.path) then Restoration(Some(Io), files)
        else Restoration(None, files[e.path := data])
  }

  /** Entries in order; the first trouble stops it, with what was written so far. */
  function RestoreAll(lib: Codec, blobs: map<string, Bytes>, entries: seq<Entry>, files: Folder): Restoration {
    if entries == [] then Restoration(None, files)
    else
      var r := RestoreAll(lib, blobs, entries[..|entries| - 1], files);
      if r.trouble.Some? then r else RestoreOne(lib, blobs, entries[|entries| - 1], r.files)
  }

  /** A path that stays below the folder it is joined to. */
  ghost predicate Inside(path: string) {
    ".." !in Split(path) && !(path != "" && path[0] == '/')
  }

  /** The content an entry vouches for, by size and digest. */
  ghost predicate Vetted(lib: Codec, entries: seq<Entry>, path: string, data: Bytes) {
    exists e :: e in entries && e.path == path && e.size == |data| && e.digest == lib.hash(data)
  }

  /** What any restoration does, whatever the archive holds. */
  ghost predicate Confined(lib: Codec, entries: seq<Entry>, files: Folder, out: Restoration) {
    && (forall k :: k in files ==> k in out.files)
    && (forall k :: k in out.files ==>
          (k in files && out.files[k] == files[k]) || (Inside(k) && Vetted(lib, entries, k, out.files[k])))
    && (out.trouble.None? ==> forall e :: e in entries ==> Inside(e.path) && e.path in out.files)
    && (out.trouble == Some(Unsafe) ==> exists e :: e in entries && !Inside(e.path))
    && (out.trouble == Some(Missing) ==> false)
  }

  /** Whatever the index and the blobs hold, a restoration writes only inside the folder, only
      what an entry vouches for by size and digest, and removes nothing. */
  lemma {:induction false} RestoresOnlyVetted(lib: Codec, blobs: map<string, Bytes>, entries: seq<Entry>, files: Folder)
    ensures Confined(lib, entries, files, RestoreAll(lib, blobs, entries, files))
  {
    hide Confined, RestoreOne;
    if entries == [] {
      NothingWritten(lib, files);
    } else {
      var front, last := entries[..|entries| - 1], entries[|entries| - 1];
      RestoresOnlyVetted(lib, blobs, front, files);
      assert entries == front + [last];
      ConfinedStep(lib, blobs, front, last, files, RestoreAll(lib, blobs, front, files));
    }
  }

  lemma NothingWritten(lib: Codec, files: Folder)
    ensures Confined(lib, [], files, Restoration(None, files))
  {
  }

  lemma ConfinedStep(lib: Codec, blobs: map<string, Bytes>, front: seq<Entry>, last: Entry, files: Folder, before: Restoration)
    requires Confined(lib, front, files, before)
    ensures Confined(lib, front + [last], files, if before.trouble.Some? then before else RestoreOne(lib, blobs, last, before.files))
  {
    hide UnsafePath, Unpacked, Obstructed, Inside;
    var entries := front + [last];
    InsideIs(last.path);
    UnpackedIsVetted(lib, blobs, last);
    assert last in entries;
    assert forall e :: e in entries <==> e in front || e == last;
    forall k, data | Vetted(lib, front, k, data) ensures Vetted(lib, entries, k, data) {
      var e :| e in front && e.path == k && e.size == |data| && e.digest == lib.hash(data);
      assert e in entries;
    }
    if Unpacked(lib, blobs, last).Good? {
      assert Vetted(lib, entries, last.path, Unpacked(lib, blobs, last).data);
    }
    hide Vetted;
  }

  lemma InsideIs(path: string)
    ensures Inside(path) <==> !UnsafePath(path)
  {
  }

  lemma UnpackedIsVetted(lib: Codec, blobs: map<string, Bytes>, e: Entry)
    ensures Unpacked(lib, blobs, e).Good? ==>
              var data := Unpacked(lib, blobs, e).data;
              && |data| == e.size && lib.hash(data) == e.digest
              && e.digest in blobs && lib.decode(blobs[e.digest]) == Some(data)
    ensures Unpacked(lib, blobs, e) != Bad(Unsafe) && Unpacked(lib, blobs, e) != Bad(Missing)
  {
  }

  /** An entry that leads out of the folder stops the restoration before anything is written. */
  lemma EscapeIsRefused(lib: Codec, blobs: map<string, Bytes>, size: nat, digest: string, files: Folder)
    ensures RestoreAll(lib, blobs, [Entry("../escape.txt", size, digest)], files) == Restoration(Some(Unsafe), files)
  {
    ParentIsUnsafe();
    hide UnsafePath, Unpacked, Obstructed;
    var e := Entry("../escape.txt", size, digest);
    assert RestoreOne(lib, blobs, e, files) == Restoration(Some(Unsafe), files);
    hide RestoreOne;
    assert [e][..0] == [];
    assert RestoreAll(lib, blobs, [], files) == Restoration(None, files);
  }

  lemma ParentIsUnsafe()
    ensures UnsafePath("../escape.txt")
  {
    hide Split;
    SplitAt("..", "escape.txt");
    assert ".." + "/" + "escape.txt" == "../escape.txt";
    var parts := Split("../escape.txt");
    assert parts[0] == "..";
  }

  /** `restore`. */
  method Restore(lib: Codec, store: Store, destination: Folder) returns (out: Restoration)
    ensures store.index.None? ==> out == Restoration(Some(Missing), destination)
    ensures store.index.Some? ==> out == RestoreAll(lib, store.blobs, store.index.value, destination)
    ensures store.index.Some? ==> Confined(lib, store.index.value, destination, out)
  {
    hide UnsafePath, Confined;
    if store.index.Some? {
      RestoresOnlyVetted(lib, store.blobs, store.index.value, destination);
    }
    if store.index.None? {
      return Restoration(Some(Missing), destination);
    }
    var entries := store.index.value;
    var files := destination;
    for i := 0 to |entries|
      invariant RestoreAll(lib, store.blobs, entries[..i], destination) == Restoration(None, files)
    {
      var e := entries[i];
      assert entries[..i + 1][..i] == entries[..i];
      ghost var step := RestoreOne(lib, store.blobs, e, files);
      assert RestoreAll(lib, store.blobs, entries[..i + 1], destination) == step;
      if UnsafePath(e.path) {
        TroubleStops(lib, store.blobs, entries, i + 1, destination);
        return Restoration(Some(Unsafe), files);
      }
      var data := Unpacked(lib, store.blobs, e);
      if data.Bad? {
        TroubleStops(lib, store.blobs, entries, i + 1, destination);
        return Restoration(Some(data.why), files);
      }
      if Obstructed(files, e.path) {
        TroubleStops(lib, store.blobs, entries, i + 1, destination);
        return Restoration(Some(Io), files);
      }
      files := files[e.path := data.data];
    }
    assert entries[..|entries|] == entries;
    return Restoration(None, files);
  }

  lemma {:induction false} TroubleStops(lib: Codec, blobs: map<string, Bytes>, entries: seq<Entry>, i: nat, files: Folder)
    requires i <= |entries| && RestoreAll(lib, blobs, entries[..i], files).trouble.Some?
    ensures RestoreAll(lib, blobs, entries, files) == RestoreAll(lib, blobs, entries[..i], files)
  {
    hide RestoreOne;
    if i < |entries| {
      var front := entries[..|entries| - 1];
      assert front[..i] == entries[..i];
      TroubleStops(lib, blobs, front, i, files);
    } else {
      assert entries[..i] == entries;
    }
  }

  // ---------------------------------------------------------------- the round trip

  ghost predicate NoBackslash(src: Folder) {
    forall p :: Keeps(src, p) ==> '\\' !in p
  }

  ghost predicate NoCollision(lib: Codec, src: Folder) {
    forall p, q :: Keeps(src, p) && Keeps(src, q) && lib.hash(src[p]) == lib.hash(src[q]) ==> src[p] == src[q]
  }

  ghost predicate Archived(lib: Codec, src: Folder, names: seq<string>, blobs: map<string, Bytes>, entries: seq<Entry>) {
    && lib.RoundTrips() && Enumerates(names, src) && RealFolder(src)
    && Listed(lib, src, names, entries) && Blobbed(lib, src, names, blobs)
  }

  lemma BlobUnpacks(lib: Codec, src: Folder, names: seq<string>, blobs: map<string, Bytes>, entries: seq<Entry>, p: string)
    requires Archived(lib, src, names, blobs, entries) && NoCollision(lib, src) && Keeps(src, p)
    ensures Unpacked(lib, blobs, EntryOf(lib, src, p)) == Good(src[p])
  {
    hide Excluded, Listed, RealFolder;
    assert p in names && BlobOf(lib, src, names, lib.hash(src[p]), blobs[lib.hash(src[p])]);
    var q :| q in names && Keeps(src, q) && lib.hash(src[q]) == lib.hash(src[p]) && blobs[lib.hash(src[p])] == lib.encode(src[q]);
    assert lib.decode(lib.encode(src[q])) == Some(src[q]);
  }

  lemma SafeToWrite(src: Folder, files: Folder, p: string)
    requires RealFolder(src) && p in src && forall q :: q in files ==> q in src
    ensures !UnsafePath(p) && !Obstructed(files, p)
  {
  }

  /** Each entry restores its own file. */
  lemma {:induction false} RestoresEach(lib: Codec, src: Folder, names: seq<string>, blobs: map<string, Bytes>,
                                        entries: seq<Entry>, i: nat)
    requires Archived(lib, src, names, blobs, entries) && NoBackslash(src) && NoCollision(lib, src) && i <= |entries|
    ensures var r := RestoreAll(lib, blobs, entries[..i], map[]);
            && r.trouble.None?
            && (forall k :: k in r.files ==> k in src && Keeps(src, k) && r.files[k] == src[k])
            && (forall e :: e in entries[..i] ==> e.path in r.files)
  {
    hide Archived, NoBackslash, NoCollision, Keeps, UnsafePath, Unpacked, Obstructed;
    if i > 0 {
      RestoresEach(lib, src, names, blobs, entries, i - 1);
      var r, e := RestoreAll(lib, blobs, entries[..i - 1], map[]), entries[i - 1];
      assert entries[..i][..i - 1] == entries[..i - 1];
      assert entries[..i] == entries[..i - 1] + [e];
      var p := FileOf(lib, src, names, blobs, entries, e);
      BlobUnpacks(lib, src, names, blobs, entries, p);
      SafeNow(lib, src, names, blobs, entries, r.files, p);
    }
  }

  lemma SafeNow(lib: Codec, src: Folder, names: seq<string>, blobs: map<string, Bytes>, entries: seq<Entry>,
                files: Folder, p: string)
    requires Archived(lib, src, names, blobs, entries) && p in src && forall q :: q in files ==> q in src
    ensures !UnsafePath(p) && !Obstructed(files, p)
  {
    SafeToWrite(src, files, p);
  }

  lemma FileOf(lib: Codec, src: Folder, names: seq<string>, blobs: map<string, Bytes>, entries: seq<Entry>, e: Entry)
    returns (p: string)
    requires Archived(lib, src, names, blobs, entries) && e in entries
    ensures Keeps(src, p) && p in src && e == EntryOf(lib, src, p)
    ensures NoBackslash(src) ==> e.path == p
  {
    p :| p in names && Keeps(src, p) && e == EntryOf(lib, src, p);
  }

  /** What a restoration that ran through wrote. */
  lemma {:induction false} WroteOnlyEntries(lib: Codec, blobs: map<string, Bytes>, entries: seq<Entry>)
    requires RestoreAll(lib, blobs, entries, map[]).trouble.None?
    ensures var files := RestoreAll(lib, blobs, entries, map[]).files;
            forall k :: k in files ==> exists e :: e in entries && e.path == k && Unpacked(lib, blobs, e) == Good(files[k])
  {
    hide UnsafePath, Unpacked, Obstructed;
    if entries != [] {
      var front, last := entries[..|entries| - 1], entries[|entries| - 1];
      WroteOnlyEntries(lib, blobs, front);
      assert entries == front + [last];
      var files := RestoreAll(lib, blobs, entries, map[]).files;
      var before := RestoreAll(lib, blobs, front, map[]).files;
      forall k | k in files ensures exists e :: e in entries && e.path == k && Unpacked(lib, blobs, e) == Good(files[k]) {
        if k == last.path {
          assert last in entries;
        } else {
          var e :| e in front && e.path == k && Unpacked(lib, blobs, e) == Good(before[k]);
          assert e in entries;
        }
      }
    }
  }

  lemma WholeImpliesClean(lib: Codec, src: Folder, names: seq<string>, blobs: map<string, Bytes>, entries: seq<Entry>)
    requires Archived(lib, src, names, blobs, entries)
    requires RestoreAll(lib, blobs, entries, map[]) == Restoration(None, Kept(src))
    ensures NoBackslash(src) && NoCollision(lib, src)
  {
    hide Archived, Unpacked, RestoreAll, Excluded;
    WroteOnlyEntries(lib, blobs, entries);
    forall p | Keeps(src, p) ensures '\\' !in p {
      assert p in Kept(src);
      var e :| e in entries && e.path == p;
      var q := FileOf(lib, src, names, blobs, entries, e);
    }
    forall p, q | Keeps(src, p) && Keeps(src, q) && lib.hash(src[p]) == lib.hash(src[q]) ensures src[p] == src[q] {
      UnpacksItself(lib, src, names, blobs, entries, p);
      UnpacksItself(lib, src, names, blobs, entries, q);
      SameDigest(lib, blobs, EntryOf(lib, src, p), EntryOf(lib, src, q));
    }
  }

  lemma SameDigest(lib: Codec, blobs: map<string, Bytes>, a: Entry, b: Entry)
    requires a.digest == b.digest && Unpacked(lib, blobs, a).Good? && Unpacked(lib, blobs, b).Good?
    ensures Unpacked(lib, blobs, a) == Unpacked(lib, blobs, b)
  {
  }

  lemma UnpacksItself(lib: Codec, src: Folder, names: seq<string>, blobs: map<string, Bytes>, entries: seq<Entry>, p: string)
    requires Archived(lib, src, names, blobs, entries) && NoBackslash(src) && Keeps(src, p)
    requires forall k :: k in Kept(src) ==> exists e :: e in entries && e.path == k && Unpacked(lib, blobs, e) == Good(Kept(src)[k])
    ensures Unpacked(lib, blobs, EntryOf(lib, src, p)) == Good(src[p])
  {
    hide Archived, Unpacked, Excluded;
    assert p in Kept(src);
    var e :| e in entries && e.path == p && Unpacked(lib, blobs, e) == Good(Kept(src)[p]);
    var q := FileOf(lib, src, names, blobs, entries, e);
  }

  /** Restoring a created archive into an empty folder gives back exactly the kept files if and
      only if no kept name has a backslash and no two kept contents share a digest. */
  lemma RoundTripExactly(lib: Codec, src: Folder, names: seq<string>, blobs: map<string, Bytes>, entries: seq<Entry>)
    requires Archived(lib, src, names, blobs, entries)
    ensures RestoreAll(lib, blobs, entries, map[]) == Restoration(None, Kept(src))
            <==> NoBackslash(src) && NoCollision(lib, src)
  {
    hide RestoreAll, Archived, NoBackslash, NoCollision;
    var r := RestoreAll(lib, blobs, entries, map[]);
    if NoBackslash(src) && NoCollision(lib, src) {
      RestoresEach(lib, src, names, blobs, entries, |entries|);
      assert entries[..|entries|] == entries;
      forall p | Keeps(src, p) ensures p in r.files {
        KeptIsListed(lib, src, names, blobs, entries, p);
      }
      hide Excluded;
      assert r.files == Kept(src);
    } else if r == Restoration(None, Kept(src)) {
      WholeImpliesClean(lib, src, names, blobs, entries);
    }
  }

  lemma KeptIsListed(lib: Codec, src: Folder, names: seq<string>, blobs: map<string, Bytes>, entries: seq<Entry>, p: string)
    requires Archived(lib, src, names, blobs, entries) && NoBackslash(src) && Keeps(src, p)
    ensures EntryOf(lib, src, p) in entries && EntryOf(lib, src, p).path == p
  {
    hide Blobbed, RealFolder, Excluded;
  }

  /** Create, then restore into an empty folder. */
  method CreateAndRestore(lib: Codec, src: Folder, names: seq<string>, store: Store) returns (out: Restoration)
    requires lib.RoundTrips() && RealFolder(src) && Enumerates(names, src)
    ensures out == Restoration(None, Kept(src)) <==> NoBackslash(src) && NoCollision(lib, src)
  {
    hide Listed, Blobbed, RealFolder, Enumerates, NoBackslash, NoCollision, RestoreAll;
    var made := Create(lib, src, names, store);
    out := Restore(lib, made, map[]);
    RoundTripExactly(lib, src, names, made.blobs, made.index.value);
  }

  // ---------------------------------------------------------------- inputs that fail

  lemma OneEntryRestores(lib: Codec, blobs: map<string, Bytes>, files: Folder, entries: seq<Entry>, e: Entry, data: Bytes)
    requires lib.RoundTrips() && RestoreAll(lib, blobs, entries, map[]) == Restoration(None, files)
    requires e.digest in blobs && blobs[e.digest] == lib.encode(data) && |data| == e.size && lib.hash(data) == e.digest
    requires !UnsafePath(e.path) && !Obstructed(files, e.path)
    ensures RestoreAll(lib, blobs, entries + [e], map[]) == Restoration(None, files[e.path := data])
  {
    hide UnsafePath, Obstructed;
    assert lib.decode(lib.encode(data)) == Some(data);
    assert (entries + [e])[..|entries|] == entries;
  }

  lemma {:induction false} SplitPlain(s: string)
    requires '/' !in s
    ensures Split(s) == [s]
  {
    if s != "" {
      SplitPlain(s[1..]);
      assert s == [s[0]] + s[1..];
    }
  }

  lemma {:induction false} SplitAt(p: string, q: string)
    requires '/' !in p
    ensures Split(p + "/" + q) == [p] + Split(q)
  {
    var s := p + "/" + q;
    if p == "" {
      assert s[1..] == q;
    } else {
      assert s[0] == p[0] && s[1..] == p[1..] + "/" + q;
      SplitAt(p[1..], q);
      assert p == [p[0]] + p[1..];
    }
  }

  lemma SlashedSmall()
    ensures Slashed("a\\b") == "a/b"
  {
    assert "a\\b"[1..] == "\\b" && "\\b"[1..] == "b";
    assert Slashed("b") == "b" && Slashed("\\b") == "/b";
  }

  /** A name that any folder may hold and the archive keeps. */
  ghost predicate Ordinary(name: string) {
    "" !in Split(name) && "." !in Split(name) && ".." !in Split(name) && !Excluded(Slashed(name))
  }

  lemma ListedOne(lib: Codec, name: string, data: Bytes)
    requires lib.RoundTrips() && Ordinary(name)
    ensures var src := map[name := data];
            && Archived(lib, src, [name], map[lib.hash(data) := lib.encode(data)], [EntryOf(lib, src, name)])
            && Kept(src) == src
  {
    hide Split, Slashed, Excluded, Codec.RoundTrips;
    var src, digest := map[name := data], lib.hash(data);
    assert Keeps(src, name) && name in [name];
    assert BlobOf(lib, src, [name], digest, lib.encode(data));
    assert EntryOf(lib, src, name) in [EntryOf(lib, src, name)];
  }

  /** One file named `a\b`: its archive restores without trouble, as another file. */
  lemma BackslashMovesTheFile(lib: Codec, data: Bytes)
    requires lib.RoundTrips()
    ensures var src := map["a\\b" := data];
            var blobs, entries := map[lib.hash(data) := lib.encode(data)], [EntryOf(lib, src, "a\\b")];
            && Archived(lib, src, ["a\\b"], blobs, entries) && Kept(src) == src
            && RestoreAll(lib, blobs, entries, map[]) == Restoration(None, map["a/b" := data])
            && RestoreAll(lib, blobs, entries, map[]) != Restoration(None, Kept(src))
  {
    NamesAreOrdinary();
    hide Ordinary, UnsafePath;
    ListedOne(lib, "a\\b", data);
    hide Archived, Kept, EntryOf;
    var e, blobs := Entry("a/b", |data|, lib.hash(data)), map[lib.hash(data) := lib.encode(data)];
    assert EntryOf(lib, map["a\\b" := data], "a\\b") == e by {
      EntryIs(lib, map["a\\b" := data], "a\\b");
    }
    assert RestoreAll(lib, blobs, [], map[]) == Restoration(None, map[]);
    hide RestoreAll;
    OneEntryRestores(lib, blobs, map[], [], e, data);
    assert [] + [e] == [e];
    var restored: Folder := map["a/b" := data];
    assert "a/b" in restored && "a/b"[1] != "a\\b"[1];
  }

  lemma EntryIs(lib: Codec, src: Folder, p: string)
    requires p in src
    ensures EntryOf(lib, src, p) == Entry(Slashed(p), |src[p]|, lib.hash(src[p]))
  {
  }

  lemma NamesAreOrdinary()
    ensures Ordinary("a") && Ordinary("b") && Ordinary("a\\b")
    ensures Slashed("a") == "a" && Slashed("b") == "b" && Slashed("a\\b") == "a/b"
    ensures !UnsafePath("a") && !UnsafePath("b") && !UnsafePath("a/b")
  {
    SlashedSmall();
    assert Slashed("a") == "a" && Slashed("b") == "b";
    SplitPlain("a");
    SplitPlain("b");
    SplitPlain("a\\b");
    SplitAt("a", "b");
    assert "a" + "/" + "b" == "a/b";
    hide Split, Slashed;
  }

  lemma ListedTwo(lib: Codec, x: Bytes, y: Bytes)
    requires lib.RoundTrips() && lib.hash(x) == lib.hash(y) && Ordinary("a") && Ordinary("b")
    ensures var src := map["a" := x, "b" := y];
            && Archived(lib, src, ["a", "b"], map[lib.hash(x) := lib.encode(y)], [EntryOf(lib, src, "a"), EntryOf(lib, src, "b")])
            && Kept(src) == src
  {
    hide Split, Slashed, Excluded, Codec.RoundTrips;
    var src: Folder, names := map["a" := x, "b" := y], ["a", "b"];
    var e, f := EntryOf(lib, src, "a"), EntryOf(lib, src, "b");
    assert names[0] == "a" && names[1] == "b" && Keeps(src, "a") && Keeps(src, "b");
    TwoAreReal(src);
    hide Keeps, Ordinary, RealFolder, EntryOf;
    assert Enumerates(names, src);
    assert Blobbed(lib, src, names, map[lib.hash(x) := lib.encode(y)]) by {
      assert BlobOf(lib, src, names, lib.hash(x), lib.encode(y));
    }
    hide Blobbed, Enumerates;
    assert Listed(lib, src, names, [e, f]) by {
      assert [e, f][0] == e && [e, f][1] == f;
    }
  }

  lemma TwoAreReal(src: Folder)
    requires src.Keys == {"a", "b"} && Ordinary("a") && Ordinary("b")
    ensures RealFolder(src) && Kept(src) == src
  {
    hide Split, Slashed, Excluded;
  }

  /** Two files with one digest: the archive restores without trouble, and the second one's
      bytes are in both. */
  lemma CollisionMixesFiles(lib: Codec, x: Bytes, y: Bytes)
    requires lib.RoundTrips() && lib.hash(x) == lib.hash(y) && |x| == |y| && x != y
    ensures var src := map["a" := x, "b" := y];
            var blobs, entries := map[lib.hash(x) := lib.encode(y)], [EntryOf(lib, src, "a"), EntryOf(lib, src, "b")];
            && Archived(lib, src, ["a", "b"], blobs, entries) && Kept(src) == src
            && RestoreAll(lib, blobs, entries, map[]) == Restoration(None, map["a" := y, "b" := y])
            && RestoreAll(lib, blobs, entries, map[]) != Restoration(None, Kept(src))
  {
    NamesAreOrdinary();
    hide Ordinary;
    ListedTwo(lib, x, y);
    BothRestore(lib, x, y);
    hide Archived, Kept, EntryOf, RestoreAll;
    var src, restored: Folder := map["a" := x, "b" := y], map["a" := y, "b" := y];
    assert restored["a"] != src["a"];
  }

  lemma BothRestore(lib: Codec, x: Bytes, y: Bytes)
    requires lib.RoundTrips() && lib.hash(x) == lib.hash(y) && |x| == |y|
    ensures var src := map["a" := x, "b" := y];
            var blobs, entries := map[lib.hash(x) := lib.encode(y)], [EntryOf(lib, src, "a"), EntryOf(lib, src, "b")];
            RestoreAll(lib, blobs, entries, map[]) == Restoration(None, map["a" := y, "b" := y])
  {
    NamesAreOrdinary();
    hide Ordinary, UnsafePath, EntryOf;
    var src, blobs := map["a" := x, "b" := y], map[lib.hash(x) := lib.encode(y)];
    var e, f := Entry("a", |x|, lib.hash(x)), Entry("b", |y|, lib.hash(y));
    EntryIs(lib, src, "a");
    EntryIs(lib, src, "b");
    assert RestoreAll(lib, blobs, [], map[]) == Restoration(None, map[]);
    hide RestoreAll;
    OneEntryRestores(lib, blobs, map[], [], e, y);
    assert [] + [e] == [e] && [e] + [f] == [e, f];
    OneEntryRestores(lib, blobs, map["a" := y], [e], f, y);
  }
}
