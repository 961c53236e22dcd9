/**
 * `FileChangesTracker`: compares the current listing of source files with the stored
 * fingerprints, inside a transaction that stores the new fingerprints on commit.
 * Source files are identified by their relative path; the listing and the fingerprint
 * function (the file's modification time in the original) are inputs.
 */
module FileChanges {
  import opened Wrappers
  import opened ClassMapping
  import opened Persistency

  /** `ChangedSourceSet`: added and changed files in listing order, and the removed paths. */
  datatype ChangedSourceSet = ChangedSourceSet(added: seq<SourcePath>, changed: seq<SourcePath>, removed: set<SourcePath>)

  /** `isEmpty`. */
  predicate IsEmpty(c: ChangedSourceSet) {
    c.added == [] && c.changed == [] && c.removed == {}
  }

  /** `listFiles`: what is to be compiled, the added files and then the changed ones. */
  function ListFiles(c: ChangedSourceSet): (r: seq<SourcePath>)
    ensures |r| == |c.added| + |c.changed|
    ensures forall f :: f in r <==> f in c.added || f in c.changed
  {
    c.added + c.changed
  }

  /** The listed files without a stored fingerprint, in listing order. */
  function Added(stored: map<SourcePath, string>, files: seq<SourcePath>): seq<SourcePath>
    decreases |files|
  {
    if files == [] then []
    else
      var init := Added(stored, files[..|files| - 1]);
      if files[|files| - 1] !in stored then init + [files[|files| - 1]] else init
  }

  /** The listed files whose fingerprint differs from the stored one, in listing order. */
  function Changed(stored: map<SourcePath, string>, files: seq<SourcePath>, hash: SourcePath -> string): seq<SourcePath>
    decreases |files|
  {
    if files == [] then []
    else
      var f := files[|files| - 1];
      var init := Changed(stored, files[..|files| - 1], hash);
      if f in stored && stored[f] != hash(f) then init + [f] else init
  }

  /** The fingerprints of the listed files. */
  function HashesOf(files: seq<SourcePath>, hash: SourcePath -> string): (m: map<SourcePath, string>)
    ensures m.Keys == set f | f in files
    ensures forall f :: f in m ==> m[f] == hash(f)
  {
    map f | f in files :: hash(f)
  }

  /** What `listChangedFiles` reports against the snapshot `stored` (`null`: no snapshot). */
  function Diff(stored: Option<map<SourcePath, string>>, files: seq<SourcePath>, hash: SourcePath -> string): ChangedSourceSet {
    match stored
    case None => ChangedSourceSet(files, [], {})
    case Some(h) => ChangedSourceSet(Added(h, files), Changed(h, files, hash), h.Keys - (set f | f in files))
  }

  /** A file is added exactly when it has no stored fingerprint, and added files keep their listing order. */
  lemma {:induction false} AddedIsNewFiles(stored: map<SourcePath, string>, files: seq<SourcePath>)
    ensures forall f :: f in Added(stored, files) <==> f in files && f !in stored
    ensures |Added(stored, files)| <= |files|
    ensures (forall f :: f in files ==> f in stored) ==> Added(stored, files) == []
    decreases |files|
  {
    if files != [] {
      var init := files[..|files| - 1];
      AddedIsNewFiles(stored, init);
      assert files == init + [files[|files| - 1]];
    }
  }

  /** A file is changed exactly when its stored fingerprint differs from the current one. */
  lemma {:induction false} ChangedIsDifferentHash(stored: map<SourcePath, string>, files: seq<SourcePath>, hash: SourcePath -> string)
    ensures forall f :: f in Changed(stored, files, hash) <==> f in files && f in stored && stored[f] != hash(f)
    ensures |Changed(stored, files, hash)| <= |files|
    ensures (forall f :: f in files && f in stored ==> stored[f] == hash(f)) ==> Changed(stored, files, hash) == []
    decreases |files|
  {
    if files != [] {
      var init := files[..|files| - 1];
      ChangedIsDifferentHash(stored, init, hash);
      assert files == init + [files[|files| - 1]];
    }
  }

  /**
   * Each listed file is added, changed or skipped (when its fingerprint is unchanged), and
   * never both added and changed; removed paths are the stored ones no longer listed.
   */
  lemma DiffClassifiesEachFile(stored: map<SourcePath, string>, files: seq<SourcePath>, hash: SourcePath -> string, f: SourcePath)
    ensures var c := Diff(Some(stored), files, hash);
      && (f in c.added <==> f in files && f !in stored)
      && (f in c.changed <==> f in files && f in stored && stored[f] != hash(f))
      && !(f in c.added && f in c.changed)
      && (f in c.removed <==> f in stored && f !in files)
  {
    AddedIsNewFiles(stored, files);
    ChangedIsDifferentHash(stored, files, hash);
  }

  /** Without a snapshot everything listed is added. */
  lemma DiffWithoutSnapshot(files: seq<SourcePath>, hash: SourcePath -> string)
    ensures ListFiles(Diff(None, files, hash)) == files && Diff(None, files, hash).removed == {}
  {
    assert files + [] == files;
  }

  /** Diffing a listing against its own fingerprints finds nothing. */
  lemma DiffAgainstOwnSnapshotIsEmpty(files: seq<SourcePath>, hash: SourcePath -> string)
    ensures IsEmpty(Diff(Some(HashesOf(files, hash)), files, hash))
  {
    var h := HashesOf(files, hash);
    AddedIsNewFiles(h, files);
    ChangedIsDifferentHash(h, files, hash);
  }

  /** `FileChangesTracker.Transaction`. */
  class Transaction {
    /** The fingerprints to store on commit; `null` after a rollback. */
    var newSourceHashes: Option<map<SourcePath, string>>
    const store: SourceHashesFile
    const calcHash: SourcePath -> string

    /** `begin`: the candidate starts as the stored snapshot. */
    constructor (store: SourceHashesFile, snapshot: Option<map<SourcePath, string>>, calcHash: SourcePath -> string)
      ensures this.store == store && this.calcHash == calcHash && newSourceHashes == snapshot
    {
      this.store := store;
      this.calcHash := calcHash;
      newSourceHashes := snapshot;
    }

    /**
     * `listChangedFiles` on the current listing `files`: the diff against the candidate
     * snapshot, which becomes the fingerprints of the listed files.
     */
    method ListChangedFiles(files: seq<SourcePath>) returns (c: ChangedSourceSet)
      modifies this
      ensures c == Diff(old(newSourceHashes), files, calcHash)
      ensures newSourceHashes == Some(HashesOf(files, calcHash))
    {
      if newSourceHashes.None? {
        newSourceHashes := Some(HashesOf(files, calcHash));
        return ChangedSourceSet(files, [], {});
      }
      var sourceHashes := newSourceHashes.value;
      var added: seq<SourcePath> := [];
      var changed: seq<SourcePath> := [];
      var hashes: map<SourcePath, string> := map[];
      for i := 0 to |files|
        invariant added == Added(sourceHashes, files[..i])
        invariant changed == Changed(sourceHashes, files[..i], calcHash)
        invariant hashes == HashesOf(files[..i], calcHash)
      {
        var sourceFile := files[i];
        var newHash := calcHash(sourceFile);
        hashes := hashes[sourceFile := newHash];
        assert files[..i + 1][..i] == files[..i];
        assert files[..i + 1][i] == sourceFile;
        assert HashesOf(files[..i + 1], calcHash) == HashesOf(files[..i], calcHash)[sourceFile := newHash];
        if sourceFile in sourceHashes && sourceHashes[sourceFile] == newHash {
          continue;
        }
        if sourceFile !in sourceHashes {
          added := added + [sourceFile];
        } else {
          changed := changed + [sourceFile];
        }
      }
      assert files[..|files|] == files;
      var removed := sourceHashes.Keys - (set f | f in files);
      newSourceHashes := Some(hashes);
      return ChangedSourceSet(added, changed, removed);
    }

    /** `commit`: stores the candidate unless it was rolled back. */
    method Commit()
      modifies store
      ensures newSourceHashes.Some? ==> store.file.Some? && EncodesMap(store.file.value, newSourceHashes.value)
      ensures newSourceHashes.None? ==> store.file == old(store.file)
    {
      if newSourceHashes.Some? {
        store.Write(newSourceHashes.value);
      }
    }

    /** `rollback`: drops the candidate, so a later commit stores nothing. */
    method Rollback()
      modifies this
      ensures newSourceHashes.None?
    {
      newSourceHashes := None;
    }
  }

  /** `begin`: reads the stored snapshot; a malformed file is an error. */
  method Begin(store: SourceHashesFile, calcHash: SourcePath -> string) returns (r: Result<Transaction>)
    ensures r.Success? <==> store.Read().Success?
    ensures r.Failure? ==> r.error == store.Read().error
    ensures r.Success? ==> fresh(r.value) && r.value.store == store && r.value.calcHash == calcHash &&
                           r.value.newSourceHashes == store.Read().value
  {
    var snapshot := store.Read();
    if snapshot.Failure? {
      return Failure(snapshot.error);
    }
    var tx := new Transaction(store, snapshot.value, calcHash);
    return Success(tx);
  }
}
