/**
 * The file-backed repository: a map from identifier to vector, kept in step
 * with an in-memory index, written in full to a snapshot file after every
 * change, and backed by the write-ahead log. The repository port's
 * contracts are stated on this, its only implementation.
 *
 * The two files are explicit state: the snapshot file (a serialised map)
 * and the log file. Starting a repository over two files is a function of
 * their contents, `Restarted`, so that what survives a restart can be
 * stated and proved.
 */
module FileRepository {
  import opened Wrappers
  import opened JavaStrings
  import opened ValueObjects
  import opened Entities
  import opened WalCodec
  import opened Wal
  import opened FlatIndex

  const NullPath: string := "File path cannot be null"
  const EmptyPath: string := "File path cannot be empty"
  const NullVectorId: string := "Vector ID cannot be null"

  /** Every vector is filed under its own identifier. */
  predicate Keyed(m: map<VectorId, Vector>)
  {
    forall k :: k in m ==> m[k].id == k
  }

  /** The map a snapshot file holds: the repository only ever writes keyed maps. */
  type Snapshot = m: map<VectorId, Vector> | Keyed(m) witness map[]

  /** The snapshot file: absent, present but not readable as a map, or a stored map. */
  datatype SnapshotFile = Missing | Unreadable | Stored(contents: Snapshot)

  /** The two files of a repository: the snapshot and the log (None while absent). */
  datatype Files = Files(snapshot: SnapshotFile, wal: Option<seq<string>>)

  /** `Paths.get(filePath)`: the text after the last `/` is the file name. */
  function PathOf(s: string): (p: FilePath)
    ensures '/' !in p.fileName
    ensures p.parent.None? ==> p.fileName == s
    ensures p.parent.Some? ==> s == p.parent.value + ['/'] + p.fileName
  {
    var k := LastIndexOf(s, '/');
    if k == -1 then FilePath(None, s)
    else
      assert s == s[..k] + ['/'] + s[k + 1..];
      FilePath(Some(s[..k]), s[k + 1..])
  }

  // ------------------------------------------------- the map and the index

  /** The same entries keyed by identifier text, as the in-memory index files them. */
  function ByText(m: map<VectorId, Vector>): (ix: map<string, Vector>)
    ensures forall k :: k in m ==> k.value in ix && ix[k.value] == m[k]
    ensures forall s :: s in ix ==> RawVectorId(s) in m
  {
    map k | k in m :: k.value := m[k]
  }

  lemma ByTextUpdate(m: map<VectorId, Vector>, k: VectorId, v: Vector)
    ensures ByText(m[k := v]) == ByText(m)[k.value := v]
  {
  }

  lemma ByTextRemove(m: map<VectorId, Vector>, k: VectorId)
    ensures ByText(m - {k}) == ByText(m) - {k.value}
  {
  }

  lemma ByTextAddNew(m: map<VectorId, Vector>, k: VectorId, v: Vector)
    requires k !in m
    ensures |ByText(m[k := v])| == |ByText(m)| + 1
    ensures |m[k := v]| == |m| + 1
  {
    ByTextUpdate(m, k, v);
    assert k.value !in ByText(m);
  }

  /** Both maps hold as many entries: identifiers and their texts correspond one to one. */
  lemma {:induction false} ByTextSize(m: map<VectorId, Vector>)
    ensures |ByText(m)| == |m|
    decreases |m|
  {
    if m != map[] {
      var k :| k in m;
      var rest := m - {k};
      assert m == rest[k := m[k]];
      ByTextAddNew(rest, k, m[k]);
      ByTextSize(rest);
    }
  }

  /** A keyed map holds as many distinct vectors as identifiers. */
  lemma {:induction false} KeyedValues(m: map<VectorId, Vector>)
    requires Keyed(m)
    ensures |m.Values| == |m|
    decreases |m|
  {
    if m != map[] {
      var k :| k in m;
      var rest := m - {k};
      KeyedValues(rest);
      forall v | v in m.Values ensures v in rest.Values + {m[k]} {
        var j :| j in m && m[j] == v;
        if j != k {
          assert rest[j] == v;
        }
      }
      assert m.Values == rest.Values + {m[k]};
      assert m[k] !in rest.Values;
      assert m.Keys == rest.Keys + {k};
    }
  }

  // ------------------------------------------------------------- restarting

  /** The map a snapshot file loads as: an absent or unreadable file loads nothing. */
  function Loaded(s: SnapshotFile): Snapshot
  {
    if s.Stored? then s.contents else map[]
  }

  /**
   * The loop of `recoverFromWAL`: each recovered vector is added only when
   * its identifier is not present yet.
   */
  function MergeNew(m: map<VectorId, Vector>, vs: seq<Vector>): (r: map<VectorId, Vector>)
    ensures forall k :: k in m ==> k in r && r[k] == m[k]
    ensures forall i :: 0 <= i < |vs| ==> vs[i].id in r
    ensures Keyed(m) ==> Keyed(r)
    decreases |vs|
  {
    if vs == [] then m
    else
      var init := vs[..|vs| - 1];
      var v := vs[|vs| - 1];
      var prev := MergeNew(m, init);
      assert forall i :: 0 <= i < |init| ==> init[i] == vs[i];
      if v.id in prev then prev else prev[v.id := v]
  }

  /** Among log entries for an identifier the snapshot lacks, the earliest wins. */
  lemma {:induction false} MergeNewEarliest(m: map<VectorId, Vector>, vs: seq<Vector>, i: nat)
    requires i < |vs|
    requires vs[i].id !in m
    requires forall j :: 0 <= j < i ==> vs[j].id != vs[i].id
    ensures MergeNew(m, vs)[vs[i].id] == vs[i]
    decreases |vs|
  {
    var init := vs[..|vs| - 1];
    if i < |vs| - 1 {
      assert init[i] == vs[i];
      MergeNewEarliest(m, init, i);
    } else {
      assert forall j :: 0 <= j < |init| ==> init[j] == vs[j];
      MergeNewAbsent(m, init, vs[i].id);
    }
  }

  /** An identifier neither in the map nor among the entries stays absent. */
  lemma {:induction false} MergeNewAbsent(m: map<VectorId, Vector>, vs: seq<Vector>, k: VectorId)
    requires k !in m
    requires forall j :: 0 <= j < |vs| ==> vs[j].id != k
    ensures k !in MergeNew(m, vs)
    decreases |vs|
  {
    if vs != [] {
      var init := vs[..|vs| - 1];
      assert forall j :: 0 <= j < |init| ==> init[j] == vs[j];
      MergeNewAbsent(m, init, k);
    }
  }

  /** Log entries whose identifiers are all present already add nothing. */
  lemma {:induction false} MergeNewCovered(m: map<VectorId, Vector>, vs: seq<Vector>)
    requires forall i :: 0 <= i < |vs| ==> vs[i].id in m
    ensures MergeNew(m, vs) == m
    decreases |vs|
  {
    if vs != [] {
      var init := vs[..|vs| - 1];
      assert forall i :: 0 <= i < |init| ==> init[i] == vs[i];
      MergeNewCovered(m, init);
    }
  }

  /** One more entry extends the merge by that entry when its identifier is new. */
  lemma MergeNewStep(m: map<VectorId, Vector>, vs: seq<Vector>, i: nat)
    requires i < |vs|
    ensures MergeNew(m, vs[..i + 1]) ==
      (var prev := MergeNew(m, vs[..i]); if vs[i].id in prev then prev else prev[vs[i].id := vs[i]])
  {
    assert vs[..i + 1][..i] == vs[..i];
  }

  /** A single entry is added exactly when its identifier is new. */
  lemma MergeNewSingle(m: map<VectorId, Vector>, v: Vector)
    ensures MergeNew(m, [v]) == if v.id in m then m else m[v.id := v]
  {
    assert [v][..0] == [];
  }

  /** The map a new repository over `files` holds once started. */
  function Restarted(fmt: NumberFormat, files: Files): Snapshot
  {
    MergeNew(Loaded(files.snapshot), RecoverLines(fmt, LinesOf(files.wal)))
  }

  /**
   * The files after starting: when the log yielded any vector, even one
   * that was skipped, the snapshot is rewritten and the log deleted.
   */
  function RestartedFiles(fmt: NumberFormat, files: Files): Files
  {
    if RecoverLines(fmt, LinesOf(files.wal)) == [] then files
    else Files(Stored(Restarted(fmt, files)), None)
  }

  /** Each vector the log yields is already in `m`. */
  ghost predicate WalCovered(fmt: NumberFormat, wal: Option<seq<string>>, m: map<VectorId, Vector>)
  {
    forall v :: v in RecoverLines(fmt, LinesOf(wal)) ==> v.id in m
  }

  /** Logging a vector that is then filed keeps the log covered. */
  lemma LoggedCovered(fmt: NumberFormat, wal: Option<seq<string>>, m: map<VectorId, Vector>, v: Vector)
    requires WalCovered(fmt, wal, m)
    requires RoundTrips(fmt, v.data.values)
    ensures WalCovered(fmt, Some(LinesOf(wal) + [EncodeLine(fmt, v)]), m[v.id := v])
  {
    RecoverAfterLog(fmt, LinesOf(wal), v);
  }

  /** The files restart to exactly `m`: the snapshot holds `m` and the log adds nothing. */
  ghost predicate Durable(fmt: NumberFormat, files: Files, m: map<VectorId, Vector>)
  {
    Loaded(files.snapshot) == m && WalCovered(fmt, files.wal, m)
  }

  /** A fresh snapshot of `m` beside no log restarts to exactly `m`. */
  lemma SavedDurable(fmt: NumberFormat, m: Snapshot)
    ensures Durable(fmt, Files(Stored(m), None), m)
  {
    assert RecoverLines(fmt, LinesOf(None)) == [];
  }

  /** Durable files give the same map back on restart, and are left durable. */
  lemma RestartDurable(fmt: NumberFormat, files: Files, m: map<VectorId, Vector>)
    requires Durable(fmt, files, m)
    ensures Restarted(fmt, files) == m
    ensures Durable(fmt, RestartedFiles(fmt, files), m)
  {
    var vs := RecoverLines(fmt, LinesOf(files.wal));
    MergeNewCovered(m, vs);
  }

  /** Whatever the files held, a started repository leaves them durable. */
  lemma StartupDurable(fmt: NumberFormat, files: Files)
    ensures Durable(fmt, RestartedFiles(fmt, files), Restarted(fmt, files))
  {
  }

  /** Starting twice over the same files is starting once. */
  lemma RestartTwice(fmt: NumberFormat, files: Files)
    ensures Restarted(fmt, RestartedFiles(fmt, files)) == Restarted(fmt, files)
  {
    StartupDurable(fmt, files);
    RestartDurable(fmt, RestartedFiles(fmt, files), Restarted(fmt, files));
  }

  /**
   * A checkpointed repository that saves a new vector and deletes it again
   * leaves the snapshot as it was and the insert in the log, since
   * `deleteById` does not touch the log: the next start brings the vector back.
   */
  lemma DeletedComesBack(fmt: NumberFormat, m: Snapshot, v: Vector)
    requires v.id !in m
    requires RoundTrips(fmt, v.data.values)
    ensures Restarted(fmt, Files(Stored(m), Some([EncodeLine(fmt, v)]))) == m[v.id := v]
    ensures Restarted(fmt, Files(Stored(m), Some([EncodeLine(fmt, v)]))) != m
    ensures !Durable(fmt, Files(Stored(m), Some([EncodeLine(fmt, v)])), m)
  {
    var files := Files(Stored(m), Some([EncodeLine(fmt, v)]));
    RecoverSingle(fmt, v);
    assert LinesOf(files.wal) == [EncodeLine(fmt, v)];
    MergeNewSingle(m, v);
    assert Restarted(fmt, files) == m[v.id := v];
    assert v.id in m[v.id := v];
    assert v in RecoverLines(fmt, LinesOf(files.wal));
  }

  // ------------------------------------------------ the files by their paths

  /** What a path holds: a serialised map, or the lines of a text file. */
  datatype DiskFile = MapData(contents: Snapshot) | TextLines(lines: seq<string>)

  /**
   * The two files a repository sees at its data path and its log path. A
   * text file at the data path cannot be read as a map; `garble` stands for
   * the lines the bytes of a serialised map read as, which the model leaves
   * open.
   */
  function FilesAt(disk: map<FilePath, DiskFile>, data: FilePath, wal: FilePath, garble: Snapshot -> seq<string>): (f: Files)
    ensures data !in disk ==> f.snapshot == Missing
    ensures wal !in disk ==> f.wal == None
  {
    var snapshot :=
      if data !in disk then Missing
      else match disk[data]
        case MapData(m) => Stored(m)
        case TextLines(_) => Unreadable;
    var log :=
      if wal !in disk then None
      else match disk[wal]
        case TextLines(lines) => Some(lines)
        case MapData(m) => Some(garble(m));
    Files(snapshot, log)
  }

  /** `checkpoint()` on disk: the map is written to the data path, then the log path is deleted. */
  function CheckpointDisk(disk: map<FilePath, DiskFile>, data: FilePath, wal: FilePath, m: Snapshot): map<FilePath, DiskFile>
  {
    disk[data := MapData(m)] - {wal}
  }

  /**
   * On two different paths a checkpoint leaves the snapshot of `m` and no
   * log, the files `FileVectorRepository.Checkpoint` ends with, and they
   * restart to `m`.
   */
  lemma CheckpointSeparate(fmt: NumberFormat, disk: map<FilePath, DiskFile>, data: FilePath, wal: FilePath, m: Snapshot, garble: Snapshot -> seq<string>)
    requires wal != data
    ensures FilesAt(CheckpointDisk(disk, data, wal, m), data, wal, garble) == Files(Stored(m), None)
    ensures Restarted(fmt, FilesAt(CheckpointDisk(disk, data, wal, m), data, wal, garble)) == m
  {
    var after := CheckpointDisk(disk, data, wal, m);
    assert data in after && after[data] == MapData(m);
    assert wal !in after;
    SavedDurable(fmt, m);
    RestartDurable(fmt, Files(Stored(m), None), m);
  }

  /**
   * As written, a data file whose name has no dot is its own log, so a
   * checkpoint deletes the snapshot it has just written: a restart finds
   * no vector at all.
   */
  lemma CheckpointSharedLoses(fmt: NumberFormat, disk: map<FilePath, DiskFile>, data: FilePath, m: Snapshot, garble: Snapshot -> seq<string>)
    requires '.' !in data.fileName
    requires m != map[]
    ensures WalPath(data) == data
    ensures Restarted(fmt, FilesAt(CheckpointDisk(disk, data, WalPath(data), m), data, WalPath(data), garble)) == map[]
    ensures !Durable(fmt, FilesAt(CheckpointDisk(disk, data, WalPath(data), m), data, WalPath(data), garble), m)
  {
    WalPathShared(data);
    var files := FilesAt(CheckpointDisk(disk, data, data, m), data, data, garble);
    assert files == Files(Missing, None);
    assert RecoverLines(fmt, LinesOf(files.wal)) == [];
  }

  /** With the corrected log name a checkpoint keeps every vector across a restart. */
  lemma CheckpointFixedKeeps(fmt: NumberFormat, disk: map<FilePath, DiskFile>, data: FilePath, m: Snapshot, garble: Snapshot -> seq<string>)
    ensures Restarted(fmt, FilesAt(CheckpointDisk(disk, data, WalPathFixed(data), m), data, WalPathFixed(data), garble)) == m
    ensures Durable(fmt, FilesAt(CheckpointDisk(disk, data, WalPathFixed(data), m), data, WalPathFixed(data), garble), m)
  {
    WalPathSeparate(data);
    CheckpointSeparate(fmt, disk, data, WalPathFixed(data), m, garble);
    SavedDurable(fmt, m);
  }

  // --------------------------------------------------------- the repository

  class FileVectorRepository {
    var vectors: map<VectorId, Vector>
    const memoryIndex: FlatVectorIndex
    const writeAheadLog: WriteAheadLog
    const dataFile: FilePath
    /** The snapshot file at `dataFile`. */
    var snapshot: SnapshotFile

    /** The map and the index hold the same pairs. */
    ghost predicate Valid()
      reads this, memoryIndex
    {
      && memoryIndex.Valid()
      && Keyed(vectors)
      && memoryIndex.vectors == ByText(vectors)
    }

    /** The files on disk restart to the current map. */
    ghost predicate Persisted()
      reads this, writeAheadLog
    {
      Durable(writeAheadLog.format, Files(snapshot, writeAheadLog.file), vectors)
    }

    /**
     * `new FileVectorRepository(filePath)` once the path was checked: the
     * snapshot is loaded, then the log is replayed.
     */
    constructor (dataFile: FilePath, format: NumberFormat, onDisk: Files)
      ensures Valid() && Persisted()
      ensures fresh(memoryIndex) && fresh(writeAheadLog)
      ensures this.dataFile == dataFile
      ensures writeAheadLog.walFile == WalPathFixed(dataFile) && writeAheadLog.walFile != dataFile
      ensures writeAheadLog.format == format
      ensures vectors == Restarted(format, onDisk)
      ensures Files(snapshot, writeAheadLog.file) == RestartedFiles(format, onDisk)
    {
      vectors := map[];
      memoryIndex := new FlatVectorIndex();
      this.dataFile := dataFile;
      writeAheadLog := new WriteAheadLog(dataFile, format, onDisk.wal);
      snapshot := onDisk.snapshot;
      new;
      LoadFromFile();
      RecoverFromWal();
      StartupDurable(format, onDisk);
    }

    /** The path checks of the constructor: a missing or blank path is refused. */
    static method Open(filePath: Option<string>, format: NumberFormat, onDisk: Files)
      returns (r: Result<FileVectorRepository>)
      ensures filePath.None? ==> r == Err(IllegalArgument(NullPath))
      ensures filePath.Some? && IsBlank(filePath.value) ==> r == Err(IllegalArgument(EmptyPath))
      ensures r.Ok? <==> filePath.Some? && !IsBlank(filePath.value)
      ensures r.Ok? ==> fresh(r.value) && r.value.Valid() && r.value.Persisted()
      ensures r.Ok? ==> r.value.dataFile == PathOf(filePath.value)
      ensures r.Ok? ==> r.value.writeAheadLog.walFile != r.value.dataFile
      ensures r.Ok? ==> r.value.vectors == Restarted(format, onDisk)
    {
      if filePath.None? {
        return Err(IllegalArgument(NullPath));
      }
      if IsBlank(filePath.value) {
        return Err(IllegalArgument(EmptyPath));
      }
      var repo := new FileVectorRepository(PathOf(filePath.value), format, onDisk);
      r := Ok(repo);
    }

    /** `loadFromFile()`: the stored map, if the snapshot can be read, into both maps. */
    method LoadFromFile()
      requires Valid() && vectors == map[]
      modifies this, memoryIndex
      ensures Valid()
      ensures vectors == Loaded(snapshot)
      ensures snapshot == old(snapshot)
    {
      if !snapshot.Stored? {
        return;
      }
      var loaded := snapshot.contents;
      vectors := vectors + loaded;
      assert vectors == loaded;
      IndexEach(loaded);
    }

    /** The loop of `loadFromFile` that files each loaded vector in the index. */
    method IndexEach(loaded: Snapshot)
      requires memoryIndex.Valid() && memoryIndex.vectors == map[]
      modifies memoryIndex
      ensures memoryIndex.Valid() && memoryIndex.vectors == ByText(loaded)
    {
      var remaining := loaded.Keys;
      while remaining != {}
        invariant remaining <= loaded.Keys
        invariant memoryIndex.Valid()
        invariant forall k :: k in loaded && k !in remaining ==> k.value in memoryIndex.vectors && memoryIndex.vectors[k.value] == loaded[k]
        invariant forall s :: s in memoryIndex.vectors ==> RawVectorId(s) in loaded && RawVectorId(s) !in remaining
        decreases |remaining|
      {
        var k :| k in remaining;
        var _ := memoryIndex.Add(Some(loaded[k]));
        remaining := remaining - {k};
      }
    }

    /**
     * `recoverFromWAL()`: the vectors of the log whose identifiers are not
     * present yet are added; if the log yielded any vector, the snapshot is
     * rewritten and the log deleted.
     */
    method RecoverFromWal()
      requires Valid()
      modifies this, memoryIndex, writeAheadLog
      ensures Valid()
      ensures vectors == MergeNew(old(vectors), RecoverLines(writeAheadLog.format, old(writeAheadLog.Lines())))
      ensures RecoverLines(writeAheadLog.format, old(writeAheadLog.Lines())) == [] ==>
        snapshot == old(snapshot) && writeAheadLog.file == old(writeAheadLog.file)
      ensures RecoverLines(writeAheadLog.format, old(writeAheadLog.Lines())) != [] ==>
        snapshot == Stored(vectors) && writeAheadLog.file == None
    {
      ghost var lines := writeAheadLog.Lines();
      var recovered := writeAheadLog.Recover();
      assert recovered == RecoverLines(writeAheadLog.format, lines);
      MergeRecovered(recovered);
      if recovered != [] {
        SaveToFile();
        writeAheadLog.Clear();
      }
    }

    /** The loop of `recoverFromWAL` over the recovered vectors. */
    method MergeRecovered(recovered: seq<Vector>)
      requires Valid()
      modifies this, memoryIndex
      ensures Valid()
      ensures vectors == MergeNew(old(vectors), recovered)
      ensures snapshot == old(snapshot)
    {
      ghost var start := vectors;
      var i := 0;
      assert recovered[..0] == [];
      while i < |recovered|
        invariant 0 <= i <= |recovered|
        invariant Valid()
        invariant vectors == MergeNew(start, recovered[..i])
        invariant snapshot == old(snapshot)
      {
        MergeNewStep(start, recovered, i);
        AddIfAbsent(recovered[i]);
        i := i + 1;
      }
      assert recovered[..i] == recovered;
    }

    /** One turn of the loop of `recoverFromWAL`: the vector is added unless its identifier is present. */
    method AddIfAbsent(v: Vector)
      requires Valid()
      modifies this, memoryIndex
      ensures Valid()
      ensures vectors == if v.id in old(vectors) then old(vectors) else old(vectors)[v.id := v]
      ensures snapshot == old(snapshot)
    {
      var present := memoryIndex.Contains(Some(v.IdValue()));
      assert present.value <==> v.id in vectors;
      if !present.value {
        ByTextUpdate(vectors, v.id, v);
        vectors := vectors[v.id := v];
        var _ := memoryIndex.Add(Some(v));
      }
    }

    /** `saveToFile()`: the snapshot file is overwritten with the whole map. */
    method SaveToFile()
      requires Valid()
      modifies this
      ensures Valid()
      ensures vectors == old(vectors)
      ensures snapshot == Stored(vectors)
    {
      snapshot := Stored(vectors);
    }

    /**
     * `save(vector)`: the insert is logged first, then filed in both maps,
     * then the whole map is written to the snapshot; the log is kept.
     */
    method Save(vector: Option<Vector>) returns (outcome: Outcome)
      requires Valid()
      modifies this, memoryIndex, writeAheadLog
      ensures Valid()
      ensures vector.None? ==> outcome == Fail(IllegalArgument(Wal.NullVector))
      ensures vector.None? ==> vectors == old(vectors) && snapshot == old(snapshot) && writeAheadLog.file == old(writeAheadLog.file)
      ensures vector.Some? ==> outcome == Pass
      ensures vector.Some? ==> writeAheadLog.file == Some(old(writeAheadLog.Lines()) + [EncodeLine(writeAheadLog.format, vector.value)])
      ensures vector.Some? ==> vectors == old(vectors)[vector.value.id := vector.value] && snapshot == Stored(vectors)
      ensures vector.Some? ==> |vectors| == old(|vectors|) + (if vector.value.id in old(vectors) then 0 else 1)
      ensures vector.Some? && old(Persisted()) && RoundTrips(writeAheadLog.format, vector.value.data.values) ==> Persisted()
    {
      if vector.None? {
        return Fail(IllegalArgument(Wal.NullVector));
      }
      var v := vector.value;
      ghost var log := writeAheadLog.file;
      ghost var m := vectors;
      var _ := writeAheadLog.LogInsert(vector);
      ByTextUpdate(vectors, v.id, v);
      vectors := vectors[v.id := v];
      var _ := memoryIndex.Add(vector);
      SaveToFile();
      if old(Persisted()) && RoundTrips(writeAheadLog.format, v.data.values) {
        LoggedCovered(writeAheadLog.format, log, m, v);
      }
      outcome := Pass;
    }

    /** `findById(vectorId)`: the vector filed under the identifier, if any. */
    function FindById(vectorId: Option<VectorId>): (r: Result<Option<Vector>>)
      reads this
      requires Keyed(vectors)
      ensures vectorId.None? ==> r == Err(IllegalArgument(NullVectorId))
      ensures vectorId.Some? ==> r.Ok? && (r.value.Some? <==> vectorId.value in vectors)
      ensures vectorId.Some? && r.value.Some? ==> r.value.value == vectors[vectorId.value] && r.value.value.id == vectorId.value
    {
      match vectorId
      case None => Err(IllegalArgument(NullVectorId))
      case Some(k) => Ok(if k in vectors then Some(vectors[k]) else None)
    }

    /**
     * `deleteById(vectorId)`, as written: the entry leaves both maps and the
     * snapshot is rewritten when there was one; the log is not touched.
     */
    method DeleteById(vectorId: Option<VectorId>) returns (r: Result<bool>)
      requires Valid()
      modifies this, memoryIndex
      ensures Valid()
      ensures writeAheadLog.file == old(writeAheadLog.file)
      ensures vectorId.None? ==> r == Err(IllegalArgument(NullVectorId)) && vectors == old(vectors) && snapshot == old(snapshot)
      ensures vectorId.Some? ==> r == Ok(vectorId.value in old(vectors))
      ensures vectorId.Some? ==> vectors == old(vectors) - {vectorId.value}
      ensures vectorId.Some? ==> snapshot == if vectorId.value in old(vectors) then Stored(vectors) else old(snapshot)
    {
      if vectorId.None? {
        return Err(IllegalArgument(NullVectorId));
      }
      var k := vectorId.value;
      var existed := k in vectors;
      if existed {
        var removed := vectors[k];
        ByTextRemove(vectors, k);
        vectors := vectors - {k};
        var _ := memoryIndex.Remove(Some(removed.IdValue()));
        SaveToFile();
      }
      r := Ok(existed);
    }

    /**
     * `deleteById(vectorId)` with the log deleted after the snapshot is
     * rewritten, so that no logged insert of the deleted vector survives.
     */
    method DeleteByIdFixed(vectorId: Option<VectorId>) returns (r: Result<bool>)
      requires Valid()
      modifies this, memoryIndex, writeAheadLog
      ensures Valid()
      ensures vectorId.None? ==> r == Err(IllegalArgument(NullVectorId)) && vectors == old(vectors)
      ensures vectorId.None? ==> snapshot == old(snapshot) && writeAheadLog.file == old(writeAheadLog.file)
      ensures vectorId.Some? ==> r == Ok(vectorId.value in old(vectors))
      ensures vectorId.Some? ==> vectors == old(vectors) - {vectorId.value}
      ensures vectorId.Some? && vectorId.value in old(vectors) ==> snapshot == Stored(vectors) && writeAheadLog.file == None
      ensures vectorId.Some? && vectorId.value !in old(vectors) ==> snapshot == old(snapshot) && writeAheadLog.file == old(writeAheadLog.file)
      ensures old(Persisted()) ==> Persisted()
    {
      ghost var fmt := writeAheadLog.format;
      r := DeleteById(vectorId);
      if r == Ok(true) {
        ghost var m := vectors;
        writeAheadLog.Clear();
        assert vectors == m && Valid();
        SavedDurable(fmt, m);
      } else {
        assert vectors == old(vectors);
      }
    }

    /** `findAll()`: the stored vectors, each once. */
    function FindAll(): (r: set<Vector>)
      reads this
      requires Keyed(vectors)
      ensures forall v :: v in r <==> v.id in vectors && vectors[v.id] == v
      ensures |r| == |vectors|
    {
      KeyedValues(vectors);
      vectors.Values
    }

    /** `findAllIds()`: exactly the identifiers `findById` finds a vector for. */
    function FindAllIds(): (r: set<VectorId>)
      reads this
      requires Keyed(vectors)
      ensures forall k :: k in r <==> FindById(Some(k)).value.Some?
      ensures |r| == |vectors|
    {
      vectors.Keys
    }

    /** `count()`: the number of stored vectors, which is also the size of the index. */
    function Count(): (n: nat)
      reads this, memoryIndex
      requires Valid()
      ensures n == |FindAllIds()| && n == memoryIndex.Size()
    {
      ByTextSize(vectors);
      |vectors|
    }

    /** `getMemoryIndex()`: the index, which files every stored vector under its text. */
    function GetMemoryIndex(): (idx: FlatVectorIndex)
      reads this, memoryIndex
      requires Valid()
      ensures idx.Valid()
      ensures forall k :: k in vectors ==> idx.Get(Some(k.value)) == Ok(Some(vectors[k]))
      ensures forall s :: s in idx.vectors ==> RawVectorId(s) in vectors
    {
      memoryIndex
    }

    /** `getAllVectorsFromMemory()`: a list of the stored vectors, one per identifier. */
    method GetAllVectorsFromMemory() returns (list: seq<Vector>)
      requires Valid()
      ensures |list| == |vectors| && DistinctIds(list)
      ensures forall i :: 0 <= i < |list| ==> list[i].id in vectors && vectors[list[i].id] == list[i]
      ensures forall k :: k in vectors ==> vectors[k] in list
    {
      list := memoryIndex.All();
      ByTextSize(vectors);
      forall k | k in vectors ensures vectors[k] in list {
        var i :| 0 <= i < |list| && list[i] == memoryIndex.vectors[k.value];
      }
    }

    /** `checkpoint()`: the snapshot is rewritten and the log deleted. */
    method Checkpoint()
      requires Valid()
      modifies this, writeAheadLog
      ensures Valid() && Persisted()
      ensures vectors == old(vectors) && snapshot == Stored(vectors) && writeAheadLog.file == None
    {
      SaveToFile();
      writeAheadLog.Clear();
    }
  }
}
