/**
 The crash-safe key store of `key_store.py` and `_files.py`, and the registration protocol of `keys.py` on top of it.
 Every file-system or network step may complete, raise, or be the point where the process dies. After every operation,
 however it ends, the last committed bundle is complete, unless one exact step raised: the sync of the key directory
 after `current` was renamed into place, whose clean-up deletes the bundle just committed.
 */
module KeyStore {
  import opened Wrappers

  type Bytes = seq<int>

  datatype TokenIdentity = TokenIdentity(id: string, name: Option<string>)

  datatype QueryKey = QueryKey(context: Bytes, secretKey: Bytes, clientModel: Bytes) {
    /** `QueryKey.__post_init__`. */
    predicate Valid() { context != [] && secretKey != [] && clientModel != [] }
  }

  datatype Metadata = Metadata(version: nat, token: TokenIdentity, uploaded: bool)

  const KEY_BUNDLE_VERSION: nat := 4

  // ----- the disk -----

  datatype Target = ContextFile | SecretKeyFile | ClientModelFile | EvaluationKeyFile | MetadataFile | CurrentFile

  datatype Content = Torn | Blob(bytes: Bytes) | Json(meta: Metadata) | Text(text: string)

  /** A directory: its files, and the temporary files that writers staged there. */
  datatype Dir = Dir(files: map<Target, Content>, temps: map<Target, Content>)

  datatype DirName = Bundle(rev: string) | Staging(rev: string)

  /** The key directory holds `current`; its `bundles` directory holds revisions and staging directories. */
  datatype Disk = Disk(root: Dir, bundles: map<DirName, Dir>)

  datatype Place = Root | In(dir: DirName)

  function EmptyDir(): Dir { Dir(map[], map[]) }

  function DirAt(d: Disk, p: Place): Dir {
    match p
    case Root => d.root
    case In(n) => if n in d.bundles then d.bundles[n] else EmptyDir()
  }

  function SetDir(d: Disk, p: Place, dir: Dir): Disk {
    match p
    case Root => d.(root := dir)
    case In(n) => d.(bundles := d.bundles[n := dir])
  }

  /** What is there apart from temporary files in one place (whose directory may have been created). */
  predicate SameFiles(a: Disk, b: Disk, p: Place) {
    match p
    case Root => a.bundles == b.bundles && a.root.files == b.root.files
    case In(n) =>
      a.root == b.root && a.bundles.Keys <= b.bundles.Keys <= a.bundles.Keys + {n} &&
      (forall m :: m in a.bundles && m != n ==> b.bundles[m] == a.bundles[m]) &&
      DirAt(a, p).files == DirAt(b, p).files
  }

  /** The effect of writing one file, apart from temporary files in its place. */
  predicate Written(a: Disk, b: Disk, p: Place, t: Target, c: Content) {
    SameFiles(SetDir(a, p, DirAt(a, p).(files := DirAt(a, p).files[t := c])), b, p)
  }

  lemma TempsChange(d0: Disk, d: Disk, p: Place, temps: map<Target, Content>)
    requires SameFiles(d0, d, p)
    ensures SameFiles(d0, SetDir(d, p, DirAt(d, p).(temps := temps)), p)
  {}

  lemma FileRenamed(d0: Disk, d: Disk, p: Place, t: Target, c: Content, temps: map<Target, Content>)
    requires SameFiles(d0, d, p)
    ensures Written(d0, SetDir(d, p, Dir(DirAt(d, p).files[t := c], temps)), p, t, c)
  {}

  /** Every file of a is in b with the same content. */
  predicate SubFiles(a: map<Target, Content>, b: map<Target, Content>) {
    forall t :: t in a ==> t in b && a[t] == b[t]
  }

  /** What an operation that may commit revision rev can change: its own directories are new, `current` may name it. */
  predicate Footprint(a: Disk, b: Disk, rev: string) {
    b.bundles.Keys <= a.bundles.Keys + {Bundle(rev), Staging(rev)} &&
    (b.root.files == a.root.files || b.root.files == a.root.files[CurrentFile := Text(rev)])
  }

  lemma FootprintAfter(a: Disk, b: Disk, c: Disk, rev: string)
    requires Footprint(a, b, rev) && Footprint(b, c, rev) && a.root == b.root
    ensures Footprint(a, c, rev)
  {}

  /** Only the directory d may differ. */
  predicate OnlyDir(a: Disk, b: Disk, d: DirName) {
    a.root == b.root && b.bundles.Keys <= a.bundles.Keys &&
    forall m :: m in a.bundles && m != d ==> m in b.bundles && b.bundles[m] == a.bundles[m]
  }

  // ----- committed bundles -----

  datatype StoredBundle = StoredBundle(token: TokenIdentity, key: QueryKey, evaluationKey: Bytes)

  datatype StoredKey = StoredKey(token: TokenIdentity, key: QueryKey, rev: string, uploaded: bool)

  predicate HexDigit(c: char) { c in "0123456789abcdef" }

  predicate ValidRevision(rev: string) {
    |rev| == 32 && forall c :: c in rev ==> HexDigit(c)
  }

  /** What `uuid4().hex` yields: 32 digits, each from 0 to 9 or from a to f. */
  predicate UuidHex(rev: string) {
    |rev| == 32 && forall i :: 0 <= i < |rev| ==> '0' <= rev[i] <= '9' || 'a' <= rev[i] <= 'f'
  }

  lemma HexDigits(c: char)
    ensures HexDigit(c) <==> '0' <= c <= '9' || 'a' <= c <= 'f'
  {
    var digits := "0123456789abcdef";
    if '0' <= c <= '9' {
      assert digits[c as int - '0' as int] == c;
    } else if 'a' <= c <= 'f' {
      assert digits[10 + c as int - 'a' as int] == c;
    }
  }

  /** A revision name is valid iff `uuid4().hex` can yield it. */
  lemma RevisionNames(rev: string)
    ensures ValidRevision(rev) <==> UuidHex(rev)
  {
    forall i | 0 <= i < |rev|
      ensures HexDigit(rev[i]) <==> '0' <= rev[i] <= '9' || 'a' <= rev[i] <= 'f'
    {
      HexDigits(rev[i]);
    }
    hide HexDigit;
    assert forall i :: 0 <= i < |rev| ==> rev[i] in rev;
  }

  /** A bundle on disk that may be loaded as this key: of version 4, and no part of it empty. */
  predicate Stored(record: StoredKey, d: Disk) {
    Bundle(record.rev) in d.bundles &&
    var files := d.bundles[Bundle(record.rev)].files;
    MetadataFile in files && files[MetadataFile] == Json(Metadata(4, record.token, record.uploaded)) &&
    EvaluationKeyFile in files && files[EvaluationKeyFile].Blob? && files[EvaluationKeyFile] != Blob([]) &&
    record.key.context != [] && record.key.secretKey != [] && record.key.clientModel != []
  }

  function BundleFiles(b: StoredBundle, uploaded: bool): map<Target, Content> {
    map[ContextFile := Blob(b.key.context), SecretKeyFile := Blob(b.key.secretKey),
        ClientModelFile := Blob(b.key.clientModel), EvaluationKeyFile := Blob(b.evaluationKey),
        MetadataFile := Json(Metadata(KEY_BUNDLE_VERSION, b.token, uploaded))]
  }

  /** The files are exactly those of bundle b, and its upload mark is true only if the backend has its key. */
  predicate Holds(files: map<Target, Content>, b: StoredBundle, backend: seq<Bytes>) {
    b.key.Valid() && b.evaluationKey != [] &&
    (files == BundleFiles(b, false) || (files == BundleFiles(b, true) && b.evaluationKey in backend))
  }

  /** One of the five files of a bundle is missing. */
  predicate Damaged(files: map<Target, Content>) {
    !(ContextFile in files && SecretKeyFile in files && ClientModelFile in files && EvaluationKeyFile in files &&
      MetadataFile in files)
  }

  lemma PartOfBundle(files: map<Target, Content>, b: StoredBundle)
    requires SubFiles(files, BundleFiles(b, false)) && !Damaged(files)
    ensures files == BundleFiles(b, false)
  {
    assert files.Keys == BundleFiles(b, false).Keys;
  }

  // ----- fates -----

  datatype Fate = Done | Raised | Dead

  /** The first n steps complete; steps beyond the list do. */
  predicate OkFor(fate: seq<Fate>, n: nat) { forall i :: 0 <= i < n && i < |fate| ==> fate[i] == Done }

  /** Steps 0 to n - 1 complete and step n raises. */
  predicate RaisedAt(fate: seq<Fate>, n: nat) { OkFor(fate, n) && n < |fate| && fate[n] == Raised }

  /** The first n steps complete or raise. */
  predicate Alive(fate: seq<Fate>, n: nat) { forall i :: 0 <= i < n && i < |fate| ==> fate[i] != Dead }

  function Rest(fate: seq<Fate>, n: nat): seq<Fate> { if |fate| <= n then [] else fate[n..] }

  lemma FateSplit(fate: seq<Fate>, a: nat, b: nat)
    ensures OkFor(fate, a + b) <==> OkFor(fate, a) && OkFor(Rest(fate, a), b)
    ensures OkFor(fate, a) ==> (RaisedAt(fate, a + b) <==> RaisedAt(Rest(fate, a), b))
    ensures Rest(Rest(fate, a), b) == Rest(fate, a + b)
  {
    var rest := Rest(fate, a);
    assert forall i :: 0 <= i < |rest| ==> rest[i] == fate[a + i];
    if OkFor(fate, a) && OkFor(rest, b) {
      forall i | 0 <= i < a + b && i < |fate|
        ensures fate[i] == Done
      {
        if i >= a { assert rest[i - a] == fate[i]; }
      }
    }
  }

  lemma FateStart(fate: seq<Fate>)
    ensures OkFor(fate, 0) && Alive(fate, 0) && Rest(fate, 0) == fate
  {}

  lemma AliveSplit(fate: seq<Fate>, a: nat, b: nat)
    ensures Alive(fate, a + b) <==> Alive(fate, a) && Alive(Rest(fate, a), b)
    ensures Rest(Rest(fate, a), b) == Rest(fate, a + b)
  {
    var rest := Rest(fate, a);
    assert forall i :: 0 <= i < |rest| ==> rest[i] == fate[a + i];
    if Alive(fate, a) && Alive(rest, b) {
      forall i | 0 <= i < a + b && i < |fate|
        ensures fate[i] != Dead
      {
        if i >= a { assert rest[i - a] == fate[i]; }
      }
    }
  }

  lemma FateSize(fate: seq<Fate>, a: nat)
    ensures |Rest(fate, a)| == if |fate| <= a then 0 else |fate| - a
    ensures fate == [] ==> OkFor(fate, a) && Alive(fate, a) && !RaisedAt(fate, a)
  {}

  /** The steps of one write: directory, temporary file, write, rename, directory sync. */
  const WRITE_STEPS: nat := 5

  /** The step of a save after which the new revision is current: its staging directory, five writes, the renaming of
      the staging directory, and four steps of the write of `current`. */
  const COMMIT_STEP: nat := 31

  /** The steps of a save whose failure it reports: up to the commit, the directory sync, and the listing of the old
      revisions. */
  const SAVE_STEPS: nat := 33

  /** The steps that remove one directory: its entries, and the directory itself. Errors are ignored here. */
  const REMOVE_STEPS: nat := 7

  /** The steps of a registration: the upload, the worker, and the write of the metadata. */
  const REGISTER_STEPS: nat := 7

  /** A save succeeds over n directories of older revisions. */
  predicate SavesOver(fate: seq<Fate>, n: nat) {
    OkFor(fate, SAVE_STEPS) && Alive(Rest(fate, SAVE_STEPS), REMOVE_STEPS * n)
  }

  function AfterSave(fate: seq<Fate>, n: nat): seq<Fate> { Rest(fate, SAVE_STEPS + REMOVE_STEPS * n) }

  /** A generation succeeds over n directories of older revisions: the initialization is fetched, the material is
      usable, it is saved, and if asked for registered. */
  predicate GeneratesOver(fate: seq<Fate>, b: StoredBundle, register: bool, n: nat) {
    OkFor(fate, 1) && b.key.Valid() && b.evaluationKey != [] && SavesOver(Rest(fate, 1), n) &&
    (register ==> OkFor(AfterSave(Rest(fate, 1), n), REGISTER_STEPS))
  }

  lemma MoreRemoved(start: seq<Fate>, removed: nat, n: nat)
    requires removed < n
    ensures Alive(start, REMOVE_STEPS * (removed + 1)) <==>
      Alive(start, REMOVE_STEPS * removed) && Alive(Rest(start, REMOVE_STEPS * removed), REMOVE_STEPS)
    ensures Rest(Rest(start, REMOVE_STEPS * removed), REMOVE_STEPS) == Rest(start, REMOVE_STEPS * (removed + 1))
    ensures Alive(start, REMOVE_STEPS * n) ==> Alive(start, REMOVE_STEPS * (removed + 1))
  {
    AliveSplit(start, REMOVE_STEPS * removed, REMOVE_STEPS);
    AliveSplit(start, REMOVE_STEPS * (removed + 1), REMOVE_STEPS * (n - removed - 1));
  }

  /** The same for a save whose staging directory is there. */
  predicate SavesStaged(fate: seq<Fate>, n: nat) {
    OkFor(fate, SAVE_STEPS - 1) && Alive(Rest(fate, SAVE_STEPS - 1), REMOVE_STEPS * n)
  }

  function AfterStaged(fate: seq<Fate>, n: nat): seq<Fate> { Rest(fate, SAVE_STEPS - 1 + REMOVE_STEPS * n) }

  lemma SaveSteps(fate: seq<Fate>, n: nat)
    ensures SavesOver(fate, n) <==> OkFor(fate, 1) && SavesStaged(Rest(fate, 1), n)
    ensures AfterSave(fate, n) == AfterStaged(Rest(fate, 1), n)
  {
    FateSplit(fate, 1, SAVE_STEPS - 1);
    FateSplit(fate, 1, SAVE_STEPS - 1 + REMOVE_STEPS * n);
  }

  lemma StagedSteps(fate: seq<Fate>, n: nat)
    ensures SavesStaged(fate, n) <==> OkFor(fate, COMMIT_STEP) && OkFor(Rest(fate, COMMIT_STEP), 1) &&
                                      Alive(Rest(Rest(fate, COMMIT_STEP), 1), REMOVE_STEPS * n)
    ensures AfterStaged(fate, n) == Rest(Rest(Rest(fate, COMMIT_STEP), 1), REMOVE_STEPS * n)
  {
    FateSplit(fate, COMMIT_STEP, 1);
    FateSplit(fate, COMMIT_STEP + 1, REMOVE_STEPS * n);
  }

  lemma OtherDirectories(a: Disk, b: Disk, rev: string)
    requires Staging(rev) !in a.bundles && b.bundles.Keys == a.bundles.Keys + {Staging(rev)}
    ensures b.bundles.Keys - {Staging(rev)} == a.bundles.Keys
  {}

  lemma NoFaultsGenerate(b: StoredBundle, register: bool, n: nat)
    requires b.key.Valid() && b.evaluationKey != []
    ensures GeneratesOver([], b, register, n)
  {}

  datatype LoadResult = Loaded(record: StoredKey) | NotFound | Malformed

  datatype Outcome = Key(key: QueryKey) | Failed | Died

  class Host {
    var disk: Disk
    /** The evaluation keys the backend accepted, in order. */
    var backend: seq<Bytes>
    /** What happens to the next steps; steps beyond the list complete. */
    var fate: seq<Fate>
    /** The bundles committed so far, in order. */
    ghost var history: seq<StoredBundle>

    constructor ()
      ensures disk == Disk(EmptyDir(), map[]) && backend == [] && history == [] && fate == [] && Good()
    {
      disk := Disk(EmptyDir(), map[]);
      backend := [];
      history := [];
      fate := [];
    }

    /** The protocol invariant: `current` names a complete revision, the one committed last. */
    ghost predicate Good()
      reads this
    {
      if CurrentFile !in disk.root.files then history == []
      else
        history != [] && disk.root.files[CurrentFile].Text? &&
        var rev := disk.root.files[CurrentFile].text;
        ValidRevision(rev) && Bundle(rev) in disk.bundles &&
        Holds(disk.bundles[Bundle(rev)].files, history[|history| - 1], backend)
    }

    /** The bundle that `current` names has lost a file, so that loading it reports a malformed bundle. */
    ghost predicate Lost()
      reads this
    {
      history != [] && CurrentFile in disk.root.files && disk.root.files[CurrentFile].Text? &&
      var rev := disk.root.files[CurrentFile].text;
      ValidRevision(rev) && (Bundle(rev) in disk.bundles ==> Damaged(disk.bundles[Bundle(rev)].files))
    }

    ghost predicate Sound()
      reads this
    {
      Good() || Lost()
    }

    /** The current revision is marked as uploaded. */
    predicate Registered()
      reads this
    {
      CurrentFile in disk.root.files && disk.root.files[CurrentFile].Text? &&
      var dir := DirAt(disk, In(Bundle(disk.root.files[CurrentFile].text)));
      MetadataFile in dir.files && dir.files[MetadataFile].Json? && dir.files[MetadataFile].meta.uploaded
    }

    /** The next step's fate. */
    method Step() returns (f: Fate)
      modifies this`fate
      ensures f == (if old(fate) == [] then Done else old(fate)[0]) && fate == Rest(old(fate), 1)
      ensures f == Done <==> OkFor(old(fate), 1)
      ensures f != Dead <==> Alive(old(fate), 1)
      ensures f == Raised <==> RaisedAt(old(fate), 0)
    {
      if fate == [] {
        return Done;
      }
      f := fate[0];
      fate := fate[1..];
    }

    /** `atomic_private_write`: stage a temporary file next to the target, rename it over the target, and sync the
        directory. The file is in place iff the rename completed, also when the sync then raises. */
    method AtomicPrivateWrite(p: Place, t: Target, c: Content) returns (f: Fate, ghost renamed: bool)
      modifies this`disk, this`fate
      ensures if renamed then Written(old(disk), disk, p, t, c) else SameFiles(old(disk), disk, p)
      ensures renamed <==> OkFor(old(fate), WRITE_STEPS - 1)
      ensures f == Done <==> OkFor(old(fate), WRITE_STEPS)
      ensures renamed ==> fate == Rest(old(fate), WRITE_STEPS)
      ensures renamed && f == Raised <==> RaisedAt(old(fate), WRITE_STEPS - 1)
    {
      ghost var d0, f0 := disk, fate;
      FateSplit(f0, 2, 2);
      FateSplit(f0, 2, 3);
      FateSplit(f0, 1, 1);
      renamed := false;
      f := Step(); // ensure_private_directory
      if f != Done {
        return;
      }
      TempsChange(d0, disk, p, DirAt(disk, p).temps);
      disk := SetDir(disk, p, DirAt(disk, p));
      f := Step(); // mkstemp
      if f != Done {
        return;
      }
      f, renamed := WriteAndRename(d0, p, t, c);
    }

    /** From the creation of the temporary file to its renaming, or its removal if a step raises before that. */
    method WriteAndRename(ghost d0: Disk, p: Place, t: Target, c: Content) returns (f: Fate, ghost renamed: bool)
      requires SameFiles(d0, disk, p)
      modifies this`disk, this`fate
      ensures if renamed then Written(d0, disk, p, t, c) else SameFiles(d0, disk, p)
      ensures renamed <==> OkFor(old(fate), 2)
      ensures f == Done <==> OkFor(old(fate), 3)
      ensures renamed ==> fate == Rest(old(fate), 3)
      ensures renamed && f == Raised <==> RaisedAt(old(fate), 2)
    {
      FateSplit(fate, 1, 1);
      FateSplit(fate, 1, 2);
      FateSplit(fate, 2, 0);
      FateSplit(fate, 2, 1);
      renamed := false;
      SetTemps(d0, p, DirAt(disk, p).temps[t := Torn]);
      f := Step(); // write, flush, fsync
      if f == Done {
        SetTemps(d0, p, DirAt(disk, p).temps[t := c]);
        f := Step(); // os.replace
        if f == Done {
          var dir := DirAt(disk, p);
          FileRenamed(d0, disk, p, t, c, dir.temps - {t});
          disk := SetDir(disk, p, Dir(dir.files[t := c], dir.temps - {t}));
          renamed := true;
          f := Step(); // fsync of the directory; a directory that cannot be opened counts as done
          return;
        }
      }
      if f == Raised {
        f := RemoveTemp(d0, p, t);
      }
    }

    /** The `finally` clause: unlink the temporary file. */
    method RemoveTemp(ghost d0: Disk, p: Place, t: Target) returns (f: Fate)
      requires SameFiles(d0, disk, p)
      modifies this`disk, this`fate
      ensures SameFiles(d0, disk, p) && f != Done
    {
      f := Step();
      if f == Done {
        SetTemps(d0, p, DirAt(disk, p).temps - {t});
        f := Raised;
      }
    }

    method SetTemps(ghost d0: Disk, p: Place, temps: map<Target, Content>)
      requires SameFiles(d0, disk, p)
      modifies this`disk
      ensures SameFiles(d0, disk, p)
    {
      TempsChange(d0, disk, p, temps);
      disk := SetDir(disk, p, DirAt(disk, p).(temps := temps));
    }

    /** `shutil.rmtree(dir, ignore_errors=True)`, one entry at a time. */
    method RemoveTree(d: DirName) returns (f: Fate)
      modifies this`disk, this`fate
      ensures f != Raised && OnlyDir(old(disk), disk, d)
      ensures d in disk.bundles ==>
        d in old(disk).bundles && SubFiles(disk.bundles[d].files, old(disk.bundles[d]).files)
      ensures old(fate) == [] ==> f == Done && fate == [] && d !in disk.bundles
      ensures var steps := if d in old(disk).bundles then REMOVE_STEPS else 0;
        (f == Done <==> Alive(old(fate), steps)) && (f == Done ==> fate == Rest(old(fate), steps))
    {
      hide OkFor, Alive, RaisedAt;
      FateStart(fate);
      if d !in disk.bundles {
        return Done;
      }
      var entries := [ContextFile, SecretKeyFile, ClientModelFile, EvaluationKeyFile, MetadataFile, CurrentFile];
      for i := 0 to |entries|
        invariant d in disk.bundles && OnlyDir(old(disk), disk, d)
        invariant SubFiles(disk.bundles[d].files, old(disk.bundles[d]).files)
        invariant old(fate) == [] ==> fate == []
        invariant old(fate) == [] ==> forall k :: 0 <= k < i ==>
          entries[k] !in disk.bundles[d].files && entries[k] !in disk.bundles[d].temps
        invariant Alive(old(fate), i) && fate == Rest(old(fate), i)
      {
        AliveSplit(old(fate), i, 1);
        AliveSplit(old(fate), i + 1, 6 - i);
        f := RemoveEntry(d, entries[i]);
        if f == Dead {
          return;
        }
      }
      AliveSplit(old(fate), 6, 1);
      f := Step(); // rmdir
      if f == Dead {
        return;
      }
      if old(fate) == [] {
        AllTargets(disk.bundles[d], entries);
      }
      if f == Done && disk.bundles[d] == EmptyDir() {
        disk := disk.(bundles := disk.bundles - {d});
      }
      f := Done;
    }

    /** One entry of a directory; an error is ignored. */
    method RemoveEntry(d: DirName, t: Target) returns (f: Fate)
      requires d in disk.bundles
      modifies this`disk, this`fate
      ensures disk.root == old(disk.root) && disk.bundles.Keys == old(disk.bundles.Keys)
      ensures forall m :: m in disk.bundles && m != d ==> disk.bundles[m] == old(disk.bundles[m])
      ensures var dir := old(disk.bundles[d]);
        disk.bundles[d] == if f == Done then Dir(dir.files - {t}, dir.temps - {t}) else dir
      ensures (f != Dead <==> Alive(old(fate), 1)) && fate == Rest(old(fate), 1)
      ensures old(fate) == [] ==> f == Done && fate == []
    {
      f := Step();
      if f == Done {
        var dir := disk.bundles[d];
        disk := disk.(bundles := disk.bundles[d := Dir(dir.files - {t}, dir.temps - {t})]);
      }
    }

    /** `_remove_old_revisions`. */
    method RemoveOldRevisions(rev: string) returns (f: Fate)
      modifies this`disk, this`fate
      ensures disk.root == old(disk.root) && disk.bundles.Keys <= old(disk.bundles.Keys)
      ensures Bundle(rev) in old(disk.bundles) ==>
        Bundle(rev) in disk.bundles && disk.bundles[Bundle(rev)] == old(disk.bundles[Bundle(rev)])
      ensures old(fate) == [] ==> f == Done && disk.bundles.Keys <= {Bundle(rev)}
      ensures var n := |old(disk.bundles).Keys - {Bundle(rev)}|;
        (f == Done <==> OkFor(old(fate), 1) && Alive(Rest(old(fate), 1), REMOVE_STEPS * n)) &&
        (f == Done ==> fate == Rest(Rest(old(fate), 1), REMOVE_STEPS * n))
    {
      f := Step(); // iterdir
      if f != Done {
        return;
      }
      var left := disk.bundles.Keys - {Bundle(rev)};
      ghost var start, n, removed := fate, |left|, 0;
      FateStart(start);
      while left != {}
        invariant Bundle(rev) !in left && left <= disk.bundles.Keys
        invariant |left| == n - removed && Alive(start, REMOVE_STEPS * removed)
        invariant fate == Rest(start, REMOVE_STEPS * removed)
        invariant disk.root == old(disk.root) && disk.bundles.Keys <= old(disk.bundles.Keys)
        invariant Bundle(rev) in old(disk.bundles) ==>
          Bundle(rev) in disk.bundles && disk.bundles[Bundle(rev)] == old(disk.bundles[Bundle(rev)])
        invariant old(fate) == [] ==> fate == [] && disk.bundles.Keys <= left + {Bundle(rev)}
        decreases left
      {
        var d :| d in left;
        MoreRemoved(start, removed, n);
        f := RemoveTree(d);
        if f == Dead {
          return;
        }
        left := left - {d};
        removed := removed + 1;
      }
      f := Done;
    }

    /** `save_key_bundle`: stage the five files, rename the staging directory, commit by writing `current`, and only
        then remove older revisions. The revision is committed iff the first steps up to the rename of `current`
        complete. If the next step, the directory sync, raises, the clean-up deletes the committed bundle; whatever
        else fails leaves the last committed bundle complete. */
    method SaveKeyBundle(b: StoredBundle, rev: string) returns (f: Fate, record: StoredKey)
      requires Sound() && b.key.Valid() && UnusedRevision(rev, disk)
      modifies this`disk, this`fate, this`history
      ensures Sound() && Footprint(old(disk), disk, rev)
      ensures history ==
        if b.evaluationKey != [] && OkFor(old(fate), COMMIT_STEP) then old(history) + [b] else old(history)
      ensures history == old(history) ==>
        f != Done && disk.root.files == old(disk.root.files) && (Good() <==> old(Good()))
      ensures history != old(history) && !RaisedAt(old(fate), COMMIT_STEP) ==> Good()
      ensures history != old(history) && |old(fate)| <= COMMIT_STEP + 1 ==>
        (Good() <==> !RaisedAt(old(fate), COMMIT_STEP)) && (RaisedAt(old(fate), COMMIT_STEP) ==> f == Raised)
      ensures f == Done ==> history == old(history) + [b] && record == StoredKey(b.token, b.key, rev, false)
      ensures f == Done ==> IsCurrent(record, b.evaluationKey)
      ensures b.evaluationKey == [] ==> f == Raised && disk == old(disk)
      ensures old(fate) == [] && b.evaluationKey != [] ==> f == Done && disk.bundles.Keys == {Bundle(rev)}
      ensures f == Done <==> b.evaluationKey != [] && SavesOver(old(fate), |old(disk.bundles)|)
      ensures f == Done ==> fate == AfterSave(old(fate), |old(disk.bundles)|)
    {
      record := StoredKey(b.token, b.key, rev, false);
      if b.evaluationKey == [] {
        return Raised, record;
      }
      hide *;
      FateSize(fate, 1);
      FateSize(fate, COMMIT_STEP);
      FateSplit(fate, 1, COMMIT_STEP - 1);
      FateSplit(fate, 1, COMMIT_STEP);
      f := MakeStaging(rev);
      if f != Done {
        return;
      }
      ghost var staged := disk;
      OtherDirectories(old(disk), staged, rev);
      SaveSteps(old(fate), |old(disk.bundles)|);
      f := SaveStaged(b, rev);
      FootprintAfter(old(disk), staged, disk, rev);
    }

    /** The staging directory. */
    method MakeStaging(rev: string) returns (f: Fate)
      requires Sound() && UnusedRevision(rev, disk)
      modifies this`disk, this`fate
      ensures Sound() && (Good() <==> old(Good())) && Footprint(old(disk), disk, rev)
      ensures disk.root == old(disk.root) && Bundle(rev) !in disk.bundles && ValidRevision(rev)
      ensures CurrentFile in disk.root.files ==> disk.root.files[CurrentFile] != Text(rev)
      ensures f == Done ==> Staging(rev) in disk.bundles && disk.bundles[Staging(rev)] == EmptyDir()
      ensures f == Done <==> OkFor(old(fate), 1)
      ensures f == Done ==> disk.bundles.Keys == old(disk.bundles.Keys) + {Staging(rev)}
      ensures fate == Rest(old(fate), 1)
    {
      f := Step();
      if f == Done {
        disk := disk.(bundles := disk.bundles[Staging(rev) := EmptyDir()]);
      }
    }

    /** `save_key_bundle` from the `try` on. */
    method SaveStaged(b: StoredBundle, rev: string) returns (f: Fate)
      requires Sound() && b.key.Valid() && b.evaluationKey != [] && ValidRevision(rev)
      requires Bundle(rev) !in disk.bundles && Staging(rev) in disk.bundles && disk.bundles[Staging(rev)] == EmptyDir()
      requires CurrentFile in disk.root.files ==> disk.root.files[CurrentFile] != Text(rev)
      modifies this`disk, this`fate, this`history
      ensures Sound() && Footprint(old(disk), disk, rev)
      ensures history == if OkFor(old(fate), COMMIT_STEP - 1) then old(history) + [b] else old(history)
      ensures history == old(history) ==>
        f != Done && disk.root.files == old(disk.root.files) && (Good() <==> old(Good()))
      ensures history != old(history) && !RaisedAt(old(fate), COMMIT_STEP - 1) ==> Good()
      ensures history != old(history) && |old(fate)| <= COMMIT_STEP ==>
        (Good() <==> !RaisedAt(old(fate), COMMIT_STEP - 1))
      ensures |old(fate)| <= COMMIT_STEP && RaisedAt(old(fate), COMMIT_STEP - 1) ==> f == Raised
      ensures f == Done ==> IsCurrent(StoredKey(b.token, b.key, rev, false), b.evaluationKey)
      ensures old(fate) == [] ==> f == Done && disk.bundles.Keys == {Bundle(rev)}
      ensures var n := |old(disk.bundles).Keys - {Staging(rev)}|;
        (f == Done <==> SavesStaged(old(fate), n)) && (f == Done ==> fate == AfterStaged(old(fate), n))
    {
      hide OkFor, Alive, Rest, RaisedAt, BundleFiles, ValidRevision;
      ghost var before := history;
      StagedSteps(fate, |disk.bundles.Keys - {Staging(rev)}|);
      FateSize(fate, COMMIT_STEP);
      f := StageAndCommit(b, rev);
      if f == Raised {
        f := Discard(rev, b, history != before);
      } else if f == Done {
        f := RemoveOldRevisions(rev);
      }
    }

    /** The exception handler: what was staged or renamed for this revision goes, and the error goes on. */
    method Discard(rev: string, ghost b: StoredBundle, ghost late: bool) returns (f: Fate)
      requires if late then IsCurrent(StoredKey(b.token, b.key, rev, false), b.evaluationKey)
        else Sound() && (CurrentFile in disk.root.files ==> disk.root.files[CurrentFile] != Text(rev))
      modifies this`disk, this`fate
      ensures Sound() && f != Done
      ensures !late ==> (Good() <==> old(Good()))
      ensures old(fate) == [] ==> f == Raised && (late ==> !Good())
      ensures disk.root == old(disk.root) && disk.bundles.Keys <= old(disk.bundles.Keys)
    {
      hide OkFor, Alive, Rest, BundleFiles;
      f := RemoveTree(Staging(rev));
      if f != Dead {
        f := RemoveTree(Bundle(rev));
        if f != Dead {
          f := Raised;
        }
        if late && Bundle(rev) in disk.bundles && !Damaged(disk.bundles[Bundle(rev)].files) {
          PartOfBundle(disk.bundles[Bundle(rev)].files, b);
        }
      }
    }

    /** The body of the `try`: it commits iff its steps up to the rename of `current` complete. */
    method StageAndCommit(b: StoredBundle, rev: string) returns (f: Fate)
      requires Sound() && b.key.Valid() && b.evaluationKey != [] && ValidRevision(rev)
      requires Bundle(rev) !in disk.bundles && Staging(rev) in disk.bundles && disk.bundles[Staging(rev)] == EmptyDir()
      requires CurrentFile in disk.root.files ==> disk.root.files[CurrentFile] != Text(rev)
      modifies this`disk, this`fate, this`history
      ensures history == if OkFor(old(fate), COMMIT_STEP - 1) then old(history) + [b] else old(history)
      ensures history == old(history) ==> f != Done && disk.root.files == old(disk.root.files)
      ensures history == old(history) ==> Sound() && (Good() <==> old(Good()))
      ensures history != old(history) ==> IsCurrent(StoredKey(b.token, b.key, rev, false), b.evaluationKey)
      ensures history != old(history) ==> fate == Rest(old(fate), COMMIT_STEP)
      ensures history != old(history) && f == Raised <==> RaisedAt(old(fate), COMMIT_STEP - 1)
      ensures f == Done <==> OkFor(old(fate), COMMIT_STEP)
      ensures f == Done ==> disk.bundles.Keys == old(disk.bundles.Keys) - {Staging(rev)} + {Bundle(rev)}
      ensures Footprint(old(disk), disk, rev)
    {
      FateSplit(fate, 26, WRITE_STEPS - 1);
      FateSplit(fate, 26, WRITE_STEPS);
      f := StageRevision(b, rev);
      if f != Done {
        return;
      }
      f := Commit(b, rev);
    }

    /** The write of `current`. */
    method Commit(b: StoredBundle, rev: string) returns (f: Fate)
      requires Sound() && b.key.Valid() && b.evaluationKey != [] && ValidRevision(rev) && Bundle(rev) in disk.bundles
      requires disk.bundles[Bundle(rev)].files == BundleFiles(b, false)
      modifies this`disk, this`fate, this`history
      ensures history == if OkFor(old(fate), WRITE_STEPS - 1) then old(history) + [b] else old(history)
      ensures history == old(history) ==> f != Done && disk.root.files == old(disk.root.files)
      ensures history == old(history) ==> Sound() && (Good() <==> old(Good()))
      ensures history != old(history) ==> IsCurrent(StoredKey(b.token, b.key, rev, false), b.evaluationKey)
      ensures history != old(history) ==> fate == Rest(old(fate), WRITE_STEPS)
      ensures history != old(history) && f == Raised <==> RaisedAt(old(fate), WRITE_STEPS - 1)
      ensures f == Done <==> OkFor(old(fate), WRITE_STEPS)
      ensures disk.bundles.Keys == old(disk.bundles.Keys)
      ensures Footprint(old(disk), disk, rev)
    {
      ghost var renamed;
      f, renamed := AtomicPrivateWrite(Root, CurrentFile, Text(rev));
      if renamed {
        history := history + [b];
      }
    }

    /** The five writes and the renaming of the staging directory; nothing current changes. */
    method StageRevision(b: StoredBundle, rev: string) returns (f: Fate)
      requires Sound() && Bundle(rev) !in disk.bundles
      requires Staging(rev) in disk.bundles && disk.bundles[Staging(rev)] == EmptyDir()
      requires CurrentFile in disk.root.files ==> disk.root.files[CurrentFile] != Text(rev)
      modifies this`disk, this`fate
      ensures Sound() && (Good() <==> old(Good())) && disk.root == old(disk.root)
      ensures f == Done ==> Bundle(rev) in disk.bundles && disk.bundles[Bundle(rev)].files == BundleFiles(b, false)
      ensures f == Done <==> OkFor(old(fate), 26)
      ensures f == Done ==> disk.bundles.Keys == old(disk.bundles.Keys) - {Staging(rev)} + {Bundle(rev)}
      ensures f == Done ==> fate == Rest(old(fate), 26)
      ensures Footprint(old(disk), disk, rev)
    {
      hide OkFor, RaisedAt, Rest, BundleFiles, ValidRevision, Holds;
      FateSplit(fate, 25, 1);
      f := StageFiles(b, rev);
      if f != Done {
        return;
      }
      f := Step(); // os.replace(staging, bundle)
      if f != Done {
        return;
      }
      disk := disk.(bundles := disk.bundles[Bundle(rev) := disk.bundles[Staging(rev)]] - {Staging(rev)});
    }

    /** One write into the staging directory. */
    method StageFile(rev: string, t: Target, c: Content) returns (f: Fate)
      requires Staging(rev) in disk.bundles
      modifies this`disk, this`fate
      ensures disk.root == old(disk.root) && disk.bundles.Keys == old(disk.bundles.Keys)
      ensures forall m :: m in old(disk.bundles) && m != Staging(rev) ==> disk.bundles[m] == old(disk.bundles[m])
      ensures f == Done ==> disk.bundles[Staging(rev)].files == old(disk.bundles[Staging(rev)]).files[t := c]
      ensures f == Done <==> OkFor(old(fate), WRITE_STEPS)
      ensures f == Done ==> fate == Rest(old(fate), WRITE_STEPS)
    {
      ghost var renamed;
      FateSplit(fate, WRITE_STEPS - 1, 1);
      f, renamed := AtomicPrivateWrite(In(Staging(rev)), t, c);
    }

    /** The five writes into the staging directory. */
    method StageFiles(b: StoredBundle, rev: string) returns (f: Fate)
      requires Staging(rev) in disk.bundles && disk.bundles[Staging(rev)] == EmptyDir()
      modifies this`disk, this`fate
      ensures disk.root == old(disk.root) && disk.bundles.Keys == old(disk.bundles.Keys)
      ensures forall m :: m in old(disk.bundles) && m != Staging(rev) ==> disk.bundles[m] == old(disk.bundles[m])
      ensures f == Done ==> disk.bundles[Staging(rev)].files == BundleFiles(b, false)
      ensures f == Done <==> OkFor(old(fate), 25)
      ensures f == Done ==> fate == Rest(old(fate), 25)
    {
      var writes := [(ContextFile, Blob(b.key.context)), (SecretKeyFile, Blob(b.key.secretKey)),
                     (ClientModelFile, Blob(b.key.clientModel)), (EvaluationKeyFile, Blob(b.evaluationKey)),
                     (MetadataFile, Json(Metadata(KEY_BUNDLE_VERSION, b.token, false)))];
      FateStart(fate);
      ghost var steps := 0;
      for i := 0 to |writes|
        invariant disk.root == old(disk.root) && disk.bundles.Keys == old(disk.bundles.Keys)
        invariant forall m :: m in old(disk.bundles) && m != Staging(rev) ==> disk.bundles[m] == old(disk.bundles[m])
        invariant disk.bundles[Staging(rev)].files == Prefix(writes[..i])
        invariant steps == 5 * i && OkFor(old(fate), steps) && fate == Rest(old(fate), steps)
      {
        assert writes[..i + 1][..i] == writes[..i];
        FateSplit(old(fate), steps, WRITE_STEPS);
        f := StageFile(rev, writes[i].0, writes[i].1);
        if f != Done {
          FateSplit(old(fate), steps + WRITE_STEPS, 20 - steps);
          return;
        }
        steps := steps + WRITE_STEPS;
      }
      assert writes[..|writes|] == writes;
      FiveWrites(b, writes);
      f := Done;
    }

    /** The record describes the current revision, the last one committed. */
    ghost predicate IsCurrent(record: StoredKey, evaluationKey: Bytes)
      reads this
    {
      Good() && CurrentFile in disk.root.files && disk.root.files[CurrentFile] == Text(record.rev) &&
      history[|history| - 1] == StoredBundle(record.token, record.key, evaluationKey) &&
      disk.bundles[Bundle(record.rev)].files
        == BundleFiles(history[|history| - 1], record.uploaded)
    }

    /** `mark_key_uploaded`. */
    method MarkKeyUploaded(record: StoredKey, ghost evaluationKey: Bytes) returns (f: Fate, uploaded: StoredKey)
      requires IsCurrent(record, evaluationKey) && evaluationKey in backend
      modifies this`disk, this`fate
      ensures Good() && uploaded == record.(uploaded := true)
      ensures f == Done ==> IsCurrent(uploaded, evaluationKey)
      ensures disk.bundles.Keys == old(disk.bundles.Keys) && disk.root.files == old(disk.root.files)
      ensures f == Done <==> OkFor(old(fate), WRITE_STEPS)
    {
      uploaded := record.(uploaded := true);
      var metadata := Json(Metadata(KEY_BUNDLE_VERSION, record.token, true));
      ghost var renamed;
      f, renamed := AtomicPrivateWrite(In(Bundle(record.rev)), MetadataFile, metadata);
      ghost var b := history[|history| - 1];
      assert BundleFiles(b, record.uploaded)[MetadataFile := metadata] == BundleFiles(b, true);
    }

    /** `load_key_bundle`, with the error branches of `_resolve_current_bundle`, `_load_metadata` and `_read_artifact`.
        Under the invariant none of them is reached once a bundle was committed. */
    method LoadKeyBundle() returns (r: LoadResult)
      ensures Good() && history == [] ==> r == NotFound
      ensures Good() && history != [] ==> r.Loaded? && IsCurrent(r.record, history[|history| - 1].evaluationKey)
      ensures Lost() ==> r == Malformed
      ensures r == NotFound <==> !(CurrentFile in disk.root.files && disk.root.files[CurrentFile].Text?)
      ensures r != NotFound && !UuidHex(disk.root.files[CurrentFile].text) ==> r == Malformed
      ensures r.Loaded? ==> Stored(r.record, disk)
    {
      var root := disk.root.files;
      if CurrentFile !in root || !root[CurrentFile].Text? {
        return NotFound;
      }
      var rev := root[CurrentFile].text;
      RevisionNames(rev);
      if !ValidRevision(rev) || Bundle(rev) !in disk.bundles {
        return Malformed;
      }
      var files := disk.bundles[Bundle(rev)].files;
      if MetadataFile !in files || !files[MetadataFile].Json?
         || files[MetadataFile].meta.version != KEY_BUNDLE_VERSION {
        return Malformed;
      }
      var meta := files[MetadataFile].meta;
      if !Artifact(files, EvaluationKeyFile) || !Artifact(files, ContextFile) || !Artifact(files, SecretKeyFile)
         || !Artifact(files, ClientModelFile) {
        return Malformed;
      }
      var key := QueryKey(files[ContextFile].bytes, files[SecretKeyFile].bytes, files[ClientModelFile].bytes);
      r := Loaded(StoredKey(meta.token, key, rev, meta.uploaded));
    }

    /** `KeysAPI._register`: upload, tell the worker, then mark. A repeat after a crash uploads the same key again. */
    method Register(record: StoredKey, ghost evaluationKey: Bytes) returns (f: Fate, registered: StoredKey)
      requires IsCurrent(record, evaluationKey)
      modifies this`disk, this`fate, this`backend
      ensures Good()
      ensures f == Done ==> IsCurrent(registered, evaluationKey) && registered == record.(uploaded := true)
      ensures backend == old(backend) + (if OkFor(old(fate), 1) then [evaluationKey] else [])
      ensures disk.bundles.Keys == old(disk.bundles.Keys) && disk.root.files == old(disk.root.files)
      ensures f == Done <==> OkFor(old(fate), REGISTER_STEPS)
    {
      FateSplit(fate, 1, 1);
      FateSplit(fate, 2, WRITE_STEPS);
      registered := record;
      f := Step(); // upload_file_and_alert
      if f != Done {
        return;
      }
      var key := disk.bundles[Bundle(record.rev)].files[EvaluationKeyFile].bytes;
      backend := backend + [key];
      assert Good();
      f := Step(); // is_worker_up and preprocess_evaluation_key
      if f != Done {
        return;
      }
      f, registered := MarkKeyUploaded(record, evaluationKey);
    }

    /** `KeysAPI._generate` with the freshly generated material. */
    method Generate(b: StoredBundle, rev: string, register: bool) returns (o: Outcome)
      requires Sound() && UnusedRevision(rev, disk)
      modifies this
      ensures Sound() && Footprint(old(disk), disk, rev)
      ensures history == old(history) || history == old(history) + [b]
      ensures history == old(history) ==> (Good() <==> old(Good()))
      ensures history != old(history) && !LateFate(old(fate)) ==> Good()
      ensures LateFate(old(fate)) && |old(fate)| == COMMIT_STEP + 2 && b.key.Valid() && b.evaluationKey != [] ==>
        o == Failed && Lost()
      ensures o.Key? ==> Good() && history == old(history) + [b] && o.key == b.key && (register ==> Registered())
      ensures backend == old(backend) ||
        (register && history == old(history) + [b] && backend == old(backend) + [b.evaluationKey])
      ensures o.Key? <==> GeneratesOver(old(fate), b, register, |old(disk.bundles)|)
      ensures o.Key? && register ==> backend == old(backend) + [b.evaluationKey]
      ensures !register ==> backend == old(backend)
    {
      FateSplit(fate, 1, COMMIT_STEP);
      var f := Step(); // fetch_initialization
      if f != Done {
        return if f == Dead then Died else Failed;
      }
      if !b.key.Valid() {
        return Failed;
      }
      o := SaveAndRegister(b, rev, register);
    }

    /** The part of `_generate` after the key material is there. */
    method SaveAndRegister(b: StoredBundle, rev: string, register: bool) returns (o: Outcome)
      requires Sound() && UnusedRevision(rev, disk) && b.key.Valid()
      modifies this
      ensures Sound() && Footprint(old(disk), disk, rev)
      ensures history == old(history) || history == old(history) + [b]
      ensures history == old(history) ==> (Good() <==> old(Good()))
      ensures history != old(history) && !RaisedAt(old(fate), COMMIT_STEP) ==> Good()
      ensures RaisedAt(old(fate), COMMIT_STEP) && |old(fate)| == COMMIT_STEP + 1 && b.evaluationKey != [] ==>
        o == Failed && Lost()
      ensures o.Key? ==> Good() && history == old(history) + [b] && o.key == b.key && (register ==> Registered())
      ensures backend == old(backend) ||
        (register && history == old(history) + [b] && backend == old(backend) + [b.evaluationKey])
      ensures var n := |old(disk.bundles)|;
        o.Key? <==> b.evaluationKey != [] && SavesOver(old(fate), n) &&
                    (register ==> OkFor(AfterSave(old(fate), n), REGISTER_STEPS))
      ensures o.Key? && register ==> backend == old(backend) + [b.evaluationKey]
      ensures !register ==> backend == old(backend)
    {
      var f, record := SaveKeyBundle(b, rev);
      if f == Done && register {
        f, record := Register(record, b.evaluationKey);
      }
      o := if f == Done then Key(b.key) else if f == Dead then Died else Failed;
    }

    /** `KeysAPI.ensure` for the token of b, with the material b it would generate. A lost bundle is reported, not
        replaced. */
    method Ensure(b: StoredBundle, rev: string) returns (o: Outcome)
      requires Sound() && UnusedRevision(rev, disk)
      modifies this
      ensures Sound() && Footprint(old(disk), disk, rev)
      ensures old(history) != [] ==> history == old(history)
      ensures history == old(history) || history == old(history) + [b]
      ensures old(Good()) && (old(history) != [] || !LateFate(old(fate))) ==> Good()
      ensures old(Lost()) ==> o == Failed && disk == old(disk) && backend == old(backend)
      ensures o.Key? ==> Good() && Registered() && history != [] && o.key == history[|history| - 1].key
      ensures o.Key? ==> history[|history| - 1].evaluationKey in backend
      ensures o.Key? ==> history[|history| - 1].token.id == b.token.id
      ensures backend == old(backend) ||
        (history != [] && backend == old(backend) + [history[|history| - 1].evaluationKey])
      ensures old(Good() && Registered()) ==> backend == old(backend) && disk == old(disk)
      ensures old(Good() && Registered()) ==> o == old(Answer(b.token))
      ensures old(Good()) ==> (o.Key? <==> old(EnsureSucceeds(b)))
      ensures old(Good()) && o.Key? ==> o == if old(history) == [] then Key(b.key) else old(Answer(b.token))
      ensures old(Good()) && o.Key? ==>
        backend == old(backend) + (if old(Registered()) then [] else [history[|history| - 1].evaluationKey])
    {
      if CurrentFile !in disk.root.files {
        o := Generate(b, rev, true);
        if o.Key? { GoodKeyIsAccepted(); }
        return;
      }
      o := LoadAndRegister(b.token);
    }

    /** What `ensure` answers for a token when the last committed bundle is registered. */
    ghost function Answer(token: TokenIdentity): Outcome
      reads this
    {
      if history != [] && history[|history| - 1].token.id == token.id then Key(history[|history| - 1].key) else Failed
    }

    /** `ensure` succeeds on an empty store iff the generation and the registration do; on a committed bundle of this
        token iff it is registered already, or the steps of the registration complete. */
    ghost predicate EnsureSucceeds(b: StoredBundle)
      reads this
    {
      if history == [] then GeneratesOver(fate, b, true, |disk.bundles|)
      else history[|history| - 1].token.id == b.token.id && (Registered() || OkFor(fate, REGISTER_STEPS))
    }

    /** Without faults `ensure` always ends with a registered key: a new one on an empty store, or the last one
        committed for this token, whose pending registration it completes by one upload. */
    method EnsureWithoutFaults(b: StoredBundle, rev: string) returns (o: Outcome)
      requires Good() && UnusedRevision(rev, disk) && fate == []
      requires if history == [] then b.key.Valid() && b.evaluationKey != []
        else history[|history| - 1].token.id == b.token.id
      modifies this
      ensures Good() && Registered() && history == if old(history) == [] then [b] else old(history)
      ensures o == Key(history[|history| - 1].key)
      ensures backend == old(backend) + (if old(Registered()) then [] else [history[|history| - 1].evaluationKey])
    {
      FateSize(fate, REGISTER_STEPS);
      if history == [] { NoFaultsGenerate(b, true, |disk.bundles|); }
      o := Ensure(b, rev);
    }

    /** A registered current bundle has its evaluation key at the backend. */
    lemma GoodKeyIsAccepted()
      requires Good() && Registered()
      ensures history != [] && history[|history| - 1].evaluationKey in backend
    {}

    /** The part of `ensure` for an existing bundle. */
    method LoadAndRegister(token: TokenIdentity) returns (o: Outcome)
      requires Sound() && history != []
      modifies this`disk, this`fate, this`backend
      ensures old(Good()) ==> Good()
      ensures old(Lost()) ==> o == Failed && disk == old(disk) && backend == old(backend)
      ensures o.Key? ==> Good() && Registered() && o == Answer(token)
      ensures o.Key? ==> history[|history| - 1].token.id == token.id && history[|history| - 1].evaluationKey in backend
      ensures backend == old(backend) || backend == old(backend) + [history[|history| - 1].evaluationKey]
      ensures old(Good() && Registered()) ==> backend == old(backend) && disk == old(disk) && o == Answer(token)
      ensures old(Good()) ==>
        (o.Key? <==> Answer(token).Key? && (old(Registered()) || OkFor(old(fate), REGISTER_STEPS)))
      ensures var uploads := Answer(token).Key? && !old(Registered()) && OkFor(old(fate), 1);
        old(Good()) ==> backend == old(backend) + if uploads then [history[|history| - 1].evaluationKey] else []
      ensures disk.bundles.Keys == old(disk.bundles.Keys) && disk.root.files == old(disk.root.files)
    {
      var r := LoadKeyBundle();
      if !r.Loaded? || r.record.token.id != token.id {
        return Failed;
      }
      if !r.record.uploaded {
        var f, record := Register(r.record, history[|history| - 1].evaluationKey);
        if f != Done {
          return if f == Dead then Died else Failed;
        }
      }
      GoodKeyIsAccepted();
      o := Key(r.record.key);
    }

    /** When the last committed bundle of this token is registered, `ensure` returns its key, whatever befalls it, and
        neither uploads nor writes anything. */
    method EnsureAgain(b: StoredBundle, rev: string, fate: seq<Fate>) returns (o: Outcome)
      requires Good() && Registered() && UnusedRevision(rev, disk) && Answer(b.token).Key?
      modifies this
      ensures Good() && Registered() && o == Answer(b.token) == old(Answer(b.token))
      ensures disk == old(disk) && backend == old(backend) && history == old(history)
    {
      this.fate := fate;
      o := Ensure(b, rev);
    }

    /** Once `ensure` returned a key, every later `ensure` for the same token returns that key, whatever befalls it; all
        of them together upload at most once, and only the first one can. */
    method EnsureTwice(b: StoredBundle, rev: string, again: seq<(StoredBundle, string, seq<Fate>)>)
      returns (o: Outcome, later: seq<Outcome>)
      requires Sound() && UnusedRevision(rev, disk)
      requires forall i :: 0 <= i < |again| ==>
        again[i].0.token.id == b.token.id && again[i].1 != rev && UnusedRevision(again[i].1, disk)
      modifies this
      ensures Sound()
      ensures o.Key? ==> |later| == |again| && forall i :: 0 <= i < |later| ==> later[i] == o
      ensures o.Key? ==> history != []
      ensures o.Key? ==> backend == old(backend) || backend == old(backend) + [history[|history| - 1].evaluationKey]
    {
      hide UnusedRevision, Footprint, Good, Lost, EnsureSucceeds, Registered;
      ghost var d0 := disk;
      o := Ensure(b, rev);
      later := [];
      if o.Key? {
        AllStillUnused(again, rev, d0, disk);
        later := EnsureRepeatedly(b.token, again, o);
      }
    }

    /** Further calls of `ensure` change neither disk nor backend. */
    method EnsureRepeatedly(token: TokenIdentity, again: seq<(StoredBundle, string, seq<Fate>)>, o: Outcome)
      returns (later: seq<Outcome>)
      requires Good() && Registered() && o == Answer(token) && o.Key?
      requires forall i :: 0 <= i < |again| ==> again[i].0.token.id == token.id && UnusedRevision(again[i].1, disk)
      modifies this
      ensures Good() && disk == old(disk) && backend == old(backend) && history == old(history)
      ensures |later| == |again| && forall i :: 0 <= i < |later| ==> later[i] == o
    {
      later := [];
      for i := 0 to |again|
        invariant Good() && Registered() && Answer(token) == o
        invariant disk == old(disk) && backend == old(backend) && history == old(history)
        invariant |later| == i && forall j :: 0 <= j < i ==> later[j] == o
      {
        var next := EnsureAgain(again[i].0, again[i].1, again[i].2);
        later := later + [next];
      }
    }

    /** The late failure does lose a key: generation fails after it replaced the key that was there, and from then on
        `ensure` only reports a malformed bundle. */
    method LateFailureLosesKey(b: StoredBundle, rev: string, b2: StoredBundle, rev2: string, later: seq<Fate>)
      returns (o: Outcome, o2: Outcome)
      requires Good() && UnusedRevision(rev, disk) && UnusedRevision(rev2, disk) && rev != rev2
      requires b.key.Valid() && b.evaluationKey != []
      modifies this
      ensures o == Failed && o2 == Failed && Lost() && history != []
    {
      fate := seq(COMMIT_STEP + 2, i requires 0 <= i => if i == COMMIT_STEP + 1 then Raised else Done);
      assert LateFate(fate);
      o := Generate(b, rev, true);
      fate := later;
      o2 := Ensure(b2, rev2);
    }

    /** `KeysAPI.load`. */
    method Load(token: TokenIdentity) returns (o: Outcome)
      ensures Good() ==> o == Answer(token)
      ensures Lost() ==> o == Failed
    {
      var r := LoadKeyBundle();
      o := if r.Loaded? && r.record.token.id == token.id then Key(r.record.key) else Failed;
    }

    /** Any sequence of sessions, each with its own failures and crash point. Every commit is one of the generated
        bundles, in order, and what is loaded is the last one or reported as malformed. The last committed bundle is
        complete throughout, as long as no session's fate is the late one. */
    method RunSessions(sessions: seq<Session>)
      requires Sound() && FreshRevisions(sessions)
      requires forall i :: 0 <= i < |sessions| ==> UnusedRevision(sessions[i].rev, disk)
      modifies this
      ensures Sound()
      ensures old(Good()) && (forall i :: 0 <= i < |sessions| ==> !LateFate(sessions[i].fate)) ==> Good()
      ensures old(history) <= history && CommitsFrom(history[|old(history)|..], sessions)
    {
      ghost var start := |history|;
      ghost var safe := Good() && forall i :: 0 <= i < |sessions| ==> !LateFate(sessions[i].fate);
      hide *;
      NoSessions(history);
      for i := 0 to |sessions|
        invariant Sound() && (safe ==> Good()) && old(history) <= history && start == |old(history)|
        invariant CommitsFrom(history[start..], sessions[..i])
        invariant forall k :: i <= k < |sessions| ==> UnusedRevision(sessions[k].rev, disk)
      {
        ghost var before, was := history, disk;
        RunSession(sessions[i]);
        OneMoreSession(before, start, history, sessions, i);
        StillUnused(sessions, i, was, disk);
      }
      assert sessions[..|sessions|] == sessions;
    }

    /** One process. */
    method RunSession(s: Session)
      requires Sound() && UnusedRevision(s.rev, disk)
      modifies this
      ensures Sound() && (history == old(history) || history == old(history) + [s.material])
      ensures old(Good()) && !LateFate(s.fate) ==> Good()
      ensures Footprint(old(disk), disk, s.rev)
    {
      fate := s.fate;
      match s.request {
        case GenerateKey(register) => var o := Generate(s.material, s.rev, register);
        case EnsureKey => var o := Ensure(s.material, s.rev);
        case LoadKey => var o := Load(s.material.token);
      }
    }
  }

  predicate Artifact(files: map<Target, Content>, t: Target) {
    t in files && files[t].Blob? && files[t].bytes != []
  }

  /** The map a list of writes produces. */
  function Prefix(writes: seq<(Target, Content)>): map<Target, Content> {
    if writes == [] then map[] else Prefix(writes[..|writes| - 1])[writes[|writes| - 1].0 := writes[|writes| - 1].1]
  }

  lemma FiveWrites(b: StoredBundle, writes: seq<(Target, Content)>)
    requires writes == [(ContextFile, Blob(b.key.context)), (SecretKeyFile, Blob(b.key.secretKey)),
                        (ClientModelFile, Blob(b.key.clientModel)), (EvaluationKeyFile, Blob(b.evaluationKey)),
                        (MetadataFile, Json(Metadata(KEY_BUNDLE_VERSION, b.token, false)))]
    ensures Prefix(writes) == BundleFiles(b, false)
  {
    PrefixStep(writes, 0);
    PrefixStep(writes, 1);
    PrefixStep(writes, 2);
    PrefixStep(writes, 3);
    PrefixStep(writes, 4);
    assert writes[..5] == writes;
  }

  lemma PrefixStep(writes: seq<(Target, Content)>, i: nat)
    requires i < |writes|
    ensures Prefix(writes[..i + 1]) == Prefix(writes[..i])[writes[i].0 := writes[i].1]
  {
    assert writes[..i + 1][..i] == writes[..i];
  }

  lemma AllTargets(dir: Dir, entries: seq<Target>)
    requires entries == [ContextFile, SecretKeyFile, ClientModelFile, EvaluationKeyFile, MetadataFile, CurrentFile]
    requires forall k :: 0 <= k < 6 ==> entries[k] !in dir.files && entries[k] !in dir.temps
    ensures dir == EmptyDir()
  {
    forall t: Target
      ensures t in entries
    {
      match t
      case ContextFile => assert entries[0] == t;
      case SecretKeyFile => assert entries[1] == t;
      case ClientModelFile => assert entries[2] == t;
      case EvaluationKeyFile => assert entries[3] == t;
      case MetadataFile => assert entries[4] == t;
      case CurrentFile => assert entries[5] == t;
    }
    forall t: Target
      ensures t !in dir.files && t !in dir.temps
    {
      assert t in entries;
    }
    assert dir.files == map[] && dir.temps == map[];
  }

  // ----- sessions -----

  datatype Request = GenerateKey(register: bool) | EnsureKey | LoadKey

  /** One process: what it is asked, the material and revision name it would draw, and what befalls its steps. */
  datatype Session = Session(request: Request, material: StoredBundle, rev: string, fate: seq<Fate>)

  predicate UnusedRevision(rev: string, d: Disk) {
    ValidRevision(rev) && Bundle(rev) !in d.bundles && Staging(rev) !in d.bundles &&
    (CurrentFile in d.root.files ==> d.root.files[CurrentFile] != Text(rev))
  }

  lemma AllStillUnused(again: seq<(StoredBundle, string, seq<Fate>)>, rev: string, a: Disk, b: Disk)
    requires Footprint(a, b, rev)
    requires forall i :: 0 <= i < |again| ==> again[i].1 != rev && UnusedRevision(again[i].1, a)
    ensures forall i :: 0 <= i < |again| ==> UnusedRevision(again[i].1, b)
  {}

  /** The fate of a session that generates a key and in which exactly the directory sync after the commit raises: one
      step fetches the initialization, and the rest is the save. */
  predicate LateFate(fate: seq<Fate>) { RaisedAt(fate, 1 + COMMIT_STEP) }

  /** Random revision names do not repeat. */
  predicate FreshRevisions(sessions: seq<Session>) {
    forall i, j :: 0 <= i < j < |sessions| ==> sessions[i].rev != sessions[j].rev
  }

  /** The commits are the generated bundles of some of the sessions, in order. */
  predicate CommitsFrom(commits: seq<StoredBundle>, sessions: seq<Session>) {
    if sessions == [] then commits == []
    else
      var p := |sessions| - 1;
      CommitsFrom(commits, sessions[..p]) ||
      (commits != [] && commits[|commits| - 1] == sessions[p].material &&
        CommitsFrom(commits[..|commits| - 1], sessions[..p]))
  }

  lemma CommitsMore(commits: seq<StoredBundle>, sessions: seq<Session>, s: Session)
    requires CommitsFrom(commits, sessions)
    ensures CommitsFrom(commits, sessions + [s]) && CommitsFrom(commits + [s.material], sessions + [s])
  {
    assert (sessions + [s])[..|sessions|] == sessions;
    assert (commits + [s.material])[..|commits|] == commits;
  }

  lemma OneMoreSession(before: seq<StoredBundle>, start: nat, after: seq<StoredBundle>, sessions: seq<Session>, i: nat)
    requires i < |sessions| && start <= |before| && CommitsFrom(before[start..], sessions[..i])
    requires after == before || after == before + [sessions[i].material]
    ensures CommitsFrom(after[start..], sessions[..i + 1])
  {
    assert sessions[..i + 1] == sessions[..i] + [sessions[i]];
    CommitsMore(before[start..], sessions[..i], sessions[i]);
    assert (before + [sessions[i].material])[start..] == before[start..] + [sessions[i].material];
  }

  lemma NoSessions(history: seq<StoredBundle>)
    ensures CommitsFrom(history[|history|..], [])
  {}

  /** A session uses up only its own revision name. */
  lemma StillUnused(sessions: seq<Session>, i: nat, a: Disk, b: Disk)
    requires i < |sessions| && FreshRevisions(sessions) && Footprint(a, b, sessions[i].rev)
    requires forall k :: i <= k < |sessions| ==> UnusedRevision(sessions[k].rev, a)
    ensures forall k :: i + 1 <= k < |sessions| ==> UnusedRevision(sessions[k].rev, b)
  {
    forall k | i + 1 <= k < |sessions|
      ensures UnusedRevision(sessions[k].rev, b)
    {
      assert UnusedRevision(sessions[k].rev, a) && sessions[i].rev != sessions[k].rev;
    }
  }
}
