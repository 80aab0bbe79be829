/** Crash-safe migration of one store, and its recovery. Every disk state between two system calls
    is shown to satisfy `Safe`, which holds in whatever a crash then leaves. */
module Migration {
  import P = MigrationPlan
  import opened CrashDisk

  /** The store's plan, how documents are read, and what the store held at first. */
  datatype World = World(codec: P.Codec, plan: P.Plan, original: string)
  {
    /** What a store holding `bytes` is to become. */
    ghost function Judge(bytes: string): P.Verdict
    {
      if P.ValidPlan(plan) then P.Judge(codec, plan, bytes) else P.Refuse(P.BadPlan)
    }

    ghost function Verdict(): P.Verdict { Judge(original) }

    ghost predicate Migrates() { Verdict().Rewrite? }

    /** The complete migrated document. */
    ghost function Migrated(): string
      requires Migrates()
    {
      Verdict().bytes
    }
  }

  // ---- What every disk state keeps ----

  ghost predicate Scratch(n: Name) { n.JournalTemp? || n.Staged? }

  ghost predicate Holds(files: map<nat, File>, dir: Dir, n: Name, content: Content)
  {
    n in dir && dir[n] in files && files[dir[n]] == File(content, true)
  }

  ghost predicate HoldsOriginal(w: World, files: map<nat, File>, dir: Dir)
  {
    Holds(files, dir, Store, Raw(w.original))
  }

  ghost predicate HoldsMigrated(w: World, files: map<nat, File>, dir: Dir)
  {
    w.Migrates() && Holds(files, dir, Store, Raw(w.Migrated()))
  }

  /** The journal `j` tells the truth about the directory it stands in. */
  ghost predicate Truthful(w: World, files: map<nat, File>, dir: Dir, j: Journal)
  {
    w.Migrates() && j.store == w.plan.store && j.target == Store && j.from == w.Verdict().from && j.to == w.plan.to &&
    j.staged.Staged? && j.backup == Some(Backup(j.from)) &&
    (j.stage == Prepared ==> HoldsOriginal(w, files, dir)) &&
    (j.stage != Prepared ==> Holds(files, dir, Backup(j.from), Raw(w.original + "\n"))) &&
    (j.stage == Committed ==> HoldsMigrated(w, files, dir))
  }

  ghost predicate JournalHolds(files: map<nat, File>, dir: Dir, j: Journal)
  {
    Holds(files, dir, JournalFile, Record(j))
  }

  ghost predicate Injective(dir: Dir) { forall a, b :: a in dir && b in dir && dir[a] == dir[b] ==> a == b }

  /** The store is the whole original or the whole migrated document, and a journal is complete and
      true. */
  ghost predicate GoodDir(w: World, files: map<nat, File>, dir: Dir)
  {
    Injective(dir) && (forall n :: n in dir ==> dir[n] in files) &&
    (HoldsOriginal(w, files, dir) || HoldsMigrated(w, files, dir)) &&
    (JournalFile in dir ==> exists j :: JournalHolds(files, dir, j) && Truthful(w, files, dir, j))
  }

  /** Writing through the name `n` touches no file any possible directory knows by another name. */
  ghost predicate Separate(d: Disk, n: Name)
  {
    n in d.cur ==> forall dir, m :: dir in d.possible && m in dir && dir[m] == d.cur[n] ==> m == n
  }

  ghost predicate Safe(w: World, d: Disk)
  {
    WellFormed(d) && (forall dir :: dir in d.possible ==> GoodDir(w, d.files, dir)) &&
    (forall n :: Scratch(n) ==> Separate(d, n))
  }

  /** Crashing keeps safety, and so does every call of a process afterwards. */
  lemma {:induction false} CrashKeepsSafe(w: World, d: Disk, r: Disk)
    requires Safe(w, d) && CrashesTo(d, r)
    ensures Safe(w, r)
  {
    var dir := r.cur;
    assert GoodDir(w, d.files, dir);
    assert forall n, content :: Holds(d.files, dir, n, content) ==> Holds(r.files, dir, n, content);
    if JournalFile in dir {
      var j :| JournalHolds(d.files, dir, j) && Truthful(w, d.files, dir, j);
      assert JournalHolds(r.files, dir, j) && Truthful(w, r.files, dir, j);
    }
    assert GoodDir(w, r.files, dir);
  }

  // ---- What each system call keeps ----

  /** No possible directory holds a journal that relies on its backup. */
  ghost predicate BackupUnneeded(d: Disk)
  {
    forall dir, j :: dir in d.possible && JournalHolds(d.files, dir, j) ==> j.stage == Prepared
  }

  /** `n` may be opened and written. */
  ghost predicate Writable(d: Disk, n: Name)
  {
    Separate(d, n) && n != Store && n != JournalFile && (n.Backup? ==> BackupUnneeded(d))
  }

  lemma {:induction false} GoodDirElsewhere(w: World, files: map<nat, File>, more: map<nat, File>, dir: Dir, to: Dir,
                                            n: Name)
    requires GoodDir(w, files, dir) && n != Store && n != JournalFile
    requires n.Backup? ==> forall j :: JournalHolds(files, dir, j) ==> j.stage == Prepared
    requires Injective(to) && forall m :: m in to ==> to[m] in more
    requires forall m :: m != n && m in dir ==> m in to && to[m] == dir[m] && more[dir[m]] == files[dir[m]]
    requires JournalFile in to ==> JournalFile in dir
    ensures GoodDir(w, more, to)
    ensures n.Backup? ==> forall j :: JournalHolds(more, to, j) ==> j.stage == Prepared
  {
    assert forall m, content :: m != n && Holds(files, dir, m, content) ==> Holds(more, to, m, content);
    if JournalFile in dir {
      var j :| JournalHolds(files, dir, j) && Truthful(w, files, dir, j);
      assert JournalHolds(more, to, j) && Truthful(w, more, to, j);
    }
  }

  /** Changing the contents of the file behind a writable name. */
  lemma {:induction false} ContentKeepsSafe(w: World, d: Disk, n: Name, f: File)
    requires Safe(w, d) && Writable(d, n) && n in d.cur
    ensures Safe(w, d.(files := d.files[d.cur[n] := f])) && Writable(d.(files := d.files[d.cur[n] := f]), n)
  {
    var e := d.(files := d.files[d.cur[n] := f]);
    forall dir | dir in e.possible
      ensures GoodDir(w, e.files, dir)
      ensures n.Backup? ==> forall j :: JournalHolds(e.files, dir, j) ==> j.stage == Prepared
    {
      GoodDirElsewhere(w, d.files, e.files, dir, dir, n);
    }
    forall m | Scratch(m) ensures Separate(e, m) {
      assert Separate(d, m);
    }
  }

  /** A new file under a writable name. */
  lemma {:induction false} CreateKeepsSafe(w: World, d: Disk, n: Name)
    requires Safe(w, d) && Writable(d, n) && n !in d.cur
    ensures Safe(w, Open(d, n)) && Writable(Open(d, n), n)
  {
    var e := Open(d, n);
    forall dir | dir in d.possible
      ensures GoodBoth(w, d, n, dir)
    {
      CreateKeepsDir(w, d, n, dir);
    }
    CreateKeepsApart(w, d, n);
  }

  /** A possible directory is as good with the new file as without it. */
  ghost predicate GoodBoth(w: World, d: Disk, n: Name, dir: Dir)
    requires n !in d.cur
  {
    var e := Open(d, n);
    GoodDir(w, e.files, dir) && GoodDir(w, e.files, Link(dir, n, d.next)) &&
    (n.Backup? ==> (forall j :: JournalHolds(e.files, dir, j) ==> j.stage == Prepared) &&
                   (forall j :: JournalHolds(e.files, Link(dir, n, d.next), j) ==> j.stage == Prepared))
  }

  lemma {:induction false} CreateKeepsDir(w: World, d: Disk, n: Name, dir: Dir)
    requires Safe(w, d) && Writable(d, n) && n !in d.cur && dir in d.possible
    ensures GoodBoth(w, d, n, dir)
  {
    var e := Open(d, n);
    assert GoodDir(w, d.files, dir);
    GoodDirElsewhere(w, d.files, e.files, dir, dir, n);
    GoodDirElsewhere(w, d.files, e.files, dir, Link(dir, n, d.next), n);
  }

  lemma {:induction false} CreateKeepsApart(w: World, d: Disk, n: Name)
    requires Safe(w, d) && Writable(d, n) && n !in d.cur
    ensures forall m :: Scratch(m) || m == n ==> Separate(Open(d, n), m)
  {
    forall m | Scratch(m) || m == n ensures Separate(Open(d, n), m) {
      assert Scratch(m) ==> Separate(d, m);
    }
  }

  lemma {:induction false} OpenKeepsSafe(w: World, d: Disk, n: Name)
    requires Safe(w, d) && Writable(d, n)
    ensures Safe(w, Open(d, n)) && Writable(Open(d, n), n) && n in Open(d, n).cur
  {
    if n in d.cur {
      ContentKeepsSafe(w, d, n, File(Raw(""), false));
    } else {
      CreateKeepsSafe(w, d, n);
    }
  }

  lemma {:induction false} UnlinkKeepsSafe(w: World, d: Disk, n: Name)
    requires Safe(w, d) && (Scratch(n) || n == JournalFile)
    ensures Safe(w, Unlink(d, n))
  {
    var e := Unlink(d, n);
    forall dir | dir in d.possible ensures GoodDir(w, d.files, Drop(dir, n)) {
      assert GoodDir(w, d.files, dir);
      if n == JournalFile {
        assert forall content :: Holds(d.files, dir, Store, content) ==> Holds(d.files, Drop(dir, n), Store, content);
      } else {
        GoodDirElsewhere(w, d.files, d.files, dir, Drop(dir, n), n);
      }
    }
    forall m | Scratch(m) ensures Separate(e, m) {
      assert Separate(d, m);
    }
  }

  lemma {:induction false} SyncDirKeepsSafe(w: World, d: Disk)
    requires Safe(w, d)
    ensures Safe(w, SyncDir(d))
  {
    forall m | Scratch(m) ensures Separate(SyncDir(d), m) {
      assert Separate(d, m);
    }
  }

  /** A complete journal that is true of every possible directory may be renamed into place. */
  lemma {:induction false} JournalKeepsSafe(w: World, d: Disk, j: Journal)
    requires Safe(w, d) && Holds(d.files, d.cur, JournalTemp, Record(j))
    requires forall dir :: dir in d.possible ==> Truthful(w, d.files, dir, j)
    ensures Safe(w, Rename(d, JournalTemp, JournalFile))
    ensures JournalHolds(d.files, Rename(d, JournalTemp, JournalFile).cur, j)
  {
    var e := Rename(d, JournalTemp, JournalFile);
    var i := d.cur[JournalTemp];
    assert Separate(d, JournalTemp);
    forall dir | dir in d.possible ensures GoodDir(w, d.files, Move(dir, JournalTemp, JournalFile, i)) {
      var to := Move(dir, JournalTemp, JournalFile, i);
      assert GoodDir(w, d.files, dir);
      assert forall m, content :: m != JournalTemp && m != JournalFile && Holds(d.files, dir, m, content) ==>
          Holds(d.files, to, m, content);
      assert JournalHolds(d.files, to, j) && Truthful(w, d.files, to, j);
    }
    forall m | Scratch(m) ensures Separate(e, m) {
      assert Separate(d, m);
    }
  }

  /** The staged document, complete, may be renamed over the store once the backup is durable. */
  lemma {:induction false} CommitKeepsSafe(w: World, d: Disk, n: Name, j: Journal)
    requires Safe(w, d) && Settled(d) && n.Staged? && w.Migrates()
    requires Holds(d.files, d.cur, n, Raw(w.Migrated()))
    requires JournalHolds(d.files, d.cur, j) && j.stage == BackupDurable && Truthful(w, d.files, d.cur, j)
    ensures Safe(w, Rename(d, n, Store)) && HoldsMigrated(w, d.files, Rename(d, n, Store).cur)
    ensures JournalHolds(d.files, Rename(d, n, Store).cur, j)
    ensures Holds(d.files, Rename(d, n, Store).cur, Backup(j.from), Raw(w.original + "\n"))
  {
    var e := Rename(d, n, Store);
    assert GoodDir(w, d.files, d.cur) && Separate(d, n);
    assert JournalHolds(d.files, e.cur, j) && Truthful(w, d.files, e.cur, j);
    assert GoodDir(w, d.files, e.cur);
    assert e.possible == {d.cur, e.cur};
    forall m | Scratch(m) ensures Separate(e, m) {
      assert Separate(d, m);
    }
  }

  // ---- The migrating process ----

  datatype Outcome =
    | Current(version: nat)
    | MigratedTo(from: nat, to: nat)
    | Recovered(version: nat)
    | Refused(why: P.Refusal)
    | Unreadable
    | Mismatched
    | IoFailed

  /** What the store holds in the directory processes see. */
  ghost function StoreText(d: Disk): Option<Content>
  {
    if Store in d.cur && d.cur[Store] in d.files then Some(d.files[d.cur[Store]].content) else None
  }

  /** The store's bytes as a reader of a safe disk finds them. */
  ghost predicate StoreHolds(d: Disk, bytes: string) { StoreText(d) == Some(Raw(bytes)) }

  lemma {:induction false} SafeStore(w: World, d: Disk)
    requires Safe(w, d)
    ensures Store in d.cur && d.cur[Store] in d.files
    ensures StoreHolds(d, w.original) || (w.Migrates() && StoreHolds(d, w.Migrated()))
  {
    assert GoodDir(w, d.files, d.cur);
  }

  /** A safe disk's journal is complete and true, and a committed one stands beside a document that
      reads as JSON of the target version. */
  lemma {:induction false} SafeJournal(w: World, d: Disk) returns (j: Journal)
    requires Safe(w, d) && JournalFile in d.cur && w.codec.Faithful()
    ensures d.cur[JournalFile] in d.files && ContentOf(d, JournalFile) == Record(j) && Truthful(w, d.files, d.cur, j)
    ensures j.stage == Committed ==>
              StoreHolds(d, w.Migrated()) && w.codec.json(w.Migrated()).Some? &&
              w.codec.version(w.codec.json(w.Migrated()).value) == P.Some(w.plan.to)
  {
    assert GoodDir(w, d.files, d.cur);
    j :| JournalHolds(d.files, d.cur, j) && Truthful(w, d.files, d.cur, j);
    P.RewrittenIsKept(w.codec, w.plan, w.original);
  }

  /** The store reads as JSON with a schema version, as recovery reads it. */
  ghost predicate StoreReads(w: World, d: Disk)
  {
    StoreText(d).Some? && StoreText(d).value.Raw? && w.codec.json(StoreText(d).value.bytes).Some? &&
    w.codec.version(w.codec.json(StoreText(d).value.bytes).value).Some?
  }

  /** When recovery reads the store: a migrated one always, the original exactly when it is JSON. */
  lemma {:induction false} JournalledStoreReads(w: World, d: Disk)
    requires Safe(w, d) && JournalFile in d.cur && w.codec.Faithful()
    ensures StoreReads(w, d) <==> StoreHolds(d, w.Migrated()) || w.codec.json(w.original).Some?
  {
    SafeStore(w, d);
    var j := SafeJournal(w, d);
    P.RewrittenIsKept(w.codec, w.plan, w.original);
  }

  /** What `d` and `e` agree on when only the name `n` was worked on. */
  ghost predicate AgreeExcept(d: Disk, e: Disk, n: Name)
  {
    forall m :: m != n ==> (m in d.cur <==> m in e.cur) && (m in d.cur ==> SameFile(d, e, m))
  }

  ghost predicate SameFile(d: Disk, e: Disk, m: Name)
    requires m in d.cur && m in e.cur
  {
    d.cur[m] == e.cur[m] && d.cur[m] in d.files && d.cur[m] in e.files && d.files[d.cur[m]] == e.files[d.cur[m]]
  }

  lemma {:induction false} AgreeTransitive(d: Disk, e: Disk, f: Disk, n: Name)
    requires AgreeExcept(d, e, n) && AgreeExcept(e, f, n)
    ensures AgreeExcept(d, f, n)
  {
    forall m | m != n && m in d.cur ensures m in f.cur && SameFile(d, f, m) {
      assert SameFile(d, e, m) && SameFile(e, f, m);
    }
  }

  lemma {:induction false} ContentAgrees(w: World, d: Disk, n: Name, f: File)
    requires Safe(w, d) && n in d.cur
    ensures AgreeExcept(d, d.(files := d.files[d.cur[n] := f]), n)
  {
    assert GoodDir(w, d.files, d.cur);
  }

  lemma {:induction false} OpenAgrees(w: World, d: Disk, n: Name)
    requires Safe(w, d)
    ensures AgreeExcept(d, Open(d, n), n)
  {
    assert GoodDir(w, d.files, d.cur);
    if n in d.cur {
      ContentAgrees(w, d, n, File(Raw(""), false));
    }
  }

  lemma {:induction false} UnlinkAgrees(w: World, d: Disk, n: Name)
    requires Safe(w, d)
    ensures AgreeExcept(d, d, n) && AgreeExcept(d, Unlink(d, n), n)
  {
    assert GoodDir(w, d.files, d.cur);
  }

  lemma {:induction false} SyncDirAgrees(w: World, d: Disk, n: Name)
    requires Safe(w, d)
    ensures AgreeExcept(d, SyncDir(d), n)
  {
    assert GoodDir(w, d.files, d.cur);
  }

  /** Every directory a crash may leave of `e` agrees with `d` except for `n`. */
  ghost predicate AllAgree(d: Disk, e: Disk, n: Name)
  {
    forall dir :: dir in e.possible ==> AgreeExcept(d, e.(cur := dir), n)
  }

  lemma {:induction false} SettledAgrees(w: World, d: Disk, n: Name)
    requires Safe(w, d)
    ensures AgreeExcept(d, d, n) && (Settled(d) ==> AllAgree(d, d, n) && AllAgree(d, Open(d, n), n))
  {
    assert GoodDir(w, d.files, d.cur);
    if Settled(d) {
      OpenAgrees(w, d, n);
      forall dir | dir in Open(d, n).possible ensures AgreeExcept(d, Open(d, n).(cur := dir), n) {
        assert dir == d.cur || dir == Link(d.cur, n, d.next);
      }
    }
  }

  /** Changing the file behind `n` again keeps both agreements. */
  lemma {:induction false} ContentKeepsAgreement(w: World, d: Disk, e: Disk, n: Name, f: File)
    requires Safe(w, e) && Separate(e, n) && n in e.cur && AgreeExcept(d, e, n)
    ensures AgreeExcept(d, e.(files := e.files[e.cur[n] := f]), n)
    ensures AllAgree(d, e, n) ==> AllAgree(d, e.(files := e.files[e.cur[n] := f]), n)
  {
    var g := e.(files := e.files[e.cur[n] := f]);
    ContentAgrees(w, e, n, f);
    AgreeTransitive(d, e, g, n);
    if AllAgree(d, e, n) {
      forall dir | dir in g.possible ensures AgreeExcept(d, g.(cur := dir), n) {
        var x := e.(cur := dir);
        assert AgreeExcept(d, x, n) && GoodDir(w, e.files, dir);
        forall m | m != n && m in d.cur ensures m in dir && SameFile(d, g.(cur := dir), m) {
          assert SameFile(d, x, m);
        }
      }
    }
  }

  /** A disk reached from `d` by working on `n` alone. */
  ghost predicate Worked(w: World, d: Disk, e: Disk, n: Name)
  {
    Safe(w, e) && Writable(e, n) && AgreeExcept(d, e, n) && (Settled(d) ==> AllAgree(d, e, n))
  }

  lemma {:induction false} OpenWorks(w: World, d: Disk, n: Name)
    requires Safe(w, d) && Writable(d, n)
    ensures Worked(w, d, d, n) && Worked(w, d, Open(d, n), n) && n in Open(d, n).cur
  {
    OpenKeepsSafe(w, d, n);
    OpenAgrees(w, d, n);
    SettledAgrees(w, d, n);
  }

  lemma {:induction false} ContentWorks(w: World, d: Disk, e: Disk, n: Name, f: File)
    requires Worked(w, d, e, n) && n in e.cur
    ensures Worked(w, d, e.(files := e.files[e.cur[n] := f]), n)
  {
    ContentKeepsSafe(w, e, n, f);
    ContentKeepsAgreement(w, d, e, n, f);
  }

  /** What a journal says stays true when a scratch name is worked on. */
  lemma {:induction false} TruthfulAgrees(w: World, d: Disk, e: Disk, n: Name, j: Journal)
    requires Truthful(w, d.files, d.cur, j) && AgreeExcept(d, e, n)
    requires Scratch(n) || (n.Backup? && j.stage == Prepared)
    ensures Truthful(w, e.files, e.cur, j)
  {
    forall m, content | m != n && Holds(d.files, d.cur, m, content) ensures Holds(e.files, e.cur, m, content) {
      assert SameFile(d, e, m);
    }
  }

  /** What `d` and `e` agree on when only the journal was worked on. */
  ghost predicate AgreeOnFiles(d: Disk, e: Disk)
  {
    forall m: Name :: !m.JournalTemp? && !m.JournalFile? ==> (m in d.cur <==> m in e.cur) && (m in d.cur ==> SameFile(d, e, m))
  }

  lemma {:induction false} RenameAgreesOnFiles(d: Disk, e: Disk)
    requires AgreeExcept(d, e, JournalTemp) && JournalTemp in e.cur
    ensures AgreeOnFiles(d, e) && AgreeOnFiles(d, Rename(e, JournalTemp, JournalFile))
    ensures AgreeOnFiles(d, SyncDir(Rename(e, JournalTemp, JournalFile)))
  {
    var f := Rename(e, JournalTemp, JournalFile);
    forall m: Name | !m.JournalTemp? && !m.JournalFile? && m in d.cur ensures m in f.cur && SameFile(d, f, m) {
      assert SameFile(d, e, m);
    }
  }

  /** The new journal, written aside, may be renamed into place. */
  lemma {:induction false} JournalWorks(w: World, d: Disk, e: Disk, j: Journal)
    requires Safe(w, d) && Settled(d) && Truthful(w, d.files, d.cur, j) && Worked(w, d, e, JournalTemp)
    requires Holds(e.files, e.cur, JournalTemp, Record(j))
    ensures Safe(w, Rename(e, JournalTemp, JournalFile))
    ensures JournalHolds(e.files, Rename(e, JournalTemp, JournalFile).cur, j)
  {
    forall dir | dir in e.possible ensures Truthful(w, e.files, dir, j) {
      TruthfulAgrees(w, d, e.(cur := dir), JournalTemp, j);
    }
    JournalKeepsSafe(w, e, j);
  }

  // ---- The stages of one migration ----

  function JournalOf(w: World, from: nat, process: nat, stage: Stage): Journal
  {
    Journal(w.plan.store, from, w.plan.to, Store, Staged(process), Some(Backup(from)), stage)
  }

  /** A settled disk on which the migrated document is staged and the store still the original. */
  ghost predicate StagedBeside(w: World, d: Disk, process: nat)
  {
    w.Migrates() && Safe(w, d) && Settled(d) && HoldsOriginal(w, d.files, d.cur) &&
    Holds(d.files, d.cur, Staged(process), Raw(w.Migrated()))
  }

  ghost predicate BackedUp(w: World, d: Disk)
  {
    w.Migrates() && Holds(d.files, d.cur, Backup(w.Verdict().from), Raw(w.original + "\n"))
  }

  ghost predicate Journalled(w: World, d: Disk, process: nat, stage: Stage)
  {
    w.Migrates() && JournalHolds(d.files, d.cur, JournalOf(w, w.Verdict().from, process, stage))
  }

  lemma {:induction false} HoldsStays(d: Disk, e: Disk, n: Name, m: Name, content: Content)
    requires AgreeExcept(d, e, n) && m != n && Holds(d.files, d.cur, m, content)
    ensures Holds(e.files, e.cur, m, content)
  {
    assert SameFile(d, e, m);
  }

  lemma {:induction false} FileStays(d: Disk, e: Disk, m: Name, content: Content)
    requires AgreeOnFiles(d, e) && !m.JournalTemp? && !m.JournalFile? && Holds(d.files, d.cur, m, content)
    ensures Holds(e.files, e.cur, m, content)
  {
    assert SameFile(d, e, m);
  }

  /** A safe store processes see as the original is durable as such. */
  lemma {:induction false} OriginalIsDurable(w: World, d: Disk)
    requires Safe(w, d) && StoreHolds(d, w.original)
    ensures HoldsOriginal(w, d.files, d.cur)
  {
    assert GoodDir(w, d.files, d.cur);
  }

  /** Once Prepared is durable the backup may be written. */
  lemma {:induction false} PreparedIsReady(w: World, d: Disk, process: nat)
    requires StagedBeside(w, d, process) && Journalled(w, d, process, Prepared)
    ensures Writable(d, Backup(w.Verdict().from))
  {
    assert GoodDir(w, d.files, d.cur);
  }

  /** Working on the journal disturbs neither the staged document, the store nor the backup. */
  lemma {:induction false} JournalDisturbsNothing(w: World, d: Disk, e: Disk, process: nat)
    requires StagedBeside(w, d, process) && AgreeOnFiles(d, e) && Safe(w, e)
    ensures StoreHolds(e, w.original) && (Settled(e) ==> StagedBeside(w, e, process))
    ensures BackedUp(w, d) ==> BackedUp(w, e)
  {
    FileStays(d, e, Store, Raw(w.original));
    FileStays(d, e, Staged(process), Raw(w.Migrated()));
    if BackedUp(w, d) {
      FileStays(d, e, Backup(w.Verdict().from), Raw(w.original + "\n"));
    }
  }

  lemma {:induction false} SafeHasNoJournal(w: World, d: Disk)
    requires Safe(w, d) && !P.ValidPlan(w.plan)
    ensures JournalFile !in d.cur
  {
    assert GoodDir(w, d.files, d.cur);
  }

  /** Only the original is ever rewritten: the migrated document is current. */
  lemma {:induction false} RewriteIsOfOriginal(w: World, d: Disk, bytes: string)
    requires Safe(w, d) && StoreHolds(d, bytes) && w.codec.Faithful() && w.Judge(bytes).Rewrite?
    ensures bytes == w.original && w.Migrates()
  {
    SafeStore(w, d);
    if w.Migrates() {
      P.RewrittenIsKept(w.codec, w.plan, w.original);
    }
  }

  /** The answer that fits a judgement of the store. */
  ghost predicate Answers(verdict: P.Verdict, outcome: Outcome, to: nat)
  {
    match verdict
    case Keep(version) => outcome == Current(version)
    case Refuse(why) => outcome == Refused(why)
    case Rewrite(from, _) => outcome == MigratedTo(from, to) || outcome == IoFailed
  }

  /** The answer told in documents, not in judgements: by whether the store reads, as what and at which
      version, and by what the plan's steps make of that. */
  ghost predicate Told(w: World, bytes: string, outcome: Outcome)
  {
    (outcome == Refused(P.BadPlan) <==> !P.ValidPlan(w.plan)) &&
    (P.ValidPlan(w.plan) ==>
       (outcome == Refused(P.Corrupt) <==> w.codec.json(bytes).None? && w.codec.yaml(bytes).None?) &&
       forall v :: P.Reads(w.codec, bytes, v) ==>
         exists verdict :: P.FitsDocument(w.codec, w.plan, v, verdict) && Answers(verdict, outcome, w.plan.to))
  }

  lemma {:induction false} AnswerIsTold(w: World, bytes: string, outcome: Outcome)
    requires Answers(w.Judge(bytes), outcome, w.plan.to)
    ensures Told(w, bytes, outcome)
  {
    if P.ValidPlan(w.plan) {
      P.JudgeFits(w.codec, w.plan, bytes);
      assert w.Judge(bytes) == P.Judge(w.codec, w.plan, bytes);
      NotABadPlan(w, bytes);
    }
  }

  lemma {:induction false} NotABadPlan(w: World, bytes: string)
    requires P.ValidPlan(w.plan)
    ensures w.Judge(bytes) != P.Refuse(P.BadPlan)
  {
  }

  /** The store holds what the steps made of the document that was read. */
  ghost predicate HoldsMade(w: World, bytes: string, from: nat, d: Disk)
  {
    exists v, last ::
      P.Reads(w.codec, bytes, v) && w.codec.version(v) == P.Some(from) && P.Makes(w.codec, w.plan, v, from, last) &&
      StoreHolds(d, w.codec.encode(last) + "\n")
  }

  lemma {:induction false} RewriteIsMade(w: World, bytes: string, d: Disk)
    requires w.Judge(bytes).Rewrite? && StoreHolds(d, w.Judge(bytes).bytes)
    ensures HoldsMade(w, bytes, w.Judge(bytes).from, d)
  {
    var v := w.codec.Read(bytes).value;
    var from := w.codec.version(v).value;
    P.UpgradeMakes(w.codec, w.plan, v, from);
    var last := P.Upgrade(w.codec, w.plan.steps, v, from).value;
    assert P.Makes(w.codec, w.plan, v, from, last);
  }

  /** The store reads as JSON at this version. */
  ghost predicate ReadsAt(w: World, d: Disk, version: nat)
  {
    exists bytes ::
      StoreHolds(d, bytes) && w.codec.json(bytes).Some? && w.codec.version(w.codec.json(bytes).value) == P.Some(version)
  }

  ghost predicate AllSafe(w: World, trace: seq<Disk>) { forall k :: 0 <= k < |trace| ==> Safe(w, trace[k]) }

  /** What a call is made for: a store by name and place, and the version to reach. */
  datatype Request = Request(store: string, target: Name, to: nat)

  /** The journal on disk is that of the request. */
  ghost predicate JournalIsFor(d: Disk, asked: Request)
  {
    exists j :: JournalHolds(d.files, d.cur, j) && j.target == asked.target && j.store == asked.store && j.to == asked.to
  }

  lemma {:induction false} JournalTells(d: Disk, j: Journal, asked: Request)
    requires JournalHolds(d.files, d.cur, j)
    ensures JournalIsFor(d, asked) <==> j.target == asked.target && j.store == asked.store && j.to == asked.to
  {
    assert forall k :: JournalHolds(d.files, d.cur, k) ==> k == j;
  }

  lemma {:induction false} OwnJournal(w: World, d: Disk)
    requires Safe(w, d) && w.codec.Faithful() && JournalFile in d.cur
    ensures JournalIsFor(d, Request(w.plan.store, Store, w.plan.to))
  {
    assert GoodDir(w, d.files, d.cur);
    var j :| JournalHolds(d.files, d.cur, j) && Truthful(w, d.files, d.cur, j);
  }

  /** One process at work on the disk of `world`. Unless it is `reliable` any system call may fail,
      which ends the call of the process there. Every state the disk goes through is traced. */
  class Machine {
    const world: World
    const reliable: bool
    var disk: Disk
    var trace: seq<Disk>

    ghost predicate Valid()
      reads this
    {
      world.codec.Faithful() && Safe(world, disk) && AllSafe(world, trace)
    }

    /** A machine whose disk holds the original durably and nothing else. */
    constructor (w: World, reliably: bool)
      requires w.codec.Faithful()
      ensures Valid() && world == w && reliable == reliably && trace == [disk]
      ensures StoreHolds(disk, w.original) && JournalFile !in disk.cur
    {
      var first := Disk(map[0 := File(Raw(w.original), true)], 1, map[Store := 0], {map[Store := 0]});
      FirstDiskIsSafe(w, first);
      world, reliable, disk, trace := w, reliably, first, [first];
    }

    /** The disk after a system call: done, or failed without effect. */
    twostate predicate Called(done: bool, next: Disk)
      reads this
    {
      disk == (if done then next else old(disk)) && old(trace) <= trace && (reliable ==> done)
    }

    method Step(next: Disk) returns (done: bool)
      requires Valid() && Safe(world, next)
      modifies this
      ensures Valid() && Called(done, next)
    {
      done := *;
      done := done || reliable;
      if done {
        disk := next;
        trace := trace + [next];
      }
    }

    method SyncParent() returns (done: bool)
      requires Valid()
      modifies this
      ensures Valid() && Called(done, SyncDir(old(disk)))
    {
      SyncDirKeepsSafe(world, disk);
      done := Step(SyncDir(disk));
    }

    /** Write a whole file under a scratch name and make its contents durable. */
    method WriteFile(n: Name, content: Content) returns (done: bool)
      requires Valid() && Writable(disk, n)
      modifies this
      ensures Valid() && old(trace) <= trace && (reliable ==> done)
      ensures Worked(world, old(disk), disk, n)
      ensures done ==> Holds(disk.files, disk.cur, n, content)
    {
      OpenWorks(world, disk, n);
      ghost var before := disk;
      done := Step(Open(disk, n));
      if !done { return; }
      done := Fill(before, n, content);
    }

    /** The contents of a file just opened. */
    method Fill(ghost before: Disk, n: Name, content: Content) returns (done: bool)
      requires Valid() && Worked(world, before, disk, n) && n in disk.cur
      modifies this
      ensures Valid() && old(trace) <= trace && (reliable ==> done)
      ensures Worked(world, before, disk, n)
      ensures done ==> Holds(disk.files, disk.cur, n, content)
    {
      ContentWorks(world, before, disk, n, File(content, false));
      done := Step(Write(disk, n, content));
      if !done { return; }
      ContentWorks(world, before, disk, n, File(content, true));
      done := Step(Sync(disk, n));
    }

    /** `WriteFile`, and make the entry durable too. */
    method WriteSynced(n: Name, content: Content) returns (done: bool)
      requires Valid() && Writable(disk, n)
      modifies this
      ensures Valid() && old(trace) <= trace && (reliable ==> done)
      ensures AgreeExcept(old(disk), disk, n)
      ensures done ==> Settled(disk) && Holds(disk.files, disk.cur, n, content)
    {
      done := WriteFile(n, content);
      if !done { return; }
      ghost var written := disk;
      SyncDirAgrees(world, written, n);
      AgreeTransitive(old(disk), written, SyncDir(written), n);
      done := SyncParent();
    }

    /** Replace the journal: written aside, renamed into place, made durable. */
    method WriteDurable(j: Journal) returns (done: bool)
      requires Valid() && Settled(disk) && Truthful(world, disk.files, disk.cur, j)
      modifies this
      ensures Valid() && old(trace) <= trace && (reliable ==> done)
      ensures AgreeOnFiles(old(disk), disk)
      ensures done ==> Settled(disk) && JournalHolds(disk.files, disk.cur, j)
    {
      done := WriteFile(JournalTemp, Record(j));
      assert AgreeOnFiles(old(disk), disk);
      if done {
        done := Install(old(disk), j);
      }
    }

    /** Rename the journal written aside into place, and make the entry durable. */
    method Install(ghost before: Disk, j: Journal) returns (done: bool)
      requires Valid() && Safe(world, before) && Settled(before) && Truthful(world, before.files, before.cur, j)
      requires Worked(world, before, disk, JournalTemp) && Holds(disk.files, disk.cur, JournalTemp, Record(j))
      modifies this
      ensures Valid() && old(trace) <= trace && (reliable ==> done)
      ensures AgreeOnFiles(before, disk)
      ensures done ==> Settled(disk) && JournalHolds(disk.files, disk.cur, j)
    {
      RenameAgreesOnFiles(before, disk);
      JournalWorks(world, before, disk, j);
      done := Step(Rename(disk, JournalTemp, JournalFile));
      if !done { return; }
      done := SyncParent();
    }

    // ---- Recovery ----

    method RemovePresent(n: Name) returns (done: bool)
      requires Valid() && (Scratch(n) || n == JournalFile)
      modifies this
      ensures Valid() && old(trace) <= trace && (reliable ==> done)
      ensures AgreeExcept(old(disk), disk, n) && (done ==> n !in disk.cur)
    {
      done := true;
      UnlinkAgrees(world, disk, n);
      if n in disk.cur {
        UnlinkKeepsSafe(world, disk, n);
        done := Step(Unlink(disk, n));
      }
    }

    /** Undo or finish what an interrupted migration left; nothing to do without a journal. A journal of
        another store, target or version is refused and left alone. Two refusals cannot be reached: the store is never
        missing, and a committed store has the version of the plan. The store's text is never
        touched. A recovery without failing calls removes the journal, and then answers an error exactly
        when the store does not read as JSON. */
    method RecoverFor(asked: Request) returns (outcome: Option<Outcome>)
      requires Valid()
      modifies this
      ensures Valid() && old(trace) <= trace && StoreText(disk) == old(StoreText(disk))
      ensures outcome.None? <==> JournalFile !in old(disk).cur
      ensures outcome == Some(Mismatched) <==> JournalFile in old(disk).cur && !JournalIsFor(old(disk), asked)
      ensures outcome.None? || outcome.value == Mismatched ==> disk == old(disk)
      ensures outcome.Some? ==>
                outcome.value == IoFailed || outcome.value == Unreadable || outcome.value == Mismatched ||
                (outcome.value.Recovered? && ReadsAt(world, disk, outcome.value.version))
      ensures reliable && outcome.Some? && outcome.value != Mismatched ==>
                Settled(disk) && JournalFile !in disk.cur && outcome.value != IoFailed &&
                (outcome.value == Unreadable <==> !StoreReads(world, disk))
    {
      if JournalFile !in disk.cur {
        return None;
      }
      ghost var j := SafeJournal(world, disk);
      var journal := ContentOf(disk, JournalFile).journal;
      JournalTells(disk, journal, asked);
      if journal.target != asked.target || journal.store != asked.store || journal.to != asked.to {
        return Some(Mismatched);
      }
      var done := Undo(journal);
      if !done {
        return Some(IoFailed);
      }
      SafeStore(world, disk);
      assert StoreHolds(disk, ContentOf(disk, Store).bytes);
      var recovered := world.codec.json(ContentOf(disk, Store).bytes);
      if recovered.None? || world.codec.version(recovered.value).None? {
        return Some(Unreadable);
      }
      return Some(Recovered(world.codec.version(recovered.value).value));
    }

    /** The changes a recovery makes: the staged file and the journal go. */
    method Undo(journal: Journal) returns (done: bool)
      requires Valid() && JournalFile in disk.cur && disk.cur[JournalFile] in disk.files
      requires ContentOf(disk, JournalFile) == Record(journal)
      modifies this
      ensures Valid() && old(trace) <= trace && StoreText(disk) == old(StoreText(disk)) && (reliable ==> done)
      ensures done ==> Settled(disk) && JournalFile !in disk.cur
    {
      ghost var j := SafeJournal(world, disk);
      SafeStore(world, disk);
      var store := ContentOf(disk, Store).bytes;
      if journal.stage == Committed {
        var committed := world.codec.json(store);
        if committed.None? || world.codec.version(committed.value) != P.Some(world.plan.to) {
          assert false;
        }
      }
      done := RemovePresent(journal.staged);
      if !done { return; }
      if Store !in disk.cur {
        assert false;
      }
      done := RemovePresent(JournalFile);
      if !done { return; }
      done := SyncParent();
    }

    /** Recovery of the store and plan the machine works on. */
    method Recover() returns (outcome: Option<Outcome>)
      requires Valid()
      modifies this
      ensures Valid() && old(trace) <= trace && StoreText(disk) == old(StoreText(disk))
      ensures outcome.None? <==> JournalFile !in old(disk).cur
      ensures outcome.None? ==> disk == old(disk)
      ensures outcome.Some? ==>
                outcome.value == IoFailed || outcome.value == Unreadable ||
                (outcome.value.Recovered? && ReadsAt(world, disk, outcome.value.version))
      ensures reliable && outcome.Some? ==>
                Settled(disk) && JournalFile !in disk.cur && outcome.value != IoFailed &&
                (outcome.value == Unreadable <==> !StoreReads(world, disk))
    {
      if JournalFile in disk.cur { OwnJournal(world, disk); }
      outcome := RecoverFor(Request(world.plan.store, Store, world.plan.to));
    }

    // ---- Migration ----

    /** Stage the migrated document beside the store. */
    method StageDocument(process: nat, bytes: string) returns (done: bool)
      requires Valid() && JournalFile !in disk.cur && StoreHolds(disk, world.original)
      requires world.Migrates() && bytes == world.Migrated()
      modifies this
      ensures Valid() && old(trace) <= trace && (reliable ==> done)
      ensures StoreHolds(disk, world.original)
      ensures done ==> StagedBeside(world, disk, process)
    {
      OriginalIsDurable(world, disk);
      assert Separate(disk, Staged(process));
      done := WriteSynced(Staged(process), Raw(bytes));
      HoldsStays(old(disk), disk, Staged(process), Store, Raw(world.original));
    }

    /** Make the journal say `stage`. */
    method Mark(from: nat, process: nat, stage: Stage) returns (done: bool)
      requires Valid() && StagedBeside(world, disk, process) && world.Verdict().from == from
      requires stage == Prepared || (stage == BackupDurable && BackedUp(world, disk))
      modifies this
      ensures Valid() && old(trace) <= trace && (reliable ==> done)
      ensures StoreHolds(disk, world.original)
      ensures done ==> StagedBeside(world, disk, process) && Journalled(world, disk, process, stage)
      ensures done && old(BackedUp(world, disk)) ==> BackedUp(world, disk)
    {
      done := WriteDurable(JournalOf(world, from, process, stage));
      JournalDisturbsNothing(world, old(disk), disk, process);
    }

    /** Keep the original in the backup. */
    method BackUp(from: nat, process: nat) returns (done: bool)
      requires Valid() && StagedBeside(world, disk, process) && Journalled(world, disk, process, Prepared)
      requires world.Verdict().from == from
      modifies this
      ensures Valid() && old(trace) <= trace && (reliable ==> done)
      ensures StoreHolds(disk, world.original)
      ensures done ==> StagedBeside(world, disk, process) && BackedUp(world, disk)
    {
      PreparedIsReady(world, disk, process);
      ghost var n := Backup(from);
      done := WriteSynced(Backup(from), Raw(world.original + "\n"));
      HoldsStays(old(disk), disk, n, Store, Raw(world.original));
      HoldsStays(old(disk), disk, n, Staged(process), Raw(world.Migrated()));
    }

    /** Rename the staged document over the store. */
    method Commit(process: nat) returns (done: bool)
      requires Valid() && StagedBeside(world, disk, process) && BackedUp(world, disk)
      requires Journalled(world, disk, process, BackupDurable)
      modifies this
      ensures Valid() && old(trace) <= trace && (reliable ==> done)
      ensures StoreHolds(disk, world.original) || StoreHolds(disk, world.Migrated())
      ensures done ==> Settled(disk) && BackedUp(world, disk) && HoldsMigrated(world, disk.files, disk.cur)
    {
      CommitKeepsSafe(world, disk, Staged(process), JournalOf(world, world.Verdict().from, process, BackupDurable));
      done := Step(Rename(disk, Staged(process), Store));
      if !done { return; }
      done := SyncParent();
    }

    /** Mark the migration committed, then remove the journal. */
    method Finish(from: nat, process: nat) returns (done: bool)
      requires Valid() && Settled(disk) && BackedUp(world, disk) && HoldsMigrated(world, disk.files, disk.cur)
      requires world.Verdict().from == from
      modifies this
      ensures Valid() && old(trace) <= trace && (reliable ==> done)
      ensures StoreHolds(disk, world.Migrated())
      ensures done ==> Settled(disk) && JournalFile !in disk.cur && BackedUp(world, disk)
    {
      done := WriteDurable(JournalOf(world, from, process, Committed));
      FileStays(old(disk), disk, Store, Raw(world.Migrated()));
      FileStays(old(disk), disk, Backup(from), Raw(world.original + "\n"));
      if !done { return; }
      ghost var marked := disk;
      done := RemovePresent(JournalFile);
      HoldsStays(marked, disk, JournalFile, Store, Raw(world.Migrated()));
      HoldsStays(marked, disk, JournalFile, Backup(from), Raw(world.original + "\n"));
      if !done { return; }
      done := SyncParent();
    }

    /** Staged, Prepared, backed up. */
    method PrepareRewrite(process: nat, from: nat, bytes: string) returns (done: bool)
      requires Valid() && JournalFile !in disk.cur && StoreHolds(disk, world.original)
      requires world.Migrates() && world.Migrated() == bytes && world.Verdict().from == from
      modifies this
      ensures Valid() && old(trace) <= trace && (reliable ==> done)
      ensures StoreHolds(disk, world.original)
      ensures done ==> StagedBeside(world, disk, process) && BackedUp(world, disk)
    {
      done := StageDocument(process, bytes);
      if !done { return; }
      done := Mark(from, process, Prepared);
      if !done { return; }
      done := BackUp(from, process);
    }

    /** The journalled rewrite of the store: staged, Prepared, backup, BackupDurable, renamed,
        Committed, journal removed. */
    method Rewrite(process: nat, from: nat, bytes: string) returns (outcome: Outcome)
      requires Valid() && JournalFile !in disk.cur && StoreHolds(disk, world.original)
      requires world.Migrates() && world.Migrated() == bytes && world.Verdict().from == from
      modifies this
      ensures Valid() && old(trace) <= trace
      ensures StoreHolds(disk, world.original) || StoreHolds(disk, bytes)
      ensures outcome == IoFailed || outcome == MigratedTo(from, world.plan.to)
      ensures reliable ==> outcome != IoFailed
      ensures outcome != IoFailed ==>
                Settled(disk) && JournalFile !in disk.cur && StoreHolds(disk, bytes) && BackedUp(world, disk)
    {
      var done := PrepareRewrite(process, from, bytes);
      if !done { return IoFailed; }
      done := Mark(from, process, BackupDurable);
      if !done { return IoFailed; }
      done := Commit(process);
      if !done { return IoFailed; }
      done := Finish(from, process);
      return if done then MigratedTo(from, world.plan.to) else IoFailed;
    }

    /** Read and judge the store, as `migrate_json` does before it touches the disk. */
    method JudgeStore(bytes: string) returns (verdict: P.Verdict)
      requires world.codec.Faithful()
      ensures verdict == P.Judge(world.codec, world.plan, bytes)
      requires P.ValidPlan(world.plan)
    {
      var read := world.codec.Read(bytes);
      if read.None? {
        return P.Refuse(P.Corrupt);
      }
      if !world.plan.preflight(read.value) {
        return P.Refuse(P.Unfit);
      }
      var version := world.codec.version(read.value);
      if version.None? {
        return P.Refuse(P.BadVersion);
      }
      var from := version.value;
      if from > world.plan.to {
        return P.Refuse(P.Newer);
      }
      if from < world.plan.oldestReadable {
        return P.Refuse(P.Older);
      }
      if from == world.plan.to {
        return P.Keep(from);
      }
      if from < world.plan.from {
        return P.Refuse(P.NoPath);
      }
      var upgraded := P.RunSteps(world.codec, world.plan, read.value, from);
      if upgraded.None? {
        return P.Refuse(P.StepFailed);
      }
      if !world.plan.preflight(upgraded.value) {
        return P.Refuse(P.Unfit);
      }
      return P.Rewrite(from, world.codec.encode(upgraded.value) + "\n");
    }

    /** One call. Whatever fails or crashes, the store holds the whole original or the whole migrated
        document. With an interrupted migration on disk the call recovers and migrates nothing.
        Without one it does what the judgement of the store says. */
    method MigrateJson(process: nat) returns (outcome: Outcome)
      requires Valid()
      modifies this
      ensures Valid() && old(trace) <= trace
      ensures StoreText(disk) == old(StoreText(disk)) || (world.Migrates() && StoreHolds(disk, world.Migrated()))
      ensures reliable ==> JournalFile !in disk.cur
      ensures old(JournalFile in disk.cur) ==>
                StoreText(disk) == old(StoreText(disk)) &&
                (outcome.Recovered? ==> ReadsAt(world, disk, outcome.version)) &&
                (reliable ==> outcome.Recovered? || outcome == Unreadable) &&
                (reliable ==> (outcome == Unreadable <==> !StoreReads(world, disk)))
      ensures old(JournalFile !in disk.cur) ==>
                exists bytes :: old(StoreHolds(disk, bytes)) && Answers(world.Judge(bytes), outcome, world.plan.to) &&
                  (!world.Judge(bytes).Rewrite? ==> disk == old(disk)) &&
                  (reliable && world.Judge(bytes).Rewrite? ==> outcome != IoFailed && StoreHolds(disk, world.Judge(bytes).bytes))
      ensures old(JournalFile !in disk.cur) ==>
                exists bytes :: old(StoreHolds(disk, bytes)) && Told(world, bytes, outcome) &&
                  (outcome.Refused? || outcome.Current? ==> disk == old(disk)) &&
                  (outcome.MigratedTo? ==>
                     HoldsMade(world, bytes, outcome.from, disk) &&
                     Holds(disk.files, disk.cur, Backup(outcome.from), Raw(bytes + "\n")))
    {
      SafeStore(world, disk);
      var valid := P.Validate(world.plan);
      if !valid {
        SafeHasNoJournal(world, disk);
        assert StoreHolds(disk, ContentOf(disk, Store).bytes);
        AnswerIsTold(world, ContentOf(disk, Store).bytes, Refused(P.BadPlan));
        return Refused(P.BadPlan);
      }
      var recovered := Recover();
      if recovered.Some? {
        return recovered.value;
      }
      var bytes := ContentOf(disk, Store).bytes;
      assert old(StoreHolds(disk, bytes));
      var verdict := JudgeStore(bytes);
      match verdict {
        case Keep(version) => outcome := Current(version);
        case Refuse(why) => outcome := Refused(why);
        case Rewrite(from, migrated) =>
          RewriteIsOfOriginal(world, disk, bytes);
          outcome := Rewrite(process, from, migrated);
          if outcome != IoFailed { RewriteIsMade(world, bytes, disk); }
      }
      AnswerIsTold(world, bytes, outcome);
    }

    // ---- Whole runs ----

    /** From any state a run may be left in, two calls without a crash or a failing system call
        leave the store migrated; it then stays as it is. */
    method Converge(first: nat, second: nat)
      requires Valid() && reliable && world.Migrates()
      modifies this
      ensures Valid() && JournalFile !in disk.cur && StoreHolds(disk, world.Migrated())
    {
      var _ := MigrateJson(first);
      SafeStore(world, disk);
      P.RewrittenIsKept(world.codec, world.plan, world.original);
      var _ := MigrateJson(second);
    }

    /** A process that stops right after Prepared, and the recovery that follows: it answers an error
        exactly when the original is no JSON, although nothing is lost. */
    method StopAfterPrepared(process: nat, from: nat, bytes: string) returns (outcome: Option<Outcome>)
      requires Valid() && reliable && JournalFile !in disk.cur && StoreHolds(disk, world.original)
      requires world.Migrates() && bytes == world.Migrated() && from == world.Verdict().from
      modifies this
      ensures Valid() && StoreHolds(disk, world.original)
      ensures outcome == Some(Unreadable) <==> world.codec.json(world.original).None?
    {
      var _ := StageDocument(process, bytes);
      var _ := Mark(from, process, Prepared);
      JournalledStoreReads(world, disk);
      P.RewrittenIsKept(world.codec, world.plan, world.original);
      outcome := Recover();
    }

    /** Any number of calls by any processes, each of which may be cut off by a crash at any state it
        went through, the disk then being anything the crash may leave. */
    method AnyRun(calls: nat)
      requires Valid()
      modifies this
      ensures Valid()
    {
      for k := 0 to calls
        invariant Valid()
      {
        var process: nat := *;
        trace := [disk];
        var _ := MigrateJson(process);
        var at: nat := *;
        var left: Disk := *;
        if 0 <= at < |trace| && CrashesTo(trace[at], left) {
          CrashKeepsSafe(world, trace[at], left);
          disk := left;
        }
      }
    }
  }

  /** A disk that holds only the durable original is safe, whatever the original is. */
  lemma {:induction false} FirstDiskIsSafe(w: World, d: Disk)
    requires d == Disk(map[0 := File(Raw(w.original), true)], 1, map[Store := 0], {map[Store := 0]})
    ensures Safe(w, d) && StoreHolds(d, w.original)
  {
    assert HoldsOriginal(w, d.files, d.cur);
  }
}
