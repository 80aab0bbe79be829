/** A directory on a disk that can crash. File contents become durable when the file is synced,
    directory entries when the directory is. Until then a crash may keep any selection of the
    entry changes made since the last sync, each change whole: a rename is never half done. */
module CrashDisk {

  datatype Stage = Prepared | BackupDurable | Committed

  datatype Option<T> = None | Some(value: T)

  /** The files beside one store. Staged files are named after the process that wrote them, backups
      after the version they hold. */
  datatype Name = Store | JournalFile | JournalTemp | Backup(version: nat) | Staged(process: nat)

  datatype Journal = Journal(
    store: string, from: nat, to: nat, target: Name, staged: Name, backup: Option<Name>, stage: Stage)

  /** A file holds text, or the record of a journal; a record that does not parse is text. */
  datatype Content = Raw(bytes: string) | Record(journal: Journal)

  datatype File = File(content: Content, synced: bool)

  type Dir = map<Name, nat>

  /** Files by number, the next number to give, the directory as processes see it, and the directories a
      crash may leave. */
  datatype Disk = Disk(files: map<nat, File>, next: nat, cur: Dir, possible: set<Dir>)

  ghost predicate WellFormed(d: Disk)
  {
    d.cur in d.possible && (forall i :: i in d.files ==> i < d.next) &&
    forall dir, n :: dir in d.possible && n in dir ==> dir[n] in d.files
  }

  predicate Settled(d: Disk) { d.possible == {d.cur} }

  function ContentOf(d: Disk, n: Name): Content
    requires n in d.cur && d.cur[n] in d.files
  {
    d.files[d.cur[n]].content
  }

  // ---- One system call ----

  function Link(dir: Dir, n: Name, i: nat): Dir { dir[n := i] }

  function Drop(dir: Dir, n: Name): Dir { dir - {n} }

  function Move(dir: Dir, from: Name, to: Name, i: nat): Dir { (dir - {from})[to := i] }

  /** Open for writing, creating or truncating in place. */
  function Open(d: Disk, n: Name): Disk
  {
    if n in d.cur then d.(files := d.files[d.cur[n] := File(Raw(""), false)])
    else
      Disk(d.files[d.next := File(Raw(""), false)], d.next + 1, Link(d.cur, n, d.next),
           d.possible + set dir | dir in d.possible :: Link(dir, n, d.next))
  }

  function Write(d: Disk, n: Name, content: Content): Disk
    requires n in d.cur
  {
    d.(files := d.files[d.cur[n] := File(content, false)])
  }

  function Sync(d: Disk, n: Name): Disk
    requires n in d.cur && d.cur[n] in d.files
  {
    d.(files := d.files[d.cur[n] := File(d.files[d.cur[n]].content, true)])
  }

  function Unlink(d: Disk, n: Name): Disk
  {
    d.(cur := Drop(d.cur, n), possible := d.possible + set dir | dir in d.possible :: Drop(dir, n))
  }

  function Rename(d: Disk, from: Name, to: Name): Disk
    requires from in d.cur
  {
    var i := d.cur[from];
    d.(cur := Move(d.cur, from, to, i), possible := d.possible + set dir | dir in d.possible :: Move(dir, from, to, i))
  }

  function SyncDir(d: Disk): Disk { d.(possible := {d.cur}) }

  /** `r` is a disk a crash of `d` may leave: one of the possible directories, synced files whole,
      the others holding anything. */
  predicate CrashesTo(d: Disk, r: Disk)
  {
    r.cur in d.possible && Settled(r) && r.files.Keys == d.files.Keys && r.next == d.next &&
    forall i :: i in d.files ==> r.files[i].synced && (d.files[i].synced ==> r.files[i] == d.files[i])
  }
}
