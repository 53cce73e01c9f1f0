/** Whole runs of the inode manager: from a formatted disk, every run of allocations, writes and
    removals that fits the disk keeps block ownership and computes the file table it should.
    The two conditions on a fitting run are exact: without room, or when a file of more blocks than
    there are direct pointers is removed, ownership is lost. */
module InodeRuns {
  import opened Bytes
  import opened Options
  import opened Blocks
  import opened Inodes
  import opened Ownership
  import opened InodeFiles

  // ------------------------------------------------------------------------ format

  lemma ZeroInode(ws: seq<Word>)
    requires |ws| == WORDS && forall k :: 0 <= k < |ws| ==> ws[k] == 0
    ensures InodeIn(ws) == Inode(0, 0, 0, 0, 0, Repeat(0, NDIRECT + 1))
  {
    assert InodeIn(ws).blocks == Repeat(0, NDIRECT + 1);
  }

  lemma FormatInodes(superblock: Block, i: nat)
    requires i < INODE_NUM
    ensures GetInode(Format(superblock).disk, i) == Inode(0, 0, 0, 0, 0, Repeat(0, NDIRECT + 1))
  {
    Layout(i);
    var b := Format(superblock).disk[IBlock(i)];
    assert forall k :: 0 <= k < BLOCK_SIZE ==> b[k] == 0;
    ZeroWords(b);
    ZeroInode(Words(b));
  }

  lemma FormatInv(superblock: Block)
    ensures Inv(Format(superblock))
    ensures FilesOf(Format(superblock).disk) == Repeat(File(0, []), INODE_NUM)
  {
    var fs := Format(superblock);
    var ns := NodesOf(fs.disk);
    forall i: nat | i < INODE_NUM
      ensures ns[i] == Node(0, Repeat(0, NDIRECT + 1)) && FileOf(fs.disk, i) == File(0, []) && UnusedAt(fs.disk, i)
    {
      FormatInodes(superblock, i);
    }
    forall i: nat ensures SoundAt(ns, i) {}
    forall i: nat, k: nat ensures !Live(ns, i, k) && MarkedAt(fs.disk, fs.used, ns, i, k) {}
    forall i: nat, k: nat, j: nat, l: nat ensures ApartAt(fs.disk, ns, i, k, j, l) {}
    forall b: nat ensures OwnedAt(fs.disk, fs.used, ns, b) && SystemAt(fs.used, b) {}
  }

  // ------------------------------------------------------------------- one operation

  /** Under the invariant `read_file` returns the bytes of the file. */
  lemma ReadFileReturns(fs: Fs, inum: nat)
    requires Inv(fs) && inum < INODE_NUM
    ensures ReadFile(fs, inum) == Some(FilesOf(fs.disk)[inum].bytes)
  {
    assert SoundAt(NodesOf(fs.disk), inum);
  }

  /** The inode part of an operation: inode inum becomes ino, which owns what it owned before. */
  lemma PutRefines(fs: Fs, used: set<nat>, inum: nat, ino: Inode)
    requires inum < INODE_NUM && ino.size == 0 && Inv(fs)
    requires Own(fs.disk, used, NodesOf(fs.disk)[inum := NodeOf(ino)])
    ensures var e := PutInode(fs.disk, inum, ino);
            Inv(Fs(e, used)) && FilesOf(e) == FilesOf(fs.disk)[inum := File(ino.kind, [])]
  {
    var ns := NodesOf(fs.disk)[inum := NodeOf(ino)];
    var e := PutInode(fs.disk, inum, ino);
    PutKeeps(fs.disk, used, ns, inum, ino);
    NodesAfterPut(fs.disk, inum, ino);
    var t := FilesOf(fs.disk)[inum := File(ino.kind, [])];
    forall i: nat | i < INODE_NUM ensures FilesOf(e)[i] == t[i] && UnusedAt(e, i) {
      assert ns[i] == if i == inum then NodeOf(ino) else NodesOf(fs.disk)[i];
      PutFile(fs, inum, ino, i);
    }
  }

  lemma PutFile(fs: Fs, inum: nat, ino: Inode, i: nat)
    requires inum < INODE_NUM && ino.size == 0 && Inv(fs) && i < INODE_NUM
    requires i != inum ==> BlocksKept(fs.disk, PutInode(fs.disk, inum, ino), NodesOf(fs.disk)[i].p, NodesOf(fs.disk)[i].count)
    ensures var e := PutInode(fs.disk, inum, ino);
            UnusedAt(e, i) && FileOf(e, i) == if i == inum then File(ino.kind, []) else FileOf(fs.disk, i)
  {
    PutGet(fs.disk, inum, ino, i);
    assert UnusedAt(fs.disk, i);
    if i != inum { OtherFile(fs, PutInode(fs.disk, inum, ino), i); }
  }

  lemma AllocInodeRefines(fs: Fs, kind: Word)
    requires Inv(fs)
    ensures var r := AllocInode(fs, kind);
            && (r.None? <==> FreeInum(fs.disk, 1) == INODE_NUM)
            && (r.Some? ==>
                && Inv(r.value.0) && r.value.1 == FreeInum(fs.disk, 1)
                && FilesOf(r.value.0.disk) == FilesOf(fs.disk)[r.value.1 := File(kind, [])])
  {
    var i := FreeInum(fs.disk, 1);
    if i < INODE_NUM {
      var ino := Inode(kind, 0, 0, 0, 0, GetInode(fs.disk, i).blocks);
      assert UnusedAt(fs.disk, i);
      assert NodesOf(fs.disk)[i := NodeOf(ino)] == NodesOf(fs.disk);
      PutRefines(fs, fs.used, i, ino);
    }
  }

  /** It is the first inode not in use. */
  lemma AllocIsFirst(fs: Fs, kind: Word)
    requires AllocInode(fs, kind).Some?
    ensures var t, i := FilesOf(fs.disk), AllocInode(fs, kind).value.1;
            1 <= i < INODE_NUM && t[i].kind == 0 && forall j :: 1 <= j < i ==> t[j].kind != 0
  {
    hide GetInode, PutInode, ReadFrom;
    var i := FreeInum(fs.disk, 1);
    assert FilesOf(fs.disk)[i] == FileOf(fs.disk, i);
    forall j | 1 <= j < i ensures FilesOf(fs.disk)[j].kind != 0 { assert FilesOf(fs.disk)[j] == FileOf(fs.disk, j); }
  }

  /** Only a file whose size needs direct blocks alone can be removed without losing ownership: otherwise `remove_file`
      frees the indirect block, but `free_inode` writes the old pointer to it back. The files still read as they
      should, until something is written through that pointer. */
  lemma RemoveFileRefines(fs: Fs, inum: nat)
    requires Inv(fs) && inum < INODE_NUM && GetInode(fs.disk, inum).kind != 0
    ensures var r := RemoveFile(fs, inum);
            var ino := GetInode(fs.disk, inum);
            && r.Some?
            && (Inv(r.value) <==> BlockCount(ino.size) <= NDIRECT)
            && FilesOf(r.value.disk) == FilesOf(fs.disk)[inum := File(0, [])]
  {
    var ns := NodesOf(fs.disk);
    var ino := GetInode(fs.disk, inum);
    var n := BlockCount(ino.size);
    assert SoundAt(ns, inum) && ns[inum] == NodeOf(ino);
    var free := Inode(0, 0, 0, 0, 0, ino.blocks);
    FreedIds(fs.disk, fs.used, ino.blocks, 0, n);
    OwnDrops(fs.disk, fs.used, ns, inum, 0);
    PutRefines(fs, fs.used - Ids(fs.disk, ino.blocks, 0, n), inum, free);
    if n > NDIRECT {
      var r := RemoveFile(fs, inum).value;
      NodesAfterPut(fs.disk, inum, free);
      assert Live(NodesOf(r.disk), inum, INDIRECT) && At(r.disk, NodesOf(r.disk), inum, INDIRECT) !in r.used;
      assert !MarkedAt(r.disk, r.used, NodesOf(r.disk), inum, INDIRECT);
    }
  }

  // ---------------------------------------------------------------------- whole runs

  datatype Op =
    | Create(kind: Word)
    | Write(inum: nat, buf: seq<Byte>, junk: Block, now: Word)
    | Remove(inum: nat)

  function Apply(fs: Fs, op: Op): Option<Fs> {
    match op
    case Create(kind) => (match AllocInode(fs, kind) case Some(r) => Some(r.0) case None => None)
    case Write(inum, buf, junk, now) => WriteFile(fs, inum, buf, junk, now)
    case Remove(inum) => RemoveFile(fs, inum)
  }

  /** What a caller has to see to: an inode is free, no text goes into an unused inode, there is room
      for a write, a removed inode is in use and has direct blocks only. */
  ghost predicate Fits(fs: Fs, op: Op) {
    match op
    case Create(_) => FreeInum(fs.disk, 1) < INODE_NUM
    case Write(inum, buf, _, _) =>
      |buf| < MAXSIZE && (inum < INODE_NUM ==> (GetInode(fs.disk, inum).kind != 0 || buf == []) && Room(fs, inum, |buf|))
    case Remove(inum) =>
      inum < INODE_NUM && GetInode(fs.disk, inum).kind != 0 && BlockCount(GetInode(fs.disk, inum).size) <= NDIRECT
  }

  ghost predicate RunFits(fs: Fs, ops: seq<Op>)
    decreases |ops|
  {
    ops == [] || (Fits(fs, ops[0]) && (Apply(fs, ops[0]).Some? ==> RunFits(Apply(fs, ops[0]).value, ops[1..])))
  }

  function Run(fs: Fs, ops: seq<Op>): Option<Fs>
    decreases |ops|
  {
    if ops == [] then Some(fs)
    else if Apply(fs, ops[0]).None? then None
    else Run(Apply(fs, ops[0]).value, ops[1..])
  }

  /** The same operations on a table of files. */
  function FreeEntry(t: Files, i: nat): (n: nat)
    ensures n <= INODE_NUM
    decreases INODE_NUM - i
  {
    if i >= INODE_NUM then INODE_NUM else if t[i].kind == 0 then i else FreeEntry(t, i + 1)
  }

  function ApplyToTable(t: Files, op: Op): Files {
    match op
    case Create(kind) => if FreeEntry(t, 1) < INODE_NUM then t[FreeEntry(t, 1) := File(kind, [])] else t
    case Write(inum, buf, _, _) => if inum < INODE_NUM then t[inum := File(t[inum].kind, buf)] else t
    case Remove(inum) => if inum < INODE_NUM then t[inum := File(0, [])] else t
  }

  function RunTable(t: Files, ops: seq<Op>): Files
    decreases |ops|
  {
    if ops == [] then t else RunTable(ApplyToTable(t, ops[0]), ops[1..])
  }

  lemma {:induction false} FreeEntryIs(d: Disk, i: nat)
    ensures FreeEntry(FilesOf(d), i) == FreeInum(d, i)
    decreases INODE_NUM - i
  {
    if i < INODE_NUM {
      assert FilesOf(d)[i] == FileOf(d, i);
      FreeEntryIs(d, i + 1);
    }
  }

  lemma ApplyRefines(fs: Fs, op: Op)
    requires Inv(fs) && Fits(fs, op)
    ensures Apply(fs, op).Some? && Inv(Apply(fs, op).value)
    ensures FilesOf(Apply(fs, op).value.disk) == ApplyToTable(FilesOf(fs.disk), op)
  {
    match op
    case Create(kind) =>
      AllocInodeRefines(fs, kind);
      FreeEntryIs(fs.disk, 1);
    case Write(inum, buf, junk, now) =>
      if inum < INODE_NUM {
        WriteFileRefines(fs, inum, buf, junk, now);
        assert FilesOf(fs.disk)[inum] == FileOf(fs.disk, inum);
      }
    case Remove(inum) => RemoveFileRefines(fs, inum);
  }

  /** Every fitting run keeps the invariant and refines the run of the file table. */
  lemma {:induction false} RunRefines(fs: Fs, ops: seq<Op>)
    requires Inv(fs) && RunFits(fs, ops)
    ensures Run(fs, ops).Some? && Inv(Run(fs, ops).value)
    ensures FilesOf(Run(fs, ops).value.disk) == RunTable(FilesOf(fs.disk), ops)
    decreases |ops|
  {
    if ops != [] {
      ApplyRefines(fs, ops[0]);
      RunRefines(Apply(fs, ops[0]).value, ops[1..]);
    }
  }

  /** From a formatted disk, after any fitting run, reading a file gives what the table says. */
  lemma ReadAfterRun(superblock: Block, ops: seq<Op>, inum: nat)
    requires RunFits(Format(superblock), ops) && inum < INODE_NUM
    ensures Run(Format(superblock), ops).Some?
    ensures ReadFile(Run(Format(superblock), ops).value, inum)
         == Some(RunTable(Repeat(File(0, []), INODE_NUM), ops)[inum].bytes)
  {
    FormatInv(superblock);
    RunRefines(Format(superblock), ops);
    ReadFileReturns(Run(Format(superblock), ops).value, inum);
  }
}
