/** The directories in the table of files: what create, mkdir, symlink, unlink and writes keep when new
    numbers come from the inode allocator. */
module FileTree {
  import opened Bytes
  import opened Options
  import opened Blocks
  import opened Inodes
  import opened InodeFiles
  import opened InodeRuns
  import opened Directory
  import D = DirectoryOps

  predicate IsDir(t: Files, d: nat) { d < INODE_NUM && t[d].kind == T_DIR }

  /** The entries of a directory; none for a text that cannot be listed. */
  function Entries(t: Files, d: nat): seq<Entry> {
    if d < INODE_NUM && Closed(t[d].bytes, 0) then List(t[d].bytes, 0) else []
  }

  // ------------------------------------------------------------------------- operations

  datatype Op =
    | Make(parent: nat, name: Text, kind: Word, link: Text)   // link is the text of a symbolic link
    | Drop(parent: nat, name: Text)
    | Write(file: nat, bytes: Text)

  /** What the operations do to the table: a name that is taken is left alone, a new file gets the
      first free inode, a dropped file is emptied and its entry erased. */
  function Apply(t: Files, op: Op): Files {
    match op
    case Make(parent, name, kind, link) =>
      var i := FreeEntry(t, 1);
      if parent >= INODE_NUM || D.Named(Entries(t, parent), name) || i == INODE_NUM then t
      else t[i := File(kind, link)][parent := File(t[parent].kind, D.Append(t[parent].bytes, name, i))]
    case Drop(parent, name) =>
      var k := D.Index(Entries(t, parent), name);
      if parent >= INODE_NUM || k == |Entries(t, parent)| || Entries(t, parent)[k].inum >= INODE_NUM
         || D.Erase(t[parent].bytes, name).None? then t
      else t[Entries(t, parent)[k].inum := File(0, [])][parent := File(t[parent].kind, D.Erase(t[parent].bytes, name).value)]
    case Write(file, bytes) => if file < INODE_NUM then t[file := File(t[file].kind, bytes)] else t
  }

  /** The caller's part: operations in directories, clean names, no text for a directory but its own or none, and an
      unlinked name whose first occurrence in the text starts its own entry. */
  predicate Allowed(t: Files, op: Op) {
    match op
    case Make(parent, name, kind, link) => IsDir(t, parent) && CleanName(name) && kind != 0 && (kind == T_DIR ==> link == [])
    case Drop(parent, name) =>
      && IsDir(t, parent) && D.Named(Entries(t, parent), name)
      && FindText(t[parent].bytes, name, 0) == D.Start(Entries(t, parent), D.Index(Entries(t, parent), name))
    case Write(file, bytes) => IsDir(t, file) ==> bytes == t[file].bytes || bytes == []
  }

  // -------------------------------------------------------------------------- invariant

  /** The text of a directory is that of clean, distinct entries. */
  predicate TextAt(t: Files, d: nat) {
    IsDir(t, d) ==> Closed(t[d].bytes, 0) && t[d].bytes == DirText(Entries(t, d)) && Clean(Entries(t, d)) && D.Distinct(Entries(t, d))
  }

  /** Every listed inode is in use, and is neither the root nor the directory that lists it. */
  predicate UsedAt(t: Files, d: nat, k: nat) {
    IsDir(t, d) && k < |Entries(t, d)| ==>
      var i := Entries(t, d)[k].inum;
      1 < i < INODE_NUM && t[i].kind != 0 && i != d
  }

  /** No inode is listed in two directories. */
  predicate OnceAt(t: Files, d: nat, k: nat, e: nat, l: nat) {
    IsDir(t, d) && IsDir(t, e) && d != e && k < |Entries(t, d)| && l < |Entries(t, e)| ==> Entries(t, d)[k].inum != Entries(t, e)[l].inum
  }

  ghost predicate Listing(t: Files) {
    && IsDir(t, ROOT)
    && (forall d: nat {:trigger TextAt(t, d)} :: TextAt(t, d))
    && (forall d: nat, k: nat {:trigger UsedAt(t, d, k)} :: UsedAt(t, d, k))
    && (forall d: nat, k: nat, e: nat, l: nat {:trigger OnceAt(t, d, k, e, l)} :: OnceAt(t, d, k, e, l))
  }

  lemma {:induction false} FreeIsFree(t: Files, i: nat)
    ensures FreeEntry(t, i) < INODE_NUM ==> i <= FreeEntry(t, i) && t[FreeEntry(t, i)].kind == 0
    decreases INODE_NUM - i
  {
    if i < INODE_NUM && t[i].kind != 0 { FreeIsFree(t, i + 1); }
  }

  /** How one operation changes the lists: that of the parent as its list operation says, an emptied
      or fresh inode to none, every other one not at all. */
  ghost predicate Changes(t: Files, u: Files, parent: nat, es: seq<Entry>, i: nat) {
    && parent < INODE_NUM && i < INODE_NUM && i != parent
    && (forall d: nat :: d < INODE_NUM && d != parent && d != i ==> u[d] == t[d])
    && u[parent].kind == t[parent].kind && u[parent].bytes == DirText(es) && Clean(es) && D.Distinct(es)
    && (u[i].kind == T_DIR ==> u[i].bytes == [])
  }

  lemma ChangedEntries(t: Files, u: Files, parent: nat, es: seq<Entry>, i: nat, d: nat)
    requires Changes(t, u, parent, es, i)
    ensures d == parent ==> Entries(u, d) == es && Closed(u[d].bytes, 0)
    ensures d == i && u[i].kind == T_DIR ==> Entries(u, d) == [] && Closed(u[d].bytes, 0)
    ensures d != parent && d != i ==> Entries(u, d) == Entries(t, d)
  {
    hide D.Distinct, DirText, List, Closed;
    if d == parent { ListBack(es); }
    if d == i && u[i].kind == T_DIR {
      ListBack([]);
      assert DirText([]) == [] by { EmptyText(); }
    }
  }

  lemma EmptyText()
    ensures DirText([]) == []
  {}

  /** The lists stay right when the entries that are left are in use and only listed once. */
  lemma ListingChanges(t: Files, u: Files, parent: nat, es: seq<Entry>, i: nat)
    requires Listing(t) && Changes(t, u, parent, es, i) && IsDir(t, parent) && i != ROOT
    requires forall k: nat {:trigger es[k]} :: k < |es| ==>
      (es[k].inum == i && u[i].kind != 0 && i > 1) || (es[k].inum != i && exists l: nat :: l < |Entries(t, parent)| && Entries(t, parent)[l] == es[k])
    requires t[i].kind == 0 || exists l: nat :: l < |Entries(t, parent)| && Entries(t, parent)[l].inum == i
    ensures Listing(u)
  {
    hide Entries, Closed, List, DirText, D.Distinct, Clean;
    forall d: nat ensures TextAt(u, d) { assert TextAt(t, d); ChangedText(t, u, parent, es, i, d); }
    forall d: nat, k: nat ensures UsedAt(u, d, k) { ChangedUsed(t, u, parent, es, i, d, k); }
    forall d: nat, k: nat, e: nat, l: nat ensures OnceAt(u, d, k, e, l) { ChangedOnce(t, u, parent, es, i, d, k, e, l); }
  }

  lemma ChangedText(t: Files, u: Files, parent: nat, es: seq<Entry>, i: nat, d: nat)
    requires Changes(t, u, parent, es, i) && TextAt(t, d)
    ensures TextAt(u, d)
  {
    hide Entries, Closed, List;
    ChangedEntries(t, u, parent, es, i, d);
    EmptyText();
  }

  /** No other directory lists inode i. */
  lemma ListedHere(t: Files, parent: nat, i: nat, d: nat, k: nat)
    requires Listing(t) && IsDir(t, parent) && IsDir(t, d) && d != parent && k < |Entries(t, d)|
    requires (i < INODE_NUM && t[i].kind == 0) || exists l: nat :: l < |Entries(t, parent)| && Entries(t, parent)[l].inum == i
    ensures Entries(t, d)[k].inum != i
  {
    hide Entries;
    assert UsedAt(t, d, k);
    if l: nat :| l < |Entries(t, parent)| && Entries(t, parent)[l].inum == i { assert OnceAt(t, d, k, parent, l); }
  }

  lemma ChangedUsed(t: Files, u: Files, parent: nat, es: seq<Entry>, i: nat, d: nat, k: nat)
    requires Listing(t) && Changes(t, u, parent, es, i) && IsDir(t, parent) && i != ROOT
    requires forall k: nat {:trigger es[k]} :: k < |es| ==>
      (es[k].inum == i && u[i].kind != 0 && i > 1) || (es[k].inum != i && exists l: nat :: l < |Entries(t, parent)| && Entries(t, parent)[l] == es[k])
    requires t[i].kind == 0 || exists l: nat :: l < |Entries(t, parent)| && Entries(t, parent)[l].inum == i
    ensures UsedAt(u, d, k)
  {
    hide Entries, Closed, List, DirText, D.Distinct, Clean;
    ChangedEntries(t, u, parent, es, i, d);
    if IsDir(u, d) && k < |Entries(u, d)| {
      if d == parent {
        if es[k].inum != i {
          var l: nat :| l < |Entries(t, parent)| && Entries(t, parent)[l] == es[k];
          assert UsedAt(t, parent, l);
        }
      } else if d != i {
        assert UsedAt(t, d, k);
        ListedHere(t, parent, i, d, k);
      }
    }
  }

  lemma ChangedOnce(t: Files, u: Files, parent: nat, es: seq<Entry>, i: nat, d: nat, k: nat, e: nat, l: nat)
    requires Listing(t) && Changes(t, u, parent, es, i) && IsDir(t, parent)
    requires forall k: nat {:trigger es[k]} :: k < |es| ==>
      (es[k].inum == i && u[i].kind != 0 && i > 1) || (es[k].inum != i && exists l: nat :: l < |Entries(t, parent)| && Entries(t, parent)[l] == es[k])
    requires t[i].kind == 0 || exists l: nat :: l < |Entries(t, parent)| && Entries(t, parent)[l].inum == i
    ensures OnceAt(u, d, k, e, l)
  {
    hide Entries, Closed, List, DirText, D.Distinct, Clean;
    ChangedEntries(t, u, parent, es, i, d);
    ChangedEntries(t, u, parent, es, i, e);
    if IsDir(u, d) && IsDir(u, e) && d != e && k < |Entries(u, d)| && l < |Entries(u, e)| && d != i && e != i {
      if d == parent { Apart(t, u, parent, es, i, k, e, l); }
      else if e == parent { Apart(t, u, parent, es, i, l, d, k); }
      else { assert OnceAt(t, d, k, e, l); }
    }
  }

  lemma Apart(t: Files, u: Files, parent: nat, es: seq<Entry>, i: nat, k: nat, e: nat, l: nat)
    requires Listing(t) && Changes(t, u, parent, es, i) && IsDir(t, parent) && IsDir(t, e) && e != parent && e != i
    requires k < |es| && l < |Entries(t, e)|
    requires es[k].inum == i || exists m: nat :: m < |Entries(t, parent)| && Entries(t, parent)[m] == es[k]
    requires t[i].kind == 0 || exists l: nat :: l < |Entries(t, parent)| && Entries(t, parent)[l].inum == i
    ensures es[k].inum != Entries(t, e)[l].inum
  {
    hide Entries, Closed, List, DirText, D.Distinct, Clean;
    if es[k].inum == i {
      ListedHere(t, parent, i, e, l);
    } else {
      var m: nat :| m < |Entries(t, parent)| && Entries(t, parent)[m] == es[k];
      assert OnceAt(t, parent, m, e, l);
    }
  }

  // --------------------------------------------------------------------------- the steps

  /** The allocator's number is fresh for the directory: everything listed is in use. */
  lemma MakeKeeps(t: Files, op: Op)
    requires Listing(t) && op.Make? && Allowed(t, op)
    ensures Listing(Apply(t, op))
  {
    hide Entries, Closed, List, DirText, D.Append;
    var i, was := FreeEntry(t, 1), Entries(t, op.parent);
    FreeIsFree(t, 1);
    if i < INODE_NUM && !D.Named(was, op.name) {
      var es := was + [Entry(op.name, i)];
      assert TextAt(t, op.parent);
      forall k | 0 <= k < |was| ensures was[k].inum != i { assert UsedAt(t, op.parent, k); }
      D.AppendText(was, Entry(op.name, i));
      D.MakeKeeps(was, Entry(op.name, i));
      forall k: nat | k < |was| ensures exists l: nat :: l < |was| && was[l] == es[k] { assert was[k] == es[k]; }
      ListingChanges(t, Apply(t, op), op.parent, es, i);
    }
  }

  lemma DropKeeps(t: Files, op: Op)
    requires Listing(t) && op.Drop? && Allowed(t, op)
    ensures Listing(Apply(t, op))
  {
    hide Entries, Closed, List, DirText, D.Erase, D.Start, FindText;
    var was := Entries(t, op.parent);
    var k := D.Index(was, op.name);
    var i, es := was[k].inum, D.Without(was, k);
    assert TextAt(t, op.parent) && UsedAt(t, op.parent, k);
    D.EraseExactly(was, k);
    D.DropKeeps(was, k);
    forall m: nat | m < |es| ensures es[m].inum != i && exists l: nat :: l < |was| && was[l] == es[m] {
      var l := if m < k then m else m + 1;
      assert was[l] == es[m];
    }
    ListingChanges(t, Apply(t, op), op.parent, es, i);
  }

  lemma WriteKeeps(t: Files, op: Op)
    requires Listing(t) && op.Write? && Allowed(t, op)
    ensures Listing(Apply(t, op))
  {
    var u := Apply(t, op);
    forall d: nat ensures IsDir(u, d) <==> IsDir(t, d) {}
    ListBack([]);
    EmptyText();
    forall d: nat | IsDir(t, d) ensures (u[d] == t[d] && Entries(u, d) == Entries(t, d)) || (u[d].bytes == [] && Entries(u, d) == []) {}
    hide Entries, Closed, List, DirText, D.Distinct, Clean;
    forall d: nat ensures TextAt(u, d) { assert TextAt(t, d); }
    forall d: nat, k: nat ensures UsedAt(u, d, k) { assert UsedAt(t, d, k); }
    forall d: nat, k: nat, e: nat, l: nat ensures OnceAt(u, d, k, e, l) { assert OnceAt(t, d, k, e, l); }
  }

  lemma StepKeeps(t: Files, op: Op)
    requires Listing(t) && Allowed(t, op)
    ensures Listing(Apply(t, op))
  {
    if op.Make? { MakeKeeps(t, op); } else if op.Drop? { DropKeeps(t, op); } else { WriteKeeps(t, op); }
  }

  predicate RunAllowed(t: Files, ops: seq<Op>)
    decreases |ops|
  {
    ops == [] || (Allowed(t, ops[0]) && RunAllowed(Apply(t, ops[0]), ops[1..]))
  }

  function Run(t: Files, ops: seq<Op>): Files
    decreases |ops|
  {
    if ops == [] then t else Run(Apply(t, ops[0]), ops[1..])
  }

  /** Over every run the directories stay lists of clean, distinct names and numbers, every listed
      inode is in use, and none is listed twice in the whole file system. */
  lemma {:induction false} RunKeepsListing(t: Files, ops: seq<Op>)
    requires Listing(t) && RunAllowed(t, ops)
    ensures Listing(Run(t, ops))
    decreases |ops|
  {
    hide Listing, Allowed, Apply;
    if ops != [] {
      StepKeeps(t, ops[0]);
      RunKeepsListing(Apply(t, ops[0]), ops[1..]);
    }
  }

  /** A new file system has only an empty root. */
  lemma RootIsListing(t: Files)
    requires t[ROOT] == File(T_DIR, []) && forall d: nat :: d < INODE_NUM && d != ROOT ==> t[d].kind == 0
    ensures Listing(t)
  {
    ListBack([]);
    EmptyText();
    forall d: nat ensures TextAt(t, d) {}
    forall d: nat, k: nat ensures UsedAt(t, d, k) {}
    forall d: nat, k: nat, e: nat, l: nat ensures OnceAt(t, d, k, e, l) {}
  }
}
