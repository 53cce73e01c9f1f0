/** What the calls of the file system client are for, said of the files themselves: the number a create
    returns is the one every client finds under the name, with a file of that type behind it; an unlink
    takes exactly that away; a read anywhere after a write anywhere gives the written bytes. */
module FileCalls {
  import opened Bytes
  import opened Options
  import opened Blocks
  import opened Inodes
  import opened InodeFiles
  import opened InodeRuns
  import opened Extents
  import opened FileSystem
  import opened Directory
  import D = DirectoryOps
  import T = FileTree

  /** What client d gets for an extent is the text of the file. */
  lemma GotText(w: World, d: Cid, id: nat, attrs: set<nat>)
    requires CoherentBut(w, {}, attrs) && d in w.peers && id < INODE_NUM
    ensures Got(w, d, id) == Table(w)[id].bytes
  {
    hide CoherentBut, Inv, ReadFile, FilesOf, DoGet;
    GetKeepsCoherent(w, d, id, attrs);
    InvOf(w, {}, attrs);
    ReadInRange(w.fs, id);
  }

  /** What client d finds when it looks a name up in a directory. */
  function Looked(w: World, d: Cid, parent: nat, name: Text): Option<nat>
    requires d in w.peers && Closed(Got(w, d, parent), 0)
  {
    D.Found(List(Got(w, d, parent), 0), name)
  }

  lemma LookedIs(w: World, d: Cid, parent: nat, name: Text, attrs: set<nat>)
    requires CoherentBut(w, {}, attrs) && d in w.peers && T.Listing(Table(w)) && T.IsDir(Table(w), parent)
    ensures Closed(Got(w, d, parent), 0) && Looked(w, d, parent, name) == D.Found(T.Entries(Table(w), parent), name)
  {
    hide CoherentBut, Table, Got, List, Closed, D.Found, D.Distinct, DirText;
    GotText(w, d, parent, attrs);
    assert T.TextAt(Table(w), parent);
  }

  lemma {:induction false} FoundLast(es: seq<Entry>, e: Entry)
    requires !D.Named(es, e.name)
    ensures D.Found(es + [e], e.name) == Some(e.inum)
  {
    D.FoundAt(es + [e], e.name, |es|);
  }

  /** A name that was not there is made: the listing gains exactly this entry, at its end. */
  lemma MadeEntry(t: Files, parent: nat, name: Text, kind: Word, link: Text)
    requires T.Listing(t) && T.Allowed(t, T.Make(parent, name, kind, link)) && !D.Named(T.Entries(t, parent), name)
    requires FreeEntry(t, 1) < INODE_NUM
    ensures var u, i := T.Apply(t, T.Make(parent, name, kind, link)), FreeEntry(t, 1);
            && i != parent && u[i] == File(kind, link) && T.IsDir(u, parent)
            && T.Entries(u, parent) == T.Entries(t, parent) + [Entry(name, i)]
            && (forall j: nat :: j < INODE_NUM && j != i && j != parent ==> u[j] == t[j])
  {
    hide Closed, List, DirText, D.Append, FreeEntry, T.Entries;
    var op := T.Make(parent, name, kind, link);
    var was, i := T.Entries(t, parent), FreeEntry(t, 1);
    T.FreeIsFree(t, 1);
    assert T.TextAt(t, parent);
    forall k | 0 <= k < |was| ensures was[k].inum != i { assert T.UsedAt(t, parent, k); }
    D.AppendText(was, Entry(name, i));
    D.MakeKeeps(was, Entry(name, i));
    T.ChangedEntries(t, T.Apply(t, op), parent, was + [Entry(name, i)], i, parent);
  }

  /** The number a create or symlink returns is the first free one, and it is what every client then
      finds under the name; behind it is a new file of that type and text, and no other file changed. */
  ghost predicate Makes(w: World, v: World, d: Cid, parent: nat, name: Text, f: File, id: nat)
    requires d in w.peers && d in v.peers && parent < INODE_NUM
  {
    && 1 < id < INODE_NUM && Table(w)[id].kind == 0 && (forall j: nat :: 1 <= j < id ==> Table(w)[j].kind != 0)
    && Closed(Got(v, d, parent), 0) && Looked(v, d, parent, name) == Some(id)
    && Table(v)[id] == f && Got(v, d, id) == f.bytes
    && T.Entries(Table(v), parent) == T.Entries(Table(w), parent) + [Entry(name, id)]
    && (forall j: nat :: j < INODE_NUM && j != id && j != parent ==> Table(v)[j] == Table(w)[j])
  }

  lemma MadeIsFound(w: World, c: Cid, d: Cid, call: Call, attrs: set<nat>)
    requires CoherentBut(w, {}, attrs) && c in w.peers && d in w.peers && CallFits(w, call)
    requires (call.Create? || call.SymLink?) && T.Listing(Table(w)) && WellCalled(w, call)
    ensures Do(w, c, call).Some? && d in Do(w, c, call).value.peers && call.parent < INODE_NUM
    ensures var f := if call.Create? then File(call.kind, []) else File(T_SYMLINK, call.link);
            Makes(w, Do(w, c, call).value, d, call.parent, call.name, f, FreeInum(w.fs.disk, 1))
  {
    hide CoherentBut, Do, Table, T.Listing, T.Apply, T.Entries, Got, FreeEntry, Looked, D.Named, D.Found;
    var op, t, i := Meant(call), Table(w), FreeInum(w.fs.disk, 1);
    FitsFree(w, call, attrs);
    CallKeeps(w, c, call, attrs);
    CallIsMeant(w, c, call, attrs);
    Called(w, call);
    T.StepKeeps(t, op);
    var v := Do(w, c, call).value;
    MadeEntry(t, op.parent, op.name, op.kind, op.link);
    LookedIs(v, d, call.parent, call.name, attrs - Mended(call));
    FoundLast(T.Entries(t, op.parent), Entry(op.name, i));
    GotText(v, d, i, attrs - Mended(call));
    RootInUse(t, i);
  }

  lemma RootInUse(t: Files, i: nat)
    requires T.Listing(t) && 1 <= i < INODE_NUM && t[i].kind == 0
    ensures i > 1
  {}

  lemma FitsFree(w: World, call: Call, attrs: set<nat>)
    requires CoherentBut(w, {}, attrs) && CallFits(w, call) && (call.Create? || call.SymLink?)
    ensures var i := FreeInum(w.fs.disk, 1);
            && 1 <= i < INODE_NUM && FreeEntry(Table(w), 1) == i && Table(w)[i].kind == 0
            && forall j: nat :: 1 <= j < i ==> Table(w)[j].kind != 0
  {
    hide CoherentBut, GetInode, FilesOf, AllocInode, WriteFits, WriteFile, D.Append, FreeInum;
    FreeEntryIs(w.fs.disk, 1);
    KindIs(w.fs.disk, FreeInum(w.fs.disk, 1));
    forall j: nat | 1 <= j < FreeInum(w.fs.disk, 1) ensures Table(w)[j].kind != 0 { KindIs(w.fs.disk, j); }
  }

  /** An unlink: the file is gone and empty, its entry is taken out and no other, no client finds the
      name any more, and no other file changed. */
  lemma DroppedIsGone(w: World, c: Cid, d: Cid, call: Call, attrs: set<nat>)
    requires CoherentBut(w, {}, attrs) && c in w.peers && d in w.peers && CallFits(w, call)
    requires call.Remove? && T.Listing(Table(w)) && WellCalled(w, call)
    ensures Do(w, c, call).Some? && d in Do(w, c, call).value.peers && call.parent < INODE_NUM && call.id % 0x8000_0000 < INODE_NUM
    ensures var v, es := Do(w, c, call).value, T.Entries(Table(w), call.parent);
            && D.Found(es, call.name) == Some(call.id % 0x8000_0000)
            && Closed(Got(v, d, call.parent), 0) && Looked(v, d, call.parent, call.name) == None
            && Table(v)[call.id % 0x8000_0000] == File(0, []) && Got(v, d, call.id % 0x8000_0000) == []
            && (forall e :: e in T.Entries(Table(v), call.parent) <==> e in es && e.name != call.name)
            && (forall j: nat :: j < INODE_NUM && j != call.id % 0x8000_0000 && j != call.parent ==> Table(v)[j] == Table(w)[j])
  {
    hide CoherentBut, Do, Table, T.Listing, T.Apply, T.Entries, Got, Looked, D.Found;
    var op, t := Meant(call), Table(w);
    CallKeeps(w, c, call, attrs);
    CallIsMeant(w, c, call, attrs);
    Called(w, call);
    T.StepKeeps(t, op);
    var v, es := Do(w, c, call).value, T.Entries(t, call.parent);
    DropsEntry(t, op.parent, op.name);
    FirstFound(es, call.name);
    LookedIs(v, d, call.parent, call.name, attrs - Mended(call));
    GotText(v, d, Mask(call.id), attrs - Mended(call));
    if D.Named(T.Entries(Table(v), call.parent), call.name) { assert false; }
  }

  lemma FirstFound(es: seq<Entry>, name: Text)
    requires D.Named(es, name)
    ensures D.Index(es, name) < |es| && D.Found(es, name) == Some(es[D.Index(es, name)].inum)
    decreases es
  {
    if es[0].name != name {
      D.IndexStep(es, name);
      FirstFound(es[1..], name);
    }
  }

  lemma DropsEntry(t: Files, parent: nat, name: Text)
    requires T.Listing(t) && T.Allowed(t, T.Drop(parent, name))
    ensures var es, u := T.Entries(t, parent), T.Apply(t, T.Drop(parent, name));
            var i := es[D.Index(es, name)].inum;
            && i < INODE_NUM && i != parent && u[i] == File(0, []) && T.IsDir(u, parent)
            && (forall e :: e in T.Entries(u, parent) <==> e in es && e.name != name)
            && (forall j: nat :: j < INODE_NUM && j != i && j != parent ==> u[j] == t[j])
  {
    hide Closed, List, DirText, D.Erase, D.Start, FindText, T.Entries;
    var was := T.Entries(t, parent);
    var k := D.Index(was, name);
    assert T.TextAt(t, parent) && T.UsedAt(t, parent, k);
    D.EraseExactly(was, k);
    D.DropKeeps(was, k);
    T.ChangedEntries(t, T.Apply(t, T.Drop(parent, name)), parent, D.Without(was, k), was[k].inum, parent);
    forall e ensures e in D.Without(was, k) <==> e in was && e.name != name { OthersLeft(was, k, e); }
  }

  lemma OthersLeft(es: seq<Entry>, k: nat, e: Entry)
    requires k < |es| && D.Distinct(es)
    ensures e in D.Without(es, k) <==> e in es && e.name != es[k].name
  {
    var less := D.Without(es, k);
    if e in es && e.name != es[k].name {
      var j :| 0 <= j < |es| && es[j] == e;
      assert less[if j < k then j else j - 1] == e;
    }
    if e in less {
      var j :| 0 <= j < |less| && less[j] == e;
      assert es[if j < k then j else j + 1] == e;
    }
  }

  /** A put writes the inode that its id names in the lower 31 bits, and no other file; an id that names
      none writes nothing. */
  lemma PutWritesMasked(w: World, c: Cid, d: Cid, id: nat, buf: Text, env: Env, attrs: set<nat>)
    requires CoherentBut(w, {}, attrs) && c in w.peers && d in w.peers && WriteFits(w.fs, id % 0x8000_0000, buf)
    ensures DoPut(w, c, id, buf, env).Some? && d in DoPut(w, c, id, buf, env).value.peers
    ensures var v, m := DoPut(w, c, id, buf, env).value, id % 0x8000_0000;
            if m < INODE_NUM then Table(v) == Table(w)[m := File(Table(w)[m].kind, buf)] && Got(v, d, m) == buf else Table(v) == Table(w)
  {
    hide CoherentBut, DoPut, Table, Got, WriteFits;
    var call := Put(id, buf, env);
    CallKeeps(w, c, call, attrs);
    PutIsWrite(w, c, id, buf, env, attrs);
    var v, m := DoPut(w, c, id, buf, env).value, id % 0x8000_0000;
    if m < INODE_NUM { GotText(v, d, m, attrs - Mended(call)); }
  }

  // ------------------------------------------------------------------- reading and writing

  /** `write` of a client: get the text, put it back with the data at its offset. */
  function DoWrite(w: World, c: Cid, id: nat, data: Text, off: nat, env: Env): Option<World>
    requires c in w.peers
  {
    DoPut(DoGet(w, c, id), c, id, D.Overwritten(Got(w, c, id), data, off), env)
  }

  /** `read` of a client. */
  function DoRead(w: World, c: Cid, id: nat, size: nat, off: nat): Text
    requires c in w.peers
  {
    D.ReadAt(Got(w, c, id), size, off)
  }

  /** What any client reads, at any size and offset, after any client wrote at any offset: the data where
      it was written, the old bytes elsewhere, zeroes in the hole between, cut at the new end. */
  lemma WriteThenRead(w: World, c: Cid, d: Cid, id: nat, data: Text, off: nat, env: Env, size: nat, at: nat, i: nat, attrs: set<nat>)
    requires CoherentBut(w, {}, attrs) && c in w.peers && d in w.peers && id < INODE_NUM
    requires var n := if off + |data| > |Table(w)[id].bytes| then off + |data| else |Table(w)[id].bytes|;
             n < MAXSIZE && Room(w.fs, id, n)
    ensures DoWrite(w, c, id, data, off, env).Some? && d in DoWrite(w, c, id, data, off, env).value.peers
    ensures var was := Table(w)[id].bytes;
            var end := if off + |data| > |was| then off + |data| else |was|;
            var r := DoRead(DoWrite(w, c, id, data, off, env).value, d, id, size, at);
            && |r| == (if at > end then 0 else D.Min(size, end - at))
            && (i < |r| ==> r[i] == if off <= at + i < off + |data| then data[at + i - off] else if at + i < |was| then was[at + i] else 0)
  {
    hide CoherentBut, Table, DoPut, DoGet, Got, Room, D.Overwritten, D.ReadAt;
    GotText(w, c, id, attrs);
    var was := Table(w)[id].bytes;
    var buf := D.Overwritten(was, data, off);
    var u := DoGet(w, c, id);
    GetKeepsCoherent(w, c, id, attrs);
    GetFs(w, c, id);
    assert Mask(id) == id;
    PutThenGet(u, c, d, id, buf, env, attrs);
    GotIsGet(DoPut(u, c, id, buf, env).value, d, id);
    D.ReadAfterWrite(was, data, off, size, at, i);
  }

  lemma GetFs(w: World, c: Cid, id: nat)
    requires c in w.peers
    ensures DoGet(w, c, id).fs == w.fs
  {}

  lemma GotIsGet(w: World, d: Cid, id: nat)
    requires d in w.peers
    ensures d in DoGet(w, d, id).peers && id in DoGet(w, d, id).peers[d].data && Got(w, d, id) == DoGet(w, d, id).peers[d].data[id]
  {}
}
