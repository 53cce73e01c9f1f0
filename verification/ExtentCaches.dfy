/** The extent server and its clients as objects whose maps are updated in place. `peers` stands
    for the network: the client object behind each client id. */
module ExtentCaches {
  import opened Bytes
  import opened Options
  import opened Blocks
  import opened Inodes
  import opened InodeManager
  import D = DirectoryOps
  import opened Extents

  type Peers = map<Cid, ExtentClient>

  class ExtentClient {
    const name: Cid
    var dataCache: map<nat, Text>
    var attrCache: map<nat, Attr>

    constructor (name: Cid)
      ensures this.name == name && View() == Cache(map[], map[])
    {
      this.name := name;
      dataCache, attrCache := map[], map[];
    }

    ghost function View(): Cache reads this { Cache(dataCache, attrCache) }

    method UpdateHandler(eid: nat, a: Attr, d: Text)
      modifies this
      ensures View() == Told(old(View()), eid, a, d)
    {
      dataCache, attrCache := dataCache[eid := d], attrCache[eid := a];
    }

    method RemoveHandler(eid: nat)
      modifies this
      ensures View() == Forgot(old(View()), eid)
    {
      dataCache, attrCache := dataCache - {eid}, attrCache - {eid};
    }

    method Get(server: ExtentServer, eid: nat, ghost peers: Peers) returns (buf: Text)
      requires server.Valid() && Linked(peers) && name in peers && peers[name] == this
      modifies this, server
      ensures server.World(peers) == DoGet(old(server.World(peers)), name, eid)
      ensures eid in dataCache && buf == dataCache[eid]
    {
      ghost var w := server.World(peers);
      if eid in dataCache {
        buf := dataCache[eid];
      } else {
        buf := server.Get(name, eid);
        dataCache := dataCache[eid := buf];
      }
      assert forall c :: c in peers && c != name ==> peers[c].View() == w.peers[c];
      assert server.World(peers).peers == DoGet(w, name, eid).peers;
    }

    method GetAttr(server: ExtentServer, eid: nat, ghost peers: Peers) returns (a: Attr)
      requires server.Valid() && Linked(peers) && name in peers && peers[name] == this
      modifies this, server
      ensures server.World(peers) == DoGetAttr(old(server.World(peers)), name, eid)
      ensures eid in attrCache && a == attrCache[eid]
    {
      ghost var w := server.World(peers);
      if eid in attrCache {
        a := attrCache[eid];
      } else {
        a := server.GetAttr(name, eid);
        attrCache := attrCache[eid := a];
      }
      assert forall c :: c in peers && c != name ==> peers[c].View() == w.peers[c];
      assert server.World(peers).peers == DoGetAttr(w, name, eid).peers;
    }
  }

  /** No two client ids lead to the same client. */
  ghost predicate Linked(peers: Peers) {
    forall c, d :: c in peers && d in peers && c != d ==> peers[c] != peers[d]
  }

  ghost function Objects(peers: Peers): set<object> { set c | c in peers :: peers[c] as object }

  class ExtentServer {
    const im: Manager
    var dataCache: map<nat, Text>
    var attrCache: map<nat, Attr>
    var clients: map<Cid, set<nat>>

    constructor (superblock: Block)
      ensures Valid() && fresh(im) && fresh(im.blocks)
      ensures Some(Own()) == Boot(superblock, {})
    {
      im := new Manager(superblock);
      dataCache, attrCache, clients := map[], map[], map[];
      new;
      BootCoherent(superblock, {});
      var ok, root := im.AllocInode(T_DIR);
    }

    ghost predicate Valid() { im.Valid() }

    ghost function Own(): World
      requires Valid()
      reads this, im, im.blocks
    {
      Extents.World(im.View(), Cache(dataCache, attrCache), clients, map[])
    }

    ghost function World(peers: Peers): Extents.World
      requires Valid()
      reads this, im, im.blocks, Objects(peers)
    {
      Own().(peers := map c | c in peers :: peers[c].View())
    }

    method Insert(c: Cid, id: nat)
      requires Valid()
      modifies this
      ensures Own() == Register(old(Own()), c, id)
      ensures dataCache == old(dataCache) && attrCache == old(attrCache)
    {
      clients := clients[c := (if c in clients then clients[c] else {}) + {id}];
    }

    method Get(c: Cid, id: nat) returns (buf: Text)
      requires Valid()
      modifies this
      ensures buf == Data(old(Own()).cache, id)
      ensures Own() == Register(old(Own()), c, id).(cache := Cache(old(dataCache)[id := buf], old(attrCache)))
    {
      buf := if id in dataCache then dataCache[id] else [];
      dataCache := dataCache[id := buf];
      Insert(c, id);
    }

    method GetAttr(c: Cid, id: nat) returns (a: Attr)
      requires Valid()
      modifies this
      ensures a == AttrIn(old(Own()).cache, id)
      ensures Own() == Register(old(Own()), c, id).(cache := Cache(old(dataCache), old(attrCache)[id := a]))
    {
      a := if id in attrCache then attrCache[id] else NO_ATTR;
      attrCache := attrCache[id := a];
      Insert(c, id);
    }

    method Notify(id: nat, isRemove: bool, p: ExtentClient)
      requires !isRemove ==> id in dataCache && id in attrCache
      modifies p
      ensures p.View() == if isRemove then Forgot(old(p.View()), id) else Told(old(p.View()), id, attrCache[id], dataCache[id])
    {
      if isRemove { p.RemoveHandler(id); } else { p.UpdateHandler(id, attrCache[id], dataCache[id]); }
    }

    /** One turn of the loop, for client c of the state w. */
    method Tell(c: Cid, id: nat, isRemove: bool, p: ExtentClient, ghost w: World)
      requires c in clients && c in w.peers && p.View() == w.peers[c]
      requires w.regs == clients && w.cache == Cache(dataCache, attrCache)
      requires !isRemove ==> id in dataCache && id in attrCache
      modifies p
      ensures p.View() == News(w, c, id, isRemove)
    {
      hide Told, Forgot, News;
      NewsOf(w, c, id, isRemove);
      if id in clients[c] { Notify(id, isRemove, p); }
    }

    /** The clients are told one by one; the others are not disturbed. */
    method Broadcast(id: nat, isRemove: bool, peers: Peers)
      requires Valid() && Linked(peers)
      requires !isRemove ==> id in dataCache && id in attrCache
      modifies Objects(peers)
      ensures World(peers) == (if isRemove then BroadcastRemove(old(World(peers)), id) else Extents.Broadcast(old(World(peers)), id))
    {
      hide Told, Forgot, Extents.Broadcast, BroadcastRemove, Data, AttrIn, News;
      ghost var w := World(peers);
      var todo := clients.Keys;
      while todo != {}
        invariant todo <= clients.Keys
        invariant forall c :: c in peers && (c !in clients || c in todo) ==> peers[c].View() == w.peers[c]
        invariant forall c :: c in peers && c in clients && c !in todo ==> peers[c].View() == News(w, c, id, isRemove)
        decreases |todo|
      {
        var c :| c in todo;
        todo := todo - {c};
        if c in peers { Tell(c, id, isRemove, peers[c], w); }
      }
      forall c | c in peers && c !in clients ensures News(w, c, id, isRemove) == w.peers[c] { NewsOf(w, c, id, isRemove); }
      NewsIs(w, id, isRemove, World(peers).peers);
    }

    static lemma NewsOf(w: World, c: Cid, id: nat, isRemove: bool)
      requires c in w.peers
      ensures id !in Reg(w.regs, c) ==> News(w, c, id, isRemove) == w.peers[c]
      ensures id in Reg(w.regs, c) && isRemove ==> News(w, c, id, isRemove) == Forgot(w.peers[c], id)
      ensures id in Reg(w.regs, c) && !isRemove && id in w.cache.data && id in w.cache.attr ==>
        News(w, c, id, isRemove) == Told(w.peers[c], id, w.cache.attr[id], w.cache.data[id])
    {
      hide Told, Forgot;
    }

    /** What client c has cached after a broadcast. */
    static function News(w: World, c: Cid, id: nat, isRemove: bool): Cache
      requires c in w.peers
    {
      if id !in Reg(w.regs, c) then w.peers[c]
      else if isRemove then Forgot(w.peers[c], id)
      else Told(w.peers[c], id, AttrIn(w.cache, id), Data(w.cache, id))
    }

    static lemma NewsIs(w: World, id: nat, isRemove: bool, ps: map<Cid, Cache>)
      requires ps.Keys == w.peers.Keys && forall c :: c in ps ==> ps[c] == News(w, c, id, isRemove)
      ensures w.(peers := ps) == if isRemove then BroadcastRemove(w, id) else Extents.Broadcast(w, id)
    {
      hide Told, Forgot;
    }

    method FetchAttr(id: nat) returns (a: Attr)
      requires Valid()
      ensures a == AttrOf(im.View(), id)
    {
      a := NO_ATTR;
      if id < INODE_NUM {
        var ino := im.ReadInode(id);
        a := Attr(ino.kind, ino.atime, ino.mtime, ino.ctime, ino.size);
      }
    }

    method UpdateCache(eid: nat, peers: Peers) returns (ok: bool)
      requires Valid() && Linked(peers)
      modifies this, Objects(peers)
      ensures ok <==> Extents.UpdateCache(old(World(peers)), eid).Some?
      ensures ok ==> Some(World(peers)) == Extents.UpdateCache(old(World(peers)), eid)
    {
      var id := eid % TWO31;
      var buf;
      ok, buf := im.ReadFile(id);
      if !ok { return; }
      var a := FetchAttr(id);
      dataCache, attrCache := dataCache[id := buf], attrCache[id := a];
      assert World(peers).peers == old(World(peers)).peers;
      assert World(peers) == old(World(peers)).(cache := Told(old(World(peers)).cache, id, a, buf));
      Broadcast(id, false, peers);
    }

    method Store(id: nat, buf: Text, env: Env, peers: Peers) returns (ok: bool)
      requires Valid() && Linked(peers)
      modifies this, im, im.blocks, Objects(peers)
      ensures ok <==> Extents.Store(old(World(peers)), id, buf, env).Some?
      ensures ok ==> Some(World(peers)) == Extents.Store(old(World(peers)), id, buf, env)
    {
      hide Extents.UpdateCache, Inodes.WriteFile;
      ok := im.WriteFile(id, buf, env.junk, env.now);
      if !ok { return; }
      ghost var fs := im.View();
      assert World(peers).peers == old(World(peers)).peers;
      assert World(peers) == old(World(peers)).(fs := fs);
      ok := UpdateCache(id, peers);
    }

    method Put(c: Cid, id: nat, buf: Text, env: Env, peers: Peers) returns (ok: bool)
      requires Valid() && Linked(peers)
      modifies this, im, im.blocks, Objects(peers)
      ensures ok <==> DoPut(old(World(peers)), c, id, buf, env).Some?
      ensures ok ==> Some(World(peers)) == DoPut(old(World(peers)), c, id, buf, env)
    {
      hide Extents.Store;
      ok := Store(id % TWO31, buf, env, peers);
      if !ok { return; }
      Enlist(c, id % TWO31, peers);
    }

    method Enlist(c: Cid, id: nat, ghost peers: Peers)
      requires Valid() && Linked(peers)
      modifies this
      ensures World(peers) == Register(old(World(peers)), c, id)
    {
      Insert(c, id);
      assert World(peers).peers == old(World(peers)).peers;
    }

    method Publish(c: Cid, parent: nat, name: Text, id: nat, env: Env, peers: Peers) returns (ok: bool)
      requires Valid() && Linked(peers)
      modifies this, im, im.blocks, Objects(peers)
      ensures ok <==> Extents.Publish(old(World(peers)), c, parent, name, id, env).Some?
      ensures ok ==> Some(World(peers)) == Extents.Publish(old(World(peers)), c, parent, name, id, env)
    {
      hide Extents.Store, Extents.UpdateCache, D.Append, Register;
      var text := if parent in dataCache then dataCache[parent] else [];
      ok := Store(parent, D.Append(text, name, id), env, peers);
      if !ok { return; }
      ok := UpdateCache(id, peers);
      if !ok { return; }
      Enlist(c, id, peers);
    }

    method Create(kind: Word, c: Cid, parent: nat, name: Text, env: Env, peers: Peers) returns (ok: bool, id: nat)
      requires Valid() && Linked(peers)
      modifies this, im, im.blocks, Objects(peers)
      ensures ok <==> DoCreate(old(World(peers)), c, kind, parent, name, env).Some?
      ensures ok ==> Some(World(peers)) == DoCreate(old(World(peers)), c, kind, parent, name, env)
      ensures ok ==> id == FreeInum(old(im.Disk()), 1)
    {
      hide Extents.Publish, PutInode, FreeInum, GetInode;
      ok, id := im.AllocInode(kind);
      if !ok { return; }
      assert World(peers).peers == old(World(peers)).peers;
      assert World(peers) == old(World(peers)).(fs := im.View());
      ok := Publish(c, parent, name, id, env, peers);
    }

    method CreateSymLink(c: Cid, parent: nat, name: Text, link: Text, env: Env, env2: Env, peers: Peers) returns (ok: bool, id: nat)
      requires Valid() && Linked(peers)
      modifies this, im, im.blocks, Objects(peers)
      ensures ok <==> DoSymLink(old(World(peers)), c, parent, name, link, env, env2).Some?
      ensures ok ==> Some(World(peers)) == DoSymLink(old(World(peers)), c, parent, name, link, env, env2)
      ensures ok ==> id == FreeInum(old(im.Disk()), 1)
    {
      hide Extents.Publish, Inodes.WriteFile, FreeInum, PutInode, GetInode;
      ok, id := im.AllocInode(T_SYMLINK);
      if !ok { return; }
      ok := im.WriteFile(id, link, env.junk, env.now);
      if !ok { return; }
      assert World(peers).peers == old(World(peers)).peers;
      assert World(peers) == old(World(peers)).(fs := im.View());
      ok := Publish(c, parent, name, id, env2, peers);
    }

    method Remove(c: Cid, parent: nat, name: Text, eid: nat, env: Env, peers: Peers) returns (ok: bool)
      requires Valid() && Linked(peers)
      modifies this, im, im.blocks, Objects(peers)
      ensures ok <==> DoRemove(old(World(peers)), c, parent, name, eid, env).Some?
      ensures ok ==> Some(World(peers)) == DoRemove(old(World(peers)), c, parent, name, eid, env)
    {
      hide Extents.Store, Inodes.RemoveFile, D.Erase, BroadcastRemove, Register;
      var id := eid % TWO31;
      ok := im.RemoveFile(id);
      if !ok { return; }
      assert World(peers).peers == old(World(peers)).peers;
      assert World(peers) == old(World(peers)).(fs := im.View());
      var text := D.Erase(if parent in dataCache then dataCache[parent] else [], name);
      if text.None? { return false; }
      ok := Store(parent, text.value, env, peers);
      if !ok { return; }
      Drop(id, peers);
      Enlist(c, id, peers);
    }

    method Drop(id: nat, peers: Peers)
      requires Valid() && Linked(peers)
      modifies this, Objects(peers)
      ensures World(peers) == BroadcastRemove(old(World(peers)).(cache := Forgot(old(World(peers)).cache, id)), id)
    {
      dataCache, attrCache := dataCache - {id}, attrCache - {id};
      assert World(peers).peers == old(World(peers)).peers;
      assert World(peers) == old(World(peers)).(cache := Forgot(old(World(peers)).cache, id));
      Broadcast(id, true, peers);
    }
  }
}
