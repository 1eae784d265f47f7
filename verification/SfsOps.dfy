/**
 The vnode operations of SFS (kern/fs/sfs/sfs_vnode.c) over a whole mounted
 volume: each keeps the ownership invariant, the directory and the link
 counts, and says what it did to the names and to every file.
 */
module SfsOps {
  import opened Bytes
  import opened Errno
  import opened SfsVolume
  import opened SfsSteps
  import opened SfsSpace
  import opened SfsFs
  import opened SfsVnodes
  import opened SfsDirectory
  import opened SfsDirIo
  import opened SfsLinks
  import opened BitmapLib

  // The filesystem is in order.
  ghost predicate Good(fs: Sfs)
    reads fs, fs.freemap.v
  {
    fs.Valid() && DirOk(fs.V())
  }

  // From v to v', no file but x (and the directory) changed in any way, no
  // other vnode gained or lost a reference, and no file but x appeared.
  ghost predicate Others(v: Vol, v': Vol, x: nat) {
    && (forall i :: i in v.files && i != ROOT_LOCATION && i != x ==>
          i in v'.files && v'.files[i] == v.files[i] && v'.Content(i) == v.Content(i))
    && (forall i :: i in v.tab && i != x ==> i in v'.tab && v'.tab[i].refs == v.tab[i].refs)
    && (forall i :: i in v'.files && i != x ==> i in v.files)
    && (forall i :: i in v'.tab && i != x ==> i in v.tab)
  }

  lemma OthersTwice(a: Vol, b: Vol, c: Vol, x: nat)
    requires Others(a, b, x) && Others(b, c, x)
    ensures Others(a, c, x)
  {
    hide ContentOf;
  }

  lemma OthersOfDir(v: Vol, v': Vol, x: nat, es: seq<Ent>)
    requires DirBecomes(v, v', es)
    ensures Others(v, v', x) && v'.tab.Keys == v.tab.Keys && v'.files.Keys == v.files.Keys && v'.saved == v.saved
    ensures forall i :: i in v.files && i != ROOT_LOCATION ==>
              v'.files[i] == v.files[i] && v'.Content(i) == v.Content(i)
    ensures forall i :: i in v.tab ==> v'.tab[i].refs == v.tab[i].refs
    ensures ROOT_LOCATION in v.files && v'.files[ROOT_LOCATION].links == v.files[ROOT_LOCATION].links
  {
    hide ContentOf, Flat, Ents;
  }

  // ---------- reference counts ----------

  // vnode_decref: let go of one reference
  method Decref(fs: Sfs, ino: nat)
    requires Good(fs) && ino in fs.svs
    modifies fs, fs.freemap.v
    ensures Good(fs)
    ensures Dir(fs.V()) == old(Dir(fs.V())) && Others(old(fs.V()), fs.V(), ino)
    ensures old(fs.svs[ino].refs) > 1 ==> fs.V() == SetRefs(old(fs.V()), ino, old(fs.svs[ino].refs) - 1)
    ensures old(fs.svs[ino].refs) == 1 ==> Reclaimed(old(fs.V()), fs.V(), ino)
  {
    hide Vol.Inv, MetaOk, TableOk, Bitmap.Valid, Bitmap.Bits, DirOff, Reclaimed, Others;
    ghost var v0 := fs.V();
    LoadedFacts(v0, ino);
    assert fs.svs[ino].refs > 0;
    if fs.svs[ino].refs > 1 {
      RefsDir(v0, ino, fs.svs[ino].refs - 1);
      ChangeRefs(fs, ino, fs.svs[ino].refs - 1);
    } else {
      RootLinked(v0);
      Reclaim(fs, ino);
      ReclaimedDir(v0, fs.V(), ino);
    }
  }

  lemma RefsDir(v: Vol, ino: nat, r: nat)
    requires DirOk(v) && ino in v.tab
    ensures DirOk(SetRefs(v, ino, r)) && Dir(SetRefs(v, ino, r)) == Dir(v) && Others(v, SetRefs(v, ino, r), ino)
  {
    hide ContentOf, Flat, Ents, NamesUnique, Count;
    assert SetRefs(v, ino, r).tab.Keys == v.tab.Keys;
  }

  lemma RootLinked(v: Vol)
    requires DirOk(v)
    ensures ROOT_LOCATION in v.files && v.files[ROOT_LOCATION].links > 0
  {
    hide Flat, Ents, Count, ContentOf;
  }

  lemma ReclaimedDir(v: Vol, v': Vol, ino: nat)
    requires DirOk(v) && Reclaimed(v, v', ino)
    ensures DirOk(v') && Dir(v') == Dir(v) && Others(v, v', ino)
  {
    hide ContentOf, Flat, Ents, NamesUnique, Count, BelongsTo;
    RootLinked(v);
    assert Dir(v') == Dir(v);
    forall s | 0 <= s < |Dir(v)| && Dir(v)[s].ino != NOINO
      ensures Dir(v)[s].ino in v'.files
    {
      NamedHasLink(v, s);
    }
  }

  // ---------- link counts ----------

  ghost function Linked(v: Vol, ino: nat, n: Half): Vol
    requires ino in v.tab && ino in v.files
  {
    v.(tab := v.tab[ino := v.tab[ino].(inode := v.tab[ino].inode.(links := n), dirty := true)],
       files := v.files[ino := v.files[ino].(links := n)])
  }

  lemma LinkedKeeps(v: Vol, ino: nat, n: Half)
    requires v.Inv() && ino in v.tab && ino in v.files
    ensures Linked(v, ino, n).Inv() && SameContent(v, Linked(v, ino, n))
    ensures Others(v, Linked(v, ino, n), ino)
  {
    hide Vol.Inv, ContentOf;
    LoadedFacts(v, ino);
    var vn := v.tab[ino].(inode := v.tab[ino].inode.(links := n), dirty := true);
    SetVnodeKeeps(v, vn);
    assert SetVnode(v, vn) == Linked(v, ino, n);
  }

  // sfi_linkcount := n, marking the inode dirty
  method SetLinks(fs: Sfs, ino: nat, n: Half)
    requires fs.Valid() && ino in fs.svs && ino in fs.files
    modifies fs
    ensures fs.Valid() && fs.V() == Linked(old(fs.V()), ino, n)
  {
    hide Vol.Inv, MetaOk, TableOk, Bitmap.Valid, Bitmap.Bits, Others, SameContent;
    ghost var v0 := fs.V();
    LinkedKeeps(v0, ino, n);
    fs.svs := fs.svs[ino := fs.svs[ino].(inode := fs.svs[ino].inode.(links := n), dirty := true)];
    fs.files := fs.files[ino := fs.files[ino].(links := n)];
    assert fs.svs.Keys == v0.tab.Keys;
  }

  // Raising or lowering the count that the last directory change put off
  lemma LinkedSettles(v: Vol, ino: nat, d: int)
    requires DirOff(v, ino, d) && ino in v.tab && ino in v.files && -1 <= d <= 1
    requires 0 <= v.files[ino].links + d
    ensures v.files[ino].links + d < 0x1_0000
    ensures DirOk(Linked(v, ino, v.files[ino].links + d)) && Dir(Linked(v, ino, v.files[ino].links + d)) == Dir(v)
  {
    hide Flat, Ents, NamesUnique, Count, ContentOf, DirOff;
    LinksBound(v, ino, d, ino);
    var v' := Linked(v, ino, v.files[ino].links + d);
    assert v'.tab.Keys == v.tab.Keys;
    assert v'.files.Keys == v.files.Keys;
    SettleLinks(v, v', ino, d);
  }

  // ---------- creating ----------

  ghost function Made(v: Vol, ino: nat): Vol
    requires ino < |v.disk| && ino < |v.bits|
  {
    Typed(Load(NewInode(v, ino), ino), ino, TYPE_FILE)
  }

  // sfs_makeobj for a file: a fresh inode, loaded, with no links yet
  method MakeObj(fs: Sfs) returns (err: Err, ino: nat)
    requires fs.Valid()
    modifies fs, fs.freemap.v
    ensures fs.Valid() && (err == OK || err == ENOSPC)
    ensures err == ENOSPC <==> old(Free(fs.V().bits)) == 0
    ensures err != OK ==> fs.V() == old(fs.V())
    ensures err == OK ==>
              ino < |old(fs.V()).disk| && ino < |old(fs.V()).bits| && ino !in old(fs.V()).owner && 0 < ino < 0x40_0000
    ensures err == OK ==> fs.V() == Made(old(fs.V()), ino)
  {
    hide Vol.Inv, MetaOk, TableOk, Bitmap.Valid, Bitmap.Bits, InodeOf, Free;
    ghost var v0 := fs.V();
    VolFacts(v0);
    NoneFree(v0.bits);
    err, ino := fs.Balloc();
    if err != OK {
      return;
    }
    NewInodeKeeps(v0, ino);
    FreshNotLoaded(v0, ino);
    fs.saved := fs.saved[ino := ZeroInode];
    fs.owner := fs.owner[ino := RefInode(ino)];
    fs.files := fs.files[ino := ZeroFile()];
    assert fs.V() == NewInode(v0, ino);
    LoadVnode(fs, ino, TYPE_FILE);
  }

  lemma VolFacts(v: Vol)
    requires v.Inv()
    ensures v.nblocks <= |v.disk| && v.nblocks < 0x40_0000
  {}

  lemma FreshNotLoaded(v: Vol, ino: nat)
    requires v.Inv() && ino !in v.files
    ensures ino !in v.tab && ino !in v.saved
  {}

  lemma MadeShape(v: Vol, ino: nat)
    requires v.Inv() && ino < |v.disk| && ino < |v.bits| && ino !in v.owner
    ensures ino !in v.files && ino !in v.tab
    ensures Others(v, Made(v, ino), ino) && ino in Made(v, ino).tab && Made(v, ino).tab[ino].refs == 1
    ensures Made(v, ino).files == v.files[ino := ZeroFile().(typ := TYPE_FILE)]
    ensures Made(v, ino).tab.Keys == v.tab.Keys + {ino}
    ensures forall i :: i in v.files ==> Made(v, ino).Content(i) == v.Content(i)
  {
    hide Vol.Inv, ContentOf, Forward, Backward;
    InvForward(v);
    NotOwned(v.owner, v.files, ino);
    FreshNotLoaded(v, ino);
    NewInodeContent(v, ino);
    MadeContent(v, ino);
    MadeOthers(v, ino);
  }

  lemma MadeOthers(v: Vol, ino: nat)
    requires ino < |v.disk| && ino < |v.bits| && ino !in v.files && ino !in v.tab
    requires forall i :: i in v.files ==> Made(v, ino).files[i] == v.files[i] && Made(v, ino).Content(i) == v.Content(i)
    ensures Others(v, Made(v, ino), ino)
  {
    hide ContentOf;
  }

  // A new file that no entry names and that is loaded fits in.
  lemma JoinDir(v: Vol, v': Vol, ino: nat, f: File)
    requires DirOk(v) && ino !in v.files && ino != ROOT_LOCATION && ino != NOINO
    requires v'.files == v.files[ino := f] && f.typ == TYPE_FILE && f.links == 0
    requires v'.tab.Keys == v.tab.Keys + {ino}
    requires v'.Content(ROOT_LOCATION) == v.Content(ROOT_LOCATION)
    ensures DirOk(v') && Dir(v') == Dir(v)
  {
    hide ContentOf, Flat, Ents, NamesUnique, Count;
    CountNone(Dir(v), ino);
  }

  lemma MadeFacts(v: Vol, ino: nat)
    requires v.Inv() && DirOk(v) && ino < |v.disk| && ino < |v.bits| && ino !in v.owner
    ensures ino !in v.files && ino !in v.tab && ino != ROOT_LOCATION && ino != NOINO
    ensures DirOk(Made(v, ino)) && Dir(Made(v, ino)) == Dir(v)
    ensures Others(v, Made(v, ino), ino) && ino in Made(v, ino).tab && Made(v, ino).tab[ino].refs == 1
    ensures Made(v, ino).files == v.files[ino := ZeroFile().(typ := TYPE_FILE)]
    ensures Made(v, ino).tab.Keys == v.tab.Keys + {ino}
  {
    hide Vol.Inv, ContentOf, Flat, Ents, NamesUnique, Count, Others, DirOff, Made;
    MadeShape(v, ino);
    RootLinked(v);
    SuperOwned(v);
    JoinDir(v, Made(v, ino), ino, ZeroFile().(typ := TYPE_FILE));
  }

  // The new inode took one free block.
  lemma MadeSpace(v: Vol, ino: nat)
    requires v.Inv() && ino < |v.disk| && ino < |v.bits| && ino !in v.owner && ino != ROOT_LOCATION
    ensures Free(Made(v, ino).bits) + 1 == Free(v.bits)
    ensures HasMap(v) && HasMap(Made(v, ino)) && Made(v, ino).files[ROOT_LOCATION] == v.files[ROOT_LOCATION]
  {
    hide Free, Mirrors, Inodes, Indirects;
    assert SfsVolume.Struct(v.nblocks, v.bits, v.owner, v.files);
    FreeTake(v.bits, ino);
  }

  lemma NotOwned(owner: Owners, files: Files, ino: nat)
    requires Forward(owner, files) && ino !in owner
    ensures ino !in files
  {}

  lemma MadeContent(v: Vol, ino: nat)
    requires ino < |v.disk| && ino < |v.bits| && ino !in v.files
    ensures forall i :: i in v.files ==>
              Made(v, ino).files[i] == v.files[i] && Made(v, ino).Content(i) == NewInode(v, ino).Content(i)
  {}

  // ---------- names ----------

  // From v to v' file ino gained d links; its bytes, size and references
  // stayed, and so did everything else.
  ghost predicate LinksMoved(v: Vol, v': Vol, ino: nat, d: int) {
    && Others(v, v', ino)
    && v'.files.Keys == v.files.Keys && v'.tab.Keys == v.tab.Keys
    && ino in v.files && ino in v.tab
    && v'.tab[ino].refs == v.tab[ino].refs
    && v'.files[ino].links == v.files[ino].links + d
    && (ino != ROOT_LOCATION ==>
          v'.files[ino] == v.files[ino].(links := v'.files[ino].links) && v'.Content(ino) == v.Content(ino))
  }

  lemma LinksMovedBy(v: Vol, v1: Vol, ino: nat, es: seq<Ent>, d: int)
    requires ino in v.tab && ino in v.files && ino in v1.tab && ino in v1.files
    requires 0 <= v.files[ino].links + d < 0x1_0000
    requires DirBecomes(v, v1, es) && v1.Inv()
    ensures LinksMoved(v, Linked(v1, ino, v.files[ino].links + d), ino, d)
  {
    hide Vol.Inv, ContentOf, Flat, Ents, DirBecomes, Others;
    var n: Half := v.files[ino].links + d;
    OthersOfDir(v, v1, ino, es);
    LinkedKeeps(v1, ino, n);
    OthersTwice(v, v1, Linked(v1, ino, n), ino);
    LinkedSets(v1, ino, n);
  }

  lemma LinkedSets(v: Vol, ino: nat, n: Half)
    requires ino in v.tab && ino in v.files
    ensures var v' := Linked(v, ino, n);
            && v'.files.Keys == v.files.Keys && v'.tab.Keys == v.tab.Keys
            && v'.tab[ino].refs == v.tab[ino].refs && v'.files[ino] == v.files[ino].(links := n)
  {}

  lemma NoLinksMoved(v: Vol, v': Vol, ino: nat, es: seq<Ent>)
    requires DirBecomes(v, v', es) && ino in v.tab && ino in v.files
    ensures LinksMoved(v, v', ino, 0)
  {
    hide ContentOf, Flat, Ents, DirBecomes;
    OthersOfDir(v, v', ino, es);
  }

  lemma DirLoaded(v: Vol)
    requires DirOk(v) && ROOT_LOCATION in v.tab
    ensures HasDir(v) && NamesUnique(Dir(v))
  {
    hide ContentOf, Flat, Ents;
  }

  // sfs_dir_link followed by the increment of the link count
  method AddLink(fs: Sfs, name: seq<Byte>, ino: Word, ghost es: seq<Ent>) returns (err: Err, slot: nat)
    requires Good(fs) && ROOT_LOCATION in fs.svs && ino in fs.svs && IsName(name) && es == Dir(fs.V())
    modifies fs, fs.freemap.v
    ensures Good(fs) && slot <= |es|
    ensures LinksMoved(old(fs.V()), fs.V(), ino, if err == OK then 1 else 0)
    ensures Dir(fs.V()) == if err == OK then PutEnt(es, slot, Ent(ino, name)) else es
    ensures err == OK ==> slot < |es| ==> es[slot].ino == NOINO
    ensures LinkAnswer(old(fs.V()), fs.V(), es, name, err)
  {
    hide Vol.Inv, MetaOk, TableOk, Bitmap.Valid, Bitmap.Bits, DirOff, LinksMoved, DirBecomes, HasDir, Linked, Ents,
      NamesUnique, LinkAnswer;
    ghost var v0 := fs.V();
    LoadedFacts(v0, ino);
    InodeFacts(v0, ino);
    DirLoaded(v0);
    err, slot := DirLink(fs, name, ino);
    ghost var v1 := fs.V();
    if err != OK {
      SameEntries(v0, v1);
      BecomesDir(v0, v1, es);
      NoLinksMoved(v0, v1, ino, es);
      return;
    }
    AnswerResult(v0, v1, es, name, err);
    LinkedDir(v0, v1, slot, ino, name);
    BecomesDir(v0, v1, PutEnt(es, slot, Ent(ino, name)));
    LinkedCount(v0, v1, ino, PutEnt(es, slot, Ent(ino, name)));
    LinkedSettles(v1, ino, 1);
    LoadedFacts(v1, ino);
    LinksMovedBy(v0, v1, ino, PutEnt(es, slot, Ent(ino, name)), 1);
    AnswerLinked(v0, v1, ino, fs.svs[ino].inode.links + 1, es, name, err);
    SetLinks(fs, ino, fs.svs[ino].inode.links + 1);
  }

  // Setting a link count spends nothing.
  lemma AnswerLinked(v: Vol, v': Vol, ino: nat, n: Half, es: seq<Ent>, name: seq<Byte>, err: Err)
    requires LinkAnswer(v, v', es, name, err) && ino in v'.tab && ino in v'.files
    ensures LinkAnswer(v, Linked(v', ino, n), es, name, err)
  {
    hide Written, Free, Used, Outcome;
    if err != EEXIST && err != ENAMETOOLONG {
      WrittenAside(v, v', Linked(v', ino, n), ROOT_LOCATION, SlotBlock(LinkSlot(es)), SlotBlock(LinkSlot(es)) + 1, err);
    }
  }

  lemma BecomesDir(v: Vol, v': Vol, es: seq<Ent>)
    requires DirBecomes(v, v', es)
    ensures Kinds(v'.files) && |v'.files[ROOT_LOCATION].bmap| == MAXBLOCKS && Dir(v') == es
    ensures v'.tab.Keys == v.tab.Keys && v'.files.Keys == v.files.Keys
  {
    hide ContentOf, Flat, Ents;
  }

  lemma LinkedCount(v: Vol, v': Vol, ino: nat, es: seq<Ent>)
    requires DirBecomes(v, v', es) && ino in v.files
    ensures ino in v'.files && v'.files[ino].links == v.files[ino].links
  {
    hide ContentOf, Flat, Ents;
  }

  // sfs_dir_unlink followed by the decrement of the link count
  method DropLink(fs: Sfs, slot: nat, ino: nat, ghost es: seq<Ent>)
    requires Good(fs) && ROOT_LOCATION in fs.svs && ino in fs.svs && es == Dir(fs.V())
    requires slot < |es| && es[slot].ino == ino != NOINO
    modifies fs, fs.freemap.v
    ensures Good(fs)
    ensures LinksMoved(old(fs.V()), fs.V(), ino, -1)
    ensures Dir(fs.V()) == es[slot := Ent(NOINO, [])]
  {
    hide Vol.Inv, MetaOk, TableOk, Bitmap.Valid, Bitmap.Bits, DirOff, LinksMoved, DirBecomes, HasDir, Linked, Ents,
      NamesUnique;
    ghost var v0 := fs.V();
    LoadedFacts(v0, ino);
    DirLoaded(v0);
    RootLinked(v0);
    NamedHasLink(v0, slot);
    var err := DirUnlink(fs, slot);
    ghost var v1 := fs.V();
    UnlinkedDir(v0, v1, slot);
    BecomesDir(v0, v1, es[slot := Ent(NOINO, [])]);
    LinkedCount(v0, v1, ino, es[slot := Ent(NOINO, [])]);
    LinkedSettles(v1, ino, -1);
    LoadedFacts(v1, ino);
    LinksMovedBy(v0, v1, ino, es[slot := Ent(NOINO, [])], -1);
    assert fs.svs[ino].inode.links > 0;
    SetLinks(fs, ino, fs.svs[ino].inode.links - 1);
  }

  // ---------- picking up and letting go of a vnode ----------

  // From v to v' vnode ino gained a reference, being loaded if need be.
  ghost predicate PickedUp(v: Vol, v': Vol, ino: nat) {
    && Others(v, v', ino) && v'.files == v.files && v'.owner == v.owner && v'.bits == v.bits
    && (forall i :: i in v.files ==> v'.Content(i) == v.Content(i))
    && v'.tab.Keys == v.tab.Keys + {ino}
    && v'.tab[ino].refs == 1 + if ino in v.tab then v.tab[ino].refs else 0
  }

  lemma LoadedDir(v: Vol, ino: nat)
    requires v.Inv() && DirOk(v) && ino in v.files && ino in v.saved
    ensures DirOk(LoadedVol(v, ino, TYPE_INVAL)) && Dir(LoadedVol(v, ino, TYPE_INVAL)) == Dir(v)
    ensures PickedUp(v, LoadedVol(v, ino, TYPE_INVAL), ino)
  {
    hide Vol.Inv, ContentOf, Flat, Ents, NamesUnique, Count;
    var v' := LoadedVol(v, ino, TYPE_INVAL);
    assert v'.files == v.files && v'.disk == v.disk;
    RootLinked(v);
    DirFrame(v, v', 0, 0);
  }

  // sfs_loadvnode on an existing file
  method PickUp(fs: Sfs, ino: nat)
    requires Good(fs) && ino in fs.files
    modifies fs
    ensures Good(fs) && Dir(fs.V()) == old(Dir(fs.V()))
    ensures PickedUp(old(fs.V()), fs.V(), ino)
  {
    hide Vol.Inv, MetaOk, TableOk, Bitmap.Valid, Bitmap.Bits, DirOff, PickedUp, Ents, LoadedVol;
    ghost var v0 := fs.V();
    InodeFacts(v0, ino);
    FileKinds(v0, ino);
    LoadedDir(v0, ino);
    LoadVnode(fs, ino, TYPE_INVAL);
  }

  lemma FileKinds(v: Vol, ino: nat)
    requires DirOk(v) && ino in v.files
    ensures v.files[ino].typ == if ino == ROOT_LOCATION then TYPE_DIR else TYPE_FILE
  {
    hide ContentOf, Flat, Ents, NamesUnique, Count;
  }

  lemma SlotLive(v: Vol, slot: nat)
    requires DirOk(v) && slot < |Dir(v)| && Dir(v)[slot].ino != NOINO
    ensures Dir(v)[slot].ino in v.files
  {
    hide ContentOf, Flat, Ents, NamesUnique, Count;
  }

  // sfs_lookonce (and sfs_lookup)
  method Lookup(fs: Sfs, name: seq<Byte>, ghost es: seq<Ent>) returns (err: Err, ino: Word, slot: nat)
    requires Good(fs) && ROOT_LOCATION in fs.svs && es == Dir(fs.V())
    modifies fs, fs.freemap.v
    ensures Good(fs) && Dir(fs.V()) == es
    ensures err == ENOENT || err == OK
    ensures err == ENOENT <==> !Used(es, name)
    ensures err == ENOENT ==> fs.V() == old(fs.V())
    ensures err == OK ==>
              slot < |es| && es[slot] == Ent(ino, name) && ino != NOINO && PickedUp(old(fs.V()), fs.V(), ino)
  {
    hide Vol.Inv, MetaOk, TableOk, Bitmap.Valid, Bitmap.Bits, DirOff, PickedUp, Ents, HasDir, NamesUnique;
    ghost var v0 := fs.V();
    DirLoaded(v0);
    var e;
    err, ino, slot, e := FindName(fs, name, es);
    if err != OK {
      return;
    }
    SlotLive(v0, slot);
    PickUp(fs, ino);
    NamedHasLink(fs.V(), slot);
    PickedLoaded(v0, fs.V(), ino);
    LoadedFacts(fs.V(), ino);
    // panic: Link count of file found in dir is 0
    assert fs.svs[ino].inode.links != 0;
  }

  lemma PickedLoaded(v: Vol, v': Vol, ino: nat)
    requires PickedUp(v, v', ino)
    ensures ino in v'.tab && v'.tab[ino].refs >= 1 && v'.files == v.files && v'.bits == v.bits &&
            v.tab.Keys <= v'.tab.Keys
  {}

  // From v to v' a reference was picked up, the links moved by d, and the
  // reference was let go again.
  ghost predicate Visited(v: Vol, v': Vol, ino: nat, d: int) {
    && Others(v, v', ino) && v'.tab.Keys == v.tab.Keys
    && ino in v.files && (ino in v.tab ==> v'.tab[ino].refs == v.tab[ino].refs)
    && (ino in v.tab || v.files[ino].links + d > 0 ==>
          && v'.files.Keys == v.files.Keys
          && v'.files[ino].links == v.files[ino].links + d
          && (ino != ROOT_LOCATION ==>
                v'.files[ino] == v.files[ino].(links := v'.files[ino].links) && v'.Content(ino) == v.Content(ino)))
    && (ino !in v.tab && v.files[ino].links + d == 0 ==>
          v'.files.Keys == v.files.Keys - {ino} && forall b :: b in v'.owner ==> !BelongsTo(v'.owner[b], ino))
  }

  lemma VisitEnds(v: Vol, v1: Vol, v2: Vol, v3: Vol, ino: nat, d: int)
    requires ino in v.files && PickedUp(v, v1, ino) && LinksMoved(v1, v2, ino, d) && Others(v2, v3, ino)
    requires v2.tab[ino].refs > 1 ==> v3 == SetRefs(v2, ino, v2.tab[ino].refs - 1)
    requires v2.tab[ino].refs == 1 ==> Reclaimed(v2, v3, ino)
    requires forall i :: i in v.tab ==> v.tab[i].refs > 0
    ensures Visited(v, v3, ino, d)
  {
    hide ContentOf, BelongsTo, Others;
    VisitOthers(v, v1, v2, v3, ino, d);
    assert v.tab.Keys + {ino} - {ino} == v.tab.Keys - {ino};
    assert v3.tab.Keys == v.tab.Keys;
  }

  lemma VisitOthers(v: Vol, v1: Vol, v2: Vol, v3: Vol, ino: nat, d: int)
    requires PickedUp(v, v1, ino) && LinksMoved(v1, v2, ino, d) && Others(v2, v3, ino)
    ensures Others(v, v3, ino)
  {
    hide Others;
    OthersTwice(v, v1, v2, ino);
    OthersTwice(v, v2, v3, ino);
  }

  lemma RefsPositive(v: Vol)
    requires v.Inv()
    ensures forall i :: i in v.tab ==> i in v.files && v.tab[i].refs > 0
  {}

  // ---------- the operations ----------

  // sfs_link
  method LinkFile(fs: Sfs, name: seq<Byte>, ino: Word, ghost es: seq<Ent>) returns (err: Err)
    requires Good(fs) && ROOT_LOCATION in fs.svs && ino in fs.svs && IsName(name) && es == Dir(fs.V())
    modifies fs, fs.freemap.v
    ensures Good(fs)
    ensures LinksMoved(old(fs.V()), fs.V(), ino, if err == OK then 1 else 0)
    ensures err == OK ==> NameAdded(es, Dir(fs.V()), name, ino)
    ensures err != OK ==> Dir(fs.V()) == es
    ensures LinkAnswer(old(fs.V()), fs.V(), es, name, err)
  {
    hide Vol.Inv, MetaOk, TableOk, Bitmap.Valid, Bitmap.Bits, DirOff, LinksMoved, Ents, NameAdded, LinkAnswer;
    LoadedIsLive(fs.V(), ino);
    var slot;
    err, slot := AddLink(fs, name, ino, es);
    if err == OK {
      PutAdds(es, slot, Ent(ino, name));
    }
  }

  lemma LoadedIsLive(v: Vol, ino: nat)
    requires v.Inv() && ino in v.tab
    ensures ino in v.files && ino != NOINO
  {
    LoadedFacts(v, ino);
    InodeFacts(v, ino);
  }

  // name stands for file i in directory es.
  ghost predicate Bound(es: seq<Ent>, name: seq<Byte>, i: nat) {
    i != NOINO && exists s :: 0 <= s < |es| && es[s].ino == i && es[s].name == name
  }

  // Exactly the binding of name to ino was added.
  ghost predicate NameAdded(es: seq<Ent>, es': seq<Ent>, name: seq<Byte>, ino: nat) {
    forall n: seq<Byte>, i: Word :: Bound(es', n, i) <==> Bound(es, n, i) || (n == name && i == ino)
  }

  // Exactly the binding of name to ino was removed.
  ghost predicate NameRemoved(es: seq<Ent>, es': seq<Ent>, name: seq<Byte>, ino: nat) {
    forall n: seq<Byte>, i: Word :: Bound(es', n, i) <==> Bound(es, n, i) && !(n == name && i == ino)
  }

  lemma PutAdds(es: seq<Ent>, slot: nat, e: Ent)
    requires slot <= |es| && e.ino != NOINO && (slot < |es| ==> es[slot].ino == NOINO)
    ensures NameAdded(es, PutEnt(es, slot, e), e.name, e.ino)
  {
    var es' := PutEnt(es, slot, e);
    assert es'[slot] == e;
    forall n: seq<Byte>, i: Word
      ensures Bound(es', n, i) <==> Bound(es, n, i) || (n == e.name && i == e.ino)
    {
      if Bound(es, n, i) {
        var s :| 0 <= s < |es| && es[s] == Ent(i, n);
        assert es'[s] == Ent(i, n);
      }
    }
  }

  lemma ClearRemoves(es: seq<Ent>, slot: nat)
    requires slot < |es| && es[slot].ino != NOINO && NamesUnique(es)
    ensures NameRemoved(es, es[slot := Ent(NOINO, [])], es[slot].name, es[slot].ino)
  {
    var es' := es[slot := Ent(NOINO, [])];
    forall n: seq<Byte>, i: Word
      ensures Bound(es', n, i) <==> Bound(es, n, i) && !(n == es[slot].name && i == es[slot].ino)
    {
      if Bound(es', n, i) {
        var s :| 0 <= s < |es'| && es'[s] == Ent(i, n);
        assert es[s] == Ent(i, n);
      }
      if Bound(es, n, i) && !(n == es[slot].name && i == es[slot].ino) {
        var s :| 0 <= s < |es| && es[s] == Ent(i, n);
        assert es'[s] == Ent(i, n);
      }
    }
  }

  // sfs_remove
  method Remove(fs: Sfs, name: seq<Byte>, ghost es: seq<Ent>) returns (err: Err, ghost victim: nat)
    requires Good(fs) && ROOT_LOCATION in fs.svs && es == Dir(fs.V())
    modifies fs, fs.freemap.v
    ensures Good(fs)
    ensures err == ENOENT || err == OK
    ensures err == ENOENT <==> !Used(es, name)
    ensures err == ENOENT ==> fs.V() == old(fs.V())
    ensures err == OK ==> Bound(es, name, victim) && NameRemoved(es, Dir(fs.V()), name, victim)
    ensures err == OK ==> Visited(old(fs.V()), fs.V(), victim, -1)
  {
    hide Vol.Inv, MetaOk, TableOk, Bitmap.Valid, Bitmap.Bits, DirOff, LinksMoved, Ents, Used, PickedUp, Others,
      Reclaimed, Visited, NameRemoved;
    ghost var v0 := fs.V();
    RefsPositive(v0);
    DirNames(v0);
    var ino, slot;
    err, ino, slot := Lookup(fs, name, es);
    victim := ino;
    if err != OK {
      return;
    }
    ghost var v1 := fs.V();
    PickedLoaded(v0, v1, ino);
    DropLink(fs, slot, ino, es);
    ghost var v2 := fs.V();
    MovedFacts(v1, v2, ino, -1);
    LoadedFacts(v2, ino);
    Decref(fs, ino);
    LoadedFacts(v1, ino);
    VisitEnds(v0, v1, v2, fs.V(), ino, -1);
    ClearRemoves(es, slot);
  }

  lemma DirNames(v: Vol)
    requires DirOk(v)
    ensures NamesUnique(Dir(v))
  {
    hide ContentOf, Flat, Ents;
  }

  lemma MovedFacts(v: Vol, v': Vol, ino: nat, d: int)
    requires LinksMoved(v, v', ino, d)
    ensures ino in v.tab && ino in v'.tab && v'.tab.Keys == v.tab.Keys && v'.files.Keys == v.files.Keys
    ensures v'.tab[ino].refs == v.tab[ino].refs
  {}

  lemma MovedTwice(a: Vol, b: Vol, c: Vol, ino: nat, d: int, e: int)
    requires LinksMoved(a, b, ino, d) && LinksMoved(b, c, ino, e)
    ensures LinksMoved(a, c, ino, d + e)
  {
    hide ContentOf, Others;
    OthersTwice(a, b, c, ino);
  }

  // Exactly the name of file ino changed from n1 to n2.
  ghost predicate NameChanged(es: seq<Ent>, es': seq<Ent>, n1: seq<Byte>, n2: seq<Byte>, ino: nat) {
    forall n: seq<Byte>, i: Word ::
      Bound(es', n, i) <==> (n == n2 && i == ino) || (Bound(es, n, i) && !(n == n1 && i == ino))
  }

  lemma RenameBinds(es: seq<Ent>, slot1: nat, slot2: nat, e: Ent)
    requires slot1 < |es| && es[slot1].ino == e.ino != NOINO && NamesUnique(es) && !Used(es, e.name)
    requires slot2 <= |es| && (slot2 < |es| ==> es[slot2].ino == NOINO)
    ensures slot1 < |PutEnt(es, slot2, e)| && PutEnt(es, slot2, e)[slot1] == es[slot1]
    ensures NameChanged(es, PutEnt(es, slot2, e)[slot1 := Ent(NOINO, [])], es[slot1].name, e.name, e.ino)
  {
    hide NameAdded, NameRemoved;
    var es1 := PutEnt(es, slot2, e);
    PutAdds(es, slot2, e);
    PutNames(es, slot2, e);
    ClearRemoves(es1, slot1);
    assert es[slot1].name != e.name;
    ChangeBinds(es, es1, es1[slot1 := Ent(NOINO, [])], es[slot1].name, e.name, e.ino);
  }

  lemma ChangeBinds(es: seq<Ent>, es1: seq<Ent>, es2: seq<Ent>, n1: seq<Byte>, n2: seq<Byte>, ino: nat)
    requires NameAdded(es, es1, n2, ino) && NameRemoved(es1, es2, n1, ino) && n1 != n2
    ensures NameChanged(es, es2, n1, n2, ino)
  {
    hide Bound;
  }

  // What sfs_rename answers
  ghost predicate RenameAnswer(v: Vol, es: seq<Ent>, n1: seq<Byte>, n2: seq<Byte>, err: Err) {
    HasMap(v) && err == if !Used(es, n1) then ENOENT else LinkResult(v.files[ROOT_LOCATION], Free(v.bits), es, n2)
  }

  // Once the old name is found, what is left is adding the new one.
  lemma RenameAnswers(v: Vol, v': Vol, es: seq<Ent>, n1: seq<Byte>, n2: seq<Byte>, err: Err)
    requires v'.files == v.files && v'.bits == v.bits && Used(es, n1)
    requires HasMap(v') && err == LinkResult(v'.files[ROOT_LOCATION], Free(v'.bits), es, n2)
    ensures RenameAnswer(v, es, n1, n2, err) && err != ENOENT
  {
    hide Used, Free, LinkSlot;
  }

  // sfs_rename. The old name must not stand for the directory itself.
  method Rename(fs: Sfs, n1: seq<Byte>, n2: seq<Byte>, ghost es: seq<Ent>) returns (err: Err, ghost file: nat)
    requires Good(fs) && ROOT_LOCATION in fs.svs && es == Dir(fs.V()) && IsName(n2)
    requires !Bound(es, n1, ROOT_LOCATION)
    modifies fs, fs.freemap.v
    ensures Good(fs)
    ensures RenameAnswer(old(fs.V()), es, n1, n2, err)
    ensures err == ENOENT ==> fs.V() == old(fs.V())
    ensures err != ENOENT ==> Bound(es, n1, file) && Visited(old(fs.V()), fs.V(), file, 0)
    ensures err == OK ==> NameChanged(es, Dir(fs.V()), n1, n2, file)
    ensures err != OK ==> Dir(fs.V()) == es
  {
    hide Vol.Inv, MetaOk, TableOk, Bitmap.Valid, Bitmap.Bits, DirOff, LinksMoved, Ents, Used, PickedUp, Others,
      Reclaimed, Visited, NameChanged, LinkResult;
    ghost var v0 := fs.V();
    RefsPositive(v0);
    DirNames(v0);
    DirLoaded(v0);
    var ino, slot1;
    err, ino, slot1 := Lookup(fs, n1, es);
    file := ino;
    if err != OK {
      return;
    }
    ghost var v1 := fs.V();
    PickedLoaded(v0, v1, ino);
    LoadedFacts(v1, ino);
    FileKinds(v1, ino);
    assert fs.svs[ino].inode.typ == TYPE_FILE;
    err := Relink(fs, n1, n2, ino, slot1, es);
    RenameAnswers(v0, v1, es, n1, n2, err);
    ghost var v3 := fs.V();
    MovedFacts(v1, v3, ino, 0);
    LoadedFacts(v3, ino);
    Decref(fs, ino);
    VisitEnds(v0, v1, v3, fs.V(), ino, 0);
  }

  // The middle of sfs_rename: link under the new name, then unlink the old
  // slot. The unlink cannot fail, so the error recovery is never needed.
  method Relink(fs: Sfs, n1: seq<Byte>, n2: seq<Byte>, ino: Word, slot1: nat, ghost es: seq<Ent>) returns (err: Err)
    requires Good(fs) && ROOT_LOCATION in fs.svs && ino in fs.svs && IsName(n2) && es == Dir(fs.V()) && NamesUnique(es)
    requires slot1 < |es| && es[slot1] == Ent(ino, n1) && ino != NOINO
    modifies fs, fs.freemap.v
    ensures Good(fs) && LinksMoved(old(fs.V()), fs.V(), ino, 0)
    ensures err != OK ==> Dir(fs.V()) == es
    ensures err == OK ==> NameChanged(es, Dir(fs.V()), n1, n2, ino)
    ensures HasMap(old(fs.V())) && err == LinkResult(old(fs.V()).files[ROOT_LOCATION], Free(old(fs.V()).bits), es, n2)
  {
    hide Vol.Inv, MetaOk, TableOk, Bitmap.Valid, Bitmap.Bits, DirOff, LinksMoved, Ents, Used, NameChanged,
      NamesUnique, LinkAnswer, LinkResult;
    ghost var v1 := fs.V();
    var slot2;
    err, slot2 := AddLink(fs, n2, ino, es);
    ghost var v2 := fs.V();
    AnswerResult(v1, v2, es, n2, err);
    if err != OK {
      return;
    }
    MovedFacts(v1, v2, ino, 1);
    RenameBinds(es, slot1, slot2, Ent(ino, n2));
    DropLink(fs, slot1, ino, PutEnt(es, slot2, Ent(ino, n2)));
    MovedTwice(v1, v2, fs.V(), ino, 1, -1);
  }

  lemma AnswerResult(v: Vol, v': Vol, es: seq<Ent>, name: seq<Byte>, err: Err)
    requires LinkAnswer(v, v', es, name, err)
    ensures HasMap(v) && err == LinkResult(v.files[ROOT_LOCATION], Free(v.bits), es, name)
    ensures err == OK ==> !Used(es, name)
  {
    hide Written, Used, Free, Outcome;
  }

  // What sfs_creat answers, from the directory's block map, the number of
  // free blocks and the entries: the inode is allocated before the name is
  // looked at.
  ghost function CreatResult(f: File, free: nat, es: seq<Ent>, name: seq<Byte>, excl: bool): Err
    requires |f.bmap| == MAXBLOCKS
  {
    if Used(es, name) then (if excl then EEXIST else OK)
    else if free == 0 then ENOSPC
    else LinkResult(f, free - 1, es, name)
  }

  // ... and, when it makes a file, what it spends: the inode and what the
  // directory needs to hold the new entry
  ghost predicate CreatAnswer(v: Vol, v': Vol, es: seq<Ent>, name: seq<Byte>, excl: bool, err: Err) {
    && HasMap(v) && err == CreatResult(v.files[ROOT_LOCATION], Free(v.bits), es, name, excl)
    && (err == OK && !Used(es, name) ==>
          var k := SlotBlock(LinkSlot(es));
          k < MAXBLOCKS && Free(v.bits) == Free(v'.bits) + 1 + Need(v.files[ROOT_LOCATION], k, k + 1))
  }

  // With three free blocks a new and short name fails only if the directory
  // is full.
  lemma CreatFits(f: File, free: nat, es: seq<Ent>, name: seq<Byte>, excl: bool)
    requires |f.bmap| == MAXBLOCKS && |es| <= MAXENTS
    ensures CreatResult(f, free, es, name, excl) == ENOSPC ==> !Used(es, name) && free < 3
    ensures CreatResult(f, free, es, name, excl) == ENAMETOOLONG <==>
              !Used(es, name) && free > 0 && |name| + 1 > NAMELEN
    ensures CreatResult(f, free, es, name, excl) == EINVAL <==>
              && !Used(es, name) && free > 0 && |name| + 1 <= NAMELEN
              && |es| == MAXENTS && forall s :: 0 <= s < |es| ==> es[s].ino != NOINO
  {
    hide Used, Outcome, LinkSlot;
    if free > 0 {
      LinkFits(f, free - 1, es, name);
      LinkErrors(f, free - 1, es, name);
    }
  }

  lemma LinkErrors(f: File, free: nat, es: seq<Ent>, name: seq<Byte>)
    requires |f.bmap| == MAXBLOCKS
    ensures LinkResult(f, free, es, name) == ENAMETOOLONG <==> !Used(es, name) && |name| + 1 > NAMELEN
    ensures LinkResult(f, free, es, name) == EEXIST <==> Used(es, name)
  {
    hide Used, Need, LinkSlot;
  }

  // The volume with one new, empty, once-linked file, loaded.
  ghost predicate Created(v: Vol, v': Vol, ino: nat) {
    && ino !in v.files && Others(v, v', ino)
    && v'.files.Keys == v.files.Keys + {ino} && v'.tab.Keys == v.tab.Keys + {ino}
    && v'.tab[ino].refs == 1
    && v'.files[ino] == File(0, TYPE_FILE, 1, 0, ZeroWords(MAXBLOCKS))
  }

  // Nothing is left of an attempt to create a file but, it may be, a block
  // that the directory took on the way.
  ghost predicate CameToNothing(v: Vol, v': Vol) {
    v'.files.Keys == v.files.Keys && v'.tab.Keys == v.tab.Keys && Conserves(v, v', ROOT_LOCATION) &&
    exists x :: x !in v.files && Others(v, v', x)
  }

  lemma CreateEnds(v: Vol, v2: Vol, ino: nat)
    requires v.Inv() && DirOk(v) && ino < |v.disk| && ino < |v.bits| && ino !in v.owner
    requires LinksMoved(Made(v, ino), v2, ino, 1)
    ensures Created(v, v2, ino)
  {
    hide Vol.Inv, ContentOf, DirOff, Made, Others;
    MadeFacts(v, ino);
    OthersTwice(v, Made(v, ino), v2, ino);
  }

  lemma CreateUndone(v: Vol, v2: Vol, v3: Vol, ino: nat)
    requires v.Inv() && DirOk(v) && ino < |v.disk| && ino < |v.bits| && ino !in v.owner
    requires LinksMoved(Made(v, ino), v2, ino, 0) && Others(v2, v3, ino) && Reclaimed(v2, v3, ino)
    requires v2.Inv() && v3.Inv() && Conserves(Made(v, ino), v2, ROOT_LOCATION)
    ensures CameToNothing(v, v3)
  {
    hide Vol.Inv, ContentOf, DirOff, Made, Others, BelongsTo, Free, Holes;
    MadeFacts(v, ino);
    MadeSpace(v, ino);
    EmptyGone(v2, v3, ino);
    OthersTwice(v, Made(v, ino), v2, ino);
    OthersTwice(v, v2, v3, ino);
    assert v3.files.Keys == v.files.Keys;
    assert v3.tab.Keys == v.tab.Keys;
  }

  // Letting go of an empty file frees its inode and nothing else.
  lemma EmptyGone(v: Vol, v': Vol, ino: nat)
    requires v.Inv() && v'.Inv() && Reclaimed(v, v', ino) && ino != ROOT_LOCATION && v.files[ino].links == 0
    requires v.files[ino].ind == 0 && v.files[ino].bmap == ZeroWords(MAXBLOCKS)
    ensures Free(v'.bits) == Free(v.bits) + 1 && ROOT_LOCATION in v'.files &&
            v'.files[ROOT_LOCATION] == v.files[ROOT_LOCATION]
  {
    hide Mirrors, Inodes, Indirects, ContentOf, Free, Forward, Backward;
    assert SfsVolume.Struct(v.nblocks, v.bits, v.owner, v.files) &&
           SfsVolume.Struct(v'.nblocks, v'.bits, v'.owner, v'.files);
    SuperOwned(v);
    EmptyOwns(v.owner, v.files, ino);
    assert v'.bits[ino := true] == v.bits;
    FreeTake(v'.bits, ino);
  }

  lemma EmptyOwns(owner: Owners, files: Files, ino: nat)
    requires Forward(owner, files) && Backward(owner, files) && ino in files && 0 in owner && owner[0].RefSuper?
    requires files[ino].ind == 0 && files[ino].bmap == ZeroWords(MAXBLOCKS)
    ensures ino in owner && forall b :: b in owner ==> (BelongsTo(owner[b], ino) <==> b == ino)
  {}

  lemma NothingHappened(v: Vol)
    requires v.Inv()
    ensures CameToNothing(v, v)
  {
    SuperOwned(v);
    assert 0 !in v.files;
    assert Others(v, v, 0);
  }

  // sfs_creat
  method Creat(fs: Sfs, name: seq<Byte>, excl: bool, ghost es: seq<Ent>) returns (err: Err, ino: Word)
    requires Good(fs) && ROOT_LOCATION in fs.svs && IsName(name) && es == Dir(fs.V())
    modifies fs, fs.freemap.v
    ensures Good(fs)
    ensures CreatAnswer(old(fs.V()), fs.V(), es, name, excl, err)
    ensures err == OK && Used(es, name) ==>
              Bound(es, name, ino) && PickedUp(old(fs.V()), fs.V(), ino) && Dir(fs.V()) == es
    ensures err == OK && !Used(es, name) ==> Created(old(fs.V()), fs.V(), ino) && NameAdded(es, Dir(fs.V()), name, ino)
    ensures err != OK ==> CameToNothing(old(fs.V()), fs.V()) && Dir(fs.V()) == es
  {
    hide Vol.Inv, MetaOk, TableOk, Bitmap.Valid, Bitmap.Bits, DirOff, Ents, PickedUp, Created, CameToNothing, HasDir,
      NamesUnique, NameAdded, CreatAnswer;
    ghost var v0 := fs.V();
    DirLoaded(v0);
    NothingHappened(v0);
    var found, slot, e;
    found, ino, slot, e := FindName(fs, name, es);
    if found == OK && excl {
      OpenAnswer(v0, fs.V(), es, name, excl);
      return EEXIST, ino;
    }
    if found == OK {
      SlotLive(v0, slot);
      PickUp(fs, ino);
      OpenAnswer(v0, fs.V(), es, name, excl);
      return OK, ino;
    }
    err, ino := CreateNew(fs, name, excl, es);
  }

  // A name that is there is opened, unless it had to be new.
  lemma OpenAnswer(v: Vol, v': Vol, es: seq<Ent>, name: seq<Byte>, excl: bool)
    requires HasDir(v) && Used(es, name)
    ensures CreatAnswer(v, v', es, name, excl, if excl then EEXIST else OK)
  {
    hide Used, Free;
  }

  // A new name: no inode to be had...
  lemma CreateAnswerNone(v: Vol, es: seq<Ent>, name: seq<Byte>, excl: bool)
    requires HasMap(v) && !Used(es, name) && Free(v.bits) == 0
    ensures CreatAnswer(v, v, es, name, excl, ENOSPC)
  {
    hide Used, Free;
  }

  // ... or the answer of adding the name to what is left.
  lemma CreateAnswerLink(v: Vol, v1: Vol, v2: Vol, v3: Vol, es: seq<Ent>, name: seq<Byte>, excl: bool, err: Err)
    requires HasMap(v) && HasMap(v1) && v1.files[ROOT_LOCATION] == v.files[ROOT_LOCATION] &&
             Free(v1.bits) + 1 == Free(v.bits)
    requires !Used(es, name) && LinkAnswer(v1, v2, es, name, err) && (err == OK ==> v3 == v2)
    ensures CreatAnswer(v, v3, es, name, excl, err)
  {
    hide Used, Free, Need, LinkSlot;
  }

  lemma AnswerConserves(v: Vol, v': Vol, es: seq<Ent>, name: seq<Byte>, err: Err)
    requires LinkAnswer(v, v', es, name, err)
    ensures Conserves(v, v', ROOT_LOCATION)
  {
    hide Used, Free, Holes, Spent, Outcome, LinkSlot;
  }

  // sfs_creat when the name is new
  method CreateNew(fs: Sfs, name: seq<Byte>, ghost excl: bool, ghost es: seq<Ent>) returns (err: Err, ino: Word)
    requires Good(fs) && ROOT_LOCATION in fs.svs && IsName(name) && es == Dir(fs.V()) && !Used(es, name)
    modifies fs, fs.freemap.v
    ensures Good(fs) && CreatAnswer(old(fs.V()), fs.V(), es, name, excl, err)
    ensures err == OK ==> Created(old(fs.V()), fs.V(), ino) && NameAdded(es, Dir(fs.V()), name, ino)
    ensures err != OK ==> CameToNothing(old(fs.V()), fs.V()) && Dir(fs.V()) == es
  {
    hide Vol.Inv, MetaOk, TableOk, Bitmap.Valid, Bitmap.Bits, DirOff, Ents, Created, CameToNothing, Made, Others,
      LinksMoved, Reclaimed, NameAdded, Used, LinkAnswer, CreatAnswer, Free, Conserves;
    ghost var v0 := fs.V();
    NothingHappened(v0);
    DirLoaded(v0);
    var new_;
    err, new_ := MakeObj(fs);
    if err != OK {
      CreateAnswerNone(v0, es, name, excl);
      return err, 0;
    }
    ino := new_;
    MadeFacts(v0, ino);
    MadeSpace(v0, ino);
    ghost var v1 := fs.V();
    var slot;
    err, slot := AddLink(fs, name, ino, es);
    ghost var v2 := fs.V();
    if err != OK {
      MovedFacts(v1, v2, ino, 0);
      AnswerConserves(v1, v2, es, name, err);
      Decref(fs, ino);
      CreateUndone(v0, v2, fs.V(), ino);
      CreateAnswerLink(v0, v1, v2, fs.V(), es, name, excl, err);
      return;
    }
    CreateAnswerLink(v0, v1, v2, v2, es, name, excl, err);
    CreateEnds(v0, fs.V(), ino);
    PutAdds(es, slot, Ent(ino, name));
  }
}
