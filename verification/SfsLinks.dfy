/**
 How each operation's steps keep the directory and the link counts in step.
 */
module SfsLinks {
  import opened Bytes
  import opened SfsVolume
  import opened SfsSteps
  import opened SfsDirectory
  import opened SfsDirIo

  // v' has the same directory, types and link counts as v.
  ghost predicate SameDir(v: Vol, v': Vol) {
    && v'.files.Keys == v.files.Keys
    && (forall i :: i in v.files ==> v'.files[i].typ == v.files[i].typ && v'.files[i].links == v.files[i].links)
    && ROOT_LOCATION in v.files
    && v'.files[ROOT_LOCATION].size == v.files[ROOT_LOCATION].size
    && |v'.files[ROOT_LOCATION].bmap| == MAXBLOCKS
    && v'.Content(ROOT_LOCATION) == v.Content(ROOT_LOCATION)
  }

  lemma DirFrame(v: Vol, v': Vol, x: nat, d: int)
    requires DirOff(v, x, d) && SameDir(v, v') && Alive(v.files, v'.tab.Keys)
    ensures DirOff(v', x, d) && Dir(v') == Dir(v)
  {
    hide ContentOf, Flat, Ents, NamesUnique, Count;
  }

  // I/O on another file does not touch the directory.
  lemma OtherFileDir(v: Vol, v': Vol, ino: nat, x: nat, d: int)
    requires DirOff(v, x, d) && Evolves(v, v', ino) && ino != ROOT_LOCATION
    ensures DirOff(v', x, d) && Dir(v') == Dir(v)
  {
    hide ContentOf, Flat, Ents, NamesUnique, Count;
    DirFrame(v, v', x, d);
  }

  lemma SameEntries(v: Vol, v': Vol)
    requires DirOk(v) && DirBecomes(v, v', Dir(v))
    ensures DirOk(v')
  {
    hide ContentOf, Flat, Ents, NamesUnique, Count;
  }

  lemma PutNames(es: seq<Ent>, s: nat, e: Ent)
    requires NamesUnique(es) && s <= |es| && (e.ino == NOINO || !Used(es, e.name))
    ensures NamesUnique(PutEnt(es, s, e))
  {
    var es' := PutEnt(es, s, e);
    forall p, q | 0 <= p < q < |es'| && es'[p].ino != NOINO && es'[q].ino != NOINO
      ensures es'[p].name != es'[q].name
    {
      if p == s {
        assert es'[q] == es[q];
      } else if q == s {
        assert es'[p] == es[p];
      }
    }
  }

  // A new entry puts the link count of its target one behind.
  lemma LinkedDir(v: Vol, v': Vol, slot: nat, ino: Word, name: seq<Byte>)
    requires DirOk(v) && slot <= |Dir(v)| && ino in v.files && ino != NOINO
    requires slot < |Dir(v)| ==> Dir(v)[slot].ino == NOINO
    requires !Used(Dir(v), name)
    requires DirBecomes(v, v', PutEnt(Dir(v), slot, Ent(ino, name)))
    ensures DirOff(v', ino, 1)
  {
    hide ContentOf, Flat, Ents, NamesUnique, Count, Used;
    var es := Dir(v);
    PutNames(es, slot, Ent(ino, name));
    forall i | i in v.files
      ensures v'.files[i].links + (if i == ino then 1 else 0) == Count(Dir(v'), i) + OwnLinks(i)
    {
      CountPut(es, slot, Ent(ino, name), i);
    }
  }

  // Clearing an entry puts the link count of its target one ahead.
  lemma UnlinkedDir(v: Vol, v': Vol, slot: nat)
    requires DirOk(v) && slot < |Dir(v)| && Dir(v)[slot].ino != NOINO
    requires DirBecomes(v, v', Dir(v)[slot := Ent(NOINO, [])])
    ensures DirOff(v', Dir(v)[slot].ino, -1)
  {
    hide ContentOf, Flat, Ents, NamesUnique, Count, Used;
    var es := Dir(v);
    assert PutEnt(es, slot, Ent(NOINO, [])) == es[slot := Ent(NOINO, [])];
    PutNames(es, slot, Ent(NOINO, []));
    forall i | i in v.files
      ensures v'.files[i].links - (if i == es[slot].ino then 1 else 0) == Count(Dir(v'), i) + OwnLinks(i)
    {
      CountPut(es, slot, Ent(NOINO, []), i);
    }
  }

  // The 16-bit link count has room for every entry the directory can hold.
  lemma LinksBound(v: Vol, x: nat, d: int, i: nat)
    requires DirOff(v, x, d) && i in v.files
    ensures v.files[i].links + (if i == x then d else 0) <= MAXENTS + 1
  {
    CountBound(Dir(v), i);
  }

  // A file named by an entry has a link.
  lemma NamedHasLink(v: Vol, slot: nat)
    requires DirOk(v) && slot < |Dir(v)| && Dir(v)[slot].ino != NOINO
    ensures Dir(v)[slot].ino in v.files && v.files[Dir(v)[slot].ino].links > 0
  {
    CountPositive(Dir(v), Dir(v)[slot].ino, slot);
  }

  // Correcting the count of x settles the account.
  lemma SettleLinks(v: Vol, v': Vol, x: nat, d: int)
    requires DirOff(v, x, d) && x in v.files && x in v'.tab
    requires v'.files.Keys == v.files.Keys && v'.tab.Keys == v.tab.Keys
    requires forall i :: i in v.files && i != x ==> v'.files[i] == v.files[i]
    requires v'.files[x] == v.files[x].(links := v'.files[x].links) && v'.files[x].links == v.files[x].links + d
    requires v'.disk == v.disk
    ensures DirOk(v') && Dir(v') == Dir(v)
  {
    hide Flat, Ents, NamesUnique, Count;
    assert v'.Content(ROOT_LOCATION) == v.Content(ROOT_LOCATION);
  }
}
