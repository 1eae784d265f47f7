/**
 The root directory as a table of entries: what its bytes mean, and what the
 rest of the volume owes to it (unique names, live targets, link counts).
 */
module SfsDirectory {
  import opened Bytes
  import opened SfsVolume
  import opened SfsIo

  const MAXENTS := 1144
  const NOINO := 0

  // ---------- entries in the byte image ----------

  function EntAt(image: seq<Byte>, s: nat): Ent
    requires DIRSIZE * s + DIRSIZE <= |image|
  {
    EntOf(image[DIRSIZE * s..DIRSIZE * s + DIRSIZE])
  }

  function Ents(image: seq<Byte>, n: nat): (es: seq<Ent>)
    requires DIRSIZE * n <= |image|
    ensures |es| == n
  {
    seq(n, s requires 0 <= s < n => EntAt(image, s))
  }

  // Writing slot s rewrites entry s, or appends it when s is one past the end.
  function PutEnt(es: seq<Ent>, s: nat, e: Ent): seq<Ent>
    requires s <= |es|
  {
    if s < |es| then es[s := e] else es + [e]
  }

  lemma SpliceOtherEnt(image: seq<Byte>, s: nat, bytes: seq<Byte>, r: nat)
    requires DIRSIZE * s + DIRSIZE <= |image| && |bytes| == DIRSIZE
    requires DIRSIZE * r + DIRSIZE <= |image|
    ensures EntAt(Splice(image, DIRSIZE * s, bytes), r) == if r == s then EntOf(bytes) else EntAt(image, r)
  {
    var image' := Splice(image, DIRSIZE * s, bytes);
    if r == s {
      assert image'[DIRSIZE * r..DIRSIZE * r + DIRSIZE] == bytes;
    } else {
      assert image'[DIRSIZE * r..DIRSIZE * r + DIRSIZE] == image[DIRSIZE * r..DIRSIZE * r + DIRSIZE];
    }
  }

  lemma SpliceEnts(image: seq<Byte>, n: nat, s: nat, bytes: seq<Byte>)
    requires s <= n && DIRSIZE * n <= |image| && DIRSIZE * s + DIRSIZE <= |image| && |bytes| == DIRSIZE
    ensures Ents(Splice(image, DIRSIZE * s, bytes), if s < n then n else n + 1) ==
            PutEnt(Ents(image, n), s, EntOf(bytes))
  {
    hide EntOf, EntAt, Splice;
    var n' := if s < n then n else n + 1;
    var image' := Splice(image, DIRSIZE * s, bytes);
    forall r | 0 <= r < n'
      ensures EntAt(image', r) == PutEnt(Ents(image, n), s, EntOf(bytes))[r]
    {
      SpliceOtherEnt(image, s, bytes, r);
    }
  }

  // ---------- link counts ----------

  function Count(es: seq<Ent>, i: nat): nat {
    if es == [] then 0
    else Count(es[..|es| - 1], i) + if es[|es| - 1].ino == i then 1 else 0
  }

  lemma {:induction false} CountBound(es: seq<Ent>, i: nat)
    ensures Count(es, i) <= |es|
  {
    if es != [] {
      CountBound(es[..|es| - 1], i);
    }
  }

  lemma {:induction false} CountPositive(es: seq<Ent>, i: nat, s: nat)
    requires s < |es| && es[s].ino == i
    ensures Count(es, i) > 0
  {
    if s < |es| - 1 {
      CountPositive(es[..|es| - 1], i, s);
    }
  }

  lemma {:induction false} CountNone(es: seq<Ent>, i: nat)
    requires forall s :: 0 <= s < |es| ==> es[s].ino != i
    ensures Count(es, i) == 0
  {
    if es != [] {
      CountNone(es[..|es| - 1], i);
    }
  }

  lemma {:induction false} CountUpdate(es: seq<Ent>, s: nat, e: Ent, i: nat)
    requires s < |es|
    ensures Count(es[s := e], i) + (if es[s].ino == i then 1 else 0) == Count(es, i) + if e.ino == i then 1 else 0
  {
    var last := |es| - 1;
    if s == last {
      assert es[s := e][..last] == es[..last];
    } else {
      assert es[s := e][..last] == es[..last][s := e];
      CountUpdate(es[..last], s, e, i);
    }
  }

  lemma CountPut(es: seq<Ent>, s: nat, e: Ent, i: nat)
    requires s <= |es|
    ensures Count(PutEnt(es, s, e), i) + (if s < |es| && es[s].ino == i then 1 else 0) ==
            Count(es, i) + if e.ino == i then 1 else 0
  {
    if s < |es| {
      CountUpdate(es, s, e, i);
    } else {
      assert (es + [e])[..|es|] == es;
    }
  }

  // ---------- what the volume owes to the directory ----------

  ghost predicate Kinds(files: Files) {
    && ROOT_LOCATION in files && NOINO !in files
    && files[ROOT_LOCATION].typ == TYPE_DIR
    && files[ROOT_LOCATION].size % DIRSIZE == 0 && files[ROOT_LOCATION].size <= FILEMAX
    && forall i :: i in files && i != ROOT_LOCATION ==> files[i].typ == TYPE_FILE
  }

  // Entries in use name different files by different names.
  ghost predicate NamesUnique(es: seq<Ent>) {
    forall s, r :: 0 <= s < r < |es| && es[s].ino != NOINO && es[r].ino != NOINO ==> es[s].name != es[r].name
  }

  ghost predicate TargetsLive(es: seq<Ent>, files: Files) {
    forall s :: 0 <= s < |es| && es[s].ino != NOINO ==> es[s].ino in files
  }

  // The root has one link of its own.
  function OwnLinks(i: nat): nat {
    if i == ROOT_LOCATION then 1 else 0
  }

  // Link counts equal directory entries, but for inode x, whose count is d
  // behind.
  ghost predicate LinksOff(files: Files, es: seq<Ent>, x: nat, d: int) {
    forall i :: i in files ==> files[i].links + (if i == x then d else 0) == Count(es, i) + OwnLinks(i)
  }

  // A file without links is alive only while it is loaded.
  ghost predicate Alive(files: Files, loaded: set<nat>) {
    forall i :: i in files ==> i in loaded || files[i].links > 0
  }

  function Slots(v: Vol): nat
    requires ROOT_LOCATION in v.files
  {
    v.files[ROOT_LOCATION].size / DIRSIZE
  }

  ghost function Dir(v: Vol): (es: seq<Ent>)
    requires Kinds(v.files) && |v.files[ROOT_LOCATION].bmap| == MAXBLOCKS
    ensures |es| == Slots(v)
  {
    Ents(Flat(v.Content(ROOT_LOCATION)), Slots(v))
  }

  ghost predicate DirOff(v: Vol, x: nat, d: int) {
    && Kinds(v.files) && |v.files[ROOT_LOCATION].bmap| == MAXBLOCKS
    && NamesUnique(Dir(v)) && TargetsLive(Dir(v), v.files)
    && LinksOff(v.files, Dir(v), x, d)
    && Alive(v.files, v.tab.Keys)
  }

  ghost predicate DirOk(v: Vol) {
    DirOff(v, 0, 0)
  }
}
