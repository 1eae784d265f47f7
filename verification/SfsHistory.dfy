/**
 What holds over any history of an SFS volume, in the terms of its callers:
 names stand until they are touched, files keep their bytes until they are
 written or cut, and what was written is what is read.
 */
module SfsHistory {
  import opened Bytes
  import opened Errno
  import opened SfsVolume
  import opened SfsSteps
  import opened SfsSpace
  import opened SfsFs
  import opened SfsIo
  import opened SfsTruncate
  import opened SfsVnodes
  import opened SfsDirectory
  import opened SfsDirIo
  import opened SfsLinks
  import opened SfsOps
  import opened SfsRuns

  // The operation is given this name.
  predicate Touches(op: Op, name: seq<Byte>) {
    match op
    case Create(n, _) => n == name
    case Link(n, _) => n == name
    case Unlink(n) => n == name
    case Move(from, to) => from == name || to == name
    case _ => false
  }

  // The operation changes the bytes or the size of file f.
  predicate Changes(op: Op, f: Word) {
    match op
    case Write(ino, _, _) => ino == f
    case Cut(ino, _) => ino == f
    case _ => false
  }

  // Name n stands for file f in the directory of v.
  ghost predicate Names(v: Vol, n: seq<Byte>, f: Word)
    requires InOrder(v)
  {
    Bound(Dir(v), n, f)
  }

  // ---------- names, one operation ----------

  lemma NameKept(v: Vol, op: Op, v': Vol, r: Reply, n: seq<Byte>, f: Word)
    requires Goes(v, op, v', r) && !Touches(op, n)
    ensures Names(v, n, f) <==> Names(v', n, f)
  {
    hide Vol.Inv, DirOff, Ents, PickedUp, Created, CameToNothing, Visited, LinksMoved, LinkAnswer, CreatAnswer,
      LinkResult, Performed, Finished, Span, Truncated, Others, Reclaimed, Bound, Used;
    DirDefined(v);
    DirDefined(v');
    if Allowed(v, op) {
      match op {
        case Unlink(name) =>
          if r.err == OK {
            var x: Word :| Unlinked(v, Dir(v), name, v', Dir(v'), x);
          }
        case Move(from, to) =>
          if r.err != ENOENT {
            var x: Word :| Moved(v, Dir(v), from, to, v', Dir(v'), x, r.err);
          }
        case _ =>
      }
    }
  }

  // A name stands for one file.
  lemma NameOnce(v: Vol, n: seq<Byte>, f: Word, g: Word)
    requires InOrder(v) && Names(v, n, f) && Names(v, n, g)
    ensures f == g
  {
    hide Vol.Inv, ContentOf, Flat, Ents;
    DirNames(v);
    var s :| 0 <= s < |Dir(v)| && Dir(v)[s].ino == f && Dir(v)[s].name == n;
    var t :| 0 <= t < |Dir(v)| && Dir(v)[t].ino == g && Dir(v)[t].name == n;
    assert s == t;
  }

  // A file with a name is there and linked.
  lemma NamedThere(v: Vol, n: seq<Byte>, f: Word)
    requires InOrder(v) && Names(v, n, f)
    ensures f in v.files && v.files[f].links > 0 && Used(Dir(v), n)
  {
    hide Vol.Inv, ContentOf, Flat, Ents, DirOff;
    DirDefined(v);
    var s :| 0 <= s < |Dir(v)| && Dir(v)[s].ino == f && Dir(v)[s].name == n;
    NamedHasLink(v, s);
  }

  // ---------- files, one operation ----------

  ghost predicate SameFile(v: Vol, v': Vol, f: nat) {
    f in v.files && f in v'.files && v'.files[f].size == v.files[f].size && v'.Content(f) == v.Content(f)
  }

  lemma SameByOthers(v: Vol, v': Vol, x: nat, f: nat)
    requires Others(v, v', x) && f != x && f in v.files && f != ROOT_LOCATION
    ensures SameFile(v, v', f)
  {
    hide ContentOf;
  }

  lemma SameByPickedUp(v: Vol, v': Vol, x: nat, f: nat)
    requires PickedUp(v, v', x) && f in v.files
    ensures SameFile(v, v', f)
  {
    hide ContentOf;
  }

  lemma SameByLinks(v: Vol, v': Vol, x: nat, d: int, f: nat)
    requires LinksMoved(v, v', x, d) && f in v.files && f != ROOT_LOCATION
    ensures SameFile(v, v', f)
  {
    hide ContentOf;
  }

  // f still has a name, so it was not given up.
  lemma SameByVisit(v: Vol, v': Vol, x: nat, d: int, f: nat)
    requires Visited(v, v', x, d) && f in v.files && f in v'.files && f != ROOT_LOCATION && v.files[f].links + d >= 0
    ensures SameFile(v, v', f)
  {
    hide ContentOf, BelongsTo;
  }

  lemma SameByCreated(v: Vol, v': Vol, x: nat, f: nat)
    requires Created(v, v', x) && f in v.files && f != ROOT_LOCATION
    ensures SameFile(v, v', f)
  {
    hide Others;
    SameByOthers(v, v', x, f);
  }

  lemma SameByNothing(v: Vol, v': Vol, f: nat)
    requires CameToNothing(v, v') && f in v.files && f != ROOT_LOCATION
    ensures SameFile(v, v', f)
  {
    hide Others, Conserves;
    var x :| x !in v.files && Others(v, v', x);
    SameByOthers(v, v', x, f);
  }

  lemma SameByRelease(v: Vol, es: seq<Ent>, ino: nat, v': Vol, es': seq<Ent>, r: Reply, f: nat)
    requires v.Inv() && DidRelease(v, es, ino, v', es', r) && f in v.files && f != ROOT_LOCATION && v.files[f].links > 0
    ensures SameFile(v, v', f)
  {
    hide ContentOf, Others, BelongsTo, Vol.Inv;
    if f != ino {
      SameByOthers(v, v', ino, f);
    } else {
      LoadedFacts(v, ino);
    }
  }

  lemma SameByName(v: Vol, es: seq<Ent>, op: Op, v': Vol, es': seq<Ent>, r: Reply, f: nat)
    requires op.LookUp? || op.Create? || op.Link? || op.Unlink? || op.Move?
    requires Did(v, es, op, v', es', r) && f in v.files && f in v'.files && f != ROOT_LOCATION && v.files[f].links > 0
    ensures SameFile(v, v', f)
  {
    hide PickedUp, Created, CameToNothing, Visited, LinksMoved, LinkAnswer, CreatAnswer, LinkResult, SameFile, Bound,
      NameAdded, NameRemoved, NameChanged, Used;
    match op {
      case LookUp(name) =>
        if r.err == OK { SameByPickedUp(v, v', r.ino, f); } else { SameSelf(v, f); }
      case Create(name, excl) =>
        if r.err != OK {
          SameByNothing(v, v', f);
        } else if Used(es, name) {
          SameByPickedUp(v, v', r.ino, f);
        } else {
          SameByCreated(v, v', r.ino, f);
        }
      case Link(name, ino) => SameByLinks(v, v', ino, if r.err == OK then 1 else 0, f);
      case Unlink(name) =>
        if r.err == OK {
          var x: Word :| Unlinked(v, es, name, v', es', x);
          SameByVisit(v, v', x, -1, f);
        } else {
          SameSelf(v, f);
        }
      case Move(from, to) =>
        if r.err != ENOENT {
          var x: Word :| Moved(v, es, from, to, v', es', x, r.err);
          SameByVisit(v, v', x, 0, f);
        } else {
          SameSelf(v, f);
        }
    }
  }

  lemma SameSelf(v: Vol, f: nat)
    requires f in v.files
    ensures SameFile(v, v, f)
  {}

  // A file that has a name before and after keeps its bytes and its size
  // through an operation that is not a write or a truncation of it.
  lemma FileKept(v: Vol, op: Op, v': Vol, r: Reply, n: seq<Byte>, f: Word)
    requires Goes(v, op, v', r) && Names(v, n, f) && Names(v', n, f) && f != ROOT_LOCATION && !Changes(op, f)
    ensures SameFile(v, v', f)
  {
    hide Vol.Inv, DirOff, Ents, PickedUp, Others, Performed, Finished, Span, Truncated, SameFile, Bound, Reclaimed,
      DidLookUp, DidCreate, DidLink, DidUnlink, DidMove, SameContent;
    DirDefined(v);
    DirDefined(v');
    NamedThere(v, n, f);
    NamedThere(v', n, f);
    if !Allowed(v, op) {
      SameSelf(v, f);
      return;
    }
    match op {
      case GetRoot => SameByPickedUp(v, v', ROOT_LOCATION, f);
      case Read(_, _, _) => SameSelf(v, f);
      case Write(ino, _, _) => SameByOthers(v, v', ino, f);
      case Cut(ino, _) => SameByOthers(v, v', ino, f);
      case Flush(ino) => SameByFlush(v, v', f);
      case Release(ino) => SameByRelease(v, Dir(v), ino, v', Dir(v'), r, f);
      case _ => SameByName(v, Dir(v), op, v', Dir(v'), r, f);
    }
  }

  lemma SameByFlush(v: Vol, v': Vol, f: nat)
    requires v'.files == v.files && SameContent(v, v') && f in v.files
    ensures SameFile(v, v', f)
  {
    hide ContentOf;
  }

  // ---------- over a history ----------

  // No operation from i up to k is given name n.
  predicate Untouched(ops: seq<Op>, i: nat, k: nat, n: seq<Byte>) {
    forall j :: i <= j < k && j < |ops| ==> !Touches(ops[j], n)
  }

  predicate Unchanged(ops: seq<Op>, i: nat, k: nat, f: Word) {
    forall j :: i <= j < k && j < |ops| ==> !Changes(ops[j], f)
  }

  lemma {:induction false} NameStands(trace: seq<Vol>, ops: seq<Op>, rs: seq<Reply>, i: nat, k: nat, n: seq<Byte>,
                                      f: Word)
    requires IsHistory(trace, ops, rs) && i <= k < |trace| && Untouched(ops, i, k, n)
    ensures Names(trace[i], n, f) <==> Names(trace[k], n, f)
    decreases k
  {
    hide InOrder, Goes, Names;
    if i < k {
      NameStands(trace, ops, rs, i, k - 1, n, f);
      assert GoesAt(trace, ops, rs, k - 1);
      NameKept(trace[k - 1], ops[k - 1], trace[k], rs[k - 1], n, f);
    }
  }

  lemma {:induction false} FileStands(trace: seq<Vol>, ops: seq<Op>, rs: seq<Reply>, i: nat, k: nat, n: seq<Byte>,
                                      f: Word)
    requires IsHistory(trace, ops, rs) && i <= k < |trace| && Untouched(ops, i, k, n) && Unchanged(ops, i, k, f)
    requires Names(trace[i], n, f) && f != ROOT_LOCATION
    ensures Names(trace[k], n, f) && SameFile(trace[i], trace[k], f)
    decreases k
  {
    hide InOrder, Goes, Names, SameFile;
    if i < k {
      FileStands(trace, ops, rs, i, k - 1, n, f);
      NameStands(trace, ops, rs, i, k, n, f);
      assert GoesAt(trace, ops, rs, k - 1);
      FileKept(trace[k - 1], ops[k - 1], trace[k], rs[k - 1], n, f);
      SameTwice(trace[i], trace[k - 1], trace[k], f);
    } else {
      NamedThere(trace[i], n, f);
      SameSelf(trace[i], f);
    }
  }

  lemma SameTwice(a: Vol, b: Vol, c: Vol, f: nat)
    requires SameFile(a, b, f) && SameFile(b, c, f)
    ensures SameFile(a, c, f)
  {}

  // ---------- laws ----------

  // A lookup finds the file its name stands for, and nothing else.
  lemma LookUpFinds(trace: seq<Vol>, ops: seq<Op>, rs: seq<Reply>, k: nat, n: seq<Byte>, f: Word)
    requires IsHistory(trace, ops, rs) && k < |ops| && ops[k] == LookUp(n) && Allowed(trace[k], ops[k])
    ensures rs[k].err == OK && rs[k].ino == f <==> Names(trace[k], n, f)
    ensures rs[k].err == ENOENT <==> forall g: Word :: !Names(trace[k], n, g)
  {
    hide Vol.Inv, DirOff, Ents, PickedUp;
    assert GoesAt(trace, ops, rs, k);
    DirDefined(trace[k]);
    var es := Dir(trace[k]);
    if rs[k].err == OK {
      assert Names(trace[k], n, rs[k].ino);
      if Names(trace[k], n, f) { NameOnce(trace[k], n, f, rs[k].ino); }
    } else {
      assert !Used(es, n);
      forall g: Word ensures !Names(trace[k], n, g) {
        if Names(trace[k], n, g) { NamedThere(trace[k], n, g); }
      }
    }
  }

  // A file created as a and renamed to b is, as long as no operation is given
  // either name, what b stands for; a stands for nothing; and its bytes are
  // those at the time of the renaming until it is written or cut.
  lemma CreateThenMove(trace: seq<Vol>, ops: seq<Op>, rs: seq<Reply>, i: nat, j: nat, k: nat,
                       a: seq<Byte>, b: seq<Byte>, excl: bool)
    requires IsHistory(trace, ops, rs) && i < j < k < |trace|
    requires ops[i] == Create(a, excl) && Allowed(trace[i], ops[i]) && rs[i].err == OK
    requires ops[j] == Move(a, b) && Allowed(trace[j], ops[j]) && rs[j].err == OK && Untouched(ops, i + 1, j, a)
    requires Untouched(ops, j + 1, k, a) && Untouched(ops, j + 1, k, b)
    ensures Names(trace[k], b, rs[i].ino) && forall g: Word :: !Names(trace[k], a, g)
    ensures Unchanged(ops, j, k, rs[i].ino) ==> SameFile(trace[j], trace[k], rs[i].ino)
  {
    hide InOrder, Goes, Names, SameFile, Allowed;
    var f := rs[i].ino;
    assert GoesAt(trace, ops, rs, i) && GoesAt(trace, ops, rs, j);
    CreateNames(trace[i], a, excl, trace[i + 1], rs[i]);
    NameStands(trace, ops, rs, i + 1, j, a, f);
    MoveNames(trace[j], a, b, trace[j + 1], rs[j], f);
    NameStands(trace, ops, rs, j + 1, k, b, f);
    forall g: Word ensures !Names(trace[k], a, g) {
      NameStands(trace, ops, rs, j + 1, k, a, g);
    }
    if Unchanged(ops, j, k, f) {
      MoveKeeps(trace[j], a, b, trace[j + 1], rs[j], f);
      FileStands(trace, ops, rs, j + 1, k, b, f);
      SameTwice(trace[j], trace[j + 1], trace[k], f);
    }
  }

  lemma CreateNames(v: Vol, a: seq<Byte>, excl: bool, v': Vol, r: Reply)
    requires InOrder(v) && InOrder(v') && Goes(v, Create(a, excl), v', r) && Allowed(v, Create(a, excl)) && r.err == OK
    ensures Names(v', a, r.ino)
  {
    hide Vol.Inv, DirOff, Ents, PickedUp, Created, CreatAnswer, Bound, Used, CameToNothing;
  }

  // The renamed file is no directory, has the new name, and the old one is free.
  lemma MoveNames(v: Vol, a: seq<Byte>, b: seq<Byte>, v': Vol, r: Reply, f: Word)
    requires InOrder(v) && InOrder(v') && Goes(v, Move(a, b), v', r) && Allowed(v, Move(a, b)) && r.err == OK
    requires Names(v, a, f)
    ensures Names(v', b, f) && f != ROOT_LOCATION && a != b && forall g: Word :: !Names(v', a, g)
  {
    hide Vol.Inv, DirOff, Ents, Visited, Bound, LinkSlot;
    DirDefined(v);
    DirDefined(v');
    var x: Word :| Moved(v, Dir(v), a, b, v', Dir(v'), x, r.err);
    NameOnce(v, a, f, x);
    NamedThere(v, a, f);
    LinkErrors(v.files[ROOT_LOCATION], Free(v.bits), Dir(v), b);
    assert a != b;
    forall g: Word ensures !Names(v', a, g) {
      if Names(v', a, g) {
        assert Bound(Dir(v), a, g);
        NameOnce(v, a, f, g);
      }
    }
  }

  lemma MoveKeeps(v: Vol, a: seq<Byte>, b: seq<Byte>, v': Vol, r: Reply, f: Word)
    requires InOrder(v) && InOrder(v') && Goes(v, Move(a, b), v', r) && Allowed(v, Move(a, b)) && r.err == OK
    requires Names(v, a, f) && Names(v', b, f) && f != ROOT_LOCATION
    ensures SameFile(v, v', f)
  {
    hide Vol.Inv, DirOff, Ents, Visited, Bound, DidMove, SameFile;
    DirDefined(v);
    DirDefined(v');
    NamedThere(v, a, f);
    NamedThere(v', b, f);
    SameByName(v, Dir(v), Move(a, b), v', Dir(v'), r, f);
  }

  // A name that was removed stands for nothing until an operation is given it.
  lemma UnlinkUnnames(trace: seq<Vol>, ops: seq<Op>, rs: seq<Reply>, i: nat, k: nat, n: seq<Byte>, g: Word)
    requires IsHistory(trace, ops, rs) && i < k < |trace|
    requires ops[i] == Unlink(n) && Allowed(trace[i], ops[i]) && Untouched(ops, i + 1, k, n)
    ensures !Names(trace[k], n, g)
  {
    hide Vol.Inv, DirOff, Ents, Visited;
    assert GoesAt(trace, ops, rs, i);
    DirDefined(trace[i]);
    DirDefined(trace[i + 1]);
    NameStands(trace, ops, rs, i + 1, k, n, g);
    if Names(trace[i + 1], n, g) {
      if rs[i].err == OK {
        var x: Word :| Unlinked(trace[i], Dir(trace[i]), n, trace[i + 1], Dir(trace[i + 1]), x);
        NameOnce(trace[i], n, g, x);
      } else {
        NamedThere(trace[i], n, g);
      }
    }
  }

  // After a link both names stand for the file, each until it is touched.
  lemma LinkAddsName(trace: seq<Vol>, ops: seq<Op>, rs: seq<Reply>, i: nat, k: nat, a: seq<Byte>, b: seq<Byte>, f: Word)
    requires IsHistory(trace, ops, rs) && i < k < |trace|
    requires ops[i] == Link(b, f) && Allowed(trace[i], ops[i]) && rs[i].err == OK && Names(trace[i], a, f)
    ensures Untouched(ops, i + 1, k, a) ==> Names(trace[k], a, f)
    ensures Untouched(ops, i + 1, k, b) ==> Names(trace[k], b, f)
  {
    hide Vol.Inv, DirOff, Ents, LinksMoved, LinkAnswer, Bound;
    assert GoesAt(trace, ops, rs, i);
    if Untouched(ops, i + 1, k, a) { NameStands(trace, ops, rs, i + 1, k, a, f); }
    if Untouched(ops, i + 1, k, b) { NameStands(trace, ops, rs, i + 1, k, b, f); }
  }

  // What was written to a file is what a later read of the same bytes
  // returns, if the file kept a name and was not written or cut meanwhile.
  lemma WriteThenRead(trace: seq<Vol>, ops: seq<Op>, rs: seq<Reply>, i: nat, k: nat, n: seq<Byte>, f: Word, o: nat,
                      data: seq<Byte>)
    requires IsHistory(trace, ops, rs) && i < k < |ops|
    requires ops[i] == Write(f, o, data) && Allowed(trace[i], ops[i]) && rs[i].err == OK
    requires ops[k] == Read(f, o, |data|) && Allowed(trace[k], ops[k])
    requires Names(trace[i + 1], n, f) && Untouched(ops, i + 1, k, n) && Unchanged(ops, i + 1, k, f)
    ensures rs[k].err == OK && rs[k].count == |data| && rs[k].data == data
  {
    hide InOrder, Goes, Names, SameFile;
    assert GoesAt(trace, ops, rs, i) && GoesAt(trace, ops, rs, k);
    FileStands(trace, ops, rs, i + 1, k, n, f);
    WroteThenReads(trace[i], trace[i + 1], trace[k], trace[k + 1], f, o, data, rs[i], rs[k]);
  }

  lemma WroteThenReads(v: Vol, v1: Vol, v2: Vol, v3: Vol, f: Word, o: nat, data: seq<Byte>, r1: Reply, r2: Reply)
    requires Goes(v, Write(f, o, data), v1, r1) && Allowed(v, Write(f, o, data)) && r1.err == OK
    requires SameFile(v1, v2, f) && Goes(v2, Read(f, o, |data|), v3, r2) && Allowed(v2, Read(f, o, |data|))
    ensures r2.err == OK && r2.count == |data| && r2.data == data
  {
    hide Vol.Inv, DirOff, Ents, ContentOf, Flat, Splice, Others, Finished, Dir;
    hide IoResult;
    var n := |data|;
    FinishedResult(v, v1, f, true, o, n, r1.err);
    FinishedResult(v2, v3, f, false, o, n, r2.err);
    var image, image1 := Flat(v.Content(f)), Flat(v1.Content(f));
    assert r1.count == n;
    if n > 0 {
      assert data[0..0 + n] == data;
      SpliceMiddle(image, o, data);
      assert image1[o..o + n] == data;
    }
    if n == 0 {
      EmptyAnswers(v.files[f], v2.files[f], Free(v.bits), Free(v2.bits), o);
    }
    SpliceWhole(Zeros(n), data);
  }

  lemma FinishedResult(v: Vol, v': Vol, f: nat, write: bool, o: nat, n: nat, err: Err)
    requires Finished(v, v', f, write, o, n, err)
    ensures f in v.files && |v.files[f].bmap| == MAXBLOCKS && err == IoResult(v.files[f], Free(v.bits), write, o, n)
  {}

  // A request for no bytes fails in the same place read or written.
  lemma EmptyAnswers(f: File, g: File, free1: nat, free2: nat, o: nat)
    requires |f.bmap| == MAXBLOCKS && |g.bmap| == MAXBLOCKS && IoResult(f, free1, true, o, 0) == OK
    ensures IoResult(g, free2, false, o, 0) == OK
  {
    hide Need;
  }

  lemma SpliceMiddle(s: seq<Byte>, o: nat, d: seq<Byte>)
    requires o + |d| <= |s|
    ensures Splice(s, o, d)[o..o + |d|] == d
  {}
}
