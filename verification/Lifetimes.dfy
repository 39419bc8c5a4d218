/**
 * Connections, blob handles and backups as the C interface hands them out. A
 * pointer is a number; what is allocated is what the maps hold, so a pointer
 * dangles when its number is in no map.
 */
module Lifetimes {
  import opened Options

  datatype Backing = File | Ephemeral | NamedMemory(path: string)

  datatype Connection = Connection(
    blobs: set<nat>, backups: set<nat>, zombie: bool, txn: bool, readonly: bool, backing: Backing)

  /** What happens to the file behind a name: started from empty, or removed. */
  datatype FileEvent = Emptied(path: string) | Removed(path: string)

  datatype Backup = Backup(dst: nat, srcMain: Option<nat>)

  datatype Process = Process(
    conns: map<nat, Connection>,
    blobs: map<nat, nat>,
    backups: map<nat, Backup>,
    named: map<string, nat>,
    freed: seq<nat>,
    events: seq<FileEvent>)

  datatype Code = OK | ERROR | BUSY | READONLY

  const START := Process(map[], map[], map[], map[], [], [])

  // ---- the count behind a name --------------------------------------------

  function Count(named: map<string, nat>, path: string): nat {
    if path in named then named[path] else 0
  }

  function Acquired(named: map<string, nat>, path: string): map<string, nat> {
    named[path := Count(named, path) + 1]
  }

  function Released(named: map<string, nat>, path: string): map<string, nat> {
    if Count(named, path) > 1 then named[path := Count(named, path) - 1] else named - {path}
  }

  class NamedCounts {
    var named: map<string, nat>

    constructor ()
      ensures named == map[]
    {
      named := map[];
    }

    method Acquire(path: string) returns (first: bool)
      modifies this
      ensures named == Acquired(old(named), path)
      ensures first <==> Count(named, path) == 1
    {
      if path !in named {
        named := named[path := 0];
      }
      named := named[path := named[path] + 1];
      first := named[path] == 1;
    }

    method Release(path: string) returns (last: bool)
      modifies this
      ensures named == Released(old(named), path)
      ensures last <==> path in old(named) && Count(named, path) == 0
    {
      if path in named && named[path] > 1 {
        named := named[path := named[path] - 1];
        return false;
      }
      last := path in named;
      named := named - {path};
    }
  }

  // ---- operations ---------------------------------------------------------

  /** A connection lets go of its backing: the last one out removes a named database. */
  function LetGo(p: Process, backing: Backing): Process {
    if !backing.NamedMemory? then p
    else p.(named := Released(p.named, backing.path),
            events := if Count(p.named, backing.path) == 1 then p.events + [Removed(backing.path)] else p.events)
  }

  function Freed(p: Process, c: nat): Process
    requires c in p.conns
  {
    LetGo(p.(conns := p.conns - {c}, freed := p.freed + [c]), p.conns[c].backing)
  }

  /** A failed open gives its count back and removes nothing. */
  function Opened(p: Process, c: nat, backing: Backing, readonly: bool, ok: bool): Process {
    var q := if !backing.NamedMemory? then p
             else p.(named := Acquired(p.named, backing.path),
                     events := if Count(p.named, backing.path) == 0 then p.events + [Emptied(backing.path)] else p.events);
    if ok then q.(conns := q.conns[c := Connection({}, {}, false, false, readonly, backing)])
    else if backing.NamedMemory? then q.(named := Released(q.named, backing.path))
    else q
  }

  function Closed(p: Process, c: nat, v2: bool): (Process, Code)
    requires c in p.conns
  {
    var conn := p.conns[c];
    if conn.backups != {} then (p, BUSY)
    else if conn.blobs != {} then
      if !v2 then (p, BUSY)
      else (p.(conns := p.conns[c := conn.(txn := false, zombie := true)]), OK)
    else (Freed(p, c), OK)
  }

  function BlobOpened(p: Process, b: nat, c: nat, ok: bool): (Process, Code)
    requires c in p.conns
  {
    if !ok then (p, ERROR)
    else (p.(blobs := p.blobs[b := c], conns := p.conns[c := p.conns[c].(blobs := p.conns[c].blobs + {b})]), OK)
  }

  /** Closing the last handle of a zombie frees the connection. */
  function BlobClosed(p: Process, b: nat): Process
    requires b in p.blobs && p.blobs[b] in p.conns
  {
    var c := p.blobs[b];
    var conn := p.conns[c].(blobs := p.conns[c].blobs - {b});
    var q := p.(blobs := p.blobs - {b}, conns := p.conns[c := conn]);
    if conn.zombie && conn.blobs == {} then Freed(q, c) else q
  }

  /** `main` says that the source schema is the source connection's own file; `ok` that the capture works. */
  function BackupStarted(p: Process, k: nat, dst: nat, src: nat, main: bool, ok: bool): (Process, Code)
    requires dst in p.conns && src in p.conns
  {
    var d := p.conns[dst];
    if src == dst then (p, ERROR)
    else if d.readonly then (p, READONLY)
    else if d.txn || d.blobs != {} then (p, ERROR)
    else if p.conns[src].txn then (p, BUSY)
    else if !ok then (p, ERROR)
    else (p.(backups := p.backups[k := Backup(dst, if main then Some(src) else None)],
             conns := p.conns[dst := d.(backups := d.backups + {k})]), OK)
  }

  function BackupFinished(p: Process, k: nat): Process
    requires k in p.backups && p.backups[k].dst in p.conns
  {
    var dst := p.backups[k].dst;
    p.(backups := p.backups - {k}, conns := p.conns[dst := p.conns[dst].(backups := p.conns[dst].backups - {k})])
  }

  /** The connection moves to a new ephemeral file and lets go of its old backing. */
  function Deserialized(p: Process, c: nat, ok: bool): (Process, Code)
    requires c in p.conns
  {
    var conn := p.conns[c];
    if conn.txn || conn.blobs != {} || conn.backups != {} then (p, BUSY)
    else if !ok then (p, ERROR)
    else (LetGo(p.(conns := p.conns[c := conn.(backing := Ephemeral)]), conn.backing), OK)
  }

  // ---- runs ---------------------------------------------------------------

  datatype Step =
    | Open(c: nat, backing: Backing, readonly: bool, ok: bool)
    | Close(c: nat, v2: bool)
    | OpenBlob(b: nat, c: nat, ok: bool)
    | CloseBlob(b: nat)
    | StartBackup(k: nat, dst: nat, src: nat, main: bool, ok: bool)
    | FinishBackup(k: nat)
    | Deserialize(c: nat, ok: bool)
    | Transact(c: nat, active: bool)

  /** Callers pass only pointers that are allocated; a new pointer is none that was ever used for a connection. */
  predicate Enabled(p: Process, step: Step) {
    match step
    case Open(c, _, _, _) => c !in p.conns && c !in p.freed
    case Close(c, _) => c in p.conns
    case OpenBlob(b, c, _) => b !in p.blobs && c in p.conns
    case CloseBlob(b) => b in p.blobs
    case StartBackup(k, dst, src, _, _) => k !in p.backups && dst in p.conns && src in p.conns
    case FinishBackup(k) => k in p.backups
    case Deserialize(c, _) => c in p.conns
    case Transact(c, _) => c in p.conns
  }

  function Next(p: Process, step: Step): Process
    requires Linked(p) && Enabled(p, step)
  {
    match step
    case Open(c, backing, readonly, ok) => Opened(p, c, backing, readonly, ok)
    case Close(c, v2) => Closed(p, c, v2).0
    case OpenBlob(b, c, ok) => BlobOpened(p, b, c, ok).0
    case CloseBlob(b) => BlobClosed(p, b)
    case StartBackup(k, dst, src, main, ok) => BackupStarted(p, k, dst, src, main, ok).0
    case FinishBackup(k) => BackupFinished(p, k)
    case Deserialize(c, ok) => Deserialized(p, c, ok).0
    case Transact(c, active) => p.(conns := p.conns[c := p.conns[c].(txn := active)])
  }

  // ---- invariant ----------------------------------------------------------

  /** Back-pointers and the connections' lists say the same, and point at allocated connections. */
  predicate Linked(p: Process) {
    BlobsLinked(p) && BackupsLinked(p)
  }

  predicate BlobsLinked(p: Process) {
    && (forall b :: b in p.blobs ==> p.blobs[b] in p.conns && b in p.conns[p.blobs[b]].blobs)
    && (forall c, b :: c in p.conns && b in p.conns[c].blobs ==> b in p.blobs && p.blobs[b] == c)
  }

  predicate BackupsLinked(p: Process) {
    && (forall k :: k in p.backups ==> p.backups[k].dst in p.conns && k in p.conns[p.backups[k].dst].backups)
    && (forall c, k :: c in p.conns && k in p.conns[c].backups ==> k in p.backups && p.backups[k].dst == c)
  }

  predicate ZombieOk(conn: Connection) {
    conn.zombie ==> conn.blobs != {} && conn.backups == {}
  }

  /** A closed connection lives on only for its blob handles. */
  predicate Zombies(p: Process) {
    forall c :: c in p.conns ==> ZombieOk(p.conns[c])
  }

  predicate FreedOnce(p: Process) {
    && (forall i :: 0 <= i < |p.freed| ==> p.freed[i] !in p.conns)
    && (forall i, j :: 0 <= i < j < |p.freed| ==> p.freed[i] != p.freed[j])
  }

  function Users(p: Process, path: string): set<nat> {
    set c | c in p.conns && p.conns[c].backing == NamedMemory(path)
  }

  /** A name's count is the number of allocated connections backed by it. */
  ghost predicate Counted(p: Process) {
    && (forall path :: Count(p.named, path) == |Users(p, path)|)
    && (forall path :: path in p.named ==> p.named[path] > 0)
  }

  ghost predicate Inv(p: Process) {
    Linked(p) && Zombies(p) && FreedOnce(p) && Counted(p)
  }

  /** A connection is freed only with no blob handles and no backups left. */
  lemma FreeKeepsLinks(p: Process, c: nat)
    requires Linked(p) && c in p.conns && p.conns[c].blobs == {} && p.conns[c].backups == {}
    requires forall d :: d in p.conns && d != c ==> ZombieOk(p.conns[d])
    ensures Linked(Freed(p, c)) && Zombies(Freed(p, c))
  {
  }

  lemma CloseKeepsLinks(p: Process, c: nat, v2: bool)
    requires Linked(p) && Zombies(p) && c in p.conns
    ensures Linked(Closed(p, c, v2).0) && Zombies(Closed(p, c, v2).0)
  {
    if p.conns[c].backups == {} && p.conns[c].blobs == {} {
      FreeKeepsLinks(p, c);
    }
  }

  lemma OpenBlobKeepsLinks(p: Process, b: nat, c: nat, ok: bool)
    requires Linked(p) && Zombies(p) && b !in p.blobs && c in p.conns
    ensures Linked(BlobOpened(p, b, c, ok).0) && Zombies(BlobOpened(p, b, c, ok).0)
  {
  }

  lemma CloseBlobKeepsLinks(p: Process, b: nat)
    requires Linked(p) && Zombies(p) && b in p.blobs
    ensures Linked(BlobClosed(p, b)) && Zombies(BlobClosed(p, b))
  {
    var c := p.blobs[b];
    var conn := p.conns[c].(blobs := p.conns[c].blobs - {b});
    var q := p.(blobs := p.blobs - {b}, conns := p.conns[c := conn]);
    assert ZombieOk(p.conns[c]);
    assert BlobsLinked(q);
    assert BackupsLinked(q);
    if conn.zombie && conn.blobs == {} {
      FreeKeepsLinks(q, c);
    }
  }

  lemma StartBackupKeepsLinks(p: Process, k: nat, dst: nat, src: nat, main: bool, ok: bool)
    requires Linked(p) && Zombies(p) && k !in p.backups && dst in p.conns && src in p.conns
    ensures Linked(BackupStarted(p, k, dst, src, main, ok).0) && Zombies(BackupStarted(p, k, dst, src, main, ok).0)
  {
    assert ZombieOk(p.conns[dst]);
    var q := BackupStarted(p, k, dst, src, main, ok).0;
    if q != p {
      BlobsStayLinked(p, q);
      BackupAdded(p, k, Backup(dst, if main then Some(src) else None));
    }
  }

  lemma BlobsStayLinked(p: Process, q: Process)
    requires BlobsLinked(p) && q.blobs == p.blobs && q.conns.Keys == p.conns.Keys
    requires forall c :: c in p.conns ==> q.conns[c].blobs == p.conns[c].blobs
    ensures BlobsLinked(q)
  {
  }

  lemma BackupAdded(p: Process, k: nat, b: Backup)
    requires BackupsLinked(p) && k !in p.backups && b.dst in p.conns
    ensures BackupsLinked(p.(backups := p.backups[k := b],
                             conns := p.conns[b.dst := p.conns[b.dst].(backups := p.conns[b.dst].backups + {k})]))
  {
  }

  lemma FinishBackupKeepsLinks(p: Process, k: nat)
    requires Linked(p) && Zombies(p) && k in p.backups
    ensures Linked(BackupFinished(p, k)) && Zombies(BackupFinished(p, k))
  {
    assert ZombieOk(p.conns[p.backups[k].dst]);
  }

  /** Connections with the same handles and backups as before keep every link. */
  lemma SameListsKeepLinks(p: Process, q: Process)
    requires Linked(p) && Zombies(p) && q.blobs == p.blobs && q.backups == p.backups
    requires forall c :: c in p.conns ==> c in q.conns && q.conns[c].blobs == p.conns[c].blobs
                                          && q.conns[c].backups == p.conns[c].backups
                                          && q.conns[c].zombie == p.conns[c].zombie
    requires forall c :: c in q.conns && c !in p.conns ==>
               q.conns[c].blobs == {} && q.conns[c].backups == {} && !q.conns[c].zombie
    ensures Linked(q) && Zombies(q)
  {
    forall c | c in q.conns
      ensures ZombieOk(q.conns[c])
    {
      assert c in p.conns ==> ZombieOk(p.conns[c]);
    }
  }

  lemma OpenKeepsLinks(p: Process, c: nat, backing: Backing, readonly: bool, ok: bool)
    requires Linked(p) && Zombies(p) && c !in p.conns
    ensures Linked(Opened(p, c, backing, readonly, ok)) && Zombies(Opened(p, c, backing, readonly, ok))
  {
    hide BlobsLinked, BackupsLinked, Zombies;
    SameListsKeepLinks(p, Opened(p, c, backing, readonly, ok));
  }

  lemma DeserializeKeepsLinks(p: Process, c: nat, ok: bool)
    requires Linked(p) && Zombies(p) && c in p.conns
    ensures Linked(Deserialized(p, c, ok).0) && Zombies(Deserialized(p, c, ok).0)
  {
    hide BlobsLinked, BackupsLinked, Zombies;
    SameListsKeepLinks(p, Deserialized(p, c, ok).0);
  }

  lemma TransactKeepsLinks(p: Process, c: nat, active: bool)
    requires Linked(p) && Zombies(p) && c in p.conns
    ensures var q := p.(conns := p.conns[c := p.conns[c].(txn := active)]); Linked(q) && Zombies(q)
  {
    hide BlobsLinked, BackupsLinked, Zombies;
    SameListsKeepLinks(p, p.(conns := p.conns[c := p.conns[c].(txn := active)]));
  }

  lemma LinkedStep(p: Process, step: Step)
    requires Linked(p) && Zombies(p) && Enabled(p, step)
    ensures Linked(Next(p, step)) && Zombies(Next(p, step))
  {
    hide Closed, BlobOpened, BlobClosed, BackupStarted, BackupFinished, Deserialized, Opened, BlobsLinked, BackupsLinked, Zombies;
    match step
    case Open(c, backing, readonly, ok) => OpenKeepsLinks(p, c, backing, readonly, ok);
    case Deserialize(c, ok) => DeserializeKeepsLinks(p, c, ok);
    case Transact(c, active) => TransactKeepsLinks(p, c, active);
    case Close(c, v2) => CloseKeepsLinks(p, c, v2);
    case OpenBlob(b, c, ok) => OpenBlobKeepsLinks(p, b, c, ok);
    case CloseBlob(b) => CloseBlobKeepsLinks(p, b);
    case StartBackup(k, dst, src, main, ok) => StartBackupKeepsLinks(p, k, dst, src, main, ok);
    case FinishBackup(k) => FinishBackupKeepsLinks(p, k);
  }

  /** A step frees at most one connection, which is then gone. */
  ghost predicate FreesOneOrNone(p: Process, q: Process) {
    || (q.freed == p.freed && forall c :: c in q.conns ==> c in p.conns || c !in p.freed)
    || (q.freed != [] && q.freed == p.freed + [q.freed[|q.freed| - 1]] && q.freed[|q.freed| - 1] in p.conns
        && q.conns.Keys == p.conns.Keys - {q.freed[|q.freed| - 1]})
  }

  lemma CloseFrees(p: Process, c: nat, v2: bool)
    requires c in p.conns
    ensures FreesOneOrNone(p, Closed(p, c, v2).0)
  {
  }

  lemma CloseBlobFrees(p: Process, b: nat)
    requires b in p.blobs && p.blobs[b] in p.conns
    ensures FreesOneOrNone(p, BlobClosed(p, b))
  {
  }

  lemma OthersFreeNone(p: Process, step: Step)
    requires Linked(p) && Enabled(p, step) && !step.Close? && !step.CloseBlob?
    ensures FreesOneOrNone(p, Next(p, step))
  {
  }

  lemma FreedStep(p: Process, step: Step)
    requires Linked(p) && FreedOnce(p) && Enabled(p, step)
    ensures FreedOnce(Next(p, step))
  {
    if step.Close? {
      CloseFrees(p, step.c, step.v2);
    } else if step.CloseBlob? {
      CloseBlobFrees(p, step.b);
    } else {
      OthersFreeNone(p, step);
    }
    hide Next, Linked;
  }

  // ---- counts -------------------------------------------------------------

  lemma SameUsers(p: Process, q: Process)
    requires Counted(p) && q.named == p.named && forall path :: Users(q, path) == Users(p, path)
    ensures Counted(q)
  {
  }

  /** One user of a name leaves. */
  lemma UserLeaves(p: Process, q: Process, c: nat, path: string)
    requires Counted(p) && q.named == p.named && c in Users(p, path) && Users(q, path) == Users(p, path) - {c}
    requires forall other :: other != path ==> Users(q, other) == Users(p, other)
    ensures Counted(LetGo(q, NamedMemory(path)))
  {
    var r := LetGo(q, NamedMemory(path));
    assert forall other :: Users(r, other) == Users(q, other);
    assert |Users(q, path)| == |Users(p, path)| - 1;
    assert forall other :: other != path ==> Count(r.named, other) == Count(p.named, other);
  }

  lemma BackingLeaves(p: Process, q: Process, c: nat)
    requires Counted(p) && c in p.conns && q.named == p.named
    requires forall d :: d in q.conns && d != c ==> d in p.conns && q.conns[d].backing == p.conns[d].backing
    requires forall d :: d in p.conns && d != c ==> d in q.conns
    requires c in q.conns ==> !q.conns[c].backing.NamedMemory?
    ensures Counted(LetGo(q, p.conns[c].backing))
  {
    var backing := p.conns[c].backing;
    if backing.NamedMemory? {
      assert forall other :: other != backing.path ==> Users(q, other) == Users(p, other);
      assert Users(q, backing.path) == Users(p, backing.path) - {c};
      UserLeaves(p, q, c, backing.path);
    } else {
      assert forall path :: Users(q, path) == Users(p, path);
    }
  }

  lemma UserArrives(p: Process, q: Process, c: nat, path: string)
    requires c !in p.conns && c in q.conns && q.conns == p.conns[c := q.conns[c]]
    ensures Users(q, path) == if q.conns[c].backing == NamedMemory(path) then Users(p, path) + {c} else Users(p, path)
  {
  }

  /** A change of one connection that is not a change of backing. */
  lemma SameBacking(p: Process, q: Process, c: nat, path: string)
    requires c in p.conns && c in q.conns && q.conns == p.conns[c := q.conns[c]]
    requires q.conns[c].backing == p.conns[c].backing
    ensures Users(q, path) == Users(p, path)
  {
  }

  lemma OpenNamed(p: Process, c: nat, path: string, readonly: bool, ok: bool)
    requires Counted(p) && c !in p.conns
    ensures var q := Opened(p, c, NamedMemory(path), readonly, ok);
            q.named == if ok then p.named[path := Count(p.named, path) + 1] else p.named
  {
  }

  lemma OpenCountAt(p: Process, c: nat, backing: Backing, readonly: bool, ok: bool, path: string)
    requires Counted(p) && c !in p.conns
    ensures var q := Opened(p, c, backing, readonly, ok); Count(q.named, path) == |Users(q, path)|
  {
    var q := Opened(p, c, backing, readonly, ok);
    if backing.NamedMemory? {
      OpenNamed(p, c, backing.path, readonly, ok);
    }
    OpenedConns(p, c, backing, readonly, ok);
    NameCounted(p, path);
    hide Opened, Counted, Users;
    if ok {
      UserArrives(p, q, c, path);
      NotYetUser(p, c, path);
      OneMore(Users(p, path), c);
    } else {
      SameConns(p, q, path);
    }
  }

  lemma NotYetUser(p: Process, c: nat, path: string)
    requires c !in p.conns
    ensures c !in Users(p, path)
  {
  }

  lemma OpenCounts(p: Process, c: nat, backing: Backing, readonly: bool, ok: bool)
    requires Counted(p) && c !in p.conns
    ensures Counted(Opened(p, c, backing, readonly, ok))
  {
    var q := Opened(p, c, backing, readonly, ok);
    forall path
      ensures Count(q.named, path) == |Users(q, path)|
    {
      OpenCountAt(p, c, backing, readonly, ok, path);
    }
    OpenedConns(p, c, backing, readonly, ok);
    if backing.NamedMemory? {
      OpenNamed(p, c, backing.path, readonly, ok);
    }
    hide Opened, Users;
  }

  lemma OpenedConns(p: Process, c: nat, backing: Backing, readonly: bool, ok: bool)
    ensures var q := Opened(p, c, backing, readonly, ok);
            && q.conns == (if ok then p.conns[c := Connection({}, {}, false, false, readonly, backing)] else p.conns)
            && (!backing.NamedMemory? ==> q.named == p.named && q.events == p.events)
            && (backing.NamedMemory? ==>
                  q.events == if Count(p.named, backing.path) == 0 then p.events + [Emptied(backing.path)] else p.events)
  {
  }

  /** How a step can change the connections, apart from opening one. */
  datatype Change = Same | Updated(c: nat) | Left(c: nat)

  /** Every step but an open keeps all backings, or one connection lets go of its own. */
  lemma ChangeOf(p: Process, step: Step) returns (change: Change, r: Process)
    requires Linked(p) && Enabled(p, step) && !step.Open?
    ensures r.named == p.named && r.events == p.events
    ensures change.Same? ==> Next(p, step) == r && r.conns == p.conns
    ensures change.Updated? ==>
              && Next(p, step) == r && change.c in p.conns && change.c in r.conns
              && r.conns == p.conns[change.c := r.conns[change.c]]
              && r.conns[change.c].backing == p.conns[change.c].backing
    ensures change.Left? ==>
              && change.c in p.conns && Next(p, step) == LetGo(r, p.conns[change.c].backing)
              && (r.conns == p.conns - {change.c} || r.conns == p.conns[change.c := p.conns[change.c].(backing := Ephemeral)])
  {
    hide LetGo, BackupsLinked;
    var q := Next(p, step);
    change, r := Same, q;
    match step
    case Close(c, v2) =>
      if q == Freed(p, c) && p.conns[c].backups == {} && p.conns[c].blobs == {} {
        change, r := Left(c), p.(conns := p.conns - {c}, freed := p.freed + [c]);
      } else if q != p {
        change := Updated(c);
      }
    case OpenBlob(b, c, ok) =>
      if ok { change := Updated(c); }
    case CloseBlob(b) =>
      var c := p.blobs[b];
      var conn := p.conns[c].(blobs := p.conns[c].blobs - {b});
      if conn.zombie && conn.blobs == {} {
        assert p.conns[c := conn] - {c} == p.conns - {c};
        change, r := Left(c), p.(blobs := p.blobs - {b}, conns := p.conns - {c}, freed := p.freed + [c]);
      } else {
        change := Updated(c);
      }
    case StartBackup(k, dst, src, main, ok) =>
      if BackupStarted(p, k, dst, src, main, ok).1 == OK { change := Updated(dst); }
    case FinishBackup(k) =>
      change := Updated(DestinationOf(p, k));
    case Deserialize(c, ok) =>
      if Deserialized(p, c, ok).1 == OK {
        change, r := Left(c), p.(conns := p.conns[c := p.conns[c].(backing := Ephemeral)]);
      }
    case Transact(c, active) =>
      change := Updated(c);
  }

  function DestinationOf(p: Process, k: nat): (dst: nat)
    requires Linked(p) && k in p.backups
    ensures dst in p.conns && dst == p.backups[k].dst
  {
    p.backups[k].dst
  }

  lemma CountedStep(p: Process, step: Step)
    requires Linked(p) && Counted(p) && Enabled(p, step)
    ensures Counted(Next(p, step))
  {
    hide Counted, Linked, LetGo;
    if step.Open? {
      OpenCounts(p, step.c, step.backing, step.readonly, step.ok);
    } else {
      hide Next;
      var change, r := ChangeOf(p, step);
      if change.Left? {
        BackingLeaves(p, r, change.c);
      } else {
        forall path
          ensures Users(r, path) == Users(p, path)
        {
          if change.Updated? {
            SameBacking(p, r, change.c, path);
          }
        }
        SameUsers(p, r);
      }
    }
  }

  // ---- main results -------------------------------------------------------

  lemma InvStep(p: Process, step: Step)
    requires Inv(p) && Enabled(p, step)
    ensures Inv(Next(p, step))
  {
    hide Linked, Zombies, FreedOnce, Counted, Next;
    LinkedStep(p, step);
    FreedStep(p, step);
    CountedStep(p, step);
  }

  ghost predicate IsRun(p: Process, steps: seq<Step>)
    requires Inv(p)
    decreases |steps|
  {
    steps != [] ==> Enabled(p, steps[0]) && (InvStep(p, steps[0]); IsRun(Next(p, steps[0]), steps[1..]))
  }

  /**
   * Every run from an empty process keeps the invariant: pointers held by live handles
   * and backups are allocated, nothing is freed twice, zombies have a handle and no
   * backup, and every name's count is its number of connections.
   */
  ghost function Final(p: Process, steps: seq<Step>): (q: Process)
    requires Inv(p) && IsRun(p, steps)
    ensures Inv(q)
    decreases |steps|
  {
    if steps == [] then p else (InvStep(p, steps[0]); Final(Next(p, steps[0]), steps[1..]))
  }

  lemma StartIsSafe()
    ensures Inv(START)
  {
    assert forall path :: Users(START, path) == {};
  }

  lemma LetGoKeeps(p: Process, backing: Backing)
    ensures LetGo(p, backing).conns == p.conns && LetGo(p, backing).freed == p.freed
  {
  }

  lemma BlobFreesOwner(p: Process, b: nat, c: nat)
    requires BlobsLinked(p) && b in p.blobs && c in p.conns && c !in BlobClosed(p, b).conns
    ensures p.blobs[b] == c && p.conns[c].zombie && p.conns[c].blobs == {b}
    ensures BlobClosed(p, b).freed == p.freed + [c]
  {
  }

  lemma OthersKeepConns(p: Process, step: Step, c: nat)
    requires Linked(p) && Enabled(p, step) && !step.Close? && !step.CloseBlob? && c in p.conns
    ensures c in Next(p, step).conns
  {
  }

  /** What a connection looks like when it is freed. */
  lemma FreedOnlyIdle(p: Process, step: Step, c: nat)
    requires Inv(p) && Enabled(p, step) && c in p.conns && c !in Next(p, step).conns
    ensures Next(p, step).freed == p.freed + [c]
    ensures p.conns[c].backups == {}
    ensures || (step.Close? && step.c == c && p.conns[c].blobs == {})
            || (step.CloseBlob? && p.conns[c].zombie && p.conns[c].blobs == {step.b})
  {
    hide Counted, FreedOnce, LetGo;
    if step.CloseBlob? {
      assert ZombieOk(p.conns[c]);
      BlobFreesOwner(p, step.b, c);
    } else if step.Close? {
      LetGoKeeps(p.(conns := p.conns - {step.c}, freed := p.freed + [step.c]), p.conns[step.c].backing);
    } else {
      OthersKeepConns(p, step, c);
    }
  }

  function NewEvents(p: Process, q: Process): seq<FileEvent> {
    if |p.events| <= |q.events| then q.events[|p.events|..] else []
  }

  /** One more user, or one fewer, decides whether a name has any. */
  lemma OneMore(users: set<nat>, c: nat)
    requires c !in users
    ensures |users + {c}| == |users| + 1
  {
  }

  lemma NoNewEvent(p: Process, q: Process)
    requires q.events == p.events
    ensures NewEvents(p, q) == []
  {
  }

  lemma OneNewEvent(p: Process, q: Process, e: FileEvent)
    requires q.events == p.events + [e]
    ensures NewEvents(p, q) == [e]
  {
  }

  ghost predicate EventsExact(p: Process, step: Step, q: Process, path: string) {
    && p.events <= q.events
    && (Emptied(path) in NewEvents(p, q) <==>
          step.Open? && step.backing == NamedMemory(path) && Users(p, path) == {})
    && (Removed(path) in NewEvents(p, q) <==> Users(p, path) != {} && Users(q, path) == {})
  }

  lemma NameCounted(p: Process, path: string)
    requires Counted(p)
    ensures Count(p.named, path) == |Users(p, path)|
  {
  }

  lemma UsersAfterLeaving(p: Process, q: Process, c: nat, path: string)
    requires c in p.conns
    requires q.conns == p.conns - {c} || q.conns == p.conns[c := p.conns[c].(backing := Ephemeral)]
    ensures if p.conns[c].backing == NamedMemory(path)
            then c !in Users(q, path) && Users(p, path) == Users(q, path) + {c}
            else Users(q, path) == Users(p, path)
  {
  }

  lemma LeavingEvents(p: Process, q: Process, c: nat, step: Step, path: string)
    requires Counted(p) && q.named == p.named && q.events == p.events && c in p.conns && !step.Open?
    requires q.conns == p.conns - {c} || q.conns == p.conns[c := p.conns[c].(backing := Ephemeral)]
    ensures EventsExact(p, step, LetGo(q, p.conns[c].backing), path)
  {
    hide NewEvents, Counted, Released, Users;
    var backing := p.conns[c].backing;
    var r := LetGo(q, backing);
    assert Users(r, path) == Users(q, path) by { SameConns(r, q, path); }
    UsersAfterLeaving(p, q, c, path);
    NameCounted(p, path);
    if r.events != p.events {
      OneNewEvent(p, r, Removed(backing.path));
    } else {
      NoNewEvent(p, r);
    }
    if backing == NamedMemory(path) {
      OneMore(Users(q, path), c);
    }
  }

  lemma SameConns(p: Process, q: Process, path: string)
    requires q.conns == p.conns
    ensures Users(q, path) == Users(p, path)
  {
  }

  lemma OpenEvents(p: Process, step: Step, path: string)
    requires Counted(p) && step.Open? && step.c !in p.conns
    ensures EventsExact(p, step, Opened(p, step.c, step.backing, step.readonly, step.ok), path)
  {
    var q := Opened(p, step.c, step.backing, step.readonly, step.ok);
    OpenedConns(p, step.c, step.backing, step.readonly, step.ok);
    hide NewEvents, Counted, Opened, Users;
    NameCounted(p, path);
    if q.events != p.events {
      OneNewEvent(p, q, Emptied(step.backing.path));
    } else {
      NoNewEvent(p, q);
    }
    if step.ok {
      UserArrives(p, q, step.c, path);
    } else {
      SameConns(p, q, path);
    }
  }

  /**
   * A name is emptied exactly when it is opened with nobody on it, and removed exactly
   * when its last connection goes; so never under another connection.
   */
  lemma FileEventsExact(p: Process, step: Step, path: string)
    requires Inv(p) && Enabled(p, step)
    ensures EventsExact(p, step, Next(p, step), path)
  {
    hide Counted, Linked, Zombies, FreedOnce, LetGo, Users, NewEvents;
    if step.Open? {
      OpenEvents(p, step, path);
    } else {
      hide Next;
      var change, r := ChangeOf(p, step);
      if change.Left? {
        LeavingEvents(p, r, change.c, step, path);
      } else {
        NoNewEvent(p, r);
        if change.Updated? {
          SameBacking(p, r, change.c, path);
        } else {
          SameConns(p, r, path);
        }
      }
    }
  }

  /** A backup keeps its destination open, not its source: that pointer is the caller's to keep valid. */
  lemma SourceMayDangle()
    ensures var steps := [Open(0, File, false, true), Open(1, File, false, true),
                          StartBackup(0, 0, 1, true, true), Close(1, false)];
            && Inv(START) && IsRun(START, steps)
            && Final(START, steps).backups[0] == Backup(0, Some(1))
            && 1 !in Final(START, steps).conns
  {
    StartIsSafe();
  }
}
