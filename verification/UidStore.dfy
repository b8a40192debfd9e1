/** UIDs in database/Repository/MessageRepository.cpp: the tables as maps, with the unique index on
    (folder, uid), the foreign keys and the roll-back of a transaction that does not commit. */
module UidStore {
  import opened Wrappers

  datatype Message = Message(folder: int, uid: int, deleted: bool, content: string)

  datatype Folder = Folder(name: string, nextUid: int)

  datatype Recipient = Recipient(message: int, address: string, kind: string)

  /** The tables. The `last` fields are the AUTOINCREMENT counters: row ids are never used again. */
  datatype Db = Db(
    messages: map<int, Message>, folders: map<int, Folder>, recipients: map<int, Recipient>,
    lastMessage: int, lastFolder: int, lastRecipient: int)

  /** The unique index: another row already has this folder and UID. */
  predicate Taken(db: Db, folder: int, uid: int, except: int) {
    exists id :: id in db.messages && id != except && db.messages[id].folder == folder && db.messages[id].uid == uid
  }

  /** A row that a foreign key or the unique index refuses leaves no new table. */
  function InsertMessage(db: Db, m: Message): Option<Db> {
    if m.folder !in db.folders || Taken(db, m.folder, m.uid, 0) then None
    else Some(db.(messages := db.messages[db.lastMessage + 1 := m], lastMessage := db.lastMessage + 1))
  }

  function UpdatePlace(db: Db, id: int, folder: int, uid: int): Option<Db> {
    if id !in db.messages then Some(db)
    else if folder !in db.folders || Taken(db, folder, uid, id) then None
    else Some(db.(messages := db.messages[id := db.messages[id].(folder := folder, uid := uid)]))
  }

  function IncrementNextUid(db: Db, folder: int): Db {
    if folder !in db.folders then db
    else db.(folders := db.folders[folder := db.folders[folder].(nextUid := db.folders[folder].nextUid + 1)])
  }

  function InsertRecipients(db: Db, rs: seq<Recipient>, message: int): (r: Db)
    ensures r.messages == db.messages && r.folders == db.folders
    ensures r.lastMessage == db.lastMessage && r.lastFolder == db.lastFolder
    decreases |rs|
  {
    if rs == [] then db
    else
      InsertRecipients(
        db.(recipients := db.recipients[db.lastRecipient + 1 := rs[0].(message := message)],
            lastRecipient := db.lastRecipient + 1),
        rs[1..], message)
  }

  /** A deleted message takes its recipients with it. */
  function DeleteMessage(db: Db, id: int): Db {
    db.(messages := db.messages - {id},
        recipients := map r | r in db.recipients && db.recipients[r].message != id :: db.recipients[r])
  }

  function DeleteMessages(db: Db, ids: seq<int>): Db
    decreases |ids|
  {
    if ids == [] then db else DeleteMessages(DeleteMessage(db, ids[0]), ids[1..])
  }

  /** assignUID: `next_uid` is read inside the transaction. None: rolled back. */
  function Assign(db: Db, m: Message, folder: int): Option<Db> {
    if folder !in db.folders then None
    else
      match InsertMessage(db, m.(folder := folder, uid := db.folders[folder].nextUid))
      case None => None
      case Some(db') => Some(IncrementNextUid(db', folder))
  }

  /** The locked half of copy; `uid` was read before. */
  function Copy(db: Db, m: Message, rs: seq<Recipient>, target: int, uid: int): Option<Db> {
    match InsertMessage(db, m.(folder := target, uid := uid))
    case None => None
    case Some(db') => Some(IncrementNextUid(InsertRecipients(db', rs, db'.lastMessage), target))
  }

  /** The locked half of moveToFolder. */
  function Move(db: Db, id: int, target: int, uid: int): Option<Db> {
    match UpdatePlace(db, id, target, uid)
    case None => None
    case Some(db') => Some(IncrementNextUid(db', target))
  }

  // ---------------------------------------------------------------- the object

  class MessageRepository {
    var db: Db

    constructor (db: Db)
      ensures this.db == db
    {
      this.db := db;
    }

    method AssignUid(m: Message, folder: int, commits: bool) returns (ok: bool)
      modifies this
      ensures ok <==> commits && Assign(old(db), m, folder).Some?
      ensures db == if ok then Assign(old(db), m, folder).value else old(db)
    {
      var saved := db;
      if folder !in db.folders {
        return false;
      }
      var inserted := InsertMessage(db, m.(folder := folder, uid := db.folders[folder].nextUid));
      if inserted.None? {
        return false;
      }
      db := inserted.value;
      db := IncrementNextUid(db, folder);
      if !commits {
        db := saved;
      }
      ok := commits;
    }

    method MoveToFolder(id: int, target: int, uid: int, commits: bool) returns (ok: bool)
      modifies this
      ensures ok <==> commits && Move(old(db), id, target, uid).Some?
      ensures db == if ok then Move(old(db), id, target, uid).value else old(db)
    {
      var saved := db;
      var updated := UpdatePlace(db, id, target, uid);
      if updated.None? {
        return false;
      }
      db := updated.value;
      db := IncrementNextUid(db, target);
      if !commits {
        db := saved;
      }
      ok := commits;
    }

    method CopyTo(m: Message, rs: seq<Recipient>, target: int, uid: int, commits: bool) returns (ok: bool)
      modifies this
      ensures ok <==> commits && Copy(old(db), m, rs, target, uid).Some?
      ensures db == if ok then Copy(old(db), m, rs, target, uid).value else old(db)
    {
      var saved := db;
      var inserted := InsertMessage(db, m.(folder := target, uid := uid));
      if inserted.None? {
        return false;
      }
      db := inserted.value;
      var copy := db.lastMessage;
      ghost var all := InsertRecipients(db, rs, copy);
      assert rs[0..] == rs;
      for i := 0 to |rs|
        invariant InsertRecipients(db, rs[i..], copy) == all
      {
        assert rs[i..][0] == rs[i] && rs[i..][1..] == rs[i + 1..];
        db := db.(recipients := db.recipients[db.lastRecipient + 1 := rs[i].(message := copy)],
                  lastRecipient := db.lastRecipient + 1);
      }
      assert rs[|rs|..] == [];
      db := IncrementNextUid(db, target);
      if !commits {
        db := saved;
      }
      ok := commits;
    }

    /** `ids` are the messages that were marked deleted when expunge looked, before it took the lock. */
    method Expunge(ids: seq<int>, commits: bool) returns (ok: bool)
      modifies this
      ensures ok == commits
      ensures db == if ok then DeleteMessages(old(db), ids) else old(db)
    {
      var saved := db;
      assert ids[0..] == ids;
      for i := 0 to |ids|
        invariant DeleteMessages(db, ids[i..]) == DeleteMessages(saved, ids)
      {
        assert ids[i..][0] == ids[i] && ids[i..][1..] == ids[i + 1..];
        db := DeleteMessage(db, ids[i]);
      }
      assert ids[|ids|..] == [];
      if !commits {
        db := saved;
      }
      ok := commits;
    }
  }

  // -------------------------------------------------------------- interleaving

  /** A copy, a move or a rename between its reads and its writes; `uid` is the `next_uid` it read. */
  datatype Pending =
    | Copying(message: Message, recipients: seq<Recipient>, target: int, uid: int)
    | Moving(id: int, target: int, uid: int)
    | Renaming(name: string, target: int, uid: int)

  datatype Handed = Handed(folder: int, uid: int)

  /** The tables, the operations under way by client, and the UIDs handed out so far, in order. */
  datatype State = State(db: Db, pending: map<int, Pending>, given: seq<Handed>)

  datatype Event =
    | Deliver(message: Message, folder: int, commits: bool)
    | ReadForCopy(client: int, id: int, recipients: seq<Recipient>, target: int)
    | ReadForMove(client: int, id: int, target: int)
    | ReadForRename(client: int, target: int, name: string)
    | Commit(client: int, commits: bool)
    | Expunge(ids: seq<int>, commits: bool)
    | MarkDeleted(id: int, deleted: bool)
    | CreateFolder(name: string)
    | DeleteFolders(doomed: set<int>)
    | AddRecipient(recipient: Recipient)
    | Bump(folder: int)

  /** The tables after the writes of an operation under way. */
  function Settle(db: Db, p: Pending, commits: bool): Db {
    var result :=
      match p
      case Copying(m, rs, target, uid) => Copy(db, m, rs, target, uid)
      case Moving(id, target, uid) => Move(db, id, target, uid)
      case Renaming(name, target, uid) => Some(Rename(db, target, name, uid));
    if !commits || result.None? then db else result.value
  }

  /** The copy or move under way would be carried out: its folder exists and its UID is free. */
  predicate Wins(db: Db, p: Pending) {
    && p.target in db.folders
    && match p
       case Copying(_, _, target, uid) => !Taken(db, target, uid, 0)
       case Moving(id, target, uid) => id in db.messages && !Taken(db, target, uid, id)
       case Renaming(_, _, _) => false
  }

  function Mark(db: Db, id: int, deleted: bool): Db {
    if id !in db.messages then db
    else db.(messages := db.messages[id := db.messages[id].(deleted := deleted)])
  }

  function AddFolder(db: Db, name: string): Db {
    db.(folders := db.folders[db.lastFolder + 1 := Folder(name, 1)], lastFolder := db.lastFolder + 1)
  }

  /** renameFolder updates the whole row that it read, `next_uid` included. */
  function Rename(db: Db, folder: int, name: string, nextUid: int): Db {
    if folder !in db.folders then db else db.(folders := db.folders[folder := Folder(name, nextUid)])
  }

  /** addRecipient: the message must exist. */
  function InsertRecipient(db: Db, r: Recipient): Db {
    if r.message !in db.messages then db else InsertRecipients(db, [r], r.message)
  }

  /** Folders go with their messages and those messages' recipients. */
  function DropFolders(db: Db, doomed: set<int>): Db {
    var gone := set id | id in db.messages && db.messages[id].folder in doomed;
    db.(folders := db.folders - doomed, messages := db.messages - gone,
        recipients := map r | r in db.recipients && db.recipients[r].message !in gone :: db.recipients[r])
  }

  function Delivered(db: Db, m: Message, folder: int, commits: bool): Db {
    var result := Assign(db, m, folder);
    if !commits || result.None? then db else result.value
  }

  /** The tables after a step. */
  function Tables(s: State, e: Event): Db {
    match e
    case Deliver(m, folder, commits) => Delivered(s.db, m, folder, commits)
    case Commit(client, commits) => if client !in s.pending then s.db else Settle(s.db, s.pending[client], commits)
    case Expunge(ids, commits) => if commits then DeleteMessages(s.db, ids) else s.db
    case MarkDeleted(id, deleted) => Mark(s.db, id, deleted)
    case CreateFolder(name) => AddFolder(s.db, name)
    case DeleteFolders(doomed) => DropFolders(s.db, doomed)
    case AddRecipient(r) => InsertRecipient(s.db, r)
    case Bump(folder) => IncrementNextUid(s.db, folder)
    case _ => s.db
  }

  /** The operations under way after a step. */
  function Underway(s: State, e: Event): map<int, Pending> {
    match e
    case ReadForCopy(client, id, rs, target) =>
      if id !in s.db.messages || target !in s.db.folders then s.pending
      else s.pending[client := Copying(s.db.messages[id], rs, target, s.db.folders[target].nextUid)]
    case ReadForMove(client, id, target) =>
      if target !in s.db.folders then s.pending
      else s.pending[client := Moving(id, target, s.db.folders[target].nextUid)]
    case ReadForRename(client, target, name) =>
      if target !in s.db.folders then s.pending
      else s.pending[client := Renaming(name, target, s.db.folders[target].nextUid)]
    case Commit(client, _) => s.pending - {client}
    case _ => s.pending
  }

  /** What a step hands out. */
  function Gives(s: State, e: Event): seq<Handed> {
    match e
    case Deliver(m, folder, commits) =>
      if commits && Assign(s.db, m, folder).Some? then [Handed(folder, s.db.folders[folder].nextUid)] else []
    case Commit(client, commits) =>
      if commits && client in s.pending && Wins(s.db, s.pending[client])
      then [Handed(s.pending[client].target, s.pending[client].uid)]
      else []
    case _ => []
  }

  function Next(s: State, e: Event): State {
    State(Tables(s, e), Underway(s, e), s.given + Gives(s, e))
  }

  function Run(s: State, events: seq<Event>): State
    decreases |events|
  {
    if events == [] then s else Run(Next(s, events[0]), events[1..])
  }

  // ----------------------------------------------------------------- invariant

  /** Row ids are below their counters; every message lies in a folder, below its `next_uid`. */
  ghost predicate Bounded(db: Db) {
    && db.lastMessage >= 0 && db.lastFolder >= 0
    && (forall id :: id in db.messages ==> 0 < id <= db.lastMessage)
    && (forall f :: f in db.folders ==> f <= db.lastFolder)
    && (forall id :: id in db.messages ==>
          db.messages[id].folder in db.folders && db.messages[id].uid < db.folders[db.messages[id].folder].nextUid)
  }

  ghost predicate UniqueUids(db: Db) {
    forall i, j :: i in db.messages && j in db.messages && i != j && db.messages[i].folder == db.messages[j].folder
      ==> db.messages[i].uid != db.messages[j].uid
  }

  /** A UID that was read is at most the present `next_uid`, however stale; deleted folders stay deleted. */
  ghost predicate PendingBelow(s: State) {
    forall c :: c in s.pending ==> ReadBelow(s.db, s.pending[c])
  }

  predicate ReadBelow(db: Db, p: Pending) {
    p.target <= db.lastFolder && (p.target in db.folders ==> p.uid <= db.folders[p.target].nextUid)
  }

  predicate HandedBelow(db: Db, h: Handed) {
    h.folder <= db.lastFolder && (h.folder in db.folders ==> h.uid < db.folders[h.folder].nextUid)
  }

  ghost predicate GivenBelow(s: State) {
    forall i :: 0 <= i < |s.given| ==> HandedBelow(s.db, s.given[i])
  }

  ghost predicate Inv(s: State) {
    Bounded(s.db) && UniqueUids(s.db) && PendingBelow(s) && GivenBelow(s)
  }

  /** The `next_uid` that the operation read has changed. */
  predicate Stale(db: Db, p: Pending) {
    p.target in db.folders && p.uid != db.folders[p.target].nextUid
  }

  /** A rename that writes a changed `next_uid` back. */
  predicate StaleRename(s: State, e: Event) {
    e.Commit? && e.commits && e.client in s.pending && s.pending[e.client].Renaming? && Stale(s.db, s.pending[e.client])
  }

  ghost predicate NoStaleRename(s: State, events: seq<Event>)
    decreases |events|
  {
    events == [] || (!StaleRename(s, events[0]) && NoStaleRename(Next(s, events[0]), events[1..]))
  }

  /** The foreign key of recipients: each belongs to a stored message. */
  ghost predicate Linked(db: Db) {
    forall r :: r in db.recipients ==> db.recipients[r].message in db.messages
  }

  /** Each folder that is still there keeps its number and has at least the `next_uid` it had. */
  ghost predicate FoldersGrow(a: Db, b: Db) {
    && a.lastFolder <= b.lastFolder
    && (forall f :: f in b.folders && f <= a.lastFolder ==>
          f in a.folders && a.folders[f].nextUid <= b.folders[f].nextUid)
  }

  lemma InsertKeeps(db: Db, m: Message)
    requires Bounded(db) && UniqueUids(db) && InsertMessage(db, m).Some?
    requires m.uid <= db.folders[m.folder].nextUid
    ensures var db' := IncrementNextUid(InsertMessage(db, m).value, m.folder); Bounded(db') && UniqueUids(db')
  {
  }

  lemma MoveKeeps(db: Db, id: int, target: int, uid: int)
    requires Bounded(db) && UniqueUids(db) && Move(db, id, target, uid).Some?
    requires target in db.folders ==> uid <= db.folders[target].nextUid
    ensures Kept(db, Move(db, id, target, uid).value)
  {
  }

  lemma DeleteOneKeeps(db: Db, id: int)
    requires Bounded(db) && UniqueUids(db)
    ensures Bounded(DeleteMessage(db, id)) && UniqueUids(DeleteMessage(db, id))
  {
  }

  lemma {:induction false} DeleteKeeps(db: Db, ids: seq<int>)
    requires Bounded(db) && UniqueUids(db)
    ensures var db' := DeleteMessages(db, ids);
            Bounded(db') && UniqueUids(db') && db'.folders == db.folders && db'.lastFolder == db.lastFolder
    decreases |ids|
  {
    hide Bounded, UniqueUids;
    if ids != [] {
      DeleteOneKeeps(db, ids[0]);
      DeleteKeeps(DeleteMessage(db, ids[0]), ids[1..]);
    }
  }

  lemma DeleteOne(db: Db, id: int)
    ensures DeleteMessages(db, [id]) == DeleteMessage(db, id)
  {
    hide DeleteMessage;
    var rest := DeleteMessage(db, id);
    assert [id][1..] == [] && DeleteMessages(rest, []) == rest;
  }

  lemma SettleKeeps(db: Db, p: Pending, commits: bool)
    requires Bounded(db) && UniqueUids(db) && ReadBelow(db, p) && !(commits && p.Renaming? && Stale(db, p))
    ensures Kept(db, Settle(db, p, commits))
  {
    hide Copy, Move, Rename, Kept, Bounded, UniqueUids;
    KeptSame(db);
    if p.Copying? {
      if Copy(db, p.message, p.recipients, p.target, p.uid).Some? {
        CopyKeeps(db, p.message, p.recipients, p.target, p.uid);
      }
    } else if p.Moving? {
      if Move(db, p.id, p.target, p.uid).Some? {
        MoveKeeps(db, p.id, p.target, p.uid);
      }
    } else if commits {
      RenameKeeps(db, p.target, p.name, p.uid);
    }
  }

  lemma CopyKeeps(db: Db, m: Message, rs: seq<Recipient>, target: int, uid: int)
    requires Bounded(db) && UniqueUids(db) && Copy(db, m, rs, target, uid).Some?
    requires target in db.folders ==> uid <= db.folders[target].nextUid
    ensures Kept(db, Copy(db, m, rs, target, uid).value)
  {
    var copy := m.(folder := target, uid := uid);
    InsertKeeps(db, copy);
    var db' := InsertMessage(db, copy).value;
    SameBounds(IncrementNextUid(db', target), IncrementNextUid(InsertRecipients(db', rs, db'.lastMessage), target));
    GrowsByInsert(db, copy);
    hide Bounded, UniqueUids, InsertRecipients, Taken;
  }

  lemma SameBounds(a: Db, b: Db)
    requires Bounded(a) && UniqueUids(a)
    requires b.messages == a.messages && b.folders == a.folders && b.lastMessage == a.lastMessage
            && b.lastFolder == a.lastFolder
    ensures Bounded(b) && UniqueUids(b)
  {
  }

  lemma GrowsByInsert(db: Db, m: Message)
    requires InsertMessage(db, m).Some?
    ensures FoldersGrow(db, IncrementNextUid(InsertMessage(db, m).value, m.folder))
  {
    hide Taken;
  }

  lemma AssignKeeps(db: Db, m: Message, folder: int)
    requires Bounded(db) && UniqueUids(db) && Assign(db, m, folder).Some?
    ensures var db' := Assign(db, m, folder).value; Kept(db, db')
  {
    InsertKeeps(db, m.(folder := folder, uid := db.folders[folder].nextUid));
  }

  ghost predicate Kept(db: Db, db': Db) {
    Bounded(db') && UniqueUids(db') && FoldersGrow(db, db')
  }

  lemma KeptSame(db: Db)
    requires Bounded(db) && UniqueUids(db)
    ensures Kept(db, db)
  {
  }

  lemma {:induction false} DeletesKeep(db: Db, ids: seq<int>)
    requires Bounded(db) && UniqueUids(db)
    ensures Kept(db, DeleteMessages(db, ids))
  {
    hide DeleteMessages, UniqueUids;
    DeleteKeeps(db, ids);
  }

  lemma MarkKeeps(db: Db, id: int, deleted: bool)
    requires Bounded(db) && UniqueUids(db)
    ensures Kept(db, Mark(db, id, deleted))
  {
  }

  lemma AddFolderKeeps(db: Db, name: string)
    requires Bounded(db) && UniqueUids(db)
    ensures Kept(db, AddFolder(db, name))
  {
  }

  lemma DropFoldersKeeps(db: Db, doomed: set<int>)
    requires Bounded(db) && UniqueUids(db)
    ensures Kept(db, DropFolders(db, doomed))
  {
  }

  lemma RenameKeeps(db: Db, folder: int, name: string, nextUid: int)
    requires Bounded(db) && UniqueUids(db) && (folder in db.folders ==> nextUid == db.folders[folder].nextUid)
    ensures Kept(db, Rename(db, folder, name, nextUid))
  {
  }

  lemma RecipientKeeps(db: Db, r: Recipient)
    requires Bounded(db) && UniqueUids(db)
    ensures Kept(db, InsertRecipient(db, r))
  {
    KeptSame(db);
    hide UniqueUids;
  }

  lemma IncrementKeeps(db: Db, folder: int)
    requires Bounded(db) && UniqueUids(db)
    ensures Kept(db, IncrementNextUid(db, folder))
  {
  }

  lemma DeliverKeeps(db: Db, m: Message, folder: int, commits: bool)
    requires Bounded(db) && UniqueUids(db)
    ensures Kept(db, Delivered(db, m, folder, commits))
  {
    KeptSame(db);
    hide Assign, Kept;
    if Assign(db, m, folder).Some? {
      AssignKeeps(db, m, folder);
    }
  }

  lemma TablesKeep(s: State, e: Event)
    requires Inv(s) && !StaleRename(s, e)
    ensures Kept(s.db, Tables(s, e))
  {
    hide Bounded, UniqueUids, PendingBelow, GivenBelow, Kept, ReadBelow, Delivered, Settle, DeleteMessages, Mark,
      AddFolder, DropFolders, Stale, IncrementNextUid, InsertRecipient;
    KeptSame(s.db);
    if e.Deliver? {
      DeliverKeeps(s.db, e.message, e.folder, e.commits);
    } else if e.Commit? {
      if e.client in s.pending {
        ReadIsBelow(s, e.client);
        SettleKeeps(s.db, s.pending[e.client], e.commits);
      }
    } else if e.Expunge? {
      DeletesKeep(s.db, e.ids);
    } else if e.MarkDeleted? {
      MarkKeeps(s.db, e.id, e.deleted);
    } else if e.CreateFolder? {
      AddFolderKeeps(s.db, e.name);
    } else if e.DeleteFolders? {
      DropFoldersKeeps(s.db, e.doomed);
    } else if e.AddRecipient? {
      RecipientKeeps(s.db, e.recipient);
    } else if e.Bump? {
      IncrementKeeps(s.db, e.folder);
    }
  }

  lemma ReadIsBelow(s: State, client: int)
    requires PendingBelow(s) && client in s.pending
    ensures ReadBelow(s.db, s.pending[client])
  {
  }

  /** What is read now is not above what is there now. */
  lemma ReadNow(db: Db, p: Pending)
    requires Bounded(db) && p.target in db.folders && p.uid == db.folders[p.target].nextUid
    ensures ReadBelow(db, p)
  {
  }

  /** What a commit hands out lies below the `next_uid` it leaves. */
  lemma WinnerBelow(db: Db, p: Pending)
    requires Wins(db, p) && ReadBelow(db, p) && Bounded(db)
    ensures HandedBelow(Settle(db, p, true), Handed(p.target, p.uid))
  {
    hide Taken;
  }

  lemma AssignedBelow(db: Db, m: Message, folder: int)
    requires Assign(db, m, folder).Some? && Bounded(db)
    ensures HandedBelow(Assign(db, m, folder).value, Handed(folder, db.folders[folder].nextUid))
  {
    hide Taken;
  }

  lemma GivesBelow(s: State, e: Event)
    requires Inv(s)
    ensures |Gives(s, e)| <= 1 && (Gives(s, e) != [] ==> HandedBelow(Tables(s, e), Gives(s, e)[0]))
  {
    hide Assign, Settle, Wins, HandedBelow, Bounded, UniqueUids, GivenBelow;
    if e.Deliver? {
      if Assign(s.db, e.message, e.folder).Some? {
        AssignedBelow(s.db, e.message, e.folder);
      }
    } else if e.Commit? && e.client in s.pending && Wins(s.db, s.pending[e.client]) {
      WinnerBelow(s.db, s.pending[e.client]);
    }
  }

  lemma HandedKeeps(db: Db, db': Db, h: Handed)
    requires Kept(db, db') && HandedBelow(db, h)
    ensures HandedBelow(db', h)
  {
    hide Bounded, UniqueUids;
  }

  lemma ReadKeeps(db: Db, db': Db, p: Pending)
    requires Kept(db, db') && ReadBelow(db, p)
    ensures ReadBelow(db', p)
  {
    hide Bounded, UniqueUids;
  }

  lemma GivenKeeps(s: State, e: Event)
    requires Inv(s) && !StaleRename(s, e)
    ensures GivenBelow(Next(s, e))
  {
    hide Tables, Gives, Underway, Bounded, UniqueUids, PendingBelow, Kept, HandedBelow, StaleRename;
    TablesKeep(s, e);
    GivesBelow(s, e);
    var db, given := Tables(s, e), s.given + Gives(s, e);
    forall i | 0 <= i < |given| ensures HandedBelow(db, given[i]) {
      if i < |s.given| {
        HandedKeeps(s.db, db, s.given[i]);
      }
    }
  }

  lemma PendingKeeps(s: State, e: Event)
    requires Inv(s) && !StaleRename(s, e)
    ensures PendingBelow(Next(s, e))
  {
    hide Tables, Gives, Underway, Bounded, UniqueUids, GivenBelow, Kept, ReadBelow, StaleRename;
    TablesKeep(s, e);
    NewPending(s, e);
    var pending := Underway(s, e);
    forall c | c in pending ensures ReadBelow(Tables(s, e), pending[c]) {
      if !(c in s.pending && pending[c] == s.pending[c]) {
        ReadNow(s.db, pending[c]);
      }
      ReadKeeps(s.db, Tables(s, e), pending[c]);
    }
  }

  lemma NextKeepsInv(s: State, e: Event)
    requires Inv(s) && !StaleRename(s, e)
    ensures Inv(Next(s, e))
  {
    hide Tables, Gives, Underway, Bounded, UniqueUids, GivenBelow, PendingBelow, StaleRename;
    TablesKeep(s, e);
    GivenKeeps(s, e);
    PendingKeeps(s, e);
  }

  /** A pending operation is an old one, or has just read the present `next_uid`. */
  lemma NewPending(s: State, e: Event)
    ensures var pending := Underway(s, e);
            forall c :: c in pending ==>
              || (c in s.pending && pending[c] == s.pending[c])
              || (pending[c].target in s.db.folders && pending[c].uid == s.db.folders[pending[c].target].nextUid)
  {
  }

  const EMPTY := State(Db(map[], map[], map[], 0, 0, 0), map[], [])

  /** Safety over every interleaving: stored UIDs are unique in their folder and no recipient outlives its
      message; unless a rename writes a changed `next_uid` back, they also lie below `next_uid`. */
  lemma StoreSafety(events: seq<Event>)
    ensures var s := Run(EMPTY, events);
            && UniqueUids(s.db) && Linked(s.db)
            && (NoStaleRename(EMPTY, events) ==> Bounded(s.db) && GivenBelow(s))
  {
    EmptyIsGood();
    RunKeepsLinked(EMPTY, events);
    RunKeepsDistinct(EMPTY, events);
    hide Run, Bounded, UniqueUids, GivenBelow, PendingBelow, Linked, NoStaleRename;
    if NoStaleRename(EMPTY, events) {
      RunKeepsInv(EMPTY, events);
    }
  }

  lemma EmptyIsGood()
    ensures Inv(EMPTY) && Distinct(EMPTY.db) && HandedFull(EMPTY) && Ascending(EMPTY.given) && EMPTY.pending == map[]
  {
  }

  lemma {:induction false} RunKeepsInv(s: State, events: seq<Event>)
    requires Inv(s) && NoStaleRename(s, events)
    ensures Inv(Run(s, events))
    decreases |events|
  {
    hide Inv, Next, StaleRename;
    if events != [] {
      NextKeepsInv(s, events[0]);
      RunKeepsInv(Next(s, events[0]), events[1..]);
    }
  }

  // ------------------------------------------------------------ the unique index

  /** Row ids are below their counters and UIDs unique, whatever `next_uid` says. */
  ghost predicate Distinct(db: Db) {
    && db.lastMessage >= 0 && (forall id :: id in db.messages ==> 0 < id <= db.lastMessage)
    && (forall f :: f in db.folders ==> f <= db.lastFolder)
    && UniqueUids(db)
  }

  lemma InsertDistinct(db: Db, m: Message)
    requires Distinct(db) && InsertMessage(db, m).Some?
    ensures Distinct(InsertMessage(db, m).value)
  {
  }

  lemma PlaceDistinct(db: Db, id: int, folder: int, uid: int)
    requires Distinct(db) && UpdatePlace(db, id, folder, uid).Some?
    ensures Distinct(UpdatePlace(db, id, folder, uid).value)
  {
  }

  /** Only the places of messages and the counters matter. */
  lemma SameDistinct(a: Db, b: Db)
    requires Distinct(a) && b.lastMessage == a.lastMessage && a.lastFolder <= b.lastFolder
    requires forall f :: f in b.folders ==> f in a.folders || f == b.lastFolder
    requires forall id :: id in b.messages ==>
               && id in a.messages
               && b.messages[id].folder == a.messages[id].folder && b.messages[id].uid == a.messages[id].uid
    ensures Distinct(b)
  {
  }

  lemma {:induction false} DeleteDistinct(db: Db, ids: seq<int>)
    requires Distinct(db)
    ensures Distinct(DeleteMessages(db, ids))
    decreases |ids|
  {
    if ids != [] {
      SameDistinct(db, DeleteMessage(db, ids[0]));
      hide Distinct, DeleteMessage;
      DeleteDistinct(DeleteMessage(db, ids[0]), ids[1..]);
    }
  }

  lemma AssignDistinct(db: Db, m: Message, folder: int)
    requires Distinct(db) && Assign(db, m, folder).Some?
    ensures Distinct(Assign(db, m, folder).value)
  {
    var placed := m.(folder := folder, uid := db.folders[folder].nextUid);
    InsertDistinct(db, placed);
    var db' := InsertMessage(db, placed).value;
    hide Distinct, InsertMessage;
    SameDistinct(db', IncrementNextUid(db', folder));
  }

  lemma SettleDistinct(db: Db, p: Pending, commits: bool)
    requires Distinct(db)
    ensures Distinct(Settle(db, p, commits))
  {
    match p
    case Copying(m, rs, target, uid) =>
      var placed := m.(folder := target, uid := uid);
      if InsertMessage(db, placed).Some? {
        InsertDistinct(db, placed);
        var db' := InsertMessage(db, placed).value;
        hide Distinct, InsertMessage, InsertRecipients;
        SameDistinct(db', IncrementNextUid(InsertRecipients(db', rs, db'.lastMessage), target));
      }
    case Moving(id, target, uid) =>
      if UpdatePlace(db, id, target, uid).Some? {
        PlaceDistinct(db, id, target, uid);
        var db' := UpdatePlace(db, id, target, uid).value;
        hide Distinct, UpdatePlace;
        SameDistinct(db', IncrementNextUid(db', target));
      }
    case Renaming(name, target, uid) =>
      hide Distinct;
      SameDistinct(db, Rename(db, target, name, uid));
  }

  lemma NextKeepsDistinct(s: State, e: Event)
    requires Distinct(s.db)
    ensures Distinct(Tables(s, e))
  {
    hide Distinct;
    if e.Deliver? {
      if Assign(s.db, e.message, e.folder).Some? {
        AssignDistinct(s.db, e.message, e.folder);
      }
      hide Assign;
    } else if e.Commit? {
      if e.client in s.pending {
        SettleDistinct(s.db, s.pending[e.client], e.commits);
      }
      hide Settle;
    } else if e.Expunge? {
      DeleteDistinct(s.db, e.ids);
      hide DeleteMessages;
    } else {
      SameDistinct(s.db, Tables(s, e));
    }
  }

  lemma {:induction false} RunKeepsDistinct(s: State, events: seq<Event>)
    requires Distinct(s.db)
    ensures Distinct(Run(s, events).db)
    decreases |events|
  {
    if events != [] {
      NextKeepsDistinct(s, events[0]);
      hide Distinct, Tables, Underway, Gives;
      RunKeepsDistinct(Next(s, events[0]), events[1..]);
    }
  }

  // ----------------------------------------------------------------- recipients

  lemma {:induction false} InsertLinked(db: Db, rs: seq<Recipient>, message: int)
    requires Linked(db) && message in db.messages
    ensures Linked(InsertRecipients(db, rs, message))
    decreases |rs|
  {
    if rs != [] {
      var next := db.(recipients := db.recipients[db.lastRecipient + 1 := rs[0].(message := message)],
                      lastRecipient := db.lastRecipient + 1);
      InsertLinked(next, rs[1..], message);
    }
  }

  lemma {:induction false} DeleteLinked(db: Db, ids: seq<int>)
    requires Linked(db)
    ensures Linked(DeleteMessages(db, ids))
    decreases |ids|
  {
    if ids != [] {
      DeleteLinked(DeleteMessage(db, ids[0]), ids[1..]);
    }
  }

  lemma SettleLinked(db: Db, p: Pending, commits: bool)
    requires Linked(db)
    ensures Linked(Settle(db, p, commits))
  {
    hide Taken;
    if p.Copying? && InsertMessage(db, p.message.(folder := p.target, uid := p.uid)).Some? {
      var db' := InsertMessage(db, p.message.(folder := p.target, uid := p.uid)).value;
      InsertLinked(db', p.recipients, db'.lastMessage);
      hide InsertRecipients;
    }
  }

  lemma DropLinked(db: Db, doomed: set<int>)
    requires Linked(db)
    ensures Linked(DropFolders(db, doomed))
  {
  }

  /** Deleting messages, one by one, by expunge or with their folder, leaves no recipient behind. */
  lemma NextKeepsLinked(s: State, e: Event)
    requires Linked(s.db)
    ensures Linked(Next(s, e).db)
  {
    if e.Commit? {
      if e.client in s.pending {
        SettleLinked(s.db, s.pending[e.client], e.commits);
      }
      hide Settle, Linked;
    } else if e.Deliver? {
      hide Taken;
    } else if e.Expunge? {
      DeleteLinked(s.db, e.ids);
      hide DeleteMessages, Linked;
    } else if e.DeleteFolders? {
      DropLinked(s.db, e.doomed);
      hide DropFolders, Linked;
    } else if e.AddRecipient? {
      if e.recipient.message in s.db.messages {
        InsertLinked(s.db, [e.recipient], e.recipient.message);
      }
      hide InsertRecipients, Linked;
    }
  }

  lemma {:induction false} RunKeepsLinked(s: State, events: seq<Event>)
    requires Linked(s.db)
    ensures Linked(Run(s, events).db)
    decreases |events|
  {
    hide Linked, Next;
    if events != [] {
      NextKeepsLinked(s, events[0]);
      RunKeepsLinked(Next(s, events[0]), events[1..]);
    }
  }

  // -------------------------------------------------------- losing and winning

  /** A copy loses exactly when its folder is gone or its stale UID has been given to a stored message,
      and then no table changes. A winner adds one row with the UID it read, and its recipients. */
  lemma CopyOutcome(s: State, client: int)
    requires Inv(s) && client in s.pending && s.pending[client].Copying?
    ensures var p, t := s.pending[client], Next(s, Commit(client, true));
            var loses := p.target !in s.db.folders || Taken(s.db, p.target, p.uid, 0);
            && (loses ==> t.db == s.db && t.given == s.given)
            && (!loses ==>
                  && t.given == s.given + [Handed(p.target, p.uid)]
                  && t.db.messages == s.db.messages[
                       s.db.lastMessage + 1 := p.message.(folder := p.target, uid := p.uid)]
                  && (forall r :: r in t.db.recipients <==>
                        r in s.db.recipients || s.db.lastRecipient < r <= s.db.lastRecipient + |p.recipients|)
                  && (forall i :: 0 <= i < |p.recipients| ==>
                        t.db.recipients[s.db.lastRecipient + 1 + i]
                            == p.recipients[i].(message := s.db.lastMessage + 1)))
  {
    var p := s.pending[client];
    var m := p.message.(folder := p.target, uid := p.uid);
    assert s.given + [] == s.given;
    hide Taken, Inv;
    if InsertMessage(s.db, m).Some? {
      var db := InsertMessage(s.db, m).value;
      RecipientsInserted(db, p.recipients, db.lastMessage);
      hide InsertRecipients;
    }
  }

  lemma {:induction false} RecipientsInserted(db: Db, rs: seq<Recipient>, message: int)
    ensures var db' := InsertRecipients(db, rs, message);
            && db'.lastRecipient == db.lastRecipient + |rs|
            && (forall r :: r in db'.recipients <==>
                  r in db.recipients || db.lastRecipient < r <= db.lastRecipient + |rs|)
            && (forall i :: 0 <= i < |rs| ==> db'.recipients[db.lastRecipient + 1 + i] == rs[i].(message := message))
            && (forall r :: r in db.recipients && r <= db.lastRecipient ==> db'.recipients[r] == db.recipients[r])
    decreases |rs|
  {
    if rs != [] {
      var next := db.(recipients := db.recipients[db.lastRecipient + 1 := rs[0].(message := message)],
                      lastRecipient := db.lastRecipient + 1);
      RecipientsInserted(next, rs[1..], message);
    }
  }

  lemma MoveOutcome(s: State, client: int)
    requires Inv(s) && client in s.pending && s.pending[client].Moving?
    ensures var p, t := s.pending[client], Next(s, Commit(client, true));
            var present := p.id in s.db.messages;
            var loses := present && (p.target !in s.db.folders || Taken(s.db, p.target, p.uid, p.id));
            && (loses ==> t.db == s.db && t.given == s.given)
            && (present && !loses ==>
                  && t.given == s.given + [Handed(p.target, p.uid)]
                  && t.db.messages == s.db.messages[p.id := s.db.messages[p.id].(folder := p.target, uid := p.uid)])
            && (!present ==> t.db.messages == s.db.messages && t.given == s.given)
  {
    assert s.given + [] == s.given;
    hide Taken, Inv;
  }

  // ------------------------------------------------------------- never reused

  ghost predicate Ascending(given: seq<Handed>) {
    forall i, j :: 0 <= i < j < |given| && given[i].folder == given[j].folder ==> given[i].uid < given[j].uid
  }

  /** A copy or move carried out with a `next_uid` that has changed since it was read. */
  predicate StaleWin(s: State, e: Event) {
    && e.Commit? && e.commits && e.client in s.pending
    && Wins(s.db, s.pending[e.client]) && Stale(s.db, s.pending[e.client])
  }

  lemma GivesFresh(s: State, e: Event)
    requires !StaleWin(s, e) && Gives(s, e) != []
    ensures var h := Gives(s, e)[0]; h.folder in s.db.folders && h.uid == s.db.folders[h.folder].nextUid
  {
    hide Taken;
  }

  ghost predicate NoStaleWin(s: State, events: seq<Event>)
    decreases |events|
  {
    events == [] || (!StaleWin(s, events[0]) && NoStaleWin(Next(s, events[0]), events[1..]))
  }

  lemma NextKeepsAscending(s: State, e: Event)
    requires GivenBelow(s) && Ascending(s.given) && !StaleWin(s, e)
    ensures Ascending(Next(s, e).given)
  {
    assert |Gives(s, e)| <= 1 && s.given + [] == s.given;
    if Gives(s, e) != [] {
      GivesFresh(s, e);
      assert Gives(s, e) == [Gives(s, e)[0]];
    }
    hide Gives, Tables, Underway, StaleWin;
  }

  /** Without stale winners and stale renames each folder hands out strictly increasing UIDs, so none is ever
      used again, as section 2.3.1.1 of RFC 3501 asks. */
  lemma {:induction false} FreshUids(s: State, events: seq<Event>)
    requires Inv(s) && Ascending(s.given) && NoStaleWin(s, events) && NoStaleRename(s, events)
    ensures Ascending(Run(s, events).given)
    decreases |events|
  {
    if events != [] {
      NextKeepsInv(s, events[0]);
      NextKeepsAscending(s, events[0]);
      hide Inv, Next, Ascending, StaleWin, StaleRename;
      FreshUids(Next(s, events[0]), events[1..]);
    }
  }

  // The other half: a stale winner hands out a UID that its folder has already passed.

  /** A step that moves `next_uid` without handing anything out: incrementNextUID itself, and the move of a
      message that is gone. */
  predicate Skips(s: State, e: Event) {
    || e.Bump?
    || (e.Commit? && e.commits && e.client in s.pending
        && s.pending[e.client].Moving? && s.pending[e.client].id !in s.db.messages)
  }

  ghost predicate NoSkip(s: State, events: seq<Event>)
    decreases |events|
  {
    events == [] || (!Skips(s, events[0]) && NoSkip(Next(s, events[0]), events[1..]))
  }

  /** Every UID below `next_uid` that was the last of its folder has been handed out, and counting starts at 1. */
  ghost predicate HandedFull(s: State) {
    && (forall f :: f in s.db.folders ==> LastHanded(f, s.db.folders[f].nextUid, s.given))
    && (forall c :: c in s.pending ==> s.pending[c].uid >= 1)
  }

  predicate LastHanded(folder: int, nextUid: int, given: seq<Handed>) {
    nextUid >= 1 && (nextUid > 1 ==> Handed(folder, nextUid - 1) in given)
  }

  /** How a step that skips nothing moves the counters. */
  ghost predicate Moves(db: Db, db': Db, gives: seq<Handed>) {
    forall f :: f in db'.folders ==>
      || (f !in db.folders && db'.folders[f].nextUid == 1)
      || (f in db.folders && db'.folders[f].nextUid
          == db.folders[f].nextUid + if gives != [] && gives[0].folder == f then 1 else 0)
  }

  lemma AssignMoves(db: Db, m: Message, folder: int)
    requires Assign(db, m, folder).Some?
    ensures Moves(db, Assign(db, m, folder).value, [Handed(folder, db.folders[folder].nextUid)])
  {
    hide Taken;
  }

  lemma SettleMoves(db: Db, p: Pending, commits: bool)
    requires !(commits && p.Moving? && p.id !in db.messages) && !(commits && p.Renaming? && Stale(db, p))
    ensures Moves(db, Settle(db, p, commits), if commits && Wins(db, p) then [Handed(p.target, p.uid)] else [])
  {
    hide Taken;
  }

  lemma {:induction false} DeleteMoves(db: Db, ids: seq<int>)
    ensures DeleteMessages(db, ids).folders == db.folders
    decreases |ids|
  {
    if ids != [] {
      DeleteMoves(DeleteMessage(db, ids[0]), ids[1..]);
    }
  }

  lemma FolderMoves(db: Db, name: string, doomed: set<int>)
    requires Bounded(db)
    ensures Moves(db, AddFolder(db, name), []) && Moves(db, DropFolders(db, doomed), [])
  {
  }

  lemma NextMoves(s: State, e: Event)
    requires Bounded(s.db) && !Skips(s, e) && !StaleRename(s, e)
    ensures Moves(s.db, Tables(s, e), Gives(s, e))
  {
    if e.Commit? {
      if e.client in s.pending {
        SettleMoves(s.db, s.pending[e.client], e.commits);
      }
      hide Settle, Wins;
    } else if e.Deliver? {
      if Assign(s.db, e.message, e.folder).Some? {
        AssignMoves(s.db, e.message, e.folder);
      }
      hide Assign;
    } else if e.Expunge? {
      DeleteMoves(s.db, e.ids);
      hide DeleteMessages;
    } else if e.CreateFolder? {
      FolderMoves(s.db, e.name, {});
      hide AddFolder, Moves;
    } else if e.DeleteFolders? {
      FolderMoves(s.db, "", e.doomed);
      hide DropFolders, Moves;
    }
  }

  lemma FullKeeps(s: State, e: Event)
    requires Inv(s) && HandedFull(s) && !Skips(s, e) && !StaleWin(s, e) && !StaleRename(s, e)
    ensures HandedFull(Next(s, e))
  {
    hide Tables, Underway, Gives, Inv, Skips, StaleWin, StaleRename, LastHanded;
    assert Bounded(s.db) by { InvMeans(s); }
    NextMoves(s, e);
    var t, g := Next(s, e), Gives(s, e);
    if g != [] {
      GivesFresh(s, e);
    }
    forall f | f in t.db.folders ensures LastHanded(f, t.db.folders[f].nextUid, t.given) {
      if f !in s.db.folders {
        FirstNotHanded(f, t.given);
      } else if g != [] && g[0].folder == f {
        JustHanded(s, f, g);
      } else {
        StillHanded(f, s.db.folders[f].nextUid, s.given, g);
      }
    }
    PendingPositive(s, e);
  }

  lemma InvMeans(s: State)
    requires Inv(s)
    ensures Bounded(s.db)
  {
  }

  lemma FirstNotHanded(f: int, given: seq<Handed>)
    ensures LastHanded(f, 1, given)
  {
  }

  lemma JustHanded(s: State, f: int, g: seq<Handed>)
    requires f in s.db.folders && LastHanded(f, s.db.folders[f].nextUid, s.given)
    requires g != [] && g[0] == Handed(f, s.db.folders[f].nextUid)
    ensures LastHanded(f, s.db.folders[f].nextUid + 1, s.given + g)
  {
    assert (s.given + g)[|s.given|] == g[0];
  }

  lemma StillHanded(f: int, nextUid: int, given: seq<Handed>, more: seq<Handed>)
    requires LastHanded(f, nextUid, given)
    ensures LastHanded(f, nextUid, given + more)
  {
  }

  lemma PendingPositive(s: State, e: Event)
    requires HandedFull(s)
    ensures forall c :: c in Underway(s, e) ==> Underway(s, e)[c].uid >= 1
  {
    hide Underway;
    NewPending(s, e);
    forall c | c in Underway(s, e) ensures Underway(s, e)[c].uid >= 1 {
      var p := Underway(s, e)[c];
      if p.target in s.db.folders {
        assert LastHanded(p.target, s.db.folders[p.target].nextUid, s.given);
      }
    }
  }

  lemma StaleWinBreaks(s: State, e: Event)
    requires Inv(s) && HandedFull(s) && StaleWin(s, e)
    ensures !Ascending(Next(s, e).given)
  {
    var p := s.pending[e.client];
    var last := Handed(p.target, s.db.folders[p.target].nextUid - 1);
    assert Gives(s, e) == [Handed(p.target, p.uid)];
    assert p.uid < s.db.folders[p.target].nextUid && last in s.given;
    hide Tables, Underway, Gives, Inv, Skips, StaleWin, HandedFull;
    var i :| 0 <= i < |s.given| && s.given[i] == last;
    var all := s.given + [Handed(p.target, p.uid)];
    assert all[i] == last && all[|s.given|] == Handed(p.target, p.uid);
  }

  lemma {:induction false} GivenGrows(s: State, events: seq<Event>)
    ensures s.given <= Run(s, events).given
    decreases |events|
  {
    if events != [] {
      hide Tables, Underway, Gives;
      GivenGrows(Next(s, events[0]), events[1..]);
    }
  }

  lemma AscendingPrefix(a: seq<Handed>, b: seq<Handed>)
    requires a <= b && Ascending(b)
    ensures Ascending(a)
  {
    assert forall i :: 0 <= i < |a| ==> a[i] == b[i];
  }

  /** A rename that writes an older `next_uid` back puts it under a UID that has been handed out. */
  lemma StaleRenameBreaks(s: State, e: Event)
    requires Inv(s) && HandedFull(s) && StaleRename(s, e)
    ensures !GivenBelow(Next(s, e))
  {
    var p := s.pending[e.client];
    var last := Handed(p.target, s.db.folders[p.target].nextUid - 1);
    assert 1 <= p.uid < s.db.folders[p.target].nextUid && last in s.given;
    assert Gives(s, e) == [] && Tables(s, e) == Rename(s.db, p.target, p.name, p.uid);
    assert !HandedBelow(Tables(s, e), last);
    hide Tables, Underway, Gives, Inv, StaleRename, HandedFull, HandedBelow;
    var i :| 0 <= i < |s.given| && s.given[i] == last;
    assert Next(s, e).given[i] == last;
  }

  /** In every state of the run `next_uid` is above all that its folder has handed out. */
  ghost predicate AlwaysBelow(s: State, events: seq<Event>)
    decreases |events|
  {
    GivenBelow(s) && (events != [] ==> AlwaysBelow(Next(s, events[0]), events[1..]))
  }

  /** Over every run that skips no UID: UIDs are strictly increasing in every folder and always below its
      `next_uid`, if and only if no overtaken copy or move was carried out and no rename wrote a changed
      `next_uid` back. */
  lemma {:induction false} FreshIff(s: State, events: seq<Event>)
    requires Inv(s) && HandedFull(s) && Ascending(s.given) && NoSkip(s, events)
    ensures Ascending(Run(s, events).given) && AlwaysBelow(s, events) <==>
            NoStaleWin(s, events) && NoStaleRename(s, events)
    decreases |events|
  {
    assert GivenBelow(s);
    if events != [] {
      var e, t := events[0], Next(s, events[0]);
      RunStep(s, events);
      if StaleWin(s, e) {
        StaleWinBreaks(s, e);
        hide *;
        GivenGrows(t, events[1..]);
        if Ascending(Run(t, events[1..]).given) {
          AscendingPrefix(t.given, Run(t, events[1..]).given);
        }
      } else if StaleRename(s, e) {
        StaleRenameBreaks(s, e);
        hide *;
        BelowFirst(t, events[1..]);
      } else {
        NextKeepsInv(s, e);
        NextKeepsAscending(s, e);
        FullKeeps(s, e);
        hide *;
        FreshIff(t, events[1..]);
      }
    }
  }

  lemma BelowFirst(s: State, events: seq<Event>)
    ensures AlwaysBelow(s, events) ==> GivenBelow(s)
  {
  }

  /** Where no rename is stale, that leaves the overtaken copies and moves. */
  lemma FreshIffNoStaleWin(s: State, events: seq<Event>)
    requires Inv(s) && HandedFull(s) && Ascending(s.given) && NoSkip(s, events) && NoStaleRename(s, events)
    ensures Ascending(Run(s, events).given) <==> NoStaleWin(s, events)
  {
    hide *;
    FreshIff(s, events);
    BelowAlong(s, events);
  }

  lemma {:induction false} BelowAlong(s: State, events: seq<Event>)
    requires Inv(s) && NoStaleRename(s, events)
    ensures AlwaysBelow(s, events)
    decreases |events|
  {
    assert GivenBelow(s);
    if events != [] {
      NextKeepsInv(s, events[0]);
      hide Inv, Next, GivenBelow, StaleRename;
      BelowAlong(Next(s, events[0]), events[1..]);
    }
  }

  lemma RunStep(s: State, events: seq<Event>)
    requires events != []
    ensures var e, t, rest := events[0], Next(s, events[0]), events[1..];
            && Run(s, events) == Run(t, rest)
            && (NoStaleWin(s, events) <==> !StaleWin(s, e) && NoStaleWin(t, rest))
            && (NoStaleRename(s, events) <==> !StaleRename(s, e) && NoStaleRename(t, rest))
            && (NoSkip(s, events) <==> !Skips(s, e) && NoSkip(t, rest))
            && (AlwaysBelow(s, events) <==> GivenBelow(s) && AlwaysBelow(t, rest))
  {
  }

  /** The same from the beginning. */
  lemma FreshFromEmpty(events: seq<Event>)
    requires NoSkip(EMPTY, events)
    ensures Ascending(Run(EMPTY, events).given) && AlwaysBelow(EMPTY, events) <==>
            NoStaleWin(EMPTY, events) && NoStaleRename(EMPTY, events)
  {
    EmptyIsGood();
    hide *;
    FreshIff(EMPTY, events);
  }

  /** Where a step does skip a UID, an overtaken copy may take it without harm. */
  lemma SkippedUidMayBeTaken(s: State, client: int, id: int, folder: int)
    requires Inv(s) && Ascending(s.given) && id in s.db.messages && folder in s.db.folders
    ensures var s1 := Next(s, ReadForCopy(client, id, [], folder));
            var s2 := Next(s1, Bump(folder));
            StaleWin(s2, Commit(client, true)) && Ascending(Next(s2, Commit(client, true)).given)
  {
    var uid := s.db.folders[folder].nextUid;
    var s2 := Next(Next(s, ReadForCopy(client, id, [], folder)), Bump(folder));
    assert s2.pending[client].target == folder && s2.pending[client].uid == uid && s2.pending[client].Copying?;
    assert s2.db.messages == s.db.messages && s2.given == s.given;
    assert !Taken(s2.db, folder, uid, 0);
    assert Gives(s2, Commit(client, true)) == [Handed(folder, uid)];
    hide Tables, Underway, Gives, Bounded, UniqueUids, PendingBelow;
  }

  predicate ReadsAhead(e: Event) {
    e.ReadForCopy? || e.ReadForMove? || e.ReadForRename?
  }

  /** Runs of everything but copy, move and rename have nothing stale in them. */
  lemma {:induction false} NothingUnderway(s: State, events: seq<Event>)
    requires s.pending == map[]
    requires forall i :: 0 <= i < |events| ==> !ReadsAhead(events[i])
    ensures NoStaleWin(s, events) && NoStaleRename(s, events)
    decreases |events|
  {
    hide Tables, Gives, Wins;
    if events != [] {
      NothingUnderway(Next(s, events[0]), events[1..]);
    }
  }

  lemma FreshWithoutReads(events: seq<Event>)
    requires forall i :: 0 <= i < |events| ==> !ReadsAhead(events[i])
    ensures Ascending(Run(EMPTY, events).given)
  {
    EmptyIsGood();
    hide *;
    NothingUnderway(EMPTY, events);
    FreshUids(EMPTY, events);
  }

  /** A stale copy can hand out a UID a second time: any message is copied to any folder while another
      arrives there and is expunged before the copy commits. */
  lemma StaleCopyReusesUid(s: State, client: int, id: int, folder: int, m: Message)
    requires Inv(s) && id in s.db.messages && folder in s.db.folders
    ensures var arrived := s.db.lastMessage + 1;
            var run := [ReadForCopy(client, id, [], folder), Deliver(m, folder, true), Expunge([arrived], true),
                Commit(client, true)];
            var h := Handed(folder, s.db.folders[folder].nextUid);
            Run(s, run).given == s.given + [h, h]
  {
    var arrived := s.db.lastMessage + 1;
    var e1, e2, e3, e4 := ReadForCopy(client, id, [], folder), Deliver(m, folder, true), Expunge([arrived], true),
        Commit(client, true);
    var uid := s.db.folders[folder].nextUid;
    var s1 := Next(s, e1);
    var s2 := Next(s1, e2);
    assert s2.given == s.given + [Handed(folder, uid)];
    assert s2.db.messages == s.db.messages[arrived := m.(folder := folder, uid := uid)];
    var s3 := Next(s2, e3);
    DeleteOne(s2.db, arrived);
    assert s3.db.messages == s.db.messages && s3.pending == s1.pending;
    var s4 := Next(s3, e4);
    assert !Taken(s3.db, folder, uid, 0);
    assert s3.pending[client] == Copying(s.db.messages[id], [], folder, uid) && folder in s3.db.folders;
    assert InsertMessage(s3.db, s.db.messages[id].(folder := folder, uid := uid)).Some?;
    assert s4.given == s.given + [Handed(folder, uid), Handed(folder, uid)];
    var run := [e1, e2, e3, e4];
    assert run[1..] == [e2, e3, e4] && run[1..][1..] == [e3, e4] && run[1..][1..][1..] == [e4];
    assert Run(s3, [e4]) == s4;
    assert Run(s2, [e3, e4]) == s4;
    assert Run(s1, [e2, e3, e4]) == s4;
  }

  // ------------------------------------------------- below next_uid, over all runs

  /** A rename writes back a value that is not above all stored UIDs of its folder, or a copy or move wins with a
      UID above the present `next_uid`. */
  predicate Breaks(s: State, e: Event) {
    && e.Commit? && e.commits && e.client in s.pending
    && var p := s.pending[e.client];
       || (p.Renaming? && p.target in s.db.folders && StoredFrom(s.db, p.target, p.uid))
       || (Wins(s.db, p) && p.uid > s.db.folders[p.target].nextUid)
  }

  /** The folder holds this UID or a higher one. */
  predicate StoredFrom(db: Db, folder: int, uid: int) {
    exists id :: id in db.messages && db.messages[id].folder == folder && db.messages[id].uid >= uid
  }

  /** A rename keeps UIDs below `next_uid` exactly when those of its folder are below the value it read. */
  lemma RenameExact(db: Db, folder: int, name: string, nextUid: int)
    requires Bounded(db) && folder in db.folders
    ensures Bounded(Rename(db, folder, name, nextUid)) <==> !StoredFrom(db, folder, nextUid)
  {
    var db' := Rename(db, folder, name, nextUid);
    assert db'.messages == db.messages && db'.folders[folder].nextUid == nextUid;
  }

  /** A copy or move that wins keeps them there exactly when its own UID is not above `next_uid`. */
  lemma WinExact(db: Db, p: Pending)
    requires Bounded(db) && UniqueUids(db) && Wins(db, p)
    ensures Bounded(Settle(db, p, true)) <==> p.uid <= db.folders[p.target].nextUid
  {
    var id := if p.Copying? then db.lastMessage + 1 else p.id;
    if p.uid <= db.folders[p.target].nextUid {
      if p.Copying? {
        hide Taken, Bounded, UniqueUids;
        CopyKeeps(db, p.message, p.recipients, p.target, p.uid);
      } else {
        hide Taken, Bounded, UniqueUids;
        MoveKeeps(db, p.id, p.target, p.uid);
      }
    } else {
      hide Taken, UniqueUids;
      var db' := Settle(db, p, true);
      assert db'.messages[id].uid == p.uid && db'.messages[id].folder == p.target;
      assert db'.folders[p.target].nextUid == db.folders[p.target].nextUid + 1;
    }
  }

  /** A loser changes nothing, but for the increment behind the move of a message that is gone. */
  lemma LoserChanges(db: Db, p: Pending, commits: bool)
    requires !p.Renaming? && !(commits && Wins(db, p))
    ensures Settle(db, p, commits) == db || Settle(db, p, commits) == IncrementNextUid(db, p.target)
  {
    hide Taken, IncrementNextUid, InsertRecipients;
  }

  lemma LoserKeeps(db: Db, p: Pending, commits: bool)
    requires Bounded(db) && UniqueUids(db) && !p.Renaming? && !(commits && Wins(db, p))
    ensures Bounded(Settle(db, p, commits))
  {
    hide Taken, UniqueUids, Bounded, IncrementNextUid, InsertRecipients;
    IncrementKeeps(db, p.target);
    LoserChanges(db, p, commits);
  }

  /** One step keeps stored UIDs below `next_uid` exactly when it is not one of those two. */
  lemma StepExact(s: State, e: Event)
    requires Bounded(s.db) && UniqueUids(s.db)
    ensures Bounded(Tables(s, e)) <==> !Breaks(s, e)
  {
    if e.Commit? {
      if e.client in s.pending {
        var p := s.pending[e.client];
        hide Bounded, UniqueUids, StoredFrom;
        if !e.commits {
          hide Wins;
        } else if p.Renaming? {
          if p.target in s.db.folders {
            RenameExact(s.db, p.target, p.name, p.uid);
          }
          hide Rename;
        } else if Wins(s.db, p) {
          WinExact(s.db, p);
          hide Settle;
        } else {
          LoserKeeps(s.db, p, true);
          hide Settle, Wins;
        }
      }
    } else {
      OtherKeeps(s, e);
    }
  }

  lemma OtherKeeps(s: State, e: Event)
    requires Bounded(s.db) && UniqueUids(s.db) && !e.Commit?
    ensures Kept(s.db, Tables(s, e))
  {
    hide Bounded, UniqueUids, Kept, Delivered, DeleteMessages, Mark, AddFolder, DropFolders, IncrementNextUid,
      InsertRecipient;
    KeptSame(s.db);
    if e.Deliver? {
      DeliverKeeps(s.db, e.message, e.folder, e.commits);
    } else if e.Expunge? {
      DeletesKeep(s.db, e.ids);
    } else if e.MarkDeleted? {
      MarkKeeps(s.db, e.id, e.deleted);
    } else if e.CreateFolder? {
      AddFolderKeeps(s.db, e.name);
    } else if e.DeleteFolders? {
      DropFoldersKeeps(s.db, e.doomed);
    } else if e.AddRecipient? {
      RecipientKeeps(s.db, e.recipient);
    } else if e.Bump? {
      IncrementKeeps(s.db, e.folder);
    }
  }

  ghost predicate NoBreak(s: State, events: seq<Event>)
    decreases |events|
  {
    events == [] || (!Breaks(s, events[0]) && NoBreak(Next(s, events[0]), events[1..]))
  }

  ghost predicate AlwaysBounded(s: State, events: seq<Event>)
    decreases |events|
  {
    Bounded(s.db) && (events != [] ==> AlwaysBounded(Next(s, events[0]), events[1..]))
  }

  /** Over every run: stored UIDs are below `next_uid` in all its states if and only if no step is one of those
      two. */
  lemma {:induction false} BoundedIff(s: State, events: seq<Event>)
    requires Bounded(s.db) && Distinct(s.db)
    ensures AlwaysBounded(s, events) <==> NoBreak(s, events)
    decreases |events|
  {
    if events != [] {
      StepExact(s, events[0]);
      NextKeepsDistinct(s, events[0]);
      hide Bounded, Distinct, Breaks, Tables, Underway, Gives;
      if Bounded(Next(s, events[0]).db) {
        BoundedIff(Next(s, events[0]), events[1..]);
      }
    }
  }

  // ------------------------------------------------- never reused, over all runs

  /** This UID or a higher one has been handed out in the folder. */
  predicate HandedFrom(given: seq<Handed>, folder: int, uid: int) {
    exists i :: 0 <= i < |given| && given[i].folder == folder && given[i].uid >= uid
  }

  /** A rename writes back a value that is not above all UIDs handed out, or a copy or move wins with a UID that
      has been passed, or with one above the present `next_uid`. */
  predicate Harms(s: State, e: Event) {
    && e.Commit? && e.commits && e.client in s.pending
    && var p := s.pending[e.client];
       || (p.Renaming? && p.target in s.db.folders && HandedFrom(s.given, p.target, p.uid))
       || (Wins(s.db, p) && (p.uid > s.db.folders[p.target].nextUid || HandedFrom(s.given, p.target, p.uid)))
  }

  lemma {:induction false} DeleteGrows(db: Db, ids: seq<int>)
    requires Distinct(db)
    ensures FoldersGrow(db, DeleteMessages(db, ids))
    decreases |ids|
  {
    if ids != [] {
      DeleteMoves(db, ids);
      DeleteCounters(db, ids);
      hide DeleteMessages;
    }
  }

  lemma {:induction false} DeleteCounters(db: Db, ids: seq<int>)
    ensures DeleteMessages(db, ids).lastFolder == db.lastFolder
    decreases |ids|
  {
    if ids != [] {
      DeleteCounters(DeleteMessage(db, ids[0]), ids[1..]);
    }
  }

  lemma SettleGrows(db: Db, p: Pending, commits: bool)
    requires Distinct(db) && !p.Renaming?
    ensures FoldersGrow(db, Settle(db, p, commits))
    ensures commits && Wins(db, p) ==>
              Settle(db, p, commits).folders[p.target].nextUid == db.folders[p.target].nextUid + 1
  {
    hide Taken, UniqueUids;
  }

  lemma DeliveredGrows(db: Db, m: Message, folder: int, commits: bool)
    requires Distinct(db)
    ensures FoldersGrow(db, Delivered(db, m, folder, commits))
  {
    hide Taken, UniqueUids;
  }

  /** Only a rename can lower a `next_uid`. */
  lemma GrowsOtherwise(s: State, e: Event)
    requires Distinct(s.db) && !(e.Commit? && e.client in s.pending && s.pending[e.client].Renaming?)
    ensures FoldersGrow(s.db, Tables(s, e))
  {
    if e.Commit? {
      hide Distinct;
      if e.client in s.pending {
        SettleGrows(s.db, s.pending[e.client], e.commits);
      }
      hide Settle;
    } else if e.Deliver? {
      hide Distinct;
      DeliveredGrows(s.db, e.message, e.folder, e.commits);
      hide Delivered;
    } else if e.Expunge? {
      hide Distinct;
      DeleteGrows(s.db, e.ids);
      hide DeleteMessages;
    } else {
      hide UniqueUids;
    }
  }

  lemma BelowGrows(given: seq<Handed>, db: Db, db': Db)
    requires FoldersGrow(db, db') && forall i :: 0 <= i < |given| ==> HandedBelow(db, given[i])
    ensures forall i :: 0 <= i < |given| ==> HandedBelow(db', given[i])
  {
  }

  /** What is handed out next keeps the order exactly when it is above everything handed out before. */
  lemma AscendingSnoc(given: seq<Handed>, h: Handed)
    requires Ascending(given)
    ensures Ascending(given + [h]) <==> !HandedFrom(given, h.folder, h.uid)
  {
    var all := given + [h];
    assert all[|given|] == h && forall i :: 0 <= i < |given| ==> all[i] == given[i];
  }

  lemma RenameHarm(s: State, e: Event)
    requires Distinct(s.db) && GivenBelow(s) && e.Commit? && e.client in s.pending && s.pending[e.client].Renaming?
    ensures Next(s, e).given == s.given && (GivenBelow(Next(s, e)) <==> !Harms(s, e))
  {
    var p, t := s.pending[e.client], Next(s, e);
    assert t.given == s.given;
    if e.commits && p.target in s.db.folders {
      assert t.db == Rename(s.db, p.target, p.name, p.uid);
      hide Tables, Gives, Underway, Distinct;
      if HandedFrom(s.given, p.target, p.uid) {
        var i :| 0 <= i < |s.given| && s.given[i].folder == p.target && s.given[i].uid >= p.uid;
        assert !HandedBelow(t.db, t.given[i]);
      } else {
        forall i | 0 <= i < |t.given| ensures HandedBelow(t.db, t.given[i]) {
          assert HandedBelow(s.db, s.given[i]);
        }
      }
    } else {
      assert t.db == s.db;
    }
  }

  lemma WinHarm(s: State, e: Event)
    requires Distinct(s.db) && GivenBelow(s) && Ascending(s.given)
    requires e.Commit? && e.commits && e.client in s.pending && Wins(s.db, s.pending[e.client])
    ensures Ascending(Next(s, e).given) && GivenBelow(Next(s, e)) <==> !Harms(s, e)
  {
    var p, t := s.pending[e.client], Next(s, e);
    var h := Handed(p.target, p.uid);
    assert Gives(s, e) == [h] && Tables(s, e) == Settle(s.db, p, true) && p.target <= s.db.lastFolder;
    hide Tables, Gives, Underway, Distinct, Wins, Settle;
    SettleGrows(s.db, p, true);
    BelowGrows(s.given, s.db, t.db);
    AscendingSnoc(s.given, h);
    assert HandedBelow(t.db, h) <==> p.uid <= s.db.folders[p.target].nextUid;
    hide HandedBelow, Ascending, HandedFrom;
    assert t.given[|s.given|] == h && forall i :: 0 <= i < |s.given| ==> t.given[i] == s.given[i];
  }

  lemma DeliveryHarmless(s: State, e: Event)
    requires Distinct(s.db) && GivenBelow(s) && Ascending(s.given) && e.Deliver? && Gives(s, e) != []
    ensures Ascending(Next(s, e).given) && GivenBelow(Next(s, e))
  {
    var t := Next(s, e);
    var h := Handed(e.folder, s.db.folders[e.folder].nextUid);
    assert Gives(s, e) == [h] && Tables(s, e) == Assign(s.db, e.message, e.folder).value;
    assert h.folder <= s.db.lastFolder && t.db.lastFolder == s.db.lastFolder;
    assert t.db.folders[e.folder].nextUid == s.db.folders[e.folder].nextUid + 1 by { hide Taken; }
    GrowsOtherwise(s, e);
    hide Tables, Gives, Underway, Distinct, Assign;
    BelowGrows(s.given, s.db, t.db);
    AscendingSnoc(s.given, h);
    assert forall i :: 0 <= i < |s.given| ==> HandedBelow(s.db, s.given[i]);
    assert !HandedFrom(s.given, h.folder, h.uid);
    assert HandedBelow(t.db, h);
    hide HandedBelow, Ascending, HandedFrom;
    assert t.given[|s.given|] == h && forall i :: 0 <= i < |s.given| ==> t.given[i] == s.given[i];
  }

  /** One step keeps the UIDs strictly increasing and below `next_uid` exactly when it does no such harm. */
  lemma HarmExact(s: State, e: Event)
    requires Distinct(s.db) && GivenBelow(s) && Ascending(s.given)
    ensures Ascending(Next(s, e).given) && GivenBelow(Next(s, e)) <==> !Harms(s, e)
  {
    if e.Commit? && e.client in s.pending && s.pending[e.client].Renaming? {
      hide Distinct, GivenBelow, Ascending, Tables, Gives, Underway, Harms;
      RenameHarm(s, e);
    } else if e.Commit? && e.commits && e.client in s.pending && Wins(s.db, s.pending[e.client]) {
      hide Distinct, GivenBelow, Ascending, Tables, Gives, Underway, Harms;
      WinHarm(s, e);
    } else if Gives(s, e) != [] {
      assert e.Deliver?;
      hide Distinct, GivenBelow, Ascending, Tables, Gives, Underway;
      DeliveryHarmless(s, e);
    } else {
      GrowsOtherwise(s, e);
      assert s.given + [] == s.given && !Harms(s, e);
      hide Distinct, Ascending, Tables, Gives, Underway, Harms;
      BelowGrows(s.given, s.db, Next(s, e).db);
    }
  }

  ghost predicate NoHarm(s: State, events: seq<Event>)
    decreases |events|
  {
    events == [] || (!Harms(s, events[0]) && NoHarm(Next(s, events[0]), events[1..]))
  }

  /** Over every run whatever: UIDs are strictly increasing in every folder and always below its `next_uid`, if and
      only if no step does harm. */
  lemma {:induction false} FreshExact(s: State, events: seq<Event>)
    requires Distinct(s.db) && GivenBelow(s) && Ascending(s.given)
    ensures Ascending(Run(s, events).given) && AlwaysBelow(s, events) <==> NoHarm(s, events)
    decreases |events|
  {
    if events != [] {
      var t := Next(s, events[0]);
      HarmExact(s, events[0]);
      NextKeepsDistinct(s, events[0]);
      assert Distinct(t.db);
      hide Distinct, GivenBelow, Ascending, Next, Harms;
      if Ascending(t.given) && GivenBelow(t) {
        FreshExact(t, events[1..]);
      } else {
        BelowFirst(t, events[1..]);
        GivenGrows(t, events[1..]);
        if Ascending(Run(t, events[1..]).given) {
          AscendingPrefix(t.given, Run(t, events[1..]).given);
        }
      }
    }
  }

  // ------------------------------------------------------------- stale renames

  /** A stored message has the UID that the folder is to hand out next. */
  predicate Blocked(db: Db, folder: int) {
    folder in db.folders && Taken(db, folder, db.folders[folder].nextUid, 0)
  }

  /** The steps that may end this: those that take a message or the folder itself away, and those that move its
      `next_uid`. */
  predicate MayUnblock(s: State, e: Event, folder: int) {
    match e
    case Commit(client, commits) =>
      && commits && client in s.pending
      && var p := s.pending[client];
         || p.target == folder
         || (p.Moving? && p.id in s.db.messages && s.db.messages[p.id].folder == folder)
    case Expunge(ids, commits) =>
      commits && exists id :: id in ids && id in s.db.messages && s.db.messages[id].folder == folder
    case DeleteFolders(doomed) => folder in doomed
    case Bump(f) => f == folder
    case _ => false
  }

  ghost predicate NoUnblock(s: State, events: seq<Event>, folder: int)
    decreases |events|
  {
    events == [] || (!MayUnblock(s, events[0], folder) && NoUnblock(Next(s, events[0]), events[1..], folder))
  }

  /** Everything in the folder stays where it is, and so does its `next_uid`. */
  ghost predicate Untouched(db: Db, db': Db, folder: int) {
    && (folder in db.folders ==> folder in db'.folders && db'.folders[folder].nextUid == db.folders[folder].nextUid)
    && (forall id :: id in db.messages && db.messages[id].folder == folder ==>
          id in db'.messages && db'.messages[id].folder == folder && db'.messages[id].uid == db.messages[id].uid)
  }

  lemma BlockedThen(db: Db, db': Db, folder: int)
    requires Blocked(db, folder) && Untouched(db, db', folder)
    ensures Blocked(db', folder)
  {
    var id :| id in db.messages && id != 0 && db.messages[id].folder == folder
              && db.messages[id].uid == db.folders[folder].nextUid;
    assert db'.messages[id].uid == db'.folders[folder].nextUid;
  }

  lemma SettleElsewhere(db: Db, p: Pending, folder: int)
    requires Distinct(db) && p.target != folder
    requires p.Moving? && p.id in db.messages ==> db.messages[p.id].folder != folder
    ensures Untouched(db, Settle(db, p, true), folder)
  {
    hide Taken, UniqueUids;
  }

  lemma DeliverElsewhere(db: Db, m: Message, to: int, folder: int, commits: bool)
    requires Distinct(db) && to != folder
    ensures Untouched(db, Delivered(db, m, to, commits), folder)
  {
    hide Taken, UniqueUids;
  }

  lemma {:induction false} DeleteElsewhere(db: Db, ids: seq<int>, folder: int)
    requires forall id :: id in ids && id in db.messages ==> db.messages[id].folder != folder
    ensures Untouched(db, DeleteMessages(db, ids), folder)
    decreases |ids|
  {
    if ids != [] {
      assert ids[0] in ids;
      DeleteElsewhere(DeleteMessage(db, ids[0]), ids[1..], folder);
    }
  }

  lemma OtherwiseUntouched(s: State, e: Event, folder: int)
    requires Distinct(s.db) && folder in s.db.folders && !e.Deliver? && !MayUnblock(s, e, folder)
    ensures Untouched(s.db, Tables(s, e), folder)
  {
    if e.Commit? {
      if e.commits && e.client in s.pending {
        SettleElsewhere(s.db, s.pending[e.client], folder);
      }
      hide Settle, Distinct;
      if !e.commits && e.client in s.pending {
        NotCommitted(s.db, s.pending[e.client]);
      }
    } else if e.Expunge? {
      if e.commits {
        DeleteElsewhere(s.db, e.ids, folder);
      }
      hide DeleteMessages, Distinct;
    } else {
      hide UniqueUids;
    }
  }

  lemma NotCommitted(db: Db, p: Pending)
    ensures Settle(db, p, false) == db
  {
    hide Copy, Move, Rename;
  }

  /** A delivery to a blocked folder is rolled back, and with it the increment. */
  lemma DeliveryRefused(db: Db, m: Message, folder: int, commits: bool)
    requires Blocked(db, folder)
    ensures Assign(db, m, folder).None? && Delivered(db, m, folder, commits) == db
  {
  }

  /** Any step but one of those leaves the folder blocked, and hands out none of its UIDs. */
  lemma BlockedStep(s: State, e: Event, folder: int)
    requires Distinct(s.db) && Blocked(s.db, folder) && !MayUnblock(s, e, folder)
    ensures Blocked(Tables(s, e), folder)
    ensures forall h :: h in Gives(s, e) ==> h.folder != folder
  {
    if e.Deliver? {
      if e.folder == folder {
        DeliveryRefused(s.db, e.message, folder, e.commits);
        hide Assign, Delivered, Blocked;
      } else {
        DeliverElsewhere(s.db, e.message, e.folder, folder, e.commits);
        hide Assign, Delivered, Distinct, Untouched;
        BlockedThen(s.db, Tables(s, e), folder);
      }
    } else {
      assert folder in s.db.folders;
      OtherwiseUntouched(s, e, folder);
      GivesElsewhere(s, e, folder);
      hide Tables, Gives, Distinct, MayUnblock, Untouched;
      BlockedThen(s.db, Tables(s, e), folder);
    }
  }

  lemma GivesElsewhere(s: State, e: Event, folder: int)
    requires !e.Deliver? && !MayUnblock(s, e, folder)
    ensures forall h :: h in Gives(s, e) ==> h.folder != folder
  {
    hide Wins;
  }

  /** A blocked folder hands out no UID, whatever happens elsewhere and however many deliveries are tried, until a
      step takes one of its messages or the folder away or moves its `next_uid`. */
  lemma {:induction false} BlockedStays(s: State, events: seq<Event>, folder: int)
    requires Distinct(s.db) && Blocked(s.db, folder) && NoUnblock(s, events, folder)
    ensures Blocked(Run(s, events).db, folder)
    ensures s.given <= Run(s, events).given
    ensures forall h :: h in Run(s, events).given[|s.given|..] ==> h.folder != folder
    decreases |events|
  {
    if events != [] {
      var e, t := events[0], Next(s, events[0]);
      BlockedStep(s, e, folder);
      NextKeepsDistinct(s, e);
      hide Distinct, Blocked, Tables, Gives, Underway, MayUnblock;
      BlockedStays(t, events[1..], folder);
      var all := Run(t, events[1..]).given;
      assert all[|s.given|..] == Gives(s, e) + all[|t.given|..] by { Behind(s.given, Gives(s, e), all); }
    }
  }

  lemma Behind(a: seq<Handed>, b: seq<Handed>, all: seq<Handed>)
    requires a + b <= all
    ensures all[|a|..] == b + all[|a + b|..]
  {
  }

  /** A message that arrives while a folder is renamed blocks the folder until such a step. */
  lemma StaleRenameBlocks(s: State, client: int, folder: int, name: string, m: Message, events: seq<Event>)
    requires Inv(s) && folder in s.db.folders
    ensures var t := Run(s, [ReadForRename(client, folder, name), Deliver(m, folder, true), Commit(client, true)]);
            && !Bounded(t.db) && Blocked(t.db, folder)
            && (NoUnblock(t, events, folder) ==>
                  && Blocked(Run(t, events).db, folder) && t.given <= Run(t, events).given
                  && forall h :: h in Run(t, events).given[|t.given|..] ==> h.folder != folder)
  {
    var e1, e2, e3 := ReadForRename(client, folder, name), Deliver(m, folder, true), Commit(client, true);
    var t := Next(Next(Next(s, e1), e2), e3);
    RenameRuns(s, client, folder, name, m);
    RunOfThree(s, e1, e2, e3);
    hide *;
    if NoUnblock(t, events, folder) {
      BlockedStays(t, events, folder);
    }
  }

  lemma RenameRuns(s: State, client: int, folder: int, name: string, m: Message)
    requires Inv(s) && folder in s.db.folders
    ensures var e1, e2, e3 := ReadForRename(client, folder, name), Deliver(m, folder, true), Commit(client, true);
            var t := Next(Next(Next(s, e1), e2), e3);
            !Bounded(t.db) && Blocked(t.db, folder) && Distinct(t.db)
  {
    var e1, e2, e3 := ReadForRename(client, folder, name), Deliver(m, folder, true), Commit(client, true);
    var uid, arrived := s.db.folders[folder].nextUid, s.db.lastMessage + 1;
    var s1 := Next(s, e1);
    var s2 := Next(s1, e2);
    assert s2.db.messages == s.db.messages[arrived := m.(folder := folder, uid := uid)];
    assert s2.pending[client] == Renaming(name, folder, uid);
    var t := Next(s2, e3);
    assert t.db == Rename(s2.db, folder, name, uid);
    assert t.db.messages[arrived].uid == uid && arrived != 0;
    assert Blocked(t.db, folder);
    assert Distinct(s.db);
    hide Tables, Underway, Gives, Inv, Blocked, Distinct, Bounded;
    NextKeepsDistinct(s, e1);
    NextKeepsDistinct(s1, e2);
    NextKeepsDistinct(s2, e3);
  }

  lemma RunOfThree(s: State, e1: Event, e2: Event, e3: Event)
    ensures Run(s, [e1, e2, e3]) == Next(Next(Next(s, e1), e2), e3)
  {
    hide Next;
    var events := [e1, e2, e3];
    assert events[1..] == [e2, e3] && [e2, e3][1..] == [e3] && [e3][1..] == [];
    var s2 := Next(Next(s, e1), e2);
    assert Run(s2, [e3]) == Run(Next(s2, e3), []);
    assert Run(Next(s, e1), [e2, e3]) == Run(s2, [e3]);
  }
}
