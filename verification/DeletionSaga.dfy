/**
 * Requesting the deletion of a source: one database transaction that enumerates
 * what derives from the source and its attachments, erases it and writes the
 * receipt; and the preview that announces the numbers.
 */
module DeletionSaga {
  import opened Common
  import opened MemoryTables

  type Key = string
  type ReceiptId = nat

  const FILE := "file"
  const SOURCE_TYPES := {"user_note", "chat", "email", "calendar_event", FILE, "task_conclusion", "web"}

  /** A connector's source row; emails and web pages carry objects of their own. */
  datatype SourceRow =
    | Plain(owner: User)
    | Email(owner: User, raw: Option<Key>, html: Option<Key>, attachments: seq<Option<Key>>)
    | Web(owner: User, raw: Option<Key>)

  datatype Counts = Counts(
    source: SourceRef, requestedBy: User, memoryIds: seq<MemId>, objectKeys: seq<Key>, nulled: set<MemId>,
      enumeratedAt: int)

  datatype Database = Database(
    tables: Tables,
    files: map<Key, User>,               // file_metadata: the owner of each stored file
    sources: map<SourceRef, SourceRow>,
    receipts: map<ReceiptId, Counts>,    // pending receipts
    jobs: seq<ReceiptId>)                // enqueued external legs

  datatype Error = UnknownType | BlankId | NoAdapter | NotFound

  /** The order in which the database returns rows: any, fixed for one call. */
  datatype Scan = Scan(memories: seq<MemId>, relations: seq<RelId>)

  ghost predicate Scans(t: Tables, scan: Scan) {
    && Distinct(scan.memories) && (forall m :: m in scan.memories <==> m in t.memories)
    && (forall r :: r in scan.relations <==> r in t.relations)
  }

  // ----------------------------------------------------------------- enumeration

  function Truthy(key: Option<Key>): seq<Key> {
    if key.Some? && key.value != "" then [key.value] else []
  }

  function Attached(attachments: seq<Option<Key>>): seq<Key> {
    if attachments == [] then []
    else (if attachments[0].Some? then [attachments[0].value] else []) + Attached(attachments[1..])
  }

  /** Connector-owned objects, and the attachments stored as sources of their own. */
  function ObjectsOf(db: Database, ref: SourceRef): seq<Key> {
    if ref.kind == FILE || ref !in db.sources then []
    else match db.sources[ref]
      case Plain(_) => []
      case Email(_, raw, html, _) => Truthy(raw) + Truthy(html)
      case Web(_, raw) => Truthy(raw)
  }

  function AttachmentsOf(db: Database, ref: SourceRef): seq<Key> {
    if ref.kind != FILE && ref in db.sources && db.sources[ref].Email? then Attached(db.sources[ref].attachments)
      else []
  }

  function FileRef(key: Key): SourceRef { SourceRef(FILE, key) }

  function RowsOf(t: Tables, scan: Scan, ref: SourceRef): seq<MemId> {
    Select(scan.memories, m => m in t.memories && t.memories[m].source == ref)
  }

  function AttachedRows(t: Tables, scan: Scan, keys: seq<Key>): seq<MemId> {
    if keys == [] then []
    else AttachedRows(t, scan, keys[..|keys| - 1]) + RowsOf(t, scan, FileRef(keys[|keys| - 1]))
  }

  /** Everything the transaction enumerates, in the order it does. */
  function Enumerated(db: Database, scan: Scan, ref: SourceRef): seq<MemId> {
    RowsOf(db.tables, scan, ref) + AttachedRows(db.tables, scan, AttachmentsOf(db, ref))
  }

  function SourceOwner(db: Database, ref: SourceRef): Option<User> {
    if ref.kind == FILE then if ref.id in db.files then Some(db.files[ref.id]) else None
    else if ref in db.sources then Some(db.sources[ref].owner) else None
  }

  /** The source and the attachments that go with it. */
  predicate Erases(db: Database, ref: SourceRef, source: SourceRef) {
    source == ref || (source.kind == FILE && source.id in AttachmentsOf(db, ref))
  }

  predicate Owns(t: Tables, user: User, rows: seq<MemId>) {
    forall m | m in rows && m in t.memories :: t.memories[m].owner == user
  }

  /** Attachment files that still exist, each once, in the order the cascade meets them. */
  function Removed(files: map<Key, User>, keys: seq<Key>): seq<Key> {
    if keys == [] then []
    else
      var n := |keys| - 1;
      Removed(files, keys[..n]) + (if keys[n] in files && keys[n] !in keys[..n] then [keys[n]] else [])
  }

  function Dedupe(base: seq<Key>, keys: seq<Key>): seq<Key>
    decreases |keys|
  {
    if keys == [] then base
    else
      var so := Dedupe(base, keys[..|keys| - 1]);
      if keys[|keys| - 1] in so then so else so + [keys[|keys| - 1]]
  }

  /** The object keys of the receipt. */
  function ReceiptKeys(db: Database, ref: SourceRef): seq<Key> {
    Dedupe(if ref.kind == FILE && ref.id in db.files then [ref.id] else [],
           ObjectsOf(db, ref) + Removed(db.files, AttachmentsOf(db, ref)))
  }

  function Doomed(db: Database, ref: SourceRef): set<MemId> {
    set m | m in db.tables.memories && Erases(db, ref, db.tables.memories[m].source)
  }

  function OpenTouching(t: Tables, scan: Scan, doomed: set<MemId>): seq<RelId> {
    Select(scan.relations, r => r in t.relations && t.relations[r].Open() && Touches(t.relations[r], doomed))
  }

  lemma {:induction false} AttachedRowsSpec(t: Tables, scan: Scan, keys: seq<Key>)
    requires Scans(t, scan)
    ensures forall m :: m in AttachedRows(t, scan, keys) <==>
      m in t.memories && t.memories[m].source.kind == FILE && t.memories[m].source.id in keys
    decreases |keys|
  {
    if keys != [] { AttachedRowsSpec(t, scan, keys[..|keys| - 1]); }
  }

  /** The enumeration lists exactly the memories derived from the source and its attachments. */
  lemma EnumeratesDoomed(db: Database, scan: Scan, ref: SourceRef)
    requires Scans(db.tables, scan)
    ensures forall m :: m in Enumerated(db, scan, ref) <==> m in Doomed(db, ref)
  {
    AttachedRowsSpec(db.tables, scan, AttachmentsOf(db, ref));
  }

  lemma {:induction false} RemovedSpec(files: map<Key, User>, keys: seq<Key>)
    ensures forall k :: k in Removed(files, keys) <==> k in keys && k in files
    ensures Distinct(Removed(files, keys))
    decreases |keys|
  {
    if keys != [] { RemovedSpec(files, keys[..|keys| - 1]); }
  }

  lemma {:induction false} DedupeSpec(base: seq<Key>, keys: seq<Key>)
    requires Distinct(base)
    ensures Distinct(Dedupe(base, keys)) && forall k :: k in Dedupe(base, keys) <==> k in base || k in keys
    decreases |keys|
  {
    if keys != [] { DedupeSpec(base, keys[..|keys| - 1]); }
  }

  lemma NothingTouched(t: Tables, scan: Scan)
    ensures OpenTouching(t, scan, {}) == []
  {
    SelectNone(scan.relations, r => r in t.relations && t.relations[r].Open() && Touches(t.relations[r], {}));
  }

  // ----------------------------------------------------------------- the deletion

  /** Who may delete: the owner of the source row, of every derived memory and of every attachment. */
  predicate Authorized(db: Database, user: User, ref: SourceRef) {
    && (match SourceOwner(db, ref)
        case Some(owner) => owner == user
        case None => exists m | m in db.tables.memories :: db.tables.memories[m].source == ref)
    && (forall m | m in Doomed(db, ref) :: db.tables.memories[m].owner == user)
    && (forall k | k in AttachmentsOf(db, ref) && k in db.files :: db.files[k] == user)
  }

  /** What the source row and its own memories allow. */
  predicate SourceAllows(db: Database, user: User, ref: SourceRef) {
    && (match SourceOwner(db, ref)
        case Some(owner) => owner == user
        case None => exists m | m in db.tables.memories :: db.tables.memories[m].source == ref)
    && (forall m | m in db.tables.memories && db.tables.memories[m].source == ref ::
      db.tables.memories[m].owner == user)
  }

  predicate AttachmentsAllow(db: Database, scan: Scan, user: User, keys: seq<Key>) {
    && Owns(db.tables, user, AttachedRows(db.tables, scan, keys))
    && forall k | k in keys && k in db.files :: db.files[k] == user
  }

  /** The cascade may go on past attachment `i` exactly when that attachment is the caller's too. */
  lemma AllowsOneMore(db: Database, scan: Scan, user: User, keys: seq<Key>, i: nat)
    requires Scans(db.tables, scan) && i < |keys| && AttachmentsAllow(db, scan, user, keys[..i])
    ensures AttachmentsAllow(db, scan, user, keys[..i + 1]) <==>
      && Owns(db.tables, user, RowsOf(db.tables, scan, FileRef(keys[i])))
      && (keys[i] in db.files && keys[i] !in keys[..i] ==> db.files[keys[i]] == user)
    ensures AttachmentsAllow(db, scan, user, keys) ==> AttachmentsAllow(db, scan, user, keys[..i + 1])
  {
    assert keys[..i + 1][..i] == keys[..i];
    AttachedRowsSpec(db.tables, scan, keys);
    AttachedRowsSpec(db.tables, scan, keys[..i + 1]);
  }

  lemma AuthorizedInParts(db: Database, scan: Scan, user: User, ref: SourceRef)
    requires Scans(db.tables, scan)
    ensures Authorized(db, user, ref) <==>
      SourceAllows(db, user, ref) && AttachmentsAllow(db, scan, user, AttachmentsOf(db, ref))
  {
    AttachedRowsSpec(db.tables, scan, AttachmentsOf(db, ref));
    if SourceAllows(db, user, ref) && AttachmentsAllow(db, scan, user, AttachmentsOf(db, ref)) {
      forall m | m in Doomed(db, ref) ensures db.tables.memories[m].owner == user {
        assert db.tables.memories[m].source == ref || m in AttachedRows(db.tables, scan, AttachmentsOf(db, ref));
      }
    }
  }

  function Erased(db: Database, scan: Scan, ref: SourceRef): Tables
    requires Scans(db.tables, scan)
  {
    Forget(db.tables, Doomed(db, ref), OpenTouching(db.tables, scan, Doomed(db, ref)))
  }

  function KeptFiles(db: Database, ref: SourceRef): map<Key, User> {
    map k | k in db.files && !Erases(db, ref, FileRef(k)) :: db.files[k]
  }

  /** The database after a successful request. */
  function Deleted(db: Database, scan: Scan, user: User, ref: SourceRef, rid: ReceiptId, now: int): Database
    requires Scans(db.tables, scan)
  {
    var counts := Counts(ref, user, Enumerated(db, scan, ref), ReceiptKeys(db, ref),
      Nulled(db.tables, Doomed(db, ref)), now);
    Database(
      Erased(db, scan, ref),
      KeptFiles(db, ref),
      if ref.kind == FILE then db.sources else db.sources - {ref},
      db.receipts[rid := counts],
      db.jobs + [rid])
  }

  /**
   * Exactly the derived memories go. A survivor changes only in a pointer into the
   * removed set, nulled, and in a lifted status: if it was contradicted, it gets a
   * status that a relation to a removed memory recorded, and stays contradicted only
   * when no such relation recorded one. Relations go exactly with their parties.
   */
  lemma DeletionIsExact(db: Database, scan: Scan, user: User, ref: SourceRef, rid: ReceiptId, now: int)
    requires Scans(db.tables, scan)
    ensures
      var t, t', doomed := db.tables, Deleted(db, scan, user, ref, rid, now).tables, Doomed(db, ref);
      && (forall m :: m in t'.memories <==> m in t.memories && !Erases(db, ref, t.memories[m].source))
      && (forall m | m in t'.memories ::
           && t'.memories[m].(status := Active, supersededBy := None) ==
             t.memories[m].(status := Active, supersededBy := None)
           && t'.memories[m].supersededBy == (if m in Nulled(t, doomed) then None else t.memories[m].supersededBy)
           && (t.memories[m].status != Contradicted ==> t'.memories[m].status == t.memories[m].status)
           && (t.memories[m].status == Contradicted ==> LiftOutcome(t, doomed, m, t'.memories[m].status)))
      && (forall r :: r in t'.relations <==> r in t.relations && !Touches(t.relations[r], doomed))
      && (forall r | r in t'.relations :: t'.relations[r] == t.relations[r])
  {
    var t, doomed := db.tables, Doomed(db, ref);
    var order := OpenTouching(t, scan, doomed);
    ForgetSpec(t, doomed, order);
    forall m | m in t.memories && m !in doomed && t.memories[m].status == Contradicted
      ensures LiftOutcome(t, doomed, m, LiftedStatus(t, doomed, order, m))
    {
      LiftedOutcome(t, doomed, order, m);
    }
  }

  /**
   * The receipt tells exactly what went: the ids of the removed memories, every object
   * of the source and of its attachments once, and the survivors whose pointer was nulled.
   */
  lemma ReceiptIsExact(db: Database, scan: Scan, user: User, ref: SourceRef, rid: ReceiptId, now: int)
    requires Scans(db.tables, scan)
    ensures
      var db' := Deleted(db, scan, user, ref, rid, now);
      var c := db'.receipts[rid];
      && (forall m :: m in c.memoryIds <==> m in db.tables.memories && m !in db'.tables.memories)
      && Distinct(c.objectKeys)
      && (forall k :: k in c.objectKeys <==> k in ObjectsOf(db, ref) || (k in db.files && k !in db'.files))
      && (forall m :: m in c.nulled <==>
           && m in db.tables.memories && m in db'.tables.memories
           && db.tables.memories[m].supersededBy != db'.tables.memories[m].supersededBy)
  {
    DeletionIsExact(db, scan, user, ref, rid, now);
    EnumeratesDoomed(db, scan, ref);
    var attachments := AttachmentsOf(db, ref);
    RemovedSpec(db.files, attachments);
    DedupeSpec(if ref.kind == FILE && ref.id in db.files then [ref.id] else [],
               ObjectsOf(db, ref) + Removed(db.files, attachments));
    var c := Deleted(db, scan, user, ref, rid, now).receipts[rid];
    forall k ensures k in c.objectKeys <==> k in ObjectsOf(db, ref) || (k in db.files && Erases(db, ref, FileRef(k))) {
      assert Erases(db, ref, FileRef(k)) <==> (ref.kind == FILE && ref.id == k) || k in attachments;
    }
  }

  // ----------------------------------------------------- the same, from the rows alone

  /** A non-blank raw or HTML key that the source row holds. */
  predicate HoldsKey(row: SourceRow, k: Key) {
    && k != ""
    && ((row.Email? && (row.raw == Some(k) || row.html == Some(k))) || (row.Web? && row.raw == Some(k)))
  }

  /** The deleted source is an email that carries file `k`. */
  predicate Carries(db: Database, ref: SourceRef, k: Key) {
    ref.kind != "file" && ref in db.sources && db.sources[ref].Email? && Some(k) in db.sources[ref].attachments
  }

  lemma {:induction false} AttachedSpec(attachments: seq<Option<Key>>)
    ensures forall k :: k in Attached(attachments) <==> Some(k) in attachments
  {
    if attachments != [] { AttachedSpec(attachments[1..]); }
  }

  lemma AttachmentsFromRows(db: Database, ref: SourceRef)
    ensures forall k :: k in AttachmentsOf(db, ref) <==> Carries(db, ref, k)
  {
    if ref in db.sources && db.sources[ref].Email? { AttachedSpec(db.sources[ref].attachments); }
  }

  /**
   * A memory goes if it carries the source's own provenance or that of a file the email
   * carries; a stored file goes under the same condition, the source row always, and
   * nothing else of either table.
   */
  lemma DeletedFromRows(db: Database, scan: Scan, user: User, ref: SourceRef, rid: ReceiptId, now: int)
    requires Scans(db.tables, scan)
    ensures
      var db' := Deleted(db, scan, user, ref, rid, now);
      && (forall m :: m in db'.tables.memories <==>
           && m in db.tables.memories && db.tables.memories[m].source != ref
           && !(db.tables.memories[m].source.kind == "file" && Carries(db, ref, db.tables.memories[m].source.id)))
      && (forall k :: k in db'.files <==>
           k in db.files && !(ref == SourceRef("file", k)) && !Carries(db, ref, k))
      && (forall k | k in db'.files :: db'.files[k] == db.files[k])
      && (forall r :: r in db'.sources <==> r in db.sources && (r != ref || ref.kind == "file"))
      && (forall r | r in db'.sources :: db'.sources[r] == db.sources[r])
  {
    DeletionIsExact(db, scan, user, ref, rid, now);
    AttachmentsFromRows(db, ref);
    forall k | k in db.files
      ensures Erases(db, ref, FileRef(k)) <==> ref == SourceRef("file", k) || Carries(db, ref, k)
    {
      assert FileRef(k).id == k;
    }
  }

  /**
   * The receipt's keys: the file itself, the keys the source row holds, the files the
   * email carries that still exist, and no others. It names source, requester and time,
   * joins the receipts there were, and its job is the last one enqueued.
   */
  lemma ReceiptFromRows(db: Database, scan: Scan, user: User, ref: SourceRef, rid: ReceiptId, now: int)
    requires Scans(db.tables, scan)
    ensures
      var db' := Deleted(db, scan, user, ref, rid, now);
      var c := db'.receipts[rid];
      && (forall k :: k in c.objectKeys <==>
           || (ref == SourceRef("file", k) && k in db.files)
           || (ref.kind != "file" && ref in db.sources && HoldsKey(db.sources[ref], k))
           || (Carries(db, ref, k) && k in db.files))
      && c.source == ref && c.requestedBy == user && c.enumeratedAt == now
      && db'.receipts.Keys == db.receipts.Keys + {rid} && db'.jobs == db.jobs + [rid]
      && forall r | r in db.receipts && r != rid :: db'.receipts[r] == db.receipts[r]
  {
    ReceiptIsExact(db, scan, user, ref, rid, now);
    DeletedFromRows(db, scan, user, ref, rid, now);
    ObjectsFromRows(db, ref);
  }

  lemma ObjectsFromRows(db: Database, ref: SourceRef)
    ensures forall k :: k in ObjectsOf(db, ref) <==>
      ref.kind != "file" && ref in db.sources && HoldsKey(db.sources[ref], k)
  {
  }

  /** Who may delete, from the rows: the owner of the source, of what derives from it and of the files it carries. */
  lemma AuthorizedFromRows(db: Database, user: User, ref: SourceRef)
    ensures Authorized(db, user, ref) <==>
      && (if ref.kind == "file" && ref.id in db.files then db.files[ref.id] == user
          else if ref.kind != "file" && ref in db.sources then db.sources[ref].owner == user
          else exists m :: m in db.tables.memories && db.tables.memories[m].source == ref)
      && (forall m | m in db.tables.memories && db.tables.memories[m].owner != user ::
           && db.tables.memories[m].source != ref
           && !(db.tables.memories[m].source.kind == "file" && Carries(db, ref, db.tables.memories[m].source.id)))
      && (forall k | k in db.files && Carries(db, ref, k) :: db.files[k] == user)
  {
    AttachmentsFromRows(db, ref);
    forall m | m in db.tables.memories
      ensures m in Doomed(db, ref) <==>
        || db.tables.memories[m].source == ref
        || (db.tables.memories[m].source.kind == "file" && Carries(db, ref, db.tables.memories[m].source.id))
    {
    }
  }

  lemma {:induction false} AttachedRowsDistinct(t: Tables, scan: Scan, keys: seq<Key>)
    requires Scans(t, scan) && Distinct(keys)
    ensures Distinct(AttachedRows(t, scan, keys))
    decreases |keys|
  {
    if keys != [] {
      var n := |keys| - 1;
      AttachedRowsDistinct(t, scan, keys[..n]);
      AttachedRowsSpec(t, scan, keys[..n]);
      DistinctAppend(AttachedRows(t, scan, keys[..n]), RowsOf(t, scan, FileRef(keys[n])));
    }
  }

  lemma EnumeratedIsDistinct(db: Database, scan: Scan, ref: SourceRef)
    requires Scans(db.tables, scan) && Distinct(AttachmentsOf(db, ref))
    ensures Distinct(Enumerated(db, scan, ref))
  {
    AttachedRowsDistinct(db.tables, scan, AttachmentsOf(db, ref));
    AttachedRowsSpec(db.tables, scan, AttachmentsOf(db, ref));
    DistinctAppend(RowsOf(db.tables, scan, ref), AttachedRows(db.tables, scan, AttachmentsOf(db, ref)));
  }

  /** As many ids are listed as memories go, unless an email names a file twice. */
  lemma MemoryCountIsExact(db: Database, scan: Scan, ref: SourceRef)
    requires Scans(db.tables, scan) && Distinct(AttachmentsOf(db, ref))
    ensures |Enumerated(db, scan, ref)| == |Doomed(db, ref)|
  {
    var ids := Enumerated(db, scan, ref);
    EnumeratedIsDistinct(db, scan, ref);
    EnumeratesDoomed(db, scan, ref);
    DistinctSize(ids, Doomed(db, ref));
  }

  // ------------------------------------------------------------------ the preview

  function PreviewMemories(db: Database, scan: Scan, ref: SourceRef): nat { |Enumerated(db, scan, ref)| }

  function Stored(files: map<Key, User>, keys: seq<Key>): seq<Key> { Select(keys, k => k in files) }

  /** The stored objects the preview counts: attachments once for each row that names them. */
  function PreviewKeys(db: Database, ref: SourceRef): seq<Key> {
    (if ref.kind == FILE && ref.id in db.files then [ref.id] else [])
    + ObjectsOf(db, ref) + Stored(db.files, AttachmentsOf(db, ref))
  }

  lemma StoredGrows(files: map<Key, User>, keys: seq<Key>, i: nat)
    requires i < |keys|
    ensures Stored(files, keys[..i + 1]) == Stored(files, keys[..i]) + if keys[i] in files then [keys[i]] else []
  {
    assert keys[..i + 1][..i] == keys[..i];
  }

  /**
   * The preview promises the receipt's memory count always, and its object count
   * exactly when no key is listed twice.
   */
  lemma PreviewIsHonest(db: Database, scan: Scan, user: User, ref: SourceRef, rid: ReceiptId, now: int)
    requires Scans(db.tables, scan)
    ensures
      var c := Deleted(db, scan, user, ref, rid, now).receipts[rid];
      && PreviewMemories(db, scan, ref) == |c.memoryIds|
      && (|PreviewKeys(db, ref)| == |c.objectKeys| <==> Distinct(PreviewKeys(db, ref)))
  {
    var attachments := AttachmentsOf(db, ref);
    var base := if ref.kind == FILE && ref.id in db.files then [ref.id] else [];
    RemovedSpec(db.files, attachments);
    DedupeSpec(base, ObjectsOf(db, ref) + Removed(db.files, attachments));
    assert (set k | k in PreviewKeys(db, ref)) == (set k | k in ReceiptKeys(db, ref));
    DistinctByCount(PreviewKeys(db, ref));
    DistinctByCount(ReceiptKeys(db, ref));
  }

  // ------------------------------------------------------------------------ saga

  class Saga {
    var db: Database
    const adapters: set<string>

    constructor (adapters: set<string>)
      requires FILE !in adapters
      ensures db == Database(EMPTY, map[], map[], map[], []) && this.adapters == adapters
    {
      db := Database(EMPTY, map[], map[], map[], []);
      this.adapters := adapters;
    }

    predicate Known(kind: string) { kind in SOURCE_TYPES && (kind == FILE || kind in adapters) }

    /** Resolves the source and checks that the caller owns its row and its memories. */
    method Authorize(user: User, ref: SourceRef, scan: Scan) returns (r: Result<seq<MemId>, Error>)
      requires Scans(db.tables, scan)
      ensures r.Ok? ==> r.value == RowsOf(db.tables, scan, ref)
      ensures r.Ok? <==> (ref.kind == FILE || ref.kind in adapters) && SourceAllows(db, user, ref)
      ensures r.Err? ==> r.error == if ref.kind == FILE || ref.kind in adapters then NotFound else NoAdapter
    {
      if ref.kind != FILE && ref.kind !in adapters { return Err(NoAdapter); }
      var sourceOwner := SourceOwner(db, ref);
      if sourceOwner.Some? && sourceOwner.value != user { return Err(NotFound); }
      var rows := RowsOf(db.tables, scan, ref);
      if sourceOwner.None? && |rows| == 0 {
        assert forall m | m in db.tables.memories && db.tables.memories[m].source == ref :: m in rows;
        return Err(NotFound);
      }
      if rows != [] { assert rows[0] in rows; }
      if exists m | m in rows :: db.tables.memories[m].owner != user { return Err(NotFound); }
      r := Ok(rows);
    }

    /** The confirm dialog's numbers. */
    method PreviewSourceDeletion(user: User, kind: string, id: string, scan: Scan)
      returns (r: Result<(nat, nat), Error>)
      requires Scans(db.tables, scan)
      ensures r.Ok? ==>
        r.value == (PreviewMemories(db, scan, SourceRef(kind, id)), |PreviewKeys(db, SourceRef(kind, id))|)
      ensures r.Ok? <==> Known(kind) && SourceAllows(db, user, SourceRef(kind, id))
      ensures kind !in SOURCE_TYPES <==> r == Err(UnknownType)
      ensures r == Err(NotFound) <==> Known(kind) && !SourceAllows(db, user, SourceRef(kind, id))
    {
      if kind !in SOURCE_TYPES { return Err(UnknownType); }
      var ref := SourceRef(kind, id);
      var authorized := Authorize(user, ref, scan);
      if authorized.Err? { return Err(authorized.error); }
      var memories, stored := CountAttachments(AttachmentsOf(db, ref), scan);
      var objectCount := if kind == FILE && id in db.files then 1 else 0;
      r := Ok((|authorized.value| + memories, objectCount + |ObjectsOf(db, ref)| + stored));
    }

    method CountAttachments(keys: seq<Key>, scan: Scan) returns (memories: nat, stored: nat)
      ensures memories == |AttachedRows(db.tables, scan, keys)| && stored == |Stored(db.files, keys)|
    {
      memories, stored := 0, 0;
      for i := 0 to |keys|
        invariant memories == |AttachedRows(db.tables, scan, keys[..i])| && stored == |Stored(db.files, keys[..i])|
      {
        assert keys[..i + 1][..i] == keys[..i];
        StoredGrows(db.files, keys, i);
        memories := memories + |RowsOf(db.tables, scan, FileRef(keys[i]))|;
        if keys[i] in db.files { stored := stored + 1; }
      }
      assert keys[..|keys|] == keys;
    }

    /**
     * One attachment file: its memories, the key when the file still existed, and the
     * remaining files. Anything foreign refuses.
     */
    method CascadeFileSubSource(user: User, key: Key, scan: Scan, files: map<Key, User>)
      returns (ok: bool, rows: seq<MemId>, removed: seq<Key>, left: map<Key, User>)
      requires Scans(db.tables, scan)
      ensures ok <==>
        Owns(db.tables, user, RowsOf(db.tables, scan, FileRef(key))) && (key in files ==> files[key] == user)
      ensures ok ==> rows == RowsOf(db.tables, scan, FileRef(key)) && left == files - {key}
      ensures ok ==> removed == if key in files then [key] else []
    {
      rows, removed, left := RowsOf(db.tables, scan, FileRef(key)), [], files;
      if exists m | m in rows :: db.tables.memories[m].owner != user { return false, rows, removed, left; }
      if key !in files { return true, rows, removed, left; }
      if files[key] != user { return false, rows, removed, left; }
      ok, removed, left := true, [key], files - {key};
    }

    /** Every attachment in turn: their memories join the rows, their keys the objects. */
    method CascadeFileSubSources(user: User, keys: seq<Key>, scan: Scan)
      returns (ok: bool, rows: seq<MemId>, removed: seq<Key>, files: map<Key, User>)
      requires Scans(db.tables, scan)
      ensures ok <==> AttachmentsAllow(db, scan, user, keys)
      ensures ok ==> rows == AttachedRows(db.tables, scan, keys) && removed == Removed(db.files, keys)
      ensures ok ==> files == db.files - (set k | k in keys)
    {
      rows, removed, files := [], [], db.files;
      for i := 0 to |keys|
        invariant rows == AttachedRows(db.tables, scan, keys[..i]) && removed == Removed(db.files, keys[..i])
        invariant files == db.files - (set k | k in keys[..i])
        invariant AttachmentsAllow(db, scan, user, keys[..i])
      {
        assert keys[..i + 1][..i] == keys[..i];
        var allowed, subRows, key, left := CascadeFileSubSource(user, keys[i], scan, files);
        AllowsOneMore(db, scan, user, keys, i);
        if !allowed { return false, rows, removed, files; }
        rows, removed, files := rows + subRows, removed + key, left;
      }
      assert keys[..|keys|] == keys;
      ok := true;
    }

    /** Lifts, nulls the pointers and deletes, unless there is nothing to delete. */
    method EraseRows(doomed: set<MemId>, scan: Scan) returns (t: Tables, nulled: set<MemId>)
      requires Scans(db.tables, scan)
      ensures t == Forget(db.tables, doomed, OpenTouching(db.tables, scan, doomed))
        && nulled == Nulled(db.tables, doomed)
    {
      var order := OpenTouching(db.tables, scan, doomed);
      LiftSpec(db.tables, doomed, order);
      if doomed == {} {
        NothingTouched(db.tables, scan);
        assert Forget(db.tables, doomed, order).memories == db.tables.memories;
        assert Forget(db.tables, doomed, order).relations == db.tables.relations;
        return db.tables, {};
      }
      var lifted;
      t, lifted := LiftContradictions(db.tables, doomed, order);
      nulled := Nulled(t, doomed);
      t := Erase(NullPointers(t, doomed), doomed);
    }

    method EraseEnumerated(ref: SourceRef, rows: seq<MemId>, scan: Scan) returns (t: Tables, nulled: set<MemId>)
      requires Scans(db.tables, scan) && rows == Enumerated(db, scan, ref)
      ensures t == Erased(db, scan, ref) && nulled == Nulled(db.tables, Doomed(db, ref))
    {
      var doomed := set m | m in rows;
      EnumeratesDoomed(db, scan, ref);
      assert doomed == Doomed(db, ref);
      t, nulled := EraseRows(doomed, scan);
    }

    /** One transaction: it commits as a whole, or an error leaves everything as it was. */
    method RequestSourceDeletion(user: User, kind: string, id: string, scan: Scan, rid: ReceiptId, now: int)
      returns (r: Result<ReceiptId, Error>)
      requires Scans(db.tables, scan) && rid !in db.receipts
      modifies this`db
      ensures r.Err? ==> db == old(db)
      ensures r.Ok? <==> Known(kind) && !Blank(id) && Authorized(old(db), user, SourceRef(kind, id))
      ensures r.Ok? ==> r.value == rid && db == Deleted(old(db), scan, user, SourceRef(kind, id), rid, now)
      ensures r.Err? ==>
        && (r.error == UnknownType <==> kind !in SOURCE_TYPES)
        && (r.error == BlankId <==> kind in SOURCE_TYPES && Blank(id))
        && (r.error == NotFound <==> Known(kind) && !Blank(id))
    {
      if kind !in SOURCE_TYPES { return Err(UnknownType); }
      if Blank(id) { return Err(BlankId); }
      var ref := SourceRef(kind, id);
      var authorized := Authorize(user, ref, scan);
      if authorized.Err? { return Err(authorized.error); }
      var keys := AttachmentsOf(db, ref);
      AuthorizedInParts(db, scan, user, ref);
      var ok, subRows, removed, files := CascadeFileSubSources(user, keys, scan);
      if !ok { return Err(NotFound); }
      Commit(user, ref, scan, rid, now, authorized.value + subRows, removed, files);
      r := Ok(rid);
    }

    /** Erases, deletes the source row and writes the receipt with its job. */
    method Commit(user: User, ref: SourceRef, scan: Scan, rid: ReceiptId, now: int,
                  rows: seq<MemId>, removed: seq<Key>, attached: map<Key, User>)
      requires Scans(db.tables, scan) && rows == Enumerated(db, scan, ref)
      requires removed == Removed(db.files, AttachmentsOf(db, ref))
      requires attached == db.files - (set k | k in AttachmentsOf(db, ref))
      modifies this`db
      ensures db == Deleted(old(db), scan, user, ref, rid, now)
    {
      var tables, nulled := EraseEnumerated(ref, rows, scan);
      var files, objectKeys := attached, [];
      if ref.kind == FILE && ref.id in db.files {
        files := files - {ref.id};
        objectKeys := [ref.id];
      }
      objectKeys := Dedupe(objectKeys, ObjectsOf(db, ref) + removed);
      assert files == KeptFiles(db, ref);
      var counts := Counts(ref, user, rows, objectKeys, nulled, now);
      db := Database(tables, files, if ref.kind == FILE then db.sources else db.sources - {ref},
                     db.receipts[rid := counts], db.jobs + [rid]);
    }
  }
}
