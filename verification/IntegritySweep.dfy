/**
 * The nightly sweep: confirmed receipts against all three stores, memories against
 * their sources, objects against their owners, index payloads against their rows.
 */
module IntegritySweep {
  import opened Common
  import opened Keyset
  import R = Reindex

  type Key = string
  type ReceiptId = nat
  type Source = (string, string)

  const PAYLOAD_PAGE_SIZE := 500
  const OBJECT_BATCH := 500

  datatype Object = Object(key: Key, lastModified: int)

  datatype Receipt = Receipt(id: ReceiptId, source: Source, memoryIds: seq<Id>, pointIds: seq<Id>, objectKeys: seq<Key>)

  datatype Field = Owner | Scope | Status | Sensitive

  /** One alert row; what the constructors hold is what the unique index on alerts compares. */
  datatype Alert =
    | MemoryPresent(rid: ReceiptId, id: Id)
    | PointPresent(rid: ReceiptId, id: Id)
    | ObjectPresent(rid: ReceiptId, key: Key)
    | Resurrected(rid: ReceiptId, id: Id)
    | SourceGone(id: Id)
    | StagingOutlived(key: Key)
    | UnownedObject(key: Key)
    | PointMissing(id: Id)
    | StalePayload(id: Id, fields: set<Field>)
    | ChainBroken(reason: string)

  datatype Stores = Stores(
    rows: map<Id, R.Row>,
    points: map<Id, R.Payload>,
    receipts: seq<Receipt>,          // confirmed
    live: set<Source>,               // source rows that exist
    files: set<Key>,                 // file_metadata
    owned: set<Key>,                 // keys recorded on live connector rows
    objects: seq<Object>,            // the bucket listing
    chainError: Option<string>)      // the verdict on the receipt chain

  function SourceOf(row: R.Row): Source { (row.payload.sourceType, row.payload.sourceId) }

  function Split(s: string, sep: char): (r: seq<string>)
    ensures |r| > 0
  {
    if s == "" then [""]
    else
      var rest := Split(s[1..], sep);
      if s[0] == sep then [""] + rest else [[s[0]] + rest[0]] + rest[1..]
  }

  /** The third path segment, where staging and export objects say what they are. */
  predicate InArea(key: Key, area: string) {
    var parts := Split(key, '/');
    |parts| > 2 && parts[2] == area
  }

  predicate Aged(o: Object, cutoff: int) { o.lastModified < cutoff && !InArea(o.key, "exports") }

  predicate Embedded(row: R.Row) { row.embeddingModel.Some? }

  function StaleFields(row: R.Payload, point: R.Payload): set<Field> {
    (if point.owner != row.owner then {Owner} else {}) + (if point.scope != row.scope then {Scope} else {})
    + (if point.status != row.status then {Status} else {})
      + (if point.sensitive != row.sensitive then {Sensitive} else {})
  }

  /** The gate fields are copied from the row, the provenance copy stays. */
  function Refreshed(row: R.Payload, point: R.Payload): R.Payload {
    point.(owner := row.owner, scope := row.scope, status := row.status, sensitive := row.sensitive,
           validUntil := row.validUntil)
  }

  // -------------------------------------------------------------------- the spec

  predicate ReceiptViolation(s: Stores, r: Receipt, a: Alert) {
    match a
    case MemoryPresent(rid, id) => rid == r.id && id in r.memoryIds && id in s.rows
    case PointPresent(rid, id) => rid == r.id && id in r.pointIds && id in s.points
    case ObjectPresent(rid, key) => rid == r.id && key in r.objectKeys && exists o | o in s.objects :: o.key == key
    case Resurrected(rid, id) => rid == r.id && id in s.rows && SourceOf(s.rows[id]) == r.source && id !in r.memoryIds
    case _ => false
  }

  predicate SourceViolation(s: Stores, adapters: set<string>, a: Alert) {
    a.SourceGone? && a.id in s.rows && SourceOf(s.rows[a.id]).0 in adapters && SourceOf(s.rows[a.id]) !in s.live
  }

  predicate ObjectViolation(s: Stores, cutoff: int, a: Alert) {
    match a
    case StagingOutlived(key) => exists o | o in s.objects :: Aged(o, cutoff) && o.key == key && InArea(key, "staging")
    case UnownedObject(key) =>
      && (exists o | o in s.objects :: Aged(o, cutoff) && o.key == key && !InArea(key, "staging"))
      && key !in s.files && key !in s.owned
    case _ => false
  }

  predicate PayloadViolation(rows: map<Id, R.Row>, points: map<Id, R.Payload>, a: Alert) {
    match a
    case PointMissing(id) => id in rows && Embedded(rows[id]) && id !in points
    case StalePayload(id, fields) =>
      && id in rows && Embedded(rows[id]) && id in points
      && fields == StaleFields(rows[id].payload, points[id]) && fields != {}
    case _ => false
  }

  /** Exactly what one sweep must report. */
  predicate Violation(s: Stores, adapters: set<string>, cutoff: int, a: Alert) {
    || (exists r | r in s.receipts :: ReceiptViolation(s, r, a))
    || SourceViolation(s, adapters, a)
    || ObjectViolation(s, cutoff, a)
    || PayloadViolation(s.rows, s.points, a)
    || (a.ChainBroken? && s.chainError == Some(a.reason))
  }

  /** Stale points of embedded rows are refreshed; no other point changes, and none appears. */
  function Healed(rows: map<Id, R.Row>, points: map<Id, R.Payload>): map<Id, R.Payload> {
    map id | id in points ::
      if id in rows && Embedded(rows[id]) && StaleFields(rows[id].payload, points[id]) != {}
      then Refreshed(rows[id].payload, points[id]) else points[id]
  }

  // --------------------------------------------------- the same, from the raw records

  predicate NoSlash(s: string) { forall c | c in s :: c != '/' }

  lemma {:induction false} SplitWhole(s: string)
    requires NoSlash(s)
    ensures Split(s, '/') == [s]
    decreases |s|
  {
    if s != "" {
      assert s[0] in s && forall c | c in s[1..] :: c in s;
      SplitWhole(s[1..]);
      assert [s[0]] + s[1..] == s;
    }
  }

  lemma {:induction false} SplitFirst(a: string, rest: string)
    requires NoSlash(a)
    ensures Split(a + "/" + rest, '/') == [a] + Split(rest, '/')
    decreases |a|
  {
    var t := a + "/" + rest;
    if a == "" {
      assert t == "/" + rest && t[1..] == rest;
    } else {
      assert t[1..] == a[1..] + "/" + rest;
      assert a[0] in a && forall c | c in a[1..] :: c in a;
      SplitFirst(a[1..], rest);
      assert [a[0]] + a[1..] == a;
    }
  }

  /** An object is in an area exactly as its third path segment says. */
  lemma AreaIsThirdSegment(a: string, b: string, area: string, rest: string, name: string)
    requires NoSlash(a) && NoSlash(b) && NoSlash(area)
    ensures InArea(a + "/" + b + "/" + area + "/" + rest, name) <==> name == area
    ensures InArea(a + "/" + b + "/" + area, name) <==> name == area
    ensures !InArea(a + "/" + b, name) && !InArea(a, name)
  {
    assert a + "/" + b + "/" + area + "/" + rest == a + "/" + (b + "/" + (area + "/" + rest));
    SplitFirst(a, b + "/" + (area + "/" + rest));
    SplitFirst(b, area + "/" + rest);
    SplitFirst(area, rest);
    assert a + "/" + b + "/" + area == a + "/" + (b + "/" + area);
    SplitFirst(a, b + "/" + area);
    SplitFirst(b, area);
    SplitWhole(area);
    SplitFirst(a, b);
    SplitWhole(b);
    SplitWhole(a);
  }

  /**
   * A receipt is contradicted by what it lists and what is there: each memory, point and
   * object in its own store, and a row of its source that it does not list.
   */
  lemma ReceiptAlertsFromRows(s: Stores, r: Receipt, id: Id, key: Key)
    ensures ReceiptViolation(s, r, MemoryPresent(r.id, id)) <==> id in r.memoryIds && id in s.rows
    ensures ReceiptViolation(s, r, PointPresent(r.id, id)) <==> id in r.pointIds && id in s.points
    ensures ReceiptViolation(s, r, ObjectPresent(r.id, key)) <==>
      key in r.objectKeys && exists o | o in s.objects :: o.key == key
    ensures ReceiptViolation(s, r, Resurrected(r.id, id)) <==>
      && id in s.rows && id !in r.memoryIds
      && s.rows[id].payload.sourceType == r.source.0 && s.rows[id].payload.sourceId == r.source.1
  {
  }

  /** A memory is orphaned when its type has an adapter and its source, of that type and id, is not there. */
  lemma OrphansFromRows(s: Stores, adapters: set<string>, id: Id)
    ensures SourceViolation(s, adapters, SourceGone(id)) <==>
      && id in s.rows && s.rows[id].payload.sourceType in adapters
      && (s.rows[id].payload.sourceType, s.rows[id].payload.sourceId) !in s.live
  {
  }

  /** Only objects older than the cutoff and outside exports are reported: staging bytes, or what nothing owns. */
  lemma OldObjectsAreReported(s: Stores, cutoff: int, key: Key)
    ensures
      var old' := exists o :: o in s.objects && o.key == key && cutoff - o.lastModified > 0;
      && (ObjectViolation(s, cutoff, StagingOutlived(key)) <==>
            old' && !InArea(key, "exports") && InArea(key, "staging"))
      && (ObjectViolation(s, cutoff, UnownedObject(key)) <==>
            && old' && !InArea(key, "exports") && !InArea(key, "staging")
            && key !in s.files && key !in s.owned)
  {
  }

  /** A payload alert names exactly the gate fields in which the point differs from its row. */
  lemma StaleFieldsAreDifferences(row: R.Payload, point: R.Payload)
    ensures
      var f := StaleFields(row, point);
      && (Owner in f <==> point.owner != row.owner) && (Scope in f <==> point.scope != row.scope)
      && (Status in f <==> point.status != row.status) && (Sensitive in f <==> point.sensitive != row.sensitive)
  {
  }

  /** A stale point takes the row's gate fields and validity and keeps its provenance; others stay as they are. */
  lemma HealedPoint(rows: map<Id, R.Row>, points: map<Id, R.Payload>, id: Id)
    requires id in points
    ensures
      var p, q := points[id], Healed(rows, points)[id];
      if id in rows && rows[id].embeddingModel.Some?
        && !(p.owner == rows[id].payload.owner && p.scope == rows[id].payload.scope
             && p.status == rows[id].payload.status && p.sensitive == rows[id].payload.sensitive)
      then q == rows[id].payload.(sourceType := p.sourceType, sourceId := p.sourceId)
      else q == p
  {
    if id in rows { StaleFieldsAreDifferences(rows[id].payload, points[id]); }
  }

  /** After healing, every point of an embedded row agrees with it on all four gate fields. */
  lemma HealedAgrees(rows: map<Id, R.Row>, points: map<Id, R.Payload>, id: Id)
    requires id in rows && Embedded(rows[id]) && id in points
    ensures
      var p, q := Healed(rows, points)[id], rows[id].payload;
      p.owner == q.owner && p.scope == q.scope && p.status == q.status && p.sensitive == q.sensitive
  {
    var fields := StaleFields(rows[id].payload, points[id]);
    assert fields == {} ==> Owner !in fields && Scope !in fields && Status !in fields && Sensitive !in fields;
  }

  /** Healing raises no new violation: whatever a second sweep would report, the first one did. */
  lemma HealingAddsNothing(s: Stores, adapters: set<string>, cutoff: int, a: Alert)
    requires Violation(s.(points := Healed(s.rows, s.points)), adapters, cutoff, a)
    ensures Violation(s, adapters, cutoff, a)
    ensures !a.StalePayload?
  {
    var s' := s.(points := Healed(s.rows, s.points));
    if a.StalePayload? && PayloadViolation(s'.rows, s'.points, a) {
      HealedAgrees(s.rows, s.points, a.id);
    }
    if exists r | r in s'.receipts :: ReceiptViolation(s', r, a) {
      var r :| r in s'.receipts && ReceiptViolation(s', r, a);
      assert ReceiptViolation(s, r, a);
    }
  }

  function EmbeddedIds(rows: map<Id, R.Row>): set<Id> { set id | id in rows && Embedded(rows[id]) }

  function StaleIds(rows: map<Id, R.Row>, points: map<Id, R.Payload>): set<Id> {
    set id | id in EmbeddedIds(rows) && id in points && StaleFields(rows[id].payload, points[id]) != {}
  }

  /** The state of the payload arm when exactly the embedded rows in `done` have been compared. */
  ghost predicate Compared(rows: map<Id, R.Row>, points0: map<Id, R.Payload>, done: set<Id>,
                           points: map<Id, R.Payload>, found: set<Alert>, healed: nat)
  {
    && points.Keys == points0.Keys
    && (forall id | id in points0 :: points[id] == if id in done then Healed(rows, points0)[id] else points0[id])
    && (forall a :: a in found <==> PayloadViolation(rows, points0, a) && a.id in done)
    && healed == |done * StaleIds(rows, points0)|
  }

  lemma CountOne<T>(done: set<T>, x: T, xs: set<T>)
    requires x !in done
    ensures |(done + {x}) * xs| == |done * xs| + if x in xs then 1 else 0
  {
    if x in xs {
      assert (done + {x}) * xs == done * xs + {x};
    } else {
      assert (done + {x}) * xs == done * xs;
    }
  }

  /** What comparing one row does: to the index, to the findings, to the count of healed points. */
  datatype Outcome = Outcome(points: map<Id, R.Payload>, found: set<Alert>, healed: nat)

  function Comparison(row: R.Payload, id: Id, o: Outcome): Outcome {
    if id !in o.points then o.(found := o.found + {PointMissing(id)})
    else
      var fields := StaleFields(row, o.points[id]);
      if fields == {} then o
      else Outcome(o.points[id := Refreshed(row, o.points[id])], o.found + {StalePayload(id, fields)}, o.healed + 1)
  }

  lemma FrontStep(done: set<Id>, page: seq<Id>, i: nat)
    requires i < |page| && Distinct(page) && Elements(page) !! done
    ensures page[i] in Elements(page) && page[i] !in done + Elements(page[..i])
    ensures done + Elements(page[..i]) + {page[i]} == done + Elements(page[..i + 1])
  {
    assert Elements(page[..i + 1]) == Elements(page[..i]) + {page[i]};
  }

  lemma FoundGrows(rows: map<Id, R.Row>, points0: map<Id, R.Payload>, done: set<Id>, o: Outcome, id: Id, a: Alert)
    requires id in rows && Embedded(rows[id]) && id !in done
    requires id in o.points <==> id in points0
    requires id in points0 ==> o.points[id] == points0[id]
    requires a in o.found <==> PayloadViolation(rows, points0, a) && a.id in done
    ensures a in Comparison(rows[id].payload, id, o).found <==>
      PayloadViolation(rows, points0, a) && a.id in done + {id}
  {
  }

  lemma ComparedGrows(rows: map<Id, R.Row>, points0: map<Id, R.Payload>, done: set<Id>, o: Outcome, id: Id)
    requires id in rows && Embedded(rows[id]) && id !in done
    requires Compared(rows, points0, done, o.points, o.found, o.healed)
    ensures
      var o' := Comparison(rows[id].payload, id, o);
      Compared(rows, points0, done + {id}, o'.points, o'.found, o'.healed)
  {
    CountOne(done, id, StaleIds(rows, points0));
    forall a
      ensures a in Comparison(rows[id].payload, id, o).found <==>
        PayloadViolation(rows, points0, a) && a.id in done + {id}
    {
      FoundGrows(rows, points0, done, o, id, a);
    }
  }

  lemma NothingCompared(rows: map<Id, R.Row>, points: map<Id, R.Payload>)
    ensures Passed(EmbeddedIds(rows), None) == {} && Compared(rows, points, {}, points, {}, 0)
  {
    assert {} * StaleIds(rows, points) == {};
  }

  lemma ComparedEnds(rows: map<Id, R.Row>, points0: map<Id, R.Payload>, points: map<Id, R.Payload>,
                     found: set<Alert>, healed: nat)
    requires Compared(rows, points0, EmbeddedIds(rows), points, found, healed)
    ensures points == Healed(rows, points0) && healed == |StaleIds(rows, points0)|
    ensures forall a :: a in found <==> PayloadViolation(rows, points0, a)
  {
    assert EmbeddedIds(rows) * StaleIds(rows, points0) == StaleIds(rows, points0);
  }

  // ------------------------------------------------------------------- the sweep

  class Sweep {
    var s: Stores
    var alerts: set<Alert>
    const adapters: set<string>

    constructor (s: Stores, adapters: set<string>)
      ensures this.s == s && this.adapters == adapters && alerts == {}
    {
      this.s, this.adapters, alerts := s, adapters, {};
    }

    method CheckReceipts() returns (found: set<Alert>)
      ensures forall a :: a in found <==> exists r | r in s.receipts :: ReceiptViolation(s, r, a)
    {
      found := {};
      for i := 0 to |s.receipts|
        invariant forall a :: a in found <==> exists r | r in s.receipts[..i] :: ReceiptViolation(s, r, a)
      {
        var r := s.receipts[i];
        var one := CheckReceipt(r);
        assert s.receipts[..i + 1] == s.receipts[..i] + [r];
        found := found + one;
      }
      assert s.receipts[..|s.receipts|] == s.receipts;
    }

    method CheckReceipt(r: Receipt) returns (found: set<Alert>)
      ensures forall a :: a in found <==> ReceiptViolation(s, r, a)
    {
      var rows, points, live := s.rows, s.points, set o | o in s.objects :: o.key;
      found := set id | id in r.memoryIds && id in rows :: MemoryPresent(r.id, id);
      found := found + set id | id in r.pointIds && id in points :: PointPresent(r.id, id);
      found := found + set key | key in r.objectKeys && key in live :: ObjectPresent(r.id, key);
      found := found + set id | id in rows && SourceOf(rows[id]) == r.source && id !in r.memoryIds ::
        Resurrected(r.id, id);
    }

    /** Each distinct source of an adapter-backed type is probed once. */
    method FindOrphanedMemories() returns (found: set<Alert>)
      ensures forall a :: a in found <==> SourceViolation(s, adapters, a)
    {
      var rows := s.rows;
      var groups := set id | id in rows && SourceOf(rows[id]).0 in adapters :: SourceOf(rows[id]);
      var todo := groups;
      found := {};
      while todo != {}
        invariant todo <= groups
        invariant forall a :: a in found <==> SourceViolation(s, adapters, a) && SourceOf(s.rows[a.id]) !in todo
        decreases todo
      {
        var group :| group in todo;
        if group !in s.live {
          found := found + set id | id in rows && SourceOf(rows[id]) == group :: SourceGone(id);
        }
        todo := todo - {group};
      }
    }

    method FindOrphanedObjects(cutoff: int) returns (scanned: nat, found: set<Alert>)
      ensures scanned == |s.objects|
      ensures forall a :: a in found <==> ObjectViolation(s, cutoff, a)
    {
      var aged := Select(s.objects, o => Aged(o, cutoff));
      var staging := Select(aged, (o: Object) => InArea(o.key, "staging"));
      var durable := Select(aged, (o: Object) => !InArea(o.key, "staging"));
      var known := KnownKeys(durable);
      found := set o | o in staging :: StagingOutlived(o.key);
      found := found + set o | o in durable && o.key !in known :: UnownedObject(o.key);
      scanned := |s.objects|;
    }

    /** Ownership is asked in batches; a key is known when a file row or a live connector row has it. */
    method KnownKeys(durable: seq<Object>) returns (known: set<Key>)
      ensures forall o | o in durable :: o.key in known <==> o.key in s.files || o.key in s.owned
    {
      known := {};
      var i := 0;
      while i < |durable|
        invariant forall key | key in known :: key in s.files || key in s.owned
        invariant forall j | 0 <= j < i && j < |durable| && (durable[j].key in s.files || durable[j].key in s.owned) ::
          durable[j].key in known
      {
        var hi := if i + OBJECT_BATCH < |durable| then i + OBJECT_BATCH else |durable|;
        var batch := set o | o in durable[i..hi] :: o.key;
        assert forall j | i <= j < hi :: durable[i..hi][j - i] == durable[j] && durable[j].key in batch;
        known := known + batch * s.files + batch * s.owned;
        i := i + OBJECT_BATCH;
      }
    }

    /** One row against the payload copy of its point, healed where they differ. */
    method CompareRow(id: Id, found: set<Alert>, healed: nat) returns (found': set<Alert>, healed': nat)
      requires id in s.rows
      modifies this`s
      ensures s == old(s).(points := s.points)
      ensures Outcome(s.points, found', healed') ==
        Comparison(s.rows[id].payload, id, Outcome(old(s).points, found, healed))
    {
      found', healed' := found, healed;
      if id !in s.points {
        found' := found + {PointMissing(id)};
      } else {
        var row, payload := s.rows[id].payload, s.points[id];
        var fields := StaleFields(row, payload);
        if fields != {} {
          s := s.(points := s.points[id := Refreshed(row, payload)]);
          found', healed' := found + {StalePayload(id, fields)}, healed + 1;
        }
      }
    }

    /** The next page of embedded rows, if there is one. */
    method CompareNext(ghost points0: map<Id, R.Payload>, after: Option<Id>, found: set<Alert>, healed: nat)
      returns (page: seq<Id>, after': Option<Id>, found': set<Alert>, healed': nat)
      requires Compared(s.rows, points0, Passed(EmbeddedIds(s.rows), after), s.points, found, healed)
      modifies this`s
      ensures s == old(s).(points := s.points)
      ensures
        var ids := EmbeddedIds(s.rows);
        && Compared(s.rows, points0, Passed(ids, after'), s.points, found', healed')
        && |Passed(ids, after')| == |Passed(ids, after)| + |page|
        && if page == [] then Passed(ids, after') == ids else Remaining(ids, after') < Remaining(ids, after)
    {
      var ids := EmbeddedIds(s.rows);
      page := NextPage(ids, after, PAYLOAD_PAGE_SIZE);
      if page == [] { return page, after, found, healed; }
      PageAdvances(ids, after, PAYLOAD_PAGE_SIZE, page);
      found', healed' := ComparePage(points0, Passed(ids, after), page, found, healed);
      after' := Some(page[|page| - 1]);
    }

    /** The full scan in pages; every embedded row is compared once. */
    method ReconcilePayloads() returns (checked: nat, healed: nat, found: set<Alert>)
      modifies this`s
      ensures s == old(s).(points := Healed(old(s).rows, old(s).points))
      ensures forall a :: a in found <==> PayloadViolation(old(s).rows, old(s).points, a)
      ensures checked == |EmbeddedIds(old(s).rows)| && healed == |StaleIds(old(s).rows, old(s).points)|
    {
      ghost var points0, ids := s.points, EmbeddedIds(s.rows);
      var after: Option<Id>, page := None, [0];
      checked, healed, found := 0, 0, {};
      NothingCompared(s.rows, s.points);
      while page != []
        invariant s == old(s).(points := s.points)
        invariant Compared(s.rows, points0, Passed(ids, after), s.points, found, healed)
        invariant checked == |Passed(ids, after)|
        invariant page == [] ==> Passed(ids, after) == ids
        decreases Remaining(ids, after), |page|
      {
        page, after, found, healed := CompareNext(points0, after, found, healed);
        checked := checked + |page|;
      }
      ComparedEnds(s.rows, points0, s.points, found, healed);
    }

    method ComparePage(ghost points0: map<Id, R.Payload>, ghost done: set<Id>, page: seq<Id>, found: set<Alert>,
                       healed: nat)
      returns (found': set<Alert>, healed': nat)
      requires Distinct(page) && Elements(page) <= EmbeddedIds(s.rows) && Elements(page) !! done
      requires Compared(s.rows, points0, done, s.points, found, healed)
      modifies this`s
      ensures s == old(s).(points := s.points)
      ensures Compared(s.rows, points0, done + Elements(page), s.points, found', healed')
    {
      found', healed' := found, healed;
      assert done + Elements(page[..0]) == done;
      for i := 0 to |page|
        invariant s == old(s).(points := s.points)
        invariant Compared(s.rows, points0, done + Elements(page[..i]), s.points, found', healed')
      {
        ghost var before := done + Elements(page[..i]);
        FrontStep(done, page, i);
        ComparedGrows(s.rows, points0, before, Outcome(s.points, found', healed'), page[i]);
        found', healed' := CompareRow(page[i], found', healed');
      }
      assert page[..|page|] == page;
    }

    /** Inserts what is not on record yet. */
    method RecordAlerts(found: set<Alert>) returns (newAlerts: nat)
      modifies this`alerts
      ensures alerts == old(alerts) + found && newAlerts == |found - old(alerts)|
    {
      newAlerts := 0;
      var todo := found;
      ghost var inserted: set<Alert> := {};
      while todo != {}
        invariant todo <= found && newAlerts == |inserted|
        invariant forall a :: a in inserted <==> a in found && a !in todo && a !in old(alerts)
        invariant forall a :: a in alerts <==> a in old(alerts) || a in inserted
        decreases todo
      {
        var a :| a in todo;
        if a !in alerts {
          alerts, newAlerts, inserted := alerts + {a}, newAlerts + 1, inserted + {a};
        }
        todo := todo - {a};
      }
      assert inserted == found - old(alerts);
    }

    /** All arms together find exactly the violations; only the payload arm changes anything. */
    method FindAll(cutoff: int) returns (payloadsChecked: nat, payloadsHealed: nat, found: set<Alert>)
      modifies this`s
      ensures s == old(s).(points := Healed(old(s).rows, old(s).points))
      ensures forall a :: a in found <==> Violation(old(s), adapters, cutoff, a)
      ensures payloadsChecked == |EmbeddedIds(old(s).rows)| && payloadsHealed == |StaleIds(old(s).rows, old(s).points)|
    {
      var receipts := CheckReceipts();
      var orphans := FindOrphanedMemories();
      var scanned, objects := FindOrphanedObjects(cutoff);
      var chain := if s.chainError.Some? then {ChainBroken(s.chainError.value)} else {};
      var payloads;
      payloadsChecked, payloadsHealed, payloads := ReconcilePayloads();
      found := receipts + orphans + objects + payloads + chain;
    }

    /**
     * One sweep over quiescent stores: the alerts on record grow by exactly the
     * violations present, the index is healed, and nothing else changes.
     */
    method Run(cutoff: int) returns (payloadsChecked: nat, payloadsHealed: nat, newAlerts: nat)
      modifies this
      ensures s == old(s).(points := Healed(old(s).rows, old(s).points))
      ensures forall a :: a in alerts <==> a in old(alerts) || Violation(old(s), adapters, cutoff, a)
      ensures old(alerts) <= alerts && newAlerts == |alerts - old(alerts)|
      ensures payloadsChecked == |EmbeddedIds(old(s).rows)| && payloadsHealed == |StaleIds(old(s).rows, old(s).points)|
    {
      var found;
      payloadsChecked, payloadsHealed, found := FindAll(cutoff);
      newAlerts := RecordAlerts(found);
      assert alerts - old(alerts) == found - old(alerts);
    }
  }

  /** An immediate second sweep adds no alert and changes no point. */
  method SweepTwice(sweep: Sweep, cutoff: int) returns (newAlerts: nat)
    modifies sweep
    ensures newAlerts == 0
    ensures sweep.s == old(sweep.s).(points := Healed(old(sweep.s).rows, old(sweep.s).points))
  {
    ghost var s0 := sweep.s;
    var checked, healed, first := sweep.Run(cutoff);
    ghost var between := sweep.alerts;
    checked, healed, newAlerts := sweep.Run(cutoff);
    forall a | Violation(s0.(points := Healed(s0.rows, s0.points)), sweep.adapters, cutoff, a) ensures a in between {
      HealingAddsNothing(s0, sweep.adapters, cutoff, a);
    }
    assert sweep.alerts - between == {};
    HealedTwice(s0.rows, s0.points);
  }

  lemma HealedTwice(rows: map<Id, R.Row>, points: map<Id, R.Payload>)
    ensures Healed(rows, Healed(rows, points)) == Healed(rows, points)
  {
    forall id | id in points && id in rows && Embedded(rows[id])
      ensures StaleFields(rows[id].payload, Healed(rows, points)[id]) == {}
    {
      HealedAgrees(rows, points, id);
    }
  }
}
