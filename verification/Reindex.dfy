/** Rebuilding the vector index from the memory table, page by page. */
module Reindex {
  import opened Common
  import opened Keyset

  type Vector = seq<real>
  type Model = string

  /** The gate and filter fields a point carries a copy of. */
  datatype Payload = Payload(
    owner: string, scope: string, status: string, sensitive: bool, sourceType: string, sourceId: string,
      validUntil: Option<int>)

  datatype Row = Row(payload: Payload, content: Option<string>, embeddingModel: Option<Model>)

  datatype Point = Point(vector: Option<Vector>, payload: Payload)

  datatype Report = Report(
    totalMemories: nat, embeddable: nat, reused: nat, reembedded: nat, skippedNoContent: nat,
    orphansRemoved: nat, pointCount: nat, ok: bool)

  /** Only rows with something other than white space in them carry a vector. */
  predicate Embeddable(row: Row) { row.content.Some? && !Blank(row.content.value) }

  function EmbeddableIds(rows: map<Id, Row>): set<Id> { set id | id in rows && Embeddable(rows[id]) }

  function Text(row: Row): string { if row.content.Some? then row.content.value else "" }

  function PointOf(row: Row, vector: Vector): Point { Point(Some(vector), row.payload) }

  /** The specification: one point for each embeddable row, holding the active model's vector of its text. */
  function Rebuilt(rows: map<Id, Row>, embed: string -> Vector): map<Id, Point> {
    map id | id in EmbeddableIds(rows) :: PointOf(rows[id], embed(Text(rows[id])))
  }

  /** Rows whose recorded model is the active one and whose point still holds a vector. */
  function Reusable(rows: map<Id, Row>, points: map<Id, Point>, model: Model): set<Id> {
    set id | id in EmbeddableIds(rows) && rows[id].embeddingModel == Some(model) && id in points
      && points[id].vector.Some?
  }

  /** A stored vector was made from the row's text by the model the row records. */
  predicate VectorsAreGenuine(rows: map<Id, Row>, points: map<Id, Point>, model: Model, embed: string -> Vector) {
    forall id | id in Reusable(rows, points, model) :: points[id].vector.value == embed(Text(rows[id]))
  }

  function Upserted(points: map<Id, Point>, rows: map<Id, Row>, ids: seq<Id>, vectors: seq<Vector>): map<Id, Point>
    requires |ids| == |vectors| && forall id | id in ids :: id in rows
  {
    if ids == [] then points
    else
      var n := |ids| - 1;
      Upserted(points, rows, ids[..n], vectors[..n])[ids[n] := PointOf(rows[ids[n]], vectors[n])]
  }

  /** Each listed row gets the vector at its own position; no other point changes. */
  lemma {:induction false} UpsertedSpec(points: map<Id, Point>, rows: map<Id, Row>, ids: seq<Id>, vectors: seq<Vector>)
    requires |ids| == |vectors| && Distinct(ids) && forall id | id in ids :: id in rows
    ensures Upserted(points, rows, ids, vectors).Keys == points.Keys + Elements(ids)
    ensures forall i | 0 <= i < |ids| ::
      Upserted(points, rows, ids, vectors)[ids[i]] == PointOf(rows[ids[i]], vectors[i])
    ensures forall id | id in points && id !in ids :: Upserted(points, rows, ids, vectors)[id] == points[id]
    decreases |ids|
  {
    if ids != [] {
      var n, last := |ids| - 1, ids[|ids| - 1];
      var before := Upserted(points, rows, ids[..n], vectors[..n]);
      UpsertedSpec(points, rows, ids[..n], vectors[..n]);
      assert Elements(ids) == Elements(ids[..n]) + {last};
      forall i | 0 <= i < n
        ensures before[last := PointOf(rows[last], vectors[n])][ids[i]] == PointOf(rows[ids[i]], vectors[i]) {
        assert ids[..n][i] == ids[i] && ids[i] in Elements(ids[..n]) && ids[i] != last;
      }
    }
  }

  /** What retrieving the points of `ids` returns. */
  function KeptVectors(points: map<Id, Point>, ids: seq<Id>): (r: seq<Vector>)
    requires forall id | id in ids :: id in points && points[id].vector.Some?
    ensures |r| == |ids| && forall i | 0 <= i < |ids| :: r[i] == points[ids[i]].vector.value
  {
    seq(|ids|, i requires 0 <= i < |ids| => assert ids[i] in ids; points[ids[i]].vector.value)
  }

  /** What the gateway returns for the texts of `ids`. */
  function FreshVectors(rows: map<Id, Row>, ids: seq<Id>, embed: string -> Vector): (r: seq<Vector>)
    requires forall id | id in ids :: id in rows
    ensures |r| == |ids| && forall i | 0 <= i < |ids| :: r[i] == embed(Text(rows[ids[i]]))
  {
    seq(|ids|, i requires 0 <= i < |ids| => assert ids[i] in ids; embed(Text(rows[ids[i]])))
  }

  /** A page's upsert pairs every id with the active model's vector of its own text. */
  lemma PageUpsert(rows: map<Id, Row>, points: map<Id, Point>, model: Model, embed: string -> Vector,
                   kept: seq<Id>, toEmbed: seq<Id>)
    requires VectorsAreGenuine(rows, points, model, embed)
    requires Distinct(kept + toEmbed) && (forall id | id in kept :: id in Reusable(rows, points, model))
    requires forall id | id in kept + toEmbed :: id in rows
    ensures
      var points' := Upserted(points, rows, kept + toEmbed,
        KeptVectors(points, kept) + FreshVectors(rows, toEmbed, embed));
      && points'.Keys == points.Keys + Elements(kept + toEmbed)
      && (forall id | id in kept + toEmbed :: points'[id] == PointOf(rows[id], embed(Text(rows[id]))))
      && (forall id | id in points && id !in kept + toEmbed :: points'[id] == points[id])
  {
    var ids, vectors := kept + toEmbed, KeptVectors(points, kept) + FreshVectors(rows, toEmbed, embed);
    UpsertedSpec(points, rows, ids, vectors);
    PageVectors(rows, points, model, embed, kept, toEmbed);
  }

  lemma PageVectors(rows: map<Id, Row>, points: map<Id, Point>, model: Model, embed: string -> Vector,
                    kept: seq<Id>, toEmbed: seq<Id>)
    requires VectorsAreGenuine(rows, points, model, embed)
      && (forall id | id in kept :: id in Reusable(rows, points, model))
    requires forall id | id in kept + toEmbed :: id in rows
    ensures
      var ids, vectors := kept + toEmbed, KeptVectors(points, kept) + FreshVectors(rows, toEmbed, embed);
      forall i | 0 <= i < |ids| :: vectors[i] == embed(Text(rows[ids[i]]))
  {
    forall i | 0 <= i < |kept| ensures points[kept[i]].vector.value == embed(Text(rows[kept[i]])) {
      assert kept[i] in kept;
    }
  }

  function PageEmbeddable(rows: map<Id, Row>, page: seq<Id>): seq<Id> { Select(page, id => id in EmbeddableIds(rows)) }

  function PageReusable(rows: map<Id, Row>, points: map<Id, Point>, model: Model, page: seq<Id>): seq<Id> {
    Select(PageEmbeddable(rows, page), id => id in Reusable(rows, points, model))
  }

  function PageToEmbed(rows: map<Id, Row>, points: map<Id, Point>, model: Model, page: seq<Id>): seq<Id> {
    Select(PageEmbeddable(rows, page), id => id !in Reusable(rows, points, model))
  }

  lemma PageSplits(rows: map<Id, Row>, points: map<Id, Point>, model: Model, page: seq<Id>)
    requires Distinct(page)
    ensures
      var kept, toEmbed := PageReusable(rows, points, model, page), PageToEmbed(rows, points, model, page);
      && Distinct(kept + toEmbed) && Elements(kept + toEmbed) == Elements(page) * EmbeddableIds(rows)
      && |kept| == |Elements(page) * Reusable(rows, points, model)|
      && |kept| + |toEmbed| == |Elements(page) * EmbeddableIds(rows)|
  {
    var kept, toEmbed := PageReusable(rows, points, model, page), PageToEmbed(rows, points, model, page);
    DistinctAppend(kept, toEmbed);
    DistinctCount(kept);
    DistinctCount(kept + toEmbed);
    PageMembers(rows, points, model, page);
  }

  lemma PageMembers(rows: map<Id, Row>, points: map<Id, Point>, model: Model, page: seq<Id>)
    ensures
      var kept, toEmbed := PageReusable(rows, points, model, page), PageToEmbed(rows, points, model, page);
      && Elements(kept + toEmbed) == Elements(page) * EmbeddableIds(rows)
      && Elements(kept) == Elements(page) * Reusable(rows, points, model)
  {
  }

  /** The rows after a page: the embedded ones record the active model. */
  function Stamped(rows: map<Id, Row>, ids: seq<Id>, model: Model): map<Id, Row> {
    map id | id in rows :: if id in ids then rows[id].(embeddingModel := Some(model)) else rows[id]
  }

  /** Reused rows carry the active model's name already. */
  lemma StampedPage(rows: map<Id, Row>, points: map<Id, Point>, model: Model, page: seq<Id>)
    ensures
      var rows' := Stamped(rows, PageToEmbed(rows, points, model, page), model);
      && rows'.Keys == rows.Keys
      && forall id | id in rows :: rows'[id] ==
           if Touched(rows, Elements(page), id) then rows[id].(embeddingModel := Some(model)) else rows[id]
  {
  }

  predicate Touched(rows0: map<Id, Row>, done: set<Id>, id: Id) { id in rows0 && id in done && Embeddable(rows0[id]) }

  /** A page's work: every embeddable row of it is stamped and has its point, nothing else moves. */
  ghost predicate PageDone(rows: map<Id, Row>, points: map<Id, Point>, model: Model, embed: string -> Vector,
                           page: seq<Id>, rows': map<Id, Row>, points': map<Id, Point>)
  {
    && rows'.Keys == rows.Keys
    && (forall id | id in rows :: rows'[id] ==
          (if Touched(rows, Elements(page), id) then rows[id].(embeddingModel := Some(model)) else rows[id]))
    && (forall id :: id in points' <==> id in points || Touched(rows, Elements(page), id))
    && (forall id | id in points' :: points'[id] ==
          (if Touched(rows, Elements(page), id) then PointOf(rows[id], embed(Text(rows[id]))) else points[id]))
  }

  lemma PageIsDone(rows: map<Id, Row>, points: map<Id, Point>, model: Model, embed: string -> Vector, page: seq<Id>)
    requires VectorsAreGenuine(rows, points, model, embed) && Distinct(page)
    ensures
      var kept, toEmbed := PageReusable(rows, points, model, page), PageToEmbed(rows, points, model, page);
      PageDone(rows, points, model, embed, page, Stamped(rows, toEmbed, model),
        Upserted(points, rows, kept + toEmbed, KeptVectors(points, kept) + FreshVectors(rows, toEmbed, embed)))
  {
    var kept, toEmbed := PageReusable(rows, points, model, page), PageToEmbed(rows, points, model, page);
    PageSplits(rows, points, model, page);
    PageUpsert(rows, points, model, embed, kept, toEmbed);
    StampedPage(rows, points, model, page);
    forall id ensures id in kept + toEmbed <==> Touched(rows, Elements(page), id) {
      assert id in kept + toEmbed <==> id in Elements(kept + toEmbed);
    }
  }

  // ----------------------------------------------------------------- page by page

  /** The state when exactly the ids in `done` have been visited. */
  ghost predicate Visited(rows0: map<Id, Row>, start: map<Id, Point>, model: Model, embed: string -> Vector,
                          done: set<Id>, rows: map<Id, Row>, points: map<Id, Point>)
  {
    && rows.Keys == rows0.Keys
    && (forall id | id in rows0 :: rows[id] ==
          (if Touched(rows0, done, id) then rows0[id].(embeddingModel := Some(model)) else rows0[id]))
    && (forall id :: id in points <==> id in start || Touched(rows0, done, id))
    && (forall id | id in points :: points[id] ==
          if Touched(rows0, done, id) then PointOf(rows0[id], embed(Text(rows0[id]))) else start[id])
  }

  lemma VisitedStaysGenuine(rows0: map<Id, Row>, start: map<Id, Point>, model: Model, embed: string -> Vector,
                            done: set<Id>, rows: map<Id, Row>, points: map<Id, Point>)
    requires VectorsAreGenuine(rows0, start, model, embed) && Visited(rows0, start, model, embed, done, rows, points)
    ensures VectorsAreGenuine(rows, points, model, embed) && EmbeddableIds(rows) == EmbeddableIds(rows0)
    ensures forall id | id in rows0 && id !in done ::
      id in Reusable(rows, points, model) <==> id in Reusable(rows0, start, model)
  {
  }

  lemma VisitedGrows(rows0: map<Id, Row>, start: map<Id, Point>, model: Model, embed: string -> Vector,
                     done: set<Id>, rows: map<Id, Row>, points: map<Id, Point>, page: seq<Id>,
                     rows': map<Id, Row>, points': map<Id, Point>)
    requires VectorsAreGenuine(rows0, start, model, embed) && Visited(rows0, start, model, embed, done, rows, points)
    requires Elements(page) <= rows0.Keys && Elements(page) !! done
    requires PageDone(rows, points, model, embed, page, rows', points')
    ensures Visited(rows0, start, model, embed, done + Elements(page), rows', points')
  {
    forall id | id in rows0
      ensures Touched(rows0, done + Elements(page), id) <==>
        Touched(rows0, done, id) || Touched(rows, Elements(page), id)
    {
      assert id in page <==> id in Elements(page);
    }
  }

  function AllStamped(rows: map<Id, Row>, model: Model): map<Id, Row> {
    map id | id in rows :: if Embeddable(rows[id]) then rows[id].(embeddingModel := Some(model)) else rows[id]
  }

  /** With every row visited, dropping the points of no embeddable row leaves the specified index. */
  lemma RebuildEnds(rows0: map<Id, Row>, start: map<Id, Point>, model: Model, embed: string -> Vector,
                    rows: map<Id, Row>, points: map<Id, Point>)
    requires Visited(rows0, start, model, embed, rows0.Keys, rows, points)
    ensures rows == AllStamped(rows0, model)
    ensures
      var all := EmbeddableIds(rows0);
      && points.Keys - all == start.Keys - all
      && points - (points.Keys - all) == Rebuilt(rows0, embed)
  {
    var all := EmbeddableIds(rows0);
    assert forall id | id in all :: Touched(rows0, rows0.Keys, id);
    assert forall id | Touched(rows0, rows0.Keys, id) :: id in all;
    assert all <= points.Keys;
    var left := points - (points.Keys - all);
    assert left.Keys == all;
    forall id | id in all ensures left[id] == PointOf(rows0[id], embed(Text(rows0[id]))) {
      assert Touched(rows0, rows0.Keys, id);
    }
  }

  datatype Tally = Tally(totalMemories: nat, embeddable: nat, reused: nat, reembedded: nat)

  predicate Counted(rows0: map<Id, Row>, start: map<Id, Point>, model: Model, done: set<Id>, tally: Tally) {
    && tally.totalMemories == |done| && tally.embeddable == |done * EmbeddableIds(rows0)|
    && tally.reused == |done * Reusable(rows0, start, model)| && tally.reused + tally.reembedded == tally.embeddable
  }

  lemma CountedGrows(rows0: map<Id, Row>, start: map<Id, Point>, model: Model, done: set<Id>, tally: Tally,
                     page: seq<Id>, reused: nat, reembedded: nat)
    requires Counted(rows0, start, model, done, tally) && Distinct(page) && Elements(page) !! done
    requires reused == |Elements(page) * Reusable(rows0, start, model)|
    requires reused + reembedded == |Elements(page) * EmbeddableIds(rows0)|
    ensures Counted(rows0, start, model, done + Elements(page),
      Tally(tally.totalMemories + |page|, tally.embeddable + reused + reembedded, tally.reused + reused,
        tally.reembedded + reembedded))
  {
    DisjointCount(done, Elements(page), EmbeddableIds(rows0));
    DisjointCount(done, Elements(page), Reusable(rows0, start, model));
    DistinctCount(page);
  }

  lemma NothingVisited(rows0: map<Id, Row>, start: map<Id, Point>, model: Model, embed: string -> Vector)
    ensures Visited(rows0, start, model, embed, Passed(rows0.Keys, None), rows0, start)
    ensures Counted(rows0, start, model, Passed(rows0.Keys, None), Tally(0, 0, 0, 0))
  {
    assert Passed(rows0.Keys, None) == {};
  }

  lemma CountedEnds(rows0: map<Id, Row>, start: map<Id, Point>, model: Model, tally: Tally)
    requires Counted(rows0, start, model, rows0.Keys, tally)
    ensures tally.totalMemories == |rows0| && tally.reused == |Reusable(rows0, start, model)|
    ensures tally.embeddable == |EmbeddableIds(rows0)| <= |rows0|
  {
    var all := EmbeddableIds(rows0);
    assert rows0.Keys * all == all && rows0.Keys * Reusable(rows0, start, model) == Reusable(rows0, start, model);
    SubsetSize(all, rows0.Keys);
  }

  class Reindexer {
    var rows: map<Id, Row>
    var points: map<Id, Point>
    var dimensions: Option<nat>  // None: there is no collection
    const model: Model
    const size: nat
    const embed: string -> Vector

    constructor (rows: map<Id, Row>, points: map<Id, Point>, dimensions: Option<nat>, model: Model, size: nat,
                 embed: string -> Vector)
      ensures this.rows == rows && this.points == points && this.dimensions == dimensions
      ensures this.model == model && this.size == size && this.embed == embed
    {
      this.rows, this.points, this.dimensions := rows, points, dimensions;
      this.model, this.size, this.embed := model, size, embed;
    }

    /** The index a run starts from: a collection of another vector size is dropped. */
    function Start(): map<Id, Point>
      reads this
    {
      if dimensions == Some(size) then points else map[]
    }

    method EnsureCollection()
      modifies this`points, this`dimensions
      ensures points == old(Start()) && dimensions == Some(size)
    {
      if dimensions.Some? && dimensions.value != size { points, dimensions := map[], None; }
      if dimensions.None? { points, dimensions := map[], Some(size); }
    }

    /** One page: reuse what is genuine, embed the rest, upsert both lists together. */
    method ReindexPage(page: seq<Id>) returns (reused: nat, reembedded: nat)
      requires Distinct(page) && VectorsAreGenuine(rows, points, model, embed)
      modifies this`rows, this`points
      ensures PageDone(old(rows), old(points), model, embed, page, rows, points)
      ensures reused == |Elements(page) * Reusable(old(rows), old(points), model)|
      ensures reused + reembedded == |Elements(page) * EmbeddableIds(old(rows))|
    {
      PageIsDone(rows, points, model, embed, page);
      PageSplits(rows, points, model, page);
      var reusable, toEmbed := PageReusable(rows, points, model, page), PageToEmbed(rows, points, model, page);
      var vectors := KeptVectors(points, reusable) + FreshVectors(rows, toEmbed, embed);
      points := Upserted(points, rows, reusable + toEmbed, vectors);
      rows := Stamped(rows, toEmbed, model);
      reused, reembedded := |reusable|, |toEmbed|;
    }

    /** ReindexPage, told as progress from the state the run started with. */
    method VisitPage(ghost rows0: map<Id, Row>, ghost start: map<Id, Point>, ghost done: set<Id>, page: seq<Id>)
      returns (reused: nat, reembedded: nat)
      requires VectorsAreGenuine(rows0, start, model, embed) && Visited(rows0, start, model, embed, done, rows, points)
      requires Distinct(page) && Elements(page) <= rows0.Keys && Elements(page) !! done
      modifies this`rows, this`points
      ensures Visited(rows0, start, model, embed, done + Elements(page), rows, points)
      ensures reused == |Elements(page) * Reusable(rows0, start, model)|
      ensures reused + reembedded == |Elements(page) * EmbeddableIds(rows0)|
    {
      VisitedStaysGenuine(rows0, start, model, embed, done, rows, points);
      ghost var rows1, points1 := rows, points;
      reused, reembedded := ReindexPage(page);
      VisitedGrows(rows0, start, model, embed, done, rows1, points1, page, rows, points);
      assert Elements(page) * Reusable(rows1, points1, model) == Elements(page) * Reusable(rows0, start, model);
    }

    /** The next page, if there is one. */
    method VisitNext(ghost rows0: map<Id, Row>, ghost start: map<Id, Point>, after: Option<Id>, batchSize: nat,
                     tally: Tally)
      returns (more: bool, after': Option<Id>, tally': Tally)
      requires batchSize > 0 && VectorsAreGenuine(rows0, start, model, embed)
      requires Visited(rows0, start, model, embed, Passed(rows0.Keys, after), rows, points)
      requires Counted(rows0, start, model, Passed(rows0.Keys, after), tally)
      modifies this`rows, this`points
      ensures Visited(rows0, start, model, embed, Passed(rows0.Keys, after'), rows, points)
      ensures Counted(rows0, start, model, Passed(rows0.Keys, after'), tally')
      ensures if more then Remaining(rows0.Keys, after') < Remaining(rows0.Keys, after)
        else Passed(rows0.Keys, after') == rows0.Keys
    {
      var page := NextPage(rows.Keys, after, batchSize);
      if page == [] { return false, after, tally; }
      PageAdvances(rows0.Keys, after, batchSize, page);
      var reused, reembedded := VisitPage(rows0, start, Passed(rows0.Keys, after), page);
      CountedGrows(rows0, start, model, Passed(rows0.Keys, after), tally, page, reused, reembedded);
      more, after' := true, Some(page[|page| - 1]);
      tally' := Tally(tally.totalMemories + |page|, tally.embeddable + reused + reembedded,
                      tally.reused + reused, tally.reembedded + reembedded);
    }

    /** The keyset loop. */
    method VisitAll(batchSize: nat) returns (tally: Tally)
      requires batchSize > 0 && VectorsAreGenuine(rows, points, model, embed)
      modifies this`rows, this`points
      ensures Visited(old(rows), old(points), model, embed, old(rows).Keys, rows, points)
      ensures Counted(old(rows), old(points), model, old(rows).Keys, tally)
    {
      ghost var start, rows0 := points, rows;
      var after: Option<Id>, more := None, true;
      tally := Tally(0, 0, 0, 0);
      NothingVisited(rows0, start, model, embed);
      while more
        invariant Visited(rows0, start, model, embed, Passed(rows0.Keys, after), rows, points)
        invariant Counted(rows0, start, model, Passed(rows0.Keys, after), tally)
        invariant !more ==> Passed(rows0.Keys, after) == rows0.Keys
        decreases more, Remaining(rows0.Keys, after)
      {
        more, after, tally := VisitNext(rows0, start, after, batchSize, tally);
      }
    }

    /**
     * The whole rebuild. Whatever index it starts from, it ends with exactly the
     * specified one, and the report tells how it got there; every row is visited once.
     */
    method Run(batchSize: nat) returns (report: Report)
      requires batchSize > 0 && VectorsAreGenuine(rows, Start(), model, embed)
      modifies this
      ensures points == Rebuilt(old(rows), embed) && dimensions == Some(size)
      ensures rows == AllStamped(old(rows), model)
      // row by row: a point for each row with a text, with that row's payload and its text's vector
      ensures forall id :: id in points <==>
        id in old(rows) && old(rows)[id].content.Some? && !Blank(old(rows)[id].content.value)
      ensures forall id | id in points ::
        points[id].payload == old(rows)[id].payload && points[id].vector == Some(embed(old(rows)[id].content.value))
      ensures
        var all, start := EmbeddableIds(old(rows)), old(Start());
        var reused := |Reusable(old(rows), start, model)|;
        && report.reused == reused && report.reembedded == |all| - reused
        && report.embeddable == |all|
          && report.embeddable + report.skippedNoContent == report.totalMemories == |old(rows)|
        && report.orphansRemoved == |start.Keys - all| && report.pointCount == |all| && report.ok
    {
      EnsureCollection();
      ghost var start, rows0 := points, rows;
      var tally := VisitAll(batchSize);
      CountedEnds(rows0, start, model, tally);
      VisitedStaysGenuine(rows0, start, model, embed, rows0.Keys, rows, points);
      var orphansRemoved := RemoveOrphans(rows0, start);
      report := Report(tally.totalMemories, tally.embeddable, tally.reused, tally.reembedded,
                       tally.totalMemories - tally.embeddable, orphansRemoved, |points|, |points| == tally.embeddable);
    }

    /** Points that belong to no embeddable row are index noise. */
    method RemoveOrphans(ghost rows0: map<Id, Row>, ghost start: map<Id, Point>) returns (orphansRemoved: nat)
      requires Visited(rows0, start, model, embed, rows0.Keys, rows, points)
      requires EmbeddableIds(rows) == EmbeddableIds(rows0)
      modifies this`points
      ensures points == Rebuilt(rows0, embed) && |points| == |EmbeddableIds(rows0)|
      ensures orphansRemoved == |start.Keys - EmbeddableIds(rows0)| && rows == AllStamped(rows0, model)
    {
      RebuildEnds(rows0, start, model, embed, rows, points);
      var orphans := points.Keys - EmbeddableIds(rows);
      points := points - orphans;
      orphansRemoved := |orphans|;
      assert points.Keys == EmbeddableIds(rows0) && |points| == |points.Keys|;
    }
  }
}
