/** The pure decisions of reconciliation: who survives a merge, who supersedes whom. */
module ReconcilePolicy {
  import opened Common
  import opened MemoryTables

  datatype Actor = ByUser(user: User) | ByReconciliation | ByConsolidation | ByVerification | BySaga

  datatype MergeDecision = Merge(firstSurvives: bool) | NoMerge

  function Confidence(s: Status): nat {
    match s
    case UserApproved => 2
    case Active => 1
    case _ => 0
  }

  function EventTime(m: Memory): int {
    match m.validFrom case Some(at) => at case None => m.createdAt
  }

  function ChooseSurvivor(a: Memory, b: Memory): MergeDecision {
    if a.status == UserApproved && b.status == UserApproved then NoMerge
    else
      var aOlder := a.createdAt <= b.createdAt;
      var older, newer := if aOlder then a else b, if aOlder then b else a;
      if older.status == UserApproved then Merge(aOlder)
      else if Confidence(newer.status) < Confidence(older.status) then Merge(aOlder)
      else Merge(!aOlder)
  }

  /** The loser is outdated when its interval closed before the confirmed fact began. */
  predicate OutdatedLoser(confirmed: Memory, loser: Memory) {
    loser.validUntil.Some? && loser.validUntil.value <= EventTime(confirmed)
  }

  predicate SupersessionUnambiguous(winner: Memory, loser: Memory) {
    && winner.status != UserApproved && loser.status != UserApproved
    && EventTime(winner) > EventTime(loser)
  }

  /** Who may set a status through the general transition. */
  predicate Owns(actor: Actor, to: Status) {
    match to
    case Contradicted => actor.ByReconciliation?
    case UserApproved => actor.ByUser?
    case Outdated => actor.ByConsolidation? || actor.ByUser?
    case Uncertain => actor.ByVerification?
    case Active => actor.ByUser?
    case Replaced => false
  }

  predicate MayTransition(from: Status, to: Status, actor: Actor) {
    && from != Replaced && from != to && to != Replaced
    && (to == UserApproved ==> from == Uncertain || from == Contradicted)
    && Owns(actor, to)
  }

  /**
   * The survivor never ranks below the loser, an approved memory never loses, between
   * equals the later one survives, and swapping the arguments only matters for two
   * memories of one rank created at the same time, of which the second one survives.
   */
  lemma SurvivorOutranks(a: Memory, b: Memory)
    ensures ChooseSurvivor(a, b).NoMerge? <==> a.status == UserApproved && b.status == UserApproved
    ensures ChooseSurvivor(a, b).Merge? ==>
      var first := ChooseSurvivor(a, b).firstSurvives;
      var survivor, loser := if first then a else b, if first then b else a;
      && Confidence(loser.status) <= Confidence(survivor.status) && loser.status != UserApproved
      && (Confidence(loser.status) == Confidence(survivor.status) ==> loser.createdAt <= survivor.createdAt)
    ensures a.createdAt != b.createdAt || Confidence(a.status) != Confidence(b.status) ==>
      (ChooseSurvivor(a, b).Merge? ==> ChooseSurvivor(b, a) == Merge(!ChooseSurvivor(a, b).firstSurvives))
    ensures a.createdAt == b.createdAt && Confidence(a.status) == Confidence(b.status) && a.status != UserApproved ==>
      ChooseSurvivor(a, b) == Merge(false)
  {
  }

  /**
   * What each actor may do to a status, by actor: a user activates, outdates, and approves
   * what is uncertain or contradicted; the others set one status each; a replaced memory
   * stays replaced, and nobody replaces one this way.
   */
  lemma WhoMaySetWhat(from: Status, to: Status, actor: Actor)
    ensures MayTransition(from, to, actor) <==>
      && from != Replaced && from != to
      && match actor
         case ByUser(_) => to in {Active, Outdated} || (to == UserApproved && from in {Uncertain, Contradicted})
         case ByReconciliation => to == Contradicted
         case ByConsolidation => to == Outdated
         case ByVerification => to == Uncertain
         case BySaga => false
  {
  }
}
