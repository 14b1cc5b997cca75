/**
 * The incompatibility check of backend/src/services/attributeService.ts.
 *
 * The service's table statements (`getAll`, `getById`, `create`, `delete`,
 * `addIncompatibility`) are the repository's, modelled in `AttributeRepository`.
 * The check itself only reads: it is a function of the pair table, the
 * attribute names and the list of candidate ids.
 */
module AttributeService {
  import opened AttributeRepository

  /** `{ valid: true }` or `{ valid: false, conflicts }`. */
  datatype CheckResult = Valid | Invalid(conflicts: set<Conflict>)

  /** Some stored pair has both of its (existing) attributes among `ids`. */
  predicate HasConflict(pairs: set<(int, int)>, names: map<int, string>, ids: seq<int>) {
    exists p :: p in pairs && Selected(p, names, ids)
  }

  /**
   * `checkIncompatibilities(ids)`: fewer than two ids are valid without a query;
   * otherwise the list is invalid exactly when some stored pair lies within it,
   * and then every such pair is reported.
   */
  function CheckIncompatibilities(pairs: set<(int, int)>, names: map<int, string>, ids: seq<int>): (r: CheckResult)
    ensures |ids| < 2 ==> r == Valid
    ensures |ids| >= 2 ==> (r.Invalid? <==> HasConflict(pairs, names, ids))
    ensures r.Invalid? ==> r.conflicts == FindIncompatibilities(pairs, names, ids) && r.conflicts != {}
  {
    if |ids| < 2 then Valid
    else
      var rows := FindIncompatibilities(pairs, names, ids);
      FindIncompatibilitiesEmptyIff(pairs, names, ids);
      if rows != {} then Invalid(rows) else Valid
  }

  /** The distinct ids of a list. */
  function IdSet(ids: seq<int>): (r: set<int>)
    ensures forall i :: i in r <==> i in ids
  {
    set i | i in ids
  }

  /** The conflicts among a set of ids: the names of every stored pair inside it. */
  function ConflictsAmong(pairs: set<(int, int)>, names: map<int, string>, s: set<int>): set<Conflict> {
    set p | p in pairs && p.0 in s && p.1 in s && p.0 in names && p.1 in names :: ConflictOf(p, names)
  }

  // ---------------------------------------------------------------------------
  // Lemmas

  /** The query's answer is the conflicts among the listed ids taken as a set. */
  lemma {:induction false} FindIncompatibilitiesAmongIdSet(pairs: set<(int, int)>, names: map<int, string>, ids: seq<int>)
    ensures FindIncompatibilities(pairs, names, ids) == ConflictsAmong(pairs, names, IdSet(ids))
    ensures HasConflict(pairs, names, ids) <==> ConflictsAmong(pairs, names, IdSet(ids)) != {}
  {
    var s := IdSet(ids);
    forall p | p in pairs
      ensures Selected(p, names, ids) <==> p.0 in s && p.1 in s && p.0 in names && p.1 in names
    {
      var a, b := p.0, p.1;
      assert a in ids <==> a in s;
      assert b in ids <==> b in s;
    }
    if HasConflict(pairs, names, ids) {
      var p :| p in pairs && Selected(p, names, ids);
      assert ConflictOf(p, names) in ConflictsAmong(pairs, names, s);
    }
  }

  /** Reordering the candidate ids does not change the verdict. */
  lemma {:induction false} CheckOrderIndependent(pairs: set<(int, int)>, names: map<int, string>, ids1: seq<int>, ids2: seq<int>)
    requires multiset(ids1) == multiset(ids2)
    ensures CheckIncompatibilities(pairs, names, ids1) == CheckIncompatibilities(pairs, names, ids2)
  {
    assert |ids1| == |multiset(ids1)| == |multiset(ids2)| == |ids2|;
    forall i
      ensures i in ids1 <==> i in ids2
    {
      assert i in ids1 <==> i in multiset(ids1);
      assert i in ids2 <==> i in multiset(ids2);
    }
    FindIncompatibilitiesSameIds(pairs, names, ids1, ids2);
  }

  /**
   * When no attribute is stored as incompatible with itself (the request schema
   * refuses such pairs), the verdict depends only on the set of ids: repetitions
   * do not matter either.
   */
  lemma {:induction false} CheckDependsOnlyOnIdSet(pairs: set<(int, int)>, names: map<int, string>, ids1: seq<int>, ids2: seq<int>)
    requires forall p :: p in pairs ==> p.0 != p.1
    requires forall i :: i in ids1 <==> i in ids2
    ensures CheckIncompatibilities(pairs, names, ids1) == CheckIncompatibilities(pairs, names, ids2)
  {
    FindIncompatibilitiesSameIds(pairs, names, ids1, ids2);
    if |ids1| < 2 {
      AtMostOneIdNoConflict(pairs, names, ids1, ids2);
    } else if |ids2| < 2 {
      AtMostOneIdNoConflict(pairs, names, ids2, ids1);
    }
  }

  /** With at most one distinct id and no self-pairs stored, nothing is selected. */
  lemma AtMostOneIdNoConflict(pairs: set<(int, int)>, names: map<int, string>, short: seq<int>, other: seq<int>)
    requires forall p :: p in pairs ==> p.0 != p.1
    requires |short| < 2
    requires forall i :: i in short <==> i in other
    ensures !HasConflict(pairs, names, other)
  {
    forall p | p in pairs
      ensures !Selected(p, names, other)
    {
      var a, b := p.0, p.1;
      assert a in other <==> a in short;
      assert b in other <==> b in short;
    }
  }

  /**
   * The set-only dependence needs the no-self-pair premise: with the pair (1, 1)
   * stored, `[1]` is valid by the size shortcut while `[1, 1]` is not.
   */
  lemma SelfPairDistinguishesRepetition()
    ensures CheckIncompatibilities({(1, 1)}, map[1 := "Cotton"], [1]) == Valid
    ensures CheckIncompatibilities({(1, 1)}, map[1 := "Cotton"], [1, 1]) == Invalid({Conflict("Cotton", "Cotton")})
  {
    var names := map[1 := "Cotton"];
    assert Selected((1, 1), names, [1, 1]);
    assert FindIncompatibilities({(1, 1)}, names, [1, 1]) == {Conflict("Cotton", "Cotton")};
  }

  /**
   * A recorded incompatibility between two listed attributes makes the list
   * invalid and is reported, whichever order it was recorded in, and also when
   * the last id (the one being added) is moved to the front.
   */
  lemma RecordedPairInvalidates(pairs: set<(int, int)>, names: map<int, string>, ids: seq<int>, a: int, b: int)
    requires Incompatible(pairs, a, b)
    requires a in ids && b in ids && a in names && b in names
    requires |ids| >= 2
    ensures CheckIncompatibilities(pairs, names, ids).Invalid?
    ensures ConflictOf(Canonical(a, b), names) in CheckIncompatibilities(pairs, names, ids).conflicts
    ensures ConflictOf(Canonical(a, b), names) in CheckIncompatibilities(pairs, names, [ids[|ids| - 1]] + ids[..|ids| - 1]).conflicts
  {
    RecordedPairReported(pairs, names, ids, a, b);
    var rotated := [ids[|ids| - 1]] + ids[..|ids| - 1];
    assert ids == ids[..|ids| - 1] + [ids[|ids| - 1]];
    assert multiset(rotated) == multiset(ids);
    CheckOrderIndependent(pairs, names, ids, rotated);
  }
}
