/**
 * `combineGroupPermissions` and `mergePermissions`
 * (src/js/actions/userActions.js:267-288).
 */
module PermissionMerge {
  import opened Wrappers
  import opened Lists
  import opened PermissionModel

  /**
   * What `combineGroupPermissions(existing, additional)` leaves in `existing`:
   * every group of `additional` gets its added values followed by the ones it
   * had, without repeats; the other groups keep their lists.
   */
  function CombineGroups(existing: GroupPermissions, additional: GroupPermissions): GroupPermissions {
    map g | g in existing.Keys + additional.Keys ::
      if g in additional then Dedup(additional[g] + Get(existing, g)) else existing[g]
  }

  /** What the reduce of lines 267-272 has left under `g` while the groups in `pending` are still to come. */
  function CombinedSoFar(existing: GroupPermissions, additional: GroupPermissions, pending: set<GroupName>, g: GroupName): seq<Value> {
    if g in additional && g !in pending then Dedup(additional[g] + Get(existing, g)) else Get(existing, g)
  }

  /**
   * The reduce of lines 267-272, one group of `additional` at a time. The
   * source writes into the map it is given and returns it; here the updated
   * map is the result.
   */
  method CombineGroupPermissions(existing: GroupPermissions, additional: GroupPermissions)
    returns (groupsAccu: GroupPermissions)
    ensures groupsAccu == CombineGroups(existing, additional)
  {
    groupsAccu := existing;
    var pending := additional.Keys;
    while pending != {}
      invariant pending <= additional.Keys
      invariant groupsAccu.Keys == existing.Keys + (additional.Keys - pending)
      invariant forall g :: g in groupsAccu ==> groupsAccu[g] == CombinedSoFar(existing, additional, pending, g)
      decreases pending
    {
      var name :| name in pending;
      var groupPermissions := if name in groupsAccu then groupsAccu[name] else [];
      var next := groupsAccu[name := Dedup(additional[name] + groupPermissions)];
      CombineStep(existing, additional, pending, name, groupsAccu, next);
      groupsAccu, pending := next, pending - {name};
    }
    MapsAgree(groupsAccu, CombineGroups(existing, additional));
  }

  /** One group of `additional` written into the accumulator. */
  lemma CombineStep(existing: GroupPermissions, additional: GroupPermissions, pending: set<GroupName>, name: GroupName,
                    accu: GroupPermissions, next: GroupPermissions)
    requires name in pending && pending <= additional.Keys
    requires accu.Keys == existing.Keys + (additional.Keys - pending)
    requires forall g :: g in accu ==> accu[g] == CombinedSoFar(existing, additional, pending, g)
    requires next == accu[name := Dedup(additional[name] + Get(accu, name))]
    ensures next.Keys == existing.Keys + (additional.Keys - (pending - {name}))
    ensures forall g :: g in next ==> next[g] == CombinedSoFar(existing, additional, pending - {name}, g)
  {
    assert Get(accu, name) == Get(existing, name);
  }

  /** Flat areas of `mergePermissions`: the keys of `existing`, each extended by the added list. */
  function MergeAreas(existing: map<Area, seq<Value>>, added: map<Area, seq<Value>>): map<Area, seq<Value>> {
    map a | a in existing :: if a in added then Dedup(existing[a] + added[a]) else existing[a]
  }

  /** The `groups` key of `mergePermissions`: kept only if `existing` has it, combined if `added` has it too. */
  function MergeGroups(existing: Option<GroupPermissions>, added: Option<GroupPermissions>): Option<GroupPermissions> {
    match existing
    case None => None
    case Some(groups) => if added.Some? then Some(CombineGroups(groups, added.value)) else existing
  }

  /** `mergePermissions(existing, added)`. */
  function MergePermissions(existing: UiPermissions, added: UiPermissions): UiPermissions {
    UiPermissions(MergeAreas(existing.areas, added.areas), MergeGroups(existing.groups, added.groups))
  }

  /**
   * The result has exactly the keys of `existing`; an area `added` lacks is
   * copied; a list area holds the values of both sides, existing ones first
   * and in their order, each once.
   */
  lemma MergeAreasSpec(existing: UiPermissions, added: UiPermissions)
    ensures MergePermissions(existing, added).areas.Keys == existing.areas.Keys
    ensures MergePermissions(existing, added).groups.Some? == existing.groups.Some?
    ensures forall a :: a in existing.areas && a !in added.areas ==>
      MergePermissions(existing, added).areas[a] == existing.areas[a]
    ensures forall a, x :: a in existing.areas && a in added.areas ==>
      (x in MergePermissions(existing, added).areas[a] <==> x in existing.areas[a] || x in added.areas[a])
    ensures forall a :: a in existing.areas && a in added.areas ==>
      NoDuplicates(MergePermissions(existing, added).areas[a])
  {
    forall a | a in existing.areas && a in added.areas {
      DedupSpec(existing.areas[a] + added.areas[a]);
    }
  }

  /** Values already present keep their positions: an existing duplicate-free list is a prefix of the merged one. */
  lemma MergeKeepsOrder(existing: UiPermissions, added: UiPermissions, a: Area)
    requires a in existing.areas && NoDuplicates(existing.areas[a])
    ensures existing.areas[a] <= MergePermissions(existing, added).areas[a]
  {
    if a in added.areas {
      DedupPrefix(existing.areas[a], added.areas[a]);
      DedupNoDuplicates(existing.areas[a]);
    }
  }

  /**
   * The groups map is merged group by group: every group of either side is
   * kept and holds the values of both sides.
   */
  lemma MergeGroupsSpec(existing: UiPermissions, added: UiPermissions)
    requires existing.groups.Some? && added.groups.Some?
    ensures MergePermissions(existing, added).groups.value.Keys == existing.groups.value.Keys + added.groups.value.Keys
    ensures forall g, x :: g in MergePermissions(existing, added).groups.value ==>
      (x in MergePermissions(existing, added).groups.value[g] <==>
       x in Get(existing.groups.value, g) || x in Get(added.groups.value, g))
  {
    var eg, ag := existing.groups.value, added.groups.value;
    forall g | g in ag {
      DedupSpec(ag[g] + Get(eg, g));
    }
  }

  /** Merging never introduces repeats into a duplicate-free record. */
  lemma {:induction false} MergePreservesDuplicateFree(existing: UiPermissions, added: UiPermissions)
    requires DuplicateFree(existing)
    ensures DuplicateFree(MergePermissions(existing, added))
  {
    forall a | a in existing.areas && a in added.areas {
      DedupSpec(existing.areas[a] + added.areas[a]);
    }
    if existing.groups.Some? && added.groups.Some? {
      var eg, ag := existing.groups.value, added.groups.value;
      forall g | g in ag {
        DedupSpec(ag[g] + Get(eg, g));
      }
    }
  }

  lemma MergeAreasSelf(m: map<Area, seq<Value>>)
    requires forall a :: a in m ==> NoDuplicates(m[a])
    ensures MergeAreas(m, m) == m
  {
    forall a | a in m
      ensures MergeAreas(m, m)[a] == m[a]
    {
      DedupAppendCovered(m[a], m[a]);
      DedupNoDuplicates(m[a]);
    }
  }

  lemma CombineGroupsSelf(groups: GroupPermissions)
    requires forall g :: g in groups ==> NoDuplicates(groups[g])
    ensures CombineGroups(groups, groups) == groups
  {
    forall g | g in groups
      ensures CombineGroups(groups, groups)[g] == groups[g]
    {
      DedupAppendCovered(groups[g], groups[g]);
      DedupNoDuplicates(groups[g]);
    }
  }

  /** A duplicate-free record merged with itself is itself. */
  lemma MergeIdempotent(r: UiPermissions)
    requires DuplicateFree(r)
    ensures MergePermissions(r, r) == r
  {
    MergeAreasSelf(r.areas);
    if r.groups.Some? {
      CombineGroupsSelf(r.groups.value);
    }
  }

  lemma MergeAreasKeys(existing: map<Area, seq<Value>>, added: map<Area, seq<Value>>)
    ensures MergeAreas(existing, added).Keys == existing.Keys
  {
  }

  lemma MergeAreasAssociativeAt(a: map<Area, seq<Value>>, b: map<Area, seq<Value>>, c: map<Area, seq<Value>>, k: Area)
    requires k in a && k in b && k in c
    ensures MergeAreas(MergeAreas(a, b), c)[k] == MergeAreas(a, MergeAreas(b, c))[k]
  {
    DedupAssociative(a[k], b[k], c[k]);
  }

  lemma MergeAreasAssociative(a: map<Area, seq<Value>>, b: map<Area, seq<Value>>, c: map<Area, seq<Value>>)
    requires a.Keys == b.Keys == c.Keys
    ensures MergeAreas(MergeAreas(a, b), c) == MergeAreas(a, MergeAreas(b, c))
  {
    var left := MergeAreas(MergeAreas(a, b), c);
    var right := MergeAreas(a, MergeAreas(b, c));
    MergeAreasKeys(a, b);
    MergeAreasKeys(b, c);
    MergeAreasKeys(MergeAreas(a, b), c);
    MergeAreasKeys(a, MergeAreas(b, c));
    forall k | k in left
      ensures left[k] == right[k]
    {
      MergeAreasAssociativeAt(a, b, c, k);
    }
    MapsAgree(left, right);
  }

  lemma CombineGroupsAssociative(ga: GroupPermissions, gb: GroupPermissions, gc: GroupPermissions)
    ensures CombineGroups(CombineGroups(ga, gb), gc) == CombineGroups(ga, CombineGroups(gb, gc))
  {
    var gl := CombineGroups(CombineGroups(ga, gb), gc);
    var gr := CombineGroups(ga, CombineGroups(gb, gc));
    forall g | g in gl
      ensures gl[g] == gr[g]
    {
      if g in gc && g in gb {
        DedupAssociative(gc[g], gb[g], Get(ga, g));
      } else if g in gc {
        DedupDedupLeft(gc[g], Get(ga, g));
        assert gc[g] + [] == gc[g];
      }
    }
  }

  /** Merging is associative when the three records have the same keys. */
  lemma MergeAssociative(a: UiPermissions, b: UiPermissions, c: UiPermissions)
    requires a.areas.Keys == b.areas.Keys == c.areas.Keys
    requires a.groups.Some? && b.groups.Some? && c.groups.Some?
    ensures MergePermissions(MergePermissions(a, b), c) == MergePermissions(a, MergePermissions(b, c))
  {
    MergeAreasAssociative(a.areas, b.areas, c.areas);
    CombineGroupsAssociative(a.groups.value, b.groups.value, c.groups.value);
  }

  /** The set of values a record grants per area and per group, ignoring order. */
  ghost function AreaSets(r: UiPermissions): map<Area, set<Value>> {
    map a | a in r.areas :: set x | x in r.areas[a]
  }

  ghost function GroupSets(r: UiPermissions): map<GroupName, set<Value>>
    requires r.groups.Some?
  {
    map g | g in r.groups.value :: set x | x in r.groups.value[g]
  }

  /** Merging commutes up to order when both records have the same keys. */
  lemma MergeCommutesAsSets(a: UiPermissions, b: UiPermissions)
    requires a.areas.Keys == b.areas.Keys
    requires a.groups.Some? && b.groups.Some?
    ensures AreaSets(MergePermissions(a, b)) == AreaSets(MergePermissions(b, a))
    ensures GroupSets(MergePermissions(a, b)) == GroupSets(MergePermissions(b, a))
  {
    AreasCommute(a, b);
    GroupsCommute(a, b);
  }

  lemma AreasCommute(a: UiPermissions, b: UiPermissions)
    requires a.areas.Keys == b.areas.Keys
    ensures AreaSets(MergePermissions(a, b)) == AreaSets(MergePermissions(b, a))
  {
    var ab, ba := MergeAreas(a.areas, b.areas), MergeAreas(b.areas, a.areas);
    var sab, sba := AreaSets(MergePermissions(a, b)), AreaSets(MergePermissions(b, a));
    assert sab.Keys == a.areas.Keys == sba.Keys;
    forall k | k in sab
      ensures sab[k] == sba[k]
    {
      MergedAreaSymmetric(a.areas[k], b.areas[k]);
    }
  }

  /** One area merged either way round holds the same values. */
  lemma MergedAreaSymmetric(p: seq<Value>, q: seq<Value>)
    ensures (set x | x in Dedup(p + q)) == (set x | x in Dedup(q + p))
  {
    DedupSpec(p + q);
    DedupSpec(q + p);
    assert forall x :: x in p + q <==> x in q + p;
    SameElements(Dedup(p + q), Dedup(q + p));
  }

  lemma SameElements(p: seq<Value>, q: seq<Value>)
    requires forall x :: x in p <==> x in q
    ensures (set x | x in p) == (set x | x in q)
  {
  }

  lemma GroupsCommute(a: UiPermissions, b: UiPermissions)
    requires a.groups.Some? && b.groups.Some?
    ensures GroupSets(MergePermissions(a, b)) == GroupSets(MergePermissions(b, a))
  {
    var ab, ba := MergePermissions(a, b), MergePermissions(b, a);
    MergeGroupsSpec(a, b);
    MergeGroupsSpec(b, a);
    var sab, sba := GroupSets(ab), GroupSets(ba);
    assert sab.Keys == sba.Keys;
    forall g | g in sab
      ensures sab[g] == sba[g]
    {
      forall x ensures x in sab[g] <==> x in sba[g] {
        assert x in sab[g] <==> x in ab.groups.value[g];
        assert x in sba[g] <==> x in ba.groups.value[g];
      }
    }
  }
}
