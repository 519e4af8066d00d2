/**
 * The data migration that seeds the two categories and their nineteen
 * sub-categories with `get_or_create`, and its reverse. The two tables are
 * fields of a class, each a sequence of rows with a counter for the next
 * primary key.
 */
module SeedCategories {
  import opened Wrappers
  import opened Records
  import opened SubCategoryModel

  /** The migration's list of infrastructure codes. */
  const InfrastructureCodes: seq<string> := [
    "ROAD_DAMAGE", "STREETLIGHTS", "SIDEWALKS", "BUILDING", "BRIDGE",
    "STRUCTURAL_COLLAPSE", "SAFETY_SECURITY", "INFRA_OTHER"]

  /** The migration's list of hazard codes. */
  const HazardCodes: seq<string> := [
    "FLOODING", "LANDSLIDE", "FIRE_HAZARD", "ELECTRICAL_HAZARD", "FALLEN_TREES", "ROAD_ACCIDENT",
    "BLOCKED_DRAINAGE", "EARTHQUAKE", "SINKHOLE", "PUBLIC_HEALTH", "HAZARD_OTHER"]

  function Codes(ts: seq<SubCategoryType>): (cs: seq<string>)
    ensures |cs| == |ts| && forall k :: 0 <= k < |ts| ==> cs[k] == Code(ts[k])
  {
    seq(|ts|, k requires 0 <= k < |ts| => Code(ts[k]))
  }

  /** The seeded infrastructure list is the codes of the model's mapping, in
      the same order; by `CodeRoundTrip` each is a valid choice. */
  lemma InfrastructureCodesMatchMapping()
    ensures InfrastructureCodes == Codes(InfrastructureTypes)
  {
    var cs := Codes(InfrastructureTypes);
    assert |cs| == 8;
    assert cs[0] == Code(RoadDamage);
  }

  /** The seeded hazard list is the codes of the model's mapping, in the same
      order. */
  lemma HazardCodesMatchMapping()
    ensures HazardCodes == Codes(HazardTypes)
  {
    var cs := Codes(HazardTypes);
    assert |cs| == 11;
    assert cs[0] == Code(Flooding);
  }

  /** The identity of a sub-category row for `get_or_create`. */
  function Key(s: SubCategory): (nat, SubCategoryType) {
    (s.categoryId, s.kind)
  }

  /** The position of the category named `name`, if any. */
  function FindCategory(cats: seq<Category>, name: string): (r: Option<nat>)
    ensures r.Some? ==> r.value < |cats| && cats[r.value].reportType == name
    ensures r.None? ==> forall c :: c in cats ==> c.reportType != name
  {
    if cats == [] then None
    else if cats[0].reportType == name then Some(0)
    else match FindCategory(cats[1..], name)
      case None => None
      case Some(i) => Some(i + 1)
  }

  /** The position of the sub-category row with the key, if any. */
  function FindSubCategory(subs: seq<SubCategory>, key: (nat, SubCategoryType)): (r: Option<nat>)
    ensures r.Some? ==> r.value < |subs| && Key(subs[r.value]) == key
    ensures r.None? ==> forall s :: s in subs ==> Key(s) != key
  {
    if subs == [] then None
    else if Key(subs[0]) == key then Some(0)
    else match FindSubCategory(subs[1..], key)
      case None => None
      case Some(i) => Some(i + 1)
  }

  /** Rows appended to a table are found only when no earlier row matches. */
  lemma {:induction false} FindCategoryExtend(cats: seq<Category>, more: seq<Category>, name: string)
    ensures FindCategory(cats + more, name) ==
      if FindCategory(cats, name).Some? then FindCategory(cats, name)
      else match FindCategory(more, name)
        case None => None
        case Some(i) => Some(|cats| + i)
  {
    if cats != [] {
      assert (cats + more)[1..] == cats[1..] + more;
      FindCategoryExtend(cats[1..], more, name);
    } else {
      assert cats + more == more;
    }
  }

  lemma {:induction false} FindSubCategoryExtend(subs: seq<SubCategory>, more: seq<SubCategory>, key: (nat, SubCategoryType))
    ensures FindSubCategory(subs, key).Some? ==> FindSubCategory(subs + more, key) == FindSubCategory(subs, key)
    ensures FindSubCategory(subs, key).None? && FindSubCategory(more, key).Some? ==>
      FindSubCategory(subs + more, key) == Some(|subs| + FindSubCategory(more, key).value)
  {
    if subs != [] {
      assert (subs + more)[1..] == subs[1..] + more;
      FindSubCategoryExtend(subs[1..], more, key);
    } else {
      assert subs + more == more;
    }
  }

  /** The rows the seeding loop appends to a table without any row of the
      category: the first `k` kinds under consecutive primary keys. */
  function NewRows(firstId: nat, category: nat, kinds: seq<SubCategoryType>, k: nat): (rows: seq<SubCategory>)
    requires k <= |kinds|
    ensures |rows| == k
    ensures forall m :: 0 <= m < k ==> rows[m] == SubCategory(firstId + m, category, kinds[m])
  {
    seq(k, m requires 0 <= m < k => SubCategory(firstId + m, category, kinds[m]))
  }

  class CatalogDb {
    var categories: seq<Category>
    var subcategories: seq<SubCategory>
    var nextCategoryId: nat
    var nextSubCategoryId: nat

    /** Primary keys are below the counters and unique, category names are
        unique (the column says so), and no two sub-category rows share a
        category and a code. The sub-category table declares no such
        constraint; the seeding itself never creates a duplicate pair, which
        is what this invariant records. A table that already held one would
        make `get_or_create` fail with `MultipleObjectsReturned`, a case
        this model does not cover. */
    ghost predicate Valid()
      reads this
    {
      (forall c :: c in categories ==> c.id < nextCategoryId) &&
      (forall i, j :: 0 <= i < j < |categories| ==>
        categories[i].id != categories[j].id && categories[i].reportType != categories[j].reportType) &&
      (forall s :: s in subcategories ==> s.id < nextSubCategoryId) &&
      (forall i, j :: 0 <= i < j < |subcategories| ==>
        subcategories[i].id != subcategories[j].id && Key(subcategories[i]) != Key(subcategories[j]))
    }

    /** The migration has run: both categories exist and each carries its
        own sub-category types. */
    ghost predicate Seeded()
      reads this
    {
      var h := FindCategory(categories, "Hazard");
      var i := FindCategory(categories, "Infrastructure");
      h.Some? && i.Some? &&
      (forall t :: t in InfrastructureTypes ==> FindSubCategory(subcategories, (categories[i.value].id, t)).Some?) &&
      (forall t :: t in HazardTypes ==> FindSubCategory(subcategories, (categories[h.value].id, t)).Some?)
    }

    constructor ()
      ensures Valid() && categories == [] && subcategories == []
      ensures nextCategoryId == 1 && nextSubCategoryId == 1
    {
      categories := [];
      subcategories := [];
      nextCategoryId := 1;
      nextSubCategoryId := 1;
    }

    /** `Category.objects.get_or_create(report_type=name)`: the existing row,
        or a new one appended under the next primary key. */
    method GetOrCreateCategory(name: string) returns (id: nat, created: bool)
      requires Valid()
      modifies this
      ensures Valid()
      ensures created <==> old(FindCategory(categories, name)).None?
      ensures !created ==> (categories == old(categories) && nextCategoryId == old(nextCategoryId))
      ensures created ==>
        (categories == old(categories) + [Category(old(nextCategoryId), name)] &&
         id == old(nextCategoryId) && nextCategoryId == old(nextCategoryId) + 1)
      ensures FindCategory(categories, name).Some? && categories[FindCategory(categories, name).value].id == id
      ensures subcategories == old(subcategories) && nextSubCategoryId == old(nextSubCategoryId)
    {
      var found := FindCategory(categories, name);
      if found.Some? {
        id, created := categories[found.value].id, false;
      } else {
        id, created := nextCategoryId, true;
        FindCategoryExtend(categories, [Category(id, name)], name);
        categories := categories + [Category(id, name)];
        nextCategoryId := nextCategoryId + 1;
      }
    }

    /** `SubCategory.objects.get_or_create(report_type=category, sub_category=code)`. */
    method GetOrCreateSubCategory(category: nat, kind: SubCategoryType) returns (created: bool)
      requires Valid()
      modifies this
      ensures Valid()
      ensures created <==> old(FindSubCategory(subcategories, (category, kind))).None?
      ensures !created ==> (subcategories == old(subcategories) && nextSubCategoryId == old(nextSubCategoryId))
      ensures created ==>
        (subcategories == old(subcategories) + [SubCategory(old(nextSubCategoryId), category, kind)] &&
         nextSubCategoryId == old(nextSubCategoryId) + 1)
      ensures categories == old(categories) && nextCategoryId == old(nextCategoryId)
    {
      var found := FindSubCategory(subcategories, (category, kind));
      created := found.None?;
      if created {
        subcategories := subcategories + [SubCategory(nextSubCategoryId, category, kind)];
        nextSubCategoryId := nextSubCategoryId + 1;
      }
    }

    /** One loop of the migration: `get_or_create` of each code under the
        category. Rows already there are kept; the missing ones are appended
        in list order. */
    method SeedList(category: nat, kinds: seq<SubCategoryType>)
      requires Valid()
      modifies this
      ensures Valid()
      ensures categories == old(categories) && nextCategoryId == old(nextCategoryId)
      ensures old(subcategories) <= subcategories
      ensures forall t :: t in kinds ==> FindSubCategory(subcategories, (category, t)).Some?
      ensures forall key :: FindSubCategory(old(subcategories), key).Some? ==> FindSubCategory(subcategories, key).Some?
      ensures (forall t :: t in kinds ==> old(FindSubCategory(subcategories, (category, t))).Some?) ==>
        (subcategories == old(subcategories) && nextSubCategoryId == old(nextSubCategoryId))
      ensures (forall s :: s in old(subcategories) ==> s.categoryId != category) &&
              (forall j, k :: 0 <= j < k < |kinds| ==> kinds[j] != kinds[k]) ==>
        subcategories == old(subcategories) + NewRows(old(nextSubCategoryId), category, kinds, |kinds|)
    {
      ghost var start := subcategories;
      ghost var firstId := nextSubCategoryId;
      ghost var present := AllPresent(start, category, kinds);
      ghost var disjoint := Disjoint(start, category, kinds);
      for k := 0 to |kinds|
        invariant Valid()
        invariant categories == old(categories) && nextCategoryId == old(nextCategoryId)
        invariant LoopFacts(start, subcategories, nextSubCategoryId, firstId, category, kinds, k, present, disjoint)
      {
        ghost var before := subcategories;
        ghost var nextBefore := nextSubCategoryId;
        var created := GetOrCreateSubCategory(category, kinds[k]);
        LoopStep(start, before, subcategories, nextBefore, nextSubCategoryId, firstId, category, kinds, k, present, disjoint);
      }
      PrefixKeepsFound(start, subcategories);
      forall t | t in kinds ensures FindSubCategory(subcategories, (category, t)).Some? {
        var j :| 0 <= j < |kinds| && kinds[j] == t;
      }
    }

    /** Every kind of the list already has its row. */
    static ghost predicate AllPresent(rows: seq<SubCategory>, category: nat, kinds: seq<SubCategoryType>) {
      forall t :: t in kinds ==> FindSubCategory(rows, (category, t)).Some?
    }

    /** No row of the category yet, and no kind listed twice. */
    static ghost predicate Disjoint(rows: seq<SubCategory>, category: nat, kinds: seq<SubCategoryType>) {
      (forall s :: s in rows ==> s.categoryId != category) &&
      (forall j, m :: 0 <= j < m < |kinds| ==> kinds[j] != kinds[m])
    }

    /** What holds of the table after `k` turns of the loop. */
    static ghost predicate LoopFacts(start: seq<SubCategory>, rows: seq<SubCategory>, next: nat, firstId: nat,
                                     category: nat, kinds: seq<SubCategoryType>, k: nat, present: bool, disjoint: bool)
    {
      k <= |kinds| &&
      start <= rows &&
      (forall j :: 0 <= j < k ==> FindSubCategory(rows, (category, kinds[j])).Some?) &&
      (present ==> rows == start && next == firstId) &&
      (disjoint ==> rows == start + NewRows(firstId, category, kinds, k) && next == firstId + k)
    }

    /** One turn of the loop keeps `LoopFacts`. */
    static lemma LoopStep(start: seq<SubCategory>, before: seq<SubCategory>, after: seq<SubCategory>,
                          nextBefore: nat, nextAfter: nat, firstId: nat,
                          category: nat, kinds: seq<SubCategoryType>, k: nat, present: bool, disjoint: bool)
      requires k < |kinds|
      requires present == AllPresent(start, category, kinds) && disjoint == Disjoint(start, category, kinds)
      requires LoopFacts(start, before, nextBefore, firstId, category, kinds, k, present, disjoint)
      requires FindSubCategory(before, (category, kinds[k])).Some? ==> after == before && nextAfter == nextBefore
      requires FindSubCategory(before, (category, kinds[k])).None? ==>
        after == before + [SubCategory(nextBefore, category, kinds[k])] && nextAfter == nextBefore + 1
      ensures LoopFacts(start, after, nextAfter, firstId, category, kinds, k + 1, present, disjoint)
    {
      if present {
        assert kinds[k] in kinds;
      }
      if disjoint {
        NewKindNotFound(start, firstId, category, kinds, k);
        NewRowsStep(firstId, category, kinds, k);
        assert after == (start + NewRows(firstId, category, kinds, k)) + [SubCategory(firstId + k, category, kinds[k])];
      }
      PrefixKeepsFound(before, after);
      if FindSubCategory(before, (category, kinds[k])).None? {
        FindSubCategoryExtend(before, [SubCategory(nextBefore, category, kinds[k])], (category, kinds[k]));
      }
    }

    /** On a table without rows of the category, the kinds seeded so far are
        distinct from the current one, so it is not found. */
    static lemma NewKindNotFound(start: seq<SubCategory>, firstId: nat, category: nat,
                                 kinds: seq<SubCategoryType>, k: nat)
      requires k < |kinds|
      requires forall s :: s in start ==> s.categoryId != category
      requires forall j, m :: 0 <= j < m < |kinds| ==> kinds[j] != kinds[m]
      ensures FindSubCategory(start + NewRows(firstId, category, kinds, k), (category, kinds[k])).None?
    {
      var rows := start + NewRows(firstId, category, kinds, k);
      forall s | s in rows ensures Key(s) != (category, kinds[k]) {
        if s !in start {
          var i :| 0 <= i < |rows| && rows[i] == s;
          assert rows[i] == NewRows(firstId, category, kinds, k)[i - |start|];
        }
      }
    }

    static lemma NewRowsStep(firstId: nat, category: nat, kinds: seq<SubCategoryType>, k: nat)
      requires k < |kinds|
      ensures NewRows(firstId, category, kinds, k + 1) ==
              NewRows(firstId, category, kinds, k) + [SubCategory(firstId + k, category, kinds[k])]
    {
    }

    static lemma PrefixKeepsFound(before: seq<SubCategory>, after: seq<SubCategory>)
      requires before <= after
      ensures forall key :: FindSubCategory(before, key).Some? ==> FindSubCategory(after, key).Some?
    {
      forall key | FindSubCategory(before, key).Some? ensures FindSubCategory(after, key).Some? {
        FindSubCategoryExtend(before, after[|before|..], key);
        assert before + after[|before|..] == after;
      }
    }

    /** The first two lines of the migration: `get_or_create` of Hazard, then
        of Infrastructure. */
    method SeedCategoryRows() returns (hazard: nat, infra: nat)
      requires Valid()
      modifies this
      ensures Valid()
      ensures subcategories == old(subcategories) && nextSubCategoryId == old(nextSubCategoryId)
      ensures old(categories) <= categories
      ensures FindCategory(categories, "Hazard").Some? && categories[FindCategory(categories, "Hazard").value].id == hazard
      ensures FindCategory(categories, "Infrastructure").Some? &&
              categories[FindCategory(categories, "Infrastructure").value].id == infra
      ensures old(FindCategory(categories, "Hazard")).Some? && old(FindCategory(categories, "Infrastructure")).Some? ==>
        categories == old(categories)
      ensures old(categories) == [] ==>
        categories == [Category(old(nextCategoryId), "Hazard"), Category(old(nextCategoryId) + 1, "Infrastructure")] &&
        hazard != infra
    {
      var hCreated, iCreated;
      hazard, hCreated := GetOrCreateCategory("Hazard");
      ghost var afterHazard := categories;
      infra, iCreated := GetOrCreateCategory("Infrastructure");
      FindCategoryExtend(afterHazard, categories[|afterHazard|..], "Hazard");
      assert afterHazard + categories[|afterHazard|..] == categories;
    }

    /** The two loops of the migration: the infrastructure codes under
        `infra`, then the hazard codes under `hazard`. */
    method SeedSubCategoryRows(hazard: nat, infra: nat)
      requires Valid()
      modifies this
      ensures Valid()
      ensures categories == old(categories) && nextCategoryId == old(nextCategoryId)
      ensures old(subcategories) <= subcategories
      ensures forall t :: t in InfrastructureTypes ==> FindSubCategory(subcategories, (infra, t)).Some?
      ensures forall t :: t in HazardTypes ==> FindSubCategory(subcategories, (hazard, t)).Some?
      ensures (forall t :: t in InfrastructureTypes ==> old(FindSubCategory(subcategories, (infra, t))).Some?) &&
              (forall t :: t in HazardTypes ==> old(FindSubCategory(subcategories, (hazard, t))).Some?) ==>
        subcategories == old(subcategories)
      ensures old(subcategories) == [] && hazard != infra ==>
        |subcategories| == |InfrastructureTypes| + |HazardTypes| == 19
    {
      ghost var seeded := (forall t :: t in InfrastructureTypes ==> FindSubCategory(subcategories, (infra, t)).Some?) &&
                          (forall t :: t in HazardTypes ==> FindSubCategory(subcategories, (hazard, t)).Some?);
      ghost var empty := old(subcategories) == [] && hazard != infra;
      if empty {
        MappingListsDistinct();
      }
      SeedList(infra, InfrastructureTypes);
      ghost var afterInfra := subcategories;
      assert seeded ==> subcategories == old(subcategories);
      assert empty ==> |afterInfra| == 8 && forall x :: x in afterInfra ==> x.categoryId == infra;
      SeedList(hazard, HazardTypes);
      assert empty ==> |subcategories| == 19;
    }

    /** `seed_categories_and_subcategories`: Hazard, then Infrastructure,
        then the infrastructure codes under Infrastructure and the hazard
        codes under Hazard. Rows that exist are kept as they are, so a second
        run changes nothing; on empty tables it creates 2 categories and 19
        sub-categories. */
    method Seed()
      requires Valid()
      modifies this
      ensures Valid() && Seeded()
      ensures old(categories) <= categories && old(subcategories) <= subcategories
      ensures old(Seeded()) ==> categories == old(categories) && subcategories == old(subcategories)
      ensures old(categories) == [] && old(subcategories) == [] ==>
        |categories| == 2 && |subcategories| == |InfrastructureTypes| + |HazardTypes| == 19
    {
      var hazard, infra := SeedCategoryRows();
      SeedSubCategoryRows(hazard, infra);
    }

    /** After seeding, each (category, code) pair of the mapping has exactly
        one row: the one the lookup finds. */
    lemma SeededPairsExactlyOnce(key: (nat, SubCategoryType))
      requires Valid() && FindSubCategory(subcategories, key).Some?
      ensures forall i :: 0 <= i < |subcategories| && Key(subcategories[i]) == key ==>
        i == FindSubCategory(subcategories, key).value
    {
      var f := FindSubCategory(subcategories, key).value;
      forall i | 0 <= i < |subcategories| && i != f ensures Key(subcategories[i]) != key {
        if i < f {
          assert Key(subcategories[i]) != Key(subcategories[f]);
        } else {
          assert Key(subcategories[f]) != Key(subcategories[i]);
        }
      }
    }

    /** `reverse_seed`: every sub-category row, then every category row, is
        deleted. The reports table is not part of this object; in the
        database, deleting a category also deletes its reports (the foreign
        key cascades). */
    method ReverseSeed()
      requires Valid()
      modifies this
      ensures Valid() && categories == [] && subcategories == []
      ensures nextCategoryId == old(nextCategoryId) && nextSubCategoryId == old(nextSubCategoryId)
    {
      subcategories := [];
      categories := [];
    }
  }
}
