/**
 * The sub-category reference data: the nineteen sub-category types with
 * their stored codes and display labels, the mapping that assigns each to
 * the Infrastructure or the Hazard category, and the text form of a row.
 */
module SubCategoryModel {
  import opened Wrappers

  datatype SubCategoryType =
    // Infrastructure
    | RoadDamage | Streetlights | Sidewalks | Building | Bridge
    | StructuralCollapse | SafetySecurity | InfraOther
    // Hazard
    | Flooding | Landslide | FireHazard | ElectricalHazard | FallenTrees
    | RoadAccident | BlockedDrainage | Earthquake | Sinkhole | PublicHealth | HazardOther

  /** The choices in declaration order. */
  const Choices: seq<SubCategoryType> := [
    RoadDamage, Streetlights, Sidewalks, Building, Bridge, StructuralCollapse, SafetySecurity, InfraOther,
    Flooding, Landslide, FireHazard, ElectricalHazard, FallenTrees, RoadAccident, BlockedDrainage,
    Earthquake, Sinkhole, PublicHealth, HazardOther]

  /** The value stored in the `sub_category` column. */
  function Code(t: SubCategoryType): string {
    match t
    case RoadDamage => "ROAD_DAMAGE"
    case Streetlights => "STREETLIGHTS"
    case Sidewalks => "SIDEWALKS"
    case Building => "BUILDING"
    case Bridge => "BRIDGE"
    case StructuralCollapse => "STRUCTURAL_COLLAPSE"
    case SafetySecurity => "SAFETY_SECURITY"
    case InfraOther => "INFRA_OTHER"
    case Flooding => "FLOODING"
    case Landslide => "LANDSLIDE"
    case FireHazard => "FIRE_HAZARD"
    case ElectricalHazard => "ELECTRICAL_HAZARD"
    case FallenTrees => "FALLEN_TREES"
    case RoadAccident => "ROAD_ACCIDENT"
    case BlockedDrainage => "BLOCKED_DRAINAGE"
    case Earthquake => "EARTHQUAKE"
    case Sinkhole => "SINKHOLE"
    case PublicHealth => "PUBLIC_HEALTH"
    case HazardOther => "HAZARD_OTHER"
  }

  /** `get_sub_category_display()`. */
  function Label(t: SubCategoryType): string {
    match t
    case RoadDamage => "Road damage/Potholes"
    case Streetlights => "Streetlights/Electrical Issues"
    case Sidewalks => "Sidewalks/Pedestrian Paths"
    case Building => "Building/Structural Concerns"
    case Bridge => "Bridge/Overpass Issues"
    case StructuralCollapse => "Structural Collapses/Weak infrastructure"
    case SafetySecurity => "Safety and Security Concerns"
    case InfraOther => "Other (specify)"
    case Flooding => "Flooding/Water Overflow"
    case Landslide => "Landslide/Soil Erosion"
    case FireHazard => "Fire Hazard"
    case ElectricalHazard => "Electrical Hazard"
    case FallenTrees => "Fallen Trees/Debris Blocking Road"
    case RoadAccident => "Road accident"
    case BlockedDrainage => "Blocked Drainage/Clogged Gutter"
    case Earthquake => "Earthquake Damage"
    case Sinkhole => "Sinkhole"
    case PublicHealth => "Public Health Hazard"
    case HazardOther => "Other Hazard (specify)"
  }

  const MaxCodeLength: nat := 64

  /** `CATEGORY_MAPPING['Infrastructure']`. */
  const InfrastructureTypes: seq<SubCategoryType> := [
    RoadDamage, Streetlights, Sidewalks, Building, Bridge, StructuralCollapse, SafetySecurity, InfraOther]

  /** `CATEGORY_MAPPING['Hazard']`. */
  const HazardTypes: seq<SubCategoryType> := [
    Flooding, Landslide, FireHazard, ElectricalHazard, FallenTrees, RoadAccident, BlockedDrainage,
    Earthquake, Sinkhole, PublicHealth, HazardOther]

  /** `CATEGORY_MAPPING.get(report_type)`. */
  function CategoryMapping(reportType: string): Option<seq<SubCategoryType>> {
    if reportType == "Infrastructure" then Some(InfrastructureTypes)
    else if reportType == "Hazard" then Some(HazardTypes)
    else None
  }

  /** The position of a type in declaration order. */
  function Ordinal(t: SubCategoryType): (i: nat)
    ensures i < |Choices| && Choices[i] == t
  {
    match t
    case RoadDamage => 0
    case Streetlights => 1
    case Sidewalks => 2
    case Building => 3
    case Bridge => 4
    case StructuralCollapse => 5
    case SafetySecurity => 6
    case InfraOther => 7
    case Flooding => 8
    case Landslide => 9
    case FireHazard => 10
    case ElectricalHazard => 11
    case FallenTrees => 12
    case RoadAccident => 13
    case BlockedDrainage => 14
    case Earthquake => 15
    case Sinkhole => 16
    case PublicHealth => 17
    case HazardOther => 18
  }

  /** Every type is declared exactly once. */
  lemma ChoicesDistinct()
    ensures forall j, k :: 0 <= j < k < |Choices| ==> Choices[j] != Choices[k]
  {
    forall j, k | 0 <= j < k < |Choices| ensures Choices[j] != Choices[k] {
      assert Ordinal(Choices[j]) == j by { OrdinalOfChoice(j); }
      assert Ordinal(Choices[k]) == k by { OrdinalOfChoice(k); }
    }
  }

  lemma OrdinalOfChoice(j: nat)
    requires j < |Choices|
    ensures Ordinal(Choices[j]) == j
  {
    if j < 10 {
      if j < 5 {
      } else {
      }
    } else if j < 15 {
    } else {
    }
  }

  /** The mapping partitions the choices: 8 infrastructure types and 11 hazard
      types, the two lists in a row are the declaration order, and so every
      type is in exactly one of them. */
  lemma MappingPartitionsChoices()
    ensures |InfrastructureTypes| == 8 && |HazardTypes| == 11
    ensures InfrastructureTypes + HazardTypes == Choices
    ensures forall t :: t in InfrastructureTypes <==> t !in HazardTypes
  {
    assert InfrastructureTypes == Choices[..8];
    assert HazardTypes == Choices[8..];
    ChoicesDistinct();
    forall t ensures t in InfrastructureTypes <==> t !in HazardTypes {
      var i := Ordinal(t);
      if i < 8 {
        assert InfrastructureTypes[i] == t;
        forall k | 0 <= k < 11 ensures HazardTypes[k] != t {
          assert HazardTypes[k] == Choices[8 + k];
        }
      } else {
        assert HazardTypes[i - 8] == t;
        forall k | 0 <= k < 8 ensures InfrastructureTypes[k] != t {
          assert InfrastructureTypes[k] == Choices[k];
        }
      }
    }
  }

  /** Neither list names a type twice. */
  lemma MappingListsDistinct()
    ensures forall j, k :: 0 <= j < k < |InfrastructureTypes| ==> InfrastructureTypes[j] != InfrastructureTypes[k]
    ensures forall j, k :: 0 <= j < k < |HazardTypes| ==> HazardTypes[j] != HazardTypes[k]
  {
    MappingPartitionsChoices();
    ChoicesDistinct();
    forall j, k | 0 <= j < k < |InfrastructureTypes| ensures InfrastructureTypes[j] != InfrastructureTypes[k] {
      assert InfrastructureTypes[j] == Choices[j] && InfrastructureTypes[k] == Choices[k];
    }
    forall j, k | 0 <= j < k < |HazardTypes| ensures HazardTypes[j] != HazardTypes[k] {
      assert HazardTypes[j] == Choices[8 + j] && HazardTypes[k] == Choices[8 + k];
    }
  }

  /** The category a type belongs to under the mapping. */
  function CategoryOf(t: SubCategoryType): (reportType: string)
    ensures CategoryMapping(reportType).Some? && t in CategoryMapping(reportType).value
  {
    MappingPartitionsChoices();
    if t in InfrastructureTypes then "Infrastructure" else "Hazard"
  }

  /** The choice whose stored code is `code`, if any (the column's choices check). */
  function FromCode(code: string): Option<SubCategoryType> {
    FindCode(Choices, code)
  }

  function FindCode(ts: seq<SubCategoryType>, code: string): (r: Option<SubCategoryType>)
    ensures r.Some? ==> r.value in ts && Code(r.value) == code
    ensures r.None? ==> forall t :: t in ts ==> Code(t) != code
  {
    if ts == [] then None
    else if Code(ts[0]) == code then Some(ts[0])
    else FindCode(ts[1..], code)
  }

  /** Length and first letter already tell the codes apart. */
  function CodeShape(t: SubCategoryType): (nat, char) {
    (|Code(t)|, Code(t)[0])
  }

  function TypeOfShape(shape: (nat, char)): Option<SubCategoryType> {
    match shape
    case (11, 'R') => Some(RoadDamage)
    case (12, 'S') => Some(Streetlights)
    case (9, 'S') => Some(Sidewalks)
    case (8, 'B') => Some(Building)
    case (6, 'B') => Some(Bridge)
    case (19, 'S') => Some(StructuralCollapse)
    case (15, 'S') => Some(SafetySecurity)
    case (11, 'I') => Some(InfraOther)
    case (8, 'F') => Some(Flooding)
    case (9, 'L') => Some(Landslide)
    case (11, 'F') => Some(FireHazard)
    case (17, 'E') => Some(ElectricalHazard)
    case (12, 'F') => Some(FallenTrees)
    case (13, 'R') => Some(RoadAccident)
    case (16, 'B') => Some(BlockedDrainage)
    case (10, 'E') => Some(Earthquake)
    case (8, 'S') => Some(Sinkhole)
    case (13, 'P') => Some(PublicHealth)
    case (12, 'H') => Some(HazardOther)
    case _ => None
  }

  /** Distinct types are stored under distinct codes. */
  lemma CodesDistinct(t: SubCategoryType, u: SubCategoryType)
    requires t != u
    ensures Code(t) != Code(u)
  {
    assert TypeOfShape(CodeShape(t)) == Some(t);
    assert TypeOfShape(CodeShape(u)) == Some(u);
  }

  /** Codes and types correspond one to one, and every code fits the
      64-character column. */
  lemma CodeRoundTrip(t: SubCategoryType, code: string)
    ensures FromCode(Code(t)) == Some(t)
    ensures FromCode(code).Some? ==> Code(FromCode(code).value) == code
    ensures |Code(t)| <= MaxCodeLength
  {
    var i := Ordinal(t);
    ChoicesDistinct();
    forall j | 0 <= j < i ensures Code(Choices[j]) != Code(Choices[i]) {
      CodesDistinct(Choices[j], Choices[i]);
    }
    FindCodeAt(Choices, i);
  }

  /** The search stops at the first choice with the code; no earlier choice
      shares it. */
  lemma {:induction false} FindCodeAt(ts: seq<SubCategoryType>, i: nat)
    requires i < |ts|
    requires forall j :: 0 <= j < i ==> Code(ts[j]) != Code(ts[i])
    ensures FindCode(ts, Code(ts[i])) == Some(ts[i])
  {
    if i > 0 {
      assert Code(ts[0]) != Code(ts[i]);
      assert ts[1..][i - 1] == ts[i];
      FindCodeAt(ts[1..], i - 1);
    }
  }

  /** `__str__`: the display label followed by the category name in parentheses. */
  function Str(t: SubCategoryType, reportType: string): string {
    Label(t) + " (" + reportType + ")"
  }

  /** The label and the category name can be read back from the text. */
  lemma StrSpec(t: SubCategoryType, reportType: string)
    ensures var s := Str(t, reportType);
      |s| == |Label(t)| + |reportType| + 3 &&
      s[..|Label(t)|] == Label(t) &&
      s[|Label(t)| + 2..|s| - 1] == reportType &&
      s[|s| - 1] == ')'
  {
  }
}
