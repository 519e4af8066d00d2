/**
 * The read-only sub-category endpoints: the list with its optional
 * `category` parameter, retrieval by id, and `by_category`, which insists on
 * the parameter. Rows are serialized with their category's id and name and
 * the display label of their type.
 */
module SubCategoryView {
  import opened Wrappers
  import opened Queries
  import opened Records
  import opened SubCategoryModel
  import ReportView

  /** One serialized sub-category. */
  datatype Item = Item(
    id: nat,
    reportType: nat,
    categoryId: nat,
    categoryName: string,
    subCategory: string,
    subCategoryDisplay: string)

  /** Every sub-category's category exists (the foreign key). */
  predicate CategoriesExist(categories: seq<Category>, rows: seq<SubCategory>) {
    forall k :: 0 <= k < |rows| ==> exists c :: c in categories && c.id == rows[k].categoryId
  }

  function Serialize(categories: seq<Category>, row: SubCategory): (item: Item)
    requires exists c :: c in categories && c.id == row.categoryId
  {
    Item(row.id, row.categoryId, row.categoryId, ReportView.CategoryName(categories, row.categoryId),
         Code(row.kind), Label(row.kind))
  }

  function SerializeAll(categories: seq<Category>, rows: seq<SubCategory>): (items: seq<Item>)
    requires CategoriesExist(categories, rows)
  {
    seq(|rows|, k requires 0 <= k < |rows| => Serialize(categories, rows[k]))
  }

  function InCategory(rows: seq<SubCategory>, category: nat): seq<SubCategory> {
    Filter(rows, (s: SubCategory) => s.categoryId == category)
  }

  /** `list` through `get_queryset`: narrowed to the category when the
      parameter is given, all rows otherwise, in table order. */
  function List(categories: seq<Category>, rows: seq<SubCategory>, category: Option<nat>): seq<Item>
    requires CategoriesExist(categories, rows)
  {
    if category.Some? then
      var found := InCategory(rows, category.value);
      assert CategoriesExist(categories, found) by {
        forall k | 0 <= k < |found| ensures exists c :: c in categories && c.id == found[k].categoryId {
          assert found[k] in rows;
        }
      }
      SerializeAll(categories, found)
    else SerializeAll(categories, rows)
  }

  /** `retrieve`: the row with the id in the queryset of `get_queryset`,
      so narrowed by the `category` parameter when it is given, or a 404
      (`None`). */
  function Retrieve(categories: seq<Category>, rows: seq<SubCategory>, category: Option<nat>, id: nat): Option<Item>
    requires CategoriesExist(categories, rows)
  {
    var found := Filter(rows, (s: SubCategory) => s.id == id && (category.None? || s.categoryId == category.value));
    if found == [] then None
    else
      assert CategoriesExist(categories, found) by {
        forall k | 0 <= k < |found| ensures exists c :: c in categories && c.id == found[k].categoryId {
          assert found[k] in rows;
        }
      }
      Some(Serialize(categories, found[0]))
  }

  const CategoryRequired: string := "category parameter is required"

  datatype ByCategoryResponse =
    | MissingCategory(error: string)            // 400, success: False
    | Listed(count: nat, data: seq<Item>)       // 200, success: True

  /** `by_category`: the parameter is required; the answer carries the
      matching rows and their number. */
  function ByCategory(categories: seq<Category>, rows: seq<SubCategory>, category: Option<nat>): ByCategoryResponse
    requires CategoriesExist(categories, rows)
  {
    if category.None? then MissingCategory(CategoryRequired)
    else
      var data := List(categories, rows, category);
      Listed(|InCategory(rows, category.value)|, data)
  }

  /** The list holds one item per row in the requested category (all rows
      without the parameter), each item describing its row; every item of a
      narrowed list belongs to the category. */
  lemma ListSpec(categories: seq<Category>, rows: seq<SubCategory>, category: Option<nat>)
    requires CategoriesExist(categories, rows)
    ensures category.None? ==> |List(categories, rows, category)| == |rows|
    ensures category.None? ==> forall k :: 0 <= k < |rows| ==>
      List(categories, rows, category)[k].id == rows[k].id &&
      List(categories, rows, category)[k].subCategory == Code(rows[k].kind)
    ensures category.Some? ==> |List(categories, rows, category)| == |InCategory(rows, category.value)|
    ensures category.Some? ==> forall it :: it in List(categories, rows, category) ==> it.categoryId == category.value
    ensures category.Some? ==> forall s :: s in rows && s.categoryId == category.value ==>
      exists it :: it in List(categories, rows, category) && it.id == s.id && it.subCategory == Code(s.kind)
  {
    if category.Some? {
      var found := InCategory(rows, category.value);
      var items := List(categories, rows, category);
      forall it | it in items ensures it.categoryId == category.value {
        var k :| 0 <= k < |items| && items[k] == it;
        assert it.categoryId == found[k].categoryId;
      }
      forall s | s in rows && s.categoryId == category.value
        ensures exists it :: it in items && it.id == s.id && it.subCategory == Code(s.kind)
      {
        assert s in found;
        var k :| 0 <= k < |found| && found[k] == s;
        assert items[k] in items;
      }
    }
  }

  /** Without the parameter `by_category` answers 400; with it, the same rows
      as the list narrowed to that category, and `count` is their number. */
  lemma ByCategorySpec(categories: seq<Category>, rows: seq<SubCategory>, category: Option<nat>)
    requires CategoriesExist(categories, rows)
    ensures ByCategory(categories, rows, category).MissingCategory? <==> category.None?
    ensures ByCategory(categories, rows, category).Listed? ==>
      ByCategory(categories, rows, category).data == List(categories, rows, category) &&
      ByCategory(categories, rows, category).count == |ByCategory(categories, rows, category).data|
  {
    ListSpec(categories, rows, category);
  }

  /** Retrieval finds a row exactly when one has the id and, when the
      `category` parameter is given, belongs to that category; the item is
      that row. */
  lemma RetrieveSpec(categories: seq<Category>, rows: seq<SubCategory>, category: Option<nat>, id: nat)
    requires CategoriesExist(categories, rows)
    ensures Retrieve(categories, rows, category, id).Some? <==>
      exists s :: s in rows && s.id == id && (category.None? || s.categoryId == category.value)
    ensures Retrieve(categories, rows, category, id).Some? ==>
      exists s :: s in rows && s.id == id && (category.None? || s.categoryId == category.value) &&
        Retrieve(categories, rows, category, id).value.id == id &&
        Retrieve(categories, rows, category, id).value.categoryId == s.categoryId &&
        Retrieve(categories, rows, category, id).value.subCategory == Code(s.kind) &&
        Retrieve(categories, rows, category, id).value.subCategoryDisplay == Label(s.kind)
  {
    var found := Filter(rows, (s: SubCategory) => s.id == id && (category.None? || s.categoryId == category.value));
    if found != [] {
      assert found[0] in found;
    }
  }
}
