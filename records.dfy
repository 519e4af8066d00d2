/** Rows of the backend's tables, as the views and serializers see them. */
module Records {
  import opened Wrappers
  import SubCategoryModel

  /** A row of `citizens`; `password` holds the stored (hashed) password. */
  datatype Citizen = Citizen(id: nat, name: string, email: string, password: string)

  /** A row of `authorities`. Unlike a citizen's, the email is not declared unique. */
  datatype Authority = Authority(id: nat, authorityName: string, email: string, password: string)

  /** A row of `categories`; `reportType` is "Hazard" or "Infrastructure" and is unique. */
  datatype Category = Category(id: nat, reportType: string)

  /** A row of `sub_categories`: a sub-category type attached to a category.
      The column's choices admit only the declared types. */
  datatype SubCategory = SubCategory(id: nat, categoryId: nat, kind: SubCategoryModel.SubCategoryType)

  /** A row of `reports`. Coordinates are exact decimals (`DecimalField(9, 6)`);
      `createdAt` is the creation time as a number that orders rows in time. */
  datatype Report = Report(
    id: nat,
    citizenId: nat,
    categoryId: nat,
    subCategoryId: Option<nat>,
    latitude: real,
    longitude: real,
    description: Option<string>,
    createdAt: int)
}
