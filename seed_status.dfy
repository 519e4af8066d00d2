/**
 * The `seed_status` management command: it makes sure the five report
 * statuses exist, with `get_or_create` in a loop that counts the rows it
 * created and the rows that already existed, after deleting every row when
 * `--reset` is given. The status table is a field of a class holding the
 * codes of its rows.
 */
module SeedStatus {
  import opened Queries

  /** The codes the command seeds, in its order. */
  const Statuses: seq<string> := ["pending", "approved", "in_progress", "rejected", "resolved"]

  /** The five codes are distinct. */
  lemma StatusesDistinct()
    ensures |Statuses| == 5
    ensures forall i, j :: 0 <= i < j < |Statuses| ==> Statuses[i] != Statuses[j]
  {
  }

  /** The seeded codes not yet in `table`, in the command's order: the rows a
      run adds to it. */
  function Missing(table: seq<string>, k: nat): (r: seq<string>)
    requires k <= |Statuses|
  {
    Filter(Statuses[..k], (s: string) => s !in table)
  }

  class StatusTable {
    var codes: seq<string>

    /** `code` is unique. */
    ghost predicate Valid()
      reads this
    {
      forall i, j :: 0 <= i < j < |codes| ==> codes[i] != codes[j]
    }

    constructor (rows: seq<string>)
      requires forall i, j :: 0 <= i < j < |rows| ==> rows[i] != rows[j]
      ensures Valid() && codes == rows
    {
      codes := rows;
    }

    /** `Status.objects.get_or_create(code=code)`. */
    method GetOrCreate(code: string) returns (created: bool)
      requires Valid()
      modifies this
      ensures Valid()
      ensures created <==> code !in old(codes)
      ensures codes == old(codes) + (if created then [code] else [])
    {
      created := code !in codes;
      if created {
        codes := codes + [code];
      }
    }

    /** The loop of `handle`: one `get_or_create` per status, counting. */
    method SeedAll() returns (createdCount: nat, existingCount: nat)
      requires Valid()
      modifies this
      ensures Valid()
      ensures codes == old(codes) + Missing(old(codes), |Statuses|)
      ensures createdCount == |Missing(old(codes), |Statuses|)|
      ensures createdCount + existingCount == |Statuses|
      ensures forall s :: s in Statuses ==> s in codes
    {
      ghost var start := codes;
      createdCount, existingCount := 0, 0;
      StatusesDistinct();
      for k := 0 to |Statuses|
        invariant Valid()
        invariant codes == start + Missing(start, k) && createdCount == |Missing(start, k)|
        invariant createdCount + existingCount == k
        invariant forall j :: 0 <= j < k ==> Statuses[j] in codes
      {
        var code := Statuses[k];
        assert code in codes <==> code in start by {
          forall x | x in Missing(start, k) ensures x != code {
            assert x in Statuses[..k];
          }
        }
        var created := GetOrCreate(code);
        assert Statuses[..k + 1] == Statuses[..k] + [code];
        FilterSnoc(Statuses[..k], code, (s: string) => s !in start);
        if created {
          createdCount := createdCount + 1;
        } else {
          existingCount := existingCount + 1;
        }
      }
    }

    /** `handle`: the optional reset, then the loop. Every status ends up
        present exactly once; the statuses that were missing are appended in
        order and counted as created, the others as existing. */
    method Handle(reset: bool) returns (createdCount: nat, existingCount: nat)
      requires Valid()
      modifies this
      ensures Valid()
      ensures var start := if reset then [] else old(codes);
        codes == start + Missing(start, |Statuses|) && createdCount == |Missing(start, |Statuses|)|
      ensures createdCount + existingCount == |Statuses| == 5
      ensures forall s :: s in Statuses ==> s in codes
      ensures reset ==> codes == Statuses && createdCount == 5 && existingCount == 0
      ensures !reset && (forall s :: s in Statuses ==> s in old(codes)) ==>
        codes == old(codes) && createdCount == 0 && existingCount == 5
    {
      if reset {
        codes := [];
      }
      ghost var start := codes;
      createdCount, existingCount := SeedAll();
      StatusesDistinct();
      if reset {
        assert Statuses[..|Statuses|] == Statuses;
        FilterAll(Statuses, (s: string) => s !in start);
      }
      if !reset && (forall s :: s in Statuses ==> s in old(codes)) {
        NothingMissing(start);
      }
    }

    static lemma NothingMissing(table: seq<string>)
      requires forall s :: s in Statuses ==> s in table
      ensures Missing(table, |Statuses|) == []
    {
      assert Statuses[..|Statuses|] == Statuses;
    }
  }
}
