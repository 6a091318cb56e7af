/** What every data migration of the project does: walk all rows of a
    table in order, rewrite each through one function of the row, and save
    it. A table is an array of rows rewritten in place.
 */
module Migration {
  /** `for row in orm.Model.objects.all(): <rewrite row>; row.save()`. */
  method RewriteEach<T>(rows: array<T>, rewrite: T -> T)
    modifies rows
    ensures forall i :: 0 <= i < rows.Length ==> rows[i] == rewrite(old(rows[i]))
  {
    for i := 0 to rows.Length
      invariant forall j :: 0 <= j < i ==> rows[j] == rewrite(old(rows[j]))
      invariant forall j :: i <= j < rows.Length ==> rows[j] == old(rows[j])
    {
      rows[i] := rewrite(rows[i]);
    }
  }
}
