/** The populaires app's data migration 0003: every rider gets the
    lower-cased copy of their last name the rider list is sorted by.
 */
module PopulaireMigrations {
  import opened Text
  import opened Migration

  /** A populaire rider row as migration 0003 sees it. */
  datatype RiderRow = RiderRow(
    id: nat,
    firstName: string,
    lastName: string,
    lowercaseLastName: string,
    email: string,
    distance: int,
    populaire: nat)

  /** `rider.lowercase_last_name = rider.last_name.lower()`. */
  function LowercaseRider(r: RiderRow): RiderRow {
    r.(lowercaseLastName := ToLower(r.lastName))
  }

  /** The rider table after `forwards`: only the sort key changes. */
  function LowercasedRiders(s: seq<RiderRow>): (r: seq<RiderRow>)
    ensures |r| == |s|
    ensures forall i :: 0 <= i < |s| ==> r[i].(lowercaseLastName := s[i].lowercaseLastName) == s[i]
  {
    seq(|s|, i requires 0 <= i < |s| => LowercaseRider(s[i]))
  }

  /** `forwards` of migration 0003. */
  method ForwardsLowercase(riders: array<RiderRow>)
    modifies riders
    ensures riders[..] == LowercasedRiders(old(riders[..]))
  {
    RewriteEach(riders, LowercaseRider);
  }

  /** `backwards` of migration 0003 does nothing. */
  method BackwardsLowercase(riders: array<RiderRow>)
    ensures riders[..] == old(riders[..])
  {
  }

  /** After `forwards` every rider's sort key is their lower-cased last
      name, with no capital letter left, and running `forwards` again
      changes nothing. */
  lemma LowercaseRidersKeys(s: seq<RiderRow>)
    ensures forall i :: 0 <= i < |s| ==> LowercasedRiders(s)[i].lowercaseLastName == ToLower(s[i].lastName)
    ensures forall i, k :: 0 <= i < |s| && 0 <= k < |LowercasedRiders(s)[i].lowercaseLastName| ==>
      !('A' <= LowercasedRiders(s)[i].lowercaseLastName[k] <= 'Z')
    ensures LowercasedRiders(LowercasedRiders(s)) == LowercasedRiders(s)
  {
    var f := LowercasedRiders(s);
    forall i | 0 <= i < |s|
      ensures f[i].lowercaseLastName == ToLower(s[i].lastName)
      ensures forall k :: 0 <= k < |f[i].lowercaseLastName| ==> !('A' <= f[i].lowercaseLastName[k] <= 'Z')
    {
      ToLowerIdempotent(s[i].lastName);
    }
    var g := LowercasedRiders(f);
    assert forall i :: 0 <= i < |s| ==> g[i] == f[i];
  }
}
