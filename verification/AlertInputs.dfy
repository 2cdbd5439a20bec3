/** Where the alert engine's snapshots come from: the listing of the latest metric table. */
module AlertInputs {
  import opened AlertRules
  import Metrics
  import MetricsStore

  /** The listing that feeds an evaluation names every host once, with its stored time. */
  lemma ListedHostsAreDistinct(latest: map<Metrics.Resource, Metrics.Sample>, listed: seq<MetricsStore.Latest>, snaps: seq<Snapshot>)
    requires MetricsStore.IsListing(latest, "host", listed) && |snaps| == |listed|
    requires forall i :: 0 <= i < |snaps| ==> snaps[i].resourceId == listed[i].id
    ensures SnapsOk(snaps)
  {
    forall i, j | 0 <= i < j < |snaps|
      ensures snaps[i].resourceId != snaps[j].resourceId
    {
      assert listed[i].id < listed[j].id;
    }
  }
}
