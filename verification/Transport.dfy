/** The immutable record of one datacenter, and the labels derived from it. */
module Transport {

  /** A transport, known to this model only by an identity. */
  type BackendId = nat

  datatype Endpoint = Endpoint(
    name: string,
    displayName: string,
    cluster: string,
    clusterLabel: string,
    backend: BackendId)
  {
    /** The operator-facing name: the display name when there is one. */
    function Label(): string {
      if displayName != "" then displayName else name
    }

    function ClusterLabelOrName(): string {
      if clusterLabel != "" then clusterLabel else cluster
    }

    function FullLabel(): string {
      Compose(ClusterLabelOrName(), Label())
    }
  }

  const SEPARATOR := " · "

  /** "Cluster · DC", or the DC alone when there is no cluster to show. */
  function Compose(cluster: string, dc: string): string {
    if cluster == "" then dc else cluster + SEPARATOR + dc
  }

  /** What is shown of an endpoint: the cluster's label, else its name, else nothing; then the same of the DC. */
  lemma FullLabelReads(ep: Endpoint)
    ensures ep.FullLabel() ==
              (if ep.clusterLabel != "" then ep.clusterLabel + " · " else if ep.cluster != "" then ep.cluster + " · " else "")
              + (if ep.displayName != "" then ep.displayName else ep.name)
  {
    var dc := if ep.displayName != "" then ep.displayName else ep.name;
    assert "" + dc == dc;
  }
}
