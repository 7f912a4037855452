/**
 * The container picker of the move dialog: the classification of the
 * objects being moved (ordinary objects, servers inside the sites
 * container, or a mix of both) and the list of destination sites offered
 * for servers. The sites-container DN, the domain DN and the directory
 * search results are parameters.
 */
module SelectContainer {
  import opened QtText

  datatype ContainerType = Default | SiteServers | Undefined

  /** The DN lies inside the sites container: its text contains the container's DN. */
  predicate InSites(dn: string, sitesDn: string)
  {
    Contains(dn, sitesDn)
  }

  /**
   * parent_container_type: an empty list is Default; otherwise the first DN
   * decides between SiteServers and Default, and the scan turns the result
   * into Undefined and stops at the first DN on the other side. The ghost
   * stoppedAt is the index the scan stopped at.
   */
  method ParentContainerType(objDns: seq<string>, sitesDn: string) returns (t: ContainerType, ghost stoppedAt: int)
    ensures |objDns| == 0 ==> t == Default
    ensures |objDns| > 0 && (forall i :: 0 <= i < |objDns| ==> InSites(objDns[i], sitesDn)) ==> t == SiteServers
    ensures (forall i :: 0 <= i < |objDns| ==> !InSites(objDns[i], sitesDn)) ==> t == Default
    ensures ((exists i :: 0 <= i < |objDns| && InSites(objDns[i], sitesDn))
             && (exists j :: 0 <= j < |objDns| && !InSites(objDns[j], sitesDn))) ==> t == Undefined
    ensures t == Undefined ==> (0 < stoppedAt < |objDns|
             && InSites(objDns[stoppedAt], sitesDn) != InSites(objDns[0], sitesDn)
             && forall k :: 0 <= k < stoppedAt ==> InSites(objDns[k], sitesDn) == InSites(objDns[0], sitesDn))
  {
    t := Default;
    stoppedAt := |objDns|;
    if |objDns| == 0 {
      return;
    }
    if InSites(objDns[0], sitesDn) {
      t := SiteServers;
    }
    var i := 0;
    while i < |objDns|
      invariant 0 <= i <= |objDns|
      invariant t == (if InSites(objDns[0], sitesDn) then SiteServers else Default)
      invariant forall k :: 0 <= k < i ==> InSites(objDns[k], sitesDn) == InSites(objDns[0], sitesDn)
    {
      var inside := InSites(objDns[i], sitesDn);
      if (!inside && t == SiteServers) || (inside && t == Default) {
        t := Undefined;
        stoppedAt := i;
        return;
      }
      i := i + 1;
    }
  }

  /** Every DN of the list contains the given parent DN. */
  predicate AllContain(objDns: seq<string>, parentDn: string)
  {
    forall i :: 0 <= i < |objDns| ==> Contains(objDns[i], parentDn)
  }

  /** The same_parent flag of setup_site_container_list: cleared by any DN that does not contain the parent DN. */
  method SameParent(objDns: seq<string>, parentDn: string) returns (same: bool)
    ensures same <==> AllContain(objDns, parentDn)
  {
    same := true;
    for i := 0 to |objDns|
      invariant same <==> AllContain(objDns[..i], parentDn)
    {
      if !Contains(objDns[i], parentDn) {
        same := false;
      }
    }
    assert objDns[..|objDns|] == objDns;
  }

  /**
   * One site found under the sites container: its DN, its name, and the DNs
   * of the servers containers below it in the order the search yields them.
   */
  datatype SiteEntry = SiteEntry(dn: string, name: string, serversContainers: seq<string>)

  /** A row of the picker: a container of the domain tree, a site offered for servers, or a message. */
  datatype Row = ContainerNode(dn: string) | SiteItem(name: string, dn: string) | MessageRow(text: string)

  const UNDEFINED_MESSAGE: string := "Failed to define suitable containers"

  /**
   * A site is left out when the moved servers all sit under one parent whose
   * DN contains the site's DN (their own site), or when it has no servers
   * container.
   */
  predicate Skipped(site: SiteEntry, parentDn: string, sameParent: bool)
  {
    (Contains(parentDn, site.dn) && sameParent) || |site.serversContainers| == 0
  }

  /** The row of a listed site: its name, carrying its first servers container's DN. */
  function SiteRow(site: SiteEntry): (r: Row)
    requires |site.serversContainers| > 0
    ensures r.SiteItem? && r.name == site.name && r.dn in site.serversContainers
  {
    SiteItem(site.name, site.serversContainers[0])
  }

  /** The rows setup_site_container_list appends, site by site in search order. */
  function SiteRows(sites: seq<SiteEntry>, parentDn: string, sameParent: bool): (rows: seq<Row>)
    ensures |rows| <= |sites|
  {
    if |sites| == 0 then []
    else
      var last := sites[|sites| - 1];
      SiteRows(sites[..|sites| - 1], parentDn, sameParent)
        + (if Skipped(last, parentDn, sameParent) then [] else [SiteRow(last)])
  }

  /** Each row is the row of a site that is not skipped, and every site that is not skipped has its row. */
  lemma {:induction false} SiteRowsMembers(sites: seq<SiteEntry>, parentDn: string, sameParent: bool)
    ensures forall r :: r in SiteRows(sites, parentDn, sameParent) ==>
              exists k :: 0 <= k < |sites| && !Skipped(sites[k], parentDn, sameParent) && r == SiteRow(sites[k])
    ensures forall k :: 0 <= k < |sites| && !Skipped(sites[k], parentDn, sameParent) ==>
              SiteRow(sites[k]) in SiteRows(sites, parentDn, sameParent)
  {
    if |sites| > 0 {
      var init := sites[..|sites| - 1];
      SiteRowsMembers(init, parentDn, sameParent);
      forall r | r in SiteRows(sites, parentDn, sameParent)
        ensures exists k :: 0 <= k < |sites| && !Skipped(sites[k], parentDn, sameParent) && r == SiteRow(sites[k])
      {
        if r in SiteRows(init, parentDn, sameParent) {
          var k :| 0 <= k < |init| && !Skipped(init[k], parentDn, sameParent) && r == SiteRow(init[k]);
          assert sites[k] == init[k];
        } else {
          assert r == SiteRow(sites[|sites| - 1]);
        }
      }
      forall k | 0 <= k < |sites| && !Skipped(sites[k], parentDn, sameParent)
        ensures SiteRow(sites[k]) in SiteRows(sites, parentDn, sameParent)
      {
        if k < |init| {
          assert sites[k] == init[k];
        }
      }
    }
  }

  /**
   * When the servers share their parent, a site whose DN the parent contains
   * is not offered (its servers container appears in no row, provided no
   * other site shares it).
   */
  lemma OwnSiteNotOffered(sites: seq<SiteEntry>, parentDn: string, k: int)
    requires 0 <= k < |sites| && Contains(parentDn, sites[k].dn)
    requires forall j :: (0 <= j < |sites| && j != k && |sites[j].serversContainers| > 0
               && |sites[k].serversContainers| > 0) ==> sites[j].serversContainers[0] != sites[k].serversContainers[0]
    ensures |sites[k].serversContainers| > 0 ==> SiteRow(sites[k]) !in SiteRows(sites, parentDn, true)
  {
    SiteRowsMembers(sites, parentDn, true);
  }

  /** The row model of the picker. */
  class SelectContainerDialog {
    var rows: seq<Row>

    /**
     * The constructor: classify the moved objects and fill the model with
     * the domain's head container, the site list, or the failure message.
     * parentOfFirst is the parent DN of the first moved object.
     */
    constructor (objDns: seq<string>, sitesDn: string, domainDn: string, parentOfFirst: string, sites: seq<SiteEntry>)
      ensures |objDns| == 0 ==> rows == [ContainerNode(domainDn)]
      ensures |objDns| > 0 && (forall i :: 0 <= i < |objDns| ==> InSites(objDns[i], sitesDn))
              ==> rows == SiteRows(sites, parentOfFirst, AllContain(objDns, parentOfFirst))
      ensures (forall i :: 0 <= i < |objDns| ==> !InSites(objDns[i], sitesDn)) ==> rows == [ContainerNode(domainDn)]
      ensures ((exists i :: 0 <= i < |objDns| && InSites(objDns[i], sitesDn))
               && (exists j :: 0 <= j < |objDns| && !InSites(objDns[j], sitesDn))) ==> rows == [MessageRow(UNDEFINED_MESSAGE)]
    {
      rows := [];
      new;
      var t, _ := ParentContainerType(objDns, sitesDn);
      match t
      case Default =>
        SetupDefaultContainerTree(domainDn);
      case SiteServers =>
        SetupSiteContainerList(objDns, parentOfFirst, sites);
      case Undefined =>
        SetupUndefinedViewState();
    }

    /** setup_default_container_tree: the domain's head object becomes the single top node. */
    method SetupDefaultContainerTree(domainDn: string)
      modifies this
      ensures rows == old(rows) + [ContainerNode(domainDn)]
    {
      rows := rows + [ContainerNode(domainDn)];
    }

    /** setup_undefined_view_state: a single message row. */
    method SetupUndefinedViewState()
      modifies this
      ensures rows == old(rows) + [MessageRow(UNDEFINED_MESSAGE)]
    {
      rows := rows + [MessageRow(UNDEFINED_MESSAGE)];
    }

    /**
     * setup_site_container_list: nothing for an empty list; otherwise one
     * row per site that is not skipped, in search order.
     */
    method SetupSiteContainerList(objDns: seq<string>, parentDn: string, sites: seq<SiteEntry>)
      modifies this
      ensures |objDns| == 0 ==> rows == old(rows)
      ensures |objDns| > 0 ==> rows == old(rows) + SiteRows(sites, parentDn, AllContain(objDns, parentDn))
    {
      if |objDns| == 0 {
        return;
      }
      var same := SameParent(objDns, parentDn);
      for i := 0 to |sites|
        invariant rows == old(rows) + SiteRows(sites[..i], parentDn, same)
      {
        assert sites[..i + 1][..i] == sites[..i];
        var site := sites[i];
        if Contains(parentDn, site.dn) && same {
          continue;
        }
        if |site.serversContainers| == 0 {
          continue;
        }
        rows := rows + [SiteRow(site)];
      }
      assert sites[..|sites|] == sites;
    }
  }
}
