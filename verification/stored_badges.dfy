/** How stored statuses meet the status badge: because the save replaces a
    missing or zero code by 200, a status read back from storage never
    renders as the network-error badge. */
module StoredBadges {
  import opened Base
  import opened Strings
  import opened Trackers
  import opened StatusBadge
  import opened Storage
  import Scanner

  /** Whatever codes the trackers carried, no stored status is labelled
      "Error" or shown without a badge. */
  lemma StoredStatusesNeverError(info: seq<Tracker>)
    ensures forall x :: x in ToDomainStatuses(info) ==>
                          Render(Some(x.status)).Some? && Render(Some(x.status)).value.text != ErrorLabel
  {
    forall x | x in ToDomainStatuses(info)
      ensures Render(Some(x.status)).value.text != ErrorLabel
    {
      assert x.status != NetworkErrorCode;
      assert ParseInt(ErrorLabel) == None;
    }
  }

  /** The badge of the default status. */
  lemma DefaultStatusBadge()
    ensures Render(Some(DefaultStatus)) == Some(BadgeView(Green, "200"))
  {
    assert IntToDecimal(200) == "200";
  }

  /** The trackers a page scan reports carry no code, so each of them is
      stored with status 200. */
  lemma ScannedStatusIsDefault(ds: seq<string>, x: DomainStatus)
    requires x in ToDomainStatuses(Scanner.AsTrackers(ds))
    ensures x.status == DefaultStatus
  {
    var info := Scanner.AsTrackers(ds);
    var t :| t in info && HasDomain(t) && x == AsDomainStatus(t);
    var j :| 0 <= j < |info| && info[j] == t;
  }

  /** Every domain a page scan found is shown with a green "200". */
  lemma ScannedDomainsShowGreen(ds: seq<string>)
    ensures forall x :: x in ToDomainStatuses(Scanner.AsTrackers(ds)) ==>
                          Render(Some(x.status)) == Some(BadgeView(Green, "200"))
  {
    DefaultStatusBadge();
    forall x | x in ToDomainStatuses(Scanner.AsTrackers(ds))
      ensures Render(Some(x.status)) == Some(BadgeView(Green, "200"))
    {
      ScannedStatusIsDefault(ds, x);
    }
  }
}
