// What a compliance status is called and coded on its way from a delivery to the
// chain and back to the read model (server/internal/compliance/webhook.go:152,
// server/internal/compliance/status.go:30-43,
// server/internal/compliance/projector.go:9-15).
module StatusMeaning {
  import opened Wrappers
  import KycModel
  import KycService
  import ComplianceReplay

  // The text a decision's outcome is stored as.
  function OutcomeText(o: KycModel.Outcome): string {
    match o
    case Allowed => "Allowed"
    case Blocked => "Blocked"
    case InReview => "Pending"
  }

  // The value SetStatus sends for it.
  function StatusFromString(s: string): Option<nat> {
    if s == "Unknown" then Some(0)
    else if s == "Allowed" then Some(1)
    else if s == "Blocked" then Some(2)
    else None
  }

  function StatusText(s: ComplianceReplay.Status): string {
    match s
    case Unknown => "Unknown"
    case Allowed => "Allowed"
    case Blocked => "Blocked"
  }

  // A delivery is taken for exactly three texts, and stored under the same one.
  lemma OutcomeKeepsText(s: string)
    ensures KycService.OutcomeOf(s).Some? <==> s == "Allowed" || s == "Blocked" || s == "Pending"
    ensures KycService.OutcomeOf(s).Some? ==> OutcomeText(KycService.OutcomeOf(s).value) == s
  {
  }

  // From the text delivered, over the value on the chain, to the text shown: a
  // decision that is sent at all is shown as it was delivered, and the one kind
  // that is never sent is the one that is under review.
  lemma StatusSurvives(s: string)
    requires KycService.OutcomeOf(s).Some?
    ensures var o := KycService.OutcomeOf(s).value;
            var value := StatusFromString(OutcomeText(o));
            && (value.None? <==> o == KycModel.InReview) && (value.None? <==> s == "Pending")
            && (value.Some? ==> StatusText(ComplianceReplay.StatusName(value.value)) == s)
  {
  }

  // And over a reconciliation: an account whose latest event carries the value
  // sent for a delivered text shows that text.
  lemma DeliveredIsShown(s: string, e: ComplianceReplay.Event, account: string, validUntil: nat,
      shown: ComplianceReplay.Investor)
    requires KycService.OutcomeOf(s).Some? && StatusFromString(s).Some?
    requires ComplianceReplay.Changes(e, account, StatusFromString(s).value, validUntil)
    requires ComplianceReplay.Shown(shown, StatusFromString(s).value, validUntil)
    ensures StatusText(shown.status) == s
  {
  }
}
