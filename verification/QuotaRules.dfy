/** Quota decisions over a snapshot of today's usage, with the addition of the source's int64. */
module QuotaRules {
  import opened Prelude

  const INT64_MAX: int := 0x7FFF_FFFF_FFFF_FFFF
  const INT64_MODULUS: int := 0x1_0000_0000_0000_0000

  function AddInt64(x: int, y: int): (r: int)
    ensures -INT64_MAX - 1 <= x + y <= INT64_MAX ==> r == x + y
  {
    (x + y + INT64_MAX + 1) % INT64_MODULUS - INT64_MAX - 1
  }

  datatype QuotaSnapshot = QuotaSnapshot(
    projectEnabled: bool, projectDailyLimit: int, projectDailyUsed: int,
    organizationEnabled: bool, organizationLimit: int, organizationUsed: int)

  datatype Reason = OrganizationQuotaExceeded | ProjectQuotaExceeded

  datatype Decision = Allowed | Rejected(reason: Reason)

  predicate QuotaExceeded(enabled: bool, used: int, limit: int, next: int) {
    if !enabled then false else AddInt64(used, next) > limit
  }

  function QuotaDecision(s: QuotaSnapshot): Decision {
    if QuotaExceeded(s.organizationEnabled, s.organizationUsed, s.organizationLimit, 1) then
      Rejected(OrganizationQuotaExceeded)
    else if QuotaExceeded(s.projectEnabled, s.projectDailyUsed, s.projectDailyLimit, 1) then
      Rejected(ProjectQuotaExceeded)
    else Allowed
  }

  function LogQuotaDecision(s: QuotaSnapshot, count: int): Decision {
    var next := if count < 1 then 1 else count;
    if QuotaExceeded(s.organizationEnabled, s.organizationUsed, s.organizationLimit, next) then
      Rejected(OrganizationQuotaExceeded)
    else if QuotaExceeded(s.projectEnabled, s.projectDailyUsed, s.projectDailyLimit, next) then
      Rejected(ProjectQuotaExceeded)
    else Allowed
  }

  /** The check compares the true sum exactly when the policy is off or the sum fits an int64;
      past that the sum wraps below zero and an enabled quota lets everything through. */
  lemma ExceededIsExact(enabled: bool, used: int, limit: int, next: int)
    requires 0 <= used <= INT64_MAX && 0 <= next <= INT64_MAX && 0 <= limit <= INT64_MAX
    ensures (QuotaExceeded(enabled, used, limit, next) <==> enabled && used + next > limit)
        <==> !enabled || used + next <= INT64_MAX
  {
  }

  // The sums the checks make stay within an int64.
  predicate SumsFit(s: QuotaSnapshot, n: nat) {
    && 0 <= s.projectDailyUsed && s.projectDailyUsed + n <= INT64_MAX
    && 0 <= s.organizationUsed && s.organizationUsed + n <= INT64_MAX
  }

  /** Which decision is made, in numbers: the organization's limit is looked at first and names the
      refusal if it is passed, then the project's; a policy that is off never refuses. */
  lemma DecisionInNumbers(s: QuotaSnapshot, count: int)
    requires count <= INT64_MAX && SumsFit(s, if count < 1 then 1 else count)
    ensures
      var n := if count < 1 then 1 else count;
      var orgFull := s.organizationEnabled && s.organizationUsed + n > s.organizationLimit;
      var projectFull := s.projectEnabled && s.projectDailyUsed + n > s.projectDailyLimit;
      && (LogQuotaDecision(s, count) == Rejected(OrganizationQuotaExceeded) <==> orgFull)
      && (LogQuotaDecision(s, count) == Rejected(ProjectQuotaExceeded) <==> !orgFull && projectFull)
      && (LogQuotaDecision(s, count) == Allowed <==> !orgFull && !projectFull)
  {
  }

  // ---- a batch against the same records one by one ----

  function Admitted(s: QuotaSnapshot, n: nat): QuotaSnapshot {
    s.(projectDailyUsed := s.projectDailyUsed + n, organizationUsed := s.organizationUsed + n)
  }

  predicate SingleAllowed(s: QuotaSnapshot, i: nat) {
    LogQuotaDecision(Admitted(s, i), 1).Allowed?
  }

  /** A batch of n is allowed exactly when n single checks, each after one more record, are.
      When it is refused, some single check is the first to refuse, with every earlier one
      allowed; and a batch refused for the project is refused for the project one by one. */
  lemma BatchEqualsSingles(s: QuotaSnapshot, n: nat)
    requires n >= 1 && SumsFit(s, n)
    ensures LogQuotaDecision(s, n).Allowed? <==> forall i :: 0 <= i < n ==> SingleAllowed(s, i)
    ensures LogQuotaDecision(s, n).Rejected? ==> exists i :: 0 <= i < n && FirstRefusal(s, i)
    ensures forall i :: 0 <= i < n && FirstRefusal(s, i) && LogQuotaDecision(s, n) == Rejected(ProjectQuotaExceeded)
              ==> LogQuotaDecision(Admitted(s, i), 1) == Rejected(ProjectQuotaExceeded)
  {
    if LogQuotaDecision(s, n).Allowed? {
      forall i | 0 <= i < n
        ensures SingleAllowed(s, i)
      {
      }
    } else {
      assert !SingleAllowed(s, n - 1);
      var i := FirstRefusedAt(s, n - 1);
      assert FirstRefusal(s, i);
    }
  }

  predicate FirstRefusal(s: QuotaSnapshot, i: nat) {
    !SingleAllowed(s, i) && forall j :: 0 <= j < i ==> SingleAllowed(s, j)
  }

  lemma FirstRefusedAt(s: QuotaSnapshot, last: nat) returns (i: nat)
    requires !SingleAllowed(s, last)
    ensures i <= last && FirstRefusal(s, i)
  {
    i := 0;
    while SingleAllowed(s, i)
      invariant i <= last && forall j :: 0 <= j < i ==> SingleAllowed(s, j)
      decreases last - i
    {
      i := i + 1;
    }
  }

  /** How many records get in one by one: as many as the tighter enabled limit has room for. */
  lemma FirstRefusalIsHeadroom(s: QuotaSnapshot, i: nat)
    requires SumsFit(s, i + 1) && FirstRefusal(s, i)
    ensures
      var orgRoom := if s.organizationUsed > s.organizationLimit then 0 else s.organizationLimit - s.organizationUsed;
      var projectRoom := if s.projectDailyUsed > s.projectDailyLimit then 0 else s.projectDailyLimit - s.projectDailyUsed;
      && (s.organizationEnabled ==> i <= orgRoom)
      && (s.projectEnabled ==> i <= projectRoom)
      && ((s.organizationEnabled && i == orgRoom) || (s.projectEnabled && i == projectRoom))
  {
    if i > 0 { assert SingleAllowed(s, i - 1); }
  }

  // The event path and the log path agree on one record, and an empty batch counts as one.
  lemma OneRecordDecision(s: QuotaSnapshot, count: int)
    requires count <= 1
    ensures LogQuotaDecision(s, count) == QuotaDecision(s)
  {
  }
}
