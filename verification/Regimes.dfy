/** Account rule regimes: assignments of an account, packages of rules, and approvals. */
module Regimes {
  import opened Periods

  datatype PackageKey = PackageKey(id: string, revision: string)

  datatype Binding = Binding(package: PackageKey, effective: Period)

  /** `identified` says that every scope field is given and the agreement status is known. */
  datatype Assignment = Assignment(id: string, identified: bool, enrollment: Period, phase: Period, bindings: seq<Binding>)

  datatype Decision = Approved | Rejected

  datatype Approval = Approval(assignmentId: string, package: PackageKey, decision: Decision, effective: Period)

  ghost predicate ValidAssignment(a: Assignment, packages: map<PackageKey, Period>) {
    && Valid(a.enrollment) && Valid(a.phase)
    && forall i :: 0 <= i < |a.bindings| ==> Valid(a.bindings[i].effective) && a.bindings[i].package in packages
  }
}
