// The Bucket custom resource: spec, labels, status and conditions.

module Api {
  import opened Wrappers
  import LifecycleRules

  datatype ConditionType = NoType | Ready | Synced
  datatype ConditionStatus = NoStatus | Unknown | IsTrue | IsFalse
  datatype Reason =
    | NoReason | AvailableReason | UnavailableReason | DeletingReason
    | SuccessReason | ErrorReason

  /** A condition without its transition time, which its comparison ignores. */
  datatype Condition = Condition(ctype: ConditionType, status: ConditionStatus, reason: Reason, message: string) {
    function WithMessage(m: string): Condition { this.(message := m) }
  }

  const AVAILABLE := Condition(Ready, IsTrue, AvailableReason, "")
  const UNAVAILABLE := Condition(Ready, IsFalse, UnavailableReason, "")
  const DELETING := Condition(Ready, IsFalse, DeletingReason, "")
  const RECONCILE_SUCCESS := Condition(Synced, IsTrue, SuccessReason, "")

  function ReconcileError(message: string): Condition { Condition(Synced, IsFalse, ErrorReason, message) }

  /** What the status records about the bucket on one backend. */
  datatype BackendInfo = BackendInfo(
    bucket: Condition,
    lifecycle: Option<Condition>,
    versioning: Option<Condition>,
    objectLock: Option<Condition>)

  const EMPTY_INFO := BackendInfo(Condition(NoType, NoStatus, NoReason, ""), None, None, None)

  type Backends = map<string, BackendInfo>

  datatype Status = Status(conditions: map<ConditionType, Condition>, backends: Backends) {
    function GetCondition(t: ConditionType): Condition {
      if t in conditions then conditions[t] else Condition(t, Unknown, NoReason, "")
    }
    function SetCondition(c: Condition): Status { this.(conditions := conditions[c.ctype := c]) }
  }

  type Labels = map<string, string>

  const TRUE_STR := "true"
  const PAUSED_LABEL := "crossplane.io/paused"
  const BACKEND_LABEL_PREFIX := "provider-ceph.backends."

  datatype Versioning = Versioning(status: string, mfaDelete: string)
  datatype ObjectLock = ObjectLock(enabled: string, rule: Option<Option<Retention>>)
  datatype Retention = Retention(mode: string, days: Option<int>, years: Option<int>)

  /** The fields of the spec that set permissions; None is a nil pointer. */
  datatype AccessSpec = AccessSpec(
    objectOwnership: Option<string>,
    acl: Option<string>,
    accessControlPolicy: Option<string>,
    grantFullControl: Option<string>,
    grantWrite: Option<string>,
    grantWriteACP: Option<string>,
    grantRead: Option<string>,
    grantReadACP: Option<string>)

  datatype Spec = Spec(
    providers: seq<string>,
    disabled: bool,
    lifecycleDisabled: bool,
    autoPause: bool,
    lifecycle: Option<seq<LifecycleRules.SpecRule>>,
    access: AccessSpec,
    policy: string,
    versioning: Option<Versioning>,
    objectLockEnabled: Option<bool>,
    objectLock: Option<ObjectLock>)
  {
    predicate LockEnabled() { objectLockEnabled == Some(true) }
  }

  /** The stored custom resource. */
  datatype CR = CR(name: string, spec: Spec, labels: Labels, status: Status, beingDeleted: bool)

  /** The in-memory Bucket that callbacks change before it is written back. */
  class Bucket {
    const name: string
    var spec: Spec
    var labels: Labels
    var status: Status

    constructor (cr: CR)
      ensures name == cr.name && spec == cr.spec && labels == cr.labels && status == cr.status
    {
      name, spec, labels, status := cr.name, cr.spec, cr.labels, cr.status;
    }
  }
}
