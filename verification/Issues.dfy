/** Issue rows: what is broken on a resource, how badly, and who detected it. */
module Issues {

  datatype Severity = Critical | Warning

  datatype Source = Problem | MissingRef | Scheduling | Condition

  datatype Category =
    | Unknown
    | Unschedulable | QuotaExceeded | AdmissionWebhookBlocking
    | ImagePullFailed | ContainerWaiting | InitContainerFailed
    | CrashLoop | OOMKilled | LivenessProbeFail | ReadinessFailed
    | WorkloadDegraded | HighRestart | JobFailed | CronJobFailed
    | MissingConfigRef | PDBBlocksEvictions | SecretSyncFailed
    | ServiceNoEndpoints | IngressBackendMissing | LoadBalancerPending
    | GatewayNotReady | GatewayRouteInvalid | DNSFailure | NetworkPolicyBlock
    | PVCPending | PVCLost | PVFailed | PVCResizeFailed | VolumeMountFailed | VolumeAccessModeConflict
    | RolloutStalled | HPALimitedOrFailed
    | RBACForbidden | CertificateNotReady | PodSecurityViolation
    | TerminationStuck | NodeNotReady | APIServiceUnavailable | NodeProvisioningFail
    | CrossplaneReconcile | OperatorConditionFail | GitOpsSyncFailed | GitOpsRenderFailed
    | GitOpsSpecInvalid | GitOpsOperationFailed | GitOpsOutOfSync | GitOpsHealthDegraded
    | WebhookBackendDown | ControlPlaneNotReady | MachineNotReady

  datatype Ref = Ref(group: string, kind: string, namespace: string, name: string)

  const NO_REF := Ref("", "", "", "")

  /** A parsed cause with its remedy; the empty one stands for none. */
  datatype Diagnosis = Diagnosis(cause: string, action: string, remediationKind: string, remediationTarget: string,
                                 operationRetryCount: int, stuck: bool)

  const NO_DIAGNOSIS := Diagnosis("", "", "", "", 0, false)

  datatype Timing = NoTiming | AtCreation | AfterHealthy

  datatype Affected = Affected(pods: nat, workloads: nat, services: nat, pvcs: nat, nodes: nat)

  const NONE_AFFECTED := Affected(0, 0, 0, 0, 0)

  /** Instants are numbers, 0 for the zero time. `owner` is the topmost owner, of empty kind
      when none was resolved. */
  datatype Issue = Issue(
    severity: Severity, source: Source, category: Category, categoryGroup: string, id: string, scope: string,
    ref: Ref, reason: string, message: string, diagnosis: Diagnosis,
    firstSeen: nat, lastSeen: nat, count: nat, owner: Ref, fingerprint: string,
    restartCount: int, lastTerminatedReason: string,
    affected: Affected, members: seq<Ref>, membersTruncated: bool,
    timing: Timing, timingBasis: string)

  function SeverityRank(s: Severity): nat {
    match s
    case Critical => 3
    case Warning => 2
  }

  function SourceName(s: Source): string {
    match s
    case Problem => "problem"
    case MissingRef => "missing_ref"
    case Scheduling => "scheduling"
    case Condition => "condition"
  }

  /** The resource an issue is grouped under: the topmost owner if there is one. */
  function Subject(i: Issue): Ref {
    if i.owner.kind != "" then i.owner else i.ref
  }
}
