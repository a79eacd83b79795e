/** Verdicts, outcomes and identities shared by the action, reporting and duration models. */
module Results {

  datatype Option<+T> = None | Some(value: T)

  type Name = string

  type Byte = n: nat | n < 256 witness 0
  type U32 = n: nat | n < 0x1_0000_0000 witness 0
  type U64 = n: nat | n < 0x1_0000_0000_0000_0000 witness 0

  const U64_MAX: U64 := 0xFFFF_FFFF_FFFF_FFFF

  datatype TestVerdict = Pass | Fail | Skip | Omitted | Fatal | Timeout | InfraFailure {
    /** Whether the verdict counts against the run before quarantine is considered. */
    predicate IsFailure() {
      Fail? || Fatal? || Timeout? || InfraFailure?
    }
  }

  datatype FailureClass = ClassFail | ClassFatal | ClassTimeout | ClassInfra

  /** Exactly the failures have a class, and different failures have different ones. */
  function FailureClassOf(verdict: TestVerdict): (class_: Option<FailureClass>)
    ensures class_.Some? <==> verdict.IsFailure()
    ensures class_ == Some(ClassFail) ==> verdict == Fail
    ensures class_ == Some(ClassFatal) ==> verdict == Fatal
    ensures class_ == Some(ClassTimeout) ==> verdict == Timeout
    ensures class_ == Some(ClassInfra) ==> verdict == InfraFailure
  {
    match verdict
    case Fail => Some(ClassFail)
    case Fatal => Some(ClassFatal)
    case Timeout => Some(ClassTimeout)
    case InfraFailure => Some(ClassInfra)
    case Pass => None
    case Skip => None
    case Omitted => None
  }

  /** Whether a test's terminal result was seen, or only inferred from its absence. */
  datatype ResultIntegrity = Complete | MissingTerminalResult

  datatype ProcessOutcome = Finished(exitCode: int) | TimedOut

  datatype ExecKind = Local | RemoteCacheHit | RemoteExecuted | OmittedLocally | Worker | UnknownKind

  datatype Environment = LocalEnvironment | RemoteEnvironment

  datatype AttemptExecution = Physical(environment: Environment) | CacheServed | Unknown

  /** Only an action that ran has an environment, and a hit in the remote cache did not run. */
  function ExecutionOf(kind: ExecKind): (execution: AttemptExecution)
    ensures execution == Physical(LocalEnvironment) <==> kind == Local || kind == Worker
    ensures execution == Physical(RemoteEnvironment) <==> kind == RemoteExecuted
    ensures execution == CacheServed <==> kind == RemoteCacheHit
    ensures execution == Unknown <==> kind == OmittedLocally || kind == UnknownKind
  {
    match kind
    case Local => Physical(LocalEnvironment)
    case Worker => Physical(LocalEnvironment)
    case RemoteExecuted => Physical(RemoteEnvironment)
    case RemoteCacheHit => CacheServed
    case OmittedLocally => Unknown
    case UnknownKind => Unknown
  }

  datatype AttemptDuration = Measured(elapsed: nat) | Unmeasured

  predicate Distinct<T(==)>(s: seq<T>) {
    forall i, j :: 0 <= i < j < |s| ==> s[i] != s[j]
  }
}
