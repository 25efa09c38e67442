/** The typed working-state records. */
module Records {
  import opened Text

  datatype Kind = KTask | KConstraint | KFailure | KDecision | KAvoid | KAssumption | KInvalidated | KNext | KPage | KFault

  /** Priorities, sources and scopes are free strings in the format; only lint restricts them. */
  datatype Record =
    | Task(id: string, phase: string, priority: string, goal: string, branch: string, commit: string, dirty: string)
    | Constraint(id: string, strength: string, source: string, text: string, scope: string)
    | Failure(id: string, cmd: string, exit: int, err: string, fileHint: string, raw: string)
    | Decision(id: string, chosen: string, because: string, refs: string, scope: string)
    | Avoid(id: string, reason: string, text: string, ref: string)
    | Assumption(id: string, status: string, text: string, evidence: string)
    | Invalidated(id: string, target: string, reason: string)
    | NextStep(action: string, target: string, question: string)
    | PageRecord(id: string, kind: string, tier: string, summary: string, refs: string, scope: string, branch: string, stale: bool)
    | Fault(id: string, kind: string, target: string)
  {
    function RecordKind(): Kind {
      match this
      case Task(_, _, _, _, _, _, _) => KTask
      case Constraint(_, _, _, _, _) => KConstraint
      case Failure(_, _, _, _, _, _) => KFailure
      case Decision(_, _, _, _, _) => KDecision
      case Avoid(_, _, _, _) => KAvoid
      case Assumption(_, _, _, _) => KAssumption
      case Invalidated(_, _, _) => KInvalidated
      case NextStep(_, _, _) => KNext
      case PageRecord(_, _, _, _, _, _, _, _) => KPage
      case Fault(_, _, _) => KFault
    }

    /** The logical address; the next step and the anonymous fault have fixed ones. */
    function Id(): string {
      match this
      case NextStep(_, _, _) => "next"
      case Fault(id, _, _) => if id != "" then id else "fault"
      case Task(id, _, _, _, _, _, _) => id
      case Constraint(id, _, _, _, _) => id
      case Failure(id, _, _, _, _, _) => id
      case Decision(id, _, _, _, _) => id
      case Avoid(id, _, _, _) => id
      case Assumption(id, _, _, _) => id
      case Invalidated(id, _, _) => id
      case PageRecord(id, _, _, _, _, _, _, _) => id
    }
  }

  function KindName(k: Kind): string {
    match k
    case KTask => "task"
    case KConstraint => "constraint"
    case KFailure => "failure"
    case KDecision => "decision"
    case KAvoid => "avoid"
    case KAssumption => "assumption"
    case KInvalidated => "invalidated"
    case KNext => "next"
    case KPage => "page"
    case KFault => "fault"
  }

  function KindNamed(s: string): Option<Kind> {
    if s == "task" then Some(KTask)
    else if s == "constraint" then Some(KConstraint)
    else if s == "failure" then Some(KFailure)
    else if s == "decision" then Some(KDecision)
    else if s == "avoid" then Some(KAvoid)
    else if s == "assumption" then Some(KAssumption)
    else if s == "invalidated" then Some(KInvalidated)
    else if s == "next" then Some(KNext)
    else if s == "page" then Some(KPage)
    else if s == "fault" then Some(KFault)
    else None
  }

  lemma KindNamedOfName(k: Kind)
    ensures KindNamed(KindName(k)) == Some(k)
  {
  }
}
