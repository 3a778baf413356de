// The records of the mock-store era (app/types.ts): parts, part items and the
// `Process` union, which says READY where the newer code says ASSEMBLED.

module AppTypes {
  import opened Common
  import Stages

  /** `Process`. DEFECTIVE is not in the declared union, but the defect action
      of this era stores it all the same, so the model admits it. */
  datatype Process =
    | UNPRINTED
    | PRINTED
    | SURFACE_TREATMENT
    | CUTTING
    | PAINTING
    | READY
    | DEFECTIVE

  /** `Part`. The seed data leaves `project_id` out, hence the option. */
  datatype Part = Part(id: int, partNumber: string, projectId: Option<int>)

  /** `PartItem`. */
  datatype PartItem = PartItem(
    id: int,
    partId: int,
    storageCase: string,
    currentProcess: Process,
    completedAt: Option<Timestamp>)

  /** The PROCESSES key spelled like `p`, if some status is spelled so. */
  function KeyOf(p: Process): Option<Stages.ProcessStatus>
  {
    match p
    case UNPRINTED => Some(Stages.UNPRINTED)
    case PRINTED => Some(Stages.PRINTED)
    case SURFACE_TREATMENT => Some(Stages.SURFACE_TREATMENT)
    case CUTTING => Some(Stages.CUTTING)
    case PAINTING => Some(Stages.PAINTING)
    case READY => None
    case DEFECTIVE => Some(Stages.DEFECTIVE)
  }

  /** `processOrder.indexOf(p)`: indexOf compares spellings, so READY and
      DEFECTIVE, which no PROCESSES key spells, sit at -1. */
  function IndexOf(p: Process): (i: int)
    ensures -1 <= i < |Stages.Processes|
    ensures i >= 0 ==> KeyOf(p) == Some(Stages.Processes[i])
    ensures i == -1 <==> p == READY || p == DEFECTIVE
  {
    match KeyOf(p)
    case None => -1
    case Some(s) => Stages.IndexOf(s)
  }
}
