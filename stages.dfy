// Production stages: the `ProcessStatus` union of src/shared/types/index.ts and
// the stage order PROCESSES of app/constants.ts that the progress views rank
// statuses by.

module Stages {
  /** `ProcessStatus`: the six stages plus the side state DEFECTIVE. */
  datatype ProcessStatus =
    | UNPRINTED
    | PRINTED
    | CUTTING
    | SURFACE_TREATMENT
    | PAINTING
    | ASSEMBLED
    | DEFECTIVE

  /** The keys of PROCESSES, in stage order. DEFECTIVE is not among them. */
  const Processes: seq<ProcessStatus> :=
    [UNPRINTED, PRINTED, CUTTING, SURFACE_TREATMENT, PAINTING, ASSEMBLED]

  /** `processOrder.indexOf(s)`: the stage's position, or -1 when it is not a key. */
  function IndexOf(s: ProcessStatus): (i: int)
    ensures -1 <= i < |Processes|
    ensures i >= 0 ==> Processes[i] == s
    ensures i == -1 <==> s !in Processes
  {
    match s
    case UNPRINTED => 0
    case PRINTED => 1
    case CUTTING => 2
    case SURFACE_TREATMENT => 3
    case PAINTING => 4
    case ASSEMBLED => 5
    case DEFECTIVE => -1
  }

  /** Different statuses never share a rank. */
  lemma IndexOfInjective(a: ProcessStatus, b: ProcessStatus)
    ensures IndexOf(a) == IndexOf(b) ==> a == b
  {
  }
}
