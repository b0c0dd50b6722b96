/** Seals: a predicate of the form `forall t :: Open(seal, t) ==> body` says `body`, but a proof sees
    that only when it opens this kind of seal. */
module Seals {
  datatype Seal =
    | InvariantSeal | AcquireSeal | WriteSeal | InsertionSeal | EvictSeal | CheckSeal | SetSeal | ScanSeal
    | ExecuteSeal | PassSeal
    | ElementSeal | FieldSeal | CursorSeal | RoundSeal | RejectSeal | StepSeal | AfterSeal

  ghost predicate Open(seal: Seal, t: bool) { true }
}
