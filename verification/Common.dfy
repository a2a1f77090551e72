// Types shared by every module of the model.
module Common {
  datatype Option<+T> = None | Some(value: T)

  datatype Result<+T, +E> = Ok(value: T) | Err(error: E)

  // The sentinel errors of internal/domain/errors.go that the modelled code returns, and
  // ErrInternal for a statement the database rejects for any other reason.
  datatype Error = ErrNotFound | ErrValidation | ErrConflict | ErrUnsupportedMediaType | ErrInternal

  // A UUID read as its 128-bit big-endian number: byte order is then numeric order.
  type Uuid = nat

  // TIMESTAMPTZ: whole microseconds since the epoch.
  type Time = int

  const SECOND: int := 1_000_000
}
