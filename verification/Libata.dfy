/** Types and notions the components of libata share. */
module Libata {

  datatype Option<+T> = None | Some(value: T)

  predicate Distinct<T(==)>(q: seq<T>) {
    forall i, j :: 0 <= i < j < |q| ==> q[i] != q[j]
  }

  function Elements<T(==)>(q: seq<T>): set<T> {
    set x | x in q
  }

  /** The bits of an error mask. */
  datatype Err = Dev | Hsm | Timeout | Media | AtaBus | HostBus | System | Invalid | Other | NodevHint | Ncq

  /** The error numbers the recovery code tells apart; a return code of 0 is None. */
  datatype Errno = EAGAIN | ENOENT | EINVAL | ERESTART | EPIPE | EIO | ENODEV | EOTHER

  datatype Class =
    | Unknown | Ata | AtaUnsup | Atapi | AtapiUnsup | Pmp | PmpUnsup | Semb | SembUnsup | NoDevice

  /** The bits of a recovery action mask. */
  datatype Action = Revalidate | SoftReset | HardReset | EnableLink | Lpm

  const RESET_MASK: set<Action> := {SoftReset, HardReset}

  predicate ClassEnabled(c: Class) {
    c == Ata || c == Atapi || c == Pmp || c == Semb
  }

  /** The class of a device that is being disabled. */
  function DisabledClass(c: Class): (d: Class)
    ensures !ClassEnabled(d) && (c == Unknown <==> d == Unknown)
  {
    match c
    case Ata => AtaUnsup
    case Atapi => AtapiUnsup
    case Pmp => PmpUnsup
    case Semb => SembUnsup
    case _ => c
  }
}
