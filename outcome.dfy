/** Error outcomes shared by the model: the Python exceptions the modelled code can raise. */
module Outcome {

  /** The exceptions of the modelled code, one constructor per cause. */
  datatype Error =
    | TableMissing        // sqlite3.OperationalError: no such table: attendance
    | DateOverflow        // OverflowError: date value out of range (timedelta arithmetic)
    | YearOutOfRange      // ValueError: year is out of range (datetime / replace)
    | DayOutOfRange       // ValueError: day is out of range for month (datetime / replace)
    | AppFolderNotFound   // Exception("Dossier 'app' introuvable dans le dépôt")

  datatype Result<T> = Ok(value: T) | Err(error: Error)

  datatype Option<T> = None | Some(value: T)
}
