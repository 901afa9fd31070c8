/**
 * The message boxes that end every user action (information, error, the
 * generic box shown for an exception), and a worksheet paired with the box
 * an action on it ends with.
 */
module Dialogs {
  import opened Sheet

  /**
   * An information box, an error box, the box shown for an exception (its
   * fixed prefix; the exception's own text follows it), or no box at all.
   */
  datatype Notice = Info(text: string) | Error(text: string) | Fault(prefix: string) | NoNotice

  /** A worksheet's rows after an action, and the box shown. */
  datatype Effect = Effect(rows: Table, notice: Notice)
}
