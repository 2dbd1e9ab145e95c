/** The backing file `items.json` and the ways the calls that read and write it
    can fail. Both generations of the store keep their whole collection in one
    file and rewrite it completely on every save; the byte format (JSON) is not
    modelled, only the value the file decodes to. */
module Io {

  datatype Option<+T> = None | Some(value: T)

  /** What the backing file holds: nothing (the open reports "does not exist"),
      a collection written by a successful encode, or the remains of a save
      that truncated the file and then failed to write it, taken to no longer
      decode. */
  datatype File<+C> = Absent | Holds(content: C) | Damaged

  /** The first call of a save that fails: creating (truncating) the file,
      encoding into it, or closing it. */
  datatype SaveStep = CreateFile | Encode | CloseAfterEncode

  /** The first call of a load that fails. `OpenFile` is an open error other than
      "does not exist"; `Bootstrap` is the save that writes an empty
      collection when the file is absent; `Reopen` is opening that freshly
      written file again (only the map store does this); `Decode` and
      `CloseAfterDecode` are the calls on the opened file. */
  datatype LoadStep = OpenFile | Bootstrap(step: SaveStep) | Reopen | Decode | CloseAfterDecode

  /** The in-memory collection together with the backing file. */
  datatype Snapshot<C> = Snapshot(items: C, file: File<C>)

  /** The state a load leaves behind and the error it reports, if any. */
  datatype Loaded<C> = Loaded(state: Snapshot<C>, err: Option<LoadStep>)

  /** The file after a save of `content` whose first failing call is `fault`.
      A failed create leaves the old file; a failed encode leaves a truncated,
      partly written file; a failed close comes after the unbuffered write, so
      the content is already on disk although the save reports the error. */
  function Saved<C>(file: File<C>, content: C, fault: Option<SaveStep>): File<C>
  {
    match fault
    case None => Holds(content)
    case Some(CreateFile) => file
    case Some(Encode) => Damaged
    case Some(CloseAfterEncode) => Holds(content)
  }

  /** The fault a load hands on to the save it makes when the file is absent. */
  function BootstrapFault(fault: Option<LoadStep>): (r: Option<SaveStep>)
    ensures r.Some? <==> fault.Some? && fault.value.Bootstrap?
    ensures r.Some? ==> fault == Some(Bootstrap(r.value))
  {
    if fault.Some? && fault.value.Bootstrap? then Some(fault.value.step) else None
  }
}
