/** A whole `drain_into_events` pass: the stream's own state and the events directory together. */
module TailerPass {
  import opened Codec
  import opened Tailer
  import opened EventsDir

  /** The position and leftover advance before the append is attempted, so a failed append loses the
      batch; otherwise the directory gains exactly the encoded batch, after any rotation it needs. */
  method DrainIntoEvents(state: TailState, files: EventsFiles, o: Observation, nanos: int, stream: Stream)
    returns (ok: bool)
    requires files.slots.Length == MAX_ROTATED_FILES + 1
    modifies state, files, files.slots
    ensures var r := Pass(old(state.Value()), o);
            && state.Value() == r.state && ok == r.ok
            && files.Value() == if r.appended && r.cut.records != []
                                then Appended(old(files.Value()), BatchBytes(stream, UnixMillis(nanos), r.cut.records))
                                else old(files.Value())
  {
    hide CutBatch, EncodeAll, ReadAt, Appended;
    ghost var r := Pass(state.Value(), o);
    var batch;
    ok, batch := state.Drain(o, nanos, stream);
    EncodeAllEmptyIff(Entries(stream, UnixMillis(nanos), r.cut.records));
    if ok && batch != [] {
      if o.fault.AppendFault? {
        ok := false;
      } else {
        files.AppendBatch(batch);
      }
    }
  }
}
